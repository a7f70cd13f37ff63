// Small shared datatypes and sequence helpers.

module Prelude {
  datatype Option<+T> = None | Some(value: T)

  newtype byte = x: int | 0 <= x < 256

  /** Python truth of an optional string. */
  predicate Truthy(s: Option<string>) {
    s.Some? && s.value != ""
  }

  /** Python's str.isspace for one character. */
  predicate IsSpace(c: char) {
    || '\U{0009}' <= c <= '\U{000D}' || '\U{001C}' <= c <= '\U{0020}'
    || c == '\U{0085}' || c == '\U{00A0}' || c == '\U{1680}'
    || '\U{2000}' <= c <= '\U{200A}' || c == '\U{2028}' || c == '\U{2029}'
    || c == '\U{202F}' || c == '\U{205F}' || c == '\U{3000}'
  }

  /** The concatenation of a sequence of sequences. */
  function Concat<T>(parts: seq<seq<T>>): seq<T> {
    if parts == [] then [] else parts[0] + Concat(parts[1..])
  }

  lemma {:induction false} ConcatSnoc<T>(parts: seq<seq<T>>, last: seq<T>)
    ensures Concat(parts + [last]) == Concat(parts) + last
  {
    if parts == [] {
      assert Concat([last]) == last + Concat([]);
    } else {
      assert (parts + [last])[1..] == parts[1..] + [last];
      ConcatSnoc(parts[1..], last);
    }
  }

  /** How many elements of a sequence satisfy a test. */
  function CountIf<T>(s: seq<T>, p: T -> bool): nat {
    if s == [] then 0 else (if p(s[0]) then 1 else 0) + CountIf(s[1..], p)
  }

  lemma {:induction false} CountIfConcat<T>(a: seq<T>, b: seq<T>, p: T -> bool)
    ensures CountIf(a + b, p) == CountIf(a, p) + CountIf(b, p)
  {
    if a == [] {
      assert a + b == b;
    } else {
      assert (a + b)[1..] == a[1..] + b;
      CountIfConcat(a[1..], b, p);
    }
  }

  lemma {:induction false} CountIfNone<T>(s: seq<T>, p: T -> bool)
    requires forall i | 0 <= i < |s| :: !p(s[i])
    ensures CountIf(s, p) == 0
  {
    if s != [] {
      assert forall i | 0 <= i < |s[1..]| :: !p(s[1..][i]);
      CountIfNone(s[1..], p);
    }
  }

  lemma CountIfSmall<T>(a: T, b: T, p: T -> bool)
    ensures CountIf([a], p) == if p(a) then 1 else 0
    ensures CountIf([a, b], p) == (if p(a) then 1 else 0) + if p(b) then 1 else 0
  {
    assert forall x: T :: CountIf([x], p) == (if p(x) then 1 else 0) by {
      assert forall x: T :: [x][1..] == [];
    }
    assert [a, b][1..] == [b];
  }

  /** The first answer that is not None. */
  function FirstSome<T, R>(items: seq<T>, f: T -> Option<R>): Option<R> {
    if items == [] then None
    else if f(items[0]).Some? then f(items[0])
    else FirstSome(items[1..], f)
  }

  lemma {:induction false} FirstSomeConcat<T, R>(a: seq<T>, b: seq<T>, f: T -> Option<R>)
    ensures FirstSome(a + b, f) == if FirstSome(a, f).Some? then FirstSome(a, f) else FirstSome(b, f)
  {
    if a == [] {
      assert a + b == b;
    } else {
      assert (a + b)[1..] == a[1..] + b;
      FirstSomeConcat(a[1..], b, f);
    }
  }

  lemma FirstSomeStep<T, R>(x: T, rest: seq<T>, f: T -> Option<R>)
    ensures FirstSome([x] + rest, f) == if f(x).Some? then f(x) else FirstSome(rest, f)
  {
    assert ([x] + rest)[1..] == rest;
  }

  lemma {:induction false} FirstSomeIff<T, R>(items: seq<T>, f: T -> Option<R>)
    ensures FirstSome(items, f).Some? <==> exists x :: x in items && f(x).Some?
  {
    if items != [] {
      assert items == [items[0]] + items[1..];
      FirstSomeIff(items[1..], f);
    }
  }

  function Filter<T>(s: seq<T>, p: T -> bool): seq<T> {
    if s == [] then [] else (if p(s[0]) then [s[0]] else []) + Filter(s[1..], p)
  }

  lemma {:induction false} FilterCounts<T>(s: seq<T>, p: T -> bool, x: T)
    ensures multiset(Filter(s, p))[x] == if p(x) then multiset(s)[x] else 0
    ensures x in Filter(s, p) <==> x in s && p(x)
  {
    if s != [] {
      FilterCounts(s[1..], p, x);
      assert s == [s[0]] + s[1..];
    }
  }
}
