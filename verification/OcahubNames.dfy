// Names, addresses and directory matching of the ocahub protocol
// (pkgs/ocahub/src/ocahub/protocol.py) and target parsing (daemon.py).

module OcahubNames {
  import opened Prelude

  /** check_name accepts exactly these. */
  predicate ValidName(s: string) {
    s != "" && forall c | c in s :: c != '@' && !IsSpace(c)
  }

  /** check_cwd refuses a present value that is all white space. */
  predicate BlankCwd(cwd: Option<string>) {
    cwd.Some? && forall c | c in cwd.value :: IsSpace(c)
  }

  /** A valid name is not empty and holds no at sign, blank, tab or line break; a
      blank directory holds white space only, or nothing. */
  lemma NamesMean(s: string)
    ensures ValidName(s) <==> s != "" && '@' !in s && forall i | 0 <= i < |s| :: !IsSpace(s[i])
    ensures !BlankCwd(None) && (BlankCwd(Some(s)) <==> forall i | 0 <= i < |s| :: IsSpace(s[i]))
    ensures IsSpace(' ') && IsSpace('\t') && IsSpace('\n') && IsSpace('\r') && !IsSpace('@') && !IsSpace('a')
  {
    assert forall i | 0 <= i < |s| :: s[i] in s;
  }

  function Address(name: string, session: string): string {
    name + "@" + session
  }

  datatype Target = Target(name: string, session: Option<string>)

  /** Text before and after the last '@'. */
  function SplitLast(to: string): Option<(string, string)> {
    if to == "" then None
    else match SplitLast(to[1..])
      case Some((name, session)) => Some(([to[0]] + name, session))
      case None => if to[0] == '@' then Some(("", to[1..])) else None
  }

  /** `_parse_target`; None stands for ProtocolError. */
  function ParseTarget(to: string): Option<Target> {
    if to == "" then None
    else if '@' in to then
      match SplitLast(to)
      case Some((name, session)) =>
        if ValidName(name) && ValidName(session) then Some(Target(name, Some(session))) else None
      case None => None
    else if ValidName(to) then Some(Target(to, None)) else None
  }

  lemma {:induction false} SplitLastSound(to: string)
    ensures SplitLast(to).None? <==> '@' !in to
    ensures SplitLast(to).Some? ==>
              var (name, session) := SplitLast(to).value;
              to == Address(name, session) && '@' !in session
  {
    if to != "" { SplitLastSound(to[1..]); }
  }

  lemma AddressInjective(n1: string, s1: string, n2: string, s2: string)
    requires Address(n1, s1) == Address(n2, s2) && '@' !in s1 && '@' !in s2
    ensures n1 == n2 && s1 == s2
  {
    var to := Address(n1, s1);
    assert to == Address(n2, s2);
    assert forall i | |n1| < i < |to| :: to[i] == s1[i - |n1| - 1] && to[i] in s1;
    assert forall i | |n2| < i < |to| :: to[i] == s2[i - |n2| - 1] && to[i] in s2;
    assert to[|n1|] == '@' && to[|n2|] == '@';
    assert |n1| == |n2|;
    assert n1 == to[..|n1|] && n2 == to[..|n2|];
    assert s1 == to[|n1| + 1..] && s2 == to[|n2| + 1..];
  }

  /** Parsing accepts a bare valid name or a valid name and session joined by
      '@', nothing else, and takes the address apart again. */
  lemma ParseTargetExact(to: string, name: string, session: string)
    ensures ParseTarget(to) == Some(Target(name, Some(session)))
       <==> ValidName(name) && ValidName(session) && to == Address(name, session)
    ensures ParseTarget(to) == Some(Target(name, None)) <==> ValidName(name) && to == name
  {
    SplitLastSound(to);
    if ValidName(name) && ValidName(session) && to == Address(name, session) {
      assert to[|name|] == '@';
      var (n, s) := SplitLast(to).value;
      AddressInjective(name, session, n, s);
    }
  }

  // ---- directories -------------------------------------------------------

  function RStripSlash(s: string): string {
    if s != "" && s[|s| - 1] == '/' then RStripSlash(s[..|s| - 1]) else s
  }

  predicate Substring(a: string, b: string) {
    exists i | 0 <= i <= |b| :: a <= b[i..]
  }

  /** `cwd_match`: substring either way, without trailing slashes. */
  predicate CwdMatch(registered: string, query: string) {
    var r, q := RStripSlash(registered), RStripSlash(query);
    Substring(q, r) || Substring(r, q)
  }

  // ---- the order Python's max uses to break ties ---------------------------

  predicate LexLeq(a: string, b: string) {
    a == "" || (b != "" && (a[0] < b[0] || (a[0] == b[0] && LexLeq(a[1..], b[1..]))))
  }

  lemma {:induction false} LexTotal(a: string, b: string)
    ensures LexLeq(a, b) || LexLeq(b, a)
    ensures LexLeq(a, b) && LexLeq(b, a) ==> a == b
  {
    if a != "" && b != "" {
      LexTotal(a[1..], b[1..]);
      if a[0] == b[0] && a[1..] == b[1..] {
        assert a == [a[0]] + a[1..] == b;
      }
    }
  }

  lemma {:induction false} LexTransitive(a: string, b: string, c: string)
    requires LexLeq(a, b) && LexLeq(b, c)
    ensures LexLeq(a, c)
  {
    if a != "" && b != "" && c != "" && a[0] == b[0] && b[0] == c[0] {
      LexTransitive(a[1..], b[1..], c[1..]);
    }
  }

  /** A shorter beginning, or a smaller character at the first difference. */
  ghost predicate Precedes(a: string, b: string) {
    exists i :: PrecedesAt(a, b, i)
  }

  predicate PrecedesAt(a: string, b: string, i: int) {
    0 <= i <= |a| && i < |b| && a[..i] == b[..i] && (i < |a| ==> a[i] < b[i])
  }

  lemma FirstDiffers(a: string, b: string, i: int)
    requires PrecedesAt(a, b, i) && a != "" && b != ""
    ensures a[0] == b[0] || (i == 0 && a[0] < b[0])
  {
    if i > 0 { assert a[..i][0] == a[0] && b[..i][0] == b[0]; }
  }

  lemma {:induction false} LexMeans(a: string, b: string)
    ensures LexLeq(a, b) <==> a == b || Precedes(a, b)
  {
    if a == "" {
      if b != "" { assert PrecedesAt(a, b, 0); }
    } else if b != "" {
      if a[0] == b[0] {
        LexMeans(a[1..], b[1..]);
        assert a == b <==> a[1..] == b[1..] by { assert a == [a[0]] + a[1..] && b == [b[0]] + b[1..]; }
        if i :| PrecedesAt(a[1..], b[1..], i) {
          assert a[..i + 1] == [a[0]] + a[1..][..i] && b[..i + 1] == [b[0]] + b[1..][..i];
          assert PrecedesAt(a, b, i + 1);
        }
        if i :| PrecedesAt(a, b, i) {
          assert i > 0 && a[1..][..i - 1] == a[..i][1..] && b[1..][..i - 1] == b[..i][1..];
          assert PrecedesAt(a[1..], b[1..], i - 1);
        }
      } else {
        if a[0] < b[0] { assert PrecedesAt(a, b, 0); }
        if i :| PrecedesAt(a, b, i) { FirstDiffers(a, b, i); }
      }
    }
  }

  // ---- directories, again ------------------------------------------------------

  predicate Slashes(s: string) { forall i | 0 <= i < |s| :: s[i] == '/' }

  predicate Unslashed(s: string) { s == "" || s[|s| - 1] != '/' }

  lemma {:induction false} RStripMeans(s: string, slashes: string)
    requires Unslashed(s) && Slashes(slashes)
    ensures RStripSlash(s + slashes) == s
  {
    if slashes == "" {
      assert s + slashes == s;
    } else {
      var t, last := s + slashes, slashes[|slashes| - 1];
      assert t[|t| - 1] == last;
      assert t[..|t| - 1] == s + slashes[..|slashes| - 1];
      RStripMeans(s, slashes[..|slashes| - 1]);
    }
  }

  predicate OccursAt(a: string, b: string, i: nat) {
    i + |a| <= |b| && b[i..i + |a|] == a
  }

  /** Two directories match exactly if one occurs in the other, but for slashes at their ends. */
  lemma CwdMatchMeans(registered: string, slashes: string, query: string, more: string)
    requires Unslashed(registered) && Slashes(slashes) && Unslashed(query) && Slashes(more)
    ensures CwdMatch(registered + slashes, query + more) <==>
      (exists i: nat :: OccursAt(query, registered, i)) || (exists i: nat :: OccursAt(registered, query, i))
  {
    RStripMeans(registered, slashes);
    RStripMeans(query, more);
    SubstringMeans(query, registered);
    SubstringMeans(registered, query);
  }

  lemma SubstringMeans(a: string, b: string)
    ensures Substring(a, b) <==> exists i: nat :: OccursAt(a, b, i)
  {
    if i :| 0 <= i <= |b| && a <= b[i..] {
      assert b[i..i + |a|] == b[i..][..|a|] && OccursAt(a, b, i);
    }
    if i: nat :| OccursAt(a, b, i) {
      assert b[i..][..|a|] == b[i..i + |a|] && a <= b[i..];
    }
  }
}
