// Deep-merging settings into a file (pkgs/merged-file/src/mergedfile/merger.py).

module MergedFile {
  import opened Prelude

  /** A parsed value: a mapping, or anything else (scalars and lists), which
      merging never looks into. Leaves are equal when they are the same value. */
  datatype Value = Leaf(text: string) | Dict(entries: map<string, Value>)

  type Mapping = map<string, Value>

  /** `deep_merge`, with the choice it makes at each key. */
  function Merge(base: Value, overlay: Value): Value {
    if base.Dict? && overlay.Dict? then
      Dict(map k | k in base.entries.Keys + overlay.entries.Keys ::
             if k !in overlay.entries then base.entries[k]
             else if k in base.entries then Merge(base.entries[k], overlay.entries[k])
             else overlay.entries[k])
    else overlay
  }

  // ---- what is at a path ---------------------------------------------------------

  type Path = seq<string>

  function Get(v: Value, p: Path): Option<Value> {
    if p == [] then Some(v)
    else if v.Dict? && p[0] in v.entries then Get(v.entries[p[0]], p[1..])
    else None
  }

  function LeafAbove(v: Value, p: Path): bool {
    p != [] && (v.Leaf? || (p[0] in v.entries && LeafAbove(v.entries[p[0]], p[1..])))
  }

  lemma {:induction false} LeafAboveMeans(v: Value, p: Path)
    ensures LeafAbove(v, p) <==> exists i :: 0 <= i < |p| && Get(v, p[..i]).Some? && Get(v, p[..i]).value.Leaf?
  {
    if p == [] {
    } else if v.Leaf? {
      assert Get(v, p[..0]) == Some(v);
    } else if p[0] in v.entries {
      var below, rest := v.entries[p[0]], p[1..];
      LeafAboveMeans(below, rest);
      forall i | 0 <= i < |rest|
        ensures Get(v, p[..i + 1]) == Get(below, rest[..i])
      {
        assert p[..i + 1][1..] == rest[..i];
      }
      if LeafAbove(v, p) {
        var i :| 0 <= i < |rest| && Get(below, rest[..i]).Some? && Get(below, rest[..i]).value.Leaf?;
        assert Get(v, p[..i + 1]).value.Leaf?;
      } else {
        forall i | 0 <= i < |p| && Get(v, p[..i]).Some?
          ensures Get(v, p[..i]).value.Dict?
        {
          if i > 0 { assert Get(v, p[..(i - 1) + 1]) == Get(below, rest[..i - 1]); }
        }
      }
    } else {
      assert forall i | 0 < i < |p| :: p[..i][0] == p[0];
    }
  }

  /** At every path the result is decided by the two values there: what the
      overlay names wins (mappings merge with the base's), and where it names
      nothing the base survives unless an overlay leaf stands above. */
  lemma {:induction false} PathSemantics(base: Value, overlay: Value, p: Path)
    requires base.Dict? && overlay.Dict?
    ensures Get(Merge(base, overlay), p) ==
      match Get(overlay, p)
      case Some(o) => Some(if Get(base, p).Some? then Merge(Get(base, p).value, o) else o)
      case None => if LeafAbove(overlay, p) then None else Get(base, p)
  {
    if p != [] {
      var k := p[0];
      if k in overlay.entries && k in base.entries {
        var b, o := base.entries[k], overlay.entries[k];
        if b.Dict? && o.Dict? {
          PathSemantics(b, o, p[1..]);
        } else if o.Dict? {
          NotAboveNone(o, p[1..]);
        }
      } else if k in overlay.entries {
        NotAboveNone(overlay.entries[k], p[1..]);
      }
    }
  }

  /** Below a leaf there is nothing, and a leaf is above every path it cuts off. */
  lemma {:induction false} NotAboveNone(v: Value, p: Path)
    ensures LeafAbove(v, p) ==> Get(v, p).None?
  {
    if p != [] && v.Dict? && p[0] in v.entries { NotAboveNone(v.entries[p[0]], p[1..]); }
  }

  /** A base leaf survives exactly where the overlay names neither it nor a leaf above it. */
  lemma BaseLeafSurvives(base: Value, overlay: Value, p: Path)
    requires base.Dict? && overlay.Dict? && Get(base, p).Some? && Get(base, p).value.Leaf?
    ensures Get(Merge(base, overlay), p) == Get(base, p)
       <==> Get(overlay, p) == Get(base, p) || (Get(overlay, p).None? && !LeafAbove(overlay, p))
  {
    PathSemantics(base, overlay, p);
  }

  // ---- when merging changes nothing ----------------------------------------------------

  /** Every path the base names, the overlay names too or cuts off. */
  predicate Covers(overlay: Value, base: Value) {
    base.Dict? && overlay.Dict? ==>
      forall k | k in base.entries :: k in overlay.entries && Covers(overlay.entries[k], base.entries[k])
  }

  /** The overlay alone is the result exactly when it covers the base. */
  lemma {:induction false} MergeIsOverlay(base: Value, overlay: Value)
    ensures Merge(base, overlay) == overlay <==> Covers(overlay, base)
  {
    if base.Dict? && overlay.Dict? {
      var merged := Merge(base, overlay).entries;
      forall k | k in base.entries && k in overlay.entries
        ensures merged[k] == overlay.entries[k] <==> Covers(overlay.entries[k], base.entries[k])
      {
        MergeIsOverlay(base.entries[k], overlay.entries[k]);
      }
      if Covers(overlay, base) {
        assert merged == overlay.entries;
      } else {
        var k :| k in base.entries && !(k in overlay.entries && Covers(overlay.entries[k], base.entries[k]));
        assert k in merged;
      }
    }
  }

  /** The base already has everything the overlay says. */
  predicate Contains(base: Value, overlay: Value) {
    if overlay.Leaf? then base == overlay
    else base.Dict? && forall k | k in overlay.entries ::
      k in base.entries && Contains(base.entries[k], overlay.entries[k])
  }

  /** Merging leaves the base as it is exactly when the base contains the overlay. */
  lemma {:induction false} MergeIsBase(base: Value, overlay: Value)
    ensures Merge(base, overlay) == base <==> Contains(base, overlay)
  {
    if base.Dict? && overlay.Dict? {
      var merged := Merge(base, overlay).entries;
      forall k | k in base.entries && k in overlay.entries
        ensures merged[k] == base.entries[k] <==> Contains(base.entries[k], overlay.entries[k])
      {
        MergeIsBase(base.entries[k], overlay.entries[k]);
      }
      if Contains(base, overlay) {
        assert merged == base.entries;
      } else {
        var k :| k in overlay.entries && !(k in base.entries && Contains(base.entries[k], overlay.entries[k]));
        assert k in merged;
      }
    }
  }

  lemma {:induction false} ContainsItself(v: Value)
    ensures Contains(v, v)
  {
    if v.Dict? {
      forall k | k in v.entries ensures Contains(v.entries[k], v.entries[k]) { ContainsItself(v.entries[k]); }
    }
  }

  lemma {:induction false} MergedContains(base: Value, overlay: Value)
    ensures Contains(Merge(base, overlay), overlay)
  {
    if base.Dict? && overlay.Dict? {
      forall k | k in overlay.entries
        ensures Contains(Merge(base, overlay).entries[k], overlay.entries[k])
      {
        if k in base.entries { MergedContains(base.entries[k], overlay.entries[k]); }
        else { ContainsItself(overlay.entries[k]); }
      }
    } else {
      ContainsItself(overlay);
    }
  }

  /** Merging a value with itself is itself, and merging twice is merging once. */
  lemma MergeIdempotent(base: Value, overlay: Value)
    ensures Merge(overlay, overlay) == overlay
    ensures Merge(Merge(base, overlay), overlay) == Merge(base, overlay)
  {
    ContainsItself(overlay);
    MergeIsBase(overlay, overlay);
    MergedContains(base, overlay);
    MergeIsBase(Merge(base, overlay), overlay);
  }

  // ---- associativity, exactly --------------------------------------------------------------

  /** The three are split at this path: a leaf of the middle one between two
      mappings, of which the last does not cover the first. */
  predicate SplitAt(a: Value, b: Value, c: Value, p: Path) {
    && Get(a, p).Some? && Get(b, p).Some? && Get(c, p).Some?
    && Get(a, p).value.Dict? && Get(b, p).value.Leaf? && Get(c, p).value.Dict?
    && !Covers(Get(c, p).value, Get(a, p).value)
  }

  predicate Split(a: Value, b: Value, c: Value) {
    if a.Dict? && c.Dict? then
      if b.Leaf? then !Covers(c, a)
      else exists k | k in a.entries && k in b.entries && k in c.entries ::
             Split(a.entries[k], b.entries[k], c.entries[k])
    else false
  }

  lemma {:induction false} SplitMeans(a: Value, b: Value, c: Value)
    ensures Split(a, b, c) <==> exists p :: SplitAt(a, b, c, p)
  {
    if a.Dict? && b.Dict? && c.Dict? {
      forall k | k in a.entries && k in b.entries && k in c.entries
        ensures Split(a.entries[k], b.entries[k], c.entries[k]) <==>
          exists p :: SplitAt(a.entries[k], b.entries[k], c.entries[k], p)
      {
        SplitMeans(a.entries[k], b.entries[k], c.entries[k]);
      }
      forall p | SplitAt(a, b, c, p)
        ensures p != [] && p[0] in a.entries && p[0] in b.entries && p[0] in c.entries
        ensures SplitAt(a.entries[p[0]], b.entries[p[0]], c.entries[p[0]], p[1..])
      {}
      if Split(a, b, c) {
        var k :| k in a.entries && k in b.entries && k in c.entries && Split(a.entries[k], b.entries[k], c.entries[k]);
        var p :| SplitAt(a.entries[k], b.entries[k], c.entries[k], p);
        assert ([k] + p)[1..] == p;
        assert SplitAt(a, b, c, [k] + p);
      }
    } else if a.Dict? && b.Leaf? && c.Dict? {
      if Split(a, b, c) { assert SplitAt(a, b, c, []); }
    }
  }

  /** Grouping does not matter exactly when no path splits the three. */
  lemma {:induction false} AssociativeIff(a: Value, b: Value, c: Value)
    ensures Merge(Merge(a, b), c) == Merge(a, Merge(b, c)) <==> !Split(a, b, c)
  {
    if a.Dict? && b.Dict? && c.Dict? {
      var left, right := Merge(Merge(a, b), c).entries, Merge(a, Merge(b, c)).entries;
      assert left.Keys == right.Keys;
      forall k | k in left
        ensures left[k] == right[k] <==>
          !(k in a.entries && k in b.entries && k in c.entries && Split(a.entries[k], b.entries[k], c.entries[k]))
      {
        if k in a.entries && k in b.entries && k in c.entries {
          AssociativeIff(a.entries[k], b.entries[k], c.entries[k]);
        }
      }
      if Split(a, b, c) {
        var k :| k in a.entries && k in b.entries && k in c.entries && Split(a.entries[k], b.entries[k], c.entries[k]);
        assert left[k] != right[k];
      } else {
        assert left == right;
      }
    } else if a.Dict? && b.Leaf? && c.Dict? {
      MergeIsOverlay(a, c);
    }
  }

  lemma AssociativityExact(a: Value, b: Value, c: Value)
    ensures Merge(Merge(a, b), c) == Merge(a, Merge(b, c)) <==> forall p :: !SplitAt(a, b, c, p)
  {
    AssociativeIff(a, b, c);
    SplitMeans(a, b, c);
  }

  /** The standing counterexample: {k: {x}}, {k: 5}, {k: {y}}. */
  lemma NotAssociative()
    ensures
      var a := Dict(map["k" := Dict(map["x" := Leaf("1")])]);
      var b := Dict(map["k" := Leaf("5")]);
      var c := Dict(map["k" := Dict(map["y" := Leaf("2")])]);
      Merge(Merge(a, b), c) != Merge(a, Merge(b, c))
  {
    var a := Dict(map["k" := Dict(map["x" := Leaf("1")])]);
    var b := Dict(map["k" := Leaf("5")]);
    var c := Dict(map["k" := Dict(map["y" := Leaf("2")])]);
    assert "x" in a.entries["k"].entries && "x" !in c.entries["k"].entries;
    assert !Covers(c.entries["k"], a.entries["k"]);
    assert Split(a.entries["k"], b.entries["k"], c.entries["k"]);
    assert Split(a, b, c);
    AssociativeIff(a, b, c);
  }

  // ---- the loop ------------------------------------------------------------------------------

  /** A copy of the base, updated key by key. */
  method DeepMerge(base: Mapping, overlay: Mapping) returns (merged: Mapping)
    ensures Dict(merged) == Merge(Dict(base), Dict(overlay))
    decreases Dict(overlay)
  {
    ghost var target := Merge(Dict(base), Dict(overlay)).entries;
    merged := base;
    var rest := overlay.Keys;
    while rest != {}
      invariant rest <= overlay.Keys
      invariant merged.Keys == base.Keys + (overlay.Keys - rest)
      invariant forall k | k in merged :: merged[k] == if k in rest then base[k] else target[k]
      decreases rest
    {
      var k :| k in rest;
      var value := overlay[k];
      assert target[k] == if k in base then Merge(base[k], value) else value;
      ghost var before := merged;
      if k in merged && merged[k].Dict? && value.Dict? {
        var inner := DeepMerge(merged[k].entries, value.entries);
        assert Dict(merged[k].entries) == base[k] && Dict(value.entries) == overlay[k];
        merged := merged[k := Dict(inner)];
      } else {
        merged := merged[k := value];
      }
      assert merged[k] == target[k] && forall other | other in before && other != k :: merged[other] == before[other];
      rest := rest - {k};
    }
    assert merged.Keys == target.Keys;
  }

  // ---- merge_file ------------------------------------------------------------------------------

  datatype FileResult = Created | Updated | UpToDate | Skipped | MergeError

  /** parse and serialize of the chosen format; None is a MergeError. */
  datatype Format = Format(parse: string -> Option<Mapping>, serialize: Mapping -> Option<string>)

  /** What is written parses back to what was meant. */
  ghost predicate RoundTrips(f: Format) {
    forall m :: f.serialize(m).Some? ==> f.parse(f.serialize(m).value) == Some(m)
  }

  /** The merged mapping of a file's text, if the text parses. */
  function Target(text: Option<string>, f: Format, settings: Mapping): Option<Mapping> {
    match text
    case None => Some(Merge(Dict(map[]), Dict(settings)).entries)
    case Some(t) =>
      match f.parse(t)
      case None => None
      case Some(current) => Some(Merge(Dict(current), Dict(settings)).entries)
  }

  class File {
    var text: Option<string>  // None: the file does not exist

    constructor (text: Option<string>)
      ensures this.text == text
    {
      this.text := text;
    }

    /** A missing file is created or skipped, a file that already contains the
        settings is not touched, anything else is replaced in one step; an
        error leaves the file as it was. */
    method MergeFile(f: Format, settings: Mapping, create: bool) returns (r: FileResult)
      modifies this
      ensures r == Skipped <==> old(text).None? && !create
      ensures r in {UpToDate, Skipped, MergeError} ==> text == old(text)
      ensures r == UpToDate <==>
        old(text).Some? &&
        f.parse(old(text).value).Some? && Contains(Dict(f.parse(old(text).value).value), Dict(settings))
      ensures r == Created ==> old(text).None? && create
      ensures r == Updated ==> old(text).Some?
      ensures r in {Created, Updated} ==>
        Target(old(text), f, settings).Some? && text == f.serialize(Target(old(text), f, settings).value) && text.Some?
      ensures r == MergeError <==>
        && (old(text).Some? || create)
        && (Target(old(text), f, settings).None?
            || (f.serialize(Target(old(text), f, settings).value).None?
                && !(old(text).Some? && Contains(Dict(f.parse(old(text).value).value), Dict(settings)))))
    {
      var current: Mapping := map[];
      if text.None? {
        if !create {
          return Skipped;
        }
      } else {
        var parsed := f.parse(text.value);
        if parsed.None? {
          return MergeError;
        }
        current := parsed.value;
      }
      var merged := DeepMerge(current, settings);
      MergeIsBase(Dict(current), Dict(settings));
      if text.Some? && merged == current {
        return UpToDate;
      }
      var out := f.serialize(merged);
      if out.None? {
        return MergeError;
      }
      r := if text.None? then Created else Updated;
      text := out;
    }

    /** Running it again after it wrote the file finds nothing to do. */
    method MergeTwice(f: Format, settings: Mapping, create: bool) returns (first: FileResult, second: FileResult)
      requires RoundTrips(f)
      modifies this
      ensures first in {Created, Updated, UpToDate} ==> second == UpToDate
      ensures first in {Skipped, MergeError} ==> second == first
    {
      ghost var current := if text.Some? && f.parse(text.value).Some? then f.parse(text.value).value else map[];
      MergedContains(Dict(current), Dict(settings));
      first := MergeFile(f, settings, create);
      if first in {Created, Updated} {
        assert Dict(f.parse(text.value).value) == Merge(Dict(current), Dict(settings));
      }
      second := MergeFile(f, settings, create);
    }
  }
}
