// Which helper functions several commands share
// (examples/pyedit/extract-commands.py, the `common_helpers` loop).

module HelperClosure {
  type Name = string

  /** The helpers in order, and the names each function's body mentions. */
  datatype Source = Source(helpers: seq<Name>, mentions: map<Name, set<Name>>)

  predicate WellFormed(s: Source) {
    forall h | h in s.helpers :: h in s.mentions
  }

  /** One of two different helpers mentions the other. */
  predicate Linked(s: Source, a: Name, b: Name)
    requires WellFormed(s)
  {
    a in s.helpers && b in s.helpers && a != b && (b in s.mentions[a] || a in s.mentions[b])
  }

  /** A walk along links from a seed. */
  ghost predicate Walk(s: Source, seeds: set<Name>, path: seq<Name>)
    requires WellFormed(s)
  {
    path != [] && path[0] in seeds && forall i | 0 < i < |path| :: Linked(s, path[i - 1], path[i])
  }

  ghost predicate Reachable(s: Source, seeds: set<Name>, h: Name)
    requires WellFormed(s)
  {
    exists path :: Walk(s, seeds, path) && path[|path| - 1] == h
  }

  ghost predicate Closed(s: Source, c: set<Name>)
    requires WellFormed(s)
  {
    forall a, b | a in c && Linked(s, a, b) :: b in c
  }

  /** A closed set has every helper that mentions one of its, and every helper one of its mentions. */
  lemma ClosedMeans(s: Source, c: set<Name>)
    requires WellFormed(s) && forall h | h in c :: h in s.helpers
    ensures Closed(s, c) <==>
      && (forall g, h | g in c && h in s.helpers && g in s.mentions[h] :: h in c)
      && (forall g, h | g in c && h in s.helpers && h in s.mentions[g] :: h in c)
  {
    if Closed(s, c) {
      forall g, h | g in c && h in s.helpers && (g in s.mentions[h] || h in s.mentions[g])
        ensures h in c
      {
        assert g != h ==> Linked(s, g, h);
      }
    }
  }

  lemma SeedReachable(s: Source, seeds: set<Name>, h: Name)
    requires WellFormed(s) && h in seeds
    ensures Reachable(s, seeds, h)
  {
    assert Walk(s, seeds, [h]);
  }

  lemma LinkReachable(s: Source, seeds: set<Name>, g: Name, h: Name)
    requires WellFormed(s) && Reachable(s, seeds, g) && Linked(s, g, h)
    ensures Reachable(s, seeds, h)
  {
    var path :| Walk(s, seeds, path) && path[|path| - 1] == g;
    assert Walk(s, seeds, path + [h]);
  }

  /** Reachability is the least closed set that holds the seeds. */
  lemma {:induction false} ReachableIsLeast(s: Source, seeds: set<Name>, c: set<Name>, path: seq<Name>)
    requires WellFormed(s) && seeds <= c && Closed(s, c) && Walk(s, seeds, path)
    ensures path[|path| - 1] in c
  {
    if |path| > 1 {
      var init := path[..|path| - 1];
      assert Walk(s, seeds, init);
      ReachableIsLeast(s, seeds, c, init);
      assert Linked(s, path[|path| - 2], path[|path| - 1]);
    }
  }

  ghost predicate AllReachable(s: Source, seeds: set<Name>, common: set<Name>)
    requires WellFormed(s)
  {
    forall h | h in common :: h in s.helpers && Reachable(s, seeds, h)
  }

  /** One pass; it adds nothing only if the set is closed. */
  method Pass(s: Source, ghost seeds: set<Name>, common: set<Name>) returns (grown: set<Name>, changed: bool)
    requires WellFormed(s) && AllReachable(s, seeds, common)
    ensures common <= grown && AllReachable(s, seeds, grown)
    ensures if changed then common < grown else grown == common && Closed(s, common)
  {
    grown, changed := common, false;
    for i := 0 to |s.helpers|
      invariant common <= grown && AllReachable(s, seeds, grown)
      invariant if changed then common < grown else grown == common
      invariant !changed ==> forall k, g | 0 <= k < i && s.helpers[k] !in common && g in common ::
        !Linked(s, g, s.helpers[k])
    {
      var h := s.helpers[i];
      if h in grown {
        continue;
      }
      var deps := set d | d in s.mentions[h] && d in s.helpers;
      if d :| d in deps && d in grown && d != h {
        LinkReachable(s, seeds, d, h);
        grown, changed := grown + {h}, true;
      } else if g :| g in grown && g != h && h in s.mentions[g] {
        LinkReachable(s, seeds, g, h);
        grown, changed := grown + {h}, true;
      }
    }
  }

  lemma ClosedIsReachable(s: Source, seeds: set<Name>, common: set<Name>)
    requires WellFormed(s) && seeds <= common && AllReachable(s, seeds, common) && Closed(s, common)
    ensures forall h :: h in common <==> Reachable(s, seeds, h)
    ensures forall c: set<Name> | seeds <= c && Closed(s, c) :: common <= c
  {
    forall h | Reachable(s, seeds, h) ensures h in common {
      var path :| Walk(s, seeds, path) && path[|path| - 1] == h;
      ReachableIsLeast(s, seeds, common, path);
    }
    forall c: set<Name>, h | seeds <= c && Closed(s, c) && h in common ensures h in c {
      var path :| Walk(s, seeds, path) && path[|path| - 1] == h;
      ReachableIsLeast(s, seeds, c, path);
    }
  }

  /** The loop: passes over the helpers until one adds nothing. It ends with
      exactly the helpers linked to a seed, however indirectly. */
  method CommonHelpers(s: Source, seeds: set<Name>) returns (common: set<Name>)
    requires WellFormed(s) && forall h | h in seeds :: h in s.helpers
    ensures forall h :: h in common <==> Reachable(s, seeds, h)
    ensures Closed(s, common) && forall c: set<Name> | seeds <= c && Closed(s, c) :: common <= c
  {
    ghost var all := set h | h in s.helpers;
    common := seeds;
    forall h | h in common ensures Reachable(s, seeds, h) { SeedReachable(s, seeds, h); }
    var changed := true;
    while changed
      invariant seeds <= common <= all && AllReachable(s, seeds, common)
      invariant !changed ==> Closed(s, common)
      decreases all - common, changed
    {
      ghost var before := common;
      common, changed := Pass(s, seeds, common);
      assert all - common <= all - before;
      if changed {
        ghost var h :| h in common && h !in before;
        assert h in all - before && h !in all - common;
      }
    }
    ClosedIsReachable(s, seeds, common);
  }

  /** From the commands that use each helper: the seeds are those that two use. */
  method SharedHelpers(s: Source, users: map<Name, set<Name>>) returns (common: set<Name>)
    requires WellFormed(s) && forall h | h in users :: h in s.helpers
    ensures var seeds := set h | h in users && |users[h]| >= 2;
      forall h :: h in common <==> Reachable(s, seeds, h)
  {
    var seeds := set h | h in users && |users[h]| >= 2;
    common := CommonHelpers(s, seeds);
  }
}
