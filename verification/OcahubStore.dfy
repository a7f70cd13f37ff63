// The store-and-forward table (pkgs/ocahub/src/ocahub/store.py).

module OcahubStore {
  import opened Prelude

  datatype Kind = Tell | Ask | Reply

  /** No id is the id null, which a sender may give. */
  datatype Message = Message(
    id: Option<string>, kind: Kind, sender: string, topic: Option<string>,
    replyTo: Option<string>, ts: real, payload: seq<byte>)

  /** One mailbox row: an addressed message. No session means any session of the name. */
  datatype Row = Row(name: string, session: Option<string>, msg: Message)

  datatype Key = Key(name: string, session: string)

  /** The table: rows by their primary key msg_id, and the rows whose msg_id is
      NULL. A TEXT primary key admits any number of those. */
  datatype Table = Table(named: map<string, Row>, unnamed: seq<Row>)

  predicate Keyed(t: Table) {
    && (forall id | id in t.named :: t.named[id].msg.id == Some(id))
    && forall r | r in t.unnamed :: r.msg.id.None?
  }

  /** The WHERE clause of `take`. */
  predicate Matches(r: Row, k: Key) {
    r.name == k.name && (r.session.None? || r.session.value == k.session)
  }

  predicate Holds(t: Table, r: Row) {
    match r.msg.id
    case Some(id) => id in t.named && t.named[id] == r
    case None => r in t.unnamed
  }

  /** How often a row is stored. */
  function Stored(t: Table, r: Row): nat {
    if r.msg.id.Some? then (if Holds(t, r) then 1 else 0) else multiset(t.unnamed)[r]
  }

  /** INSERT OR REPLACE; a NULL id replaces nothing. */
  function Insert(t: Table, r: Row): Table {
    match r.msg.id
    case Some(id) => t.(named := t.named[id := r])
    case None => t.(unnamed := t.unnamed + [r])
  }

  /** DELETE ... WHERE msg_id = ? for every matching row; a NULL id equals none. */
  function Without(t: Table, k: Key): Table {
    t.(named := map id | id in t.named && !Matches(t.named[id], k) :: t.named[id])
  }

  function Younger(t: Table, cutoff: real): Table {
    Table(map id | id in t.named && !(t.named[id].msg.ts < cutoff) :: t.named[id],
          Filter(t.unnamed, (r: Row) => !(r.msg.ts < cutoff)))
  }

  /** Every row that passes the test, as often as it is stored. */
  ghost predicate IsListing(t: Table, test: Row -> bool, rows: seq<Row>) {
    forall r :: multiset(rows)[r] == if test(r) then Stored(t, r) else 0
  }

  ghost predicate Sorted(rows: seq<Row>) {
    forall i, j | 0 <= i < j < |rows| :: rows[i].msg.ts <= rows[j].msg.ts
  }

  function For(k: Key): Row -> bool {
    (r: Row) => Matches(r, k)
  }

  function Before(cutoff: real): Row -> bool {
    (r: Row) => r.msg.ts < cutoff
  }

  /** What SELECT ... ORDER BY ts may answer: every matching row by timestamp.
      SQL leaves the order of equal timestamps open, and so does this. */
  ghost predicate IsSelection(t: Table, k: Key, rows: seq<Row>) {
    IsListing(t, For(k), rows) && Sorted(rows)
  }

  lemma ListingHolds(t: Table, test: Row -> bool, rows: seq<Row>)
    requires IsListing(t, test, rows)
    ensures forall r :: r in rows <==> Holds(t, r) && test(r)
  {
    forall r
      ensures r in rows <==> Holds(t, r) && test(r)
    {
      assert r in rows <==> multiset(rows)[r] > 0;
    }
  }

  // ---- what each statement does to one row ---------------------------------------

  lemma InsertStores(t: Table, row: Row, r: Row)
    requires Keyed(t)
    ensures Keyed(Insert(t, row))
    ensures Holds(Insert(t, row), r) <==> r == row || (Holds(t, r) && (r.msg.id.None? || r.msg.id != row.msg.id))
    ensures Stored(Insert(t, row), r) ==
      (if r == row then 1 else 0) + (if r.msg.id.Some? && r.msg.id == row.msg.id then 0 else Stored(t, r))
  {}

  lemma WithoutStores(t: Table, k: Key, r: Row)
    requires Keyed(t)
    ensures Keyed(Without(t, k))
    ensures Holds(Without(t, k), r) <==> Holds(t, r) && (r.msg.id.None? || !Matches(r, k))
    ensures Stored(Without(t, k), r) == if r.msg.id.None? || !Matches(r, k) then Stored(t, r) else 0
  {}

  lemma YoungerKeyed(t: Table, cutoff: real)
    requires Keyed(t)
    ensures Keyed(Younger(t, cutoff))
  {
    var keep := (r: Row) => !(r.msg.ts < cutoff);
    forall x | x in Filter(t.unnamed, keep)
      ensures x in t.unnamed
    {
      FilterCounts(t.unnamed, keep, x);
    }
  }

  lemma YoungerStores(t: Table, cutoff: real, r: Row)
    requires Keyed(t)
    ensures Holds(Younger(t, cutoff), r) <==> Holds(t, r) && !(r.msg.ts < cutoff)
    ensures Stored(Younger(t, cutoff), r) == if r.msg.ts < cutoff then 0 else Stored(t, r)
  {
    FilterCounts(t.unnamed, (x: Row) => !(x.msg.ts < cutoff), r);
  }

  // ---- the statements ------------------------------------------------------------

  /** A row put among sorted rows by its timestamp. */
  function InsertSorted(rows: seq<Row>, r: Row): seq<Row> {
    if rows == [] || r.msg.ts < rows[0].msg.ts then [r] + rows else [rows[0]] + InsertSorted(rows[1..], r)
  }

  lemma {:induction false} InsertSortedHolds(rows: seq<Row>, r: Row)
    ensures multiset(InsertSorted(rows, r)) == multiset(rows) + multiset{r}
    ensures forall x :: x in InsertSorted(rows, r) <==> x in rows || x == r
  {
    if !(rows == [] || r.msg.ts < rows[0].msg.ts) {
      InsertSortedHolds(rows[1..], r);
      assert rows == [rows[0]] + rows[1..];
    }
  }

  lemma SortedCons(first: Row, rest: seq<Row>)
    requires Sorted(rest) && forall x | x in rest :: first.msg.ts <= x.msg.ts
    ensures Sorted([first] + rest)
  {}

  lemma {:induction false} InsertSortedKeeps(rows: seq<Row>, r: Row)
    requires Sorted(rows)
    ensures Sorted(InsertSorted(rows, r))
  {
    if rows == [] || r.msg.ts < rows[0].msg.ts {
      SortedCons(r, rows);
    } else {
      InsertSortedKeeps(rows[1..], r);
      InsertSortedHolds(rows[1..], r);
      SortedCons(rows[0], InsertSorted(rows[1..], r));
    }
  }

  function InsertIf(rows: seq<Row>, test: Row -> bool, r: Row): seq<Row> {
    if test(r) then InsertSorted(rows, r) else rows
  }

  /** Of the rows with an id, those found so far, all but the rest. */
  ghost predicate ListedNamed(t: Table, test: Row -> bool, rest: set<string>, found: seq<Row>) {
    forall r ::
      multiset(found)[r] == if r.msg.id.Some? && r.msg.id.value !in rest && Holds(t, r) && test(r) then 1 else 0
  }

  /** All rows with an id, and the first i without. */
  ghost predicate ListedUpTo(t: Table, test: Row -> bool, i: nat, found: seq<Row>) {
    i <= |t.unnamed| && forall r ::
      multiset(found)[r] ==
      if !test(r) then 0 else if r.msg.id.Some? then Stored(t, r) else multiset(t.unnamed[..i])[r]
  }

  lemma NamedStep(t: Table, test: Row -> bool, rest: set<string>, found: seq<Row>, id: string)
    requires Keyed(t) && ListedNamed(t, test, rest, found) && id in rest && rest <= t.named.Keys && Sorted(found)
    ensures ListedNamed(t, test, rest - {id}, InsertIf(found, test, t.named[id]))
    ensures Sorted(InsertIf(found, test, t.named[id]))
  {
    InsertSortedHolds(found, t.named[id]);
    InsertSortedKeeps(found, t.named[id]);
  }

  lemma UnnamedStep(t: Table, test: Row -> bool, i: nat, found: seq<Row>)
    requires Keyed(t) && i < |t.unnamed| && ListedUpTo(t, test, i, found) && Sorted(found)
    ensures ListedUpTo(t, test, i + 1, InsertIf(found, test, t.unnamed[i]))
    ensures Sorted(InsertIf(found, test, t.unnamed[i]))
  {
    assert t.unnamed[..i + 1] == t.unnamed[..i] + [t.unnamed[i]];
    assert t.unnamed[i] in t.unnamed;
    InsertSortedHolds(found, t.unnamed[i]);
    InsertSortedKeeps(found, t.unnamed[i]);
  }

  lemma NoneListed(t: Table, test: Row -> bool)
    requires Keyed(t)
    ensures ListedNamed(t, test, t.named.Keys, [])
  {}

  lemma NamedListed(t: Table, test: Row -> bool, found: seq<Row>)
    requires Keyed(t) && ListedNamed(t, test, {}, found)
    ensures ListedUpTo(t, test, 0, found)
  {}

  lemma AllListed(t: Table, test: Row -> bool, found: seq<Row>)
    requires ListedUpTo(t, test, |t.unnamed|, found)
    ensures IsListing(t, test, found)
  {
    assert t.unnamed[..|t.unnamed|] == t.unnamed;
  }

  class Mailbox {
    var rows: Table

    constructor (rows: Table)
      requires Keyed(rows)
      ensures this.rows == rows
    {
      this.rows := rows;
    }

    /** INSERT OR REPLACE. */
    method Put(r: Row)
      modifies this
      ensures rows == Insert(old(rows), r)
    {
      if r.msg.id.Some? {
        rows := rows.(named := rows.named[r.msg.id.value := r]);
      } else {
        rows := rows.(unnamed := rows.unnamed + [r]);
      }
    }

    /** The rows that pass a test, by timestamp. */
    method Select(test: Row -> bool) returns (found: seq<Row>)
      requires Keyed(rows)
      ensures IsListing(rows, test, found) && Sorted(found)
    {
      found := [];
      var rest := rows.named.Keys;
      NoneListed(rows, test);
      while rest != {}
        invariant rest <= rows.named.Keys && Sorted(found) && ListedNamed(rows, test, rest, found)
        decreases rest
      {
        var id :| id in rest;
        NamedStep(rows, test, rest, found, id);
        found := InsertIf(found, test, rows.named[id]);
        rest := rest - {id};
      }
      NamedListed(rows, test, found);
      for i := 0 to |rows.unnamed|
        invariant Sorted(found) && ListedUpTo(rows, test, i, found)
      {
        UnnamedStep(rows, test, i, found);
        found := InsertIf(found, test, rows.unnamed[i]);
      }
      AllListed(rows, test, found);
    }

    /** Select, then delete row by row. */
    method Take(k: Key) returns (taken: seq<Row>)
      requires Keyed(rows)
      modifies this
      ensures IsSelection(old(rows), k, taken)
      ensures rows == Without(old(rows), k)
    {
      taken := Select(For(k));
      ghost var gone := {};
      for i := 0 to |taken|
        invariant gone == set j | 0 <= j < i && taken[j].msg.id.Some? :: taken[j].msg.id.value
        invariant rows == old(rows).(named := old(rows).named - gone)
      {
        if taken[i].msg.id.Some? {
          rows := rows.(named := rows.named - {taken[i].msg.id.value});
          gone := gone + {taken[i].msg.id.value};
        }
      }
      SelectionIds(old(rows), k, taken);
    }

    /** DELETE ... WHERE ts < cutoff; answers how many rows went. */
    method Prune(maxAge: real, now: real) returns (count: nat, ghost gone: seq<Row>)
      requires Keyed(rows)
      modifies this
      ensures rows == Younger(old(rows), now - maxAge)
      ensures IsListing(old(rows), Before(now - maxAge), gone) && count == |gone|
    {
      var cutoff := now - maxAge;
      var expired := Select(Before(cutoff));
      rows := Table(map id | id in rows.named && !(rows.named[id].msg.ts < cutoff) :: rows.named[id],
                    Filter(rows.unnamed, (r: Row) => !(r.msg.ts < cutoff)));
      count, gone := |expired|, expired;
    }
  }

  /** Deleting by the selected ids removes the matching rows that have one, and no others. */
  lemma SelectionIds(t: Table, k: Key, rows: seq<Row>)
    requires Keyed(t) && IsListing(t, For(k), rows)
    ensures t.(named := t.named -
      set j | 0 <= j < |rows| && rows[j].msg.id.Some? :: rows[j].msg.id.value) == Without(t, k)
  {
    var ids := set j | 0 <= j < |rows| && rows[j].msg.id.Some? :: rows[j].msg.id.value;
    ListingHolds(t, For(k), rows);
    forall id | id in t.named
      ensures id in ids <==> Matches(t.named[id], k)
    {
      if Matches(t.named[id], k) {
        assert Holds(t, t.named[id]);
        var j :| 0 <= j < |rows| && rows[j] == t.named[id];
        assert rows[j].msg.id.value in ids;
      }
      if j :| 0 <= j < |rows| && rows[j].msg.id == Some(id) {
        assert rows[j] in rows;
      }
    }
    assert t.named - ids == Without(t, k).named;
  }
}
