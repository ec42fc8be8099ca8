/** Key order and the sorted form of a set of account writes. */
module Changesets {
  import opened Bytes
  import opened Ledger

  type Entry = (AccountKey, Account)
  type Changeset = seq<Entry>

  predicate BytesLess(a: seq<Byte>, b: seq<Byte>) {
    if b == [] then false
    else if a == [] then true
    else a[0] < b[0] || (a[0] == b[0] && BytesLess(a[1..], b[1..]))
  }

  /** The strings agree up to `i`, where the first one ends or has the smaller byte. */
  predicate DiffersAt(a: seq<Byte>, b: seq<Byte>, i: nat) {
    i <= |a| && i < |b| && a[..i] == b[..i] && (i == |a| || a[i] < b[i])
  }

  /** Byte strings are ordered by the first byte in which they differ, and a prefix comes first. */
  lemma {:induction false} BytesLessIff(a: seq<Byte>, b: seq<Byte>)
    ensures BytesLess(a, b) <==> exists i: nat :: DiffersAt(a, b, i)
    decreases |a|
  {
    if a == [] || b == [] || a[0] != b[0] {
      assert b != [] && (a == [] || a[0] < b[0]) ==> DiffersAt(a, b, 0);
    } else {
      BytesLessIff(a[1..], b[1..]);
      if i: nat :| DiffersAt(a[1..], b[1..], i) {
        assert a[..i + 1] == [a[0]] + a[1..][..i] && b[..i + 1] == [b[0]] + b[1..][..i];
        assert DiffersAt(a, b, i + 1);
      }
      if i: nat :| DiffersAt(a, b, i) {
        assert i > 0;
        assert a[1..][..i - 1] == a[..i][1..] && b[1..][..i - 1] == b[..i][1..];
        assert DiffersAt(a[1..], b[1..], i - 1);
      }
    }
  }

  predicate KeyLess(a: AccountKey, b: AccountKey) {
    BytesLess(a.bytes, b.bytes)
  }

  lemma {:induction false} BytesLessTransitive(a: seq<Byte>, b: seq<Byte>, c: seq<Byte>)
    requires BytesLess(a, b) && BytesLess(b, c)
    ensures BytesLess(a, c)
    decreases |a|
  {
    if a != [] && a[0] == b[0] == c[0] { BytesLessTransitive(a[1..], b[1..], c[1..]); }
  }

  lemma {:induction false} BytesLessIrreflexive(a: seq<Byte>)
    ensures !BytesLess(a, a)
    decreases |a|
  {
    if a != [] { BytesLessIrreflexive(a[1..]); }
  }

  lemma {:induction false} BytesLessConnected(a: seq<Byte>, b: seq<Byte>)
    ensures a == b || BytesLess(a, b) || BytesLess(b, a)
    decreases |a|
  {
    if a != [] && b != [] && a[0] == b[0] {
      BytesLessConnected(a[1..], b[1..]);
      assert a == [a[0]] + a[1..] && b == [b[0]] + b[1..];
    }
  }

  /** Strictly increasing keys. */
  predicate Sorted(cs: Changeset) {
    forall i, j | 0 <= i < j < |cs| :: KeyLess(cs[i].0, cs[j].0)
  }

  /** `cs` lists exactly the bindings of `m`. */
  ghost predicate Lists(cs: Changeset, m: Database) {
    forall e: Entry :: e in cs <==> e.0 in m && m[e.0] == e.1
  }

  ghost predicate DistinctKeys(cs: Changeset) {
    forall i, j | 0 <= i < j < |cs| :: cs[i].0 != cs[j].0
  }

  lemma {:induction false} HeadNotInTail(cs: Changeset)
    requires Sorted(cs) && cs != []
    ensures cs[0] !in cs[1..]
  {
    forall i | 0 < i < |cs| ensures cs[i] != cs[0] { BytesLessIrreflexive(cs[0].0.bytes); }
  }

  /** At most one changeset is sorted and lists given writes, so every executor path agrees entry by entry. */
  lemma {:induction false} SortedUnique(a: Changeset, b: Changeset)
    requires Sorted(a) && Sorted(b)
    requires forall e: Entry :: e in a <==> e in b
    ensures a == b
    decreases |a|
  {
    assert b != [] ==> b[0] in b;
    if a != [] {
      assert a[0] in b && b != [];
      assert b[0] in a;
      if a[0] != b[0] {
        BytesLessTransitive(a[0].0.bytes, b[0].0.bytes, a[0].0.bytes);
        BytesLessIrreflexive(a[0].0.bytes);
      }
      assert a == [a[0]] + a[1..] && b == [b[0]] + b[1..];
      HeadNotInTail(a);
      HeadNotInTail(b);
      forall e: Entry ensures e in a[1..] <==> e in b[1..] {
        assert e in a[1..] <==> e in a && e != a[0];
        assert e in b[1..] <==> e in b && e != b[0];
      }
      SortedUnique(a[1..], b[1..]);
    }
  }

  function Insert(e: Entry, cs: Changeset): Changeset
    decreases |cs|
  {
    if cs == [] then [e]
    else if KeyLess(cs[0].0, e.0) then [cs[0]] + Insert(e, cs[1..])
    else [e] + cs
  }

  /** Sorting by key. */
  function SortByKey(cs: Changeset): Changeset
    decreases |cs|
  {
    if cs == [] then [] else Insert(cs[0], SortByKey(cs[1..]))
  }

  lemma {:induction false} InsertSorted(e: Entry, cs: Changeset)
    requires Sorted(cs)
    requires forall x | x in cs :: x.0 != e.0
    ensures Sorted(Insert(e, cs))
    ensures forall x: Entry :: x in Insert(e, cs) <==> x == e || x in cs
    decreases |cs|
  {
    if cs != [] {
      assert cs == [cs[0]] + cs[1..];
      BytesLessConnected(cs[0].0.bytes, e.0.bytes);
      if KeyLess(cs[0].0, e.0) {
        InsertSorted(e, cs[1..]);
        forall x | x in Insert(e, cs[1..]) ensures KeyLess(cs[0].0, x.0) {}
      } else {
        forall i | 0 < i < |cs| ensures KeyLess(e.0, cs[i].0) {
          BytesLessTransitive(e.0.bytes, cs[0].0.bytes, cs[i].0.bytes);
        }
      }
    }
  }

  lemma {:induction false} SortByKeySorts(cs: Changeset)
    requires DistinctKeys(cs)
    ensures Sorted(SortByKey(cs))
    ensures forall x: Entry :: x in SortByKey(cs) <==> x in cs
    decreases |cs|
  {
    if cs != [] {
      SortByKeySorts(cs[1..]);
      InsertSorted(cs[0], SortByKey(cs[1..]));
      assert cs == [cs[0]] + cs[1..];
    }
  }

  /** The sorted changeset of a set of writes. */
  ghost function ChangesetOf(m: Database): (cs: Changeset)
    ensures Sorted(cs) && Lists(cs, m)
    decreases |m|
  {
    if m == map[] then []
    else
      var k :| k in m;
      var rest := ChangesetOf(m - {k});
      InsertSorted((k, m[k]), rest);
      Insert((k, m[k]), rest)
  }

  lemma {:induction false} SortByKeyIsChangeset(cs: Changeset, m: Database)
    requires DistinctKeys(cs) && Lists(cs, m)
    ensures SortByKey(cs) == ChangesetOf(m)
  {
    SortByKeySorts(cs);
    SortedUnique(SortByKey(cs), ChangesetOf(m));
  }

  /** Writing a changeset to the database, entry by entry. */
  function ApplyChangeset(db: Database, cs: Changeset): Database
    decreases |cs|
  {
    if cs == [] then db else ApplyChangeset(db[cs[0].0 := cs[0].1], cs[1..])
  }

  lemma {:induction false} ApplyChangesetEntries(db: Database, cs: Changeset)
    requires Sorted(cs)
    ensures var end := ApplyChangeset(db, cs);
            && (forall e | e in cs :: e.0 in end && end[e.0] == e.1)
            && (forall k | forall e | e in cs :: e.0 != k :: k in end <==> k in db)
            && (forall k | k in db && forall e | e in cs :: e.0 != k :: end[k] == db[k])
    decreases |cs|
  {
    if cs != [] {
      assert cs == [cs[0]] + cs[1..];
      forall e | e in cs[1..] ensures e.0 != cs[0].0 { BytesLessIrreflexive(e.0.bytes); }
      ApplyChangesetEntries(db[cs[0].0 := cs[0].1], cs[1..]);
    }
  }

  lemma {:induction false} ApplyChangesetIsUnion(db: Database, m: Database)
    ensures ApplyChangeset(db, ChangesetOf(m)) == db + m
  {
    var cs := ChangesetOf(m);
    ApplyChangesetEntries(db, cs);
    var end := ApplyChangeset(db, cs);
    forall k ensures k in end <==> k in db + m {
      if k in m { assert (k, m[k]) in cs; }
    }
    forall k | k in end ensures end[k] == (db + m)[k] {
      if k in m { assert (k, m[k]) in cs; }
    }
  }
}
