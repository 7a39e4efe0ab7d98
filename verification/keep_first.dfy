/**
 * Keeping the first row of every group of duplicates.
 *
 * Both the pattern deduplication command and the candidate-url cleanup script
 * group a table's rows on some value, and in every group that holds more than
 * one row they keep the first row the database returns and delete the others
 * one at a time. A row here is its primary key and the value it is grouped on;
 * the order of a table's rows is the order the database returns them in.
 */
module KeepFirst {
  import opened Wrappers

  /** A table row: its primary key and the value its duplicates are grouped on. */
  datatype Keyed<K> = Keyed(id: int, key: K)

  /** Primary keys: no id occurs twice. */
  predicate UniqueIds<K(!new)>(rows: seq<Keyed<K>>)
  {
    forall i, j :: 0 <= i < j < |rows| ==> rows[i].id != rows[j].id
  }

  /** `filter(<key fields>=k)`: the rows of one group, in order. */
  function Group<K(==,!new)>(rows: seq<Keyed<K>>, k: K): (g: seq<Keyed<K>>)
    ensures forall r :: r in g <==> r in rows && r.key == k
    ensures |g| <= |rows|
  {
    if rows == [] then [] else (if rows[0].key == k then [rows[0]] else []) + Group(rows[1..], k)
  }

  function IdsOf<K(==,!new)>(rows: seq<Keyed<K>>): set<int>
  {
    set r | r in rows :: r.id
  }

  /** The values the rows are grouped on. */
  function Keys<K(==,!new)>(rows: seq<Keyed<K>>): set<K>
  {
    set r | r in rows :: r.key
  }

  /** `values(<key fields>).annotate(count=Count("id")).filter(count__gt=1)`. */
  function DupeKeys<K(==,!new)>(rows: seq<Keyed<K>>): set<K>
  {
    set r | r in rows && |Group(rows, r.key)| > 1 :: r.key
  }

  /** The ids of one group's rows after its first (`patterns[1:]`). */
  function TailIds<K(==,!new)>(rows: seq<Keyed<K>>, k: K): set<int>
  {
    if Group(rows, k) == [] then {} else IdsOf(Group(rows, k)[1..])
  }

  /** The ids a pass over the groups `ks` deletes: every row of those groups but the first. */
  function Removed<K(==,!new)>(rows: seq<Keyed<K>>, ks: set<K>): set<int>
  {
    set r | r in rows && r.key in ks && r in Group(rows, r.key)[1..] :: r.id
  }

  /** The rows whose id is not listed, in order. */
  function Without<K(!new)>(rows: seq<Keyed<K>>, ids: set<int>): (s: seq<Keyed<K>>)
    ensures forall x :: x in s <==> x in rows && x.id !in ids
    ensures |s| <= |rows|
  {
    if rows == [] then [] else (if rows[0].id in ids then [] else [rows[0]]) + Without(rows[1..], ids)
  }

  /** The table once every group of duplicates has been cut down to its first row. */
  function Deduplicated<K(==,!new)>(rows: seq<Keyed<K>>): seq<Keyed<K>>
  {
    Without(rows, Removed(rows, DupeKeys(rows)))
  }

  /** The number of rows deduplication deletes. */
  function Surplus<K(==,!new)>(rows: seq<Keyed<K>>): nat
  {
    |Removed(rows, DupeKeys(rows))|
  }

  // ----------------------------------------------------------------- lemmas

  lemma UniqueIdsSame<K(!new)>(rows: seq<Keyed<K>>, x: Keyed<K>, y: Keyed<K>)
    requires UniqueIds(rows) && x in rows && y in rows && x.id == y.id
    ensures x == y
  {
    var i :| 0 <= i < |rows| && rows[i] == x;
    var j :| 0 <= j < |rows| && rows[j] == y;
    assert !(i < j) && !(j < i);
  }

  /** Without its first row a table keeps unique ids, none of them the first row's. */
  lemma UniqueTail<K(!new)>(rows: seq<Keyed<K>>)
    requires UniqueIds(rows) && rows != []
    ensures UniqueIds(rows[1..])
    ensures forall r :: r in rows[1..] ==> r.id != rows[0].id
  {
    var rest := rows[1..];
    forall i, j | 0 <= i < j < |rest| ensures rest[i].id != rest[j].id {
      assert rows[i + 1].id != rows[j + 1].id;
    }
    forall r | r in rest ensures r.id != rows[0].id {
      var m :| 0 <= m < |rest| && rest[m] == r;
      assert rows[0].id != rows[m + 1].id;
    }
  }

  /** A group of a table with unique ids has unique ids. */
  lemma {:induction false} GroupUnique<K(!new)>(rows: seq<Keyed<K>>, k: K)
    requires UniqueIds(rows)
    ensures UniqueIds(Group(rows, k))
  {
    if rows != [] {
      var rest := Group(rows[1..], k);
      UniqueTail(rows);
      GroupUnique(rows[1..], k);
      if rows[0].key == k {
        var g := Group(rows, k);
        assert g == [rows[0]] + rest;
        forall i, j | 0 <= i < j < |g| ensures g[i].id != g[j].id {
          if i == 0 {
            assert g[j] == rest[j - 1];
            assert g[j] in rows[1..];
          } else {
            assert g[i] == rest[i - 1] && g[j] == rest[j - 1];
          }
        }
      }
    }
  }

  /** The first row of a group is the first row of the table with that key. */
  lemma {:induction false} GroupFirst<K(!new)>(rows: seq<Keyed<K>>, k: K)
    requires Group(rows, k) != []
    ensures exists i :: (0 <= i < |rows| && rows[i] == Group(rows, k)[0]
      && forall j :: 0 <= j < i ==> rows[j].key != k)
  {
    if rows[0].key != k {
      GroupFirst(rows[1..], k);
      var i :| 0 <= i < |rows[1..]| && rows[1..][i] == Group(rows[1..], k)[0]
        && forall j :: 0 <= j < i ==> rows[1..][j].key != k;
      assert rows[i + 1] == Group(rows, k)[0];
      forall j | 0 <= j < i + 1 ensures rows[j].key != k {
        if j > 0 {
          assert rows[j] == rows[1..][j - 1];
        }
      }
    } else {
      assert rows[0] == Group(rows, k)[0];
    }
  }

  /** Whether a pass over `ks` deletes a row: its group is in `ks` and it is not the group's first. */
  lemma InRemoved<K(!new)>(rows: seq<Keyed<K>>, ks: set<K>, x: Keyed<K>)
    requires UniqueIds(rows) && x in rows
    ensures x.id in Removed(rows, ks) <==> x.key in ks && x != Group(rows, x.key)[0]
  {
    var g := Group(rows, x.key);
    GroupUnique(rows, x.key);
    UniqueTail(g);
    if x.key in ks && x != g[0] {
      var m :| 0 <= m < |g| && g[m] == x;
      assert x == g[1..][m - 1];
    }
    if x.id in Removed(rows, ks) {
      var r :| r in rows && r.key in ks && r in Group(rows, r.key)[1..] && r.id == x.id;
      UniqueIdsSame(rows, r, x);
    }
  }

  /** Deduplication keeps exactly the first row of every group. */
  lemma DeduplicatedMeaning<K(!new)>(rows: seq<Keyed<K>>, x: Keyed<K>)
    requires UniqueIds(rows)
    ensures x in Deduplicated(rows) <==> x in rows && x == Group(rows, x.key)[0]
  {
    if x in rows {
      var g := Group(rows, x.key);
      InRemoved(rows, DupeKeys(rows), x);
      if x != g[0] {
        var m :| 0 <= m < |g| && g[m] == x;
        assert m != 0;
        assert x.key in DupeKeys(rows);
      }
    }
  }

  /**
   * After deduplication no two rows share a key, every key the table held is
   * still held, and each by the first row that held it.
   */
  lemma DeduplicatedOnePerKey<K(!new)>(rows: seq<Keyed<K>>)
    requires UniqueIds(rows)
    ensures Keys(Deduplicated(rows)) == Keys(rows)
    ensures forall x, y :: x in Deduplicated(rows) && y in Deduplicated(rows) && x.key == y.key ==> x == y
    ensures forall k :: k in Keys(rows) ==> Group(rows, k) != [] && Group(rows, k)[0] in Deduplicated(rows)
  {
    var d := Deduplicated(rows);
    forall x | x in d ensures x in rows && x == Group(rows, x.key)[0] {
      DeduplicatedMeaning(rows, x);
    }
    forall k | k in Keys(rows) ensures Group(rows, k) != [] && Group(rows, k)[0] in d {
      var r :| r in rows && r.key == k;
      assert r in Group(rows, k);
      DeduplicatedMeaning(rows, Group(rows, k)[0]);
    }
    forall k | k in Keys(rows) ensures k in Keys(d) {
      assert Group(rows, k)[0] in d;
    }
  }

  /** A row alone in its group is never deleted. */
  lemma SingletonKept<K(!new)>(rows: seq<Keyed<K>>, x: Keyed<K>)
    requires UniqueIds(rows) && x in rows && |Group(rows, x.key)| == 1
    ensures x in Deduplicated(rows)
  {
    var g := Group(rows, x.key);
    assert x in g;
    assert g == [g[0]];
    DeduplicatedMeaning(rows, x);
  }

  /** A table with unique ids has as many ids as rows. */
  lemma {:induction false} IdsOfSize<K(!new)>(rows: seq<Keyed<K>>)
    requires UniqueIds(rows)
    ensures |IdsOf(rows)| == |rows|
  {
    if rows != [] {
      var rest := rows[1..];
      UniqueTail(rows);
      IdsOfSize(rest);
      assert IdsOf(rows) == {rows[0].id} + IdsOf(rest) by {
        assert forall r :: r in rows <==> r == rows[0] || r in rest;
      }
    }
  }

  /** One group's pass deletes one row fewer than the group holds. */
  lemma TailSize<K(!new)>(rows: seq<Keyed<K>>, k: K)
    requires UniqueIds(rows) && Group(rows, k) != []
    ensures |TailIds(rows, k)| == |Group(rows, k)| - 1
  {
    var g := Group(rows, k);
    GroupUnique(rows, k);
    UniqueTail(g);
    IdsOfSize(g[1..]);
  }

  /** Adding a group to a pass adds that group's tail. */
  lemma RemovedStep<K(!new)>(rows: seq<Keyed<K>>, done: set<K>, k: K)
    ensures Removed(rows, done + {k}) == Removed(rows, done) + TailIds(rows, k)
  {
    var g := Group(rows, k);
    if g != [] {
      forall i | i in TailIds(rows, k) ensures i in Removed(rows, done + {k}) {
        var r :| r in g[1..] && r.id == i;
        assert r in g;
      }
    }
  }

  /** The groups of a pass delete disjoint sets of ids. */
  lemma RemovedDisjoint<K(!new)>(rows: seq<Keyed<K>>, done: set<K>, k: K)
    requires UniqueIds(rows) && k !in done
    ensures Removed(rows, done) !! TailIds(rows, k)
  {
    var g := Group(rows, k);
    if g != [] {
      forall i | i in Removed(rows, done) ensures i !in TailIds(rows, k) {
        var r :| r in rows && r.key in done && r in Group(rows, r.key)[1..] && r.id == i;
        if i in TailIds(rows, k) {
          var s :| s in g[1..] && s.id == i;
          assert s in g;
          UniqueIdsSame(rows, r, s);
        }
      }
    }
  }

  /** Deleting in two steps is deleting the union. */
  lemma {:induction false} WithoutWithout<K(!new)>(rows: seq<Keyed<K>>, a: set<int>, b: set<int>)
    ensures Without(Without(rows, a), b) == Without(rows, a + b)
  {
    if rows != [] {
      WithoutWithout(rows[1..], a, b);
      var once := Without(rows, a);
      if rows[0].id !in a {
        assert once == [rows[0]] + Without(rows[1..], a);
        assert once[0] == rows[0] && once[1..] == Without(rows[1..], a);
      } else {
        assert once == Without(rows[1..], a);
      }
    }
  }

  /** Deleting rows outside a group leaves the group as it was. */
  lemma {:induction false} GroupWithout<K(!new)>(rows: seq<Keyed<K>>, ids: set<int>, k: K)
    requires forall r :: r in rows && r.key == k ==> r.id !in ids
    ensures Group(Without(rows, ids), k) == Group(rows, k)
  {
    if rows != [] {
      GroupWithout(rows[1..], ids, k);
      var s := Without(rows, ids);
      if rows[0].id !in ids {
        assert s == [rows[0]] + Without(rows[1..], ids);
        assert s[0] == rows[0] && s[1..] == Without(rows[1..], ids);
      } else {
        assert s == Without(rows[1..], ids);
      }
    }
  }

  lemma {:induction false} WithoutUnique<K(!new)>(rows: seq<Keyed<K>>, ids: set<int>)
    requires UniqueIds(rows)
    ensures UniqueIds(Without(rows, ids))
  {
    if rows != [] {
      var rest := Without(rows[1..], ids);
      UniqueTail(rows);
      WithoutUnique(rows[1..], ids);
      var s := Without(rows, ids);
      if rows[0].id !in ids {
        assert s == [rows[0]] + rest;
        forall i, j | 0 <= i < j < |s| ensures s[i].id != s[j].id {
          assert s[j] == rest[j - 1];
          if i > 0 {
            assert s[i] == rest[i - 1];
          }
        }
      } else {
        assert s == rest;
      }
    }
  }

  // ------------------------------------------------------------------ table

  /** One table of the database, rows in the order the database returns them. */
  class Table<K(==,!new)> {
    var rows: seq<Keyed<K>>

    /**
     * Deletes the rows of the group keyed `k` after its first, one at a time,
     * counting each deletion.
     */
    method DeleteGroupTail(k: K) returns (deleted: nat)
      requires UniqueIds(rows)
      modifies this
      ensures rows == Without(old(rows), TailIds(old(rows), k))
      ensures Group(old(rows), k) != [] ==> deleted == |Group(old(rows), k)| - 1
      ensures Group(old(rows), k) == [] ==> deleted == 0
    {
      var patterns := Group(rows, k);
      deleted := 0;
      if patterns == [] {
        assert Without(rows, {}) == rows by { WithoutNone(rows); }
        return;
      }
      ghost var start := rows;
      assert Without(start, IdsOf(patterns[1..1])) == start by {
        assert IdsOf(patterns[1..1]) == {};
        WithoutNone(start);
      }
      var i := 1;
      while i < |patterns|
        invariant 1 <= i <= |patterns|
        invariant rows == Without(start, IdsOf(patterns[1..i]))
        invariant deleted == i - 1
      {
        TailStep(start, patterns, i);
        rows := Without(rows, {patterns[i].id});
        deleted := deleted + 1;
        i := i + 1;
      }
      assert patterns[1..i] == patterns[1..];
    }

    /** One group's pass, once the groups `done` have been cut down to their first rows. */
    method DeleteNextGroup(ghost start: seq<Keyed<K>>, ghost done: set<K>, k: K) returns (deleted: nat)
      requires UniqueIds(start) && k !in done && rows == Without(start, Removed(start, done))
      modifies this
      ensures rows == Without(start, Removed(start, done + {k}))
      ensures |Removed(start, done + {k})| == |Removed(start, done)| + deleted
    {
      GroupStep(start, done, k, rows);
      deleted := DeleteGroupTail(k);
    }

    /**
     * Deletes, in every group keyed by a member of `ks`, the rows after the
     * first, and counts the deletions.
     */
    method DeleteDuplicateGroups(ks: set<K>) returns (deleted: nat)
      requires UniqueIds(rows)
      modifies this
      ensures rows == Without(old(rows), Removed(old(rows), ks))
      ensures deleted == |Removed(old(rows), ks)|
    {
      ghost var start := rows;
      var todo := ks;
      ghost var done: set<K> := {};
      deleted := 0;
      assert Without(start, Removed(start, {})) == start by {
        assert Removed(start, {}) == {};
        WithoutNone(start);
      }
      while todo != {}
        invariant done + todo == ks && done !! todo
        invariant rows == Without(start, Removed(start, done))
        invariant deleted == |Removed(start, done)|
        decreases |todo|
      {
        var k :| k in todo;
        var n := DeleteNextGroup(start, done, k);
        deleted := deleted + n;
        MoveOne(done, todo, k);
        done, todo := done + {k}, todo - {k};
      }
    }

    /** Cuts every group of duplicates down to its first row, counting the deletions. */
    method Deduplicate() returns (deleted: nat)
      requires UniqueIds(rows)
      modifies this
      ensures rows == Deduplicated(old(rows))
      ensures deleted == Surplus(old(rows))
    {
      deleted := DeleteDuplicateGroups(DupeKeys(rows));
    }
  }

  lemma {:induction false} WithoutNone<K(!new)>(rows: seq<Keyed<K>>)
    ensures Without(rows, {}) == rows
  {
    if rows != [] {
      WithoutNone(rows[1..]);
      assert rows == [rows[0]] + rows[1..];
    }
  }

  /** Deleting one more row of a group's tail. */
  lemma TailStep<K(!new)>(start: seq<Keyed<K>>, patterns: seq<Keyed<K>>, i: int)
    requires 1 <= i < |patterns|
    ensures Without(Without(start, IdsOf(patterns[1..i])), {patterns[i].id}) == Without(start, IdsOf(patterns[1..i + 1]))
  {
    WithoutWithout(start, IdsOf(patterns[1..i]), {patterns[i].id});
    assert patterns[1..i + 1] == patterns[1..i] + [patterns[i]];
    assert IdsOf(patterns[1..i + 1]) == IdsOf(patterns[1..i]) + {patterns[i].id};
  }

  /** A pass over one more group deletes that group's size minus one more rows. */
  lemma RemovedCount<K(!new)>(rows: seq<Keyed<K>>, done: set<K>, k: K)
    requires UniqueIds(rows) && k !in done
    ensures Group(rows, k) != [] ==> |Removed(rows, done + {k})| == |Removed(rows, done)| + |Group(rows, k)| - 1
    ensures Group(rows, k) == [] ==> |Removed(rows, done + {k})| == |Removed(rows, done)|
  {
    RemovedStep(rows, done, k);
    RemovedDisjoint(rows, done, k);
    if Group(rows, k) != [] {
      TailSize(rows, k);
    }
  }

  /**
   * A pass over the groups `ks` after a pass over the disjoint groups `done`:
   * it sees those groups as they were, deletes what it would have deleted
   * first, and the two passes add up to one pass over both.
   */
  lemma PassStep<K(!new)>(start: seq<Keyed<K>>, done: set<K>, ks: set<K>, cur: seq<Keyed<K>>)
    requires UniqueIds(start) && done !! ks && cur == Without(start, Removed(start, done))
    ensures UniqueIds(cur)
    ensures forall r :: r in start && r.key !in done ==> r in cur
    ensures forall k :: k !in done ==> Group(cur, k) == Group(start, k)
    ensures Removed(cur, ks) == Removed(start, ks)
    ensures Removed(start, done + ks) == Removed(start, done) + Removed(start, ks)
    ensures Removed(start, done) !! Removed(start, ks)
    ensures Without(cur, Removed(cur, ks)) == Without(start, Removed(start, done + ks))
  {
    WithoutUnique(start, Removed(start, done));
    forall r | r in start && r.key !in done ensures r.id !in Removed(start, done) {
      InRemoved(start, done, r);
    }
    forall k | k !in done ensures Group(cur, k) == Group(start, k) {
      GroupWithout(start, Removed(start, done), k);
    }
    forall i | i in Removed(start, done) ensures i !in Removed(start, ks) {
      var r :| r in start && r.key in done && r in Group(start, r.key)[1..] && r.id == i;
      InRemoved(start, ks, r);
    }
    WithoutWithout(start, Removed(start, done), Removed(start, ks));
  }

  /**
   * One group's pass, while the groups `done` have already been cut down to
   * their first rows: the group is as it was, and the deletions add up.
   */
  lemma GroupStep<K(!new)>(start: seq<Keyed<K>>, done: set<K>, k: K, cur: seq<Keyed<K>>)
    requires UniqueIds(start) && k !in done && cur == Without(start, Removed(start, done))
    ensures UniqueIds(cur)
    ensures Without(cur, TailIds(cur, k)) == Without(start, Removed(start, done + {k}))
    ensures Group(cur, k) != [] ==> |Removed(start, done + {k})| == |Removed(start, done)| + |Group(cur, k)| - 1
    ensures Group(cur, k) == [] ==> |Removed(start, done + {k})| == |Removed(start, done)|
  {
    forall r | r in start && r.key == k ensures r.id !in Removed(start, done) {
      InRemoved(start, done, r);
    }
    WithoutUnique(start, Removed(start, done));
    GroupWithout(start, Removed(start, done), k);
    RemovedStep(start, done, k);
    RemovedDisjoint(start, done, k);
    WithoutWithout(start, Removed(start, done), TailIds(start, k));
    if Group(start, k) != [] {
      TailSize(start, k);
    }
  }
}
