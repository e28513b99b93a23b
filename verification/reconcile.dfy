/**
 New-inmate detection: one pass over the scraped batch, in order. A record
 whose id is not a key of the master database is reported as newly added
 and stored in the database under its id; a record whose id is already a
 key changes nothing. The database is updated during the pass, so a second
 record with the same id later in the batch is known by then and is not
 reported again.
 */
module Reconciliation {
  import opened Inmates

  /** The master database: an id maps to the record stored when the id was first seen. */
  type Db = map<string, Inmate>

  /** The outcome of one pass: the newly added records, in batch order, and the updated database. */
  datatype Reconciled = Reconciled(newlyAdded: seq<Inmate>, db: Db)

  lemma IdsCons(batch: seq<Inmate>)
    requires |batch| > 0
    ensures Ids(batch) == {batch[0].inmateId} + Ids(batch[1..])
  {
    assert batch == [batch[0]] + batch[1..];
    forall id | id in Ids(batch)
      ensures id in {batch[0].inmateId} + Ids(batch[1..])
    {
      var r :| r in batch && r.inmateId == id;
      assert r == batch[0] || r in batch[1..];
    }
  }

  /** The pass over the batch. The database only grows: its keys become the
      old keys and the batch's ids, and every old entry keeps its record.
      Each reported record was unknown to the old database and is what the
      new database stores under its id. */
  function Reconcile(batch: seq<Inmate>, db: Db): (r: Reconciled)
    ensures r.db.Keys == db.Keys + Ids(batch)
    ensures forall id {:trigger r.db[id]} :: id in db ==> r.db[id] == db[id]
    ensures forall k :: 0 <= k < |r.newlyAdded| ==>
              && r.newlyAdded[k].inmateId !in db
              && r.newlyAdded[k].inmateId in r.db
              && r.db[r.newlyAdded[k].inmateId] == r.newlyAdded[k]
    decreases |batch|
  {
    if |batch| == 0 then Reconciled([], db)
    else
      IdsCons(batch);
      var inmate := batch[0];
      if inmate.inmateId !in db then
        var rest := Reconcile(batch[1..], db[inmate.inmateId := inmate]);
        Reconciled([inmate] + rest.newlyAdded, rest.db)
      else
        Reconcile(batch[1..], db)
  }

  /** The pass over a batch of one record. */
  lemma ReconcileSingle(x: Inmate, db: Db)
    ensures Reconcile([x], db)
         == if x.inmateId in db then Reconciled([], db) else Reconciled([x], db[x.inmateId := x])
  {
    assert [x][1..] == [];
  }

  /** The pass as the loop runs it: after the first i records the
      accumulator and the database are what Reconcile makes of those i
      records, so at the end they are what it makes of the whole batch. */
  method DetectNewInmates(scraped: seq<Inmate>, masterDb: Db) returns (newlyAdded: seq<Inmate>, db: Db)
    ensures Reconciled(newlyAdded, db) == Reconcile(scraped, masterDb)
  {
    newlyAdded := [];
    db := masterDb;
    for i := 0 to |scraped|
      invariant Reconciled(newlyAdded, db) == Reconcile(scraped[..i], masterDb)
    {
      var inmate := scraped[i];
      assert scraped[..i + 1] == scraped[..i] + [inmate];
      ReconcileConcat(scraped[..i], [inmate], masterDb);
      ReconcileSingle(inmate, db);
      if inmate.inmateId !in db {
        newlyAdded := newlyAdded + [inmate];
        db := db[inmate.inmateId := inmate];
      }
    }
    assert scraped[..|scraped|] == scraped;
  }

  // ---------------------------------------------------------------------
  // An independent description of what is reported
  // ---------------------------------------------------------------------

  /** The records of the batch whose id is neither known beforehand nor
      seen earlier in the batch, in batch order. Defined from the end of
      the batch, without any database being updated. */
  function FirstNew(batch: seq<Inmate>, known: set<string>): seq<Inmate>
    decreases |batch|
  {
    if |batch| == 0 then []
    else
      var init, last := batch[..|batch| - 1], batch[|batch| - 1];
      FirstNew(init, known)
        + (if last.inmateId in known || last.inmateId in Ids(init) then [] else [last])
  }

  /** Reconciling a concatenation is reconciling the first part and then the
      second part against the database the first part left behind. */
  lemma {:induction false} ReconcileConcat(a: seq<Inmate>, b: seq<Inmate>, db: Db)
    ensures Reconcile(a + b, db)
         == Reconciled(Reconcile(a, db).newlyAdded + Reconcile(b, Reconcile(a, db).db).newlyAdded,
                       Reconcile(b, Reconcile(a, db).db).db)
    decreases |a|
  {
    if |a| == 0 {
      assert a + b == b;
    } else {
      assert (a + b)[0] == a[0];
      assert (a + b)[1..] == a[1..] + b;
      var x := a[0];
      if x.inmateId !in db {
        var db' := db[x.inmateId := x];
        ReconcileConcat(a[1..], b, db');
        var ra := Reconcile(a[1..], db');
        var rb := Reconcile(b, ra.db);
        assert [x] + (ra.newlyAdded + rb.newlyAdded) == ([x] + ra.newlyAdded) + rb.newlyAdded;
      } else {
        ReconcileConcat(a[1..], b, db);
      }
    }
  }

  /** The pass reports exactly the first occurrences of ids the database did
      not know, in batch order. */
  lemma {:induction false} NewlyAddedAreFirstOccurrences(batch: seq<Inmate>, db: Db)
    ensures Reconcile(batch, db).newlyAdded == FirstNew(batch, db.Keys)
    decreases |batch|
  {
    if |batch| > 0 {
      var init, last := batch[..|batch| - 1], batch[|batch| - 1];
      assert batch == init + [last];
      ReconcileConcat(init, [last], db);
      NewlyAddedAreFirstOccurrences(init, db);
      var ri := Reconcile(init, db);
      assert [last][1..] == [];
      assert Reconcile([last], ri.db).newlyAdded
          == (if last.inmateId in ri.db then [] else [last]);
    }
  }

  // ---------------------------------------------------------------------
  // Properties of the reported list
  // ---------------------------------------------------------------------

  /** xs is obtained from ys by deleting elements, keeping the order of the rest. */
  predicate IsSubsequence<T(==)>(xs: seq<T>, ys: seq<T>)
    decreases |ys|
  {
    if |xs| == 0 then true
    else if |ys| == 0 then false
    else (xs[0] == ys[0] && IsSubsequence(xs[1..], ys[1..])) || IsSubsequence(xs, ys[1..])
  }

  /** The reported records are records of the batch, in batch order. */
  lemma {:induction false} NewlyAddedIsSubsequence(batch: seq<Inmate>, db: Db)
    ensures IsSubsequence(Reconcile(batch, db).newlyAdded, batch)
    decreases |batch|
  {
    if |batch| > 0 {
      var x := batch[0];
      if x.inmateId !in db {
        NewlyAddedIsSubsequence(batch[1..], db[x.inmateId := x]);
        assert ([x] + Reconcile(batch[1..], db[x.inmateId := x]).newlyAdded)[1..]
            == Reconcile(batch[1..], db[x.inmateId := x]).newlyAdded;
      } else {
        NewlyAddedIsSubsequence(batch[1..], db);
      }
    }
  }

  /** No two records of the sequence share an id. */
  predicate DistinctIds(s: seq<Inmate>)
  {
    forall k, l :: 0 <= k < l < |s| ==> s[k].inmateId != s[l].inmateId
  }

  lemma DistinctIdsCons(x: Inmate, s: seq<Inmate>)
    requires DistinctIds(s)
    requires forall l :: 0 <= l < |s| ==> s[l].inmateId != x.inmateId
    ensures DistinctIds([x] + s)
  {
    var xs := [x] + s;
    forall k, l | 0 <= k < l < |xs|
      ensures xs[k].inmateId != xs[l].inmateId
    {
      assert xs[l] == s[l - 1];
      if k > 0 {
        assert xs[k] == s[k - 1];
      }
    }
  }

  /** Without the head, a sequence with distinct ids still has distinct ids,
      none of them the head's. */
  lemma DistinctIdsTail(s: seq<Inmate>)
    requires |s| > 0 && DistinctIds(s)
    ensures DistinctIds(s[1..])
    ensures s[0].inmateId !in Ids(s[1..])
  {
    forall r | r in s[1..]
      ensures r.inmateId != s[0].inmateId
    {
      var j :| 0 <= j < |s[1..]| && s[1..][j] == r;
      assert s[j + 1] == r;
    }
    forall k, l | 0 <= k < l < |s[1..]|
      ensures s[1..][k].inmateId != s[1..][l].inmateId
    {
      assert s[1..][k] == s[k + 1] && s[1..][l] == s[l + 1];
    }
  }

  /** No id is reported twice, even when the batch lists it more than once. */
  lemma {:induction false} NewlyAddedIdsDistinct(batch: seq<Inmate>, db: Db)
    ensures DistinctIds(Reconcile(batch, db).newlyAdded)
    decreases |batch|
  {
    if |batch| > 0 {
      var x := batch[0];
      if x.inmateId !in db {
        var rest := Reconcile(batch[1..], db[x.inmateId := x]).newlyAdded;
        NewlyAddedIdsDistinct(batch[1..], db[x.inmateId := x]);
        forall l | 0 <= l < |rest|
          ensures rest[l].inmateId != x.inmateId
        {
          assert rest[l].inmateId !in db[x.inmateId := x];
        }
        DistinctIdsCons(x, rest);
      } else {
        NewlyAddedIdsDistinct(batch[1..], db);
      }
    }
  }

  /** The reported ids are exactly the batch's ids that the database did not know. */
  lemma {:induction false} NewlyAddedIds(batch: seq<Inmate>, db: Db)
    ensures Ids(Reconcile(batch, db).newlyAdded) == Ids(batch) - db.Keys
    decreases |batch|
  {
    if |batch| > 0 {
      IdsCons(batch);
      var x := batch[0];
      var r := Reconcile(batch, db);
      if x.inmateId !in db {
        var rest := Reconcile(batch[1..], db[x.inmateId := x]);
        NewlyAddedIds(batch[1..], db[x.inmateId := x]);
        assert r.newlyAdded == [x] + rest.newlyAdded;
        IdsCons(r.newlyAdded);
        assert r.newlyAdded[1..] == rest.newlyAdded;
      } else {
        NewlyAddedIds(batch[1..], db);
      }
    }
  }

  /** The database grows by exactly one entry per reported record. */
  lemma {:induction false} DbGrowsByNewlyAdded(batch: seq<Inmate>, db: Db)
    ensures |Reconcile(batch, db).db| == |db| + |Reconcile(batch, db).newlyAdded|
    decreases |batch|
  {
    if |batch| > 0 {
      var x := batch[0];
      if x.inmateId !in db {
        var db' := db[x.inmateId := x];
        assert db'.Keys == db.Keys + {x.inmateId};
        assert |db'.Keys| == |db.Keys| + 1;
        var rest := Reconcile(batch[1..], db');
        DbGrowsByNewlyAdded(batch[1..], db');
        assert Reconcile(batch, db) == Reconciled([x] + rest.newlyAdded, rest.db);
        assert |[x] + rest.newlyAdded| == 1 + |rest.newlyAdded|;
      } else {
        DbGrowsByNewlyAdded(batch[1..], db);
        assert Reconcile(batch, db) == Reconcile(batch[1..], db);
      }
    }
  }

  /** Nothing is reported exactly when every scraped id is already known,
      and then the database is left exactly as it was. */
  lemma NothingNewIffAllKnown(batch: seq<Inmate>, db: Db)
    ensures Reconcile(batch, db).newlyAdded == [] <==> Ids(batch) <= db.Keys
    ensures Ids(batch) <= db.Keys ==> Reconcile(batch, db).db == db
  {
    var r := Reconcile(batch, db);
    NewlyAddedIds(batch, db);
    if r.newlyAdded != [] {
      assert r.newlyAdded[0] in r.newlyAdded;
    }
  }

  /** Against a database that knows none of the batch's ids, a batch without
      repeated ids is reported in full. */
  lemma {:induction false} UnknownDistinctBatchReportedInFull(batch: seq<Inmate>, db: Db)
    requires Ids(batch) !! db.Keys
    requires DistinctIds(batch)
    ensures Reconcile(batch, db).newlyAdded == batch
    decreases |batch|
  {
    if |batch| > 0 {
      IdsCons(batch);
      DistinctIdsTail(batch);
      var x := batch[0];
      var db' := db[x.inmateId := x];
      assert Ids(batch[1..]) !! db'.Keys;
      UnknownDistinctBatchReportedInFull(batch[1..], db');
      assert batch == [x] + batch[1..];
    }
  }

  /** What is reported depends only on which of the batch's ids the database
      knows, not on the rest of the database. */
  lemma {:induction false} FirstNewDependsOnBatchIdsOnly(batch: seq<Inmate>, k1: set<string>, k2: set<string>)
    requires k1 * Ids(batch) == k2 * Ids(batch)
    ensures FirstNew(batch, k1) == FirstNew(batch, k2)
    decreases |batch|
  {
    if |batch| > 0 {
      var init, last := batch[..|batch| - 1], batch[|batch| - 1];
      assert batch == init + [last];
      assert last in batch;
      assert last.inmateId in Ids(batch);
      assert last.inmateId in k1 * Ids(batch) <==> last.inmateId in k2 * Ids(batch);
      forall id | id in Ids(init)
        ensures id in k1 <==> id in k2
      {
        var r :| r in init && r.inmateId == id;
        assert r in batch;
        assert id in k1 * Ids(batch) <==> id in k2 * Ids(batch);
      }
      assert k1 * Ids(init) == k2 * Ids(init);
      FirstNewDependsOnBatchIdsOnly(init, k1, k2);
    }
  }

  lemma NewlyAddedDependsOnBatchIdsOnly(batch: seq<Inmate>, db1: Db, db2: Db)
    requires db1.Keys * Ids(batch) == db2.Keys * Ids(batch)
    ensures Reconcile(batch, db1).newlyAdded == Reconcile(batch, db2).newlyAdded
  {
    NewlyAddedAreFirstOccurrences(batch, db1);
    NewlyAddedAreFirstOccurrences(batch, db2);
    FirstNewDependsOnBatchIdsOnly(batch, db1.Keys, db2.Keys);
  }
}
