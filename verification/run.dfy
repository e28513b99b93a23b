/**
 One run of the tracker: load the master database, scrape Crawford County
 and then Sebastian County, detect the new inmates, and write both output
 files, newly_added.json and database.json. Loading, scraping and writing
 are I/O; a run is modelled as the function from the loaded database (its
 entries and the order of its keys in the file) and the two scrapes to the
 contents of the two files, key order included.
 */
module Run {
  import opened Identity
  import opened Inmates
  import opened Reconciliation

  /** What a run writes: the newly added records, the whole database, and the
      order in which the database's keys appear in the file. */
  datatype Output = Output(newlyAddedFile: seq<Inmate>, databaseFile: Db, databaseKeyOrder: seq<string>)

  /** `order` is the key order of a dictionary holding `db`: every key of
      `db` exactly once, and nothing else. */
  predicate ListsKeysOnce(order: seq<string>, db: Db)
  {
    && (forall i, j :: 0 <= i < j < |order| ==> order[i] != order[j])
    && (forall k :: k in order ==> k in db)
    && (forall k :: k in db ==> k in order)
  }

  /** The ids of a sequence of records, in order. */
  function IdSeq(s: seq<Inmate>): seq<string>
  {
    seq(|s|, k requires 0 <= k < |s| => s[k].inmateId)
  }

  /** Inserting records with fresh, pairwise distinct ids into a dictionary
      appends their ids, in insertion order, to its key order. */
  lemma KeyOrderAppend(order: seq<string>, db: Db, added: seq<Inmate>, grown: Db)
    requires ListsKeysOnce(order, db)
    requires DistinctIds(added)
    requires forall k :: 0 <= k < |added| ==> added[k].inmateId !in db
    requires grown.Keys == db.Keys + Ids(added)
    ensures ListsKeysOnce(order + IdSeq(added), grown)
  {
    var all := order + IdSeq(added);
    forall i, j | 0 <= i < j < |all|
      ensures all[i] != all[j]
    {
      if j < |order| {
      } else if i < |order| {
        assert all[j] == added[j - |order|].inmateId;
        assert all[i] in order;
      } else {
        assert all[i] == added[i - |order|].inmateId;
        assert all[j] == added[j - |order|].inmateId;
      }
    }
    forall k
      ensures k in all <==> k in grown
    {
      if k in all {
        var i :| 0 <= i < |all| && all[i] == k;
        if i >= |order| {
          assert added[i - |order|] in added;
        }
      }
      if k in grown && k !in db {
        var r :| r in added && r.inmateId == k;
        var i :| 0 <= i < |added| && added[i] == r;
        assert all[|order| + i] == k;
      }
    }
  }

  /** A run. The database written is the loaded one grown by the ids of both
      scrapes, every loaded entry unchanged; the new-inmates file names each
      id of the scrapes that the loaded database did not know, once. In the
      database file the loaded keys keep their order and the new ids follow,
      in the order they were reported, so the file again lists every key
      once. */
  function RunOnce(masterDb: Db, loadedOrder: seq<string>, crawford: seq<Inmate>, sebastian: seq<Inmate>): (out: Output)
    ensures out.databaseFile.Keys == masterDb.Keys + Ids(crawford) + Ids(sebastian)
    ensures forall id :: id in masterDb ==> out.databaseFile[id] == masterDb[id]
    ensures Ids(out.newlyAddedFile) == (Ids(crawford) + Ids(sebastian)) - masterDb.Keys
    ensures DistinctIds(out.newlyAddedFile)
    ensures |out.databaseKeyOrder| == |loadedOrder| + |out.newlyAddedFile|
    ensures out.databaseKeyOrder[..|loadedOrder|] == loadedOrder
    ensures forall k :: 0 <= k < |out.newlyAddedFile| ==>
              out.databaseKeyOrder[|loadedOrder| + k] == out.newlyAddedFile[k].inmateId
    ensures ListsKeysOnce(loadedOrder, masterDb) ==> ListsKeysOnce(out.databaseKeyOrder, out.databaseFile)
  {
    var batch := ScrapedBatch(crawford, sebastian);
    ScrapedBatchIds(crawford, sebastian);
    NewlyAddedIds(batch, masterDb);
    NewlyAddedIdsDistinct(batch, masterDb);
    var r := Reconcile(batch, masterDb);
    var order := loadedOrder + IdSeq(r.newlyAdded);
    assert ListsKeysOnce(loadedOrder, masterDb) ==> ListsKeysOnce(order, r.db) by {
      if ListsKeysOnce(loadedOrder, masterDb) {
        KeyOrderAppend(loadedOrder, masterDb, r.newlyAdded, r.db);
      }
    }
    Output(r.newlyAdded, r.db, order)
  }

  /** Which records a run writes: the new-inmates file holds the first
      scraped record of each id the loaded database did not know, in scrape
      order, and the database file stores each of those records under its
      own id. */
  lemma RunOnceWritesFirstOccurrences(masterDb: Db, loadedOrder: seq<string>,
                                      crawford: seq<Inmate>, sebastian: seq<Inmate>)
    ensures var out := RunOnce(masterDb, loadedOrder, crawford, sebastian);
            && out.newlyAddedFile == FirstNew(crawford + sebastian, masterDb.Keys)
            && IsSubsequence(out.newlyAddedFile, crawford + sebastian)
            && forall k :: 0 <= k < |out.newlyAddedFile| ==>
                 out.databaseFile[out.newlyAddedFile[k].inmateId] == out.newlyAddedFile[k]
  {
    NewlyAddedAreFirstOccurrences(crawford + sebastian, masterDb);
    NewlyAddedIsSubsequence(crawford + sebastian, masterDb);
  }

  /** A run whose scrapes both came back empty still writes both files: an
      empty new-inmates list and the loaded database, unchanged. */
  lemma EmptyScrapeStillWrites(masterDb: Db, loadedOrder: seq<string>)
    ensures RunOnce(masterDb, loadedOrder, [], []) == Output([], masterDb, loadedOrder)
  {
    assert ScrapedBatch([], []) == [];
  }

  /** A run in which every scraped id is already known writes an empty
      new-inmates list and the loaded database unchanged. */
  lemma AllKnownRunChangesNothing(masterDb: Db, loadedOrder: seq<string>, crawford: seq<Inmate>, sebastian: seq<Inmate>)
    requires Ids(crawford) + Ids(sebastian) <= masterDb.Keys
    ensures RunOnce(masterDb, loadedOrder, crawford, sebastian) == Output([], masterDb, loadedOrder)
  {
    var batch := ScrapedBatch(crawford, sebastian);
    ScrapedBatchIds(crawford, sebastian);
    NothingNewIffAllKnown(batch, masterDb);
  }

  /** The new-inmates file is source-major: Crawford's new inmates, then
      Sebastian's, each list being what reconciling that county alone
      against the loaded database reports. */
  lemma NewlyAddedIsSourceMajor(masterDb: Db, loadedOrder: seq<string>, crawford: seq<Inmate>, sebastian: seq<Inmate>)
    requires forall r :: r in crawford ==> ListedBy(r, Crawford)
    requires forall r :: r in sebastian ==> ListedBy(r, Sebastian)
    ensures RunOnce(masterDb, loadedOrder, crawford, sebastian).newlyAddedFile
         == Reconcile(crawford, masterDb).newlyAdded + Reconcile(sebastian, masterDb).newlyAdded
  {
    ReconcileConcat(crawford, sebastian, masterDb);
    var afterCrawford := Reconcile(crawford, masterDb).db;
    CountyIdsDisjoint(crawford, sebastian);
    assert afterCrawford.Keys * Ids(sebastian) == masterDb.Keys * Ids(sebastian);
    NewlyAddedDependsOnBatchIdsOnly(sebastian, afterCrawford, masterDb);
  }

  /** The database knows one Crawford County inmate, stored with one photo
      URL. Crawford now lists that inmate again, with another photo, and
      Sebastian lists one inmate. Only the Sebastian inmate is new; the
      database ends with both, and the stored Crawford record is not
      refreshed. */
  lemma KnownAndNewInmateRun(crawfordName: string, oldPhoto: Option<string>, newPhoto: Option<string>,
                             sebastianName: string, photo: Option<string>)
    ensures var stored := CrawfordRecord(crawfordName, oldPhoto);
            var again := CrawfordRecord(crawfordName, newPhoto);
            var other := SebastianRecord(sebastianName, photo);
            var out := RunOnce(map[stored.inmateId := stored], [stored.inmateId], [again], [other]);
            && out.newlyAddedFile == [other]
            && out.databaseFile == map[stored.inmateId := stored, other.inmateId := other]
            && out.databaseKeyOrder == [stored.inmateId, other.inmateId]
  {
    var stored := CrawfordRecord(crawfordName, oldPhoto);
    var again := CrawfordRecord(crawfordName, newPhoto);
    var other := SebastianRecord(sebastianName, photo);
    CountiesNeverCollide(crawfordName, sebastianName);
    var db0 := map[stored.inmateId := stored];
    var batch := ScrapedBatch([again], [other]);
    assert batch == [again, other];
    assert batch[1..] == [other];
    assert Reconcile(batch, db0) == Reconcile([other], db0);
    ReconcileSingle(other, db0);
    assert IdSeq([other]) == [other.inmateId];
  }
}
