/** The IndexedDB schema migrations (`MIGRATIONS` and `runMigrations` in
    src/storage/idb.js), on a database reduced to what an upgrade can see and
    do: the set of object store names, a log of the stores and indexes
    created, in order, and the key path each store was created with. */
module Idb {
  import opened Seqs

  /** An index created on a store. */
  datatype IndexSpec = IndexSpec(store: string, name: string, keyPath: string)

  /** An object store with its key path and its indexes, in creation order. */
  datatype StoreSpec = StoreSpec(name: string, keyPath: string, indexes: seq<(string, string)>)

  /** A migration step: the target version and the stores it ensures exist,
      in the order it creates them. */
  datatype Migration = Migration(version: int, stores: seq<StoreSpec>)

  datatype Db = Db(stores: set<string>, createdStores: seq<string>, createdIndexes: seq<IndexSpec>,
                   keyPaths: map<string, string>)

  const DbVersion := 2

  const SessionsStore := StoreSpec("sessions", "sessionId",
    [("byUpdatedAt", "updatedAt"), ("byStatus", "status"), ("byPuzzleId", "puzzleId")])
  const PuzzlesStore := StoreSpec("puzzles", "id", [])
  const AppMetaStore := StoreSpec("app_meta", "key", [])

  /** `MIGRATIONS`, ordered by version. */
  const Migrations := [Migration(1, [SessionsStore]), Migration(2, [PuzzlesStore, AppMetaStore])]

  /** The index records `createIndex` logs for a new store. */
  function IndexRecords(store: string, indexes: seq<(string, string)>): (r: seq<IndexSpec>)
    ensures |r| == |indexes|
    ensures forall k :: 0 <= k < |r| ==> r[k] == IndexSpec(store, indexes[k].0, indexes[k].1)
  {
    if |indexes| == 0 then [] else [IndexSpec(store, indexes[0].0, indexes[0].1)] + IndexRecords(store, indexes[1..])
  }

  /** `createObjectStore(name, { keyPath })` followed by the store's
      `createIndex` calls. */
  function CreateStore(db: Db, spec: StoreSpec): Db
  {
    Db(db.stores + {spec.name}, db.createdStores + [spec.name],
       db.createdIndexes + IndexRecords(spec.name, spec.indexes),
       db.keyPaths[spec.name := spec.keyPath])
  }

  /** `if (!db.objectStoreNames.contains(name)) create…Store(db)`. */
  function EnsureStore(db: Db, spec: StoreSpec): Db
  {
    if spec.name in db.stores then db else CreateStore(db, spec)
  }

  /** `migration.run(db)`: ensures each of the migration's stores in order. */
  function RunMigration(db: Db, specs: seq<StoreSpec>): Db
    decreases |specs|
  {
    if |specs| == 0 then db else RunMigration(EnsureStore(db, specs[0]), specs[1..])
  }

  /** `runMigrations` over a list of migrations: each one whose version is
      above `oldVersion` runs, in list order. */
  function RunAll(db: Db, ms: seq<Migration>, oldVersion: int): Db
    decreases |ms|
  {
    if |ms| == 0 then db
    else RunAll(if oldVersion < ms[0].version then RunMigration(db, ms[0].stores) else db, ms[1..], oldVersion)
  }

  /** `runMigrations(db, oldVersion)`: an upgrade only adds stores, never
      one that exists already, and from the current version it changes
      nothing. */
  function RunMigrations(db: Db, oldVersion: int): (r: Db)
    ensures Grows(db, r)
    ensures oldVersion >= DbVersion ==> r == db
  {
    RunAllGrows(db, Migrations, oldVersion);
    assert oldVersion >= DbVersion ==> RunAll(db, Migrations, oldVersion) == db by {
      if oldVersion >= DbVersion {
        RunAllSkipsOld(db, Migrations, oldVersion);
      }
    }
    RunAll(db, Migrations, oldVersion)
  }

  /** How an upgrade may change a database: stores are only added, each
      added store is logged once, no store that existed is created again,
      and both logs only grow. */
  ghost predicate Grows(before: Db, after: Db)
  {
    && before.createdStores <= after.createdStores
    && before.createdIndexes <= after.createdIndexes
    && var added := after.createdStores[|before.createdStores|..];
       && Distinct(added)
       && (forall k :: 0 <= k < |added| ==> added[k] !in before.stores)
       && after.stores == before.stores + (set x | x in added)
  }

  lemma GrowsRefl(db: Db)
    ensures Grows(db, db)
  {
    assert db.createdStores[|db.createdStores|..] == [];
  }

  /** The suffix added from `a` to `c` is the one added from `a` to `b`
      followed by the one added from `b` to `c`. */
  lemma SuffixConcat<T>(a: seq<T>, b: seq<T>, c: seq<T>)
    requires a <= b && b <= c
    ensures c[|a|..] == b[|a|..] + c[|b|..]
  {
    assert b == a + b[|a|..];
    assert c == b + c[|b|..];
  }

  lemma DistinctConcat<T>(x: seq<T>, y: seq<T>, outside: set<T>)
    requires Distinct(x) && Distinct(y)
    requires forall i :: 0 <= i < |x| ==> x[i] in outside
    requires forall j :: 0 <= j < |y| ==> y[j] !in outside
    ensures Distinct(x + y)
  {
    forall i, j | 0 <= i < j < |x + y| ensures (x + y)[i] != (x + y)[j] {
      if j < |x| {
        assert (x + y)[i] == x[i] && (x + y)[j] == x[j];
      } else if i >= |x| {
        assert (x + y)[i] == y[i - |x|] && (x + y)[j] == y[j - |x|];
      } else {
        assert (x + y)[i] == x[i] && (x + y)[j] == y[j - |x|];
      }
    }
  }

  lemma {:induction false} GrowsTrans(a: Db, b: Db, c: Db)
    requires Grows(a, b) && Grows(b, c)
    ensures Grows(a, c)
  {
    var ab := b.createdStores[|a.createdStores|..];
    var bc := c.createdStores[|b.createdStores|..];
    var ac := c.createdStores[|a.createdStores|..];
    SuffixConcat(a.createdStores, b.createdStores, c.createdStores);
    assert ac == ab + bc;
    assert forall i :: 0 <= i < |ab| ==> ab[i] in b.stores;
    DistinctConcat(ab, bc, b.stores);
    assert (set x | x in ac) == (set x | x in ab) + (set x | x in bc);
    forall k | 0 <= k < |ac| ensures ac[k] !in a.stores {
      if k < |ab| {
        assert ac[k] == ab[k];
      } else {
        assert ac[k] == bc[k - |ab|];
      }
    }
  }

  /** Ensuring a store: a no-op when it exists, otherwise exactly one store
      created, with its indexes. */
  lemma EnsureStoreGrows(db: Db, spec: StoreSpec)
    ensures Grows(db, EnsureStore(db, spec))
    ensures spec.name in EnsureStore(db, spec).stores
    ensures spec.name in db.stores ==> EnsureStore(db, spec) == db
  {
    if spec.name in db.stores {
      GrowsRefl(db);
    } else {
      var r := CreateStore(db, spec);
      assert r.createdStores[|db.createdStores|..] == [spec.name];
    }
  }

  lemma {:induction false} RunMigrationGrows(db: Db, specs: seq<StoreSpec>)
    ensures Grows(db, RunMigration(db, specs))
    ensures forall k :: 0 <= k < |specs| ==> specs[k].name in RunMigration(db, specs).stores
    decreases |specs|
  {
    if |specs| == 0 {
      GrowsRefl(db);
    } else {
      var next := EnsureStore(db, specs[0]);
      EnsureStoreGrows(db, specs[0]);
      RunMigrationGrows(next, specs[1..]);
      GrowsTrans(db, next, RunMigration(next, specs[1..]));
      forall k | 0 <= k < |specs| ensures specs[k].name in RunMigration(db, specs).stores {
        if k > 0 {
          assert specs[1..][k - 1] == specs[k];
        }
      }
    }
  }

  /** Running the migrations only adds stores: existing stores stay, none is
      created twice, and none that existed is created again. */
  lemma {:induction false} RunAllGrows(db: Db, ms: seq<Migration>, oldVersion: int)
    ensures Grows(db, RunAll(db, ms, oldVersion))
    decreases |ms|
  {
    if |ms| == 0 {
      GrowsRefl(db);
    } else {
      var next := if oldVersion < ms[0].version then RunMigration(db, ms[0].stores) else db;
      if oldVersion < ms[0].version {
        RunMigrationGrows(db, ms[0].stores);
      } else {
        GrowsRefl(db);
      }
      RunAllGrows(next, ms[1..], oldVersion);
      GrowsTrans(db, next, RunAll(next, ms[1..], oldVersion));
    }
  }

  /** A migration whose version is not above `oldVersion` has no effect:
      with `oldVersion` at or above every version nothing changes. */
  lemma {:induction false} RunAllSkipsOld(db: Db, ms: seq<Migration>, oldVersion: int)
    requires forall k :: 0 <= k < |ms| ==> ms[k].version <= oldVersion
    ensures RunAll(db, ms, oldVersion) == db
  {
    if |ms| > 0 {
      RunAllSkipsOld(db, ms[1..], oldVersion);
    }
  }

  /** The migrations selected by `oldVersion`, in list order. */
  function Selected(ms: seq<Migration>, oldVersion: int): (r: seq<Migration>)
    ensures forall k :: 0 <= k < |r| ==> r[k] in ms && oldVersion < r[k].version
    ensures forall k :: 0 <= k < |ms| && oldVersion < ms[k].version ==> ms[k] in r
  {
    if |ms| == 0 then []
    else
      assert forall k :: 1 <= k < |ms| ==> ms[k] == ms[1..][k - 1];
      (if oldVersion < ms[0].version then [ms[0]] else []) + Selected(ms[1..], oldVersion)
  }

  /** Running every migration of a list in order. */
  function RunInOrder(db: Db, ms: seq<Migration>): Db
    decreases |ms|
  {
    if |ms| == 0 then db else RunInOrder(RunMigration(db, ms[0].stores), ms[1..])
  }

  /** `runMigrations` runs exactly the migrations above `oldVersion`, each
      once, in list order. */
  lemma {:induction false} RunAllRunsSelected(db: Db, ms: seq<Migration>, oldVersion: int)
    ensures RunAll(db, ms, oldVersion) == RunInOrder(db, Selected(ms, oldVersion))
    decreases |ms|
  {
    if |ms| > 0 {
      var tail := Selected(ms[1..], oldVersion);
      if oldVersion < ms[0].version {
        var next := RunMigration(db, ms[0].stores);
        RunAllRunsSelected(next, ms[1..], oldVersion);
        assert Selected(ms, oldVersion) == [ms[0]] + tail;
        assert ([ms[0]] + tail)[1..] == tail;
        assert RunInOrder(db, [ms[0]] + tail) == RunInOrder(next, tail);
      } else {
        RunAllRunsSelected(db, ms[1..], oldVersion);
        assert Selected(ms, oldVersion) == tail;
      }
    }
  }

  /** The migration table is ordered by version and ends at `DbVersion`. */
  lemma MigrationsAscending()
    ensures forall i, j :: 0 <= i < j < |Migrations| ==> Migrations[i].version < Migrations[j].version
    ensures Migrations[|Migrations| - 1].version == DbVersion
  {
  }

  /** Running the table from `oldVersion`: both migrations below 1, only
      the second one at 1. */
  lemma RunMigrationsUnfold(db: Db, oldVersion: int)
    ensures oldVersion < 1 ==>
      RunMigrations(db, oldVersion) == RunMigration(RunMigration(db, [SessionsStore]), [PuzzlesStore, AppMetaStore])
    ensures oldVersion == 1 ==>
      RunMigrations(db, oldVersion) == RunMigration(db, [PuzzlesStore, AppMetaStore])
  {
    var m1, m2 := Migrations[0], Migrations[1];
    assert Migrations[1..] == [m2] && [m2][1..] == [];
    var after1 := if oldVersion < 1 then RunMigration(db, m1.stores) else db;
    assert RunMigrations(db, oldVersion) == RunAll(after1, [m2], oldVersion);
    if oldVersion <= 1 {
      assert RunAll(after1, [m2], oldVersion) == RunAll(RunMigration(after1, m2.stores), [], oldVersion);
    }
  }

  /** The version-2 migration on a database that has neither of its stores. */
  lemma SecondMigrationCreates(db: Db)
    requires "puzzles" !in db.stores && "app_meta" !in db.stores
    ensures RunMigration(db, [PuzzlesStore, AppMetaStore])
         == Db(db.stores + {"puzzles", "app_meta"}, db.createdStores + ["puzzles", "app_meta"], db.createdIndexes,
               db.keyPaths["puzzles" := "id"]["app_meta" := "key"])
  {
    var d2 := CreateStore(db, PuzzlesStore);
    assert EnsureStore(db, PuzzlesStore) == d2;
    assert IndexRecords("puzzles", []) == [];
    var d3 := CreateStore(d2, AppMetaStore);
    assert EnsureStore(d2, AppMetaStore) == d3;
    assert IndexRecords("app_meta", []) == [];
    assert [PuzzlesStore, AppMetaStore][1..] == [AppMetaStore];
    assert RunMigration(d2, [AppMetaStore]) == d3;
  }

  /** A fresh database at version 0 gets the three stores, created in the
      order sessions, puzzles, app_meta, with their key paths, and the three
      sessions indexes. */
  lemma FreshDatabase()
    ensures RunMigrations(Db({}, [], [], map[]), 0).stores == {"app_meta", "puzzles", "sessions"}
    ensures RunMigrations(Db({}, [], [], map[]), 0).createdStores == ["sessions", "puzzles", "app_meta"]
    ensures RunMigrations(Db({}, [], [], map[]), 0).createdIndexes == [
      IndexSpec("sessions", "byUpdatedAt", "updatedAt"),
      IndexSpec("sessions", "byStatus", "status"),
      IndexSpec("sessions", "byPuzzleId", "puzzleId")]
    ensures RunMigrations(Db({}, [], [], map[]), 0).keyPaths
         == map["sessions" := "sessionId", "puzzles" := "id", "app_meta" := "key"]
  {
    var d0 := Db({}, [], [], map[]);
    var d1 := CreateStore(d0, SessionsStore);
    assert RunMigration(d0, [SessionsStore]) == d1;
    assert d1.createdIndexes == [
      IndexSpec("sessions", "byUpdatedAt", "updatedAt"),
      IndexSpec("sessions", "byStatus", "status"),
      IndexSpec("sessions", "byPuzzleId", "puzzleId")];
    RunMigrationsUnfold(d0, 0);
    SecondMigrationCreates(d1);
  }

  /** A version-1 database that has its sessions store gets only the puzzles
      and app_meta stores, keyed by `id` and `key`, and no indexes. */
  lemma UpgradeFromVersion1()
    ensures RunMigrations(Db({"sessions"}, [], [], map[]), 1).stores == {"app_meta", "puzzles", "sessions"}
    ensures RunMigrations(Db({"sessions"}, [], [], map[]), 1).createdStores == ["puzzles", "app_meta"]
    ensures RunMigrations(Db({"sessions"}, [], [], map[]), 1).createdIndexes == []
    ensures RunMigrations(Db({"sessions"}, [], [], map[]), 1).keyPaths == map["puzzles" := "id", "app_meta" := "key"]
  {
    RunMigrationsUnfold(Db({"sessions"}, [], [], map[]), 1);
    SecondMigrationCreates(Db({"sessions"}, [], [], map[]));
  }
}
