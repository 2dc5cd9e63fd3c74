/** The shard files as they lie in the directory, under their names
    (src/persistence.rs:69-155, 228-323). Everywhere else they are a map by shard;
    here that map is shown to be what the directory holds, for shards whose
    encoded names fit. */
module Directories {
  import opened Options
  import opened Sets
  import opened Namespaces
  import opened Attributes
  import opened FlatStore
  import opened Tiers
  import opened Databases
  import opened ShardFiles

  /** What is in the directory, by file name. */
  type Directory = map<string, Flat>

  function Naming(hash: string -> string): string -> string
  {
    (shard: string) => FileName(shard, hash)
  }

  ghost predicate AllFit(shards: set<string>, hash: string -> string)
  {
    forall s :: s in shards ==> Fits(s) && IsHash(hash, s)
  }

  lemma FittingTellApart(shards: set<string>, fewer: set<string>, hash: string -> string)
    requires AllFit(shards, hash) && fewer <= shards
    ensures TellsApart(Naming(hash), fewer)
  {
    FileNamesTellApart(fewer, hash);
    assert forall s, t :: s in fewer && t in fewer && Naming(hash)(s) == Naming(hash)(t) ==> s == t;
  }

  // ---------------------------------------------------------------------
  // Reading.
  // ---------------------------------------------------------------------

  /** One shard's file; a missing one reads as empty. */
  method ReadShardFile(directory: Directory, ghost files: map<string, Flat>, shard: string, hash: string -> string)
    returns (file: Flat)
    requires Stores(directory, files, Naming(hash)) && AllFit(files.Keys + {shard}, hash)
    ensures file == if shard in files then files[shard] else map[]
  {
    var name := ShardFile(shard, hash);
    FittingTellApart(files.Keys + {shard}, files.Keys + {shard}, hash);
    assert name == Naming(hash)(shard);
    if name !in directory { return map[]; }
    file := directory[name];
  }

  /** What has been read once the files still `left` are left. */
  ghost predicate ReadSoFar(l: Layout<string, string>, files: map<string, Flat>, name: string -> string,
                            left: set<string>, data: Flat)
  {
    && (forall n :: n in data <==> l.shardOf(n) in files && name(l.shardOf(n)) !in left && n in files[l.shardOf(n)])
    && (forall n :: n in data ==>
          l.shardOf(n) in files && n in files[l.shardOf(n)] && data[n] == files[l.shardOf(n)][n])
  }

  lemma ReadNext(l: Layout<string, string>, files: map<string, Flat>, name: string -> string, left: set<string>,
                 data: Flat, shard: string)
    requires ReadSoFar(l, files, name, left, data) && InTheirPlaces(l, files) && TellsApart(name, files.Keys)
    requires shard in files && name(shard) in left
    ensures ReadSoFar(l, files, name, left - {name(shard)}, data + files[shard])
  {
  }

  /** Every file in the directory, in any order. */
  method LoadFrom(l: Layout<string, string>, directory: Directory, ghost files: map<string, Flat>,
                  ghost name: string -> string)
    returns (data: Flat)
    requires Stores(directory, files, name) && TellsApart(name, files.Keys) && InTheirPlaces(l, files)
    ensures data == Loaded(l, files)
  {
    data := map[];
    var left := directory.Keys;
    while left != {}
      invariant left <= directory.Keys && ReadSoFar(l, files, name, left, data)
      decreases |left|
    {
      var file := Pick(left);
      assert Named(file, files.Keys, name);
      ghost var shard :| shard in files.Keys && name(shard) == file;
      ReadNext(l, files, name, left, data, shard);
      data := data + directory[file];
      left := left - {file};
    }
  }

  // ---------------------------------------------------------------------
  // Writing.
  // ---------------------------------------------------------------------

  lemma FewerToTellApart(name: string -> string, shards: set<string>, fewer: set<string>)
    requires TellsApart(name, shards) && fewer <= shards
    ensures TellsApart(name, fewer)
  {
  }

  method WriteFiles(l: Layout<string, string>, directory: Directory, ghost files: map<string, Flat>, namespaces: Flat,
                    wanted: set<string>, name: string -> string)
    returns (after: Directory)
    requires Stores(directory, files, name) && TellsApart(name, files.Keys + wanted)
    ensures Stores(after, Rewritten(l, files, namespaces, wanted), name)
  {
    after := directory;
    var left := wanted;
    ghost var done: set<string> := {};
    ghost var stored := files;
    assert Rewritten(l, files, namespaces, done) == files;
    while left != {}
      invariant Parts(wanted, done, left) && stored == Rewritten(l, files, namespaces, done)
      invariant Stores(after, stored, name)
      decreases |left|
    {
      var shard := Pick(left);
      var content := Snapshot(l, namespaces, shard);
      FewerToTellApart(name, files.Keys + wanted, stored.Keys + {shard});
      WriteFile(after, stored, name, shard, content);
      RewrittenNext(l, files, namespaces, done, shard);
      PartsStep(wanted, done, left, shard);
      after, stored := after[name(shard) := content], stored[shard := content];
      done, left := done + {shard}, left - {shard};
    }
    assert done == wanted;
  }

  lemma FewerLeft<K, V>(files: map<K, V>, done: set<K>, x: K)
    ensures files - done - {x} == files - (done + {x})
  {
  }

  method RemoveFiles<V>(directory: map<string, V>, ghost files: map<string, V>, stale: set<string>,
                        name: string -> string)
    returns (after: map<string, V>)
    requires Stores(directory, files, name) && TellsApart(name, files.Keys + stale)
    ensures Stores(after, files - stale, name)
  {
    after := directory;
    var left := stale;
    ghost var done: set<string> := {};
    ghost var stored := files;
    assert files - done == files;
    while left != {}
      invariant Parts(stale, done, left) && stored == files - done
      invariant Stores(after, stored, name)
      decreases |left|
    {
      var shard := Pick(left);
      FewerToTellApart(name, files.Keys + stale, stored.Keys + {shard});
      RemoveFile(after, stored, name, shard);
      FewerLeft(files, done, shard);
      PartsStep(stale, done, left, shard);
      after, stored := after - {name(shard)}, stored - {shard};
      done, left := done + {shard}, left - {shard};
    }
    assert done == stale;
  }

  // ---------------------------------------------------------------------
  // The whole database.
  // ---------------------------------------------------------------------

  /** Every shard a save of this state reads, writes or removes. */
  ghost function ShardsInPlay(l: Layout<string, string>, s: Store): set<string>
  {
    s.files.Keys + Present(l, s) + s.dirty
  }

  /** A save on the directory is the save on the map. */
  method SaveInto(db: Database, directory: Directory, hash: string -> string, all: bool) returns (after: Directory)
    requires db.Valid() && Stores(directory, db.files, Naming(hash))
    requires AllFit(ShardsInPlay(db.layout, db.Model()), hash)
    modifies db
    ensures db.Valid() && db.Contents() == old(db.Contents()) && db.dirty == {}
    ensures db.files == SavedFiles(db.layout, old(db.Model()), all)
    ensures Stores(after, db.files, Naming(hash))
    ensures AllFit(db.files.Keys, hash)
    ensures all ==> Loaded(db.layout, db.files) == db.Contents()
  {
    ghost var files := db.files;
    var present := Present(db.layout, State(db.namespaces, db.shards, db.dirty, db.files));
    var wanted := if all then present else present * db.dirty;
    ghost var written := Rewritten(db.layout, files, db.namespaces, wanted);
    FittingTellApart(ShardsInPlay(db.layout, db.Model()), files.Keys + wanted, hash);
    FittingTellApart(ShardsInPlay(db.layout, db.Model()), written.Keys + (db.dirty - present), hash);
    after := WriteFiles(db.layout, directory, files, db.namespaces, wanted, Naming(hash));
    after := RemoveFiles(after, written, db.dirty - present, Naming(hash));
    db.Save(all);
  }

  /** A full save, everything read back from the directory by name, and a restart:
      the database there was. */
  method SaveAndRestartFrom(db: Database, directory: Directory, hash: string -> string)
    returns (after: Directory, data: Flat, again: Database)
    requires db.Valid() && Stores(directory, db.files, Naming(hash))
    requires AllFit(ShardsInPlay(db.layout, db.Model()), hash)
    modifies db
    ensures data == old(db.Contents())
    ensures fresh(again) && again.Valid() && again.Contents() == data
    ensures Stores(after, again.files, Naming(hash))
  {
    after := SaveInto(db, directory, hash, true);
    FilesInTheirPlaces(db.layout, db.Model());
    FittingTellApart(db.files.Keys, db.files.Keys, hash);
    data := LoadFrom(db.layout, after, db.files, Naming(hash));
    again := new Database.Restart(db.policy, db.layout, db.files);
  }
}
