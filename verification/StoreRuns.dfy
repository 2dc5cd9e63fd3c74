/** Whole runs of the tiered store against the flat map, merges included. */
module StoreRuns {
  import opened Options
  import opened Namespaces
  import opened Attributes
  import opened FlatStore
  import opened Tiers
  import opened Databases
  import opened DiskTally

  /** What can be asked of the database. Eviction is by any policy that leaves
      the internal shard alone. */
  datatype Command =
    | Write(path: string, value: string, sight: Sight, consensus: bool)
    | Merge(path: string, value: string, offer: Offer, now: int)
    | Retag(path: string, value: string, tags: string, now: int, at: int)
    | Declare(path: string)
    | Delete(path: string)
    | Sweep(now: int)
    | Read(path: string, value: string, now: int)
    | Evict(mayEvict: string -> bool)
    | Save(all: bool)

  predicate Permitted(c: Command, pinned: string)
  {
    match c
    case Write(path, _, _, consensus) => Accepts(path, consensus)
    case Merge(path, _, _, _) => !IsInternal(path)
    case Delete(path) => !IsInternal(path)
    case Evict(mayEvict) => !mayEvict(pinned)
    case _ => true
  }

  /** Commands a flat map would not notice. */
  predicate Invisible(c: Command)
  {
    c.Read? || c.Evict? || c.Save?
  }

  /** The flat operation a command stands for; a sweep may visit in any order. */
  predicate StandsFor(c: Command, op: Op)
  {
    match c
    case Write(path, value, sight, consensus) => op == Op.Write(path, value, sight, consensus)
    case Merge(path, value, offer, now) => op == Op.Merge(path, value, offer, now)
    case Retag(path, value, tags, now, at) => op == Op.Retag(path, value, tags, now, at)
    case Declare(path) => op == Op.Declare(path)
    case Delete(path) => op == Op.Delete(path)
    case Sweep(now) => op.Sweep? && op.now == now
    case _ => false
  }

  /** `ops` are the visible commands, one for one and in order. */
  ghost predicate Erased(commands: seq<Command>, ops: seq<Op>)
    decreases |commands|
  {
    if |commands| == 0 then ops == []
    else
      var c, front := commands[|commands| - 1], commands[..|commands| - 1];
      if Invisible(c) then Erased(front, ops)
      else |ops| > 0 && StandsFor(c, ops[|ops| - 1]) && Erased(front, ops[..|ops| - 1])
  }

  lemma ErasedNext(commands: seq<Command>, ops: seq<Op>, c: Command, op: Op)
    requires Erased(commands, ops) && !Invisible(c) && StandsFor(c, op)
    ensures Erased(commands + [c], ops + [op])
  {
    assert (commands + [c])[..|commands|] == commands && (ops + [op])[..|ops|] == ops;
  }

  lemma ErasedSame(commands: seq<Command>, ops: seq<Op>, c: Command)
    requires Erased(commands, ops) && Invisible(c)
    ensures Erased(commands + [c], ops)
  {
    assert (commands + [c])[..|commands|] == commands;
  }

  lemma DoNext(f: Flat, p: Policy, ops: seq<Op>, op: Op)
    ensures DoAll(f, p, ops + [op]) == Do(DoAll(f, p, ops), p, op)
  {
    assert (ops + [op])[..|ops|] == ops;
  }

  // ---------------------------------------------------------------------
  // One command.
  // ---------------------------------------------------------------------

  /** A merge that changes its namespace and reports nothing. */
  ghost predicate Silent(f: Flat, p: Policy, op: Op)
  {
    op.Merge? &&
    var after := MergedIn(f, p, op.path, op.value, op.offer, op.now);
    && !ReportsChange(Held(In(f, op.path), op.value), op.offer, p.node)
    && !(op.path in f && op.path in after && f[op.path] == after[op.path])
  }

  /** Sound, counting what is held and `extra` besides, in memory and on disk. */
  ghost predicate Healthy(db: Database, extra: string -> nat)
    reads db
  {
    && db.Valid()
    && Tally(db.Contents(), db.policy.node, extra)
    && DiskSound(db.layout, db.Model(), db.policy.node)
  }

  /** Bookkeeping after a flat operation that left the files alone. */
  lemma OperationKeeps(l: Layout<string, string>, s: Store, t: Store, p: Policy, op: Op, extra: string -> nat)
    requires Tally(Flatten(l, s), p.node, extra) && DiskSound(l, s, p.node) && Allowed(op)
    requires Flatten(l, t) == Do(Flatten(l, s), p, op) && t.files == s.files && s.dirty <= t.dirty
    requires CountsUp(Flatten(l, s), op) ==> l.pinned in t.dirty
    ensures Tally(Flatten(l, t), p.node, extra) && DiskSound(l, t, p.node)
  {
    DoKeepsTally(Flatten(l, s), p, extra, op);
    if !CountsUp(Flatten(l, s), op) {
      forall v ensures Holders(Flatten(l, t), v) <= Holders(Flatten(l, s), v) {
        NoNewHolder(Flatten(l, s), p, op, v);
      }
    }
    DiskKept(l, s, t, p.node);
  }

  /** A visible command other than a merge. */
  method Operate(db: Database, c: Command, ghost extra: string -> nat) returns (ghost op: Op)
    requires Healthy(db, extra) && Permitted(c, db.layout.pinned) && !Invisible(c) && !c.Merge?
    modifies db
    ensures Healthy(db, extra) && StandsFor(c, op) && db.Contents() == Do(old(db.Contents()), db.policy, op)
  {
    if c.Write? {
      op := OperateWrite(db, c, extra);
    } else {
      op := OperateOther(db, c, extra);
    }
  }

  method OperateWrite(db: Database, c: Command, ghost extra: string -> nat) returns (ghost op: Op)
    requires Healthy(db, extra) && Permitted(c, db.layout.pinned) && c.Write?
    modifies db
    ensures Healthy(db, extra) && StandsFor(c, op) && db.Contents() == Do(old(db.Contents()), db.policy, op)
  {
    ghost var was := db.Model();
    var _, _ := db.RecordWrite(c.path, c.value, c.sight, c.consensus);
    op := Op.Write(c.path, c.value, c.sight, c.consensus);
    OperationKeeps(db.layout, was, db.Model(), db.policy, op, extra);
  }

  method OperateOther(db: Database, c: Command, ghost extra: string -> nat) returns (ghost op: Op)
    requires Healthy(db, extra) && Permitted(c, db.layout.pinned) && !Invisible(c) && !c.Merge? && !c.Write?
    modifies db
    ensures Healthy(db, extra) && StandsFor(c, op) && db.Contents() == Do(old(db.Contents()), db.policy, op)
  {
    ghost var was := db.Model();
    match c {
      case Retag(path, value, tags, now, at) =>
        var _ := db.SetTags(path, value, tags, now, at);
        op := Op.Retag(path, value, tags, now, at);
      case Declare(path) =>
        var _ := db.CreateNamespace(path);
        op := Op.Declare(path);
      case Delete(path) =>
        var _ := db.Delete(path);
        op := Op.Delete(path);
      case Sweep(now) =>
        var _, _, order := db.Sweep(now);
        op := Op.Sweep(order, now);
    }
    OperationKeeps(db.layout, was, db.Model(), db.policy, op, extra);
  }

  /** A merge, and whether the store is still sound: it is unless the merge was
      silent and the shard clean. */
  method Fold(db: Database, path: string, value: string, offer: Offer, now: int, ghost extra: string -> nat)
    returns (sound: bool)
    requires Healthy(db, extra) && !IsInternal(path)
    modifies db
    ensures db.Contents() == Do(old(db.Contents()), db.policy, Op.Merge(path, value, offer, now))
    ensures Tally(db.Contents(), db.policy.node, extra)
    ensures sound ==> Healthy(db, extra)
    ensures !sound ==> !db.Valid() && Silent(old(db.Contents()), db.policy, Op.Merge(path, value, offer, now))
  {
    var before := Before(db, path, extra);
    AllIsInternal();
    var changed := FoldIn(db, path, value, offer, now, extra);
    sound := true;
    if !changed {
      sound := db.layout.shardOf(path) in db.dirty || before == Some(db.namespaces[path]);
    }
  }

  /** What the namespace holds, brought into memory. */
  method Before(db: Database, path: string, ghost extra: string -> nat) returns (before: Option<Values>)
    requires Healthy(db, extra)
    modifies db
    ensures Healthy(db, extra) && db.Contents() == old(db.Contents())
    ensures before == if path in db.Contents() then Some(db.Contents()[path]) else None
  {
    ghost var was := db.Model();
    var found := db.Open(path, {});
    before := if found then Some(db.namespaces[path]) else None;
    DiskKept(db.layout, was, db.Model(), db.policy.node);
  }

  /** The merge itself, and exactly when the store is sound after it. */
  method FoldIn(db: Database, path: string, value: string, offer: Offer, now: int, ghost extra: string -> nat)
    returns (changed: bool)
    requires Healthy(db, extra) && !IsInternal(path)
    modifies db
    ensures db.Contents() == Do(old(db.Contents()), db.policy, Op.Merge(path, value, offer, now))
    ensures Tally(db.Contents(), db.policy.node, extra) && (db.Valid() ==> Healthy(db, extra))
    ensures changed <==> ReportsChange(Held(In(old(db.Contents()), path), value), offer, db.policy.node)
    ensures db.Valid() <==>
            || changed
            || db.layout.shardOf(path) in db.dirty
            || (path in old(db.Contents()) &&
                (path == ALL_NAMESPACE || old(db.Contents())[path] == db.Contents()[path]))
    ensures !changed ==> path in db.namespaces && path in db.Contents() && db.namespaces[path] == db.Contents()[path]
  {
    ghost var was := db.Model();
    ClientNamespaceCounts(path);
    var outcome := db.Merge(path, value, offer, now);
    OperationKeeps(db.layout, was, db.Model(), db.policy, Op.Merge(path, value, offer, now), extra);
    changed := outcome.changed;
    FlattenAt(db.layout, db.Model(), path);
  }

  /** A command a flat map would not notice. */
  method Pass(db: Database, c: Command, ghost extra: string -> nat)
    requires Healthy(db, extra) && Permitted(c, db.layout.pinned) && Invisible(c)
    modifies db
    ensures Healthy(db, extra) && db.Contents() == old(db.Contents())
  {
    ghost var was := db.Model();
    match c {
      case Read(path, value, now) =>
        var _ := db.View(path, value, now);
        DiskKept(db.layout, was, db.Model(), db.policy.node);
      case Evict(mayEvict) =>
        var _ := db.EvictIdle(mayEvict);
        DiskKept(db.layout, was, db.Model(), db.policy.node);
      case Save(all) =>
        db.Save(all);
        SaveWritesTally(db.layout, was, db.Model(), all);
        DiskSaved(db.layout, was, db.Model(), db.policy.node, extra, all);
    }
  }

  // ---------------------------------------------------------------------
  // Any number of them.
  // ---------------------------------------------------------------------

  /** The run came to a silent merge into a clean shard, and no further. */
  ghost predicate EndsSilently(f: Flat, p: Policy, ops: seq<Op>)
  {
    |ops| > 0 && Silent(DoAll(f, p, ops[..|ops| - 1]), p, ops[|ops| - 1])
  }

  /** Any run leaves the tiers standing for exactly what the flat map holds after
      the same run without its reads, evictions and saves, and `_all` over by as
      much as it was: exact if it was exact. It goes on to its end unless it
      comes to a merge that changes a clean shard without reporting it. */
  method PerformAll(db: Database, commands: seq<Command>, ghost extra: string -> nat)
    returns (ghost ops: seq<Op>, performed: nat, sound: bool)
    requires Healthy(db, extra)
    requires forall i :: 0 <= i < |commands| ==> Permitted(commands[i], db.layout.pinned)
    modifies db
    ensures performed <= |commands| && Erased(commands[..performed], ops)
    ensures db.Contents() == DoAll(old(db.Contents()), db.policy, ops)
    ensures Tally(db.Contents(), db.policy.node, extra)
    ensures sound ==> performed == |commands| && Healthy(db, extra)
    ensures !sound ==> !db.Valid() && EndsSilently(old(db.Contents()), db.policy, ops)
  {
    ops, performed, sound := [], 0, true;
    ghost var f := db.Contents();
    while performed < |commands|
      invariant performed <= |commands| && sound && Healthy(db, extra)
      invariant Erased(commands[..performed], ops)
      invariant db.Contents() == DoAll(f, db.policy, ops)
      decreases |commands| - performed
    {
      var c := commands[performed];
      assert commands[..performed] + [c] == commands[..performed + 1];
      performed := performed + 1;
      if Invisible(c) {
        Pass(db, c, extra);
        ErasedSame(commands[..performed - 1], ops, c);
      } else {
        ghost var op: Op;
        if c.Merge? {
          sound := Fold(db, c.path, c.value, c.offer, c.now, extra);
          op := Op.Merge(c.path, c.value, c.offer, c.now);
        } else {
          op := Operate(db, c, extra);
        }
        ErasedNext(commands[..performed - 1], ops, c, op);
        DoNext(f, db.policy, ops, op);
        assert (ops + [op])[..|ops|] == ops;
        ops := ops + [op];
        if !sound { return; }
      }
    }
  }

  /** From an empty database, through any run that meets no silent merge, a full
      save and a restart: what comes back is the flat map of the run, exactly
      tallied. */
  method RunSaveRestart(p: Policy, commands: seq<Command>) returns (again: Database, ghost ops: seq<Op>, sound: bool)
    requires forall i :: 0 <= i < |commands| ==> Permitted(commands[i], INTERNAL_SHARD)
    ensures fresh(again)
    ensures sound ==>
              && again.Valid() && Erased(commands, ops)
              && again.Contents() == DoAll(map[], p, ops) && Tally(again.Contents(), p.node, Nothing())
    ensures !sound ==> EndsSilently(map[], p, ops)
  {
    var db := NewDatabase(p);
    var performed;
    ops, performed, sound := PerformAll(db, commands, Nothing());
    again := db;
    if sound {
      assert commands[..|commands|] == commands;
      again := SaveAndRestart(db);
    }
  }

  method NewDatabase(p: Policy) returns (db: Database)
    ensures fresh(db) && db.policy == p && db.layout.pinned == INTERNAL_SHARD
    ensures Healthy(db, Nothing()) && db.Contents() == map[]
  {
    db := new Database(p);
    TallyCovers(db.Contents(), p.node, Nothing());
    assert DiskAll(db.layout, db.Model()) == map[];
  }

  /** The same with a save of what changed: everything but `_all` comes back as it
      was, and `_all` is never below the number of namespaces holding a value.
      Whatever it is over by it stays over by through every later run, and
      searches still find everything. */
  method SaveChangesAndGoOn(db: Database, ghost extra: string -> nat)
    returns (again: Database, ghost over: string -> nat)
    requires Healthy(db, extra)
    modifies db
    ensures fresh(again) && Healthy(again, over) && NeverUnder(again.Contents())
    ensures SameBut(again.Contents(), old(db.Contents()), {ALL_NAMESPACE})
    ensures forall v :: Total(Held(In(again.Contents(), ALL_NAMESPACE), v).counts) ==
              |Holders(old(db.Contents()), v)| + over(v)
  {
    ghost var was := db.Model();
    again := SaveChangesAndRestart(db);
    over := StaleRestart(db.layout, was, db.Model(), again.Contents(), db.policy.node, extra);
    OnDiskAsLoaded(again.layout, again.Model());
    SameHoldersBut(again.Contents(), old(db.Contents()));
  }

  /** What is loaded after a save of what changed is tallied, and over by what
      memory had counted down meanwhile. */
  lemma StaleRestart(l: Layout<string, string>, was: Store, saved: Store, loaded: Flat, node: string,
                     extra: string -> nat)
      returns (over: string -> nat)
    requires Laid(l) && Tiered(l, saved, {}) && Flatten(l, saved) == Flatten(l, was)
    requires saved == was.(dirty := {}, files := SavedFiles(l, was, false)) && loaded == Loaded(l, saved.files)
    requires Tally(Flatten(l, was), node, extra) && DiskSound(l, was, node)
    ensures Tally(loaded, node, over) && NeverUnder(loaded) && Covers(loaded, In(loaded, ALL_NAMESPACE), node)
    ensures forall v :: Total(Held(In(loaded, ALL_NAMESPACE), v).counts) == |Holders(loaded, v)| + over(v)
  {
    SaveWritesTally(l, was, saved, false);
    DiskSaved(l, was, saved, node, extra, false);
    RestartedTally(l, saved, loaded, node);
    over := Excess(Flatten(l, saved), DiskAll(l, saved), node);
    TallyNeverUnder(loaded, node, over);
    TallyCovers(loaded, node, over);
  }

  lemma OnDiskAsLoaded(l: Layout<string, string>, s: Store)
    requires Laid(l) && Flatten(l, s) == Loaded(l, s.files)
    ensures DiskAll(l, s) == In(Flatten(l, s), ALL_NAMESPACE)
  {
    LoadedAt(l, s, ALL_NAMESPACE);
  }

  lemma SameHoldersBut(f: Flat, g: Flat)
    requires SameBut(f, g, {ALL_NAMESPACE})
    ensures forall v :: Holders(f, v) == Holders(g, v)
  {
    AllIsInternal();
  }

  // ---------------------------------------------------------------------
  // A tally that comes back high.
  // ---------------------------------------------------------------------

  /** One write, a full save, the namespace deleted, a save of what changed: the
      files still count the value, and a restart would believe them. */
  method StaleTally(p: Policy, path: string, value: string, sight: Sight) returns (db: Database)
    requires !IsInternal(path) && ShardOf(path) != INTERNAL_SHARD
    ensures fresh(db) && db.Valid() && db.dirty == {}
    ensures Loaded(db.layout, db.files) != db.Contents()
  {
    db := new Database(p);
    WriteSaveDeleteSave(db, path, value, sight);
  }

  method WriteSaveDeleteSave(db: Database, path: string, value: string, sight: Sight)
    requires db.Valid() && db.Contents() == map[] && !IsInternal(path) && db.layout.shardOf(path) != db.layout.pinned
    modifies db
    ensures db.Valid() && db.dirty == {}
    ensures Loaded(db.layout, db.files) != db.Contents()
  {
    var _, _ := db.RecordWrite(path, value, sight, true);
    db.Save(true);
    DeletedTally(db.policy, path, value, sight);
    DeleteSaved(db, path);
  }

  /** Whenever everything is saved and deleting a namespace moves the tally, a save
      of what changed leaves the files behind. */
  method DeleteSaved(db: Database, path: string)
    requires db.Valid() && db.dirty == {} && Loaded(db.layout, db.files) == db.Contents()
    requires db.layout.shardOf(path) != db.layout.pinned
    requires var f, g := db.Contents(), Deleted(db.Contents(), db.policy, path);
             ALL_NAMESPACE in f && ALL_NAMESPACE in g && f[ALL_NAMESPACE] != g[ALL_NAMESPACE]
    modifies db
    ensures db.Valid() && db.dirty == {}
    ensures Loaded(db.layout, db.files) != db.Contents()
  {
    ghost var f := db.Contents();
    var _ := db.Delete(path);
    StillOnDisk(db.layout, db.Model(), f);
    db.Save(false);
  }

  /** Before: one holder, one count. After: neither. */
  lemma DeletedTally(p: Policy, path: string, value: string, sight: Sight)
    requires !IsInternal(path)
    ensures var f := Written(map[], p, path, value, sight, true);
            var g := Deleted(f, p, path);
            && ALL_NAMESPACE in f && ALL_NAMESPACE in g
            && value in f[ALL_NAMESPACE] && value !in g[ALL_NAMESPACE]
  {
    var start: Flat := map[];
    var f := Written(start, p, path, value, sight, true);
    var g := Deleted(f, p, path);
    AllIsInternal();
    ClientNamespaceCounts(path);
    assert forall v :: Holders(start, v) == {};
    assert Tally(start, p.node, Nothing());
    WrittenKeepsTally(start, p, Nothing(), path, value, sight, true);
    DeletedKeepsTally(f, p, Nothing(), path);
    assert TallyAt(f, p.node, Nothing(), value) && TallyAt(g, p.node, Nothing(), value);
    OnlyHolder(p, path, value, sight);
    assert path in Holders(f, value);
    HoldersRemove(f, {path}, value);
    DownHolders(f - {path}, p, f[path].Keys, value);
    assert {path} - {path} == {};
  }

  lemma OnlyHolder(p: Policy, path: string, value: string, sight: Sight)
    requires !IsInternal(path)
    ensures Holders(Written(map[], p, path, value, sight, true), value) == {path}
  {
    ClientNamespaceCounts(path);
    AllIsInternal();
    var g := Put(map[], path, value, AfterSighting(map[], p, path, value, sight));
    HoldersPut(map[], path, g[path], value);
    HoldersIgnoreAll(g, In(CountedUp(g, p, value, sight.when), ALL_NAMESPACE), value);
  }

  lemma StillOnDisk(l: Layout<string, string>, s: Store, f: Flat)
    requires Laid(l) && Tiered(l, s, {}) && Loaded(l, s.files) == f
    requires ALL_NAMESPACE in f && ALL_NAMESPACE in Flatten(l, s) && f[ALL_NAMESPACE] != Flatten(l, s)[ALL_NAMESPACE]
    ensures !TallyOnDisk(l, s)
  {
    TallyStays(l, s, {});
    FlattenAt(l, s, ALL_NAMESPACE);
    LoadedAt(l, s, ALL_NAMESPACE);
  }

  // ---------------------------------------------------------------------
  // A merge that is lost.
  // ---------------------------------------------------------------------

  function OneMore(extra: string -> nat, value: string): string -> nat
  {
    (v: string) => extra(v) + if v == value then 1 else 0
  }

  /** A merge that brings a value in unreported, then an eviction of its shard: the
      value is gone again and only its count remains, one too high. */
  method MergeThenEvict(db: Database, path: string, value: string, offer: Offer, now: int, ghost extra: string -> nat)
    requires Healthy(db, extra) && !IsInternal(path) && value !in In(db.Contents(), path)
    requires !ReportsChange(NEW, offer, db.policy.node)
    requires db.layout.shardOf(path) !in db.dirty && db.layout.shardOf(path) != db.layout.pinned
    modifies db
    ensures db.Contents() == CountedUp(old(db.Contents()), db.policy, value, now)
    ensures Tally(db.Contents(), db.policy.node, OneMore(extra, value))
  {
    ghost var was, f := db.Model(), db.Contents();
    var shard := db.layout.shardOf(path);
    AllIsInternal();
    ClientNamespaceCounts(path);
    var _ := db.Merge(path, value, offer, now);
    ghost var s := db.Model();
    assert {} + {shard} == {shard};
    StaysHere(db.layout, s, {shard}, path);
    // Not dirty, so an eviction saves nothing before it drops.
    assert shard !in db.dirty;
    db.Drop(shard);
    DropUndoes(db.layout, was, s, shard);
    OnlyTheCount(db.layout, was, s, db.Model(), db.policy, path, value, offer, now);
    CountOnlyTally(f, db.policy, extra, value, now);
  }

  /** A merge that brings a value in is the count, and the value in its place. */
  lemma MergedIsCount(f: Flat, p: Policy, path: string, value: string, offer: Offer, now: int)
    requires CountsTowardsConsensus(path) && path != ALL_NAMESPACE && value !in In(f, path)
    ensures forall n :: n != path ==>
              (n in MergedIn(f, p, path, value, offer, now) <==> n in CountedUp(f, p, value, now))
    ensures forall n :: n != path && n in CountedUp(f, p, value, now) ==>
              MergedIn(f, p, path, value, offer, now)[n] == CountedUp(f, p, value, now)[n]
  {
    var put := Put(f, path, value, Merged(Held(In(f, path), value), offer, p.node));
    assert In(put, ALL_NAMESPACE) == In(f, ALL_NAMESPACE);
  }

  lemma OnlyTheCount(l: Layout<string, string>, was: Store, s: Store, t: Store, p: Policy, path: string, value: string,
                     offer: Offer, now: int)
    requires Laid(l) && l.shardOf(path) != l.pinned && CountsTowardsConsensus(path) && path != ALL_NAMESPACE
    requires value !in In(Flatten(l, was), path)
    requires Flatten(l, s) == MergedIn(Flatten(l, was), p, path, value, offer, now)
    requires forall n :: Look(l, t, n) == if l.shardOf(n) == l.shardOf(path) then Look(l, was, n) else Look(l, s, n)
    ensures Flatten(l, t) == CountedUp(Flatten(l, was), p, value, now)
  {
    var f, h := Flatten(l, was), Flatten(l, t);
    MergedIsCount(f, p, path, value, offer, now);
    var counted := CountedUp(f, p, value, now);
    assert forall n :: n != ALL_NAMESPACE ==> (n in counted <==> n in f) && (n in f ==> counted[n] == f[n]);
    CountLeft(l, was, s, t, path, counted);
  }

  lemma CountLeft(l: Layout<string, string>, was: Store, s: Store, t: Store, path: string, counted: Flat)
    requires Laid(l) && l.shardOf(path) != l.pinned
    requires forall n :: Look(l, t, n) == if l.shardOf(n) == l.shardOf(path) then Look(l, was, n) else Look(l, s, n)
    requires forall n :: n != path ==> (n in Flatten(l, s) <==> n in counted)
    requires forall n :: n != path && n in counted && n in Flatten(l, s) ==> Flatten(l, s)[n] == counted[n]
    requires forall n :: n != ALL_NAMESPACE ==> (n in counted <==> n in Flatten(l, was))
    requires forall n :: n != ALL_NAMESPACE && n in counted && n in Flatten(l, was) ==> counted[n] == Flatten(l, was)[n]
    ensures Flatten(l, t) == counted
  {
    forall n ensures (n in Flatten(l, t) <==> n in counted) && (n in Flatten(l, t) ==> Flatten(l, t)[n] == counted[n]) {
      FlattenAt(l, was, n);
      FlattenAt(l, s, n);
      FlattenAt(l, t, n);
    }
  }

  lemma CountOnlyTally(f: Flat, p: Policy, extra: string -> nat, value: string, now: int)
    requires Tally(f, p.node, extra)
    ensures Tally(CountedUp(f, p, value, now), p.node, OneMore(extra, value))
  {
    var g := CountedUp(f, p, value, now);
    forall v ensures TallyAt(g, p.node, OneMore(extra, value), v) {
      assert TallyAt(f, p.node, extra, v);
      assert v != value ==> TallyAt(f, p.node, OneMore(extra, value), v);
      CountUpAt(f, p, OneMore(extra, value), value, now, v);
    }
  }
}
