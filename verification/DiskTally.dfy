/** The tally as the files have it, which may run behind memory because counting
    down marks nothing (src/db.rs:626-638, 1904-1908). */
module DiskTally {
  import opened Options
  import opened Sets
  import opened Namespaces
  import opened Attributes
  import opened FlatStore
  import opened Tiers
  import opened Databases

  /** On disk `value` is counted for this server alone, and no fewer times than
      namespaces hold it. */
  ghost predicate CoversAt(f: Flat, disk: Values, node: string, value: string)
  {
    if value in disk then
      && node in disk[value].counts && disk[value].counts == map[node := disk[value].counts[node]]
      && disk[value].counts[node] > 0 && disk[value].ttl == 0
      && disk[value].counts[node] >= |Holders(f, value)|
    else Holders(f, value) == {}
  }

  ghost predicate Covers(f: Flat, disk: Values, node: string)
  {
    forall value :: CoversAt(f, disk, node, value)
  }

  /** By how much the count on disk is over. */
  ghost function Excess(f: Flat, disk: Values, node: string): string -> nat
  {
    (value: string) =>
      if value in disk && node in disk[value].counts && disk[value].counts[node] >= |Holders(f, value)|
      then disk[value].counts[node] - |Holders(f, value)| else 0
  }

  /** What covers is a tally, over by the excess. */
  lemma CoversIsTally(f: Flat, disk: Values, node: string)
    requires Covers(f, disk, node)
    ensures Tally(f[ALL_NAMESPACE := disk], node, Excess(f, disk, node))
  {
    var g := f[ALL_NAMESPACE := disk];
    forall value ensures TallyAt(g, node, Excess(f, disk, node), value) {
      assert CoversAt(f, disk, node, value);
      HoldersIgnoreAll(f, disk, value);
    }
  }

  /** A tally in memory, written out, covers. */
  lemma TallyCovers(f: Flat, node: string, extra: string -> nat)
    requires Tally(f, node, extra)
    ensures Covers(f, In(f, ALL_NAMESPACE), node)
  {
    forall value ensures CoversAt(f, In(f, ALL_NAMESPACE), node, value) {
      assert TallyAt(f, node, extra, value);
    }
  }

  /** Fewer holders are covered as well. */
  lemma FewerCovered(f: Flat, g: Flat, disk: Values, node: string)
    requires Covers(f, disk, node) && forall value :: Holders(g, value) <= Holders(f, value)
    ensures Covers(g, disk, node)
  {
    forall value ensures CoversAt(g, disk, node, value) {
      assert CoversAt(f, disk, node, value) && Holders(g, value) <= Holders(f, value);
      SubsetSize(Holders(g, value), Holders(f, value));
    }
  }

  // ---------------------------------------------------------------------
  // Only an operation that counts up gives a value a new holder.
  // ---------------------------------------------------------------------

  predicate CountsUp(f: Flat, op: Op)
  {
    match op
    case Write(path, value, _, consensus) => consensus && value !in In(f, path)
    case Merge(path, value, _, _) => value !in In(f, path)
    case _ => false
  }

  lemma NoNewHolder(f: Flat, p: Policy, op: Op, v: string)
    requires Allowed(op) && !CountsUp(f, op)
    ensures Holders(Do(f, p, op), v) <= Holders(f, v)
  {
    match op
    case Write(path, value, sight, consensus) =>
      AcceptedCounts(path, consensus);
      HoldersPut(f, path, In(f, path)[value := AfterSighting(f, p, path, value, sight)], v);
      if consensus { SameHolders(f, path, value, AfterSighting(f, p, path, value, sight), v); }
    case Merge(path, value, offer, _) =>
      SameHolders(f, path, value, Merged(Held(In(f, path), value), offer, p.node), v);
    case Retag(path, value, tags, now, at) =>
      if CanRetag(f, path, value, now) { SameHolders(f, path, value, Retagged(f[path][value], tags, at), v); }
    case Declare(path) => HoldersPut(f, path, map[], v);
    case Delete(path) => DeletedHolders(f, p, path, v);
    case Sweep(names, now) =>
      SweptHolders(f, p, names, now, v);
      HoldersRemove(SweptEach(f, p, names, now), Emptied(f, p, names, now), v);
  }

  lemma DownHolders(f: Flat, p: Policy, gone: set<string>, v: string)
    ensures Holders(CountedDown(f, p, gone), v) == Holders(f, v)
  {
    if ALL_NAMESPACE in f { HoldersIgnoreAll(f, Released(f[ALL_NAMESPACE], p.node, gone), v); }
  }

  lemma DeletedHolders(f: Flat, p: Policy, name: string, v: string)
    ensures Holders(Deleted(f, p, name), v) <= Holders(f, v)
  {
    HoldersRemove(f, {name}, v);
    if name in f { DownHolders(f - {name}, p, f[name].Keys, v); }
  }

  lemma SweptOneHolders(f: Flat, p: Policy, name: string, now: int, v: string)
    ensures Holders(SweptOne(f, p, name, now), v) <= Holders(f, v)
  {
    if name in f && !(CONFIG_PREFIX <= name) {
      var gone := Expired(f[name], now);
      HoldersPut(f, name, f[name] - gone, v);
      DownHolders(f[name := f[name] - gone], p, gone, v);
    }
  }

  lemma {:induction false} SweptHolders(f: Flat, p: Policy, names: seq<string>, now: int, v: string)
    ensures Holders(SweptEach(f, p, names, now), v) <= Holders(f, v)
    decreases |names|
  {
    if |names| > 0 {
      SweptHolders(f, p, names[..|names| - 1], now, v);
      SweptOneHolders(SweptEach(f, p, names[..|names| - 1], now), p, names[|names| - 1], now, v);
    }
  }

  // ---------------------------------------------------------------------
  // The store's files.
  // ---------------------------------------------------------------------

  function DiskAll(l: Layout<string, string>, s: Store): Values
  {
    In(FileOf(s, l.pinned), ALL_NAMESPACE)
  }

  /** Unless it is dirty, the internal shard's file covers what is held. */
  ghost predicate DiskSound(l: Layout<string, string>, s: Store, node: string)
  {
    l.pinned !in s.dirty ==> Covers(Flatten(l, s), DiskAll(l, s), node)
  }

  /** Kept by whatever leaves the file alone, and marks it if it counts up. */
  lemma DiskKept(l: Layout<string, string>, s: Store, t: Store, node: string)
    requires DiskSound(l, s, node) && FileOf(t, l.pinned) == FileOf(s, l.pinned)
    requires l.pinned !in t.dirty ==>
               l.pinned !in s.dirty && forall v :: Holders(Flatten(l, t), v) <= Holders(Flatten(l, s), v)
    ensures DiskSound(l, t, node)
  {
    if l.pinned !in t.dirty { FewerCovered(Flatten(l, s), Flatten(l, t), DiskAll(l, s), node); }
  }

  /** A save writes the tally as it stands, or leaves it. */
  ghost predicate TallySaved(l: Layout<string, string>, s: Store, t: Store, all: bool)
  {
    if all || l.pinned in s.dirty then DiskAll(l, t) == In(Flatten(l, s), ALL_NAMESPACE)
    else FileOf(t, l.pinned) == FileOf(s, l.pinned)
  }

  lemma SaveWritesTally(l: Layout<string, string>, s: Store, t: Store, all: bool)
    requires Laid(l) && Tiered(l, t, {}) && t.dirty == {} && t.namespaces == s.namespaces
    requires t.files == SavedFiles(l, s, all) && Flatten(l, t) == Flatten(l, s)
    ensures TallySaved(l, s, t, all)
  {
    SavedPinned(l, s, all);
    assert FileOf(t, l.pinned) == FileOf(s.(files := SavedFiles(l, s, all)), l.pinned);
    if all || l.pinned in s.dirty {
      TallyStays(l, t, {});
      FlattenAt(l, t, ALL_NAMESPACE);
      if ALL_NAMESPACE !in t.namespaces { NotOnDisk(l, t); }
    }
  }

  /** No tally in memory, none in a file that agrees with it. */
  lemma NotOnDisk(l: Layout<string, string>, t: Store)
    requires Laid(l) && Tiered(l, t, {}) && t.dirty == {} && ALL_NAMESPACE !in t.namespaces
    ensures ALL_NAMESPACE !in FileOf(t, l.pinned)
  {
    assert ShardSound(l, t, {}, l.pinned) && NameSound(l, t, ALL_NAMESPACE);
  }

  /** So a save keeps the file covering. */
  lemma DiskSaved(l: Layout<string, string>, s: Store, t: Store, node: string, extra: string -> nat, all: bool)
    requires DiskSound(l, s, node) && Tally(Flatten(l, s), node, extra)
    requires TallySaved(l, s, t, all) && Flatten(l, t) == Flatten(l, s)
    ensures DiskSound(l, t, node)
  {
    if all || l.pinned in s.dirty { TallyCovers(Flatten(l, s), node, extra); }
  }

  /** What a restart makes of files that cover: a tally over by the excess. */
  lemma RestartedTally(l: Layout<string, string>, s: Store, f: Flat, node: string)
    requires Laid(l) && Tiered(l, s, {}) && s.dirty == {} && DiskSound(l, s, node)
    requires f == Loaded(l, s.files)
    ensures Tally(f, node, Excess(Flatten(l, s), DiskAll(l, s), node))
  {
    var g, disk := Flatten(l, s), DiskAll(l, s);
    CoversIsTally(g, disk, node);
    forall n ensures n in f <==> n in g
      ensures n in g && n != ALL_NAMESPACE ==> f[n] == g[n]
    {
      FilesHoldAllButTally(l, s, n);
    }
    LoadedAt(l, s, ALL_NAMESPACE);
    if ALL_NAMESPACE in g {
      assert f == g[ALL_NAMESPACE := disk];
    } else {
      SameTally(f, g[ALL_NAMESPACE := disk], node, Excess(g, disk, node));
    }
  }

  /** An empty `_all` and none at all are alike to the tally. */
  lemma SameTally(f: Flat, g: Flat, node: string, extra: string -> nat)
    requires Tally(g, node, extra) && In(f, ALL_NAMESPACE) == In(g, ALL_NAMESPACE)
    requires forall n :: n != ALL_NAMESPACE ==> (n in f <==> n in g) && (n in f && n in g ==> f[n] == g[n])
    ensures Tally(f, node, extra)
  {
    AllIsInternal();
    forall value ensures TallyAt(f, node, extra, value) {
      assert TallyAt(g, node, extra, value);
      assert Holders(f, value) == Holders(g, value);
    }
  }
}
