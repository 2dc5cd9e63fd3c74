/** The tiered store as a value: what is resident, the shard catalogue, the
    dirty set and the shard files, and when together they stand for one flat
    map (src/db.rs:685-700, 1149-1173, 1758-2034; src/persistence.rs:107-155).

    Nothing here depends on what names, shards or contents are, so they are
    parameters: `N` names namespaces, `K` names shards and `V` is what a
    namespace holds. */
module Tiers {
  import opened Options

  /** Which shard a name is in; the one name whose contents may run ahead of
      its file unmarked (`_all`); and the shard that is never evicted. */
  datatype Layout<!N, !K> = Layout(shardOf: N -> K, tally: N, pinned: K)

  /** A shard's entry in the catalogue. */
  datatype Meta<N> = Meta(names: set<N>, resident: bool)

  datatype State<N, K, V> = State(
    namespaces: map<N, V>,
    shards: map<K, Meta<N>>,
    dirty: set<K>,
    files: map<K, map<N, V>>)

  /** A missing file reads as an empty one. */
  function FileOf<N, K, V>(s: State<N, K, V>, shard: K): map<N, V>
  {
    if shard in s.files then s.files[shard] else map[]
  }

  function Catalogue<N, K, V>(s: State<N, K, V>, shard: K): set<N>
  {
    if shard in s.shards then s.shards[shard].names else {}
  }

  predicate Evicted<N, K, V>(s: State<N, K, V>, shard: K)
  {
    shard in s.shards && !s.shards[shard].resident
  }

  /** What a reader finds under a name, from memory or through a page-in. */
  function Look<N, K, V>(l: Layout<N, K>, s: State<N, K, V>, n: N): Option<V>
  {
    if n in s.namespaces then Some(s.namespaces[n])
    else if Evicted(s, l.shardOf(n)) && n in FileOf(s, l.shardOf(n)) then Some(FileOf(s, l.shardOf(n))[n])
    else None
  }

  function FileNames<N, K, V>(files: map<K, map<N, V>>): set<N>
  {
    set shard, n | shard in files && n in files[shard] :: n
  }

  /** The flat map the tiers stand for. */
  function Flatten<N, K, V>(l: Layout<N, K>, s: State<N, K, V>): map<N, V>
  {
    map n | n in s.namespaces.Keys + FileNames(s.files) && Look(l, s, n).Some? :: Look(l, s, n).value
  }

  lemma FlattenAt<N, K, V>(l: Layout<N, K>, s: State<N, K, V>, n: N)
    ensures n in Flatten(l, s) <==> Look(l, s, n).Some?
    ensures n in Flatten(l, s) ==> Flatten(l, s)[n] == Look(l, s, n).value
  {
    if Look(l, s, n).Some? && n !in s.namespaces {
      assert l.shardOf(n) in s.files && n in s.files[l.shardOf(n)];
    }
  }

  // ---------------------------------------------------------------------
  // The invariant.
  // ---------------------------------------------------------------------

  /** The shard's file names what the catalogue names, and agrees with memory on
      everything but the tally, which is changed without its shard being
      marked (src/db.rs:1904-1908). */
  ghost predicate Agrees<N(!new), K, V>(l: Layout<N, K>, s: State<N, K, V>, shard: K)
  {
    && FileOf(s, shard).Keys == Catalogue(s, shard)
    && (forall n :: n in s.namespaces && n in FileOf(s, shard) && n != l.tally ==>
          FileOf(s, shard)[n] == s.namespaces[n])
  }

  /** Catalogue and file list names of this shard only; evicted means saved and
      gone from memory; clean means the file agrees. */
  ghost predicate ShardSound<N(!new), K, V>(l: Layout<N, K>, s: State<N, K, V>, loose: set<K>, shard: K)
  {
    && (forall n :: n in Catalogue(s, shard) ==> l.shardOf(n) == shard)
    && (forall n :: n in FileOf(s, shard) ==> l.shardOf(n) == shard)
    && (Evicted(s, shard) ==> shard !in s.dirty && shard !in loose && shard != l.pinned)
    && (shard !in s.dirty && shard !in loose ==> Agrees(l, s, shard))
  }

  /** Memory holds exactly what the catalogue lists for shards not evicted. */
  ghost predicate NameSound<N, K, V>(l: Layout<N, K>, s: State<N, K, V>, n: N)
  {
    n in s.namespaces <==> n in Catalogue(s, l.shardOf(n)) && !Evicted(s, l.shardOf(n))
  }

  /** `loose` are shards whose file may be behind without their being marked,
      which is only so in the middle of an operation. */
  ghost predicate Tiered<N(!new), K(!new), V>(l: Layout<N, K>, s: State<N, K, V>, loose: set<K>)
  {
    && (forall shard :: ShardSound(l, s, loose, shard))
    && (forall n :: NameSound(l, s, n))
  }

  /** Allowing for more unmarked shards asks less, and a shard that agrees with
      its file or is dirty needs no allowance. */
  lemma Reallow<N(!new), K(!new), V>(l: Layout<N, K>, s: State<N, K, V>, loose: set<K>, looser: set<K>)
    requires Tiered(l, s, loose)
    requires forall shard :: shard in looser && shard !in loose ==> !Evicted(s, shard)
    requires forall shard :: shard in loose && shard !in looser ==> shard in s.dirty || Agrees(l, s, shard)
    ensures Tiered(l, s, looser)
  {
    forall shard ensures ShardSound(l, s, looser, shard) {
      assert ShardSound(l, s, loose, shard);
    }
  }

  /** For a sound store, a name is found exactly when it is catalogued. */
  lemma LookIsCatalogued<N(!new), K(!new), V>(l: Layout<N, K>, s: State<N, K, V>, loose: set<K>, n: N)
    requires Tiered(l, s, loose)
    ensures Look(l, s, n).Some? <==> n in Catalogue(s, l.shardOf(n))
  {
    assert ShardSound(l, s, loose, l.shardOf(n)) && NameSound(l, s, n);
  }

  lemma SameFlatten<N(!new), K, V>(l: Layout<N, K>, s: State<N, K, V>, t: State<N, K, V>)
    requires forall n :: Look(l, s, n) == Look(l, t, n)
    ensures Flatten(l, s) == Flatten(l, t)
  {
    forall n ensures n in Flatten(l, s) <==> n in Flatten(l, t) {
      FlattenAt(l, s, n);
      FlattenAt(l, t, n);
    }
    forall n | n in Flatten(l, s) ensures Flatten(l, s)[n] == Flatten(l, t)[n] {
      FlattenAt(l, s, n);
      FlattenAt(l, t, n);
    }
  }

  /** One name stored anew, every other as it was. */
  lemma FlattenPut<N(!new), K, V>(l: Layout<N, K>, s: State<N, K, V>, t: State<N, K, V>, name: N, v: V)
    requires forall n :: Look(l, t, n) == if n == name then Some(v) else Look(l, s, n)
    ensures Flatten(l, t) == Flatten(l, s)[name := v]
  {
    var expected := Flatten(l, s)[name := v];
    forall n ensures n in Flatten(l, t) <==> n in expected {
      FlattenAt(l, s, n);
      FlattenAt(l, t, n);
    }
    forall n | n in Flatten(l, t) ensures Flatten(l, t)[n] == expected[n] {
      FlattenAt(l, s, n);
      FlattenAt(l, t, n);
    }
  }

  lemma FlattenDrop<N(!new), K, V>(l: Layout<N, K>, s: State<N, K, V>, t: State<N, K, V>, name: N)
    requires forall n :: Look(l, t, n) == if n == name then None else Look(l, s, n)
    ensures Flatten(l, t) == Flatten(l, s) - {name}
  {
    var expected := Flatten(l, s) - {name};
    forall n ensures n in Flatten(l, t) <==> n in expected {
      FlattenAt(l, s, n);
      FlattenAt(l, t, n);
    }
    forall n | n in Flatten(l, t) ensures Flatten(l, t)[n] == expected[n] {
      FlattenAt(l, s, n);
      FlattenAt(l, t, n);
    }
  }

  // ---------------------------------------------------------------------
  // The steps.
  // ---------------------------------------------------------------------

  /** Read an evicted shard's file back into memory. */
  function PagedIn<N, K, V>(s: State<N, K, V>, shard: K): State<N, K, V>
  {
    s.(namespaces := s.namespaces + FileOf(s, shard),
       shards := s.shards[shard := Meta(Catalogue(s, shard) + FileOf(s, shard).Keys, true)])
  }

  /** Store something under a name, registered as resident. */
  function Stored<N, K, V>(l: Layout<N, K>, s: State<N, K, V>, name: N, v: V): State<N, K, V>
  {
    var shard := l.shardOf(name);
    s.(namespaces := s.namespaces[name := v],
       shards := s.shards[shard := Meta(Catalogue(s, shard) + {name}, true)])
  }

  function Marked<N, K, V>(s: State<N, K, V>, shard: K): State<N, K, V>
  {
    s.(dirty := s.dirty + {shard})
  }

  function Removed<N, K, V>(l: Layout<N, K>, s: State<N, K, V>, name: N): State<N, K, V>
  {
    var shard := l.shardOf(name);
    s.(namespaces := s.namespaces - {name},
       shards := if shard in s.shards
                 then s.shards[shard := s.shards[shard].(names := s.shards[shard].names - {name})]
                 else s.shards)
  }

  /** What a shard's file is written from. */
  function Snapshot<N, K(==), V>(l: Layout<N, K>, namespaces: map<N, V>, shard: K): map<N, V>
  {
    map n | n in namespaces && l.shardOf(n) == shard :: namespaces[n]
  }

  function FileWritten<N, K, V>(l: Layout<N, K>, s: State<N, K, V>, shard: K): State<N, K, V>
  {
    s.(files := s.files[shard := Snapshot(l, s.namespaces, shard)])
  }

  function FileRemoved<N, K, V>(s: State<N, K, V>, shard: K): State<N, K, V>
  {
    s.(files := s.files - {shard})
  }

  function Cleared<N, K, V>(s: State<N, K, V>, shard: K): State<N, K, V>
  {
    s.(dirty := s.dirty - {shard})
  }

  function Dropped<N, K, V>(l: Layout<N, K>, s: State<N, K, V>, shard: K): State<N, K, V>
  {
    s.(namespaces := s.namespaces - Snapshot(l, s.namespaces, shard).Keys,
       shards := if shard in s.shards then s.shards[shard := s.shards[shard].(resident := false)] else s.shards)
  }

  // ---------------------------------------------------------------------
  // What each step keeps.
  // ---------------------------------------------------------------------

  lemma PageInKeeps<N(!new), K(!new), V>(l: Layout<N, K>, s: State<N, K, V>, shard: K, loose: set<K>)
    requires Tiered(l, s, loose) && Evicted(s, shard)
    ensures Tiered(l, PagedIn(s, shard), loose)
    ensures Flatten(l, PagedIn(s, shard)) == Flatten(l, s)
    ensures !Evicted(PagedIn(s, shard), shard)
  {
    var t := PagedIn(s, shard);
    assert ShardSound(l, s, loose, shard);
    assert Catalogue(t, shard) == Catalogue(s, shard);
    forall n ensures NameSound(l, t, n) && Look(l, s, n) == Look(l, t, n) {
      PageInName(l, s, shard, loose, n);
    }
    SameFlatten(l, s, t);
    forall other ensures ShardSound(l, t, loose, other) {
      assert ShardSound(l, s, loose, other);
    }
  }

  lemma PageInName<N(!new), K(!new), V>(l: Layout<N, K>, s: State<N, K, V>, shard: K, loose: set<K>, n: N)
    requires Tiered(l, s, loose) && Evicted(s, shard)
    ensures NameSound(l, PagedIn(s, shard), n) && Look(l, s, n) == Look(l, PagedIn(s, shard), n)
  {
    assert ShardSound(l, s, loose, shard);
    assert ShardSound(l, s, loose, l.shardOf(n));
    assert NameSound(l, s, n);
  }

  lemma StoreKeeps<N(!new), K(!new), V>(l: Layout<N, K>, s: State<N, K, V>, name: N, v: V, loose: set<K>)
    requires Tiered(l, s, loose) && !Evicted(s, l.shardOf(name))
    ensures Tiered(l, Stored(l, s, name, v), loose + {l.shardOf(name)})
    ensures Flatten(l, Stored(l, s, name, v)) == Flatten(l, s)[name := v]
    ensures !Evicted(Stored(l, s, name, v), l.shardOf(name))
  {
    var t, shard := Stored(l, s, name, v), l.shardOf(name);
    forall n ensures NameSound(l, t, n) && Look(l, t, n) == if n == name then Some(v) else Look(l, s, n) {
      assert NameSound(l, s, n);
    }
    FlattenPut(l, s, t, name, v);
    forall other ensures ShardSound(l, t, loose + {shard}, other) {
      assert ShardSound(l, s, loose, other);
    }
  }

  /** An evicted shard with nothing else in it may be called resident by storing
      what it has. */
  lemma StoreEmptiedKeeps<N(!new), K(!new), V>(l: Layout<N, K>, s: State<N, K, V>, name: N, v: V, loose: set<K>)
    requires Tiered(l, s, loose) && Evicted(s, l.shardOf(name)) && Catalogue(s, l.shardOf(name)) <= {name}
    ensures Tiered(l, Stored(l, s, name, v), loose + {l.shardOf(name)})
    ensures Flatten(l, Stored(l, s, name, v)) == Flatten(l, s)[name := v]
  {
    var t, shard := Stored(l, s, name, v), l.shardOf(name);
    assert ShardSound(l, s, loose, shard);
    forall n ensures NameSound(l, t, n) && Look(l, t, n) == if n == name then Some(v) else Look(l, s, n) {
      assert NameSound(l, s, n);
      LookIsCatalogued(l, s, loose, n);
    }
    FlattenPut(l, s, t, name, v);
    forall other ensures ShardSound(l, t, loose + {shard}, other) {
      assert ShardSound(l, s, loose, other);
    }
  }

  /** The tally can be stored over and over without its shard being marked. */
  lemma StoreTallyKeeps<N(!new), K(!new), V>(l: Layout<N, K>, s: State<N, K, V>, v: V, loose: set<K>)
    requires Tiered(l, s, loose) && l.tally in s.namespaces
    ensures Tiered(l, Stored(l, s, l.tally, v), loose)
    ensures Flatten(l, Stored(l, s, l.tally, v)) == Flatten(l, s)[l.tally := v]
  {
    var t := Stored(l, s, l.tally, v);
    assert NameSound(l, s, l.tally);
    StoreKeeps(l, s, l.tally, v, loose);
    forall other ensures ShardSound(l, t, loose, other) {
      assert ShardSound(l, s, loose, other);
    }
  }

  /** Putting back what is already registered leaves the catalogue as it is. */
  lemma StoredAgain<N(!new), K(!new), V>(l: Layout<N, K>, s: State<N, K, V>, name: N, v: V, loose: set<K>)
    requires Tiered(l, s, loose) && name in s.namespaces
    ensures Stored(l, s, name, v) == s.(namespaces := s.namespaces[name := v])
    ensures !Evicted(s, l.shardOf(name))
  {
    assert NameSound(l, s, name);
    var shard := l.shardOf(name);
    assert Catalogue(s, shard) + {name} == s.shards[shard].names;
    assert s.shards[shard] == Meta(s.shards[shard].names, true);
    assert s.shards[shard := s.shards[shard]] == s.shards;
  }

  lemma MarkKeeps<N(!new), K(!new), V>(l: Layout<N, K>, s: State<N, K, V>, shard: K, loose: set<K>)
    requires Tiered(l, s, loose + {shard})
    ensures Tiered(l, Marked(s, shard), loose)
    ensures Flatten(l, Marked(s, shard)) == Flatten(l, s)
    ensures !Evicted(s, shard)
  {
    var t := Marked(s, shard);
    forall n ensures NameSound(l, t, n) && Look(l, s, n) == Look(l, t, n) {
      assert NameSound(l, s, n);
    }
    SameFlatten(l, s, t);
    assert ShardSound(l, s, loose + {shard}, shard);
    forall other ensures ShardSound(l, t, loose, other) {
      assert ShardSound(l, s, loose + {shard}, other);
    }
  }

  /** What was dirty is owed a write instead. */
  lemma TakeDirty<N(!new), K(!new), V>(l: Layout<N, K>, s: State<N, K, V>, loose: set<K>)
    requires Tiered(l, s, loose)
    ensures Tiered(l, s.(dirty := {}), loose + s.dirty)
    ensures Flatten(l, s.(dirty := {})) == Flatten(l, s)
  {
    var t := s.(dirty := {});
    forall n ensures NameSound(l, t, n) && Look(l, s, n) == Look(l, t, n) {
      assert NameSound(l, s, n);
    }
    SameFlatten(l, s, t);
    forall shard ensures ShardSound(l, t, loose + s.dirty, shard) {
      assert ShardSound(l, s, loose, shard);
    }
  }

  lemma RemoveKeeps<N(!new), K(!new), V>(l: Layout<N, K>, s: State<N, K, V>, name: N, loose: set<K>)
    requires Tiered(l, s, loose) && name in s.namespaces
    ensures Tiered(l, Removed(l, s, name), loose + {l.shardOf(name)})
    ensures Flatten(l, Removed(l, s, name)) == Flatten(l, s) - {name}
    ensures !Evicted(Removed(l, s, name), l.shardOf(name))
  {
    var t, shard := Removed(l, s, name), l.shardOf(name);
    assert NameSound(l, s, name);
    forall n ensures NameSound(l, t, n) && Look(l, t, n) == if n == name then None else Look(l, s, n) {
      assert NameSound(l, s, n);
    }
    FlattenDrop(l, s, t, name);
    forall other ensures ShardSound(l, t, loose + {shard}, other) {
      assert ShardSound(l, s, loose, other);
    }
  }

  lemma SnapshotIsCatalogue<N(!new), K(!new), V>(l: Layout<N, K>, s: State<N, K, V>, shard: K, loose: set<K>)
    requires Tiered(l, s, loose) && !Evicted(s, shard)
    ensures Snapshot(l, s.namespaces, shard).Keys == Catalogue(s, shard)
  {
    assert ShardSound(l, s, loose, shard);
    forall n ensures n in Snapshot(l, s.namespaces, shard) <==> n in Catalogue(s, shard) {
      assert NameSound(l, s, n);
    }
  }

  lemma WriteFileKeeps<N(!new), K(!new), V>(l: Layout<N, K>, s: State<N, K, V>, shard: K, loose: set<K>)
    requires Tiered(l, s, loose) && !Evicted(s, shard)
    ensures Tiered(l, FileWritten(l, s, shard), loose - {shard})
    ensures Agrees(l, FileWritten(l, s, shard), shard)
    ensures Flatten(l, FileWritten(l, s, shard)) == Flatten(l, s)
  {
    var t := FileWritten(l, s, shard);
    SnapshotIsCatalogue(l, s, shard, loose);
    assert FileOf(t, shard) == Snapshot(l, s.namespaces, shard);
    forall n ensures NameSound(l, t, n) && Look(l, s, n) == Look(l, t, n) {
      assert NameSound(l, s, n);
    }
    SameFlatten(l, s, t);
    forall other ensures ShardSound(l, t, loose - {shard}, other) {
      assert ShardSound(l, s, loose, other);
    }
  }

  /** A file replaced by another: fine as long as it names only names of its
      shard, and either agrees with memory or is allowed not to. */
  lemma RefileKeeps<N(!new), K(!new), V>(l: Layout<N, K>, s: State<N, K, V>, files: map<K, map<N, V>>, shard: K,
                                         loose: set<K>, after: set<K>)
    requires Tiered(l, s, loose) && !Evicted(s, shard) && loose - {shard} <= after <= loose
    requires forall other :: other != shard ==> FileOf(s.(files := files), other) == FileOf(s, other)
    requires forall n :: n in FileOf(s.(files := files), shard) ==> l.shardOf(n) == shard
    requires shard in s.dirty || shard in after || Agrees(l, s.(files := files), shard)
    ensures Tiered(l, s.(files := files), after)
    ensures Flatten(l, s.(files := files)) == Flatten(l, s)
  {
    var t := s.(files := files);
    forall n ensures NameSound(l, t, n) && Look(l, s, n) == Look(l, t, n) {
      assert NameSound(l, s, n);
    }
    SameFlatten(l, s, t);
    forall other ensures ShardSound(l, t, after, other) {
      assert ShardSound(l, s, loose, other);
    }
  }

  /** A shard that agrees with its file need not be dirty. */
  lemma ClearKeeps<N(!new), K(!new), V>(l: Layout<N, K>, s: State<N, K, V>, shard: K, loose: set<K>)
    requires Tiered(l, s, loose) && Agrees(l, s, shard)
    ensures Tiered(l, Cleared(s, shard), loose)
    ensures Flatten(l, Cleared(s, shard)) == Flatten(l, s)
  {
    var t := Cleared(s, shard);
    forall n ensures NameSound(l, t, n) && Look(l, s, n) == Look(l, t, n) {
      assert NameSound(l, s, n);
    }
    SameFlatten(l, s, t);
    forall other ensures ShardSound(l, t, loose, other) {
      assert ShardSound(l, s, loose, other);
    }
  }

  /** A shard with nothing left in it needs no file. */
  lemma RemoveFileKeeps<N(!new), K(!new), V>(l: Layout<N, K>, s: State<N, K, V>, shard: K, loose: set<K>)
    requires Tiered(l, s, loose) && !Evicted(s, shard) && Catalogue(s, shard) == {}
    ensures Tiered(l, FileRemoved(s, shard), loose - {shard})
    ensures Flatten(l, FileRemoved(s, shard)) == Flatten(l, s)
  {
    var t := FileRemoved(s, shard);
    forall n ensures NameSound(l, t, n) && Look(l, s, n) == Look(l, t, n) {
      assert NameSound(l, s, n);
    }
    SameFlatten(l, s, t);
    forall other ensures ShardSound(l, t, loose - {shard}, other) {
      assert ShardSound(l, s, loose, other);
    }
  }

  /** Dropping a clean shard from memory changes nothing anyone can see. */
  lemma DropKeeps<N(!new), K(!new), V>(l: Layout<N, K>, s: State<N, K, V>, shard: K, loose: set<K>)
    requires Tiered(l, s, loose) && shard !in s.dirty && shard !in loose
    requires shard != l.pinned && l.shardOf(l.tally) == l.pinned
    ensures Tiered(l, Dropped(l, s, shard), loose)
    ensures Flatten(l, Dropped(l, s, shard)) == Flatten(l, s)
  {
    var t := Dropped(l, s, shard);
    assert ShardSound(l, s, loose, shard);
    forall n ensures NameSound(l, t, n) && Look(l, s, n) == Look(l, t, n) {
      assert NameSound(l, s, n);
    }
    SameFlatten(l, s, t);
    forall other ensures ShardSound(l, t, loose, other) {
      assert ShardSound(l, s, loose, other);
    }
  }

  /** What it takes for an unmarked shard to agree with its file all the same. */
  lemma AgreesIff<N(!new), K(!new), V>(l: Layout<N, K>, s: State<N, K, V>, shard: K, loose: set<K>)
    requires Tiered(l, s, loose) && !Evicted(s, shard)
    ensures Agrees(l, s, shard) <==>
            forall n :: l.shardOf(n) == shard ==>
              && (n in FileOf(s, shard) <==> n in Flatten(l, s))
              && (n in FileOf(s, shard) && n in Flatten(l, s) && n != l.tally ==>
                    FileOf(s, shard)[n] == Flatten(l, s)[n])
  {
    assert ShardSound(l, s, loose, shard);
    forall n ensures l.shardOf(n) == shard ==> (n in Flatten(l, s) <==> n in Catalogue(s, shard))
      ensures n in s.namespaces ==> n in Flatten(l, s) && Flatten(l, s)[n] == s.namespaces[n]
      ensures n in Catalogue(s, shard) ==> n in s.namespaces
    {
      assert NameSound(l, s, n);
      FlattenAt(l, s, n);
      LookIsCatalogued(l, s, loose, n);
    }
  }

  /** A change to one namespace that was not marked leaves the store sound
      exactly when it was no change at all, the shard was dirty anyway, or it was
      to a tally already there. */
  lemma UnmarkedIff<N(!new), K(!new), V>(l: Layout<N, K>, was: State<N, K, V>, s: State<N, K, V>, name: N, v: V)
    requires Tiered(l, was, {}) && Tiered(l, s, {l.shardOf(name)})
    requires s.files == was.files && was.dirty <= s.dirty
    requires name in Flatten(l, s) && Flatten(l, s)[name] == v
    requires l.shardOf(name) in s.dirty ||
             forall n :: l.shardOf(n) == l.shardOf(name) && n != name ==>
               && (n in Flatten(l, s) <==> n in Flatten(l, was))
               && (n in Flatten(l, s) && n in Flatten(l, was) ==> Flatten(l, s)[n] == Flatten(l, was)[n])
    ensures Tiered(l, s, {}) <==>
            l.shardOf(name) in s.dirty || (name in Flatten(l, was) && (name == l.tally || Flatten(l, was)[name] == v))
  {
    var shard := l.shardOf(name);
    assert ShardSound(l, s, {shard}, shard);
    forall other | other != shard ensures ShardSound(l, s, {}, other) {
      assert ShardSound(l, s, {shard}, other);
    }
    if shard !in s.dirty {
      AgreesIff(l, s, shard, {shard});
      forall n | l.shardOf(n) == shard
        ensures n in FileOf(was, shard) <==> n in Flatten(l, was)
        ensures n in FileOf(was, shard) && n in Flatten(l, was) && n != l.tally ==>
                  FileOf(was, shard)[n] == Flatten(l, was)[n]
      {
        FilesHoldAllButTally(l, was, n);
        LoadedAt(l, was, n);
      }
      assert FileOf(s, shard) == FileOf(was, shard);
      assert Agrees(l, s, shard) <==> name in Flatten(l, was) && (name == l.tally || Flatten(l, was)[name] == v);
    }
    assert !Evicted(s, shard);
    assert ShardSound(l, s, {}, shard) <==> shard in s.dirty || Agrees(l, s, shard);
  }

  /** Dropping a shard whose changes were never marked undoes exactly them: its
      names read as they did, every other name as it does. */
  lemma DropUndoes<N(!new), K(!new), V>(l: Layout<N, K>, was: State<N, K, V>, s: State<N, K, V>, shard: K)
    requires Tiered(l, was, {}) && shard !in was.dirty && Tiered(l, s, {shard}) && s.files == was.files
    requires shard != l.pinned && l.shardOf(l.tally) == l.pinned && shard in s.shards
    ensures forall n :: Look(l, Dropped(l, s, shard), n) ==
              if l.shardOf(n) == shard then Look(l, was, n) else Look(l, s, n)
  {
    var t := Dropped(l, s, shard);
    assert ShardSound(l, was, {}, shard);
    forall n ensures Look(l, t, n) == if l.shardOf(n) == shard then Look(l, was, n) else Look(l, s, n) {
      assert NameSound(l, was, n) && NameSound(l, s, n);
      LookIsCatalogued(l, was, {}, n);
    }
  }

  // ---------------------------------------------------------------------
  // Stopping and starting again.
  // ---------------------------------------------------------------------

  /** What reading every file gives: each name from the file of its shard. */
  function Loaded<N, K, V>(l: Layout<N, K>, files: map<K, map<N, V>>): map<N, V>
  {
    map n | n in FileNames(files) && l.shardOf(n) in files && n in files[l.shardOf(n)] :: files[l.shardOf(n)][n]
  }

  lemma LoadedAt<N(!new), K(!new), V>(l: Layout<N, K>, s: State<N, K, V>, n: N)
    ensures n in Loaded(l, s.files) <==> n in FileOf(s, l.shardOf(n))
    ensures n in Loaded(l, s.files) ==> Loaded(l, s.files)[n] == FileOf(s, l.shardOf(n))[n]
  {
  }

  /** A database started from a snapshot: everything resident, nothing dirty. */
  function Booted<N, K, V>(l: Layout<N, K>, data: map<N, V>, files: map<K, map<N, V>>): State<N, K, V>
  {
    var shards := set n | n in data :: l.shardOf(n);
    State(data, map k | k in shards :: Meta(set n | n in data && l.shardOf(n) == k, true), {}, files)
  }

  lemma BootedCatalogue<N(!new), K(!new), V>(l: Layout<N, K>, data: map<N, V>, files: map<K, map<N, V>>, shard: K)
    ensures forall n :: n in Catalogue(Booted(l, data, files), shard) <==> n in data && l.shardOf(n) == shard
    ensures !Evicted(Booted(l, data, files), shard)
  {
    var t := Booted(l, data, files);
    forall n | n in data && l.shardOf(n) == shard ensures n in Catalogue(t, shard) {
      assert shard in t.shards;
    }
  }

  /** A database started from the files stands for what the files hold. */
  lemma BootedIsSound<N(!new), K(!new), V>(l: Layout<N, K>, s: State<N, K, V>)
    requires forall shard, n :: n in FileOf(s, shard) ==> l.shardOf(n) == shard
    ensures Tiered(l, Booted(l, Loaded(l, s.files), s.files), {})
    ensures Flatten(l, Booted(l, Loaded(l, s.files), s.files)) == Loaded(l, s.files)
  {
    var data := Loaded(l, s.files);
    var t := Booted(l, data, s.files);
    forall n
      ensures NameSound(l, t, n) && (n in Flatten(l, t) <==> n in data)
      ensures n in data ==> Flatten(l, t)[n] == data[n]
    {
      BootedCatalogue(l, data, s.files, l.shardOf(n));
      FlattenAt(l, t, n);
    }
    forall shard ensures ShardSound(l, t, {}, shard) {
      BootedCatalogue(l, data, s.files, shard);
      FileAgrees(l, s, shard);
      assert FileOf(t, shard) == FileOf(s, shard);
      assert FileOf(t, shard).Keys == Catalogue(t, shard);
    }
  }

  lemma FileAgrees<N(!new), K(!new), V>(l: Layout<N, K>, s: State<N, K, V>, shard: K)
    requires forall n :: n in FileOf(s, shard) ==> l.shardOf(n) == shard
    ensures forall n :: n in FileOf(s, shard) <==> n in Loaded(l, s.files) && l.shardOf(n) == shard
    ensures forall n :: n in FileOf(s, shard) ==>
              n in Loaded(l, s.files) && FileOf(s, shard)[n] == Loaded(l, s.files)[n]
  {
    forall n
      ensures n in FileOf(s, shard) <==> n in Loaded(l, s.files) && l.shardOf(n) == shard
      ensures n in FileOf(s, shard) ==> n in Loaded(l, s.files) && FileOf(s, shard)[n] == Loaded(l, s.files)[n]
    {
      LoadedAt(l, s, n);
    }
  }

  /** With nothing dirty the files hold the flat map, apart from the tally ... */
  lemma FilesHoldAllButTally<N(!new), K(!new), V>(l: Layout<N, K>, s: State<N, K, V>, n: N)
    requires Tiered(l, s, {}) && l.shardOf(n) !in s.dirty
    ensures n in Loaded(l, s.files) <==> n in Flatten(l, s)
    ensures n in Flatten(l, s) && n != l.tally ==> Loaded(l, s.files)[n] == Flatten(l, s)[n]
  {
    assert ShardSound(l, s, {}, l.shardOf(n)) && NameSound(l, s, n);
    LoadedAt(l, s, n);
    FlattenAt(l, s, n);
    LookIsCatalogued(l, s, {}, n);
  }

  /** ... and exactly the flat map if and only if the tally was written too. */
  lemma FilesHoldEverythingIff<N(!new), K(!new), V>(l: Layout<N, K>, s: State<N, K, V>)
    requires Tiered(l, s, {}) && s.dirty == {} && l.shardOf(l.tally) == l.pinned
    ensures Loaded(l, s.files) == Flatten(l, s) <==>
            (l.tally in s.namespaces ==>
               l.tally in FileOf(s, l.pinned) && FileOf(s, l.pinned)[l.tally] == s.namespaces[l.tally])
  {
    forall n ensures n in Loaded(l, s.files) <==> n in Flatten(l, s) {
      FilesHoldAllButTally(l, s, n);
    }
    forall n | n in Flatten(l, s) && n != l.tally ensures Loaded(l, s.files)[n] == Flatten(l, s)[n] {
      FilesHoldAllButTally(l, s, n);
    }
    assert ShardSound(l, s, {}, l.pinned) && NameSound(l, s, l.tally);
    LoadedAt(l, s, l.tally);
    FlattenAt(l, s, l.tally);
  }

  // ---------------------------------------------------------------------
  // What a save leaves on disk, told from the state before it.
  // ---------------------------------------------------------------------

  function Present<N, K, V>(l: Layout<N, K>, s: State<N, K, V>): set<K>
  {
    set n | n in s.namespaces :: l.shardOf(n)
  }

  /** The shards a save rewrites. */
  function Wanted<N, K, V>(l: Layout<N, K>, s: State<N, K, V>, all: bool): set<K>
  {
    if all then Present(l, s) else Present(l, s) * s.dirty
  }

  /** The shards whose files it removes. */
  function Stale<N, K, V>(l: Layout<N, K>, s: State<N, K, V>): set<K>
  {
    s.dirty - Present(l, s)
  }

  function Rewritten<N, K(==), V>(l: Layout<N, K>, files: map<K, map<N, V>>, namespaces: map<N, V>, shards: set<K>)
    : map<K, map<N, V>>
  {
    files + map k | k in shards :: Snapshot(l, namespaces, k)
  }

  lemma RewrittenNext<N, K, V>(l: Layout<N, K>, files: map<K, map<N, V>>, namespaces: map<N, V>, done: set<K>, k: K)
    ensures Rewritten(l, files, namespaces, done)[k := Snapshot(l, namespaces, k)] ==
            Rewritten(l, files, namespaces, done + {k})
  {
  }

  function SavedFiles<N, K(==), V>(l: Layout<N, K>, s: State<N, K, V>, all: bool): map<K, map<N, V>>
  {
    Rewritten(l, s.files, s.namespaces, Wanted(l, s, all)) - Stale(l, s)
  }

  /** The file already has the tally as memory has it. */
  ghost predicate TallyOnDisk<N, K, V>(l: Layout<N, K>, s: State<N, K, V>)
  {
    l.tally in s.namespaces ==>
      l.tally in FileOf(s, l.pinned) && FileOf(s, l.pinned)[l.tally] == s.namespaces[l.tally]
  }

  /** What a save makes of the pinned shard's file: rewritten, or left alone. */
  lemma SavedPinned<N(!new), K(!new), V>(l: Layout<N, K>, s: State<N, K, V>, all: bool)
    requires l.shardOf(l.tally) == l.pinned
    ensures var file := FileOf(s.(files := SavedFiles(l, s, all)), l.pinned);
            && (l.tally in s.namespaces && (all || l.pinned in s.dirty) ==>
                  l.tally in file && file[l.tally] == s.namespaces[l.tally])
            && (l.tally !in s.namespaces && l.pinned in s.dirty ==> l.tally !in file)
            && (!all && l.pinned !in s.dirty ==> file == FileOf(s, l.pinned))
  {
    if l.tally in s.namespaces { assert l.pinned in Present(l, s); }
  }

  /** A save leaves the files equal to the flat map if and only if it writes the
      pinned shard, being asked for everything or finding it dirty, or the file
      had the tally right already. */
  lemma SaveIsExactIff<N(!new), K(!new), V>(l: Layout<N, K>, s: State<N, K, V>, all: bool)
    requires l.shardOf(l.tally) == l.pinned
    requires var t := s.(dirty := {}, files := SavedFiles(l, s, all)); Tiered(l, t, {})
    ensures var t := s.(dirty := {}, files := SavedFiles(l, s, all));
            Loaded(l, t.files) == Flatten(l, t) <==> all || l.pinned in s.dirty || TallyOnDisk(l, s)
  {
    var t := s.(dirty := {}, files := SavedFiles(l, s, all));
    FilesHoldEverythingIff(l, t);
    SavedPinned(l, s, all);
    assert FileOf(t, l.pinned) == FileOf(s.(files := SavedFiles(l, s, all)), l.pinned);
  }
}
