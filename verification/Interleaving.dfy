/** Writers, a save and an eviction taking turns, step by step
    (src/db.rs:879-913, 1149-1163, 1758-1902, 1957-2034, 2122-2163;
    src/persistence.rs:107-176).

    Each step is what is done under one hold of the locks. A writer looks for
    its namespace in memory. Failing that it puts the contents of the shard's
    file into memory, then calls the shard resident, looks again, and at last
    registers the name and enters it in the catalogue. Holding the handle it
    records, marks the shard dirty and lets go. A save lists the shards present,
    takes the dirty set, then writes shard after shard, reading one namespace at
    a time. An eviction saves a dirty shard, clears its mark, drops it from
    memory unless somebody holds any of it, and only then stops calling it
    resident.

    No lock spans these steps. Seven of them do harm at the wrong moment, and for
    every step it is worked out below exactly when. */
module Interleaving {
  import opened Options
  import opened Tiers

  datatype Phase = Seeking | Loaded | Ready | Registered | Taken | Recorded | Marked

  /** A writer, the namespace it is after or whose handle it holds, and which of
      the objects that were ever in memory under that name the handle is for. */
  datatype Writer<N> = Writer(name: N, phase: Phase, id: nat)

  /** A shard being serialised: what is still to be read, what was read, and the
      objects it is read from, which are held until all is read. */
  datatype Current<N, K, V> = Current(shard: K, unread: set<N>, buffer: map<N, V>, held: map<N, nat>)

  /** A running save: it has listed the shards present; or it has taken the dirty
      set, and has shards to write, shards that had nothing left to write, and
      the one being written. */
  datatype Save<N, K, V> =
    | Listed(present: set<K>)
    | Saving(todo: set<K>, stale: set<K>, current: Option<Current<N, K, V>>)

  datatype Stage = Saved | Unmarked | Unloaded

  /** A running eviction of one shard. */
  datatype Eviction<K> = Eviction(shard: K, stage: Stage)

  /** `store` calls a shard resident once its contents are in memory; those the
      catalogue does not call resident yet are `unflagged`. `ids` tells the
      objects in memory from earlier ones under the same name. `ideal` is what a
      single flat map would hold, every record applied to it. */
  datatype World<N, K, V> = World(
    store: State<N, K, V>,
    unflagged: set<K>,
    ids: map<N, nat>,
    next: nat,
    writers: map<nat, Writer<N>>,
    save: Option<Save<N, K, V>>,
    eviction: Option<Eviction<K>>,
    ideal: map<N, V>)

  datatype Step<N, K, !V> =
    | Seek(i: nat, name: N)
    | Load(i: nat)
    | Flag(i: nat)
    | Find(i: nat)
    | Register(i: nat)
    | Enter(i: nat)
    | Record(i: nat, change: V -> V)
    | Mark(i: nat)
    | Release(i: nat)
    | List
    | Take(all: bool)
    | StartShard(shard: K)
    | Serialise(name: N, seen: V)
    | FinishShard
    | RemoveStale(shard: K)
    | EndSave
    | SaveIdle(shard: K, content: map<N, V>)
    | Unmark
    | Unload
    | Unflag

  // ---------------------------------------------------------------------
  // What may happen.
  // ---------------------------------------------------------------------

  predicate At<N>(writers: map<nat, Writer<N>>, i: nat, phase: Phase)
  {
    i in writers && writers[i].phase == phase
  }

  /** It holds nothing and is in the middle of nothing. */
  predicate Waiting<N>(writers: map<nat, Writer<N>>, i: nat)
  {
    At(writers, i, Seeking) || At(writers, i, Ready)
  }

  predicate HasHandle(phase: Phase) { YetToMark(phase) || phase.Marked? }

  predicate YetToMark(phase: Phase) { phase.Registered? || phase.Taken? || phase.Recorded? }

  predicate Underway<N, K, V>(w: World<N, K, V>)
  {
    w.save.Some? && w.save.value.Saving?
  }

  predicate Reading<N, K, V>(w: World<N, K, V>)
  {
    Underway(w) && w.save.value.current.Some?
  }

  predicate Between<N, K, V>(w: World<N, K, V>)
  {
    Underway(w) && w.save.value.current.None?
  }

  predicate Evicting<N, K, V>(w: World<N, K, V>, stage: Stage)
  {
    w.eviction.Some? && w.eviction.value.stage == stage
  }

  /** What the catalogue says, which can lag behind memory both ways. */
  predicate Flagged<N, K, V>(w: World<N, K, V>, shard: K)
  {
    shard in w.store.shards &&
    ((w.store.shards[shard].resident && shard !in w.unflagged) || w.eviction == Some(Eviction(shard, Unloaded)))
  }

  /** Shards some writer holds and has yet to mark. */
  function Pending<N, K>(l: Layout<N, K>, writers: map<nat, Writer<N>>): set<K>
  {
    set i | i in writers && YetToMark(writers[i].phase) :: l.shardOf(writers[i].name)
  }

  /** Whatever changes from now on in the shard will be noticed. */
  predicate Noticed<N, K, V>(l: Layout<N, K>, w: World<N, K, V>, shard: K)
  {
    shard in w.store.dirty || shard in Pending(l, w.writers)
  }

  /** Values are locked one by one while a namespace is read, so what a save has
      `seen` is what is there only if nobody was changing it, and it was reading
      what is there. What an eviction writes of a marked shard may be anything. */
  predicate Enabled<N(!new), K, V(==)>(l: Layout<N, K>, w: World<N, K, V>, step: Step<N, K, V>)
  {
    match step
    case Seek(i, _) => i !in w.writers
    case Load(i) => Waiting(w.writers, i)
    case Flag(i) => At(w.writers, i, Loaded)
    case Find(i) => At(w.writers, i, Ready) && w.writers[i].name in w.store.namespaces
    case Register(i) => At(w.writers, i, Ready)
    case Enter(i) => At(w.writers, i, Registered)
    case Record(i, _) => At(w.writers, i, Taken)
    case Mark(i) => At(w.writers, i, Recorded)
    case Release(i) => Waiting(w.writers, i) || At(w.writers, i, Marked)
    case List => w.save.None?
    case Take(_) => w.save.Some? && w.save.value.Listed?
    case StartShard(shard) => Between(w) && shard in w.save.value.todo
    case Serialise(name, seen) =>
      && Reading(w) && name in w.save.value.current.value.unread
      && (|| Noticed(l, w, w.save.value.current.value.shard)
          || !Holds(w, w.save.value.current.value, name)
          || seen == w.store.namespaces[name])
    case FinishShard => Reading(w) && w.save.value.current.value.unread == {}
    case RemoveStale(shard) => Between(w) && shard in w.save.value.stale
    case EndSave => Between(w) && w.save.value.todo == {} && w.save.value.stale == {}
    case SaveIdle(shard, content) =>
      && w.eviction.None? && Flagged(w, shard) && shard != l.pinned
      && (forall n :: n in content ==> l.shardOf(n) == shard)
    case Unmark => Evicting(w, Saved)
    case Unload => Evicting(w, Unmarked)
    case Unflag => Evicting(w, Unloaded)
  }

  // ---------------------------------------------------------------------
  // What it does.
  // ---------------------------------------------------------------------

  function IdOf<N>(ids: map<N, nat>, n: N): nat
  {
    if n in ids then ids[n] else 0
  }

  /** The writer's handle is for the object now in memory, not for an orphan. */
  predicate Live<N, K, V>(w: World<N, K, V>, x: Writer<N>)
  {
    x.name in w.store.namespaces && IdOf(w.ids, x.name) == x.id
  }

  /** So is the save's. */
  predicate Holds<N, K, V>(w: World<N, K, V>, c: Current<N, K, V>, n: N)
  {
    n in c.held && n in w.store.namespaces && IdOf(w.ids, n) == c.held[n]
  }

  /** Someone holds a handle to what the shard has in memory. */
  predicate Busy<N, K(==), V>(l: Layout<N, K>, w: World<N, K, V>, shard: K)
  {
    || (exists i :: i in w.writers && HasHandle(w.writers[i].phase) && Live(w, w.writers[i]) &&
                    l.shardOf(w.writers[i].name) == shard)
    || (&& Reading(w) && w.save.value.current.value.shard == shard && w.save.value.current.value.unread != {}
        && exists n :: n in w.store.namespaces && Holds(w, w.save.value.current.value, n))
  }

  /** What is there under the name, or an empty namespace; catalogued, and its
      shard called resident, either way. */
  function Entered<N, K, V>(l: Layout<N, K>, s: State<N, K, V>, name: N, empty: V): State<N, K, V>
  {
    Stored(l, s, name, if name in s.namespaces then s.namespaces[name] else empty)
  }

  function Called<N, K, V>(s: State<N, K, V>, shard: K): State<N, K, V>
  {
    s.(shards := s.shards[shard := Meta(Catalogue(s, shard), true)])
  }

  function Advanced<N>(writers: map<nat, Writer<N>>, i: nat, phase: Phase): map<nat, Writer<N>>
    requires i in writers
  {
    writers[i := writers[i].(phase := phase)]
  }

  function Holding<N, K, V>(w: World<N, K, V>, name: N): Writer<N>
  {
    Writer(name, Taken, IdOf(w.ids, name))
  }

  /** Every namespace of the file goes into memory as a new object, over any that
      is there. */
  function FileLoaded<N, K, V>(w: World<N, K, V>, shard: K): World<N, K, V>
  {
    w.(store := PagedIn(w.store, shard),
       unflagged := w.unflagged + {shard},
       ids := w.ids + map n | n in FileOf(w.store, shard) :: w.next,
       next := w.next + 1)
  }

  /** Nothing is read if the catalogue calls the shard resident. */
  function AfterLoad<N, K, V>(l: Layout<N, K>, w: World<N, K, V>, i: nat): World<N, K, V>
    requires i in w.writers
  {
    var shard := l.shardOf(w.writers[i].name);
    if shard !in w.store.shards || Flagged(w, shard)
    then w.(writers := Advanced(w.writers, i, Ready))
    else FileLoaded(w, shard).(writers := Advanced(w.writers, i, Loaded))
  }

  function AfterTake<N, K, V>(w: World<N, K, V>, present: set<K>, all: bool): World<N, K, V>
  {
    w.(store := w.store.(dirty := {}),
       save := Some(Saving(if all then present else present * w.store.dirty, w.store.dirty - present, None)))
  }

  /** A new object only if there was none. */
  function AfterRegister<N, K, V>(l: Layout<N, K>, w: World<N, K, V>, i: nat, empty: V): World<N, K, V>
    requires i in w.writers
  {
    var name := w.writers[i].name;
    var shard := l.shardOf(name);
    var found := name in w.store.namespaces;
    var id := if found then IdOf(w.ids, name) else w.next;
    w.(store := Entered(l, w.store, name, empty),
       unflagged := if shard !in w.store.shards || Flagged(w, shard) then w.unflagged else w.unflagged + {shard},
       ids := if found then w.ids else w.ids[name := id],
       next := w.next + 1,
       writers := w.writers[i := Writer(name, Registered, id)],
       ideal := if name in w.ideal then w.ideal else w.ideal[name := empty])
  }

  /** A record through a handle to an orphan reaches nothing. */
  function AfterRecord<N, K, V>(w: World<N, K, V>, i: nat, change: V -> V, empty: V): World<N, K, V>
    requires i in w.writers
  {
    var name := w.writers[i].name;
    var was := w.store.namespaces;
    w.(store := if Live(w, w.writers[i]) then w.store.(namespaces := was[name := change(was[name])]) else w.store,
       writers := Advanced(w.writers, i, Recorded),
       ideal := w.ideal[name := change(if name in w.ideal then w.ideal[name] else empty)])
  }

  /** Dropped only if nobody holds any of it. */
  function AfterUnload<N, K, V>(l: Layout<N, K>, w: World<N, K, V>, shard: K): World<N, K, V>
  {
    if Busy(l, w, shard) then w.(eviction := None)
    else w.(store := Dropped(l, w.store, shard), unflagged := w.unflagged - {shard},
            eviction := Some(Eviction(shard, Unloaded)))
  }

  function Next<N(!new), K, V>(l: Layout<N, K>, w: World<N, K, V>, step: Step<N, K, V>, empty: V): World<N, K, V>
    requires Enabled(l, w, step)
  {
    match step
    case Seek(i, name) =>
      w.(writers := w.writers[i := if name in w.store.namespaces then Holding(w, name) else Writer(name, Seeking, 0)])
    case Load(i) => AfterLoad(l, w, i)
    case Flag(i) =>
      var shard := l.shardOf(w.writers[i].name);
      w.(store := Called(w.store, shard), unflagged := w.unflagged - {shard}, writers := Advanced(w.writers, i, Ready))
    case Find(i) => w.(writers := w.writers[i := Holding(w, w.writers[i].name)])
    case Register(i) => AfterRegister(l, w, i, empty)
    case Enter(i) =>
      w.(unflagged := w.unflagged - {l.shardOf(w.writers[i].name)}, writers := Advanced(w.writers, i, Taken))
    case Record(i, change) => AfterRecord(w, i, change, empty)
    case Mark(i) =>
      w.(store := Tiers.Marked(w.store, l.shardOf(w.writers[i].name)), writers := Advanced(w.writers, i, Marked))
    case Release(i) => w.(writers := w.writers - {i})
    case List => w.(save := Some(Listed(Present(l, w.store))))
    case Take(all) => AfterTake(w, w.save.value.present, all)
    case StartShard(shard) =>
      var names := Snapshot(l, w.store.namespaces, shard).Keys;
      var c := Current(shard, names, map[], map n | n in names :: IdOf(w.ids, n));
      w.(save := Some(w.save.value.(todo := w.save.value.todo - {shard}, current := Some(c))))
    case Serialise(name, seen) =>
      var c := w.save.value.current.value;
      var d := c.(unread := c.unread - {name}, buffer := c.buffer[name := seen]);
      w.(save := Some(w.save.value.(current := Some(d))))
    case FinishShard =>
      var c := w.save.value.current.value;
      w.(store := w.store.(files := w.store.files[c.shard := c.buffer]),
         save := Some(w.save.value.(current := None)))
    case RemoveStale(shard) =>
      w.(store := FileRemoved(w.store, shard), save := Some(w.save.value.(stale := w.save.value.stale - {shard})))
    case EndSave => w.(save := None)
    case SaveIdle(shard, content) =>
      w.(store := if shard in w.store.dirty then w.store.(files := w.store.files[shard := content]) else w.store,
         eviction := Some(Eviction(shard, Saved)))
    case Unmark =>
      w.(store := Cleared(w.store, w.eviction.value.shard), eviction := Some(w.eviction.value.(stage := Unmarked)))
    case Unload => AfterUnload(l, w, w.eviction.value.shard)
    case Unflag =>
      var shard := w.eviction.value.shard;
      w.(unflagged := if Evicted(w.store, shard) then w.unflagged else w.unflagged + {shard}, eviction := None)
  }

  // ---------------------------------------------------------------------
  // The invariant.
  // ---------------------------------------------------------------------

  /** Shards the running save has yet to write. */
  function Owed<N, K, V>(save: Option<Save<N, K, V>>): set<K>
  {
    if save.None? || save.value.Listed? then {}
    else save.value.todo + save.value.stale +
         if save.value.current.Some? then {save.value.current.value.shard} else {}
  }

  /** A shard that differs from its file is dirty, or one of these. */
  function Loose<N, K, V>(l: Layout<N, K>, w: World<N, K, V>): set<K>
  {
    Pending(l, w.writers) + Owed(w.save)
  }

  ghost predicate HandlesSound<N, K, V>(w: World<N, K, V>)
  {
    && (forall i :: i in w.writers && YetToMark(w.writers[i].phase) ==> Live(w, w.writers[i]))
    && (forall n :: n in w.store.namespaces ==> IdOf(w.ids, n) < w.next)
  }

  /** What was read is what memory has, and what is unread is the rest. */
  ghost predicate BufferAgrees<N(!new), K, V>(l: Layout<N, K>, s: State<N, K, V>, c: Current<N, K, V>)
  {
    && (forall n :: n in Catalogue(s, c.shard) <==> n in c.buffer || n in c.unread)
    && (forall n :: n in c.buffer && n in s.namespaces && n != l.tally ==> c.buffer[n] == s.namespaces[n])
  }

  /** What has been serialised is still what memory holds, unless noticed. */
  ghost predicate CurrentSound<N(!new), K, V>(l: Layout<N, K>, w: World<N, K, V>, c: Current<N, K, V>)
  {
    && (forall n :: n in c.buffer || n in c.unread ==> l.shardOf(n) == c.shard)
    && (Noticed(l, w, c.shard) || BufferAgrees(l, w.store, c))
  }

  ghost predicate StaleSound<N, K, V>(l: Layout<N, K>, w: World<N, K, V>, shard: K)
  {
    Catalogue(w.store, shard) == {} || Noticed(l, w, shard)
  }

  ghost predicate SaveSound<N(!new), K(!new), V>(l: Layout<N, K>, w: World<N, K, V>)
  {
    Underway(w) ==>
      && (forall shard :: shard in w.save.value.stale ==> StaleSound(l, w, shard))
      && (w.save.value.current.Some? ==> CurrentSound(l, w, w.save.value.current.value))
  }

  ghost predicate EvictionSound<N, K, V>(l: Layout<N, K>, w: World<N, K, V>)
  {
    w.eviction.Some? ==>
      var shard := w.eviction.value.shard;
      shard != l.pinned && shard in w.store.shards && (!w.eviction.value.stage.Unloaded? ==> !Evicted(w.store, shard))
  }

  ghost predicate Inv<N(!new), K(!new), V>(l: Layout<N, K>, w: World<N, K, V>)
  {
    && Tiered(l, w.store, Loose(l, w))
    && HandlesSound(w)
    && SaveSound(l, w)
    && EvictionSound(l, w)
    && Flatten(l, w.store) == w.ideal
  }

  // ---------------------------------------------------------------------
  // What every step needs.
  // ---------------------------------------------------------------------

  lemma LooseNotEvicted<N(!new), K(!new), V>(l: Layout<N, K>, s: State<N, K, V>, loose: set<K>, shard: K)
    requires Tiered(l, s, loose) && (shard in loose || shard in s.dirty)
    ensures !Evicted(s, shard)
  {
    assert ShardSound(l, s, loose, shard);
  }

  /** Every object in memory stays there as the object it is. */
  ghost predicate ObjectsStay<N, K, V>(w: World<N, K, V>, v: World<N, K, V>)
  {
    forall n :: n in w.store.namespaces ==> n in v.store.namespaces && IdOf(v.ids, n) == IdOf(w.ids, n)
  }

  /** One writer moved on, every handle there was is still good. */
  lemma HandlesStay<N, K, V>(w: World<N, K, V>, v: World<N, K, V>, i: nat, x: Writer<N>)
    requires HandlesSound(w) && ObjectsStay(w, v) && w.next <= v.next && v.writers == w.writers[i := x]
    requires forall n :: n in v.store.namespaces && n !in w.store.namespaces ==> IdOf(v.ids, n) < v.next
    requires YetToMark(x.phase) ==> Live(v, x)
    ensures HandlesSound(v)
  {
    forall j | j in v.writers && YetToMark(v.writers[j].phase) ensures Live(v, v.writers[j]) {
      if j != i { assert Live(w, w.writers[j]); }
    }
  }

  /** Other shards' catalogues and contents are as they were, and nothing left memory. */
  ghost predicate OnlyShard<N(!new), K(!new), V>(l: Layout<N, K>, s: State<N, K, V>, t: State<N, K, V>, shard: K)
  {
    && (forall other :: other != shard ==> Catalogue(t, other) == Catalogue(s, other))
    && (forall n :: n in s.namespaces ==> n in t.namespaces)
    && (forall n :: l.shardOf(n) != shard && n in t.namespaces ==>
          n in s.namespaces && t.namespaces[n] == s.namespaces[n])
  }

  /** A save in progress is undisturbed by a change that will be noticed. */
  lemma SaveUndisturbed<N(!new), K(!new), V>(l: Layout<N, K>, w: World<N, K, V>, v: World<N, K, V>, shard: K)
    requires SaveSound(l, w) && v.save == w.save && OnlyShard(l, w.store, v.store, shard)
    requires Noticed(l, v, shard)
    requires forall other :: Noticed(l, w, other) ==> Noticed(l, v, other)
    ensures SaveSound(l, v)
  {
    if Underway(v) {
      forall other | other in v.save.value.stale ensures StaleSound(l, v, other) {
        assert StaleSound(l, w, other);
      }
      if v.save.value.current.Some? {
        var c := v.save.value.current.value;
        assert CurrentSound(l, w, c);
        assert CurrentSound(l, v, c);
      }
    }
  }

  /** Nothing the save depends on changed. */
  lemma SameSave<N(!new), K(!new), V>(l: Layout<N, K>, w: World<N, K, V>, v: World<N, K, V>)
    requires SaveSound(l, w) && v.save == w.save && v.store == w.store
    requires Pending(l, w.writers) == Pending(l, v.writers)
    ensures SaveSound(l, v)
  {
    if Underway(v) {
      forall other | other in v.save.value.stale ensures StaleSound(l, v, other) {
        assert StaleSound(l, w, other);
      }
      if v.save.value.current.Some? {
        assert CurrentSound(l, w, v.save.value.current.value);
        assert CurrentSound(l, v, v.save.value.current.value);
      }
    }
  }

  lemma PendingAt<N, K(!new)>(l: Layout<N, K>, writers: map<nat, Writer<N>>, i: nat, x: Writer<N>)
    requires i in writers ==> writers[i].name == x.name
    ensures var before, after := Pending(l, writers), Pending(l, writers[i := x]);
            && (YetToMark(x.phase) ==> after == before + {l.shardOf(x.name)})
            && (!YetToMark(x.phase) ==> before == after || before == after + {l.shardOf(x.name)})
            && (!YetToMark(x.phase) && (i !in writers || !YetToMark(writers[i].phase)) ==> before == after)
            && (i in writers && YetToMark(writers[i].phase) ==> l.shardOf(x.name) in before)
  {
    var next, shard := writers[i := x], l.shardOf(x.name);
    forall k | k != shard ensures k in Pending(l, writers) <==> k in Pending(l, next) {
      if k in Pending(l, writers) {
        var j :| j in writers && YetToMark(writers[j].phase) && l.shardOf(writers[j].name) == k;
        assert next[j] == writers[j];
      }
      if k in Pending(l, next) {
        var j :| j in next && YetToMark(next[j].phase) && l.shardOf(next[j].name) == k;
        assert j in writers && writers[j] == next[j];
      }
    }
    if YetToMark(x.phase) { assert next[i] == x && shard in Pending(l, next); }
    if i in writers && YetToMark(writers[i].phase) { assert shard in Pending(l, writers); }
    OthersPending(l, writers, i, x);
  }

  /** A shard someone else holds unmarked stays so. */
  lemma OthersPending<N, K(!new)>(l: Layout<N, K>, writers: map<nat, Writer<N>>, i: nat, x: Writer<N>)
    requires i in writers ==> writers[i].name == x.name
    ensures var next, shard := writers[i := x], l.shardOf(x.name);
            && (shard in Pending(l, next) && !YetToMark(x.phase) ==> shard in Pending(l, writers))
            && (shard in Pending(l, writers) && (i !in writers || !YetToMark(writers[i].phase)) ==>
                  shard in Pending(l, next))
  {
    var next, shard := writers[i := x], l.shardOf(x.name);
    if shard in Pending(l, next) && !YetToMark(x.phase) {
      var j :| j in next && YetToMark(next[j].phase) && l.shardOf(next[j].name) == shard;
      assert j in writers && writers[j] == next[j];
    }
    if shard in Pending(l, writers) && (i !in writers || !YetToMark(writers[i].phase)) {
      var j :| j in writers && YetToMark(writers[j].phase) && l.shardOf(writers[j].name) == shard;
      assert next[j] == writers[j];
    }
  }

  /** A writer waits or moves between phases without touching the store. */
  lemma WaitingKeeps<N(!new), K(!new), V>(l: Layout<N, K>, w: World<N, K, V>, v: World<N, K, V>, i: nat, x: Writer<N>)
    requires Inv(l, w) && v == w.(writers := w.writers[i := x], unflagged := v.unflagged)
    requires i in w.writers ==> w.writers[i].name == x.name && !YetToMark(w.writers[i].phase)
    requires !YetToMark(x.phase)
    ensures Inv(l, v)
  {
    PendingAt(l, w.writers, i, x);
    assert Loose(l, v) == Loose(l, w);
    HandlesStay(w, v, i, x);
    SameSave(l, w, v);
  }

  /** A writer takes the handle of what is in memory. */
  lemma HoldingKeeps<N(!new), K(!new), V>(l: Layout<N, K>, w: World<N, K, V>, v: World<N, K, V>, i: nat, x: Writer<N>)
    requires Inv(l, w) && v == w.(writers := w.writers[i := x], unflagged := v.unflagged)
    requires i in w.writers ==> w.writers[i].name == x.name
    requires YetToMark(x.phase) && Live(w, x)
    ensures Inv(l, v)
  {
    var shard := l.shardOf(x.name);
    PendingAt(l, w.writers, i, x);
    assert NameSound(l, w.store, x.name);
    assert Loose(l, v) == Loose(l, w) + {shard};
    Reallow(l, w.store, Loose(l, w), Loose(l, v));
    HandlesStay(w, v, i, x);
    SaveUndisturbed(l, w, v, shard);
  }

  lemma SeekKeeps<N(!new), K(!new), V>(l: Layout<N, K>, w: World<N, K, V>, i: nat, name: N, empty: V)
    requires Inv(l, w) && Enabled(l, w, Seek(i, name))
    ensures Inv(l, Next(l, w, Seek(i, name), empty))
  {
    var v := Next(l, w, Seek(i, name), empty);
    if name in w.store.namespaces {
      HoldingKeeps(l, w, v, i, v.writers[i]);
    } else {
      WaitingKeeps(l, w, v, i, v.writers[i]);
    }
  }

  lemma FindKeeps<N(!new), K(!new), V>(l: Layout<N, K>, w: World<N, K, V>, i: nat, empty: V)
    requires Inv(l, w) && Enabled(l, w, Find(i))
    ensures Inv(l, Next(l, w, Find(i), empty))
  {
    var v := Next(l, w, Find(i), empty);
    HoldingKeeps(l, w, v, i, v.writers[i]);
  }

  lemma EnterKeeps<N(!new), K(!new), V>(l: Layout<N, K>, w: World<N, K, V>, i: nat, empty: V)
    requires Inv(l, w) && Enabled(l, w, Enter(i))
    ensures Inv(l, Next(l, w, Enter(i), empty))
  {
    var v := Next(l, w, Enter(i), empty);
    HoldingKeeps(l, w, v, i, v.writers[i]);
  }

  // ---------------------------------------------------------------------
  // Paging in.
  // ---------------------------------------------------------------------

  /** Nothing is put into memory over what has moved on since, or over an object
      whose handle is out. */
  ghost predicate Replaceable<N, K, V>(w: World<N, K, V>, shard: K)
  {
    var file := FileOf(w.store, shard);
    && (forall n :: n in file ==> n in w.store.namespaces && w.store.namespaces[n] == file[n])
    && (forall i :: i in w.writers && YetToMark(w.writers[i].phase) ==> w.writers[i].name !in file)
  }

  /** The shard's contents are in memory already and a page-in reads them again. */
  ghost predicate Reloads<N, K, V>(l: Layout<N, K>, w: World<N, K, V>, i: nat)
    requires i in w.writers
  {
    var shard := l.shardOf(w.writers[i].name);
    shard in w.store.shards && !Flagged(w, shard) && !Evicted(w.store, shard)
  }

  /** A page-in touches neither what a save has read nor what it will. */
  lemma SaveUnmoved<N(!new), K(!new), V>(l: Layout<N, K>, w: World<N, K, V>, v: World<N, K, V>, shard: K)
    requires Tiered(l, w.store, Loose(l, w)) && SaveSound(l, w) && Evicted(w.store, shard)
    requires v.save == w.save && v.store == PagedIn(w.store, shard)
    requires Pending(l, w.writers) == Pending(l, v.writers)
    ensures SaveSound(l, v)
  {
    assert ShardSound(l, w.store, Loose(l, w), shard);
    assert shard !in Owed(w.save);
    if Underway(v) {
      forall other | other in v.save.value.stale ensures StaleSound(l, v, other) {
        assert StaleSound(l, w, other);
      }
      if v.save.value.current.Some? {
        assert CurrentSound(l, w, v.save.value.current.value);
        assert CurrentSound(l, v, v.save.value.current.value);
      }
    }
  }

  lemma FirstLoadKeeps<N(!new), K(!new), V>(l: Layout<N, K>, w: World<N, K, V>, i: nat)
    requires Inv(l, w) && Waiting(w.writers, i) && Evicted(w.store, l.shardOf(w.writers[i].name))
    ensures Inv(l, AfterLoad(l, w, i))
  {
    var v := AfterLoad(l, w, i);
    var shard := l.shardOf(w.writers[i].name);
    PendingAt(l, w.writers, i, v.writers[i]);
    assert Loose(l, v) == Loose(l, w);
    if Flagged(w, shard) {
      WaitingKeeps(l, w, v, i, v.writers[i]);
    } else {
      PageInKeeps(l, w.store, shard, Loose(l, w));
      SaveUnmoved(l, w, v, shard);
      LoadedHandles(l, w, v, i, shard);
    }
  }

  lemma LoadedHandles<N(!new), K(!new), V>(l: Layout<N, K>, w: World<N, K, V>, v: World<N, K, V>, i: nat, shard: K)
    requires Tiered(l, w.store, Loose(l, w)) && HandlesSound(w) && Evicted(w.store, shard) && i in w.writers
    requires v == FileLoaded(w, shard).(writers := Advanced(w.writers, i, Loaded))
    ensures HandlesSound(v)
  {
    assert ShardSound(l, w.store, Loose(l, w), shard);
    forall n | n in w.store.namespaces ensures n !in FileOf(w.store, shard) {
      assert NameSound(l, w.store, n);
    }
    HandlesStay(w, v, i, v.writers[i]);
  }

  lemma ReloadedStore<N(!new), K(!new), V>(l: Layout<N, K>, s: State<N, K, V>, loose: set<K>, shard: K)
    requires Tiered(l, s, loose) && shard in s.shards && !Evicted(s, shard)
    requires forall n :: n in FileOf(s, shard) ==> n in s.namespaces && s.namespaces[n] == FileOf(s, shard)[n]
    ensures PagedIn(s, shard) == s
  {
    assert ShardSound(l, s, loose, shard);
    forall n | n in FileOf(s, shard) ensures n in Catalogue(s, shard) {
      assert NameSound(l, s, n);
    }
    assert s.namespaces + FileOf(s, shard) == s.namespaces;
    assert Catalogue(s, shard) + FileOf(s, shard).Keys == s.shards[shard].names;
    assert s.shards[shard] == Meta(s.shards[shard].names, true);
    assert s.shards[shard := s.shards[shard]] == s.shards;
  }

  lemma ReloadKeeps<N(!new), K(!new), V>(l: Layout<N, K>, w: World<N, K, V>, i: nat)
    requires Inv(l, w) && Waiting(w.writers, i) && Reloads(l, w, i)
    requires Replaceable(w, l.shardOf(w.writers[i].name))
    ensures Inv(l, AfterLoad(l, w, i))
  {
    var v := AfterLoad(l, w, i);
    var shard := l.shardOf(w.writers[i].name);
    ReloadedStore(l, w.store, Loose(l, w), shard);
    PendingAt(l, w.writers, i, v.writers[i]);
    assert Loose(l, v) == Loose(l, w);
    forall j | j in v.writers && YetToMark(v.writers[j].phase) ensures Live(v, v.writers[j]) {
      assert v.writers[j] == w.writers[j] && Live(w, w.writers[j]);
    }
    SameSave(l, w, v);
  }

  /** Reading a shard's file again over what is in memory does no harm if and
      only if memory still is what the file says and no handle to any of it is out. */
  lemma ReloadKeepsIff<N(!new), K(!new), V>(l: Layout<N, K>, w: World<N, K, V>, i: nat)
    requires Inv(l, w) && Waiting(w.writers, i) && Reloads(l, w, i)
    ensures Inv(l, AfterLoad(l, w, i)) <==> Replaceable(w, l.shardOf(w.writers[i].name))
  {
    var v := AfterLoad(l, w, i);
    var shard := l.shardOf(w.writers[i].name);
    var file := FileOf(w.store, shard);
    if Replaceable(w, shard) {
      ReloadKeeps(l, w, i);
    } else if n :| n in file && (n !in w.store.namespaces || w.store.namespaces[n] != file[n]) {
      assert ShardSound(l, w.store, Loose(l, w), shard);
      FlattenAt(l, w.store, n);
      FlattenAt(l, v.store, n);
    } else {
      var j :| j in w.writers && YetToMark(w.writers[j].phase) && w.writers[j].name in file;
      assert v.writers[j] == w.writers[j] && Live(w, w.writers[j]) && !Live(v, v.writers[j]);
    }
  }

  /** Calling a shard resident does no harm if and only if it still is in memory,
      or there was nothing in it. */
  lemma FlagKeepsIff<N(!new), K(!new), V>(l: Layout<N, K>, w: World<N, K, V>, i: nat, empty: V)
    requires Inv(l, w) && Enabled(l, w, Flag(i))
    ensures var shard := l.shardOf(w.writers[i].name);
            Inv(l, Next(l, w, Flag(i), empty)) <==> !Evicted(w.store, shard) || Catalogue(w.store, shard) == {}
  {
    var v := Next(l, w, Flag(i), empty);
    var shard := l.shardOf(w.writers[i].name);
    if !Evicted(w.store, shard) || Catalogue(w.store, shard) == {} {
      PendingAt(l, w.writers, i, v.writers[i]);
      assert Loose(l, v) == Loose(l, w);
      CalledKeeps(l, w.store, Loose(l, w), shard);
      HandlesStay(w, v, i, v.writers[i]);
      CalledSave(l, w, v, shard);
    } else {
      var n :| n in Catalogue(w.store, shard);
      CalledForgets(l, w.store, Loose(l, w), shard, n);
      FlattenAt(l, w.store, n);
      FlattenAt(l, v.store, n);
    }
  }

  lemma CalledKeeps<N(!new), K(!new), V>(l: Layout<N, K>, s: State<N, K, V>, loose: set<K>, shard: K)
    requires Tiered(l, s, loose) && (!Evicted(s, shard) || Catalogue(s, shard) == {})
    ensures Tiered(l, Called(s, shard), loose) && Flatten(l, Called(s, shard)) == Flatten(l, s)
  {
    var t := Called(s, shard);
    assert ShardSound(l, s, loose, shard);
    forall n ensures NameSound(l, t, n) && Look(l, s, n) == Look(l, t, n) {
      assert NameSound(l, s, n);
    }
    SameFlatten(l, s, t);
    forall other ensures ShardSound(l, t, loose, other) {
      assert ShardSound(l, s, loose, other);
    }
  }

  /** Called resident while gone from memory, a shard's names read as missing. */
  lemma CalledForgets<N(!new), K(!new), V>(l: Layout<N, K>, s: State<N, K, V>, loose: set<K>, shard: K, n: N)
    requires Tiered(l, s, loose) && Evicted(s, shard) && n in Catalogue(s, shard)
    ensures Look(l, s, n).Some? && Look(l, Called(s, shard), n).None?
  {
    assert ShardSound(l, s, loose, shard) && NameSound(l, s, n);
    LookIsCatalogued(l, s, loose, n);
  }

  lemma CalledSave<N(!new), K(!new), V>(l: Layout<N, K>, w: World<N, K, V>, v: World<N, K, V>, shard: K)
    requires SaveSound(l, w) && v.save == w.save && v.store == Called(w.store, shard)
    requires Pending(l, w.writers) == Pending(l, v.writers)
    ensures SaveSound(l, v)
  {
    forall other ensures Catalogue(v.store, other) == Catalogue(w.store, other) {}
    if Underway(v) {
      forall other | other in v.save.value.stale ensures StaleSound(l, v, other) {
        assert StaleSound(l, w, other);
      }
      if v.save.value.current.Some? {
        assert CurrentSound(l, w, v.save.value.current.value);
        assert CurrentSound(l, v, v.save.value.current.value);
      }
    }
  }

  // ---------------------------------------------------------------------
  // Registering, and what may have happened since the page-in.
  // ---------------------------------------------------------------------

  /** The shard is in memory, or there was nothing in it to miss. */
  ghost predicate NothingToMiss<N, K, V>(l: Layout<N, K>, s: State<N, K, V>, name: N, empty: V)
  {
    var shard := l.shardOf(name);
    Evicted(s, shard) ==>
      Catalogue(s, shard) <= {name} && (name in FileOf(s, shard) ==> FileOf(s, shard)[name] == empty)
  }

  lemma EnteredOnlyShard<N(!new), K(!new), V>(l: Layout<N, K>, s: State<N, K, V>, name: N, empty: V)
    ensures OnlyShard(l, s, Entered(l, s, name, empty), l.shardOf(name))
  {
  }

  lemma EnteredKeeps<N(!new), K(!new), V>(l: Layout<N, K>, s: State<N, K, V>, name: N, empty: V, loose: set<K>)
    requires Tiered(l, s, loose) && NothingToMiss(l, s, name, empty)
    ensures var t := Entered(l, s, name, empty);
            && Tiered(l, t, loose + {l.shardOf(name)}) && name in t.namespaces
            && Flatten(l, t) == (if name in Flatten(l, s) then Flatten(l, s) else Flatten(l, s)[name := empty])
  {
    var v := if name in s.namespaces then s.namespaces[name] else empty;
    var shard := l.shardOf(name);
    FlattenAt(l, s, name);
    assert NameSound(l, s, name);
    if Evicted(s, shard) { StoreEmptiedKeeps(l, s, name, v, loose); } else { StoreKeeps(l, s, name, v, loose); }
    if name in Flatten(l, s) { assert Flatten(l, s)[name := v] == Flatten(l, s); }
  }

  lemma RegisterKeeps<N(!new), K(!new), V>(l: Layout<N, K>, w: World<N, K, V>, i: nat, empty: V)
    requires Inv(l, w) && Enabled(l, w, Register(i)) && NothingToMiss(l, w.store, w.writers[i].name, empty)
    ensures Inv(l, Next(l, w, Register(i), empty))
  {
    var v := Next(l, w, Register(i), empty);
    var name := w.writers[i].name;
    var shard := l.shardOf(name);
    PendingAt(l, w.writers, i, v.writers[i]);
    assert Loose(l, v) == Loose(l, w) + {shard};
    EnteredKeeps(l, w.store, name, empty, Loose(l, w));
    HandlesStay(w, v, i, v.writers[i]);
    EnteredOnlyShard(l, w.store, name, empty);
    SaveUndisturbed(l, w, v, shard);
  }

  /** Registering is safe if and only if the shard is still in memory, or held
      nothing that could be missed. */
  lemma RegisterKeepsIff<N(!new), K(!new), V>(l: Layout<N, K>, w: World<N, K, V>, i: nat, empty: V)
    requires Inv(l, w) && Enabled(l, w, Register(i))
    ensures Inv(l, Next(l, w, Register(i), empty)) <==> NothingToMiss(l, w.store, w.writers[i].name, empty)
  {
    var name := w.writers[i].name;
    if NothingToMiss(l, w.store, name, empty) {
      RegisterKeeps(l, w, i, empty);
    } else {
      var v := Next(l, w, Register(i), empty);
      var shard := l.shardOf(name);
      assert ShardSound(l, w.store, Loose(l, w), shard) && NameSound(l, w.store, name);
      if exists n :: n in Catalogue(w.store, shard) && n != name {
        var n :| n in Catalogue(w.store, shard) && n != name;
        Forgotten(l, w, i, empty, n);
        FlattenAt(l, w.store, n);
        FlattenAt(l, v.store, n);
      } else {
        FlattenAt(l, w.store, name);
        FlattenAt(l, v.store, name);
      }
    }
  }

  /** What the losing registration does: every other name of the shard reads as
      missing, though nobody deleted it. */
  lemma Forgotten<N(!new), K(!new), V>(l: Layout<N, K>, w: World<N, K, V>, i: nat, empty: V, n: N)
    requires Inv(l, w) && Enabled(l, w, Register(i)) && Evicted(w.store, l.shardOf(w.writers[i].name))
    requires n in Catalogue(w.store, l.shardOf(w.writers[i].name)) && n != w.writers[i].name
    ensures var v := Next(l, w, Register(i), empty);
            Look(l, v.store, n).None? && n in v.ideal && v.ideal[n] == w.ideal[n]
  {
    var shard := l.shardOf(w.writers[i].name);
    assert ShardSound(l, w.store, Loose(l, w), shard) && NameSound(l, w.store, n);
    LookIsCatalogued(l, w.store, Loose(l, w), n);
    FlattenAt(l, w.store, n);
  }

  lemma RecordKeeps<N(!new), K(!new), V>(l: Layout<N, K>, w: World<N, K, V>, i: nat, change: V -> V, empty: V)
    requires Inv(l, w) && Enabled(l, w, Record(i, change))
    ensures Inv(l, Next(l, w, Record(i, change), empty))
  {
    var u := Next(l, w, Record(i, change), empty);
    var name := w.writers[i].name;
    var shard := l.shardOf(name);
    assert Live(w, w.writers[i]);
    var v := change(w.store.namespaces[name]);
    FlattenAt(l, w.store, name);
    PendingAt(l, w.writers, i, u.writers[i]);
    StoredAgain(l, w.store, name, v, Loose(l, w));
    StoreKeeps(l, w.store, name, v, Loose(l, w));
    assert Loose(l, u) == Loose(l, w) == Loose(l, w) + {shard};
    HandlesStay(w, u, i, u.writers[i]);
    SaveUndisturbed(l, w, u, shard);
  }

  lemma MarkStepKeeps<N(!new), K(!new), V>(l: Layout<N, K>, w: World<N, K, V>, i: nat, empty: V)
    requires Inv(l, w) && Enabled(l, w, Mark(i))
    ensures Inv(l, Next(l, w, Mark(i), empty))
  {
    var v := Next(l, w, Mark(i), empty);
    var shard := l.shardOf(w.writers[i].name);
    PendingAt(l, w.writers, i, v.writers[i]);
    assert Loose(l, v) + {shard} == Loose(l, w) + {shard} == Loose(l, w);
    MarkKeeps(l, w.store, shard, Loose(l, v));
    HandlesStay(w, v, i, v.writers[i]);
    SaveUndisturbed(l, w, v, shard);
  }

  lemma ReleaseKeeps<N(!new), K(!new), V>(l: Layout<N, K>, w: World<N, K, V>, i: nat, empty: V)
    requires Inv(l, w) && Enabled(l, w, Release(i))
    ensures Inv(l, Next(l, w, Release(i), empty))
  {
    var v := Next(l, w, Release(i), empty);
    forall k ensures k in Pending(l, w.writers) <==> k in Pending(l, v.writers) {
      if k in Pending(l, w.writers) {
        var j :| j in w.writers && YetToMark(w.writers[j].phase) && l.shardOf(w.writers[j].name) == k;
        assert j in v.writers && v.writers[j] == w.writers[j];
      }
    }
    assert Pending(l, w.writers) == Pending(l, v.writers);
    assert Loose(l, v) == Loose(l, w);
    forall j | j in v.writers && YetToMark(v.writers[j].phase) ensures Live(v, v.writers[j]) {
      assert Live(w, w.writers[j]);
    }
    SameSave(l, w, v);
  }

  // ---------------------------------------------------------------------
  // Saving.
  // ---------------------------------------------------------------------

  /** Every shard listed that is to be written is still in memory, and every one
      that is marked and not listed has nothing in it, or a writer who will mark
      it again. */
  ghost predicate ListStillGood<N(!new), K(!new), V>(l: Layout<N, K>, w: World<N, K, V>, present: set<K>, all: bool)
  {
    && (all ==> forall shard :: shard in present ==> !Evicted(w.store, shard))
    && (forall shard :: shard in w.store.dirty && shard !in present ==>
          Catalogue(w.store, shard) == {} || shard in Pending(l, w.writers))
  }

  /** Taking the dirty set does no harm if and only if the list of shards made
      before it is still good. */
  lemma TakeKeepsIff<N(!new), K(!new), V>(l: Layout<N, K>, w: World<N, K, V>, all: bool, empty: V)
    requires Inv(l, w) && Enabled(l, w, Take(all))
    ensures Inv(l, Next(l, w, Take(all), empty)) <==> ListStillGood(l, w, w.save.value.present, all)
  {
    var v := Next(l, w, Take(all), empty);
    var save, present := v.save.value, w.save.value.present;
    if ListStillGood(l, w, present, all) {
      TakeDirty(l, w.store, Loose(l, w));
      forall shard | shard in save.todo ensures !Evicted(w.store, shard) {
        if !all { LooseNotEvicted(l, w.store, Loose(l, w), shard); }
      }
      forall shard | shard in save.stale ensures !Evicted(w.store, shard) && StaleSound(l, v, shard) {
        LooseNotEvicted(l, w.store, Loose(l, w), shard);
      }
      assert w.store.dirty <= save.todo + save.stale;
      Reallow(l, v.store, Loose(l, w) + w.store.dirty, Loose(l, v));
    } else if shard :| shard in w.store.dirty && shard !in present &&
                       !(Catalogue(w.store, shard) == {} || shard in Pending(l, w.writers)) {
      assert shard in save.stale && !StaleSound(l, v, shard);
    } else {
      var shard :| shard in present && Evicted(w.store, shard);
      assert !ShardSound(l, v.store, Loose(l, v), shard);
    }
  }

  /** A list made with nothing in between is good. */
  lemma ListIsGood<N(!new), K(!new), V>(l: Layout<N, K>, w: World<N, K, V>, all: bool)
    requires Inv(l, w)
    ensures ListStillGood(l, w, Present(l, w.store), all)
  {
    forall shard | shard in Present(l, w.store) ensures !Evicted(w.store, shard) {
      var n :| n in w.store.namespaces && l.shardOf(n) == shard;
      assert NameSound(l, w.store, n);
    }
    forall shard | shard in w.store.dirty && shard !in Present(l, w.store) ensures Catalogue(w.store, shard) == {} {
      NothingResident(l, w.store, Loose(l, w), shard);
    }
  }

  /** A dirty shard with nothing in memory has nothing catalogued. */
  lemma NothingResident<N(!new), K(!new), V>(l: Layout<N, K>, s: State<N, K, V>, loose: set<K>, shard: K)
    requires Tiered(l, s, loose) && shard in s.dirty && forall n :: n in s.namespaces ==> l.shardOf(n) != shard
    ensures Catalogue(s, shard) == {} && !Evicted(s, shard)
  {
    assert ShardSound(l, s, loose, shard);
    forall n ensures n !in Catalogue(s, shard) {
      assert NameSound(l, s, n);
    }
  }

  lemma StartShardKeeps<N(!new), K(!new), V>(l: Layout<N, K>, w: World<N, K, V>, shard: K, empty: V)
    requires Inv(l, w) && Enabled(l, w, StartShard(shard))
    ensures Inv(l, Next(l, w, StartShard(shard), empty))
  {
    var v := Next(l, w, StartShard(shard), empty);
    assert Loose(l, v) == Loose(l, w);
    LooseNotEvicted(l, w.store, Loose(l, w), shard);
    SnapshotIsCatalogue(l, w.store, shard, Loose(l, w));
    forall other | other in v.save.value.stale ensures StaleSound(l, v, other) {
      assert StaleSound(l, w, other);
    }
    assert CurrentSound(l, v, v.save.value.current.value);
  }

  /** What was read is what is there, or its not being so has been noticed. */
  ghost predicate SeenWell<N, K, V>(l: Layout<N, K>, w: World<N, K, V>, shard: K, name: N, seen: V)
  {
    Noticed(l, w, shard) || (name in w.store.namespaces && name != l.tally ==> seen == w.store.namespaces[name])
  }

  lemma SerialiseKeepsIff<N(!new), K(!new), V>(l: Layout<N, K>, w: World<N, K, V>, name: N, seen: V, empty: V)
    requires Inv(l, w) && Enabled(l, w, Serialise(name, seen))
    ensures Inv(l, Next(l, w, Serialise(name, seen), empty)) <==>
            SeenWell(l, w, w.save.value.current.value.shard, name, seen)
  {
    var v := Next(l, w, Serialise(name, seen), empty);
    var c, d := w.save.value.current.value, v.save.value.current.value;
    assert Loose(l, v) == Loose(l, w);
    assert CurrentSound(l, w, c);
    forall other | other in v.save.value.stale ensures StaleSound(l, v, other) {
      assert StaleSound(l, w, other);
    }
    assert d.buffer[name] == seen;
    assert CurrentSound(l, v, d) <==> SeenWell(l, w, c.shard, name, seen);
  }

  /** The file that replaces the old one is as new as memory, or its being
      behind has been noticed. */
  lemma FinishShardKeeps<N(!new), K(!new), V>(l: Layout<N, K>, w: World<N, K, V>, empty: V)
    requires Inv(l, w) && Enabled(l, w, FinishShard)
    ensures Inv(l, Next(l, w, FinishShard, empty))
  {
    var v := Next(l, w, FinishShard, empty);
    var c := w.save.value.current.value;
    assert CurrentSound(l, w, c);
    LooseNotEvicted(l, w.store, Loose(l, w), c.shard);
    if !Noticed(l, w, c.shard) { assert c.buffer.Keys == Catalogue(w.store, c.shard); }
    RefileKeeps(l, w.store, v.store.files, c.shard, Loose(l, w), Loose(l, v));
    forall other | other in v.save.value.stale ensures StaleSound(l, v, other) {
      assert StaleSound(l, w, other);
    }
  }

  lemma RemoveStaleKeeps<N(!new), K(!new), V>(l: Layout<N, K>, w: World<N, K, V>, shard: K, empty: V)
    requires Inv(l, w) && Enabled(l, w, RemoveStale(shard))
    ensures Inv(l, Next(l, w, RemoveStale(shard), empty))
  {
    var v := Next(l, w, RemoveStale(shard), empty);
    assert StaleSound(l, w, shard);
    LooseNotEvicted(l, w.store, Loose(l, w), shard);
    assert ShardSound(l, w.store, Loose(l, w), shard);
    EmptyAgrees(l, v.store, shard);
    RefileKeeps(l, w.store, v.store.files, shard, Loose(l, w), Loose(l, v));
    forall other | other in v.save.value.stale ensures StaleSound(l, v, other) {
      assert StaleSound(l, w, other);
    }
  }

  lemma EmptyAgrees<N(!new), K(!new), V>(l: Layout<N, K>, s: State<N, K, V>, shard: K)
    requires FileOf(s, shard) == map[]
    ensures Catalogue(s, shard) == {} ==> Agrees(l, s, shard)
  {
  }

  // ---------------------------------------------------------------------
  // Evicting.
  // ---------------------------------------------------------------------

  lemma SaveIdleKeeps<N(!new), K(!new), V>(l: Layout<N, K>, w: World<N, K, V>, shard: K, content: map<N, V>, empty: V)
    requires Inv(l, w) && Enabled(l, w, SaveIdle(shard, content))
    ensures Inv(l, Next(l, w, SaveIdle(shard, content), empty))
  {
    var v := Next(l, w, SaveIdle(shard, content), empty);
    assert Loose(l, v) == Loose(l, w);
    if shard in w.store.dirty {
      LooseNotEvicted(l, w.store, Loose(l, w), shard);
      RefileKeeps(l, w.store, v.store.files, shard, Loose(l, w), Loose(l, w));
    }
    RefiledSave(l, w, v);
  }

  lemma RefiledSave<N(!new), K(!new), V>(l: Layout<N, K>, w: World<N, K, V>, v: World<N, K, V>)
    requires SaveSound(l, w) && v.save == w.save && v.writers == w.writers
    requires v.store == w.store.(files := v.store.files)
    ensures SaveSound(l, v)
  {
    if Underway(v) {
      forall other | other in v.save.value.stale ensures StaleSound(l, v, other) {
        assert StaleSound(l, w, other);
      }
      if v.save.value.current.Some? {
        assert CurrentSound(l, w, v.save.value.current.value);
        assert CurrentSound(l, v, v.save.value.current.value);
      }
    }
  }

  /** The mark says nothing that is not known otherwise: the shard's file is up
      to date or a writer or the save will see to it, and what the save has read
      of it holds. */
  ghost predicate MarkIdle<N(!new), K(!new), V>(l: Layout<N, K>, w: World<N, K, V>, shard: K)
  {
    || shard !in w.store.dirty
    || shard in Pending(l, w.writers)
    || (&& (shard in Owed(w.save) || Agrees(l, w.store, shard))
        && (Underway(w) && shard in w.save.value.stale ==> Catalogue(w.store, shard) == {})
        && (Reading(w) && w.save.value.current.value.shard == shard ==>
              BufferAgrees(l, w.store, w.save.value.current.value)))
  }

  /** Clearing a mark does no harm if and only if it was idle. */
  lemma UnmarkKeepsIff<N(!new), K(!new), V>(l: Layout<N, K>, w: World<N, K, V>, empty: V)
    requires Inv(l, w) && Enabled(l, w, Unmark)
    ensures Inv(l, Next(l, w, Unmark, empty)) <==> MarkIdle(l, w, w.eviction.value.shard)
  {
    var v, shard := Next(l, w, Unmark, empty), w.eviction.value.shard;
    assert Loose(l, v) == Loose(l, w);
    if shard !in w.store.dirty {
      assert v.store == w.store;
      SameSave(l, w, v);
    } else {
      UnmarkedStore(l, w.store, Loose(l, w), shard);
      UnmarkedSave(l, w, v, shard);
    }
  }

  lemma UnmarkedStore<N(!new), K(!new), V>(l: Layout<N, K>, s: State<N, K, V>, loose: set<K>, shard: K)
    requires Tiered(l, s, loose)
    ensures Tiered(l, Cleared(s, shard), loose) <==> shard in loose || shard !in s.dirty || Agrees(l, s, shard)
    ensures Flatten(l, Cleared(s, shard)) == Flatten(l, s)
  {
    var t := Cleared(s, shard);
    forall n ensures NameSound(l, t, n) && Look(l, s, n) == Look(l, t, n) {
      assert NameSound(l, s, n);
    }
    SameFlatten(l, s, t);
    forall other | other != shard ensures ShardSound(l, t, loose, other) {
      assert ShardSound(l, s, loose, other);
    }
    assert ShardSound(l, s, loose, shard);
    assert Agrees(l, t, shard) <==> Agrees(l, s, shard);
    assert ShardSound(l, t, loose, shard) <==> shard in loose || shard !in s.dirty || Agrees(l, s, shard);
  }

  lemma UnmarkedSave<N(!new), K(!new), V>(l: Layout<N, K>, w: World<N, K, V>, v: World<N, K, V>, shard: K)
    requires SaveSound(l, w) && v.store == Cleared(w.store, shard) && v.save == w.save && v.writers == w.writers
    ensures SaveSound(l, v) <==>
            || shard !in w.store.dirty
            || shard in Pending(l, w.writers)
            || (&& (Underway(w) && shard in w.save.value.stale ==> Catalogue(w.store, shard) == {})
                && (Reading(w) && w.save.value.current.value.shard == shard ==>
                      BufferAgrees(l, w.store, w.save.value.current.value)))
  {
    if Underway(v) {
      forall other | other in v.save.value.stale && other != shard ensures StaleSound(l, v, other) {
        assert StaleSound(l, w, other);
      }
      if shard in v.save.value.stale { assert StaleSound(l, w, shard); }
      if v.save.value.current.Some? {
        var c := v.save.value.current.value;
        assert CurrentSound(l, w, c);
        assert BufferAgrees(l, v.store, c) <==> BufferAgrees(l, w.store, c);
        assert CurrentSound(l, v, c) <==> Noticed(l, v, c.shard) || BufferAgrees(l, w.store, c);
      }
    }
  }

  lemma PendingIsBusy<N(!new), K(!new), V>(l: Layout<N, K>, w: World<N, K, V>, shard: K)
    requires HandlesSound(w) && shard in Pending(l, w.writers)
    ensures Busy(l, w, shard)
  {
    var i :| i in w.writers && YetToMark(w.writers[i].phase) && l.shardOf(w.writers[i].name) == shard;
    assert Live(w, w.writers[i]);
  }

  /** Dropping a shard does no harm if and only if it is refused, or nobody has
      marked it again and no running save owes it a write. */
  lemma UnloadKeepsIff<N(!new), K(!new), V>(l: Layout<N, K>, w: World<N, K, V>, empty: V)
    requires l.shardOf(l.tally) == l.pinned
    requires Inv(l, w) && Enabled(l, w, Unload)
    ensures var shard := w.eviction.value.shard;
            Inv(l, Next(l, w, Unload, empty)) <==>
            Busy(l, w, shard) || (shard !in w.store.dirty && shard !in Owed(w.save))
  {
    var v, shard := Next(l, w, Unload, empty), w.eviction.value.shard;
    assert Loose(l, v) == Loose(l, w);
    if Busy(l, w, shard) {
      SameSave(l, w, v);
    } else if shard in w.store.dirty || shard in Owed(w.save) {
      assert Evicted(v.store, shard) && !ShardSound(l, v.store, Loose(l, v), shard);
    } else {
      if shard in Pending(l, w.writers) { PendingIsBusy(l, w, shard); }
      UnloadKeeps(l, w, empty);
    }
  }

  lemma UnloadKeeps<N(!new), K(!new), V>(l: Layout<N, K>, w: World<N, K, V>, empty: V)
    requires l.shardOf(l.tally) == l.pinned
    requires Inv(l, w) && Enabled(l, w, Unload)
    requires var shard := w.eviction.value.shard;
             !Busy(l, w, shard) && shard !in w.store.dirty && shard !in Loose(l, w)
    ensures Inv(l, Next(l, w, Unload, empty))
  {
    var v, shard := Next(l, w, Unload, empty), w.eviction.value.shard;
    assert Loose(l, v) == Loose(l, w);
    DropKeeps(l, w.store, shard, Loose(l, w));
    DroppedSave(l, w, v, shard);
    forall i | i in v.writers && YetToMark(v.writers[i].phase) ensures Live(v, v.writers[i]) {
      assert Live(w, w.writers[i]) && l.shardOf(w.writers[i].name) != shard;
    }
  }

  lemma DroppedSave<N(!new), K(!new), V>(l: Layout<N, K>, w: World<N, K, V>, v: World<N, K, V>, shard: K)
    requires SaveSound(l, w) && shard !in Owed(w.save)
    requires v.save == w.save && v.writers == w.writers && v.store == Dropped(l, w.store, shard)
    ensures SaveSound(l, v)
  {
    forall other ensures Catalogue(v.store, other) == Catalogue(w.store, other) {}
    if Underway(v) {
      forall other | other in v.save.value.stale ensures StaleSound(l, v, other) {
        assert StaleSound(l, w, other);
      }
      if v.save.value.current.Some? {
        assert CurrentSound(l, w, v.save.value.current.value);
        assert CurrentSound(l, v, v.save.value.current.value);
      }
    }
  }

  // ---------------------------------------------------------------------
  // Every step, exactly.
  // ---------------------------------------------------------------------

  /** What to check before a step; most need nothing. */
  ghost predicate Harmless<N(!new), K(!new), V>(l: Layout<N, K>, w: World<N, K, V>, step: Step<N, K, V>, empty: V)
    requires Enabled(l, w, step)
  {
    match step
    case Load(i) => Reloads(l, w, i) ==> Replaceable(w, l.shardOf(w.writers[i].name))
    case Flag(i) =>
      var shard := l.shardOf(w.writers[i].name);
      !Evicted(w.store, shard) || Catalogue(w.store, shard) == {}
    case Register(i) => NothingToMiss(l, w.store, w.writers[i].name, empty)
    case Take(all) => ListStillGood(l, w, w.save.value.present, all)
    case Serialise(name, seen) => SeenWell(l, w, w.save.value.current.value.shard, name, seen)
    case Unmark => MarkIdle(l, w, w.eviction.value.shard)
    case Unload =>
      var shard := w.eviction.value.shard;
      Busy(l, w, shard) || (shard !in w.store.dirty && shard !in Owed(w.save))
    case _ => true
  }

  lemma LoadKeepsIff<N(!new), K(!new), V>(l: Layout<N, K>, w: World<N, K, V>, i: nat, empty: V)
    requires Inv(l, w) && Enabled(l, w, Load(i))
    ensures Inv(l, Next(l, w, Load(i), empty)) <==> Harmless(l, w, Load(i), empty)
  {
    var v := AfterLoad(l, w, i);
    if Evicted(w.store, l.shardOf(w.writers[i].name)) {
      FirstLoadKeeps(l, w, i);
    } else if Reloads(l, w, i) {
      ReloadKeepsIff(l, w, i);
    } else {
      WaitingKeeps(l, w, v, i, v.writers[i]);
    }
  }

  lemma BetweenSavesKeeps<N(!new), K(!new), V>(l: Layout<N, K>, w: World<N, K, V>, step: Step<N, K, V>, empty: V)
    requires Inv(l, w) && Enabled(l, w, step) && (step.List? || step.EndSave? || step.Unflag?)
    ensures Inv(l, Next(l, w, step, empty))
  {
    var v := Next(l, w, step, empty);
    assert Loose(l, v) == Loose(l, w);
    if step.Unflag? { SameSave(l, w, v); }
  }

  lemma WriterStepKeepsIff<N(!new), K(!new), V>(l: Layout<N, K>, w: World<N, K, V>, step: Step<N, K, V>, empty: V)
    requires Inv(l, w) && Enabled(l, w, step)
    requires step.Seek? || step.Load? || step.Flag? || step.Find? || step.Register? || step.Enter? || step.Record? ||
             step.Mark? || step.Release?
    ensures Inv(l, Next(l, w, step, empty)) <==> Harmless(l, w, step, empty)
  {
    match step
    case Seek(i, name) => SeekKeeps(l, w, i, name, empty);
    case Load(i) => LoadKeepsIff(l, w, i, empty);
    case Flag(i) => FlagKeepsIff(l, w, i, empty);
    case Find(i) => FindKeeps(l, w, i, empty);
    case Register(i) => RegisterKeepsIff(l, w, i, empty);
    case Enter(i) => EnterKeeps(l, w, i, empty);
    case Record(i, change) => RecordKeeps(l, w, i, change, empty);
    case Mark(i) => MarkStepKeeps(l, w, i, empty);
    case Release(i) => ReleaseKeeps(l, w, i, empty);
  }

  /** A step keeps everything if and only if it is harmless. */
  lemma StepKeepsIff<N(!new), K(!new), V>(l: Layout<N, K>, w: World<N, K, V>, step: Step<N, K, V>, empty: V)
    requires l.shardOf(l.tally) == l.pinned
    requires Inv(l, w) && Enabled(l, w, step)
    ensures Inv(l, Next(l, w, step, empty)) <==> Harmless(l, w, step, empty)
  {
    match step
    case List => BetweenSavesKeeps(l, w, step, empty);
    case Take(all) => TakeKeepsIff(l, w, all, empty);
    case StartShard(shard) => StartShardKeeps(l, w, shard, empty);
    case Serialise(name, seen) => SerialiseKeepsIff(l, w, name, seen, empty);
    case FinishShard => FinishShardKeeps(l, w, empty);
    case RemoveStale(shard) => RemoveStaleKeeps(l, w, shard, empty);
    case EndSave => BetweenSavesKeeps(l, w, step, empty);
    case SaveIdle(shard, content) => SaveIdleKeeps(l, w, shard, content, empty);
    case Unmark => UnmarkKeepsIff(l, w, empty);
    case Unload => UnloadKeepsIff(l, w, empty);
    case Unflag => BetweenSavesKeeps(l, w, step, empty);
    case _ => WriterStepKeepsIff(l, w, step, empty);
  }

  // ---------------------------------------------------------------------
  // Whole runs.
  // ---------------------------------------------------------------------

  ghost predicate Possible<N(!new), K, V>(l: Layout<N, K>, w: World<N, K, V>, steps: seq<Step<N, K, V>>, empty: V)
    decreases |steps|
  {
    |steps| > 0 ==> Enabled(l, w, steps[0]) && Possible(l, Next(l, w, steps[0], empty), steps[1..], empty)
  }

  /** A possible run of harmless steps. */
  ghost predicate Careful<N(!new), K(!new), V>(l: Layout<N, K>, w: World<N, K, V>, steps: seq<Step<N, K, V>>, empty: V)
    decreases |steps|
  {
    |steps| > 0 ==>
      && Enabled(l, w, steps[0]) && Harmless(l, w, steps[0], empty)
      && Careful(l, Next(l, w, steps[0], empty), steps[1..], empty)
  }

  ghost function Run<N(!new), K, V>(l: Layout<N, K>, w: World<N, K, V>, steps: seq<Step<N, K, V>>, empty: V)
    : World<N, K, V>
    requires Possible(l, w, steps, empty)
    decreases |steps|
  {
    if |steps| == 0 then w else Run(l, Next(l, w, steps[0], empty), steps[1..], empty)
  }

  lemma {:induction false} RunKeeps<N(!new), K(!new), V>(l: Layout<N, K>, w: World<N, K, V>, steps: seq<Step<N, K, V>>,
                                                         empty: V)
    requires l.shardOf(l.tally) == l.pinned
    requires Inv(l, w) && Careful(l, w, steps, empty)
    ensures Possible(l, w, steps, empty) && Inv(l, Run(l, w, steps, empty))
    decreases |steps|
  {
    if |steps| > 0 {
      StepKeepsIff(l, w, steps[0], empty);
      RunKeeps(l, Next(l, w, steps[0], empty), steps[1..], empty);
    }
  }

  function Start<N, K, V>(l: Layout<N, K>, s: State<N, K, V>): World<N, K, V>
  {
    World(s, {}, map[], 1, map[], None, None, Flatten(l, s))
  }

  lemma StartIsSound<N(!new), K(!new), V>(l: Layout<N, K>, s: State<N, K, V>)
    requires Tiered(l, s, {})
    ensures Inv(l, Start(l, s))
  {
    assert Loose(l, Start(l, s)) == {};
  }

  /** In every run of harmless steps, from any sound database, nothing recorded
      is ever lost: the tiers stand for exactly what one flat map would hold. */
  lemma HarmlessRunLosesNothing<N(!new), K(!new), V>(l: Layout<N, K>, s: State<N, K, V>, steps: seq<Step<N, K, V>>,
                                                     empty: V)
    requires l.shardOf(l.tally) == l.pinned && Tiered(l, s, {})
    requires Careful(l, Start(l, s), steps, empty)
    ensures Possible(l, Start(l, s), steps, empty)
    ensures var w := Run(l, Start(l, s), steps, empty);
            && Flatten(l, w.store) == w.ideal
            && (forall shard :: !Evicted(w.store, shard) && !Agrees(l, w.store, shard) ==>
                  shard in w.store.dirty || shard in Owed(w.save) || shard in Pending(l, w.writers))
  {
    StartIsSound(l, s);
    RunKeeps(l, Start(l, s), steps, empty);
    var w := Run(l, Start(l, s), steps, empty);
    forall shard | !Evicted(w.store, shard) && !Agrees(l, w.store, shard)
      ensures shard in w.store.dirty || shard in Owed(w.save) || shard in Pending(l, w.writers)
    {
      assert ShardSound(l, w.store, Loose(l, w), shard);
    }
  }

  /** Once the writers are done, no save is running and nothing is dirty, the
      files alone hold every recorded sighting outside the tally. */
  lemma HarmlessRunFilesEverything<N(!new), K(!new), V>(l: Layout<N, K>, s: State<N, K, V>, steps: seq<Step<N, K, V>>,
                                                      empty: V, n: N)
    requires l.shardOf(l.tally) == l.pinned && Tiered(l, s, {})
    requires Careful(l, Start(l, s), steps, empty) && Possible(l, Start(l, s), steps, empty)
    requires var w := Run(l, Start(l, s), steps, empty); w.writers == map[] && w.save.None? && w.store.dirty == {}
    ensures var w := Run(l, Start(l, s), steps, empty);
            && (n in Tiers.Loaded(l, w.store.files) <==> n in w.ideal)
            && (n in w.ideal && n != l.tally ==> Tiers.Loaded(l, w.store.files)[n] == w.ideal[n])
  {
    StartIsSound(l, s);
    RunKeeps(l, Start(l, s), steps, empty);
    var w := Run(l, Start(l, s), steps, empty);
    assert Loose(l, w) == {};
    FilesHoldAllButTally(l, w.store, n);
  }

  // ---------------------------------------------------------------------
  // What is harmless when nothing comes in between.
  // ---------------------------------------------------------------------

  lemma CarefulFrom<N(!new), K(!new), V>(l: Layout<N, K>, w: World<N, K, V>, steps: seq<Step<N, K, V>>, k: nat,
                                         empty: V)
    requires k < |steps| && Enabled(l, w, steps[k]) && Harmless(l, w, steps[k], empty)
    requires k + 1 == |steps| || Careful(l, Next(l, w, steps[k], empty), steps[k + 1..], empty)
    ensures Careful(l, w, steps[k..], empty)
    ensures k == 0 ==> Careful(l, w, steps, empty)
  {
    assert steps[k..][1..] == steps[k + 1..] && (k == 0 ==> steps[k..] == steps);
  }

  /** A page-in in one go. */
  lemma PageInInOneGo<N(!new), K(!new), V>(l: Layout<N, K>, w: World<N, K, V>, i: nat, empty: V)
    requires Inv(l, w) && Waiting(w.writers, i)
    requires var shard := l.shardOf(w.writers[i].name); Evicted(w.store, shard) && !Flagged(w, shard)
    ensures Careful(l, w, [Load(i), Flag(i)], empty)
  {
    var shard := l.shardOf(w.writers[i].name);
    var v := Next(l, w, Load(i), empty);
    assert v == AfterLoad(l, w, i) && !Evicted(v.store, shard);
    var steps: seq<Step<N, K, V>> := [Load(i), Flag(i)];
    CarefulFrom(l, v, steps, 1, empty);
    CarefulFrom(l, w, steps, 0, empty);
  }

  /** A save's list and the dirty set taken in one go. */
  lemma SaveBegunInOneGo<N(!new), K(!new), V>(l: Layout<N, K>, w: World<N, K, V>, all: bool, empty: V)
    requires Inv(l, w) && w.save.None?
    ensures Careful(l, w, [List, Take(all)], empty)
  {
    var v := Next(l, w, List, empty);
    ListIsGood(l, w, all);
    var steps: seq<Step<N, K, V>> := [List, Take(all)];
    CarefulFrom(l, v, steps, 1, empty);
    CarefulFrom(l, w, steps, 0, empty);
  }

  lemma SavedIsIdle<N(!new), K(!new), V>(l: Layout<N, K>, w: World<N, K, V>, v: World<N, K, V>, shard: K)
    requires Inv(l, w) && !Evicted(w.store, shard) && shard !in Owed(w.save)
    requires v.save == w.save && v.writers == w.writers
    requires v.store == if shard in w.store.dirty then FileWritten(l, w.store, shard) else w.store
    ensures MarkIdle(l, v, shard)
  {
    if shard in w.store.dirty { WriteFileKeeps(l, w.store, shard, Loose(l, w)); }
  }

  /** An eviction in one go, of a shard no running save owes a write. */
  lemma EvictionInOneGo<N(!new), K(!new), V>(l: Layout<N, K>, w: World<N, K, V>, shard: K, empty: V)
    requires l.shardOf(l.tally) == l.pinned
    requires Inv(l, w) && w.eviction.None? && Flagged(w, shard) && shard != l.pinned && shard !in Owed(w.save)
    ensures Careful(l, w, [SaveIdle(shard, Snapshot(l, w.store.namespaces, shard)), Unmark, Unload], empty)
  {
    var save: Step<N, K, V> := SaveIdle(shard, Snapshot(l, w.store.namespaces, shard));
    var v := Next(l, w, save, empty);
    var u := Next(l, v, Unmark, empty);
    SavedIsIdle(l, w, v, shard);
    var steps: seq<Step<N, K, V>> := [save, Unmark, Unload];
    CarefulFrom(l, u, steps, 2, empty);
    CarefulFrom(l, v, steps, 1, empty);
    CarefulFrom(l, w, steps, 0, empty);
  }

  // ---------------------------------------------------------------------
  // What must not come in between.
  // ---------------------------------------------------------------------

  /** Exactly which evictions must not fall between a page-in and the
      registration it was for: those that drop a shard holding anything else, or
      holding anything under that very name. */
  lemma EvictionBetweenIff<N(!new), K(!new), V>(l: Layout<N, K>, w: World<N, K, V>, i: nat, empty: V)
    requires l.shardOf(l.tally) == l.pinned
    requires Inv(l, w) && Enabled(l, w, Unload) && Harmless(l, w, Unload, empty) && At(w.writers, i, Ready)
    requires l.shardOf(w.writers[i].name) == w.eviction.value.shard
    ensures var name, shard := w.writers[i].name, w.eviction.value.shard;
            Inv(l, Next(l, Next(l, w, Unload, empty), Register(i), empty)) <==>
            || Busy(l, w, shard)
            || (Catalogue(w.store, shard) <= {name} &&
                (name in w.store.namespaces ==> w.store.namespaces[name] == empty))
  {
    var v := Next(l, w, Unload, empty);
    UnloadKeepsIff(l, w, empty);
    RegisterKeepsIff(l, v, i, empty);
    if !Busy(l, w, w.eviction.value.shard) { DroppedMisses(l, w, v, w.writers[i].name, empty); }
  }

  lemma DroppedMisses<N(!new), K(!new), V>(l: Layout<N, K>, w: World<N, K, V>, v: World<N, K, V>, name: N, empty: V)
    requires Inv(l, w) && Inv(l, v) && w.ideal == v.ideal && v.store == Dropped(l, w.store, l.shardOf(name))
    requires l.shardOf(name) in w.store.shards && !Evicted(w.store, l.shardOf(name))
    ensures NothingToMiss(l, v.store, name, empty) <==>
            && Catalogue(w.store, l.shardOf(name)) <= {name}
            && (name in w.store.namespaces ==> w.store.namespaces[name] == empty)
  {
    assert NameSound(l, w.store, name) && NameSound(l, v.store, name);
    assert ShardSound(l, v.store, Loose(l, v), l.shardOf(name));
    FlattenAt(l, w.store, name);
    FlattenAt(l, v.store, name);
  }

  /** And between the two halves of the page-in: those that drop anything at all. */
  lemma EvictionInsideIff<N(!new), K(!new), V>(l: Layout<N, K>, w: World<N, K, V>, i: nat, empty: V)
    requires l.shardOf(l.tally) == l.pinned
    requires Inv(l, w) && Enabled(l, w, Unload) && Harmless(l, w, Unload, empty) && At(w.writers, i, Loaded)
    requires l.shardOf(w.writers[i].name) == w.eviction.value.shard
    ensures var shard := w.eviction.value.shard;
            Inv(l, Next(l, Next(l, w, Unload, empty), Flag(i), empty)) <==>
            Busy(l, w, shard) || Catalogue(w.store, shard) == {}
  {
    UnloadKeepsIff(l, w, empty);
    FlagKeepsIff(l, Next(l, w, Unload, empty), i, empty);
  }
}
