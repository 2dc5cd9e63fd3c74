/** What a schedule of writers, saves and evictions has to keep apart so that
    nothing recorded is lost (src/db.rs:1758-1902, 1957-2034;
    src/persistence.rs:107-176; src/main.rs:744-801).

    The rules speak of who is in the middle of what, never of what memory or a
    file holds. */
module Schedules {
  import opened Options
  import opened Tiers
  import opened Interleaving

  // ---------------------------------------------------------------------
  // The rules.
  // ---------------------------------------------------------------------

  predicate BeingEvicted<N, K(==), V>(w: World<N, K, V>, shard: K)
  {
    w.eviction.Some? && w.eviction.value.shard == shard
  }

  /** A writer is at this point, for this shard. */
  predicate SomeoneAt<N, K(==)>(l: Layout<N, K>, writers: map<nat, Writer<N>>, shard: K, phase: Phase)
  {
    exists i :: i in writers && At(writers, i, phase) && l.shardOf(writers[i].name) == shard
  }

  predicate OnlyListed<N, K, V>(w: World<N, K, V>)
  {
    w.save.Some? && w.save.value.Listed?
  }

  /** One page-in at a time in a shard, and none while it is evicted. No mark in a
      shard while it is evicted, nor between a save's two reads; no eviction there
      either. And no eviction of a shard a running save owes a write, or in which
      a writer is between paging in and registering. An eviction writes what is
      there, unless a writer who has yet to mark it was changing it meanwhile. */
  predicate Orderly<N, K(==), V(==)>(l: Layout<N, K>, w: World<N, K, V>, step: Step<N, K, V>)
  {
    match step
    case Load(i) =>
      i in w.writers ==>
        var shard := l.shardOf(w.writers[i].name);
        !BeingEvicted(w, shard) && !SomeoneAt(l, w.writers, shard, Loaded)
    case Mark(i) => i in w.writers ==> !BeingEvicted(w, l.shardOf(w.writers[i].name)) && !OnlyListed(w)
    case List => w.eviction.None?
    case SaveIdle(shard, content) =>
      && !OnlyListed(w) && shard !in Owed(w.save)
      && !SomeoneAt(l, w.writers, shard, Loaded) && !SomeoneAt(l, w.writers, shard, Ready)
      && (content == Snapshot(l, w.store.namespaces, shard) || shard in Pending(l, w.writers))
    case _ => true
  }

  // ---------------------------------------------------------------------
  // What the rules keep.
  // ---------------------------------------------------------------------

  /** Whoever has paged a shard in still finds it there. */
  ghost predicate PagedInStays<N, K, V>(l: Layout<N, K>, w: World<N, K, V>)
  {
    forall i :: At(w.writers, i, Loaded) || At(w.writers, i, Ready) ==> PagedInAt(l, w, w.writers[i].name)
  }

  ghost predicate PagedInAt<N, K, V>(l: Layout<N, K>, w: World<N, K, V>, name: N)
  {
    !Evicted(w.store, l.shardOf(name)) && !BeingEvicted(w, l.shardOf(name))
  }

  /** A shard in memory and not yet called resident has someone about to do so. */
  ghost predicate FlagsFollow<N, K, V>(l: Layout<N, K>, w: World<N, K, V>)
  {
    forall shard :: shard in w.unflagged ==> SomeoneAt(l, w.writers, shard, Loaded)
  }

  /** How far the running eviction has got. */
  ghost predicate EvictionAlone<N(!new), K, V>(l: Layout<N, K>, w: World<N, K, V>)
  {
    w.eviction.Some? ==>
      var shard := w.eviction.value.shard;
      match w.eviction.value.stage
      case Saved =>
        && shard !in Owed(w.save)
        && (shard !in w.store.dirty || shard in Pending(l, w.writers) || Agrees(l, w.store, shard))
      case Unmarked => shard !in Owed(w.save) && shard !in w.store.dirty
      case Unloaded => Evicted(w.store, shard)
  }

  ghost predicate ListHolds<N(!new), K(!new), V>(l: Layout<N, K>, w: World<N, K, V>)
  {
    OnlyListed(w) ==> w.eviction.None? && ListStillGood(l, w, w.save.value.present, true)
  }

  /** A save still holds what it has yet to read. */
  ghost predicate HeldByTheSave<N, K, V>(w: World<N, K, V>)
  {
    Reading(w) ==> forall n :: n in w.save.value.current.value.unread ==> Holds(w, w.save.value.current.value, n)
  }

  ghost predicate Tidy<N(!new), K(!new), V>(l: Layout<N, K>, w: World<N, K, V>)
  {
    PagedInStays(l, w) && FlagsFollow(l, w) && EvictionAlone(l, w) && ListHolds(l, w) && HeldByTheSave(w)
  }

  /** So an orderly step is harmless. */
  lemma OrderlyIsHarmless<N(!new), K(!new), V>(l: Layout<N, K>, w: World<N, K, V>, step: Step<N, K, V>, empty: V)
    requires Inv(l, w) && Tidy(l, w) && Enabled(l, w, step) && Orderly(l, w, step)
    ensures Harmless(l, w, step, empty)
  {
    match step
    case Load(i) => NoReload(l, w, i);
    case Flag(i) => assert PagedInAt(l, w, w.writers[i].name);
    case Register(i) => assert PagedInAt(l, w, w.writers[i].name);
    case Unmark => UnmarkIsHarmless(l, w);
    case _ =>
  }

  lemma NoReload<N(!new), K(!new), V>(l: Layout<N, K>, w: World<N, K, V>, i: nat)
    requires Tidy(l, w) && Waiting(w.writers, i) && Orderly(l, w, Load(i))
    ensures !Reloads(l, w, i)
  {
  }

  lemma UnmarkIsHarmless<N(!new), K(!new), V>(l: Layout<N, K>, w: World<N, K, V>)
    requires EvictionAlone(l, w) && Evicting(w, Saved)
    ensures MarkIdle(l, w, w.eviction.value.shard)
  {
  }

  // ---------------------------------------------------------------------
  // Every orderly step keeps it so.
  // ---------------------------------------------------------------------

  lemma StillThere<N(!new), K(!new), V>(l: Layout<N, K>, w: World<N, K, V>, step: Step<N, K, V>, shard: K, empty: V)
    requires Enabled(l, w, step) && !Evicted(w.store, shard) && !(step.Unload? && BeingEvicted(w, shard))
    ensures !Evicted(Next(l, w, step, empty).store, shard)
  {
  }

  lemma OnlySaveIdleEvicts<N(!new), K(!new), V>(l: Layout<N, K>, w: World<N, K, V>, step: Step<N, K, V>, shard: K,
                                                empty: V)
    requires Enabled(l, w, step) && BeingEvicted(Next(l, w, step, empty), shard)
    ensures BeingEvicted(w, shard) || (step.SaveIdle? && step.shard == shard)
  {
  }

  /** Only its own step moves a writer. */
  lemma OthersWait<N(!new), K(!new), V>(l: Layout<N, K>, w: World<N, K, V>, step: Step<N, K, V>, i: nat, empty: V)
    requires Enabled(l, w, step) && i in Next(l, w, step, empty).writers
    ensures var v := Next(l, w, step, empty);
            || (i in w.writers && v.writers[i] == w.writers[i])
            || (step.Seek? && step.i == i && !At(v.writers, i, Loaded) && !At(v.writers, i, Ready))
            || (i in w.writers && v.writers[i].name == w.writers[i].name &&
                ((step == Load(i) && !At(w.writers, i, Loaded)) || (step == Flag(i) && At(v.writers, i, Ready)) ||
                 HasHandle(v.writers[i].phase)))
  {
  }

  lemma PagedInStep<N(!new), K(!new), V>(l: Layout<N, K>, w: World<N, K, V>, step: Step<N, K, V>, i: nat, empty: V)
    requires Enabled(l, w, step) && Orderly(l, w, step) && PagedInStays(l, w)
    requires var v := Next(l, w, step, empty); At(v.writers, i, Loaded) || At(v.writers, i, Ready)
    ensures var v := Next(l, w, step, empty); PagedInAt(l, v, v.writers[i].name)
  {
    var v := Next(l, w, step, empty);
    OthersWait(l, w, step, i, empty);
    var shard := l.shardOf(v.writers[i].name);
    if step == Load(i) {
      LoadedIsThere(l, w, i);
    } else {
      assert PagedInAt(l, w, w.writers[i].name);
      StillThere(l, w, step, shard, empty);
    }
    if BeingEvicted(v, shard) { OnlySaveIdleEvicts(l, w, step, shard, empty); }
  }

  lemma LoadedIsThere<N(!new), K(!new), V>(l: Layout<N, K>, w: World<N, K, V>, i: nat)
    requires i in w.writers && !BeingEvicted(w, l.shardOf(w.writers[i].name))
    ensures !Evicted(AfterLoad(l, w, i).store, l.shardOf(w.writers[i].name))
  {
  }

  /** Whoever was about to call the shard resident still is, or has done so. */
  lemma FlagsFollowStep<N(!new), K(!new), V>(l: Layout<N, K>, w: World<N, K, V>, step: Step<N, K, V>, shard: K,
                                             empty: V)
    requires Enabled(l, w, step) && Tidy(l, w) && shard in Next(l, w, step, empty).unflagged
    ensures SomeoneAt(l, Next(l, w, step, empty).writers, shard, Loaded)
  {
    if shard in w.unflagged {
      StillToFlag(l, w, step, shard, empty);
    } else {
      NewlyUnflagged(l, w, step, shard, empty);
    }
  }

  lemma StillToFlag<N(!new), K(!new), V>(l: Layout<N, K>, w: World<N, K, V>, step: Step<N, K, V>, shard: K, empty: V)
    requires Enabled(l, w, step) && SomeoneAt(l, w.writers, shard, Loaded)
    requires shard in Next(l, w, step, empty).unflagged
    ensures SomeoneAt(l, Next(l, w, step, empty).writers, shard, Loaded)
  {
    var v := Next(l, w, step, empty);
    var i :| i in w.writers && At(w.writers, i, Loaded) && l.shardOf(w.writers[i].name) == shard;
    assert At(v.writers, i, Loaded) && v.writers[i].name == w.writers[i].name;
  }

  lemma NewlyUnflagged<N(!new), K(!new), V>(l: Layout<N, K>, w: World<N, K, V>, step: Step<N, K, V>, shard: K, empty: V)
    requires Enabled(l, w, step) && Tidy(l, w) && shard !in w.unflagged && shard in Next(l, w, step, empty).unflagged
    ensures step.Load? && At(Next(l, w, step, empty).writers, step.i, Loaded)
    ensures l.shardOf(w.writers[step.i].name) == shard
  {
  }

  /** Only a mark takes a shard off those held unmarked. */
  lemma PendingStays<N(!new), K(!new), V>(l: Layout<N, K>, w: World<N, K, V>, step: Step<N, K, V>, shard: K, empty: V)
    requires Enabled(l, w, step) && shard in Pending(l, w.writers)
    requires step.Mark? ==> l.shardOf(w.writers[step.i].name) != shard
    ensures shard in Pending(l, Next(l, w, step, empty).writers)
  {
    var v := Next(l, w, step, empty);
    var i :| i in w.writers && YetToMark(w.writers[i].phase) && l.shardOf(w.writers[i].name) == shard;
    assert i in v.writers && YetToMark(v.writers[i].phase) && v.writers[i].name == w.writers[i].name;
  }

  /** The shard's file, names and contents are as they were. */
  ghost predicate ShardSame<N(!new), K, V>(l: Layout<N, K>, s: State<N, K, V>, t: State<N, K, V>, shard: K)
  {
    && FileOf(t, shard) == FileOf(s, shard) && Catalogue(t, shard) == Catalogue(s, shard)
    && (forall n :: l.shardOf(n) == shard && n in t.namespaces ==>
          n in s.namespaces && t.namespaces[n] == s.namespaces[n])
  }

  /** Steps that change nothing of the store but marks. */
  predicate Quiet<N, K, V>(step: Step<N, K, V>)
  {
    step.Seek? || step.Find? || step.Enter? || step.Mark? || step.Release? || step.List? || step.Take? ||
    step.StartShard? || step.Serialise? || step.EndSave? || step.Unmark? || step.Unflag?
  }

  lemma QuietStore<N(!new), K(!new), V>(l: Layout<N, K>, w: World<N, K, V>, step: Step<N, K, V>, empty: V)
    requires Enabled(l, w, step) && Quiet(step)
    ensures var v := Next(l, w, step, empty); v.store == w.store.(dirty := v.store.dirty) && v.ids == w.ids
  {
  }

  /** A shard nobody pages in, registers in or records in, and no save writes. */
  lemma UntouchedShard<N(!new), K(!new), V>(l: Layout<N, K>, w: World<N, K, V>, step: Step<N, K, V>, shard: K, empty: V)
    requires Inv(l, w) && Enabled(l, w, step) && shard !in Owed(w.save) && !step.SaveIdle? && !step.Unload?
    requires (step.Load? || step.Flag? || step.Register? || step.Record?) ==> l.shardOf(w.writers[step.i].name) != shard
    ensures ShardSame(l, w.store, Next(l, w, step, empty).store, shard)
  {
    if step.Load? { UntouchedByLoad(l, w, step.i, shard); } else { UntouchedByOthers(l, w, step, shard, empty); }
  }

  lemma UntouchedByOthers<N(!new), K(!new), V>(l: Layout<N, K>, w: World<N, K, V>, step: Step<N, K, V>, shard: K,
                                               empty: V)
    requires Enabled(l, w, step) && shard !in Owed(w.save) && !step.Load? && !step.SaveIdle? && !step.Unload?
    requires (step.Flag? || step.Register? || step.Record?) ==> l.shardOf(w.writers[step.i].name) != shard
    ensures ShardSame(l, w.store, Next(l, w, step, empty).store, shard)
  {
    if Quiet(step) { QuietStore(l, w, step, empty); }
  }

  lemma UntouchedByLoad<N(!new), K(!new), V>(l: Layout<N, K>, w: World<N, K, V>, i: nat, shard: K)
    requires Inv(l, w) && i in w.writers && l.shardOf(w.writers[i].name) != shard
    ensures ShardSame(l, w.store, AfterLoad(l, w, i).store, shard)
  {
    assert ShardSound(l, w.store, Loose(l, w), l.shardOf(w.writers[i].name));
  }

  /** The save comes to owe nothing it did not, but by taking the dirty set. */
  lemma OwedStays<N(!new), K(!new), V>(l: Layout<N, K>, w: World<N, K, V>, step: Step<N, K, V>, shard: K, empty: V)
    requires Enabled(l, w, step) && !step.Take? && shard !in Owed(w.save)
    ensures shard !in Owed(Next(l, w, step, empty).save)
  {
  }

  lemma SavedStays<N(!new), K(!new), V>(l: Layout<N, K>, w: World<N, K, V>, step: Step<N, K, V>, empty: V)
    requires Inv(l, w) && Tidy(l, w) && Enabled(l, w, step) && Orderly(l, w, step)
    requires Evicting(w, Saved) && !step.Unmark?
    ensures EvictionAlone(l, Next(l, w, step, empty))
  {
    var v, shard := Next(l, w, step, empty), w.eviction.value.shard;
    OwedStays(l, w, step, shard, empty);
    if shard in Pending(l, w.writers) {
      PendingStays(l, w, step, shard, empty);
    } else {
      assert step.Record? ==> l.shardOf(w.writers[step.i].name) in Pending(l, w.writers);
      if step.Flag? || step.Register? { assert PagedInAt(l, w, w.writers[step.i].name); }
      UntouchedShard(l, w, step, shard, empty);
      if Agrees(l, w.store, shard) { SavedAgrees(l, w, v, shard); }
      if shard in v.store.dirty { DirtyOnlyByMark(l, w, step, shard, empty); }
    }
  }

  lemma SavedAgrees<N(!new), K(!new), V>(l: Layout<N, K>, w: World<N, K, V>, v: World<N, K, V>, shard: K)
    requires Inv(l, w) && Agrees(l, w.store, shard) && ShardSame(l, w.store, v.store, shard)
    ensures Agrees(l, v.store, shard)
  {
    assert ShardSound(l, w.store, Loose(l, w), shard);
  }

  lemma DirtyOnlyByMark<N(!new), K(!new), V>(l: Layout<N, K>, w: World<N, K, V>, step: Step<N, K, V>, shard: K,
                                             empty: V)
    requires Enabled(l, w, step) && shard in Next(l, w, step, empty).store.dirty
    ensures shard in w.store.dirty || (step.Mark? && l.shardOf(w.writers[step.i].name) == shard)
  {
  }

  lemma UnmarkedStays<N(!new), K(!new), V>(l: Layout<N, K>, w: World<N, K, V>, step: Step<N, K, V>, empty: V)
    requires Tidy(l, w) && Enabled(l, w, step) && Orderly(l, w, step) && EvictionSound(l, w)
    requires Evicting(w, Unmarked)
    ensures EvictionAlone(l, Next(l, w, step, empty))
  {
    var v, shard := Next(l, w, step, empty), w.eviction.value.shard;
    if !step.Unload? {
      OwedStays(l, w, step, shard, empty);
      if shard in v.store.dirty { DirtyOnlyByMark(l, w, step, shard, empty); }
    }
  }

  lemma UnloadedStays<N(!new), K(!new), V>(l: Layout<N, K>, w: World<N, K, V>, step: Step<N, K, V>, empty: V)
    requires Tidy(l, w) && Enabled(l, w, step) && Orderly(l, w, step) && Evicting(w, Unloaded)
    ensures EvictionAlone(l, Next(l, w, step, empty))
  {
    if step.Flag? || step.Register? { assert PagedInAt(l, w, w.writers[step.i].name); }
  }

  lemma EvictionBegins<N(!new), K(!new), V>(l: Layout<N, K>, w: World<N, K, V>, shard: K, content: map<N, V>, empty: V)
    requires Inv(l, w) && Enabled(l, w, SaveIdle(shard, content)) && Orderly(l, w, SaveIdle(shard, content))
    ensures EvictionAlone(l, Next(l, w, SaveIdle(shard, content), empty))
  {
    if shard in w.store.dirty && shard !in Pending(l, w.writers) {
      WriteFileKeeps(l, w.store, shard, Loose(l, w));
    }
  }

  lemma EvictionAloneStep<N(!new), K(!new), V>(l: Layout<N, K>, w: World<N, K, V>, step: Step<N, K, V>, empty: V)
    requires Inv(l, w) && Tidy(l, w) && Enabled(l, w, step) && Orderly(l, w, step)
    ensures EvictionAlone(l, Next(l, w, step, empty))
  {
    if w.eviction.None? {
      if step.SaveIdle? { EvictionBegins(l, w, step.shard, step.content, empty); }
    } else {
      match w.eviction.value.stage
      case Saved => if !step.Unmark? { SavedStays(l, w, step, empty); }
      case Unmarked => UnmarkedStays(l, w, step, empty);
      case Unloaded => UnloadedStays(l, w, step, empty);
    }
  }

  /** Until the dirty set is taken nothing listed leaves and nothing new is marked. */
  lemma ListHoldsStep<N(!new), K(!new), V>(l: Layout<N, K>, w: World<N, K, V>, step: Step<N, K, V>, empty: V)
    requires Inv(l, w) && Tidy(l, w) && Enabled(l, w, step) && Orderly(l, w, step)
    ensures ListHolds(l, Next(l, w, step, empty))
  {
    var v := Next(l, w, step, empty);
    if OnlyListed(v) {
      if step.List? {
        ListIsGood(l, w, true);
      } else {
        assert w.save == v.save && w.eviction.None? && v.eviction.None?;
        forall shard | shard in v.save.value.present ensures !Evicted(v.store, shard) {
          StillThere(l, w, step, shard, empty);
        }
        forall shard | shard in v.store.dirty && shard !in v.save.value.present
          ensures Catalogue(v.store, shard) == {} || shard in Pending(l, v.writers)
        {
          ListedStays(l, w, step, shard, empty);
        }
      }
    }
  }

  lemma ListedStays<N(!new), K(!new), V>(l: Layout<N, K>, w: World<N, K, V>, step: Step<N, K, V>, shard: K, empty: V)
    requires Inv(l, w) && Tidy(l, w) && Enabled(l, w, step) && Orderly(l, w, step) && OnlyListed(w) && !step.Take?
    requires shard in Next(l, w, step, empty).store.dirty && shard !in w.save.value.present
    ensures var v := Next(l, w, step, empty); Catalogue(v.store, shard) == {} || shard in Pending(l, v.writers)
  {
    var v := Next(l, w, step, empty);
    DirtyOnlyByMark(l, w, step, shard, empty);
    if shard in Pending(l, w.writers) {
      PendingStays(l, w, step, shard, empty);
    } else if step.Register? && l.shardOf(w.writers[step.i].name) == shard {
      assert YetToMark(v.writers[step.i].phase);
    } else {
      SameNames(l, w, step, shard, empty);
    }
  }

  /** Only a registration adds a name to a shard in memory. */
  lemma SameNames<N(!new), K(!new), V>(l: Layout<N, K>, w: World<N, K, V>, step: Step<N, K, V>, shard: K, empty: V)
    requires Inv(l, w) && Tidy(l, w) && Enabled(l, w, step) && Orderly(l, w, step) && shard in w.store.dirty
    requires step.Register? ==> l.shardOf(w.writers[step.i].name) != shard
    ensures Catalogue(Next(l, w, step, empty).store, shard) == Catalogue(w.store, shard)
  {
    if step.Load? {
      LooseNotEvicted(l, w.store, Loose(l, w), shard);
      NoReload(l, w, step.i);
    } else {
      SameNamesOtherwise(l, w, step, shard, empty);
    }
  }

  lemma SameNamesOtherwise<N(!new), K(!new), V>(l: Layout<N, K>, w: World<N, K, V>, step: Step<N, K, V>, shard: K,
                                                empty: V)
    requires Enabled(l, w, step) && !step.Load? && (step.Register? ==> l.shardOf(w.writers[step.i].name) != shard)
    ensures Catalogue(Next(l, w, step, empty).store, shard) == Catalogue(w.store, shard)
  {
    if Quiet(step) { QuietStore(l, w, step, empty); }
  }

  /** What a save is reading stays in memory, as the objects it holds. */
  lemma HeldStep<N(!new), K(!new), V>(l: Layout<N, K>, w: World<N, K, V>, step: Step<N, K, V>, empty: V)
    requires Inv(l, w) && Tidy(l, w) && Enabled(l, w, step) && Orderly(l, w, step)
    ensures HeldByTheSave(Next(l, w, step, empty))
  {
    var v := Next(l, w, step, empty);
    if Reading(v) && !step.StartShard? {
      StillReading(l, w, step, empty);
      forall n | n in v.save.value.current.value.unread ensures Holds(v, v.save.value.current.value, n) {
        assert Holds(w, w.save.value.current.value, n);
        ObjectStays(l, w, step, n, empty);
      }
    }
  }

  lemma StillReading<N(!new), K(!new), V>(l: Layout<N, K>, w: World<N, K, V>, step: Step<N, K, V>, empty: V)
    requires Inv(l, w) && Enabled(l, w, step) && Reading(Next(l, w, step, empty)) && !step.StartShard?
    ensures Reading(w)
    ensures var c, d := w.save.value.current.value, Next(l, w, step, empty).save.value.current.value;
            d.held == c.held && d.unread <= c.unread && forall n :: n in c.unread ==> l.shardOf(n) in Owed(w.save)
  {
    assert CurrentSound(l, w, w.save.value.current.value);
  }

  lemma ObjectStays<N(!new), K(!new), V>(l: Layout<N, K>, w: World<N, K, V>, step: Step<N, K, V>, n: N, empty: V)
    requires Inv(l, w) && Tidy(l, w) && Enabled(l, w, step) && Orderly(l, w, step)
    requires n in w.store.namespaces && l.shardOf(n) in Owed(w.save)
    ensures var v := Next(l, w, step, empty); n in v.store.namespaces && IdOf(v.ids, n) == IdOf(w.ids, n)
  {
    if Quiet(step) {
      QuietStore(l, w, step, empty);
    } else {
      match step
      case Load(i) =>
        NoReload(l, w, i);
        NotInEvictedFile(l, w, l.shardOf(w.writers[i].name), n);
      case Flag(_) =>
      case Register(_) =>
      case Record(_, _) =>
      case FinishShard =>
      case RemoveStale(_) =>
      case SaveIdle(_, _) =>
      case Unload =>
    }
  }

  lemma NotInEvictedFile<N(!new), K(!new), V>(l: Layout<N, K>, w: World<N, K, V>, shard: K, n: N)
    requires Inv(l, w) && n in w.store.namespaces
    ensures Evicted(w.store, shard) ==> n !in FileOf(w.store, shard)
  {
    assert ShardSound(l, w.store, Loose(l, w), shard) && NameSound(l, w.store, n);
  }

  lemma TidyStep<N(!new), K(!new), V>(l: Layout<N, K>, w: World<N, K, V>, step: Step<N, K, V>, empty: V)
    requires Inv(l, w) && Tidy(l, w) && Enabled(l, w, step) && Orderly(l, w, step)
    ensures Tidy(l, Next(l, w, step, empty))
  {
    var v := Next(l, w, step, empty);
    forall i | At(v.writers, i, Loaded) || At(v.writers, i, Ready) ensures PagedInAt(l, v, v.writers[i].name) {
      PagedInStep(l, w, step, i, empty);
    }
    forall shard | shard in v.unflagged ensures SomeoneAt(l, v.writers, shard, Loaded) {
      FlagsFollowStep(l, w, step, shard, empty);
    }
    EvictionAloneStep(l, w, step, empty);
    ListHoldsStep(l, w, step, empty);
    HeldStep(l, w, step, empty);
  }

  // ---------------------------------------------------------------------
  // Whole runs.
  // ---------------------------------------------------------------------

  /** A possible run that keeps to the rules. */
  ghost predicate OrderlyRun<N(!new), K, V>(l: Layout<N, K>, w: World<N, K, V>, steps: seq<Step<N, K, V>>, empty: V)
    decreases |steps|
  {
    |steps| > 0 ==>
      && Enabled(l, w, steps[0]) && Orderly(l, w, steps[0])
      && OrderlyRun(l, Next(l, w, steps[0], empty), steps[1..], empty)
  }

  lemma {:induction false} OrderlyIsCareful<N(!new), K(!new), V>(l: Layout<N, K>, w: World<N, K, V>,
                                                                 steps: seq<Step<N, K, V>>, empty: V)
    requires l.shardOf(l.tally) == l.pinned
    requires Inv(l, w) && Tidy(l, w) && OrderlyRun(l, w, steps, empty)
    ensures Careful(l, w, steps, empty)
    decreases |steps|
  {
    if |steps| > 0 {
      OrderlyIsHarmless(l, w, steps[0], empty);
      StepKeepsIff(l, w, steps[0], empty);
      TidyStep(l, w, steps[0], empty);
      OrderlyIsCareful(l, Next(l, w, steps[0], empty), steps[1..], empty);
    }
  }

  /** In every run that keeps to the rules, from any sound database, nothing
      recorded is ever lost: the tiers stand for exactly what one flat map would
      hold, and whatever differs from its file is known to. */
  lemma NothingIsLost<N(!new), K(!new), V>(l: Layout<N, K>, s: State<N, K, V>, steps: seq<Step<N, K, V>>, empty: V)
    requires l.shardOf(l.tally) == l.pinned && Tiered(l, s, {})
    requires OrderlyRun(l, Start(l, s), steps, empty)
    ensures Possible(l, Start(l, s), steps, empty)
    ensures var w := Run(l, Start(l, s), steps, empty);
            && Flatten(l, w.store) == w.ideal
            && (forall shard :: !Evicted(w.store, shard) && !Agrees(l, w.store, shard) ==>
                  shard in w.store.dirty || shard in Owed(w.save) || shard in Pending(l, w.writers))
  {
    StartIsSound(l, s);
    OrderlyIsCareful(l, Start(l, s), steps, empty);
    HarmlessRunLosesNothing(l, s, steps, empty);
  }

  /** Once the writers are done, no save is running and nothing is dirty, the
      files alone hold every recorded sighting outside the tally. */
  lemma QuietFilesHoldEverything<N(!new), K(!new), V>(l: Layout<N, K>, s: State<N, K, V>, steps: seq<Step<N, K, V>>,
                                                      empty: V, n: N)
    requires l.shardOf(l.tally) == l.pinned && Tiered(l, s, {})
    requires OrderlyRun(l, Start(l, s), steps, empty) && Possible(l, Start(l, s), steps, empty)
    requires var w := Run(l, Start(l, s), steps, empty); w.writers == map[] && w.save.None? && w.store.dirty == {}
    ensures var w := Run(l, Start(l, s), steps, empty);
            && (n in Tiers.Loaded(l, w.store.files) <==> n in w.ideal)
            && (n in w.ideal && n != l.tally ==> Tiers.Loaded(l, w.store.files)[n] == w.ideal[n])
  {
    StartIsSound(l, s);
    OrderlyIsCareful(l, Start(l, s), steps, empty);
    HarmlessRunFilesEverything(l, s, steps, empty, n);
  }

  // ---------------------------------------------------------------------
  // One at a time.
  // ---------------------------------------------------------------------

  /** A writer that holds a handle or nothing at all; a save that is not between
      its two reads; no eviction under way. */
  predicate WriterRests(phase: Phase)
  {
    phase.Taken? || phase.Recorded? || phase.Marked?
  }

  predicate OtherWritersRest<N>(writers: map<nat, Writer<N>>, i: nat)
  {
    forall j :: j in writers && j != i ==> WriterRests(writers[j].phase)
  }

  predicate WritersRest<N>(writers: map<nat, Writer<N>>)
  {
    forall j :: j in writers ==> WriterRests(writers[j].phase)
  }

  /** Everyone but whoever takes the step rests: getting a handle, starting a save
      and evicting a shard each go through undisturbed, while records, marks,
      releases and the rest of a save come in any order in between. An eviction
      keeps off what a running save owes, and writes what is there. */
  predicate OneAtATime<N(!new), K(==), V(==)>(l: Layout<N, K>, w: World<N, K, V>, step: Step<N, K, V>)
  {
    if OfWriter(step) then OtherWritersRest(w.writers, step.i) && !OnlyListed(w) && w.eviction.None?
    else if OfEviction(step) then
      && WritersRest(w.writers) && !OnlyListed(w)
      && (step.SaveIdle? ==>
            step.shard !in Owed(w.save) && step.content == Snapshot(l, w.store.namespaces, step.shard))
    else WritersRest(w.writers) && w.eviction.None?
  }

  predicate OfWriter<N, K, V>(step: Step<N, K, V>)
  {
    step.Seek? || step.Load? || step.Flag? || step.Find? || step.Register? || step.Enter? || step.Record? ||
    step.Mark? || step.Release?
  }

  predicate OfEviction<N, K, V>(step: Step<N, K, V>)
  {
    step.SaveIdle? || step.Unmark? || step.Unload? || step.Unflag?
  }

  ghost predicate OneAtATimeRun<N(!new), K, V>(l: Layout<N, K>, w: World<N, K, V>, steps: seq<Step<N, K, V>>, empty: V)
    decreases |steps|
  {
    |steps| > 0 ==>
      && Enabled(l, w, steps[0]) && OneAtATime(l, w, steps[0])
      && OneAtATimeRun(l, Next(l, w, steps[0], empty), steps[1..], empty)
  }

  lemma OneAtATimeIsOrderly<N(!new), K(!new), V>(l: Layout<N, K>, w: World<N, K, V>, step: Step<N, K, V>)
    requires Enabled(l, w, step) && OneAtATime(l, w, step)
    ensures Orderly(l, w, step)
  {
  }

  lemma {:induction false} OneAtATimeRunIsOrderly<N(!new), K(!new), V>(l: Layout<N, K>, w: World<N, K, V>,
                                                                       steps: seq<Step<N, K, V>>, empty: V)
    requires OneAtATimeRun(l, w, steps, empty)
    ensures OrderlyRun(l, w, steps, empty)
    decreases |steps|
  {
    if |steps| > 0 {
      OneAtATimeIsOrderly(l, w, steps[0]);
      OneAtATimeRunIsOrderly(l, Next(l, w, steps[0], empty), steps[1..], empty);
    }
  }
}
