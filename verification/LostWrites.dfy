/** Runs in which the steps of `Interleaving` lose what was recorded (src/db.rs:1758-1902, 1993-2034;
    src/persistence.rs:107-155). */
module LostWrites {
  import opened Options
  import opened Tiers
  import opened Interleaving

  // ---------------------------------------------------------------------
  // Putting runs together.
  // ---------------------------------------------------------------------

  ghost predicate Goes<N(!new), K, V>(l: Layout<N, K>, w: World<N, K, V>, step: Step<N, K, V>, v: World<N, K, V>,
                                      empty: V)
  {
    Enabled(l, w, step) && v == Next(l, w, step, empty)
  }

  /** The steps are possible, and end in `v`. */
  ghost predicate Leads<N(!new), K, V>(l: Layout<N, K>, w: World<N, K, V>, steps: seq<Step<N, K, V>>, v: World<N, K, V>,
                                       empty: V)
  {
    Possible(l, w, steps, empty) && Run(l, w, steps, empty) == v
  }

  lemma LeadsFirst<N(!new), K, V>(l: Layout<N, K>, w: World<N, K, V>, steps: seq<Step<N, K, V>>, u: World<N, K, V>,
                                  v: World<N, K, V>, empty: V)
    requires |steps| > 0 && Goes(l, w, steps[0], u, empty) && Leads(l, u, steps[1..], v, empty)
    ensures Leads(l, w, steps, v, empty)
  {
  }

  lemma {:induction false} LeadsThen<N(!new), K, V>(l: Layout<N, K>, w: World<N, K, V>, first: seq<Step<N, K, V>>,
                                                    u: World<N, K, V>, rest: seq<Step<N, K, V>>, v: World<N, K, V>,
                                                    empty: V)
    requires Leads(l, w, first, u, empty) && Leads(l, u, rest, v, empty)
    ensures Leads(l, w, first + rest, v, empty)
    decreases |first|
  {
    if first == [] {
      assert first + rest == rest;
    } else {
      var after := Next(l, w, first[0], empty);
      assert (first + rest)[1..] == first[1..] + rest;
      LeadsThen(l, after, first[1..], u, rest, v, empty);
      LeadsFirst(l, w, first + rest, after, v, empty);
    }
  }

  lemma LeadsOne<N(!new), K, V>(l: Layout<N, K>, w: World<N, K, V>, a: Step<N, K, V>, v: World<N, K, V>, empty: V)
    requires Goes(l, w, a, v, empty)
    ensures Leads(l, w, [a], v, empty)
  {
    assert [a][1..] == [];
    LeadsFirst(l, w, [a], v, v, empty);
  }

  lemma LeadsTwo<N(!new), K, V>(l: Layout<N, K>, w: World<N, K, V>, a: Step<N, K, V>, u: World<N, K, V>,
                                b: Step<N, K, V>, v: World<N, K, V>, empty: V)
    requires Goes(l, w, a, u, empty) && Goes(l, u, b, v, empty)
    ensures Leads(l, w, [a, b], v, empty)
  {
    assert [a, b][1..] == [b];
    LeadsOne(l, u, b, v, empty);
    LeadsFirst(l, w, [a, b], u, v, empty);
  }

  /** Expected, and not to be found. */
  ghost predicate Lost<N, K, V>(l: Layout<N, K>, w: World<N, K, V>, n: N)
  {
    n in w.ideal && n !in Flatten(l, w.store)
  }

  // ---------------------------------------------------------------------
  // A second page-in before the first has called the shard resident.
  // ---------------------------------------------------------------------

  /** A page-in of a shard the catalogue does not call resident makes new objects
      of all its file names, whatever is in memory. */
  lemma LoadRestores<N(!new), K(!new), V>(l: Layout<N, K>, w: World<N, K, V>, i: nat, n: N)
    requires Waiting(w.writers, i)
    requires var shard := l.shardOf(w.writers[i].name);
             shard in w.store.shards && !Flagged(w, shard) && n in FileOf(w.store, shard)
    ensures var v, shard := AfterLoad(l, w, i), l.shardOf(w.writers[i].name);
            && n in v.store.namespaces && v.store.namespaces[n] == FileOf(w.store, shard)[n]
            && IdOf(v.ids, n) == w.next && v.ideal == w.ideal && v.unflagged == w.unflagged + {shard}
            && shard in v.store.shards && v.store.files == w.store.files && v.next == w.next + 1
            && v.eviction == w.eviction && v.writers == Advanced(w.writers, i, Loaded)
  {
  }

  /** Two writers have looked in vain, the first has put the shard's contents into
      memory, and a third has found its namespace there. */
  ghost predicate HalfPagedIn<N, K, V>(l: Layout<N, K>, s: State<N, K, V>, w: World<N, K, V>, name: N)
  {
    var shard := l.shardOf(name);
    && shard in w.store.shards && shard in w.unflagged && w.eviction.None?
    && w.store.files == s.files && w.ideal == Flatten(l, s)
    && name in w.store.namespaces && name in FileOf(s, shard) && w.store.namespaces[name] == FileOf(s, shard)[name]
    && At(w.writers, 1, Seeking) && w.writers[1].name == name
    && At(w.writers, 2, Taken) && w.writers[2].name == name && Live(w, w.writers[2]) && w.writers[2].id < w.next
  }

  function HalfPageIn<N, K, V>(name: N): seq<Step<N, K, V>>
  {
    [Seek(0, name), Seek(1, name), Load(0), Seek(2, name)]
  }

  lemma SeekTwice<N(!new), K(!new), V>(l: Layout<N, K>, s: State<N, K, V>, name: N, empty: V)
    requires Tiered(l, s, {}) && name in Flatten(l, s) && Evicted(s, l.shardOf(name))
    ensures name in FileOf(s, l.shardOf(name)) && name !in s.namespaces
    ensures var first := Writer(name, Seeking, 0);
            Leads(l, Start(l, s), [Seek(0, name), Seek(1, name)],
                  Start(l, s).(writers := map[0 := first, 1 := first]), empty)
  {
    assert NameSound(l, s, name);
    FlattenAt(l, s, name);
    var w, first := Start(l, s), Writer(name, Seeking, 0);
    LeadsTwo(l, w, Seek(0, name), w.(writers := map[0 := first]), Seek(1, name),
             w.(writers := map[0 := first, 1 := first]), empty);
  }

  lemma LoadThenSeek<N(!new), K(!new), V>(l: Layout<N, K>, w: World<N, K, V>, name: N, u: World<N, K, V>,
                                          v: World<N, K, V>, empty: V)
    requires At(w.writers, 0, Seeking) && w.writers[0].name == name && 2 !in w.writers
    requires u == AfterLoad(l, w, 0) && name in u.store.namespaces
    requires v == u.(writers := u.writers[2 := Holding(u, name)])
    ensures Leads(l, w, [Load(0), Seek(2, name)], v, empty)
  {
    LeadsTwo(l, w, Load(0), u, Seek(2, name), v, empty);
  }

  lemma HalfWay<N(!new), K(!new), V>(l: Layout<N, K>, s: State<N, K, V>, w: World<N, K, V>, name: N, u: World<N, K, V>)
    requires Evicted(s, l.shardOf(name)) && name in FileOf(s, l.shardOf(name))
    requires w == Start(l, s).(writers := map[0 := Writer(name, Seeking, 0), 1 := Writer(name, Seeking, 0)])
    requires u == AfterLoad(l, w, 0)
    ensures name in u.store.namespaces
    ensures HalfPagedIn(l, s, u.(writers := u.writers[2 := Holding(u, name)]), name)
  {
    LoadRestores(l, w, 0, name);
    ThirdFinds(l, s, u, name);
  }

  lemma ThirdFinds<N(!new), K(!new), V>(l: Layout<N, K>, s: State<N, K, V>, u: World<N, K, V>, name: N)
    requires l.shardOf(name) in u.store.shards && l.shardOf(name) in u.unflagged && u.eviction.None?
    requires u.store.files == s.files && u.ideal == Flatten(l, s) && IdOf(u.ids, name) < u.next
    requires name in u.store.namespaces && name in FileOf(s, l.shardOf(name))
    requires u.store.namespaces[name] == FileOf(s, l.shardOf(name))[name]
    requires At(u.writers, 1, Seeking) && u.writers[1].name == name
    ensures HalfPagedIn(l, s, u.(writers := u.writers[2 := Holding(u, name)]), name)
  {
  }

  lemma HalfPagesIn<N(!new), K(!new), V>(l: Layout<N, K>, s: State<N, K, V>, name: N, empty: V)
    returns (v: World<N, K, V>)
    requires Tiered(l, s, {}) && name in Flatten(l, s) && Evicted(s, l.shardOf(name))
    ensures Leads(l, Start(l, s), HalfPageIn(name), v, empty) && HalfPagedIn(l, s, v, name)
  {
    SeekTwice(l, s, name, empty);
    var w := Start(l, s).(writers := map[0 := Writer(name, Seeking, 0), 1 := Writer(name, Seeking, 0)]);
    var u := AfterLoad(l, w, 0);
    v := u.(writers := u.writers[2 := Holding(u, name)]);
    HalfWay(l, s, w, name, u);
    LoadThenSeek(l, w, name, u, v, empty);
    var first: seq<Step<N, K, V>>, rest: seq<Step<N, K, V>> := [Seek(0, name), Seek(1, name)], [Load(0), Seek(2, name)];
    LeadsThen(l, Start(l, s), first, w, rest, v, empty);
    assert first + rest == HalfPageIn(name);
  }

  /** A record made and marked after the first half of a page-in is gone after a
      second one: the name reads as it did before. */
  lemma RecordOverwritten<N(!new), K(!new), V>(l: Layout<N, K>, s: State<N, K, V>, name: N, change: V -> V, empty: V)
    requires Tiered(l, s, {}) && name in Flatten(l, s) && Evicted(s, l.shardOf(name))
    ensures var steps := HalfPageIn(name) + ([Record(2, change), Mark(2)] + [Load(1)]);
            && Possible(l, Start(l, s), steps, empty)
            && var w := Run(l, Start(l, s), steps, empty);
               && w.ideal == Flatten(l, s)[name := change(Flatten(l, s)[name])]
               && Look(l, w.store, name) == Some(Flatten(l, s)[name])
  {
    var w := HalfPagesIn(l, s, name, empty);
    var v := RecordsAndMarks(l, s, w, name, change, empty);
    LoadRestores(l, v, 1, name);
    var x := AfterLoad(l, v, 1);
    LeadsOne(l, v, Load(1), x, empty);
    LeadsThen(l, w, [Record(2, change), Mark(2)], v, [Load(1)], x, empty);
    LeadsThen(l, Start(l, s), HalfPageIn(name), w, [Record(2, change), Mark(2)] + [Load(1)], x, empty);
    FlattenAt(l, s, name);
    assert NameSound(l, s, name);
  }

  lemma RecordsAndMarks<N(!new), K(!new), V>(l: Layout<N, K>, s: State<N, K, V>, w: World<N, K, V>, name: N,
                                             change: V -> V, empty: V) returns (v: World<N, K, V>)
    requires HalfPagedIn(l, s, w, name)
    ensures Leads(l, w, [Record(2, change), Mark(2)], v, empty)
    ensures v.ideal == w.ideal[name := change(if name in w.ideal then w.ideal[name] else empty)]
    ensures v.store.files == s.files && v.store.shards == w.store.shards && v.eviction.None?
    ensures v.unflagged == w.unflagged && At(v.writers, 1, Seeking) && v.writers[1].name == name
  {
    var u := AfterRecord(w, 2, change, empty);
    v := u.(store := Tiers.Marked(u.store, l.shardOf(name)), writers := Advanced(u.writers, 2, Marked));
    LeadsTwo(l, w, Record(2, change), u, Mark(2), v, empty);
  }

  /** A record through a handle taken before the second page-in reaches an orphan. */
  lemma RecordOrphaned<N(!new), K(!new), V>(l: Layout<N, K>, s: State<N, K, V>, name: N, change: V -> V, empty: V)
    requires Tiered(l, s, {}) && name in Flatten(l, s) && Evicted(s, l.shardOf(name))
    ensures var steps := HalfPageIn(name) + [Load(1), Record(2, change)];
            && Possible(l, Start(l, s), steps, empty)
            && var w := Run(l, Start(l, s), steps, empty);
               && w.ideal == Flatten(l, s)[name := change(Flatten(l, s)[name])]
               && Look(l, w.store, name) == Some(Flatten(l, s)[name])
  {
    var w := HalfPagesIn(l, s, name, empty);
    LoadRestores(l, w, 1, name);
    var u := AfterLoad(l, w, 1);
    var v := AfterRecord(u, 2, change, empty);
    LeadsTwo(l, w, Load(1), u, Record(2, change), v, empty);
    LeadsThen(l, Start(l, s), HalfPageIn(name), w, [Load(1), Record(2, change)], v, empty);
    FlattenAt(l, s, name);
    assert NameSound(l, s, name);
  }

  // ---------------------------------------------------------------------
  // An eviction between a page-in and the registration it was for.
  // ---------------------------------------------------------------------

  /** In any world: drop a shard in which someone is about to register, and
      whatever else it held is lost. */
  lemma DropThenRegister<N(!new), K(!new), V>(l: Layout<N, K>, w: World<N, K, V>, i: nat, kept: N, empty: V)
    requires l.shardOf(l.tally) == l.pinned
    requires Inv(l, w) && Enabled(l, w, Unload) && Harmless(l, w, Unload, empty)
    requires !Busy(l, w, w.eviction.value.shard) && At(w.writers, i, Ready)
    requires l.shardOf(w.writers[i].name) == l.shardOf(kept) == w.eviction.value.shard
    requires kept in w.ideal && kept != w.writers[i].name
    ensures Possible(l, w, [Unload, Register(i)], empty) && Lost(l, Run(l, w, [Unload, Register(i)], empty), kept)
  {
    var u := Unloads(l, w, empty);
    var v := AfterRegister(l, u, i, empty);
    LeadsTwo(l, w, Unload, u, Register(i), v, empty);
    RegisterForgets(l, u, i, kept, empty);
  }

  lemma Unloads<N(!new), K(!new), V>(l: Layout<N, K>, w: World<N, K, V>, empty: V) returns (v: World<N, K, V>)
    requires l.shardOf(l.tally) == l.pinned
    requires Inv(l, w) && Enabled(l, w, Unload) && Harmless(l, w, Unload, empty) && !Busy(l, w, w.eviction.value.shard)
    ensures Goes(l, w, Unload, v, empty) && Inv(l, v) && Evicted(v.store, w.eviction.value.shard)
    ensures v.writers == w.writers && v.ideal == w.ideal
  {
    UnloadKeepsIff(l, w, empty);
    v := Next(l, w, Unload, empty);
  }

  lemma RegisterForgets<N(!new), K(!new), V>(l: Layout<N, K>, w: World<N, K, V>, i: nat, kept: N, empty: V)
    requires Inv(l, w) && At(w.writers, i, Ready) && Evicted(w.store, l.shardOf(kept))
    requires l.shardOf(w.writers[i].name) == l.shardOf(kept) && kept in w.ideal && kept != w.writers[i].name
    ensures Lost(l, AfterRegister(l, w, i, empty), kept)
  {
    FlattenAt(l, w.store, kept);
    LookIsCatalogued(l, w.store, Loose(l, w), kept);
    Forgotten(l, w, i, empty, kept);
    FlattenAt(l, AfterRegister(l, w, i, empty).store, kept);
  }

  /** Only writer 0 is about, and what one flat map would hold is what `s` stands for. */
  ghost predicate OnlyWriter<N(!new), K(!new), V>(l: Layout<N, K>, s: State<N, K, V>, w: World<N, K, V>, x: Writer<N>)
  {
    Inv(l, w) && w.writers == map[0 := x] && w.save.None? && w.store.dirty == s.dirty && w.ideal == Flatten(l, s)
  }

  lemma SeekInVain<N(!new), K(!new), V>(l: Layout<N, K>, s: State<N, K, V>, name: N, empty: V)
    returns (w: World<N, K, V>)
    requires Tiered(l, s, {}) && name !in Flatten(l, s)
    ensures Goes(l, Start(l, s), Seek(0, name), w, empty)
    ensures Inv(l, w) && w == Start(l, s).(writers := map[0 := Writer(name, Seeking, 0)])
  {
    StartIsSound(l, s);
    FlattenAt(l, s, name);
    SeekKeeps(l, Start(l, s), 0, name, empty);
    w := Next(l, Start(l, s), Seek(0, name), empty);
  }

  lemma SeekThenLoad<N(!new), K(!new), V>(l: Layout<N, K>, s: State<N, K, V>, name: N, empty: V)
    returns (w: World<N, K, V>)
    requires Tiered(l, s, {}) && name !in Flatten(l, s) && Evicted(s, l.shardOf(name))
    ensures Leads(l, Start(l, s), [Seek(0, name), Load(0)], w, empty)
    ensures OnlyWriter(l, s, w, Writer(name, Loaded, 0)) && w.eviction.None?
    ensures l.shardOf(name) in w.store.shards && !Evicted(w.store, l.shardOf(name))
  {
    var u := SeekInVain(l, s, name, empty);
    FirstLoadKeeps(l, u, 0);
    w := AfterLoad(l, u, 0);
    LeadsTwo(l, Start(l, s), Seek(0, name), u, Load(0), w, empty);
  }

  lemma FlagThenSave<N(!new), K(!new), V>(l: Layout<N, K>, s: State<N, K, V>, w: World<N, K, V>, name: N, empty: V)
    returns (v: World<N, K, V>)
    requires l.shardOf(name) != l.pinned && l.shardOf(name) !in s.dirty
    requires OnlyWriter(l, s, w, Writer(name, Loaded, 0)) && w.eviction.None?
    requires l.shardOf(name) in w.store.shards && !Evicted(w.store, l.shardOf(name))
    ensures Leads(l, w, [Flag(0), SaveIdle(l.shardOf(name), map[])], v, empty)
    ensures OnlyWriter(l, s, v, Writer(name, Ready, 0)) && v.eviction == Some(Eviction(l.shardOf(name), Saved))
  {
    var u := Flags(l, s, w, name, empty);
    v := Saves(l, s, u, name, empty);
    LeadsTwo(l, w, Flag(0), u, SaveIdle(l.shardOf(name), map[]), v, empty);
  }

  lemma Flags<N(!new), K(!new), V>(l: Layout<N, K>, s: State<N, K, V>, w: World<N, K, V>, name: N, empty: V)
    returns (v: World<N, K, V>)
    requires OnlyWriter(l, s, w, Writer(name, Loaded, 0)) && w.eviction.None?
    requires l.shardOf(name) in w.store.shards && !Evicted(w.store, l.shardOf(name))
    ensures Goes(l, w, Flag(0), v, empty)
    ensures OnlyWriter(l, s, v, Writer(name, Ready, 0)) && v.eviction.None? && Flagged(v, l.shardOf(name))
  {
    AdvancedOne(name, Loaded, Ready);
    v := FlagGoes(l, w, 0, l.shardOf(name), empty);
  }

  lemma AdvancedOne<N>(name: N, before: Phase, after: Phase)
    ensures Advanced(map[0 := Writer(name, before, 0)], 0, after) == map[0 := Writer(name, after, 0)]
  {
  }

  lemma FlagGoes<N(!new), K(!new), V>(l: Layout<N, K>, w: World<N, K, V>, i: nat, shard: K, empty: V)
    returns (v: World<N, K, V>)
    requires Inv(l, w) && At(w.writers, i, Loaded) && l.shardOf(w.writers[i].name) == shard && !Evicted(w.store, shard)
    ensures Goes(l, w, Flag(i), v, empty) && Inv(l, v) && Flagged(v, shard)
    ensures v.writers == Advanced(w.writers, i, Ready) && v.store == Called(w.store, shard) && v.ideal == w.ideal
    ensures v.save == w.save && v.eviction == w.eviction && v.ids == w.ids && v.next == w.next
  {
    FlagKeepsIff(l, w, i, empty);
    v := Next(l, w, Flag(i), empty);
  }

  lemma Saves<N(!new), K(!new), V>(l: Layout<N, K>, s: State<N, K, V>, w: World<N, K, V>, name: N, empty: V)
    returns (v: World<N, K, V>)
    requires l.shardOf(name) != l.pinned && l.shardOf(name) !in s.dirty
    requires OnlyWriter(l, s, w, Writer(name, Ready, 0)) && w.eviction.None? && Flagged(w, l.shardOf(name))
    ensures Goes(l, w, SaveIdle(l.shardOf(name), map[]), v, empty)
    ensures OnlyWriter(l, s, v, Writer(name, Ready, 0)) && v.eviction == Some(Eviction(l.shardOf(name), Saved))
  {
    SaveIdleKeeps(l, w, l.shardOf(name), map[], empty);
    v := Next(l, w, SaveIdle(l.shardOf(name), map[]), empty);
  }

  lemma UnmarkIdle<N(!new), K(!new), V>(l: Layout<N, K>, s: State<N, K, V>, w: World<N, K, V>, name: N, empty: V)
    returns (v: World<N, K, V>)
    requires OnlyWriter(l, s, w, Writer(name, Ready, 0)) && w.eviction == Some(Eviction(l.shardOf(name), Saved))
    requires l.shardOf(name) !in s.dirty
    ensures Leads(l, w, [Unmark], v, empty)
    ensures OnlyWriter(l, s, v, Writer(name, Ready, 0)) && v.eviction == Some(Eviction(l.shardOf(name), Unmarked))
  {
    UnmarkKeepsIff(l, w, empty);
    v := Next(l, w, Unmark, empty);
    LeadsOne(l, w, Unmark, v, empty);
  }

  function PageInAndEvict<N, K, V>(l: Layout<N, K>, name: N): seq<Step<N, K, V>>
  {
    [Seek(0, name), Load(0)] + [Flag(0), SaveIdle(l.shardOf(name), map[])] + [Unmark]
  }

  /** Such a run exists from any quiet, sound database with an evicted shard that
      holds anything: a write to a new name of that shard, and an eviction between
      its page-in and its registration. */
  lemma EvictionBetweenLoses<N(!new), K(!new), V>(l: Layout<N, K>, s: State<N, K, V>, name: N, kept: N, empty: V)
    requires l.shardOf(l.tally) == l.pinned && Tiered(l, s, {})
    requires name !in Flatten(l, s) && kept in Flatten(l, s)
    requires l.shardOf(kept) == l.shardOf(name) && Evicted(s, l.shardOf(name))
    ensures var steps := PageInAndEvict(l, name) + [Unload, Register(0)];
            Possible(l, Start(l, s), steps, empty) && Lost(l, Run(l, Start(l, s), steps, empty), kept)
  {
    var shard := l.shardOf(name);
    assert ShardSound(l, s, {}, shard);
    var a := SeekThenLoad(l, s, name, empty);
    var b := FlagThenSave(l, s, a, name, empty);
    var c := UnmarkIdle(l, s, b, name, empty);
    LeadsThen(l, Start(l, s), [Seek(0, name), Load(0)], a, [Flag(0), SaveIdle(shard, map[])], b, empty);
    LeadsThen(l, Start(l, s), [Seek(0, name), Load(0)] + [Flag(0), SaveIdle(shard, map[])], b, [Unmark], c, empty);
    DropsAndRegisters(l, s, c, name, kept, empty);
    LeadsThen(l, Start(l, s), PageInAndEvict(l, name), c, [Unload, Register(0)],
              Run(l, c, [Unload, Register(0)], empty), empty);
  }

  lemma NobodyHolds<N(!new), K(!new), V>(l: Layout<N, K>, w: World<N, K, V>, shard: K)
    requires w.save.None? && forall i :: i in w.writers ==> !HasHandle(w.writers[i].phase)
    ensures !Busy(l, w, shard)
  {
  }

  lemma DropsAndRegisters<N(!new), K(!new), V>(l: Layout<N, K>, s: State<N, K, V>, w: World<N, K, V>, name: N, kept: N,
                                               empty: V)
    requires l.shardOf(l.tally) == l.pinned && l.shardOf(name) !in s.dirty
    requires OnlyWriter(l, s, w, Writer(name, Ready, 0)) && w.eviction == Some(Eviction(l.shardOf(name), Unmarked))
    requires kept in Flatten(l, s) && l.shardOf(kept) == l.shardOf(name) && kept != name
    ensures Possible(l, w, [Unload, Register(0)], empty)
    ensures Lost(l, Run(l, w, [Unload, Register(0)], empty), kept)
  {
    NobodyHolds(l, w, l.shardOf(name));
    DropThenRegister(l, w, 0, kept, empty);
  }

  // ---------------------------------------------------------------------
  // An eviction between the two halves of a page-in.
  // ---------------------------------------------------------------------

  /** Writers 0 and 1 are both after `name`; nothing else is going on. */
  ghost predicate TwoSeek<N(!new), K(!new), V>(l: Layout<N, K>, s: State<N, K, V>, w: World<N, K, V>, name: N,
                                               phase: Phase)
  {
    && Inv(l, w) && w.save.None? && w.eviction.None? && w.store.dirty == s.dirty && w.ideal == Flatten(l, s)
    && w.writers.Keys == {0, 1} && At(w.writers, 0, phase) && At(w.writers, 1, phase)
    && w.writers[0].name == name && w.writers[1].name == name && l.shardOf(name) in w.store.shards
  }

  lemma BothSeek<N(!new), K(!new), V>(l: Layout<N, K>, s: State<N, K, V>, name: N, empty: V) returns (w: World<N, K, V>)
    requires Tiered(l, s, {}) && name in Flatten(l, s) && Evicted(s, l.shardOf(name))
    ensures Leads(l, Start(l, s), [Seek(0, name), Seek(1, name)], w, empty)
    ensures TwoSeek(l, s, w, name, Seeking) && w.store == s && w.unflagged == {}
  {
    SeekTwice(l, s, name, empty);
    StartIsSound(l, s);
    SeekKeeps(l, Start(l, s), 0, name, empty);
    var u := Next(l, Start(l, s), Seek(0, name), empty);
    SeekKeeps(l, u, 1, name, empty);
    w := Next(l, u, Seek(1, name), empty);
    LeadsTwo(l, Start(l, s), Seek(0, name), u, Seek(1, name), w, empty);
  }

  lemma FirstLoads<N(!new), K(!new), V>(l: Layout<N, K>, s: State<N, K, V>, w: World<N, K, V>, name: N, empty: V)
    returns (v: World<N, K, V>)
    requires TwoSeek(l, s, w, name, Seeking) && w.store == s && w.unflagged == {} && Evicted(s, l.shardOf(name))
    ensures Goes(l, w, Load(0), v, empty) && Inv(l, v)
    ensures v.store == PagedIn(s, l.shardOf(name)) && v.unflagged == {l.shardOf(name)}
    ensures v.save == w.save && v.eviction == w.eviction && v.ideal == w.ideal
    ensures v.writers == Advanced(w.writers, 0, Loaded)
  {
    FirstLoadKeeps(l, w, 0);
    v := AfterLoad(l, w, 0);
    GoesLoad(l, w, 0, v, empty);
  }

  lemma GoesLoad<N(!new), K(!new), V>(l: Layout<N, K>, w: World<N, K, V>, i: nat, v: World<N, K, V>, empty: V)
    requires Waiting(w.writers, i) && v == AfterLoad(l, w, i)
    ensures Goes(l, w, Load(i), v, empty)
  {
  }

  /** The second page-in finds memory to be what the file says. */
  lemma SecondLoads<N(!new), K(!new), V>(l: Layout<N, K>, s: State<N, K, V>, w: World<N, K, V>, shard: K, empty: V)
    returns (v: World<N, K, V>)
    requires Inv(l, w) && w.store == PagedIn(s, shard) && w.unflagged == {shard} && w.eviction.None?
    requires At(w.writers, 1, Seeking) && l.shardOf(w.writers[1].name) == shard
    requires forall i :: i in w.writers ==> !HasHandle(w.writers[i].phase)
    ensures Goes(l, w, Load(1), v, empty) && Inv(l, v) && v.store == w.store
    ensures v.save == w.save && v.eviction == w.eviction && v.ideal == w.ideal
    ensures v.writers == Advanced(w.writers, 1, Loaded)
  {
    assert Reloads(l, w, 1);
    assert FileOf(w.store, shard) == FileOf(s, shard);
    assert Replaceable(w, shard);
    ReloadKeeps(l, w, 1);
    ReloadedStore(l, w.store, Loose(l, w), shard);
    v := AfterLoad(l, w, 1);
    GoesLoad(l, w, 1, v, empty);
  }

  lemma BothLoad<N(!new), K(!new), V>(l: Layout<N, K>, s: State<N, K, V>, w: World<N, K, V>, name: N, empty: V)
    returns (v: World<N, K, V>)
    requires TwoSeek(l, s, w, name, Seeking) && w.store == s && w.unflagged == {} && Evicted(s, l.shardOf(name))
    ensures Leads(l, w, [Load(0), Load(1)], v, empty)
    ensures TwoSeek(l, s, v, name, Loaded) && !Evicted(v.store, l.shardOf(name))
  {
    var u := FirstLoads(l, s, w, name, empty);
    v := SecondLoads(l, s, u, l.shardOf(name), empty);
    LeadsTwo(l, w, Load(0), u, Load(1), v, empty);
  }

  lemma FlagForgets<N(!new), K(!new), V>(l: Layout<N, K>, w: World<N, K, V>, i: nat, n: N, empty: V)
    requires Inv(l, w) && At(w.writers, i, Loaded) && Evicted(w.store, l.shardOf(n)) && n in w.ideal
    requires l.shardOf(w.writers[i].name) == l.shardOf(n)
    ensures Lost(l, Next(l, w, Flag(i), empty), n)
  {
    var v := Next(l, w, Flag(i), empty);
    FlattenAt(l, w.store, n);
    LookIsCatalogued(l, w.store, Loose(l, w), n);
    CalledForgets(l, w.store, Loose(l, w), l.shardOf(n), n);
    FlattenAt(l, v.store, n);
  }

  /** Dropped, and then called resident by the other of two page-ins. */
  lemma UnloadThenFlag<N(!new), K(!new), V>(l: Layout<N, K>, w: World<N, K, V>, shard: K, empty: V)
    returns (v: World<N, K, V>)
    requires l.shardOf(l.tally) == l.pinned && Inv(l, w) && w.eviction == Some(Eviction(shard, Unmarked))
    requires shard !in w.store.dirty && w.save.None? && At(w.writers, 0, Loaded) &&
              l.shardOf(w.writers[0].name) == shard
    requires forall i :: i in w.writers ==> !HasHandle(w.writers[i].phase)
    ensures Leads(l, w, [Unload, Flag(0)], v, empty) && v.ideal == w.ideal
    ensures forall n :: n in w.ideal && l.shardOf(n) == shard ==> Lost(l, v, n)
  {
    NobodyHolds(l, w, shard);
    var u := Unloads(l, w, empty);
    v := Next(l, u, Flag(0), empty);
    forall n | n in w.ideal && l.shardOf(n) == shard ensures Lost(l, v, n) {
      FlagForgets(l, u, 0, n, empty);
    }
    LeadsTwo(l, w, Unload, u, Flag(0), v, empty);
  }

  lemma FlagThenEvict<N(!new), K(!new), V>(l: Layout<N, K>, s: State<N, K, V>, w: World<N, K, V>, name: N, empty: V)
    returns (v: World<N, K, V>)
    requires TwoSeek(l, s, w, name, Loaded) && !Evicted(w.store, l.shardOf(name))
    requires l.shardOf(name) != l.pinned && l.shardOf(name) !in s.dirty
    ensures Leads(l, w, [Flag(1)] + [SaveIdle(l.shardOf(name), map[]), Unmark], v, empty)
    ensures Inv(l, v) && v.eviction == Some(Eviction(l.shardOf(name), Unmarked)) && l.shardOf(name) !in v.store.dirty
    ensures v.save.None? && v.ideal == Flatten(l, s) && At(v.writers, 0, Loaded) && v.writers[0].name == name
    ensures forall i :: i in v.writers ==> !HasHandle(v.writers[i].phase)
  {
    var shard := l.shardOf(name);
    var u := FlagGoes(l, w, 1, shard, empty);
    LeadsOne(l, w, Flag(1), u, empty);
    v := SaveAndUnmark(l, u, shard, empty);
    LeadsThen(l, w, [Flag(1)], u, [SaveIdle(shard, map[]), Unmark], v, empty);
  }

  function TwoPageIns<N, K, V>(l: Layout<N, K>, name: N): seq<Step<N, K, V>>
  {
    [Seek(0, name), Seek(1, name)] + [Load(0), Load(1)] + ([Flag(1)] + [SaveIdle(l.shardOf(name), map[]), Unmark])
  }

  lemma PagesInTwice<N(!new), K(!new), V>(l: Layout<N, K>, s: State<N, K, V>, name: N, empty: V)
    returns (w: World<N, K, V>)
    requires Tiered(l, s, {}) && name in Flatten(l, s) && Evicted(s, l.shardOf(name))
    ensures Leads(l, Start(l, s), TwoPageIns(l, name), w, empty) && Inv(l, w) && w.ideal == Flatten(l, s)
    ensures w.eviction == Some(Eviction(l.shardOf(name), Unmarked)) && l.shardOf(name) !in w.store.dirty && w.save.None?
    ensures At(w.writers, 0, Loaded) && w.writers[0].name == name
    ensures forall i :: i in w.writers ==> !HasHandle(w.writers[i].phase)
  {
    var shard := l.shardOf(name);
    assert ShardSound(l, s, {}, shard);
    var b := SeekAndLoadBoth(l, s, name, empty);
    w := FlagThenEvict(l, s, b, name, empty);
    LeadsThen(l, Start(l, s), [Seek(0, name), Seek(1, name)] + [Load(0), Load(1)], b,
              [Flag(1)] + [SaveIdle(shard, map[]), Unmark], w, empty);
  }

  lemma SeekAndLoadBoth<N(!new), K(!new), V>(l: Layout<N, K>, s: State<N, K, V>, name: N, empty: V)
    returns (w: World<N, K, V>)
    requires Tiered(l, s, {}) && name in Flatten(l, s) && Evicted(s, l.shardOf(name))
    ensures Leads(l, Start(l, s), [Seek(0, name), Seek(1, name)] + [Load(0), Load(1)], w, empty)
    ensures TwoSeek(l, s, w, name, Loaded) && !Evicted(w.store, l.shardOf(name))
  {
    var a := BothSeek(l, s, name, empty);
    w := BothLoad(l, s, a, name, empty);
    LeadsThen(l, Start(l, s), [Seek(0, name), Seek(1, name)], a, [Load(0), Load(1)], w, empty);
  }

  /** From any quiet, sound database with an evicted shard: two page-ins of it, and
      an eviction before the second of them calls it resident, make all of it read
      as missing. */
  lemma EvictionInsideLoses<N(!new), K(!new), V>(l: Layout<N, K>, s: State<N, K, V>, name: N, empty: V)
    requires l.shardOf(l.tally) == l.pinned && Tiered(l, s, {})
    requires name in Flatten(l, s) && Evicted(s, l.shardOf(name))
    ensures var steps := TwoPageIns(l, name) + [Unload, Flag(0)];
            && Possible(l, Start(l, s), steps, empty)
            && forall n :: n in Flatten(l, s) && l.shardOf(n) == l.shardOf(name) ==>
                 Lost(l, Run(l, Start(l, s), steps, empty), n)
  {
    var w := PagesInTwice(l, s, name, empty);
    var v := UnloadThenFlag(l, w, l.shardOf(name), empty);
    LeadsThen(l, Start(l, s), TwoPageIns(l, name), w, [Unload, Flag(0)], v, empty);
  }

  // ---------------------------------------------------------------------
  // A shard dropped while it is marked, or while a save owes it a write.
  // ---------------------------------------------------------------------

  lemma NothingLeft<N(!new), K(!new), V>(l: Layout<N, K>, s: State<N, K, V>, t: State<N, K, V>, shard: K, n: N)
    requires t.namespaces == Dropped(l, s, shard).namespaces && n !in FileOf(t, shard) && l.shardOf(n) == shard
    ensures n !in Flatten(l, t)
  {
    FlattenAt(l, t, n);
  }

  lemma CataloguedIsIdeal<N(!new), K(!new), V>(l: Layout<N, K>, w: World<N, K, V>, n: N)
    requires Inv(l, w) && n in Catalogue(w.store, l.shardOf(n))
    ensures n in w.ideal
  {
    LookIsCatalogued(l, w.store, Loose(l, w), n);
    FlattenAt(l, w.store, n);
  }

  /** Dropped while marked: the next save finds the shard marked and absent, and
      takes its file for stale. */
  lemma MarkedDropLoses<N(!new), K(!new), V>(l: Layout<N, K>, w: World<N, K, V>, empty: V) returns (v: World<N, K, V>)
    requires Inv(l, w) && Enabled(l, w, Unload) && w.save.None?
    requires var shard := w.eviction.value.shard; !Busy(l, w, shard) && shard in w.store.dirty
    ensures Leads(l, w, [Unload, List] + [Take(false), RemoveStale(w.eviction.value.shard)], v, empty)
    ensures v.ideal == w.ideal && forall n :: n in w.ideal && l.shardOf(n) == w.eviction.value.shard ==> Lost(l, v, n)
  {
    var shard := w.eviction.value.shard;
    var w1 := AfterUnload(l, w, shard);
    var w2 := w1.(save := Some(Listed(Present(l, w1.store))));
    LeadsTwo(l, w, Unload, w1, List, w2, empty);
    v := StaleRemoved(l, w2, shard, empty);
    forall n | n in w.ideal && l.shardOf(n) == shard ensures Lost(l, v, n) {
      NothingLeft(l, w.store, v.store, shard, n);
    }
    LeadsThen(l, w, [Unload, List], w2, [Take(false), RemoveStale(shard)], v, empty);
  }

  /** Writer 0 alone, having taken a handle to `name`, while its shard is being
      evicted. */
  ghost predicate Overlapping<N(!new), K(!new), V>(l: Layout<N, K>, w: World<N, K, V>, name: N, phase: Phase,
                                                   stage: Stage)
  {
    && Inv(l, w) && w.save.None? && w.eviction == Some(Eviction(l.shardOf(name), stage))
    && w.writers.Keys == {0} && At(w.writers, 0, phase) && w.writers[0].name == name
  }

  /** The eviction of the name's shard begins; if it is marked, what is there is written. */
  function SavedAsIs<N, K, V>(l: Layout<N, K>, s: State<N, K, V>, name: N): Step<N, K, V>
  {
    SaveIdle(l.shardOf(name), Snapshot(l, s.namespaces, l.shardOf(name)))
  }

  lemma SeekThenSave<N(!new), K(!new), V>(l: Layout<N, K>, s: State<N, K, V>, name: N, empty: V)
    returns (w: World<N, K, V>)
    requires Tiered(l, s, {}) && name in s.namespaces && l.shardOf(name) != l.pinned
    ensures Leads(l, Start(l, s), [Seek(0, name), SavedAsIs(l, s, name)], w, empty)
    ensures Overlapping(l, w, name, Taken, Saved)
  {
    StartIsSound(l, s);
    assert NameSound(l, s, name);
    SeekKeeps(l, Start(l, s), 0, name, empty);
    var u := Next(l, Start(l, s), Seek(0, name), empty);
    SaveIdleKeeps(l, u, l.shardOf(name), Snapshot(l, s.namespaces, l.shardOf(name)), empty);
    w := Next(l, u, SavedAsIs(l, s, name), empty);
    LeadsTwo(l, Start(l, s), Seek(0, name), u, SavedAsIs(l, s, name), w, empty);
  }

  lemma Unmarks<N(!new), K(!new), V>(l: Layout<N, K>, w: World<N, K, V>, name: N, empty: V) returns (v: World<N, K, V>)
    requires Overlapping(l, w, name, Taken, Saved)
    ensures Goes(l, w, Unmark, v, empty) && Overlapping(l, v, name, Taken, Unmarked)
  {
    assert l.shardOf(name) in Pending(l, w.writers);
    UnmarkKeepsIff(l, w, empty);
    v := Next(l, w, Unmark, empty);
  }

  lemma Records<N(!new), K(!new), V>(l: Layout<N, K>, w: World<N, K, V>, name: N, change: V -> V, empty: V)
    returns (v: World<N, K, V>)
    requires Overlapping(l, w, name, Taken, Unmarked)
    ensures Goes(l, w, Record(0, change), v, empty) && Overlapping(l, v, name, Recorded, Unmarked)
  {
    RecordKeeps(l, w, 0, change, empty);
    v := Next(l, w, Record(0, change), empty);
  }

  lemma UnmarkThenRecord<N(!new), K(!new), V>(l: Layout<N, K>, w: World<N, K, V>, name: N, change: V -> V, empty: V)
    returns (v: World<N, K, V>)
    requires Overlapping(l, w, name, Taken, Saved)
    ensures Leads(l, w, [Unmark, Record(0, change)], v, empty) && Overlapping(l, v, name, Recorded, Unmarked)
  {
    var u := Unmarks(l, w, name, empty);
    v := Records(l, u, name, change, empty);
    LeadsTwo(l, w, Unmark, u, Record(0, change), v, empty);
  }

  lemma MarkThenRelease<N(!new), K(!new), V>(l: Layout<N, K>, w: World<N, K, V>, name: N, empty: V)
    returns (v: World<N, K, V>)
    requires Overlapping(l, w, name, Recorded, Unmarked)
    ensures Leads(l, w, [Mark(0), Release(0)], v, empty)
    ensures Inv(l, v) && v.save.None? && v.eviction == w.eviction && v.writers == map[]
    ensures l.shardOf(name) in v.store.dirty && v.ideal == w.ideal
  {
    MarkStepKeeps(l, w, 0, empty);
    var u := Next(l, w, Mark(0), empty);
    ReleaseKeeps(l, u, 0, empty);
    v := Next(l, u, Release(0), empty);
    LeadsTwo(l, w, Mark(0), u, Release(0), v, empty);
  }

  function WriteWhileEvicting<N, K, V>(l: Layout<N, K>, s: State<N, K, V>, name: N, change: V -> V): seq<Step<N, K, V>>
  {
    [Seek(0, name), SavedAsIs(l, s, name)] + [Unmark, Record(0, change)] + [Mark(0), Release(0)]
  }

  /** From any quiet, sound database, one write while its shard is evicted and
      then a save lose every name of the shard. */
  lemma WriteWhileEvictingLoses<N(!new), K(!new), V>(l: Layout<N, K>, s: State<N, K, V>, name: N, change: V -> V,
                                                     empty: V)
    requires Tiered(l, s, {}) && name in s.namespaces && l.shardOf(name) != l.pinned
    ensures var steps := WriteWhileEvicting(l, s, name, change) +
                         ([Unload, List] + [Take(false), RemoveStale(l.shardOf(name))]);
            && Possible(l, Start(l, s), steps, empty)
            && forall n :: n in Run(l, Start(l, s), steps, empty).ideal && l.shardOf(n) == l.shardOf(name) ==>
                 Lost(l, Run(l, Start(l, s), steps, empty), n)
  {
    var a := SeekThenSave(l, s, name, empty);
    var b := UnmarkThenRecord(l, a, name, change, empty);
    var c := MarkThenRelease(l, b, name, empty);
    var first: seq<Step<N, K, V>> := [Seek(0, name), SavedAsIs(l, s, name)];
    var second: seq<Step<N, K, V>>, third: seq<Step<N, K, V>> := [Unmark, Record(0, change)], [Mark(0), Release(0)];
    LeadsThen(l, Start(l, s), first, a, second, b, empty);
    LeadsThen(l, Start(l, s), first + second, b, third, c, empty);
    NobodyHolds(l, c, l.shardOf(name));
    var v := MarkedDropLoses(l, c, empty);
    LeadsThen(l, Start(l, s), WriteWhileEvicting(l, s, name, change), c,
              [Unload, List] + [Take(false), RemoveStale(l.shardOf(name))], v, empty);
  }

  /** A shard that is marked and was not listed loses its file. */
  lemma StaleRemoved<N(!new), K(!new), V>(l: Layout<N, K>, w: World<N, K, V>, shard: K, empty: V)
    returns (v: World<N, K, V>)
    requires w.save.Some? && w.save.value.Listed? && shard in w.store.dirty && shard !in w.save.value.present
    ensures Leads(l, w, [Take(false), RemoveStale(shard)], v, empty)
    ensures v.store == FileRemoved(w.store.(dirty := {}), shard) && v.ideal == w.ideal && v.writers == w.writers
    ensures var present, dirty := w.save.value.present, w.store.dirty;
            v.save == Some(Saving(present * dirty, dirty - present - {shard}, None))
  {
    var u := AfterTake(w, w.save.value.present, false);
    v := u.(store := FileRemoved(u.store, shard), save := Some(u.save.value.(stale := u.save.value.stale - {shard})));
    LeadsTwo(l, w, Take(false), u, RemoveStale(shard), v, empty);
  }

  /** Dropped while owed: the save finds nothing to write, and writes that. */
  lemma OwedDropLoses<N(!new), K(!new), V>(l: Layout<N, K>, w: World<N, K, V>, empty: V) returns (v: World<N, K, V>)
    requires Inv(l, w) && Enabled(l, w, Unload) && Between(w)
    requires var shard := w.eviction.value.shard; !Busy(l, w, shard) && shard in w.save.value.todo
    ensures Leads(l, w, [Unload] + [StartShard(w.eviction.value.shard), FinishShard], v, empty)
    ensures v.ideal == w.ideal && forall n :: n in w.ideal && l.shardOf(n) == w.eviction.value.shard ==> Lost(l, v, n)
  {
    var shard := w.eviction.value.shard;
    var w1 := AfterUnload(l, w, shard);
    LeadsOne(l, w, Unload, w1, empty);
    v := NothingWritten(l, w1, shard, empty);
    forall n | n in w.ideal && l.shardOf(n) == shard ensures Lost(l, v, n) {
      NothingLeft(l, w.store, v.store, shard, n);
    }
    LeadsThen(l, w, [Unload], w1, [StartShard(shard), FinishShard], v, empty);
  }

  lemma ListAndTake<N(!new), K(!new), V>(l: Layout<N, K>, s: State<N, K, V>, shard: K, empty: V)
    returns (w: World<N, K, V>)
    requires l.shardOf(l.tally) == l.pinned && Tiered(l, s, {}) && shard in s.dirty && shard in Present(l, s)
    ensures Leads(l, Start(l, s), [List, Take(false)], w, empty) && Inv(l, w) && Between(w) && w.eviction.None?
    ensures shard in w.save.value.todo && w.writers == map[] && w.unflagged == {}
    ensures w.store == s.(dirty := {}) && w.ideal == Flatten(l, s)
  {
    StartIsSound(l, s);
    SaveBegunInOneGo(l, Start(l, s), false, empty);
    RunKeeps(l, Start(l, s), [List, Take(false)], empty);
    var u := Start(l, s).(save := Some(Listed(Present(l, s))));
    w := AfterTake(u, Present(l, s), false);
    LeadsTwo(l, Start(l, s), List, u, Take(false), w, empty);
  }

  lemma SaveAndUnmark<N(!new), K(!new), V>(l: Layout<N, K>, w: World<N, K, V>, shard: K, empty: V)
    returns (v: World<N, K, V>)
    requires Inv(l, w) && w.eviction.None? && Flagged(w, shard) && shard != l.pinned && shard !in w.store.dirty
    ensures Leads(l, w, [SaveIdle(shard, map[]), Unmark], v, empty) && Inv(l, v)
    ensures v.eviction == Some(Eviction(shard, Unmarked)) && shard !in v.store.dirty
    ensures v.save == w.save && v.writers == w.writers && v.ideal == w.ideal
  {
    SaveIdleKeeps(l, w, shard, map[], empty);
    var u := Next(l, w, SaveIdle(shard, map[]), empty);
    UnmarkKeepsIff(l, u, empty);
    v := Next(l, u, Unmark, empty);
    LeadsTwo(l, w, SaveIdle(shard, map[]), u, Unmark, v, empty);
  }

  /** From any quiet, sound database, evicting a marked shard once a save has taken
      the dirty set, and before it writes the shard, loses every name of it. */
  lemma EvictWhileSavingLoses<N(!new), K(!new), V>(l: Layout<N, K>, s: State<N, K, V>, name: N, empty: V)
    requires l.shardOf(l.tally) == l.pinned && Tiered(l, s, {})
    requires name in s.namespaces && l.shardOf(name) in s.dirty && l.shardOf(name) != l.pinned
    ensures var shard := l.shardOf(name);
            var steps := [List, Take(false)] + [SaveIdle(shard, map[]), Unmark] +
                         ([Unload] + [StartShard(shard), FinishShard]);
            && Possible(l, Start(l, s), steps, empty)
            && forall n :: n in Flatten(l, s) && l.shardOf(n) == shard ==> Lost(l, Run(l, Start(l, s), steps, empty), n)
  {
    var shard := l.shardOf(name);
    assert NameSound(l, s, name) && shard in Present(l, s);
    var a := ListAndTake(l, s, shard, empty);
    var b := SaveAndUnmark(l, a, shard, empty);
    var first: seq<Step<N, K, V>>, second: seq<Step<N, K, V>> := [List, Take(false)], [SaveIdle(shard, map[]), Unmark];
    LeadsThen(l, Start(l, s), first, a, second, b, empty);
    var v := OwedDropLoses(l, b, empty);
    LeadsThen(l, Start(l, s), first + second, b, [Unload] + [StartShard(shard), FinishShard], v, empty);
  }

  lemma NothingWritten<N(!new), K(!new), V>(l: Layout<N, K>, w: World<N, K, V>, shard: K, empty: V)
    returns (v: World<N, K, V>)
    requires Between(w) && shard in w.save.value.todo && Snapshot(l, w.store.namespaces, shard) == map[]
    ensures Leads(l, w, [StartShard(shard), FinishShard], v, empty)
    ensures v.store == w.store.(files := w.store.files[shard := map[]]) && v.ideal == w.ideal
  {
    var c: Current<N, K, V> := Current(shard, {}, map[], map[]);
    var names := Snapshot(l, w.store.namespaces, shard).Keys;
    assert names == {} && (map n | n in names :: IdOf(w.ids, n)) == map[];
    var todo := w.save.value.todo - {shard};
    var u := w.(save := Some(w.save.value.(todo := todo, current := Some(c))));
    v := u.(store := u.store.(files := u.store.files[shard := map[]]), save := Some(u.save.value.(current := None)));
    LeadsTwo(l, w, StartShard(shard), u, FinishShard, v, empty);
  }

  // ---------------------------------------------------------------------
  // A mark cleared after the change it stood for was missed.
  // ---------------------------------------------------------------------

  /** The file an eviction wrote is behind, its mark goes, and so does the shard:
      what changed since reads as the file has it. */
  lemma ClearedMarkLoses<N(!new), K(!new), V>(l: Layout<N, K>, w: World<N, K, V>, n: N, empty: V)
    requires Inv(l, w) && Enabled(l, w, Unmark) && l.shardOf(n) == w.eviction.value.shard
    requires !Busy(l, w, w.eviction.value.shard)
    ensures Possible(l, w, [Unmark, Unload], empty)
    ensures var v, file := Run(l, w, [Unmark, Unload], empty), FileOf(w.store, l.shardOf(n));
            v.ideal == w.ideal && Look(l, v.store, n) == if n in file then Some(file[n]) else None
  {
    var shard := w.eviction.value.shard;
    var u := w.(store := Cleared(w.store, shard), eviction := Some(Eviction(shard, Unmarked)));
    SameBusy(l, w, u, shard);
    var v := AfterUnload(l, u, shard);
    LeadsTwo(l, w, Unmark, u, Unload, v, empty);
    LooksAtFile(l, u.store, n);
  }

  lemma SameBusy<N(!new), K(!new), V>(l: Layout<N, K>, w: World<N, K, V>, v: World<N, K, V>, shard: K)
    requires v == w.(store := v.store, eviction := v.eviction) && v.store.namespaces == w.store.namespaces
    ensures Busy(l, w, shard) <==> Busy(l, v, shard)
  {
    forall x: Writer<N> ensures Live(w, x) <==> Live(v, x) {}
    if Reading(w) {
      forall n ensures Holds(w, w.save.value.current.value, n) <==> Holds(v, v.save.value.current.value, n) {}
    }
  }

  lemma LooksAtFile<N(!new), K(!new), V>(l: Layout<N, K>, s: State<N, K, V>, n: N)
    requires l.shardOf(n) in s.shards
    ensures var file := FileOf(s, l.shardOf(n));
            Look(l, Dropped(l, s, l.shardOf(n)), n) == if n in file then Some(file[n]) else None
  {
  }

  // ---------------------------------------------------------------------
  // A mark between a save's two looks.
  // ---------------------------------------------------------------------

  /** A shard marked for the first time after the list was made and before the
      dirty set is taken loses its file, and is in memory only, unmarked. */
  lemma LateMarkLoses<N(!new), K(!new), V>(l: Layout<N, K>, w: World<N, K, V>, shard: K, n: N, empty: V)
    requires Inv(l, w) && w.save.Some? && w.save.value.Listed?
    requires shard in w.store.dirty && shard !in w.save.value.present
    requires n in Catalogue(w.store, shard) && shard !in Pending(l, w.writers)
    ensures var steps := [Take(false), RemoveStale(shard)];
            && Possible(l, w, steps, empty)
            && var v := Run(l, w, steps, empty);
               && n in v.ideal && n !in Tiers.Loaded(l, v.store.files)
               && !Evicted(v.store, shard) && shard !in v.store.dirty && shard !in Loose(l, v)
  {
    assert ShardSound(l, w.store, Loose(l, w), shard);
    CataloguedIsIdeal(l, w, n);
    var v := StaleRemoved(l, w, shard, empty);
    LoadedAt(l, v.store, n);
  }

  /** Writer 0 alone, after a save has listed the shards present, its own not
      among them. */
  ghost predicate Unlisted<N(!new), K(!new), V>(l: Layout<N, K>, s: State<N, K, V>, w: World<N, K, V>, name: N,
                                                phase: Phase)
  {
    && Inv(l, w) && w.eviction.None? && w.save == Some(Listed(Present(l, s))) && l.shardOf(name) !in Present(l, s)
    && w.writers.Keys == {0} && At(w.writers, 0, phase) && w.writers[0].name == name
  }

  lemma ListThenSeek<N(!new), K(!new), V>(l: Layout<N, K>, s: State<N, K, V>, name: N, empty: V)
    returns (w: World<N, K, V>)
    requires Tiered(l, s, {}) && name in Flatten(l, s) && Evicted(s, l.shardOf(name))
    ensures Leads(l, Start(l, s), [List, Seek(0, name)], w, empty) && Unlisted(l, s, w, name, Seeking)
    ensures w.store == s && w.ideal == Flatten(l, s) && w.unflagged == {}
  {
    StartIsSound(l, s);
    forall n | n in s.namespaces ensures l.shardOf(n) != l.shardOf(name) {
      assert NameSound(l, s, n);
    }
    BetweenSavesKeeps(l, Start(l, s), List, empty);
    var u := Next(l, Start(l, s), List, empty);
    SeekKeeps(l, u, 0, name, empty);
    w := Next(l, u, Seek(0, name), empty);
    LeadsTwo(l, Start(l, s), List, u, Seek(0, name), w, empty);
  }

  lemma LoadThenFlag<N(!new), K(!new), V>(l: Layout<N, K>, s: State<N, K, V>, w: World<N, K, V>, name: N, empty: V)
    returns (v: World<N, K, V>)
    requires Unlisted(l, s, w, name, Seeking) && Evicted(w.store, l.shardOf(name)) && name in w.ideal
    ensures Leads(l, w, [Load(0), Flag(0)], v, empty) && Unlisted(l, s, v, name, Ready)
    ensures name in v.store.namespaces && v.ideal == w.ideal
  {
    FirstLoadKeeps(l, w, 0);
    var u := AfterLoad(l, w, 0);
    v := FlagGoes(l, u, 0, l.shardOf(name), empty);
    LeadsTwo(l, w, Load(0), u, Flag(0), v, empty);
    FlattenAt(l, v.store, name);
  }

  lemma FindThenRecord<N(!new), K(!new), V>(l: Layout<N, K>, s: State<N, K, V>, w: World<N, K, V>, name: N,
                                            change: V -> V, empty: V) returns (v: World<N, K, V>)
    requires Unlisted(l, s, w, name, Ready) && name in w.store.namespaces
    ensures Leads(l, w, [Find(0), Record(0, change)], v, empty) && Unlisted(l, s, v, name, Recorded) && name in v.ideal
  {
    FindKeeps(l, w, 0, empty);
    var u := Next(l, w, Find(0), empty);
    RecordKeeps(l, u, 0, change, empty);
    v := Next(l, u, Record(0, change), empty);
    LeadsTwo(l, w, Find(0), u, Record(0, change), v, empty);
  }

  lemma MarkAndLeave<N(!new), K(!new), V>(l: Layout<N, K>, s: State<N, K, V>, w: World<N, K, V>, name: N, empty: V)
    returns (v: World<N, K, V>)
    requires Unlisted(l, s, w, name, Recorded)
    ensures Leads(l, w, [Mark(0), Release(0)], v, empty) && Inv(l, v)
    ensures v.writers == map[] && v.save == w.save && l.shardOf(name) in v.store.dirty && v.ideal == w.ideal
  {
    MarkStepKeeps(l, w, 0, empty);
    var u := Next(l, w, Mark(0), empty);
    ReleaseKeeps(l, u, 0, empty);
    v := Next(l, u, Release(0), empty);
    LeadsTwo(l, w, Mark(0), u, Release(0), v, empty);
  }

  function WriteAfterList<N, K, V>(name: N, change: V -> V): seq<Step<N, K, V>>
  {
    [List, Seek(0, name)] + [Load(0), Flag(0)] + [Find(0), Record(0, change)] + [Mark(0), Release(0)]
  }

  lemma WritesAfterList<N(!new), K(!new), V>(l: Layout<N, K>, s: State<N, K, V>, name: N, change: V -> V, empty: V)
    returns (w: World<N, K, V>)
    requires Tiered(l, s, {}) && name in Flatten(l, s) && Evicted(s, l.shardOf(name))
    ensures Leads(l, Start(l, s), WriteAfterList(name, change), w, empty) && Inv(l, w) && name in w.ideal
    ensures w.save == Some(Listed(Present(l, s))) && l.shardOf(name) in w.store.dirty && w.writers == map[]
    ensures l.shardOf(name) !in Present(l, s)
  {
    var first: seq<Step<N, K, V>>, second: seq<Step<N, K, V>> := [List, Seek(0, name)], [Load(0), Flag(0)];
    var third: seq<Step<N, K, V>>, fourth: seq<Step<N, K, V>> := [Find(0), Record(0, change)], [Mark(0), Release(0)];
    var a := ListThenSeek(l, s, name, empty);
    var b := LoadThenFlag(l, s, a, name, empty);
    var c := FindThenRecord(l, s, b, name, change, empty);
    w := MarkAndLeave(l, s, c, name, empty);
    LeadsThen(l, Start(l, s), first, a, second, b, empty);
    LeadsThen(l, Start(l, s), first + second, b, third, c, empty);
    LeadsThen(l, Start(l, s), first + second + third, c, fourth, w, empty);
  }

  /** From any quiet, sound database with an evicted shard, one write to it while a
      save begins costs the shard its file, the save taking it for stale. */
  lemma WriteAfterListLoses<N(!new), K(!new), V>(l: Layout<N, K>, s: State<N, K, V>, name: N, change: V -> V, empty: V)
    requires Tiered(l, s, {}) && name in Flatten(l, s) && Evicted(s, l.shardOf(name))
    ensures var steps := WriteAfterList(name, change) + [Take(false), RemoveStale(l.shardOf(name))];
            && Possible(l, Start(l, s), steps, empty)
            && var v := Run(l, Start(l, s), steps, empty);
               && name in v.ideal && name !in Tiers.Loaded(l, v.store.files)
               && l.shardOf(name) !in v.store.dirty && l.shardOf(name) !in Loose(l, v)
  {
    var shard := l.shardOf(name);
    var w := WritesAfterList(l, s, name, change, empty);
    FlattenAt(l, w.store, name);
    LookIsCatalogued(l, w.store, Loose(l, w), name);
    assert Pending(l, w.writers) == {};
    LateMarkLoses(l, w, shard, name, empty);
    var v := Run(l, w, [Take(false), RemoveStale(shard)], empty);
    LeadsThen(l, Start(l, s), WriteAfterList(name, change), w, [Take(false), RemoveStale(shard)], v, empty);
  }

  // ---------------------------------------------------------------------
  // A save that reads what a page-in has replaced.
  // ---------------------------------------------------------------------

  /** A save has begun a shard of one namespace and has yet to read it. */
  ghost predicate AboutToRead<N(!new), K(!new), V>(l: Layout<N, K>, w: World<N, K, V>, name: N)
  {
    var shard := l.shardOf(name);
    && Inv(l, w) && Reading(w) && w.eviction.None?
    && w.save.value.current.value.shard == shard && shard !in w.save.value.todo && shard !in w.save.value.stale
    && w.save.value.current.value.unread == {name} && w.save.value.current.value.buffer == map[]
    && Catalogue(w.store, shard) == {name} && shard in w.store.shards && name in w.store.namespaces
  }

  /** Its handle is to an object that is no longer the one in memory. */
  ghost predicate HoldsOrphan<N(!new), K(!new), V>(l: Layout<N, K>, w: World<N, K, V>, name: N)
  {
    && AboutToRead(l, w, name) && !Holds(w, w.save.value.current.value, name)
    && l.shardOf(name) !in Pending(l, w.writers) && 2 !in w.writers
  }

  lemma ReloadOrphans<N(!new), K(!new), V>(l: Layout<N, K>, w: World<N, K, V>, name: N, empty: V)
    returns (v: World<N, K, V>)
    requires AboutToRead(l, w, name) && Holds(w, w.save.value.current.value, name)
    requires l.shardOf(name) in w.unflagged && Replaceable(w, l.shardOf(name)) &&
              name in FileOf(w.store, l.shardOf(name))
    requires At(w.writers, 1, Seeking) && l.shardOf(w.writers[1].name) == l.shardOf(name) && 2 !in w.writers
    ensures Goes(l, w, Load(1), v, empty) && HoldsOrphan(l, v, name)
    ensures v.store == w.store && v.ideal == w.ideal && v.writers == Advanced(w.writers, 1, Loaded)
  {
    var shard := l.shardOf(name);
    LooseNotEvicted(l, w.store, Loose(l, w), shard);
    ReloadKeeps(l, w, 1);
    ReloadedStore(l, w.store, Loose(l, w), shard);
    v := AfterLoad(l, w, 1);
    GoesLoad(l, w, 1, v, empty);
    PendingNames(l, w, v, name);
  }

  /** Whoever holds anything of the shard unmarked holds this one namespace. */
  lemma PendingNames<N(!new), K(!new), V>(l: Layout<N, K>, w: World<N, K, V>, v: World<N, K, V>, name: N)
    requires AboutToRead(l, w, name) && Replaceable(w, l.shardOf(name)) && name in FileOf(w.store, l.shardOf(name))
    requires 1 in w.writers && v.writers == Advanced(w.writers, 1, Loaded)
    ensures l.shardOf(name) !in Pending(l, v.writers)
  {
    forall i | i in v.writers && YetToMark(v.writers[i].phase) ensures l.shardOf(v.writers[i].name) != l.shardOf(name) {
      assert w.writers[i] == v.writers[i] && Live(w, w.writers[i]) && NameSound(l, w.store, w.writers[i].name);
    }
  }

  lemma FlagsOrphaned<N(!new), K(!new), V>(l: Layout<N, K>, w: World<N, K, V>, name: N, empty: V)
    returns (v: World<N, K, V>)
    requires HoldsOrphan(l, w, name) && At(w.writers, 1, Loaded) && l.shardOf(w.writers[1].name) == l.shardOf(name)
    ensures Goes(l, w, Flag(1), v, empty) && HoldsOrphan(l, v, name) && Flagged(v, l.shardOf(name))
    ensures v.store.namespaces == w.store.namespaces && v.ideal == w.ideal
  {
    var shard := l.shardOf(name);
    LooseNotEvicted(l, w.store, Loose(l, w), shard);
    v := FlagGoes(l, w, 1, shard, empty);
    PendingAt(l, w.writers, 1, v.writers[1]);
  }

  lemma SeeksNew<N(!new), K(!new), V>(l: Layout<N, K>, w: World<N, K, V>, name: N, empty: V) returns (v: World<N, K, V>)
    requires HoldsOrphan(l, w, name)
    ensures Goes(l, w, Seek(2, name), v, empty) && Inv(l, v)
    ensures v == w.(writers := w.writers[2 := Holding(w, name)])
  {
    SeekKeeps(l, w, 2, name, empty);
    v := Next(l, w, Seek(2, name), empty);
  }

  lemma RecordsNew<N(!new), K(!new), V>(l: Layout<N, K>, w: World<N, K, V>, name: N, change: V -> V, empty: V)
    returns (v: World<N, K, V>)
    requires Inv(l, w) && 2 in w.writers && w.writers[2] == Holding(w, name)
    ensures Goes(l, w, Record(2, change), v, empty) && Inv(l, v) && name in w.store.namespaces
    ensures var named := w.store.namespaces[name := change(w.store.namespaces[name])];
            v == w.(store := w.store.(namespaces := named), writers := Advanced(w.writers, 2, Recorded),
                    ideal := w.ideal[name := change(w.store.namespaces[name])])
  {
    RecordKeeps(l, w, 2, change, empty);
    assert Live(w, w.writers[2]);
    FlattenAt(l, w.store, name);
    v := Next(l, w, Record(2, change), empty);
  }

  /** The write goes into the object now in memory. */
  lemma WritesNew<N(!new), K(!new), V>(l: Layout<N, K>, w: World<N, K, V>, name: N, change: V -> V, empty: V)
    returns (v: World<N, K, V>)
    requires HoldsOrphan(l, w, name) && Flagged(w, l.shardOf(name))
    ensures Leads(l, w, [Seek(2, name), Record(2, change)], v, empty) && AboutToRead(l, v, name)
    ensures Flagged(v, l.shardOf(name)) && !Holds(v, v.save.value.current.value, name)
    ensures v.writers == Advanced(w.writers[2 := Holding(w, name)], 2, Recorded)
    ensures v.ideal == w.ideal[name := change(w.store.namespaces[name])]
  {
    var u := SeeksNew(l, w, name, empty);
    v := RecordsNew(l, u, name, change, empty);
    LeadsTwo(l, w, Seek(2, name), u, Record(2, change), v, empty);
  }

  lemma ThereAndBack<N>(writers: map<nat, Writer<N>>, x: Writer<N>)
    requires 2 !in writers
    ensures Advanced(Advanced(writers[2 := x], 2, Recorded), 2, Marked) - {2} == writers
  {
  }

  lemma MarksNew<N(!new), K(!new), V>(l: Layout<N, K>, was: World<N, K, V>, w: World<N, K, V>, name: N, empty: V)
    returns (v: World<N, K, V>)
    requires AboutToRead(l, w, name) && Flagged(w, l.shardOf(name)) && !Holds(w, w.save.value.current.value, name)
    requires w.writers == Advanced(was.writers[2 := Holding(was, name)], 2, Recorded)
    requires 2 !in was.writers && l.shardOf(name) !in Pending(l, was.writers)
    ensures Leads(l, w, [Mark(2), Release(2)], v, empty) && HoldsOrphan(l, v, name)
    ensures Flagged(v, l.shardOf(name)) && v.ideal == w.ideal && v.writers == was.writers
  {
    MarkStepKeeps(l, w, 2, empty);
    var u := Next(l, w, Mark(2), empty);
    ReleaseKeeps(l, u, 2, empty);
    v := Next(l, u, Release(2), empty);
    ThereAndBack(was.writers, Holding(was, name));
    LeadsTwo(l, w, Mark(2), u, Release(2), v, empty);
  }

  /** The eviction writes the shard and clears its mark: nothing of it has been
      read by the save, so nothing speaks against that. */
  lemma SavesNew<N(!new), K(!new), V>(l: Layout<N, K>, w: World<N, K, V>, name: N, empty: V)
    returns (v: World<N, K, V>)
    requires HoldsOrphan(l, w, name) && Flagged(w, l.shardOf(name)) && l.shardOf(name) != l.pinned
    ensures var shard := l.shardOf(name);
            Leads(l, w, [SaveIdle(shard, Snapshot(l, w.store.namespaces, shard)), Unmark], v, empty)
    ensures v.save == w.save && v.writers == w.writers && v.ideal == w.ideal && v.ids == w.ids
    ensures v.store.namespaces == w.store.namespaces && l.shardOf(name) !in v.store.dirty
  {
    var shard := l.shardOf(name);
    var content := Snapshot(l, w.store.namespaces, shard);
    SaveIdleKeeps(l, w, shard, content, empty);
    var u := Next(l, w, SaveIdle(shard, content), empty);
    v := Next(l, u, Unmark, empty);
    LeadsTwo(l, w, SaveIdle(shard, content), u, Unmark, v, empty);
  }

  lemma ReadsOld<N(!new), K(!new), V>(l: Layout<N, K>, w: World<N, K, V>, name: N, seen: V, empty: V)
    returns (v: World<N, K, V>)
    requires Reading(w) && w.save.value.current.value.unread == {name} && w.save.value.current.value.buffer == map[]
    requires w.save.value.current.value.shard == l.shardOf(name) && !Holds(w, w.save.value.current.value, name)
    ensures Leads(l, w, [Serialise(name, seen), FinishShard], v, empty)
    ensures v.store == w.store.(files := w.store.files[l.shardOf(name) := map[name := seen]])
    ensures v.writers == w.writers && v.ideal == w.ideal && v.save == Some(w.save.value.(current := None))
  {
    var c := w.save.value.current.value;
    assert c.unread - {name} == {} && c.buffer[name := seen] == map[name := seen];
    var u := w.(save := Some(w.save.value.(current := Some(c.(unread := {}, buffer := map[name := seen])))));
    v := Next(l, u, FinishShard, empty);
    LeadsTwo(l, w, Serialise(name, seen), u, FinishShard, v, empty);
  }

  function ReadOrphan<N, K, V>(l: Layout<N, K>, name: N, change: V -> V, seen: V): seq<Step<N, K, V>>
  {
    [Load(1), Flag(1)] + [Seek(2, name), Record(2, change)] + [Mark(2), Release(2)] +
    SaveThenRead(l, name, change(seen), seen)
  }

  function SaveThenRead<N, K, V>(l: Layout<N, K>, name: N, now: V, seen: V): seq<Step<N, K, V>>
  {
    [SaveIdle(l.shardOf(name), map[name := now]), Unmark] + [Serialise(name, seen), FinishShard]
  }

  /** Whenever a save has begun a shard of one namespace that a page-in has yet to
      call resident, and is what its file says: a second page-in, a write, an
      eviction as far as clearing its mark, and the save's reading of what it holds
      leave the file behind, and the shard unmarked. */
  lemma OrphanReadLoses<N(!new), K(!new), V>(l: Layout<N, K>, w: World<N, K, V>, name: N, change: V -> V, empty: V)
    requires AboutToRead(l, w, name) && Holds(w, w.save.value.current.value, name) && l.shardOf(name) != l.pinned
    requires l.shardOf(name) in w.unflagged && Replaceable(w, l.shardOf(name)) &&
              name in FileOf(w.store, l.shardOf(name))
    requires At(w.writers, 1, Seeking) && l.shardOf(w.writers[1].name) == l.shardOf(name) && 2 !in w.writers
    ensures var seen := w.store.namespaces[name];
            && Possible(l, w, ReadOrphan(l, name, change, seen), empty)
            && var v := Run(l, w, ReadOrphan(l, name, change, seen), empty);
               && v.ideal == w.ideal[name := change(seen)]
               && name in Tiers.Loaded(l, v.store.files) && Tiers.Loaded(l, v.store.files)[name] == seen
               && l.shardOf(name) !in v.store.dirty && l.shardOf(name) !in Loose(l, v)
  {
    var seen := w.store.namespaces[name];
    var c := OrphanWritten(l, w, name, change, empty);
    var first: seq<Step<N, K, V>> := [Load(1), Flag(1)] + [Seek(2, name), Record(2, change)] + [Mark(2), Release(2)];
    var v := SavedThenRead(l, c, name, change(seen), seen, empty);
    LeadsThen(l, w, first, c, SaveThenRead(l, name, change(seen), seen), v, empty);
  }

  lemma SavedThenRead<N(!new), K(!new), V>(l: Layout<N, K>, w: World<N, K, V>, name: N, now: V, seen: V, empty: V)
    returns (v: World<N, K, V>)
    requires HoldsOrphan(l, w, name) && Flagged(w, l.shardOf(name)) && l.shardOf(name) != l.pinned
    requires w.store.namespaces[name] == now
    ensures Leads(l, w, SaveThenRead(l, name, now, seen), v, empty) && v.ideal == w.ideal
    ensures name in Tiers.Loaded(l, v.store.files) && Tiers.Loaded(l, v.store.files)[name] == seen
    ensures l.shardOf(name) !in v.store.dirty && l.shardOf(name) !in Loose(l, v)
  {
    OnlyName(l, w, name);
    var u := SavesNew(l, w, name, empty);
    v := ReadsOld(l, u, name, seen, empty);
    LeadsThen(l, w, [SaveIdle(l.shardOf(name), map[name := now]), Unmark], u,
              [Serialise(name, seen), FinishShard], v, empty);
    LoadedAt(l, v.store, name);
  }

  lemma OnlyName<N(!new), K(!new), V>(l: Layout<N, K>, w: World<N, K, V>, name: N)
    requires AboutToRead(l, w, name)
    ensures Snapshot(l, w.store.namespaces, l.shardOf(name)) == map[name := w.store.namespaces[name]]
  {
    LooseNotEvicted(l, w.store, Loose(l, w), l.shardOf(name));
    SnapshotIsCatalogue(l, w.store, l.shardOf(name), Loose(l, w));
  }

  lemma OrphanWritten<N(!new), K(!new), V>(l: Layout<N, K>, w: World<N, K, V>, name: N, change: V -> V, empty: V)
    returns (v: World<N, K, V>)
    requires AboutToRead(l, w, name) && Holds(w, w.save.value.current.value, name)
    requires l.shardOf(name) in w.unflagged && Replaceable(w, l.shardOf(name)) &&
              name in FileOf(w.store, l.shardOf(name))
    requires At(w.writers, 1, Seeking) && l.shardOf(w.writers[1].name) == l.shardOf(name) && 2 !in w.writers
    ensures Leads(l, w, [Load(1), Flag(1)] + [Seek(2, name), Record(2, change)] + [Mark(2), Release(2)], v, empty)
    ensures HoldsOrphan(l, v, name) && Flagged(v, l.shardOf(name))
    ensures v.ideal == w.ideal[name := change(w.store.namespaces[name])]
    ensures v.store.namespaces[name] == change(w.store.namespaces[name])
  {
    var u := ReloadOrphans(l, w, name, empty);
    var a := FlagsOrphaned(l, u, name, empty);
    LeadsTwo(l, w, Load(1), u, Flag(1), a, empty);
    var b := WritesNew(l, a, name, change, empty);
    v := MarksNew(l, a, b, name, empty);
    LeadsThen(l, w, [Load(1), Flag(1)], a, [Seek(2, name), Record(2, change)], b, empty);
    LeadsThen(l, w, [Load(1), Flag(1)] + [Seek(2, name), Record(2, change)], b, [Mark(2), Release(2)], v, empty);
    FlattenAt(l, v.store, name);
  }
}
