/** The database as one flat map, namespace to value to record, and the
    consensus tally `_all` kept beside the namespaces it counts
    (src/db.rs:626-638, 879-935, 985-1146, 1393-1402, 1904-1908). */
module FlatStore {
  import opened Options
  import opened Sets
  import opened Namespaces
  import opened Attributes

  type Values = map<string, Attr>
  type Flat = map<string, Values>

  /** This server's name, and the two settings that shape a write. */
  datatype Policy = Policy(node: string, retention: nat, shadowTtl: nat)

  function In(f: Flat, name: string): Values
  {
    if name in f then f[name] else map[]
  }

  // ---------------------------------------------------------------------
  // What each operation means.
  // ---------------------------------------------------------------------

  /** A shadow sighting takes its expiry from policy unless it brings its own. */
  function TtlFor(p: Policy, path: string, ttl: Option<nat>): Option<nat>
  {
    if ttl.Some? then ttl
    else if SHADOW_PREFIX <= path && p.shadowTtl > 0 then Some(p.shadowTtl)
    else None
  }

  datatype Sight = Sight(origin: string, when: int, ttl: Option<nat>, tags: string)

  ghost function SightedIn(values: Values, p: Policy, path: string, value: string, w: Sight): Attr
  {
    Sighted(Held(values, value), w.origin, w.when, TtlFor(p, path, w.ttl), p.retention, w.tags)
  }

  ghost function AfterSighting(f: Flat, p: Policy, path: string, value: string, w: Sight): Attr
  {
    SightedIn(In(f, path), p, path, value, w)
  }

  function Put(f: Flat, path: string, value: string, a: Attr): Flat
  {
    f[path := In(f, path)[value := a]]
  }

  /** One more namespace holds `value`. */
  ghost function CountedUp(f: Flat, p: Policy, value: string, when: int): Flat
  {
    Put(f, ALL_NAMESPACE, value, AfterSighting(f, p, ALL_NAMESPACE, value, Sight(p.node, when, None, "")))
  }

  ghost function Written(f: Flat, p: Policy, path: string, value: string, w: Sight, consensus: bool): Flat
  {
    var g := Put(f, path, value, AfterSighting(f, p, path, value, w));
    if consensus && value !in In(f, path) then CountedUp(g, p, value, w.when) else g
  }

  ghost function MergedIn(f: Flat, p: Policy, path: string, value: string, o: Offer, now: int): Flat
  {
    var g := Put(f, path, value, Merged(Held(In(f, path), value), o, p.node));
    if CountsTowardsConsensus(path) && value !in In(f, path) then CountedUp(g, p, value, now) else g
  }

  predicate CanRetag(f: Flat, path: string, value: string, now: int)
  {
    path in f && value in f[path] && !IsExpired(f[path][value], now)
  }

  function RetaggedIn(f: Flat, path: string, value: string, tags: string, now: int, at: int): Flat
  {
    if CanRetag(f, path, value, now) then Put(f, path, value, Retagged(f[path][value], tags, at)) else f
  }

  function Declared(f: Flat, name: string): Flat
  {
    if name in f then f else f[name := map[]]
  }

  /** Give back one count for each of `gone`, dropping entries that reach zero. */
  ghost function Released(all: Values, node: string, gone: set<string>): Values
  {
    map v | v in all && (v in gone ==> Total(Decremented(all[v], node).counts) > 0)
      :: if v in gone then Decremented(all[v], node) else all[v]
  }

  ghost function CountedDown(f: Flat, p: Policy, gone: set<string>): Flat
  {
    if ALL_NAMESPACE in f then f[ALL_NAMESPACE := Released(f[ALL_NAMESPACE], p.node, gone)] else f
  }

  ghost function Deleted(f: Flat, p: Policy, name: string): Flat
  {
    if name !in f then f
    else if CountsTowardsConsensus(name) then CountedDown(f - {name}, p, f[name].Keys)
    else f - {name}
  }

  function Expired(values: Values, now: int): set<string>
  {
    set v | v in values && IsExpired(values[v], now)
  }

  ghost function SweptOne(f: Flat, p: Policy, name: string, now: int): Flat
  {
    if name !in f || CONFIG_PREFIX <= name then f
    else
      var gone := Expired(f[name], now);
      var g := f[name := f[name] - gone];
      if CountsTowardsConsensus(name) then CountedDown(g, p, gone) else g
  }

  ghost function SweptEach(f: Flat, p: Policy, names: seq<string>, now: int): Flat
    decreases |names|
  {
    if |names| == 0 then f
    else SweptOne(SweptEach(f, p, names[..|names| - 1], now), p, names[|names| - 1], now)
  }

  /** Nothing but expired values, and at least one of them. */
  predicate AllGone(values: Values, now: int)
  {
    Expired(values, now) != {} && values.Keys == Expired(values, now)
  }

  /** Names whose last values this sweep took. */
  ghost function Emptied(f: Flat, p: Policy, names: seq<string>, now: int): set<string>
    decreases |names|
  {
    if |names| == 0 then {}
    else
      var front, n := names[..|names| - 1], names[|names| - 1];
      var g := SweptEach(f, p, front, now);
      Emptied(f, p, front, now) + if n in g && !(CONFIG_PREFIX <= n) && AllGone(g[n], now) then {n} else {}
  }

  /** How many values a sweep of `names` removes. */
  ghost function ExpiredIn(f: Flat, p: Policy, names: seq<string>, now: int): nat
    decreases |names|
  {
    if |names| == 0 then 0
    else
      var front, n := names[..|names| - 1], names[|names| - 1];
      ExpiredIn(f, p, front, now) +
      if CONFIG_PREFIX <= n then 0 else |Expired(In(SweptEach(f, p, front, now), n), now)|
  }

  ghost function Swept(f: Flat, p: Policy, names: seq<string>, now: int): Flat
  {
    SweptEach(f, p, names, now) - Emptied(f, p, names, now)
  }

  // ---------------------------------------------------------------------
  // The tally.
  // ---------------------------------------------------------------------

  /** The namespaces holding `value` that count towards consensus. */
  function Holders(f: Flat, value: string): set<string>
  {
    set n | n in f && CountsTowardsConsensus(n) && value in f[n]
  }

  /** `_all` counts the namespaces holding `value`, and `extra` besides. */
  ghost predicate TallyAt(f: Flat, node: string, extra: string -> nat, value: string)
  {
    var all, h := In(f, ALL_NAMESPACE), |Holders(f, value)| + extra(value);
    && (value in all <==> h > 0)
    && (value in all ==> all[value].counts == map[node := h] && all[value].ttl == 0)
  }

  /** `_all` is over by `extra`, value by value, and has no entry where that makes
      nothing. */
  ghost predicate Tally(f: Flat, node: string, extra: string -> nat)
  {
    forall value :: TallyAt(f, node, extra, value)
  }

  /** Over by nothing: the tally is the size of `Holders`. */
  function Nothing(): string -> nat
  {
    (value: string) => 0
  }

  lemma HoldersPut(f: Flat, name: string, values: Values, value: string)
    ensures Holders(f[name := values], value) ==
            if CountsTowardsConsensus(name) && value in values then Holders(f, value) + {name}
            else Holders(f, value) - {name}
  {
  }

  lemma HoldersRemove(f: Flat, gone: set<string>, value: string)
    ensures Holders(f - gone, value) == Holders(f, value) - gone
  {
  }

  /** `_all` itself is not one of the namespaces it counts. */
  lemma HoldersIgnoreAll(f: Flat, values: Values, value: string)
    ensures Holders(f[ALL_NAMESPACE := values], value) == Holders(f, value)
  {
    AllIsInternal();
    HoldersPut(f, ALL_NAMESPACE, values, value);
  }

  lemma SingleTotal(node: string, h: nat)
    ensures Total(map[node := h]) == h
  {
    TotalTake(map[node := h], node);
    assert map[node := h] - {node} == map[];
  }

  /** Enough for a search to stop by: no entry, or one no lower than the truth. */
  ghost predicate NeverUnder(f: Flat)
  {
    forall value :: value in In(f, ALL_NAMESPACE) ==>
      Total(In(f, ALL_NAMESPACE)[value].counts) >= |Holders(f, value)|
  }

  lemma TallyNeverUnder(f: Flat, node: string, extra: string -> nat)
    requires Tally(f, node, extra)
    ensures NeverUnder(f)
    ensures forall value :: Total(Held(In(f, ALL_NAMESPACE), value).counts) == |Holders(f, value)| + extra(value)
  {
    forall value ensures Total(Held(In(f, ALL_NAMESPACE), value).counts) == |Holders(f, value)| + extra(value) {
      assert TallyAt(f, node, extra, value);
      SingleTotal(node, |Holders(f, value)| + extra(value));
      TotalZero(map[]);
    }
    forall value | value in In(f, ALL_NAMESPACE)
      ensures Total(In(f, ALL_NAMESPACE)[value].counts) >= |Holders(f, value)|
    {
      assert Total(Held(In(f, ALL_NAMESPACE), value).counts) == |Holders(f, value)| + extra(value);
    }
  }

  lemma OneMoreInAll(a: Attr, node: string, when: int, retention: nat, h: nat)
    requires h > 0 && a.ttl == 0 && a.counts == if h == 1 then map[] else map[node := h - 1]
    ensures Sighted(a, node, when, None, retention, "").counts == map[node := h]
    ensures Sighted(a, node, when, None, retention, "").ttl == 0
  {
    SightedCounts(a, node, when, None, retention, "");
    SightedTags(a, node, when, None, retention, "");
    BumpSingle(a.counts, node, h);
  }

  lemma BumpSingle<K>(counts: map<K, nat>, k: K, h: nat)
    requires h > 0 && counts == if h == 1 then map[] else map[k := h - 1]
    ensures Bumped(counts, k) == map[k := h]
  {
  }

  /** The entry `_all` gets when one more namespace holds a value. */
  lemma CountedEntry(f: Flat, p: Policy, value: string, when: int, h: nat)
    requires var all := In(f, ALL_NAMESPACE);
             if value in all then h > 1 && all[value].counts == map[p.node := h - 1] && all[value].ttl == 0
             else h == 1
    ensures var all := In(CountedUp(f, p, value, when), ALL_NAMESPACE);
            value in all && all[value].counts == map[p.node := h] && all[value].ttl == 0
  {
    AllIsInternal();
    assert TtlFor(p, ALL_NAMESPACE, None) == None;
    OneMoreInAll(Held(In(f, ALL_NAMESPACE), value), p.node, when, p.retention, h);
  }

  /** Counting one value up: the tally of that value rises by one, no other moves. */
  lemma CountUpAt(f: Flat, p: Policy, extra: string -> nat, added: string, when: int, value: string)
    requires value != added ==> TallyAt(f, p.node, extra, value)
    requires value == added ==>
               var all, h := In(f, ALL_NAMESPACE), |Holders(f, value)| + extra(value);
               if value in all then h > 1 && all[value].counts == map[p.node := h - 1] && all[value].ttl == 0
               else h == 1
    ensures TallyAt(CountedUp(f, p, added, when), p.node, extra, value)
  {
    var all := In(CountedUp(f, p, added, when), ALL_NAMESPACE);
    HoldersIgnoreAll(f, all, value);
    if value == added { CountedEntry(f, p, value, when, |Holders(f, value)| + extra(value)); }
  }

  /** Storing a record in a namespace that counts, with the tally brought up
      when the value is new there. */
  lemma PutKeepsTally(f: Flat, p: Policy, extra: string -> nat, path: string, value: string, a: Attr, when: int)
    requires Tally(f, p.node, extra) && CountsTowardsConsensus(path)
    ensures var g := Put(f, path, value, a);
            Tally(if value !in In(f, path) then CountedUp(g, p, value, when) else g, p.node, extra)
  {
    var g := Put(f, path, value, a);
    var isNew := value !in In(f, path);
    var after := if isNew then CountedUp(g, p, value, when) else g;
    forall v ensures TallyAt(after, p.node, extra, v) {
      assert TallyAt(f, p.node, extra, v);
      PutTallyAt(f, p, extra, path, value, a, v);
      if isNew { CountUpAt(g, p, extra, value, when, v); }
    }
  }

  /** Between the record and the tally: only the value just stored is out, by one. */
  lemma PutTallyAt(f: Flat, p: Policy, extra: string -> nat, path: string, value: string, a: Attr, v: string)
    requires TallyAt(f, p.node, extra, v) && CountsTowardsConsensus(path)
    ensures var g := Put(f, path, value, a);
            if v == value && value !in In(f, path)
            then In(g, ALL_NAMESPACE) == In(f, ALL_NAMESPACE) && |Holders(g, v)| == |Holders(f, v)| + 1
            else TallyAt(g, p.node, extra, v)
  {
    var g := Put(f, path, value, a);
    assert path != ALL_NAMESPACE && In(g, ALL_NAMESPACE) == In(f, ALL_NAMESPACE);
    if v == value && value !in In(f, path) {
      HoldersPut(f, path, In(f, path)[value := a], v);
      assert path !in Holders(f, v) && Holders(g, v) == Holders(f, v) + {path};
    } else {
      SameHolders(f, path, value, a, v);
    }
  }

  /** A value already there, or another value: its holders stay as they were. */
  lemma SameHolders(f: Flat, path: string, value: string, a: Attr, v: string)
    requires v != value || v in In(f, path)
    ensures Holders(Put(f, path, value, a), v) == Holders(f, v)
  {
    HoldersPut(f, path, In(f, path)[value := a], v);
  }

  /** Namespaces that do not count may change freely. */
  lemma UncountedKeepsTally(f: Flat, p: Policy, extra: string -> nat, path: string, values: Values)
    requires Tally(f, p.node, extra) && !CountsTowardsConsensus(path) && path != ALL_NAMESPACE
    ensures Tally(f[path := values], p.node, extra)
  {
    var g := f[path := values];
    forall v ensures TallyAt(g, p.node, extra, v) {
      assert TallyAt(f, p.node, extra, v);
      UncountedHolders(f, path, values, v);
    }
  }

  lemma UncountedHolders(f: Flat, path: string, values: Values, v: string)
    requires !CountsTowardsConsensus(path) && path != ALL_NAMESPACE
    ensures Holders(f[path := values], v) == Holders(f, v)
    ensures In(f[path := values], ALL_NAMESPACE) == In(f, ALL_NAMESPACE)
  {
    HoldersPut(f, path, values, v);
    assert path !in Holders(f, v);
  }

  /** What the server accepts: a client's namespace with the tally kept, or a
      search recorded under `_shadow/` without it. */
  predicate Accepts(path: string, consensus: bool)
  {
    if consensus then !IsInternal(path) else SHADOW_PREFIX <= path
  }

  lemma AcceptedCounts(path: string, consensus: bool)
    requires Accepts(path, consensus)
    ensures consensus <==> CountsTowardsConsensus(path)
    ensures path != ALL_NAMESPACE
  {
    AllIsInternal();
    if consensus { ClientNamespaceCounts(path); } else { ShadowIsInternal(path); }
  }

  lemma WrittenKeepsTally(f: Flat, p: Policy, extra: string -> nat, path: string, value: string, w: Sight,
                          consensus: bool)
    requires Tally(f, p.node, extra) && Accepts(path, consensus)
    ensures Tally(Written(f, p, path, value, w, consensus), p.node, extra)
  {
    AcceptedCounts(path, consensus);
    var a := AfterSighting(f, p, path, value, w);
    if consensus {
      PutKeepsTally(f, p, extra, path, value, a, w.when);
    } else {
      UncountedKeepsTally(f, p, extra, path, In(f, path)[value := a]);
    }
  }

  lemma MergedInKeepsTally(f: Flat, p: Policy, extra: string -> nat, path: string, value: string, o: Offer, now: int)
    requires Tally(f, p.node, extra) && !IsInternal(path)
    ensures Tally(MergedIn(f, p, path, value, o, now), p.node, extra)
  {
    ClientNamespaceCounts(path);
    PutKeepsTally(f, p, extra, path, value, Merged(Held(In(f, path), value), o, p.node), now);
  }

  /** Replacing tags, even those of `_all`, moves no count. */
  lemma RetaggedInKeepsTally(f: Flat, p: Policy, extra: string -> nat, path: string, value: string, tags: string,
                             now: int, at: int)
    requires Tally(f, p.node, extra)
    ensures Tally(RetaggedIn(f, path, value, tags, now, at), p.node, extra)
  {
    if CanRetag(f, path, value, now) {
      var g := RetaggedIn(f, path, value, tags, now, at);
      forall v ensures TallyAt(g, p.node, extra, v) {
        assert TallyAt(f, p.node, extra, v);
        SameHolders(f, path, value, Retagged(f[path][value], tags, at), v);
      }
    }
  }

  lemma DeclaredKeepsTally(f: Flat, p: Policy, extra: string -> nat, name: string)
    requires Tally(f, p.node, extra)
    ensures Tally(Declared(f, name), p.node, extra)
  {
    if name !in f {
      forall v ensures TallyAt(Declared(f, name), p.node, extra, v) {
        assert TallyAt(f, p.node, extra, v);
        DeclaredHolders(f, name, v);
      }
    }
  }

  lemma DeclaredHolders(f: Flat, name: string, v: string)
    requires name !in f
    ensures Holders(Declared(f, name), v) == Holders(f, v)
    ensures In(Declared(f, name), ALL_NAMESPACE) == In(f, ALL_NAMESPACE)
  {
    HoldersPut(f, name, map[], v);
  }

  /** Counting down: `gone` are values one namespace has just stopped holding. */
  lemma CountDownAt(f: Flat, g: Flat, p: Policy, extra: string -> nat, gone: set<string>, name: string, value: string)
    requires TallyAt(f, p.node, extra, value) && CountsTowardsConsensus(name)
    requires In(g, ALL_NAMESPACE) == In(f, ALL_NAMESPACE)
    requires Holders(g, value) == if value in gone then Holders(f, value) - {name} else Holders(f, value)
    requires value in gone ==> name in Holders(f, value)
    ensures TallyAt(CountedDown(g, p, gone), p.node, extra, value)
  {
    if ALL_NAMESPACE in g {
      var all := g[ALL_NAMESPACE];
      HoldersIgnoreAll(g, Released(all, p.node, gone), value);
      if value in gone && value in all {
        DecrementCounts(all[value], p.node);
        var h := |Holders(f, value)| + extra(value);
        SingleTotal(p.node, h);
        assert Decremented(all[value], p.node).counts == if h <= 1 then map[] else map[p.node := h - 1];
      }
    }
  }

  lemma DeletedKeepsTally(f: Flat, p: Policy, extra: string -> nat, name: string)
    requires Tally(f, p.node, extra) && !IsInternal(name)
    ensures Tally(Deleted(f, p, name), p.node, extra)
  {
    ClientNamespaceCounts(name);
    if name in f {
      forall v ensures TallyAt(Deleted(f, p, name), p.node, extra, v) {
        assert TallyAt(f, p.node, extra, v);
        HoldersRemove(f, {name}, v);
        CountDownAt(f, f - {name}, p, extra, f[name].Keys, name, v);
      }
    }
  }

  lemma NothingExpiresInAll(f: Flat, p: Policy, extra: string -> nat, now: int)
    requires Tally(f, p.node, extra)
    ensures Expired(In(f, ALL_NAMESPACE), now) == {}
  {
    forall v | v in In(f, ALL_NAMESPACE) ensures !IsExpired(In(f, ALL_NAMESPACE)[v], now) {
      assert TallyAt(f, p.node, extra, v);
    }
  }

  lemma SweptOneKeepsTally(f: Flat, p: Policy, extra: string -> nat, name: string, now: int)
    requires Tally(f, p.node, extra)
    ensures Tally(SweptOne(f, p, name, now), p.node, extra)
  {
    AllIsInternal();
    if name in f && !(CONFIG_PREFIX <= name) {
      var gone := Expired(f[name], now);
      var left := f[name] - gone;
      if name == ALL_NAMESPACE {
        NothingExpiresInAll(f, p, extra, now);
        assert left == f[name] && f[name := left] == f;
      } else if CountsTowardsConsensus(name) {
        forall v ensures TallyAt(SweptOne(f, p, name, now), p.node, extra, v) {
          assert TallyAt(f, p.node, extra, v);
          HoldersPut(f, name, left, v);
          assert v in f[name] ==> name in Holders(f, v);
          assert v !in f[name] ==> name !in Holders(f, v);
          CountDownAt(f, f[name := left], p, extra, gone, name, v);
        }
      } else {
        UncountedKeepsTally(f, p, extra, name, left);
      }
    }
  }

  lemma {:induction false} SweptEachKeepsTally(f: Flat, p: Policy, extra: string -> nat, names: seq<string>, now: int)
    requires Tally(f, p.node, extra)
    ensures Tally(SweptEach(f, p, names, now), p.node, extra)
    decreases |names|
  {
    if |names| > 0 {
      SweptEachKeepsTally(f, p, extra, names[..|names| - 1], now);
      SweptOneKeepsTally(SweptEach(f, p, names[..|names| - 1], now), p, extra, names[|names| - 1], now);
    }
  }

  /** Outside `_all`, a sweep leaves each namespace it visits without its
      expired values and touches no other, in whatever order it goes. */
  lemma {:induction false} SweptEachAt(f: Flat, p: Policy, names: seq<string>, now: int, n: string)
    requires n != ALL_NAMESPACE
    ensures n in SweptEach(f, p, names, now) <==> n in f
    ensures n in f ==>
              SweptEach(f, p, names, now)[n] ==
              (if n in names && !(CONFIG_PREFIX <= n) then f[n] - Expired(f[n], now) else f[n])
    decreases |names|
  {
    if |names| > 0 {
      var front, last := names[..|names| - 1], names[|names| - 1];
      SweptEachAt(f, p, front, now, n);
      var g := SweptEach(f, p, front, now);
      assert names == front + [last];
      if n in f && n == last {
        assert Expired(f[n] - Expired(f[n], now), now) == {};
        assert f[n] - Expired(f[n], now) - {} == f[n] - Expired(f[n], now);
      }
    }
  }

  /** What a sweep has emptied stays empty to its end. */
  lemma {:induction false} EmptiedIsEmpty(f: Flat, p: Policy, names: seq<string>, now: int)
    ensures forall n :: n in Emptied(f, p, names, now) ==>
              n in names && n in SweptEach(f, p, names, now) && SweptEach(f, p, names, now)[n] == map[]
    decreases |names|
  {
    if |names| > 0 {
      var front, last := names[..|names| - 1], names[|names| - 1];
      EmptiedIsEmpty(f, p, front, now);
      var g := SweptEach(f, p, front, now);
      assert names == front + [last];
      forall n | n in Emptied(f, p, names, now)
        ensures n in SweptOne(g, p, last, now) && SweptOne(g, p, last, now)[n] == map[]
      {
        SweptOneEmpty(g, p, last, now, n);
      }
    }
  }

  lemma SweptOneEmpty(g: Flat, p: Policy, name: string, now: int, n: string)
    requires n in g
    requires g[n] == map[] || (n == name && !(CONFIG_PREFIX <= n) && AllGone(g[n], now))
    ensures n in SweptOne(g, p, name, now) && SweptOne(g, p, name, now)[n] == map[]
  {
    AllIsInternal();
    assert Released(map[], p.node, {}) == map[];
    if name in g && !(CONFIG_PREFIX <= name) {
      var gone := Expired(g[name], now);
      assert n == name ==> g[name] - gone == map[];
      assert Released(map[], p.node, gone) == map[];
    }
  }

  lemma NoneLeftToExpire(values: Values, now: int)
    ensures !AllGone(values - Expired(values, now), now)
  {
    assert Expired(values - Expired(values, now), now) == {};
  }

  /** Outside `_all`, what a sweep empties held nothing but expired values. */
  lemma {:induction false} EmptiedHadExpired(f: Flat, p: Policy, names: seq<string>, now: int, n: string)
    requires n != ALL_NAMESPACE && n in Emptied(f, p, names, now)
    ensures n in f && AllGone(f[n], now)
    decreases |names|
  {
    var front := names[..|names| - 1];
    if n in Emptied(f, p, front, now) {
      EmptiedHadExpired(f, p, front, now, n);
    } else {
      SweptEachAt(f, p, front, now, n);
      NoneLeftToExpire(f[n], now);
    }
  }

  lemma {:induction false} AllNotEmptied(f: Flat, p: Policy, extra: string -> nat, names: seq<string>, now: int)
    requires Tally(f, p.node, extra)
    ensures ALL_NAMESPACE !in Emptied(f, p, names, now)
    decreases |names|
  {
    if |names| > 0 {
      var front := names[..|names| - 1];
      AllNotEmptied(f, p, extra, front, now);
      SweptEachKeepsTally(f, p, extra, front, now);
      NothingExpiresInAll(SweptEach(f, p, front, now), p, extra, now);
    }
  }

  lemma SweptKeepsTally(f: Flat, p: Policy, extra: string -> nat, names: seq<string>, now: int)
    requires Tally(f, p.node, extra)
    ensures Tally(Swept(f, p, names, now), p.node, extra)
  {
    var g, gone := SweptEach(f, p, names, now), Emptied(f, p, names, now);
    SweptEachKeepsTally(f, p, extra, names, now);
    AllNotEmptied(f, p, extra, names, now);
    EmptiedIsEmpty(f, p, names, now);
    forall v ensures TallyAt(g - gone, p.node, extra, v) {
      assert TallyAt(g, p.node, extra, v);
      HoldersRemove(g, gone, v);
      assert Holders(g, v) - gone == Holders(g, v);
    }
  }

  // ---------------------------------------------------------------------
  // Whole runs.
  // ---------------------------------------------------------------------

  datatype Op =
    | Write(path: string, value: string, sight: Sight, consensus: bool)
    | Merge(path: string, value: string, offer: Offer, now: int)
    | Retag(path: string, value: string, tags: string, now: int, at: int)
    | Declare(path: string)
    | Delete(path: string)
    | Sweep(names: seq<string>, now: int)

  predicate Allowed(op: Op)
  {
    match op
    case Write(path, _, _, consensus) => Accepts(path, consensus)
    case Merge(path, _, _, _) => !IsInternal(path)
    case Delete(path) => !IsInternal(path)
    case _ => true
  }

  ghost function Do(f: Flat, p: Policy, op: Op): Flat
  {
    match op
    case Write(path, value, sight, consensus) => Written(f, p, path, value, sight, consensus)
    case Merge(path, value, offer, now) => MergedIn(f, p, path, value, offer, now)
    case Retag(path, value, tags, now, at) => RetaggedIn(f, path, value, tags, now, at)
    case Declare(path) => Declared(f, path)
    case Delete(path) => Deleted(f, p, path)
    case Sweep(names, now) => Swept(f, p, names, now)
  }

  ghost function DoAll(f: Flat, p: Policy, ops: seq<Op>): Flat
    decreases |ops|
  {
    if |ops| == 0 then f else Do(DoAll(f, p, ops[..|ops| - 1]), p, ops[|ops| - 1])
  }

  lemma DoKeepsTally(f: Flat, p: Policy, extra: string -> nat, op: Op)
    requires Tally(f, p.node, extra) && Allowed(op)
    ensures Tally(Do(f, p, op), p.node, extra)
  {
    match op
    case Write(path, value, sight, consensus) => WrittenKeepsTally(f, p, extra, path, value, sight, consensus);
    case Merge(path, value, offer, now) => MergedInKeepsTally(f, p, extra, path, value, offer, now);
    case Retag(path, value, tags, now, at) => RetaggedInKeepsTally(f, p, extra, path, value, tags, now, at);
    case Declare(path) => DeclaredKeepsTally(f, p, extra, path);
    case Delete(path) => DeletedKeepsTally(f, p, extra, path);
    case Sweep(names, now) => SweptKeepsTally(f, p, extra, names, now);
  }

  /** No operation changes by how much `_all` is over: exact stays exact, and an
      excess is neither paid off nor added to. */
  lemma {:induction false} RunKeepsTally(f: Flat, p: Policy, extra: string -> nat, ops: seq<Op>)
    requires Tally(f, p.node, extra) && forall i :: 0 <= i < |ops| ==> Allowed(ops[i])
    ensures Tally(DoAll(f, p, ops), p.node, extra)
    decreases |ops|
  {
    if |ops| > 0 {
      RunKeepsTally(f, p, extra, ops[..|ops| - 1]);
      DoKeepsTally(DoAll(f, p, ops[..|ops| - 1]), p, extra, ops[|ops| - 1]);
    }
  }

  /** From an empty database, after any run: `_all` is the number of namespaces
      that store the value, and reads as zero exactly when there is none. */
  lemma TallyIsExact(p: Policy, ops: seq<Op>, value: string)
    requires forall i :: 0 <= i < |ops| ==> Allowed(ops[i])
    ensures var f := DoAll(map[], p, ops);
            && Total(Held(In(f, ALL_NAMESPACE), value).counts) == |Holders(f, value)|
            && (value in In(f, ALL_NAMESPACE) <==> Holders(f, value) != {})
  {
    var start: Flat := map[];
    assert forall v :: Holders(start, v) == {};
    assert Tally(start, p.node, Nothing());
    RunKeepsTally(start, p, Nothing(), ops);
    var f := DoAll(start, p, ops);
    assert TallyAt(f, p.node, Nothing(), value);
    SingleTotal(p.node, |Holders(f, value)|);
    TotalZero(map[]);
  }
}
