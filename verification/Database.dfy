/** The database: tiers changed in place, proved against the flat map
    (src/db.rs, src/persistence.rs:107-155, 228-273). */
module Databases {
  import opened Options
  import opened Sets
  import opened Namespaces
  import opened Attributes
  import opened FlatStore
  import opened Tiers
  import opened Text
  import opened Searching

  type Store = State<string, string, Values>

  /** How namespaces are sharded: the internal shard, which `_all` is in, stays
      in memory. */
  const SHARDING := Layout(n => ShardOf(n), ALL_NAMESPACE, INTERNAL_SHARD)

  predicate Laid(l: Layout<string, string>)
  {
    l.tally == ALL_NAMESPACE && l.shardOf(ALL_NAMESPACE) == l.pinned
  }

  lemma ShardingIsLaid()
    ensures Laid(SHARDING)
  {
    AllIsInternal();
  }

  predicate CannotExpire(values: Values)
  {
    forall v :: v in values ==> values[v].ttl == 0
  }

  /** `has_ttl` is set for every namespace that holds anything that can expire. */
  ghost predicate Flagged(namespaces: Flat, flags: set<string>)
  {
    forall n :: n in namespaces && n !in flags ==> CannotExpire(namespaces[n])
  }

  lemma FlaggedPut(namespaces: Flat, flags: set<string>, name: string, values: Values, more: set<string>)
    requires Flagged(namespaces, flags) && (name in flags + more || CannotExpire(values))
    ensures Flagged(namespaces[name := values], flags + more)
  {
  }

  lemma FlaggedFile(namespaces: Flat, flags: set<string>, file: Flat)
    requires Flagged(namespaces, flags)
    ensures Flagged(namespaces + file, flags + set n | n in file && !CannotExpire(file[n]))
  {
  }

  /** One sighting in one namespace's values, and whether it asks for the flag. */
  method RecordIn(values: Values, p: Policy, path: string, value: string, w: Sight)
    returns (after: Values, count: nat, isNew: bool, flag: bool)
    ensures after == values[value := SightedIn(values, p, path, value, w)]
    ensures count == Total(after[value].counts)
    ensures isNew <==> value !in values
    ensures CannotExpire(values) ==> flag || CannotExpire(after)
  {
    var ttl := TtlFor(p, path, w.ttl);
    flag := ttl.Some? && ttl.value > 0;
    isNew := value !in values;
    var attr;
    attr, count := Sighting(Held(values, value), w.origin, w.when, ttl, p.retention, w.tags);
    TtlAfter(values, p, path, value, w);
    after := values[value := attr];
  }

  lemma TtlAfter(values: Values, p: Policy, path: string, value: string, w: Sight)
    ensures var ttl := TtlFor(p, path, w.ttl);
            SightedIn(values, p, path, value, w).ttl == if ttl.Some? then ttl.value else Held(values, value).ttl
  {
    SightedTags(Held(values, value), w.origin, w.when, TtlFor(p, path, w.ttl), p.retention, w.tags);
  }

  /** `Merged` for one value of a namespace's map, and whether it asks for the flag. */
  method MergeIn(values: Values, node: string, value: string, offer: Offer)
    returns (after: Values, outcome: Outcome, isNew: bool)
    ensures after == values[value := Merged(Held(values, value), offer, node)]
    ensures outcome.changed <==> ReportsChange(Held(values, value), offer, node)
    ensures outcome.ignoredSelf == if node in offer.counts then 1 else 0
    ensures outcome.count == Total(after[value].counts)
    ensures isNew <==> value !in values
    ensures CannotExpire(values) ==> offer.ttl > 0 || CannotExpire(after)
  {
    isNew := value !in values;
    var attr;
    attr, outcome := Merging(Held(values, value), offer, node);
    after := values[value := attr];
  }

  /** What is stored under a name and has not expired. */
  function Visible(f: Flat, path: string, value: string, now: int): Option<Attr>
  {
    if path in f && value in f[path] && !IsExpired(f[path][value], now) then Some(f[path][value]) else None
  }

  /** The two maps differ at most at `names`. */
  ghost predicate SameBut(f: Flat, g: Flat, names: set<string>)
  {
    forall n :: n !in names ==> (n in f <==> n in g) && (n in f && n in g ==> f[n] == g[n])
  }

  /** A change that was not marked, next to a tally that was: sound exactly when
      the shard was dirty anyway or nothing changed. */
  lemma UnreportedIff(l: Layout<string, string>, was: Store, s: Store, path: string, counted: bool)
    requires Laid(l) && Tiered(l, was, {}) && Tiered(l, s, {} + {l.shardOf(path)})
    requires s.files == was.files && s.dirty == was.dirty + if counted then {l.shardOf(ALL_NAMESPACE)} else {}
    requires path in Flatten(l, s)
    requires SameBut(Flatten(l, was), Flatten(l, s), {path} + if counted then {ALL_NAMESPACE} else {})
    ensures Tiered(l, s, {}) <==>
            || l.shardOf(path) in s.dirty
            || (path in Flatten(l, was) && (path == ALL_NAMESPACE || Flatten(l, was)[path] == Flatten(l, s)[path]))
  {
    assert {} + {l.shardOf(path)} == {l.shardOf(path)};
    UnmarkedIff(l, was, s, path, Flatten(l, s)[path]);
  }

  /** A name of a shard with unmarked changes is in memory if it is anywhere. */
  lemma StaysHere(l: Layout<string, string>, s: Store, loose: set<string>, name: string)
    requires Tiered(l, s, loose) && l.shardOf(name) in loose && name in Flatten(l, s)
    ensures name in s.namespaces && l.shardOf(name) in s.shards
  {
    FlattenAt(l, s, name);
    assert ShardSound(l, s, loose, l.shardOf(name)) && NameSound(l, s, name);
  }

  /** A merge touches its own namespace and, for a value new there, `_all`. */
  lemma MergedElsewhere(f: Flat, p: Policy, path: string, value: string, o: Offer, now: int)
    ensures path in MergedIn(f, p, path, value, o, now)
    ensures SameBut(f, MergedIn(f, p, path, value, o, now),
                    {path} + if value !in In(f, path) && CountsTowardsConsensus(path) then {ALL_NAMESPACE} else {})
  {
    var a := Merged(Held(In(f, path), value), o, p.node);
    PutElsewhere(f, path, value, a, {path});
    var g := Put(f, path, value, a);
    PutElsewhere(g, ALL_NAMESPACE, value, AfterSighting(g, p, ALL_NAMESPACE, value, Sight(p.node, now, None, "")),
                 {ALL_NAMESPACE});
  }

  lemma PutElsewhere(f: Flat, path: string, value: string, a: Attr, names: set<string>)
    requires path in names
    ensures path in Put(f, path, value, a) && SameBut(f, Put(f, path, value, a), names)
  {
  }

  // ---------------------------------------------------------------------
  // Giving consensus back, one value at a time.
  // ---------------------------------------------------------------------

  method ReleaseIn(all: Values, node: string, value: string) returns (after: Values)
    ensures after == Released(all, node, {value})
    ensures CannotExpire(all) ==> CannotExpire(after)
  {
    if value !in all {
      assert Released(all, node, {value}) == all;
      return all;
    }
    var attr, remaining := GivingBack(all[value], node);
    after := if remaining == 0 then all - {value} else all[value := attr];
    assert after == Released(all, node, {value});
  }

  lemma DownNone(f: Flat, p: Policy)
    ensures CountedDown(f, p, {}) == f
  {
    if ALL_NAMESPACE in f { assert Released(f[ALL_NAMESPACE], p.node, {}) == f[ALL_NAMESPACE]; }
  }

  lemma ReleasedOneMore(all: Values, node: string, done: set<string>, value: string)
    requires value !in done
    ensures Released(Released(all, node, done), node, {value}) == Released(all, node, done + {value})
  {
  }

  lemma DownOneMore(f: Flat, p: Policy, done: set<string>, value: string)
    requires value !in done
    ensures CountedDown(CountedDown(f, p, done), p, {value}) == CountedDown(f, p, done + {value})
  {
    if ALL_NAMESPACE in f { ReleasedOneMore(f[ALL_NAMESPACE], p.node, done, value); }
  }

  /** `_all` is in memory whenever it is anywhere. */
  lemma TallyStays(l: Layout<string, string>, s: Store, loose: set<string>)
    requires Laid(l) && Tiered(l, s, loose)
    ensures ALL_NAMESPACE in Flatten(l, s) <==> ALL_NAMESPACE in s.namespaces
  {
    FlattenAt(l, s, ALL_NAMESPACE);
    assert ShardSound(l, s, loose, l.pinned);
  }

  // ---------------------------------------------------------------------
  // Sweeping, one namespace at a time.
  // ---------------------------------------------------------------------

  lemma SweptNext(f: Flat, p: Policy, order: seq<string>, name: string, now: int)
    ensures var g := SweptEach(f, p, order, now);
            && SweptEach(f, p, order + [name], now) == SweptOne(g, p, name, now)
            && ExpiredIn(f, p, order + [name], now) ==
               ExpiredIn(f, p, order, now) + (if CONFIG_PREFIX <= name then 0 else |Expired(In(g, name), now)|)
            && Emptied(f, p, order + [name], now) ==
               Emptied(f, p, order, now) +
               (if name in g && !(CONFIG_PREFIX <= name) && AllGone(g[name], now) then {name} else {})
  {
    var more := order + [name];
    assert more[..|more| - 1] == order;
  }

  /** Everything but `left` is in `order`. */
  ghost predicate Visited(all: set<string>, order: seq<string>, left: set<string>)
  {
    && (forall n :: n in order <==> n in all && n !in left)
    && (forall i, j :: 0 <= i < j < |order| ==> order[i] != order[j])
  }

  lemma VisitNext(all: set<string>, order: seq<string>, left: set<string>, name: string)
    requires Visited(all, order, left) && name in left && left <= all
    ensures name !in order && Visited(all, order + [name], left - {name})
  {
  }

  /** Where a sweep stands after visiting `order`. */
  ghost predicate SweptSoFar(f: Flat, p: Policy, order: seq<string>, now: int, g: Flat, emptied: set<string>,
                             removed: nat)
  {
    && g == SweptEach(f, p, order, now)
    && emptied == Emptied(f, p, order, now)
    && removed == ExpiredIn(f, p, order, now)
  }

  lemma SweepGoesOn(f: Flat, p: Policy, order: seq<string>, now: int, g: Flat, emptied: set<string>, removed: nat,
                    name: string)
    requires name in g && SweptSoFar(f, p, order, now, g, emptied, removed)
    ensures var config := CONFIG_PREFIX <= name;
            SweptSoFar(f, p, order + [name], now, SweptOne(g, p, name, now),
                       if !config && AllGone(g[name], now) then emptied + {name} else emptied,
                       removed + if config then 0 else |Expired(g[name], now)|)
  {
    SweptNext(f, p, order, name, now);
  }

  // ---------------------------------------------------------------------
  // Saving.
  // ---------------------------------------------------------------------

  lemma OneLessLeft<K, V>(m: map<K, V>, all: set<K>, left: set<K>, x: K)
    requires x in left && left <= all
    ensures m - (all - left) - {x} == m - (all - (left - {x}))
  {
    assert all - (left - {x}) == all - left + {x};
  }

  lemma NothingGone<K, V>(m: map<K, V>, all: set<K>)
    ensures m - (all - all) == m
  {
  }

  lemma OneMoreGone<K, V>(m: map<K, V>, done: set<K>, x: K)
    ensures m - done - {x} == m - (done + {x})
  {
  }

  lemma LessOwed<T>(loose: set<T>, done: set<T>, x: T)
    ensures loose - done - {x} == loose - (done + {x})
  {
  }

  lemma NoneOwed<T>(taken: set<T>, present: set<T>, wanted: set<T>)
    requires wanted == present || wanted == present * taken
    ensures taken - wanted - (taken - present) == {}
  {
  }

  predicate InMemory(shards: map<string, Meta<string>>, shard: string)
  {
    shard in shards && shards[shard].resident
  }

  lemma PresentShards(l: Layout<string, string>, s: Store, loose: set<string>)
    requires Tiered(l, s, loose)
    ensures forall shard :: shard in Present(l, s) ==> InMemory(s.shards, shard)
  {
    forall shard | shard in Present(l, s) ensures InMemory(s.shards, shard) {
      var n :| n in s.namespaces && l.shardOf(n) == shard;
      assert NameSound(l, s, n);
    }
  }

  /** In memory, and nothing in it. */
  predicate IsBare(shards: map<string, Meta<string>>, shard: string)
  {
    shard in shards ==> shards[shard] == Meta({}, true)
  }

  /** A shard owed a write that holds nothing has nothing catalogued either. */
  lemma StaleShards(l: Layout<string, string>, s: Store, loose: set<string>, stale: set<string>)
    requires Tiered(l, s, loose) && stale <= loose
    requires forall shard :: shard in stale ==> shard !in Present(l, s)
    ensures forall shard :: shard in stale ==> IsBare(s.shards, shard)
  {
    forall shard | shard in stale ensures IsBare(s.shards, shard) {
      StaleIsBare(l, s, loose, shard);
    }
  }

  lemma StaleIsBare(l: Layout<string, string>, s: Store, loose: set<string>, shard: string)
    requires Tiered(l, s, loose) && shard in loose && shard !in Present(l, s)
    ensures IsBare(s.shards, shard)
  {
    assert ShardSound(l, s, loose, shard);
    forall n ensures n !in Catalogue(s, shard) {
      assert NameSound(l, s, n);
      if n in s.namespaces { assert l.shardOf(n) in Present(l, s); }
    }
    assert Catalogue(s, shard) == {};
  }

  // ---------------------------------------------------------------------
  // Searching.
  // ---------------------------------------------------------------------

  /** One row of a search's answer. */
  datatype Found = Found(namespace: string, count: nat, firstSeen: int, lastSeen: int)

  ghost function FoundIn(f: Flat, name: string, value: string): Found
  {
    var a := Held(In(f, name), value);
    Found(name, Total(a.counts), a.firstSeen, a.lastSeen)
  }

  /** The row tells what is stored where it says. */
  ghost predicate RowOf(f: Flat, row: Found, value: string)
  {
    && row.namespace in f && value in f[row.namespace]
    && var a := f[row.namespace][value];
       row.count == Total(a.counts) && row.firstSeen == a.firstSeen && row.lastSeen == a.lastSeen
  }

  function NamesOf(items: seq<Found>): (r: seq<string>)
    ensures |r| == |items| && forall i :: 0 <= i < |r| ==> r[i] == items[i].namespace
  {
    seq(|items|, i requires 0 <= i < |items| => items[i].namespace)
  }

  /** Where a full scan of everything would find the value. */
  function LiveIn(f: Flat, value: string, now: int): set<string>
  {
    set n | n in f && CountsTowardsConsensus(n) && Visible(f, n, value, now).Some?
  }

  function Permitted(f: Flat, value: string, allowed: string -> bool, now: int): set<string>
  {
    set n | n in LiveIn(f, value, now) && allowed(n)
  }

  lemma CataloguedIn(l: Layout<string, string>, s: Store, n: string)
    requires Tiered(l, s, {})
    ensures n in Flatten(l, s) <==> exists shard :: shard in s.shards && n in s.shards[shard].names
    ensures forall shard :: shard in s.shards && n in s.shards[shard].names ==> shard == l.shardOf(n)
  {
    FlattenAt(l, s, n);
    LookIsCatalogued(l, s, {}, n);
    forall shard | shard in s.shards && n in s.shards[shard].names ensures shard == l.shardOf(n) {
      assert ShardSound(l, s, {}, shard);
      assert n in Catalogue(s, shard);
    }
  }

  method CountOf(a: Attr) returns (count: nat)
    ensures count == Total(a.counts)
  {
    var attr := new Attribute.From(a);
    count := attr.Count();
  }

  /** Whatever `_all` shows is no fewer than the namespaces holding the value,
      expired or not. */
  lemma TargetCoversHolders(f: Flat, value: string, now: int)
    requires NeverUnder(f)
    ensures var tally := Visible(f, ALL_NAMESPACE, value, now);
            tally.Some? ==> Total(tally.value.counts) >= |Holders(f, value)|
  {
  }

  ghost function GoalOf(f: Flat, value: string, allowed: string -> bool, now: int): Goal<string, Attr>
  {
    Goal(set n | n in f && CountsTowardsConsensus(n),
         map n | n in LiveIn(f, value, now) :: f[n][value],
         Permitted(f, value, allowed, now),
         Holders(f, value))
  }

  /** Looking at one name tells what the goal says of it. */
  ghost predicate GoalAt(g: Goal<string, Attr>, f: Flat, value: string, allowed: string -> bool, now: int, n: string)
  {
    && Visible(f, n, value, now) == (if n in g.shown then Some(g.shown[n]) else None)
    && (n in g.permitted <==> n in g.shown && allowed(n))
  }

  lemma GoalIsSound(f: Flat, value: string, allowed: string -> bool, now: int)
    ensures GoalSound(GoalOf(f, value, allowed, now))
    ensures forall n :: n in f && CountsTowardsConsensus(n) ==>
              GoalAt(GoalOf(f, value, allowed, now), f, value, allowed, now, n)
  {
  }

  ghost function Described(name: string, a: Attr): Found
  {
    Found(name, Total(a.counts), a.firstSeen, a.lastSeen)
  }

  method Describe(order: seq<string>, hits: map<string, Attr>) returns (items: seq<Found>)
    requires forall i :: 0 <= i < |order| ==> order[i] in hits
    ensures NamesOf(items) == order
    ensures forall i :: 0 <= i < |items| ==> items[i] == Described(order[i], hits[order[i]])
  {
    items := [];
    for i := 0 to |order|
      invariant |items| == i
      invariant forall k :: 0 <= k < i ==> items[k] == Described(order[k], hits[order[k]])
    {
      var a := hits[order[i]];
      var count := CountOf(a);
      items := items + [Found(order[i], count, a.firstSeen, a.lastSeen)];
    }
  }

  /** The answer, sorted by namespace. */
  method ListHits(hits: map<string, Attr>) returns (items: seq<Found>)
    ensures Increasing(NamesOf(items)) && Elements(NamesOf(items)) == hits.Keys && |items| == |hits|
    ensures forall i :: 0 <= i < |items| ==>
              items[i].namespace in hits && items[i] == Described(items[i].namespace, hits[items[i].namespace])
  {
    var order := Sorted(hits.Keys);
    forall i | 0 <= i < |order| ensures order[i] in hits {
      assert order[i] in Elements(order);
    }
    items := Describe(order, hits);
    IncreasingSize(order);
  }

  /** An offer that says nothing brings a new value in without reporting it. */
  lemma NewValueUnreported(p: Policy, path: string, value: string, now: int)
    ensures var nothing := Offer(map[], map[], 0, 0, "", 0, 0);
            && !ReportsChange(Held(In(map[], path), value), nothing, p.node)
            && path in MergedIn(map[], p, path, value, nothing, now)
            && (path != ALL_NAMESPACE ==> value in MergedIn(map[], p, path, value, nothing, now)[path])
  {
    assert NEW.tags == "" && MergedTags(NEW, Offer(map[], map[], 0, 0, "", 0, 0)) == "";
  }

  /** Sweeping is invisible to readers: what it takes away had expired already,
      in whatever order it goes and whatever it leaves for later. */
  lemma SweepIsInvisible(f: Flat, p: Policy, names: seq<string>, now: int, later: int, n: string, value: string)
    requires n != ALL_NAMESPACE && later >= now
    ensures Visible(Swept(f, p, names, now), n, value, later) == Visible(f, n, value, later)
  {
    SweptEachAt(f, p, names, now, n);
    if n in Emptied(f, p, names, now) { EmptiedHadExpired(f, p, names, now, n); }
    if n in f && value in f[n] && value in Expired(f[n], now) {
      assert IsExpired(f[n][value], later);
    }
  }

  lemma PutDeclared(f: Flat, path: string, values: Values)
    ensures Declared(f, path)[path := values] == f[path := values]
  {
  }

  // ---------------------------------------------------------------------
  // Starting again.
  // ---------------------------------------------------------------------

  /** Each file names only namespaces of its own shard. */
  ghost predicate InTheirPlaces(l: Layout<string, string>, files: map<string, Flat>)
  {
    forall shard, n :: shard in files && n in files[shard] ==> l.shardOf(n) == shard
  }

  /** One of the files `from` says this of `n`. */
  ghost predicate SaidOf(files: map<string, Flat>, from: set<string>, n: string, values: Values)
  {
    exists shard :: shard in from && shard in files && n in files[shard] && files[shard][n] == values
  }

  /** Everything `from` names, each name as one of them has it. */
  ghost predicate UnionOf(files: map<string, Flat>, from: set<string>, data: Flat)
  {
    && (forall shard, n :: shard in from && shard in files && n in files[shard] ==> n in data)
    && (forall n :: n in data ==> SaidOf(files, from, n, data[n]))
  }

  lemma UnionNext(files: map<string, Flat>, from: set<string>, data: Flat, shard: string)
    requires UnionOf(files, from, data) && shard in files
    ensures UnionOf(files, from + {shard}, data + files[shard])
  {
    var more, after := from + {shard}, data + files[shard];
    forall n | n in after ensures SaidOf(files, more, n, after[n]) {
      if n in files[shard] {
        assert shard in more && files[shard][n] == after[n];
      } else {
        assert SaidOf(files, from, n, data[n]);
        var s :| s in from && s in files && n in files[s] && files[s][n] == data[n];
        assert s in more;
      }
    }
  }

  /** Where every name is in the file of its shard, the union is that. */
  lemma UnionInPlace(l: Layout<string, string>, files: map<string, Flat>, data: Flat)
    requires UnionOf(files, files.Keys, data) && InTheirPlaces(l, files)
    ensures data == Loaded(l, files)
  {
    forall n ensures n in data <==> n in Loaded(l, files)
      ensures n in data ==> data[n] == Loaded(l, files)[n]
    {
      if n in data {
        assert SaidOf(files, files.Keys, n, data[n]);
        var s :| s in files.Keys && s in files && n in files[s] && files[s][n] == data[n];
        assert l.shardOf(n) == s && n in FileNames(files);
      }
    }
  }

  /** Read every shard back, in any order. */
  method Load(files: map<string, Flat>) returns (data: Flat)
    ensures UnionOf(files, files.Keys, data)
  {
    data := map[];
    var left := files.Keys;
    ghost var done: set<string> := {};
    while left != {}
      invariant Parts(files.Keys, done, left) && UnionOf(files, done, data)
      decreases |left|
    {
      var shard := Pick(left);
      UnionNext(files, done, data, shard);
      PartsStep(files.Keys, done, left, shard);
      data := data + files[shard];
      done, left := done + {shard}, left - {shard};
    }
    assert done == files.Keys;
  }

  /** The catalogue of what was loaded, namespace by namespace. */
  method BuildCatalogue(l: Layout<string, string>, data: Flat) returns (shards: map<string, Meta<string>>)
    ensures shards == Booted(l, data, map[]).shards
  {
    shards := map[];
    var left := data.Keys;
    ghost var done: set<string> := {};
    while left != {}
      invariant Parts(data.Keys, done, left) && CatalogueOf(l, done, shards)
      decreases |left|
    {
      var name := Pick(left);
      var shard := l.shardOf(name);
      OneMoreName(l, done, shards, name);
      PartsStep(data.Keys, done, left, name);
      var names := if shard in shards then shards[shard].names else {};
      shards := shards[shard := Meta(names + {name}, true)];
      left := left - {name};
      done := done + {name};
    }
    assert done == data.Keys;
    CatalogueBuilt(l, data, shards);
  }

  function ShardNames(l: Layout<string, string>, names: set<string>, shard: string): set<string>
  {
    set n | n in names && l.shardOf(n) == shard
  }

  /** `shards` lists `names`, each under its shard. */
  ghost predicate CatalogueOf(l: Layout<string, string>, names: set<string>, shards: map<string, Meta<string>>)
  {
    && (forall k :: k in shards ==> shards[k] == Meta(ShardNames(l, names, k), true))
    && (forall k :: k in shards <==> ShardNames(l, names, k) != {})
  }

  lemma OneMoreName(l: Layout<string, string>, names: set<string>, shards: map<string, Meta<string>>, name: string)
    requires CatalogueOf(l, names, shards)
    ensures var shard := l.shardOf(name);
            var had := if shard in shards then shards[shard].names else {};
            CatalogueOf(l, names + {name}, shards[shard := Meta(had + {name}, true)])
  {
    var shard := l.shardOf(name);
    var had := if shard in shards then shards[shard].names else {};
    var after := shards[shard := Meta(had + {name}, true)];
    forall k ensures ShardNames(l, names + {name}, k) == ShardNames(l, names, k) + if k == shard then {name} else {} {}
    forall k ensures k in after ==> after[k] == Meta(ShardNames(l, names + {name}, k), true)
      ensures k in after <==> ShardNames(l, names + {name}, k) != {}
    {
      assert ShardNames(l, names + {name}, k) == ShardNames(l, names, k) + if k == shard then {name} else {};
      assert k == shard ==> name in ShardNames(l, names + {name}, k) && had == ShardNames(l, names, k);
    }
  }

  lemma CatalogueBuilt(l: Layout<string, string>, data: Flat, shards: map<string, Meta<string>>)
    requires CatalogueOf(l, data.Keys, shards)
    ensures shards == Booted(l, data, map[]).shards
  {
    var booted := Booted(l, data, map[]).shards;
    forall k ensures k in shards <==> k in booted {
      if k in booted {
        var n :| n in data && l.shardOf(n) == k;
        assert n in ShardNames(l, data.Keys, k);
      }
    }
    forall k | k in booted ensures booted[k] == shards[k] {
      assert booted[k].names == ShardNames(l, data.Keys, k);
    }
  }

  /** Everything in memory, nothing dirty; sound if the files are in order. */
  method Boot(l: Layout<string, string>, files: map<string, Flat>)
    returns (data: Flat, shards: map<string, Meta<string>>, flags: set<string>)
    ensures Flagged(data, flags) && UnionOf(files, files.Keys, data)
    ensures Flatten(l, State(data, shards, {}, files)) == data
    ensures InTheirPlaces(l, files) ==> data == Loaded(l, files) && Tiered(l, State(data, shards, {}, files), {})
  {
    data := Load(files);
    shards := BuildCatalogue(l, data);
    flags := set n | n in data && !CannotExpire(data[n]);
    BootedFlat(l, data, files);
    if InTheirPlaces(l, files) {
      UnionInPlace(l, files, data);
      BootedInPlace(l, data, files);
    }
  }

  lemma BootedFlat(l: Layout<string, string>, data: Flat, files: map<string, Flat>)
    requires UnionOf(files, files.Keys, data)
    ensures Flatten(l, Booted(l, data, files)) == data
  {
    var s := Booted(l, data, files);
    forall n ensures n in Flatten(l, s) <==> n in data
      ensures n in data ==> Flatten(l, s)[n] == data[n]
    {
      BootedCatalogue(l, data, files, l.shardOf(n));
      FlattenAt(l, s, n);
    }
  }

  lemma BootedInPlace(l: Layout<string, string>, data: Flat, files: map<string, Flat>)
    requires InTheirPlaces(l, files) && data == Loaded(l, files)
    ensures Tiered(l, Booted(l, data, files), {})
  {
    var s := Booted(l, data, files);
    assert forall shard, n :: n in FileOf(s, shard) ==> shard in files && n in files[shard];
    BootedIsSound(l, s);
  }

  /** A full save and a restart give back exactly the database there was,
      evicted shards and deletions included. */
  method SaveAndRestart(db: Database) returns (again: Database)
    requires db.Valid()
    modifies db
    ensures fresh(again) && again.policy == db.policy && again.layout == db.layout && again.Valid()
    ensures again.Contents() == old(db.Contents())
  {
    db.Save(true);
    FilesInTheirPlaces(db.layout, db.Model());
    again := new Database.Restart(db.policy, db.layout, db.files);
  }

  /** After a save of what changed, only the tally may come back older. */
  method SaveChangesAndRestart(db: Database) returns (again: Database)
    requires db.Valid()
    modifies db
    ensures fresh(again) && again.policy == db.policy && again.layout == db.layout && again.Valid()
    ensures db.Valid() && db.Contents() == old(db.Contents())
    ensures db.Model() == old(db.Model()).(dirty := {}, files := SavedFiles(db.layout, old(db.Model()), false))
    ensures again.files == db.files && again.dirty == {} && again.Contents() == Loaded(db.layout, db.files)
    ensures SameBut(again.Contents(), old(db.Contents()), {ALL_NAMESPACE})
    ensures ALL_NAMESPACE in again.Contents() <==> ALL_NAMESPACE in old(db.Contents())
    ensures again.Contents() == old(db.Contents()) <==>
            db.layout.pinned in old(db.dirty) || TallyOnDisk(db.layout, old(db.Model()))
  {
    db.Save(false);
    FilesInTheirPlaces(db.layout, db.Model());
    forall n
      ensures n in Loaded(db.layout, db.files) <==> n in db.Contents()
      ensures n in db.Contents() && n != db.layout.tally ==> Loaded(db.layout, db.files)[n] == db.Contents()[n]
    {
      FilesHoldAllButTally(db.layout, db.Model(), n);
    }
    again := new Database.Restart(db.policy, db.layout, db.files);
  }

  lemma FilesInTheirPlaces(l: Layout<string, string>, s: Store)
    requires Tiered(l, s, {})
    ensures InTheirPlaces(l, s.files)
  {
    forall shard, n | shard in s.files && n in s.files[shard] ensures l.shardOf(n) == shard {
      assert ShardSound(l, s, {}, shard) && n in FileOf(s, shard);
    }
  }

  class Database {
    const policy: Policy
    const layout: Layout<string, string>

    var namespaces: Flat
    /** The resident namespaces whose `has_ttl` is set. */
    var flags: set<string>
    var shards: map<string, Meta<string>>
    var dirty: set<string>
    /** The directory, by shard. */
    var files: map<string, Flat>

    ghost function Model(): Store
      reads this
    {
      State(namespaces, shards, dirty, files)
    }

    /** Sound, but for shards whose change has yet to be marked. */
    ghost predicate Sound(loose: set<string>)
      reads this
    {
      Laid(layout) && Tiered(layout, Model(), loose) && Flagged(namespaces, flags)
    }

    ghost predicate Valid()
      reads this
    {
      Sound({})
    }

    /** The one flat map all of it stands for. */
    ghost function Contents(): Flat
      reads this
    {
      Flatten(layout, Model())
    }

    constructor (p: Policy)
      ensures policy == p && layout == SHARDING && dirty == {} && files == map[]
      ensures Valid() && Contents() == map[]
      ensures Tally(Contents(), policy.node, Nothing())
    {
      policy, layout := p, SHARDING;
      namespaces, flags, shards, dirty, files := map[], {}, map[], {}, map[];
      new;
      ShardingIsLaid();
      var none: map<string, Flat> := map[];
      BootedIsSound(layout, Model());
      assert Loaded(layout, none) == map[];
      assert Model() == Booted(layout, map[], none);
      assert forall v :: Holders(map[], v) == {};
    }

    /** Start from the files a previous run left. */
    constructor Restart(p: Policy, l: Layout<string, string>, directory: map<string, Flat>)
      requires Laid(l)
      ensures policy == p && layout == l && files == directory && dirty == {}
      ensures UnionOf(directory, directory.Keys, Contents())
      ensures InTheirPlaces(l, directory) ==> Valid() && Contents() == Loaded(layout, directory)
    {
      var data, catalogue, flagged := Boot(l, directory);
      policy, layout := p, l;
      namespaces, flags, shards, dirty, files := data, flagged, catalogue, {}, directory;
      new;
      assert Model() == State(data, catalogue, {}, directory);
    }

    // -------------------------------------------------------------------
    // Reaching a namespace.
    // -------------------------------------------------------------------

    method PageIn(shard: string, ghost loose: set<string>)
      requires Sound(loose) && shard in shards
      modifies this`namespaces, this`shards, this`flags
      ensures Sound(loose) && Contents() == old(Contents())
      ensures !Evicted(Model(), shard)
    {
      if shards[shard].resident { return; }
      PageInKeeps(layout, Model(), shard, loose);
      var file := if shard in files then files[shard] else map[];
      FlaggedFile(namespaces, flags, file);
      flags := flags + set n | n in file && !CannotExpire(file[n]);
      shards := shards[shard := Meta(shards[shard].names + file.Keys, true)];
      namespaces := namespaces + file;
      assert Model() == PagedIn(old(Model()), shard);
    }

    /** Decides membership in the flat map, and leaves a name it finds in memory. */
    method Open(name: string, ghost loose: set<string>) returns (found: bool)
      requires Sound(loose)
      modifies this`namespaces, this`shards, this`flags
      ensures Sound(loose) && Contents() == old(Contents())
      ensures found <==> name in Contents()
      ensures found <==> name in namespaces
      ensures found ==> namespaces[name] == Contents()[name]
      ensures old(name in namespaces) || !found ==> namespaces == old(namespaces) && flags == old(flags)
    {
      var shard := layout.shardOf(name);
      FlattenAt(layout, Model(), name);
      LookIsCatalogued(layout, Model(), loose, name);
      if name in namespaces { return true; }
      if !(shard in shards && !shards[shard].resident && name in shards[shard].names) { return false; }
      PageIn(shard, loose);
      FlattenAt(layout, Model(), name);
      found := name in namespaces;
    }

    method OpenOrCreate(name: string, ghost loose: set<string>)
      requires Sound(loose)
      modifies this`namespaces, this`shards, this`flags
      ensures Sound(loose + {layout.shardOf(name)})
      ensures name in namespaces && namespaces[name] == In(old(Contents()), name)
      ensures Contents() == Declared(old(Contents()), name)
      ensures name in old(Contents()) ==> Sound(loose)
    {
      var shard := layout.shardOf(name);
      var found := Open(name, loose);
      if found {
        StoredAgain(layout, Model(), name, namespaces[name], loose);
        Reallow(layout, Model(), loose, loose + {shard});
        return;
      }
      if shard in shards && !shards[shard].resident { PageIn(shard, loose); }
      Create(name, shard, loose);
    }

    method Create(name: string, shard: string, ghost loose: set<string>)
      requires Sound(loose) && name !in Contents() && shard == layout.shardOf(name) && !Evicted(Model(), shard)
      modifies this`namespaces, this`shards, this`flags
      ensures Sound(loose + {shard}) && Contents() == old(Contents())[name := map[]]
      ensures name in namespaces && namespaces[name] == map[]
    {
      StoreKeeps(layout, Model(), name, map[], loose);
      FlaggedPut(namespaces, flags, name, map[], {});
      shards := shards[shard := Meta((if shard in shards then shards[shard].names else {}) + {name}, true)];
      namespaces := namespaces[name := map[]];
      assert flags == flags + {};
      assert Model() == Stored(layout, old(Model()), name, map[]);
    }

    /** Change what a resident namespace holds. */
    method Change(name: string, values: Values, setFlag: bool, ghost loose: set<string>)
      requires Sound(loose) && name in namespaces
      requires setFlag || name in flags || CannotExpire(values)
      modifies this`namespaces, this`flags
      ensures Sound(loose + {layout.shardOf(name)}) && Contents() == old(Contents())[name := values]
      ensures name == ALL_NAMESPACE ==> Sound(loose)
      ensures namespaces == old(namespaces)[name := values]
      ensures flags == old(flags) + if setFlag then {name} else {}
      ensures !Evicted(Model(), layout.shardOf(name))
    {
      StoredAgain(layout, Model(), name, values, loose);
      StoreKeeps(layout, Model(), name, values, loose);
      if name == ALL_NAMESPACE { StoreTallyKeeps(layout, Model(), values, loose); }
      FlaggedPut(namespaces, flags, name, values, if setFlag then {name} else {});
      if setFlag { flags := flags + {name}; }
      namespaces := namespaces[name := values];
    }

    /** The next save rewrites the namespace's shard. */
    method MarkDirty(name: string, ghost loose: set<string>)
      requires Sound(loose + {layout.shardOf(name)})
      modifies this`dirty
      ensures Sound(loose) && Contents() == old(Contents())
      ensures dirty == old(dirty) + {layout.shardOf(name)}
      ensures !Evicted(Model(), layout.shardOf(name))
    {
      MarkKeeps(layout, Model(), layout.shardOf(name), loose);
      dirty := dirty + {layout.shardOf(name)};
    }

    // -------------------------------------------------------------------
    // Writing.
    // -------------------------------------------------------------------

    /** One sighting in one namespace, not yet marked. */
    method Record(path: string, value: string, w: Sight, ghost loose: set<string>)
      returns (count: nat, isNew: bool)
      requires Sound(loose)
      modifies this`namespaces, this`shards, this`flags
      ensures Sound(loose + {layout.shardOf(path)}) && !Evicted(Model(), layout.shardOf(path))
      ensures Contents() == Put(old(Contents()), path, value, AfterSighting(old(Contents()), policy, path, value, w))
      ensures isNew <==> value !in In(old(Contents()), path)
      ensures count == Total(Contents()[path][value].counts)
    {
      OpenOrCreate(path, loose);
      ghost var shard := layout.shardOf(path);
      ghost var before := In(old(Contents()), path);
      var after, flag;
      after, count, isNew, flag := RecordIn(namespaces[path], policy, path, value, w);
      Change(path, after, flag, loose + {shard});
      assert loose + {shard} + {shard} == loose + {shard};
      PutDeclared(old(Contents()), path, after);
    }

    /** The record and, if it is the namespace's first of this value and the
        caller keeps the tally, the count in `_all`. */
    method RecordWrite(path: string, value: string, w: Sight, consensus: bool)
      returns (count: nat, isNew: bool)
      requires Valid()
      modifies this`namespaces, this`shards, this`flags, this`dirty
      ensures Valid()
      ensures Contents() == Written(old(Contents()), policy, path, value, w, consensus)
      ensures isNew <==> value !in In(old(Contents()), path)
      ensures count == Total(AfterSighting(old(Contents()), policy, path, value, w).counts)
      ensures count == Total(Held(In(old(Contents()), path), value).counts) + 1
      ensures dirty == old(dirty) + {layout.shardOf(path)} + if consensus && isNew then {layout.pinned} else {}
    {
      ghost var shard := layout.shardOf(path);
      SightedCounts(Held(In(Contents(), path), value), w.origin, w.when, TtlFor(policy, path, w.ttl), policy.retention,
                    w.tags);
      count, isNew := Record(path, value, w, {});
      if consensus && isNew {
        CountUp(value, w.when, {} + {shard});
      }
      MarkDirty(path, {});
    }

    /** `_all` learns of one more namespace. */
    method CountUp(value: string, when: int, ghost loose: set<string>)
      requires Sound(loose)
      modifies this`namespaces, this`shards, this`flags, this`dirty
      ensures Sound(loose) && dirty == old(dirty) + {layout.shardOf(ALL_NAMESPACE)}
      ensures Contents() == CountedUp(old(Contents()), policy, value, when)
    {
      var _, _ := Record(ALL_NAMESPACE, value, Sight(policy.node, when, None, ""), loose);
      MarkDirty(ALL_NAMESPACE, loose);
    }

    /** `MergedIn` on the tiers. The shard is marked only on a reported change,
        which is exactly when the store stays sound: a shard already dirty or a
        merge that changed nothing aside. */
    method Merge(path: string, value: string, offer: Offer, now: int) returns (outcome: Outcome)
      requires Valid()
      modifies this`namespaces, this`shards, this`flags, this`dirty
      ensures Contents() == MergedIn(old(Contents()), policy, path, value, offer, now)
      ensures outcome.changed <==> ReportsChange(Held(In(old(Contents()), path), value), offer, policy.node)
      ensures outcome.ignoredSelf == if policy.node in offer.counts then 1 else 0
      ensures outcome.count == Total(Merged(Held(In(old(Contents()), path), value), offer, policy.node).counts)
      ensures Valid() <==>
              || outcome.changed
              || layout.shardOf(path) in dirty
              || (path in old(Contents()) && (path == ALL_NAMESPACE || old(Contents())[path] == Contents()[path]))
      ensures !outcome.changed ==> Sound({} + {layout.shardOf(path)}) && path in namespaces
      ensures dirty == old(dirty) + (if outcome.changed then {layout.shardOf(path)} else {})
                       + if value !in In(old(Contents()), path) && CountsTowardsConsensus(path)
                           then {layout.pinned} else {}
    {
      ghost var was := Model();
      var counted;
      outcome, counted := FoldAndCount(path, value, offer, now);
      if outcome.changed {
        MarkDirty(path, {});
      } else {
        UnreportedIff(layout, was, Model(), path, counted);
      }
    }

    /** The merge and the tally, but nothing marked for the merge. */
    method FoldAndCount(path: string, value: string, offer: Offer, now: int)
      returns (outcome: Outcome, counted: bool)
      requires Valid()
      modifies this`namespaces, this`shards, this`flags, this`dirty
      ensures Sound({} + {layout.shardOf(path)})
      ensures Contents() == MergedIn(old(Contents()), policy, path, value, offer, now)
      ensures outcome.changed <==> ReportsChange(Held(In(old(Contents()), path), value), offer, policy.node)
      ensures outcome.ignoredSelf == if policy.node in offer.counts then 1 else 0
      ensures outcome.count == Total(Merged(Held(In(old(Contents()), path), value), offer, policy.node).counts)
      ensures dirty == old(dirty) + if counted then {layout.shardOf(ALL_NAMESPACE)} else {}
      ensures path in Contents()
      ensures counted <==> value !in In(old(Contents()), path) && CountsTowardsConsensus(path)
      ensures path in namespaces
      ensures SameBut(old(Contents()), Contents(), {path} + if counted then {ALL_NAMESPACE} else {})
    {
      outcome, counted := Fold(path, value, offer);
      counted := counted && CountsTowardsConsensus(path);
      if counted {
        CountUp(value, now, {} + {layout.shardOf(path)});
      }
      MergedElsewhere(old(Contents()), policy, path, value, offer, now);
      StaysHere(layout, Model(), {} + {layout.shardOf(path)}, path);
    }

    /** The merge itself, neither counted nor marked. */
    method Fold(path: string, value: string, offer: Offer) returns (outcome: Outcome, isNew: bool)
      requires Valid()
      modifies this`namespaces, this`shards, this`flags
      ensures Sound({} + {layout.shardOf(path)})
      ensures Contents() == Put(old(Contents()), path, value,
                                Merged(Held(In(old(Contents()), path), value), offer, policy.node))
      ensures outcome.changed <==> ReportsChange(Held(In(old(Contents()), path), value), offer, policy.node)
      ensures outcome.ignoredSelf == if policy.node in offer.counts then 1 else 0
      ensures outcome.count == Total(Merged(Held(In(old(Contents()), path), value), offer, policy.node).counts)
      ensures isNew <==> value !in In(old(Contents()), path)
    {
      ghost var shard := layout.shardOf(path);
      OpenOrCreate(path, {});
      var after;
      after, outcome, isNew := MergeIn(namespaces[path], policy.node, value, offer);
      Change(path, after, offer.ttl > 0, {} + {shard});
      assert {} + {shard} + {shard} == {} + {shard};
      PutDeclared(old(Contents()), path, after);
    }

    /** `RetaggedIn` on the tiers; succeeds exactly where `CanRetag` says. */
    method SetTags(path: string, value: string, tags: string, now: int, at: int) returns (changed: bool)
      requires Valid()
      modifies this`namespaces, this`shards, this`flags, this`dirty
      ensures Valid()
      ensures changed <==> CanRetag(old(Contents()), path, value, now)
      ensures Contents() == RetaggedIn(old(Contents()), path, value, tags, now, at)
      ensures dirty == old(dirty) + if changed then {layout.shardOf(path)} else {}
    {
      var found := Open(path, {});
      if !found { return false; }
      var values := namespaces[path];
      if value !in values || IsExpired(values[value], now) { return false; }
      var attr := Retagging(values[value], tags, at);
      Change(path, values[value := attr], false, {});
      MarkDirty(path, {});
      changed := true;
    }

    /** What a reader sees: nothing expired, and nothing changed by looking. */
    method View(path: string, value: string, now: int) returns (r: Option<Attr>)
      requires Valid()
      modifies this`namespaces, this`shards, this`flags
      ensures Valid() && Contents() == old(Contents())
      ensures r == Visible(Contents(), path, value, now)
    {
      var found := Open(path, {});
      if !found || value !in namespaces[path] || IsExpired(namespaces[path][value], now) { return None; }
      return Some(namespaces[path][value]);
    }

    /** `Declared` on the tiers; reports whether the name is new to the flat map. */
    method CreateNamespace(name: string) returns (created: bool)
      requires Valid()
      modifies this`namespaces, this`shards, this`flags, this`dirty
      ensures Valid()
      ensures created <==> name !in old(Contents())
      ensures Contents() == Declared(old(Contents()), name)
      ensures dirty == old(dirty) + if created then {layout.shardOf(name)} else {}
    {
      var shard := layout.shardOf(name);
      FlattenAt(layout, Model(), name);
      LookIsCatalogued(layout, Model(), {}, name);
      if name in namespaces || (shard in shards && name in shards[shard].names) { return false; }
      OpenOrCreate(name, {});
      MarkDirty(name, {});
      created := true;
    }

    // -------------------------------------------------------------------
    // Giving consensus back.
    // -------------------------------------------------------------------

    /** One namespace fewer holds `value`. Nothing is marked. */
    method Release(value: string, ghost loose: set<string>)
      requires Sound(loose)
      modifies this`namespaces, this`shards, this`flags
      ensures Sound(loose) && Contents() == CountedDown(old(Contents()), policy, {value})
      ensures namespaces.Keys == old(namespaces.Keys) && SameBut(old(namespaces), namespaces, {ALL_NAMESPACE})
      ensures flags == old(flags)
    {
      TallyStays(layout, Model(), loose);
      var found := Open(ALL_NAMESPACE, loose);
      if !found { return; }
      var after := ReleaseIn(namespaces[ALL_NAMESPACE], policy.node, value);
      Change(ALL_NAMESPACE, after, false, loose);
    }

    method ReleaseEach(gone: set<string>, ghost loose: set<string>)
      requires Sound(loose)
      modifies this`namespaces, this`shards, this`flags
      ensures Sound(loose) && Contents() == CountedDown(old(Contents()), policy, gone)
      ensures namespaces.Keys == old(namespaces.Keys) && SameBut(old(namespaces), namespaces, {ALL_NAMESPACE})
      ensures flags == old(flags)
    {
      var left := gone;
      DownNone(Contents(), policy);
      assert gone - left == {};
      while left != {}
        invariant left <= gone && Sound(loose)
        invariant Contents() == CountedDown(old(Contents()), policy, gone - left)
        invariant namespaces.Keys == old(namespaces.Keys) && SameBut(old(namespaces), namespaces, {ALL_NAMESPACE})
        invariant flags == old(flags)
        decreases |left|
      {
        var value := Pick(left);
        DownOneMore(old(Contents()), policy, gone - left, value);
        assert gone - left + {value} == gone - (left - {value});
        Release(value, loose);
        left := left - {value};
      }
      assert gone - left == gone;
    }

    /** One name leaves memory and catalogue; its shard is dirty afterwards. */
    method Discard(name: string, ghost loose: set<string>)
      requires Sound(loose) && name in namespaces
      modifies this`namespaces, this`shards, this`flags, this`dirty
      ensures Sound(loose) && Contents() == old(Contents()) - {name}
      ensures namespaces == old(namespaces) - {name}
      ensures dirty == old(dirty) + {layout.shardOf(name)}
    {
      var shard := layout.shardOf(name);
      RemoveKeeps(layout, Model(), name, loose);
      assert Flagged(namespaces - {name}, flags - {name});
      namespaces := namespaces - {name};
      flags := flags - {name};
      if shard in shards {
        shards := shards[shard := shards[shard].(names := shards[shard].names - {name})];
      }
      assert Model() == Removed(layout, old(Model()), name);
      MarkDirty(name, loose);
    }

    /** `Deleted` on the tiers: the name goes, and the tally of each of its values
        falls by one. */
    method Delete(name: string) returns (removed: bool)
      requires Valid()
      modifies this`namespaces, this`shards, this`flags, this`dirty
      ensures Valid()
      ensures removed <==> name in old(Contents())
      ensures Contents() == Deleted(old(Contents()), policy, name)
      ensures dirty == old(dirty) + if removed then {layout.shardOf(name)} else {}
    {
      var found := Open(name, {});
      if !found { return false; }
      var values := namespaces[name].Keys;
      Discard(name, {});
      if CountsTowardsConsensus(name) { ReleaseEach(values, {}); }
      removed := true;
    }

    // -------------------------------------------------------------------
    // Sweeping.
    // -------------------------------------------------------------------

    /** Reclaim what has expired in one resident namespace. */
    method SweepName(name: string, now: int) returns (removed: nat, emptied: bool)
      requires Valid() && name in namespaces
      modifies this`namespaces, this`shards, this`flags, this`dirty
      ensures Valid()
      ensures Contents() == SweptOne(old(Contents()), policy, name, now)
      ensures namespaces.Keys == old(namespaces.Keys) && SameBut(old(namespaces), namespaces, {name, ALL_NAMESPACE})
      ensures emptied <==> !(CONFIG_PREFIX <= name) && AllGone(old(namespaces)[name], now)
      ensures removed == if CONFIG_PREFIX <= name then 0 else |Expired(old(namespaces)[name], now)|
      ensures old(dirty) <= dirty
    {
      FlattenAt(layout, Model(), name);
      if CONFIG_PREFIX <= name { return 0, false; }
      // `Flagged` makes the short cut exact.
      var expired := if name in flags then Expired(namespaces[name], now) else {};
      assert expired == Expired(namespaces[name], now);
      removed := |expired|;
      emptied := expired != {} && namespaces[name].Keys == expired;
      RemoveExpired(name, expired);
      if CountsTowardsConsensus(name) { ReleaseEach(expired, {}); }
    }

    /** Take expired values out, marking the shard if there were any. */
    method RemoveExpired(name: string, expired: set<string>)
      requires Valid() && name in namespaces
      modifies this`namespaces, this`flags, this`dirty
      ensures Valid() && Contents() == old(Contents())[name := old(namespaces)[name] - expired]
      ensures namespaces == old(namespaces)[name := old(namespaces)[name] - expired]
      ensures old(dirty) <= dirty
    {
      FlattenAt(layout, Model(), name);
      if expired != {} {
        Change(name, namespaces[name] - expired, false, {});
        MarkDirty(name, {});
      } else {
        assert namespaces[name] - expired == namespaces[name];
        assert Contents()[name := namespaces[name]] == Contents();
        assert namespaces[name := namespaces[name]] == namespaces;
      }
    }

    /** Visit every resident namespace, in any order. */
    method SweepEach(now: int) returns (removed: nat, emptied: set<string>, order: seq<string>)
      requires Valid()
      modifies this`namespaces, this`shards, this`flags, this`dirty
      ensures Valid() && namespaces.Keys == old(namespaces.Keys)
      ensures Visited(old(namespaces).Keys, order, {})
      ensures SweptSoFar(old(Contents()), policy, order, now, Contents(), emptied, removed)
      ensures old(dirty) <= dirty
    {
      ghost var f := Contents();
      var left := namespaces.Keys;
      removed, emptied, order := 0, {}, [];
      while left != {}
        invariant Valid() && left <= namespaces.Keys == old(namespaces.Keys)
        invariant Visited(old(namespaces).Keys, order, left) && old(dirty) <= dirty
        invariant SweptSoFar(f, policy, order, now, Contents(), emptied, removed)
        decreases |left|
      {
        var name := Pick(left);
        VisitNext(old(namespaces).Keys, order, left, name);
        removed, emptied := SweepNext(name, now, f, order, removed, emptied);
        order := order + [name];
        left := left - {name};
      }
    }

    method SweepNext(name: string, now: int, ghost f: Flat, ghost order: seq<string>, removedBefore: nat,
                     emptiedBefore: set<string>)
      returns (removed: nat, emptied: set<string>)
      requires Valid() && name in namespaces
      requires SweptSoFar(f, policy, order, now, Contents(), emptiedBefore, removedBefore)
      modifies this`namespaces, this`shards, this`flags, this`dirty
      ensures Valid() && namespaces.Keys == old(namespaces.Keys)
      ensures SweptSoFar(f, policy, order + [name], now, Contents(), emptied, removed)
      ensures old(dirty) <= dirty
    {
      FlattenAt(layout, Model(), name);
      SweepGoesOn(f, policy, order, now, Contents(), emptiedBefore, removedBefore, name);
      var count, gone := SweepName(name, now);
      removed := removedBefore + count;
      emptied := if gone then emptiedBefore + {name} else emptiedBefore;
    }

    /** Remove these names, all of them empty, from the flat map. */
    method Prune(emptied: set<string>) returns (removed: nat)
      requires Valid() && forall n :: n in emptied ==> n in namespaces && namespaces[n] == map[]
      modifies this`namespaces, this`shards, this`flags, this`dirty
      ensures Valid() && Contents() == old(Contents()) - emptied
      ensures removed == |emptied| && old(dirty) <= dirty
    {
      removed := 0;
      var left := emptied;
      NothingGone(old(Contents()), emptied);
      while left != {}
        invariant left <= emptied && Valid() && removed + |left| == |emptied| && old(dirty) <= dirty
        invariant Contents() == old(Contents()) - (emptied - left)
        invariant forall n :: n in left ==> n in namespaces && namespaces[n] == map[]
        decreases |left|
      {
        var name := Pick(left);
        if name in namespaces && namespaces[name] == map[] {
          Discard(name, {});
          removed := removed + 1;
        }
        OneLessLeft(old(Contents()), emptied, left, name);
        left := left - {name};
      }
      assert emptied - left == emptied;
    }

    /** `Swept` on the tiers, over what is in memory. */
    method Sweep(now: int) returns (values: nat, names: nat, order: seq<string>)
      requires Valid()
      modifies this`namespaces, this`shards, this`flags, this`dirty
      ensures Valid()
      ensures forall n :: n in order <==> n in old(namespaces)
      ensures forall i, j :: 0 <= i < j < |order| ==> order[i] != order[j]
      ensures Contents() == Swept(old(Contents()), policy, order, now)
      ensures values == ExpiredIn(old(Contents()), policy, order, now)
      ensures names == |Emptied(old(Contents()), policy, order, now)|
      ensures old(dirty) <= dirty
    {
      ghost var f := Contents();
      var emptied;
      values, emptied, order := SweepEach(now);
      EmptiedIsEmpty(f, policy, order, now);
      forall n | n in emptied ensures n in namespaces && namespaces[n] == map[] {
        FlattenAt(layout, Model(), n);
      }
      names := Prune(emptied);
    }

    // -------------------------------------------------------------------
    // Leaving memory, and being saved.
    // -------------------------------------------------------------------

    method WriteShard(shard: string, ghost loose: set<string>)
      requires Sound(loose) && !Evicted(Model(), shard)
      modifies this`files
      ensures Sound(loose - {shard}) && Contents() == old(Contents())
      ensures Agrees(layout, Model(), shard)
      ensures files == old(files)[shard := Snapshot(layout, namespaces, shard)]
    {
      WriteFileKeeps(layout, Model(), shard, loose);
      files := files[shard := Snapshot(layout, namespaces, shard)];
    }

    /** Save a shard if it is dirty, then drop it from memory. */
    method EvictShard(shard: string)
      requires Valid() && shard in shards && shards[shard].resident && shard != layout.pinned
      modifies this`namespaces, this`shards, this`flags, this`dirty, this`files
      ensures Valid() && Contents() == old(Contents())
      ensures Evicted(Model(), shard)
      ensures forall other :: other in old(shards) && other != shard ==>
                other in shards && shards[other] == old(shards)[other]
      ensures dirty == old(dirty) - {shard}
      ensures files == if shard in old(dirty) then old(files)[shard := Snapshot(layout, old(namespaces), shard)]
                else old(files)
    {
      SaveIfDirty(shard);
      DropKeeps(layout, Model(), shard, {});
      Drop(shard);
    }

    /** Memory gives the shard up, saved or not. */
    method Drop(shard: string)
      requires shard in shards && Flagged(namespaces, flags)
      modifies this`namespaces, this`shards, this`flags
      ensures Model() == Dropped(layout, old(Model()), shard) && Flagged(namespaces, flags)
    {
      var mine := Snapshot(layout, namespaces, shard).Keys;
      assert Flagged(namespaces - mine, flags - mine);
      flags := flags - mine;
      namespaces := namespaces - mine;
      shards := shards[shard := shards[shard].(resident := false)];
    }

    /** Afterwards the shard is clean, so `DropKeeps` applies to it. */
    method SaveIfDirty(shard: string)
      requires Valid() && !Evicted(Model(), shard)
      modifies this`dirty, this`files
      ensures Valid() && Contents() == old(Contents())
      ensures dirty == old(dirty) - {shard}
      ensures files == if shard in old(dirty) then old(files)[shard := Snapshot(layout, namespaces, shard)]
                else old(files)
    {
      assert ShardSound(layout, Model(), {}, shard);
      if shard in dirty {
        WriteShard(shard, {});
        assert {} - {shard} == {};
      }
      ClearKeeps(layout, Model(), shard, {});
      dirty := dirty - {shard};
    }

    /** Write out and drop every resident shard that may go. */
    method EvictIdle(mayEvict: string -> bool) returns (evicted: nat)
      requires Valid() && !mayEvict(layout.pinned)
      modifies this`namespaces, this`shards, this`flags, this`dirty, this`files
      ensures Valid() && Contents() == old(Contents())
      ensures evicted == |set shard | shard in old(shards) && old(shards)[shard].resident && mayEvict(shard)|
      ensures forall shard :: shard in old(shards) ==>
                shard in shards && (shards[shard].resident <==> old(shards)[shard].resident && !mayEvict(shard))
      ensures layout.pinned in dirty <==> layout.pinned in old(dirty)
      ensures FileOf(Model(), layout.pinned) == old(FileOf(Model(), layout.pinned))
    {
      var candidates := set shard | shard in shards && shards[shard].resident && mayEvict(shard);
      evicted := 0;
      var left := candidates;
      while left != {}
        invariant Valid() && Contents() == old(Contents())
        invariant forall shard :: shard in left ==> shard in shards && shards[shard].resident && mayEvict(shard)
        invariant forall shard :: shard in old(shards) ==>
          && shard in shards
          && (shards[shard].resident <==> old(shards)[shard].resident && (shard in left || !mayEvict(shard)))
        invariant evicted + |left| == |candidates|
        invariant layout.pinned in dirty <==> layout.pinned in old(dirty)
        invariant FileOf(Model(), layout.pinned) == old(FileOf(Model(), layout.pinned))
        decreases |left|
      {
        var shard := Pick(left);
        EvictShard(shard);
        evicted := evicted + 1;
        left := left - {shard};
      }
    }

    /** Write the given shards, each of which holds something. */
    method WriteEach(wanted: set<string>, ghost loose: set<string>)
      requires Sound(loose) && forall shard :: shard in wanted ==> InMemory(shards, shard)
      modifies this`files
      ensures Sound(loose - wanted) && Contents() == old(Contents())
      ensures files == Rewritten(layout, old(files), namespaces, wanted)
    {
      var left := wanted;
      ghost var done: set<string> := {};
      ghost var was, held, f := files, namespaces, Contents();
      assert loose - done == loose && Rewritten(layout, was, held, done) == was;
      while left != {}
        invariant Parts(wanted, done, left)
        invariant Sound(loose - done) && Contents() == f
        invariant files == Rewritten(layout, was, held, done)
        decreases |left|
      {
        var shard := Pick(left);
        RewrittenNext(layout, was, held, done, shard);
        PartsStep(wanted, done, left, shard);
        LessOwed(loose, done, shard);
        WriteShard(shard, loose - done);
        done := done + {shard};
        left := left - {shard};
      }
      assert done == wanted;
    }

    method RemoveFile(shard: string, ghost loose: set<string>)
      requires Sound(loose) && IsBare(shards, shard)
      modifies this`files
      ensures Sound(loose - {shard}) && Contents() == old(Contents())
      ensures files == old(files) - {shard}
    {
      RemoveFileKeeps(layout, Model(), shard, loose);
      files := files - {shard};
    }

    /** Shards with an empty catalogue lose their files and need no allowance. */
    method RemoveEach(stale: set<string>, ghost loose: set<string>)
      requires Sound(loose) && forall shard :: shard in stale ==> IsBare(shards, shard)
      modifies this`files
      ensures Sound(loose - stale) && Contents() == old(Contents())
      ensures files == old(files) - stale
    {
      var left := stale;
      ghost var done: set<string> := {};
      ghost var was, f := files, Contents();
      assert loose - done == loose && was - done == was;
      while left != {}
        invariant Parts(stale, done, left)
        invariant Sound(loose - done) && Contents() == f
        invariant files == was - done
        decreases |left|
      {
        var shard := Pick(left);
        PartsStep(stale, done, left, shard);
        LessOwed(loose, done, shard);
        OneMoreGone(was, done, shard);
        RemoveFile(shard, loose - done);
        done := done + {shard};
        left := left - {shard};
      }
      assert done == stale;
    }

    /** Bring files up to memory: for the shards taken from the dirty set, or for
        every shard that holds anything. The files then equal the database if and
        only if the internal shard was one of them, or had the tally right. */
    method Save(all: bool)
      requires Valid()
      modifies this`dirty, this`files
      ensures Valid() && Contents() == old(Contents()) && dirty == {}
      ensures files == SavedFiles(layout, old(Model()), all)
      ensures Loaded(layout, files) == Contents() <==>
              all || layout.pinned in old(dirty) || TallyOnDisk(layout, old(Model()))
    {
      ghost var was := Model();
      SaveShards(all);
      SaveIsExactIff(layout, was, all);
    }

    method SaveShards(all: bool)
      requires Valid()
      modifies this`dirty, this`files
      ensures Valid() && Contents() == old(Contents()) && dirty == {}
      ensures files == SavedFiles(layout, old(Model()), all)
    {
      ghost var was := Model();
      var present := Present(layout, State(namespaces, shards, dirty, files));
      var taken := TakeAll();
      var wanted := if all then present else present * taken;
      PresentShards(layout, was, {});
      WriteEach(wanted, taken);
      StaleShards(layout, Model(), taken - wanted, taken - present);
      RemoveEach(taken - present, taken - wanted);
      NoneOwed(taken, present, wanted);
    }

    /** The dirty set changes hands: its shards are owed a write instead. */
    method TakeAll() returns (taken: set<string>)
      requires Valid()
      modifies this`dirty
      ensures taken == old(dirty) && dirty == {}
      ensures Sound(taken) && Contents() == old(Contents())
    {
      TakeDirty(layout, Model(), {});
      assert {} + dirty == dirty;
      taken := dirty;
      dirty := {};
    }

    // -------------------------------------------------------------------
    // Everywhere a value was seen.
    // -------------------------------------------------------------------

    /** Namespaces in the catalogue that count, and those of them in memory. */
    method Candidates() returns (near: set<string>, all: set<string>)
      requires Valid()
      ensures forall n :: n in all <==> n in Contents() && CountsTowardsConsensus(n)
      ensures near <= all
    {
      near := set shard, n | shard in shards && shards[shard].resident && n in shards[shard].names
                             && CountsTowardsConsensus(n) :: n;
      all := set shard, n | shard in shards && n in shards[shard].names && CountsTowardsConsensus(n) :: n;
      forall n ensures n in all <==> n in Contents() && CountsTowardsConsensus(n) {
        CataloguedIn(layout, Model(), n);
      }
    }

    /** `Permitted`, sorted and cut to `limit`, without looking further once as
        many holders were met as `_all` counts. */
    method SightingsOf(value: string, limit: nat, allowed: string -> bool, now: int)
      returns (items: seq<Found>, truncated: bool)
      requires Valid() && NeverUnder(Contents())
      modifies this`namespaces, this`shards, this`flags
      ensures Valid() && Contents() == old(Contents())
      ensures truncated <==> |Permitted(Contents(), value, allowed, now)| > limit
      ensures Increasing(NamesOf(items))
      ensures if truncated
              then |items| == limit && Elements(NamesOf(items)) <= Permitted(Contents(), value, allowed, now)
              else Elements(NamesOf(items)) == Permitted(Contents(), value, allowed, now)
      ensures forall i :: 0 <= i < |items| ==> items[i] == FoundIn(Contents(), items[i].namespace, value)
      ensures forall i :: 0 <= i < |items| ==> RowOf(Contents(), items[i], value)
    {
      ghost var f := Contents();
      var hits;
      hits, truncated := Search(value, limit, allowed, now);
      items := ListHits(hits);
      forall i | 0 <= i < |items|
        ensures items[i] == FoundIn(f, items[i].namespace, value) && RowOf(f, items[i], value)
      {
        assert items[i].namespace in hits;
      }
    }

    /** The search itself: what it found, before it is put in order. */
    method Search(value: string, limit: nat, allowed: string -> bool, now: int)
      returns (hits: map<string, Attr>, truncated: bool)
      requires Valid() && NeverUnder(Contents())
      modifies this`namespaces, this`shards, this`flags
      ensures Valid() && Contents() == old(Contents())
      ensures truncated <==> |Permitted(Contents(), value, allowed, now)| > limit
      ensures if truncated then |hits| == limit && hits.Keys <= Permitted(Contents(), value, allowed, now)
              else hits.Keys == Permitted(Contents(), value, allowed, now)
      ensures forall n :: n in hits ==> Visible(Contents(), n, value, now) == Some(hits[n])
    {
      ghost var f := Contents();
      ghost var g := GoalOf(f, value, allowed, now);
      var target := Target(value, now);
      var near, all := Candidates();
      GoalIsSound(f, value, allowed, now);
      assert g.all == all;
      hits, truncated := SearchAmong(near, all, value, limit, allowed, now, target, f, g);
    }

    /** How many namespaces `_all` says there are to find. */
    method Target(value: string, now: int) returns (target: nat)
      requires Valid() && NeverUnder(Contents())
      modifies this`namespaces, this`shards, this`flags
      ensures Valid() && Contents() == old(Contents())
      ensures target == 0 || target >= |Holders(Contents(), value)|
    {
      var tally := View(ALL_NAMESPACE, value, now);
      TargetCoversHolders(Contents(), value, now);
      target := 0;
      if tally.Some? { target := CountOf(tally.value); }
    }

    /** Look through the namespaces, those in memory first, unless everything is
        accounted for already. */
    method SearchAmong(near: set<string>, all: set<string>, value: string, limit: nat, allowed: string -> bool,
                       now: int, target: nat, ghost f: Flat, ghost g: Goal<string, Attr>)
      returns (hits: map<string, Attr>, truncated: bool)
      requires Valid() && Contents() == f && GoalSound(g) && all == g.all && (target == 0 || target >= |g.holders|)
      requires forall n :: n in all ==> GoalAt(g, f, value, allowed, now, n)
      modifies this`namespaces, this`shards, this`flags
      ensures Valid() && Contents() == f
      ensures if truncated then TooMany(g, hits, limit) else FoundAll(g, hits, limit)
    {
      var left := all;
      ghost var found: set<string> := {};
      var seen := 0;
      hits, truncated := map[], false;
      SearchStart(g, limit);
      while left != {}
        invariant left <= all && Valid() && Contents() == f
        invariant seen == |found| && Looked(g, left, found, hits, limit)
        decreases |left|
      {
        if target > 0 && seen >= target { break; }
        var name := Pick(if left * near != {} then left * near else left);
        seen, hits, truncated, found := LookAt(name, value, limit, allowed, now, f, g, left, found, seen, hits);
        if truncated { return; }
        left := left - {name};
      }
      SearchEnd(g, left, found, hits, limit);
    }

    method LookAt(name: string, value: string, limit: nat, allowed: string -> bool, now: int, ghost f: Flat,
                  ghost g: Goal<string, Attr>, ghost left: set<string>, ghost foundBefore: set<string>,
                  seenBefore: nat, hitsBefore: map<string, Attr>)
      returns (seen: nat, hits: map<string, Attr>, truncated: bool, ghost found: set<string>)
      requires Valid() && Contents() == f && GoalSound(g) && GoalAt(g, f, value, allowed, now, name)
      requires seenBefore == |foundBefore| && Looked(g, left, foundBefore, hitsBefore, limit) && name in left
      modifies this`namespaces, this`shards, this`flags
      ensures Valid() && Contents() == f
      ensures if truncated then TooMany(g, hits, limit)
              else seen == |found| && Looked(g, left - {name}, found, hits, limit)
    {
      seen, hits, truncated, found := seenBefore, hitsBefore, false, foundBefore;
      var view := View(name, value, now);
      assert name !in found;
      if name in g.permitted {
        LookedAndFound(g, left, found, hits, limit, name);
      } else {
        LookedPast(g, left, found, hits, limit, name);
      }
      if view.None? { return; }
      seen := seen + 1;
      found := found + {name};
      if !allowed(name) { return; }
      if |hits| >= limit {
        truncated := true;
      } else {
        hits := hits[name := view.value];
      }
    }
  }
}
