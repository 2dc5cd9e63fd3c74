/** What the store holds about a value, told from the history of what was done
    to it (src/db.rs:398-427, 888-935, 983-992, 1328-1338; src/attribute.rs:210-226,
    409-447).

    `FlatStore` says what each operation makes of the flat map, by way of what it
    makes of one record. Here it is said again by what can be read back. */
module Histories {
  import opened Options
  import opened Sets
  import opened Text
  import opened Namespaces
  import opened Attributes
  import opened MergeLaws
  import opened Retention
  import opened FlatStore
  import opened Databases
  import CatchUp

  /** What is stored, or a record nothing has been counted in. */
  function At(f: Flat, path: string, value: string): Attr
  {
    if path in f && value in f[path] then f[path][value] else NEW
  }

  /** Nothing but this one value differs, the tally aside. */
  ghost predicate OnlyAt(f: Flat, g: Flat, path: string, value: string)
  {
    && path in g && value in g[path]
    && (forall n, v :: n != ALL_NAMESPACE && (n != path || v != value) ==>
          (n in f && v in f[n] <==> n in g && v in g[n]) && At(f, n, v) == At(g, n, v))
  }

  // ---------------------------------------------------------------------
  // One write.
  // ---------------------------------------------------------------------

  /** What one write leaves behind, field by field. It counts for the server it
      came from, whoever stores it. */
  ghost predicate Landed(a: Attr, b: Attr, p: Policy, path: string, w: Sight)
  {
    && (forall n :: Entry(b.counts, n) == Entry(a.counts, n) + if n == w.origin then 1 else 0)
    && Total(b.counts) == Total(a.counts) + 1
    && b.firstSeen == (if Total(a.counts) == 0 || w.when < a.firstSeen then w.when else a.firstSeen)
    && b.lastSeen == (if Total(a.counts) == 0 || w.when > a.lastSeen then w.when else a.lastSeen)
    && b.ttl == (if w.ttl.Some? then w.ttl.value
                 else if SHADOW_PREFIX <= path && p.shadowTtl > 0 then p.shadowTtl else a.ttl)
    && b.tagsAt == a.tagsAt
  }

  lemma WriteLands(f: Flat, p: Policy, path: string, value: string, w: Sight, consensus: bool)
    requires path != ALL_NAMESPACE
    ensures var g := Written(f, p, path, value, w, consensus);
            && OnlyAt(f, g, path, value)
            && Landed(At(f, path, value), At(g, path, value), p, path, w)
  {
    var a := At(f, path, value);
    WriteStays(f, p, path, value, w, consensus);
    assert a == Held(In(f, path), value);
    SightedLands(a, p, path, w);
  }

  lemma SightedLands(a: Attr, p: Policy, path: string, w: Sight)
    ensures Landed(a, Sighted(a, w.origin, w.when, TtlFor(p, path, w.ttl), p.retention, w.tags), p, path, w)
  {
    SightedCounts(a, w.origin, w.when, TtlFor(p, path, w.ttl), p.retention, w.tags);
  }

  /** And its tags join those that were there. */
  lemma WriteTags(f: Flat, p: Policy, path: string, value: string, w: Sight, consensus: bool)
    requires path != ALL_NAMESPACE
    ensures TagSet(At(Written(f, p, path, value, w, consensus), path, value).tags) ==
            TagSet(At(f, path, value).tags) + TagSet(w.tags)
  {
    WriteStays(f, p, path, value, w, consensus);
    SightedTags(At(f, path, value), w.origin, w.when, TtlFor(p, path, w.ttl), p.retention, w.tags);
  }

  lemma WriteStays(f: Flat, p: Policy, path: string, value: string, w: Sight, consensus: bool)
    requires path != ALL_NAMESPACE
    ensures var g := Written(f, p, path, value, w, consensus);
            OnlyAt(f, g, path, value) && At(g, path, value) == AfterSighting(f, p, path, value, w)
  {
  }

  /** A value its namespace did not hold is counted in `_all`, for this server and
      as of the write; any other write leaves `_all` alone. */
  lemma NewValueCounts(f: Flat, p: Policy, path: string, value: string, w: Sight, consensus: bool, v: string)
    requires path != ALL_NAMESPACE
    ensures var g := Written(f, p, path, value, w, consensus);
            var a, b := At(f, ALL_NAMESPACE, v), At(g, ALL_NAMESPACE, v);
            if consensus && v == value && value !in In(f, path)
            then Landed(a, b, p, ALL_NAMESPACE, Sight(p.node, w.when, None, ""))
            else a == b
  {
    var u := Sight(p.node, w.when, None, "");
    assert In(Put(f, path, value, AfterSighting(f, p, path, value, w)), ALL_NAMESPACE) == In(f, ALL_NAMESPACE);
    assert At(f, ALL_NAMESPACE, value) == Held(In(f, ALL_NAMESPACE), value);
    SightedLands(At(f, ALL_NAMESPACE, value), p, ALL_NAMESPACE, u);
  }

  /** Its buckets: with room for all, the clock hour the write falls in gains one. */
  lemma WriteHits(f: Flat, p: Policy, path: string, value: string, w: Sight, consensus: bool, hour: int)
    requires path != ALL_NAMESPACE && p.retention == 0 && hour % 3600 == 0 && hour <= w.when < hour + 3600
    ensures var a, b := At(f, path, value), At(Written(f, p, path, value, w, consensus), path, value);
            forall n, h :: Entry(Buckets(b.stats, n), h) ==
              Entry(Buckets(a.stats, n), h) + if n == w.origin && h == hour then 1 else 0
  {
    WriteStays(f, p, path, value, w, consensus);
    HourIs(w.when, hour);
  }

  // ---------------------------------------------------------------------
  // Any number of writes to a value that was not there.
  // ---------------------------------------------------------------------

  ghost function WrittenAll(f: Flat, p: Policy, path: string, value: string, ws: seq<Sight>, consensus: bool): Flat
    decreases |ws|
  {
    if |ws| == 0 then f
    else Written(WrittenAll(f, p, path, value, ws[..|ws| - 1], consensus), p, path, value, ws[|ws| - 1], consensus)
  }

  function From(n: string): Sight -> bool
  {
    (w: Sight) => w.origin == n
  }

  /** The last expiry a write brought, or had from policy; none is zero. */
  function LastTtl(p: Policy, path: string, ws: seq<Sight>): nat
    decreases |ws|
  {
    if |ws| == 0 then 0
    else if ws[|ws| - 1].ttl.Some? then ws[|ws| - 1].ttl.value
    else if SHADOW_PREFIX <= path && p.shadowTtl > 0 then p.shadowTtl
    else LastTtl(p, path, ws[..|ws| - 1])
  }

  ghost predicate IsFirst(ws: seq<Sight>, when: int)
  {
    (exists w :: w in ws && w.when == when) && forall w :: w in ws ==> when <= w.when
  }

  ghost predicate IsLast(ws: seq<Sight>, when: int)
  {
    (exists w :: w in ws && w.when == when) && forall w :: w in ws ==> w.when <= when
  }

  function TagsOf(ws: seq<Sight>): set<string>
  {
    set w, t | w in ws && t in TagSet(w.tags) :: t
  }

  /** The record is the history: who was seen to sight it how often, from when to
      when, and the last expiry given. */
  ghost predicate Tells(a: Attr, p: Policy, path: string, ws: seq<Sight>)
  {
    && (forall n :: Entry(a.counts, n) == HowMany(ws, From(n)))
    && Total(a.counts) == |ws|
    && (|ws| > 0 ==> IsFirst(ws, a.firstSeen) && IsLast(ws, a.lastSeen))
    && a.ttl == LastTtl(p, path, ws) && a.tagsAt == 0
  }

  lemma TellsNext(a: Attr, b: Attr, p: Policy, path: string, ws: seq<Sight>)
    requires |ws| > 0 && Tells(a, p, path, ws[..|ws| - 1]) && Landed(a, b, p, path, ws[|ws| - 1])
    ensures Tells(b, p, path, ws)
  {
    SpanNext(a, b, ws);
  }

  lemma FrontAndLast<T>(s: seq<T>)
    requires |s| > 0
    ensures forall x :: x in s <==> x in s[..|s| - 1] || x == s[|s| - 1]
  {
    assert s == s[..|s| - 1] + [s[|s| - 1]];
  }

  lemma SpanNext(a: Attr, b: Attr, ws: seq<Sight>)
    requires |ws| > 0 && (|ws| > 1 ==> IsFirst(ws[..|ws| - 1], a.firstSeen) && IsLast(ws[..|ws| - 1], a.lastSeen))
    requires var when := ws[|ws| - 1].when;
             && b.firstSeen == (if |ws| == 1 || when < a.firstSeen then when else a.firstSeen)
             && b.lastSeen == (if |ws| == 1 || when > a.lastSeen then when else a.lastSeen)
    ensures IsFirst(ws, b.firstSeen) && IsLast(ws, b.lastSeen)
  {
    FrontAndLast(ws);
    assert ws[|ws| - 1] in ws;
    if |ws| > 1 {
      var x :| x in ws[..|ws| - 1] && x.when == a.firstSeen;
      var y :| y in ws[..|ws| - 1] && y.when == a.lastSeen;
      assert x in ws && y in ws;
    }
  }

  /** After any writes, by any servers, to a value that was not there. */
  lemma {:induction false} RecordTellsHistory(f: Flat, p: Policy, path: string, value: string, ws: seq<Sight>,
                                              consensus: bool)
    requires path != ALL_NAMESPACE && value !in In(f, path)
    ensures Tells(At(WrittenAll(f, p, path, value, ws, consensus), path, value), p, path, ws)
    decreases |ws|
  {
    if |ws| == 0 {
      NewTellsNothing(p, path);
    } else {
      RecordTellsHistory(f, p, path, value, ws[..|ws| - 1], consensus);
      WriteTells(WrittenAll(f, p, path, value, ws[..|ws| - 1], consensus), p, path, value, ws, consensus);
    }
  }

  /** And nothing else has moved. */
  lemma {:induction false} WritesStay(f: Flat, p: Policy, path: string, value: string, ws: seq<Sight>, consensus: bool)
    requires path != ALL_NAMESPACE && |ws| > 0
    ensures OnlyAt(f, WrittenAll(f, p, path, value, ws, consensus), path, value)
    decreases |ws|
  {
    var front, w := ws[..|ws| - 1], ws[|ws| - 1];
    var g := WrittenAll(f, p, path, value, front, consensus);
    WriteStays(g, p, path, value, w, consensus);
    if |front| > 0 {
      WritesStay(f, p, path, value, front, consensus);
      OnlyAtTwice(f, g, WrittenAll(f, p, path, value, ws, consensus), path, value);
    }
  }

  lemma NewTellsNothing(p: Policy, path: string)
    ensures Tells(NEW, p, path, [])
  {
  }

  /** Its tags are all that ever came. */
  lemma {:induction false} TagsTellHistory(f: Flat, p: Policy, path: string, value: string, ws: seq<Sight>,
                                           consensus: bool)
    requires path != ALL_NAMESPACE && value !in In(f, path)
    ensures TagSet(At(WrittenAll(f, p, path, value, ws, consensus), path, value).tags) == TagsOf(ws)
    decreases |ws|
  {
    if |ws| == 0 {
      NoTags();
    } else {
      TagsTellHistory(f, p, path, value, ws[..|ws| - 1], consensus);
      WriteTags(WrittenAll(f, p, path, value, ws[..|ws| - 1], consensus), p, path, value, ws[|ws| - 1], consensus);
      TagsOfNext(ws);
    }
  }

  lemma TagsOfNext(ws: seq<Sight>)
    requires |ws| > 0
    ensures TagsOf(ws) == TagsOf(ws[..|ws| - 1]) + TagSet(ws[|ws| - 1].tags)
  {
    FrontAndLast(ws);
  }

  lemma WriteTells(f: Flat, p: Policy, path: string, value: string, ws: seq<Sight>, consensus: bool)
    requires path != ALL_NAMESPACE && |ws| > 0 && Tells(At(f, path, value), p, path, ws[..|ws| - 1])
    ensures Tells(At(Written(f, p, path, value, ws[|ws| - 1], consensus), path, value), p, path, ws)
  {
    var w := ws[|ws| - 1];
    var a, b := At(f, path, value), At(Written(f, p, path, value, w, consensus), path, value);
    WriteLands(f, p, path, value, w, consensus);
    TellsNext(a, b, p, path, ws);
  }

  lemma OnlyAtTwice(f: Flat, g: Flat, h: Flat, path: string, value: string)
    requires OnlyAt(f, g, path, value) && OnlyAt(g, h, path, value)
    ensures OnlyAt(f, h, path, value)
  {
  }

  // ---------------------------------------------------------------------
  // How long a value is shown.
  // ---------------------------------------------------------------------

  /** A value is shown for as long as its last expiry says, counted from its latest
      sighting, in whatever order they came; for good if it was given none. */
  lemma ShownIff(f: Flat, p: Policy, path: string, value: string, ws: seq<Sight>, consensus: bool, last: int, now: int)
    requires path != ALL_NAMESPACE && value !in In(f, path) && |ws| > 0 && IsLast(ws, last)
    requires now <= 0x7FFF_FFFF_FFFF_FFFF
    ensures var g, ttl := WrittenAll(f, p, path, value, ws, consensus), LastTtl(p, path, ws);
            Visible(g, path, value, now).Some? <==> ttl == 0 || now <= last + Min(ttl, 0x7FFF_FFFF_FFFF_FFFF)
  {
    RecordTellsHistory(f, p, path, value, ws, consensus);
    WritesStay(f, p, path, value, ws, consensus);
    var g := WrittenAll(f, p, path, value, ws, consensus);
    OneLast(ws, last, At(g, path, value).lastSeen);
    ShownBy(g, path, value, now);
  }

  lemma OneLast(ws: seq<Sight>, s: int, t: int)
    requires IsLast(ws, s) && IsLast(ws, t)
    ensures s == t
  {
  }

  lemma ShownBy(f: Flat, path: string, value: string, now: int)
    requires path in f && value in f[path] && now <= I64_MAX
    ensures var a := At(f, path, value);
            Visible(f, path, value, now).Some? <==> a.ttl == 0 || now <= a.lastSeen + Min(a.ttl, I64_MAX)
  {
  }

  /** Whatever was there before, a write that brings an expiry is shown until then. */
  lemma WriteIsShown(f: Flat, p: Policy, path: string, value: string, w: Sight, consensus: bool, now: int)
    requires path != ALL_NAMESPACE && w.ttl.Some? && w.ttl.value > 0
    requires now <= w.when + Min(w.ttl.value, I64_MAX) && now <= I64_MAX
    ensures Visible(Written(f, p, path, value, w, consensus), path, value, now) ==
            Some(At(Written(f, p, path, value, w, consensus), path, value))
  {
    WriteLands(f, p, path, value, w, consensus);
  }

  // ---------------------------------------------------------------------
  // The other operations.
  // ---------------------------------------------------------------------

  /** The tags and the stamp differ, the stamp being the later of the two. */
  ghost predicate Relabelled(a: Attr, b: Attr, tags: string, at: int)
  {
    && TagSet(b.tags) == TagSet(tags) && b.tagsAt == (if at > a.tagsAt then at else a.tagsAt)
    && b.counts == a.counts && b.stats == a.stats && b.ttl == a.ttl
    && b.firstSeen == a.firstSeen && b.lastSeen == a.lastSeen
  }

  lemma RetaggedIs(a: Attr, tags: string, at: int)
    ensures Relabelled(a, Retagged(a, tags, at), tags, at)
  {
    CleanTagsSameSet(tags);
  }

  /** A replacement of tags changes what is shown, and nothing else. */
  lemma RetagLands(f: Flat, path: string, value: string, tags: string, now: int, at: int)
    ensures var g := RetaggedIn(f, path, value, tags, now, at);
            if Visible(f, path, value, now).None? then g == f
            else
              && g == f[path := f[path][value := At(g, path, value)]]
              && Relabelled(At(f, path, value), At(g, path, value), tags, at)
  {
    if Visible(f, path, value, now).Some? { RetaggedIs(f[path][value], tags, at); }
  }

  /** A merge joins the offer to what was there, this server's own entry aside. */
  lemma MergeLands(f: Flat, p: Policy, path: string, value: string, o: Offer, now: int)
    requires path != ALL_NAMESPACE
    ensures var g := MergedIn(f, p, path, value, o, now);
            var a, b := At(f, path, value), At(g, path, value);
            OnlyAt(f, g, path, value) && CoreJoin(a, {o}, p.node, b) && GreaterOf(a, b, o, p.node)
  {
    var a := At(f, path, value);
    MergeStays(f, p, path, value, o, now);
    OneOffer(a, o, p.node);
    forall n ensures GreaterAt(a, Merged(a, o, p.node), o, p.node, n) {
      MergedAt(a, o, p.node, n);
    }
  }

  ghost predicate GreaterAt(a: Attr, b: Attr, o: Offer, mine: string, n: string)
  {
    Entry(b.counts, n) == if n == mine || Entry(a.counts, n) > Entry(o.counts, n) then Entry(a.counts, n)
                          else Entry(o.counts, n)
  }

  ghost predicate GreaterOf(a: Attr, b: Attr, o: Offer, mine: string)
  {
    forall n :: GreaterAt(a, b, o, mine, n)
  }

  lemma MergeStays(f: Flat, p: Policy, path: string, value: string, o: Offer, now: int)
    requires path != ALL_NAMESPACE
    ensures var g := MergedIn(f, p, path, value, o, now);
            OnlyAt(f, g, path, value) && At(g, path, value) == Merged(At(f, path, value), o, p.node)
  {
  }

  lemma OneOffer(a: Attr, o: Offer, mine: string)
    ensures CoreJoin(a, {o}, mine, Merged(a, o, mine))
  {
    MergeAllReachesJoin(a, [o], mine);
    assert [o][..0] == [] && Elements([o]) == {o};
    assert MergeAll(a, [o], mine) == Merged(a, o, mine);
  }

  /** A declared namespace is there, empty if it was not, and nothing else moves. */
  lemma DeclareLands(f: Flat, name: string)
    ensures var g := Declared(f, name);
            && g.Keys == f.Keys + {name} && (name !in f ==> g[name] == map[])
            && forall n :: n in f ==> g[n] == f[n]
  {
  }

  /** A deleted namespace is gone, and no other but the tally is touched. */
  lemma DeleteLands(f: Flat, p: Policy, name: string)
    requires name != ALL_NAMESPACE
    ensures var g := Deleted(f, p, name);
            && name !in g
            && forall n :: n != name && n != ALL_NAMESPACE ==>
                 (n in g <==> n in f) && (n in f && n in g ==> g[n] == f[n])
  {
  }

  /** A sweep takes from the namespaces it visits exactly what is not shown any
      more, the configuration aside, and changes nothing else but the tally. */
  lemma SweepLands(f: Flat, p: Policy, names: seq<string>, now: int, n: string, value: string)
    requires n != ALL_NAMESPACE
    ensures var g := Swept(f, p, names, now);
            && (n in g && value in g[n] <==>
                  n in f && value in f[n] &&
                  (Visible(f, n, value, now).Some? || n !in names || CONFIG_PREFIX <= n))
            && (n in g && value in g[n] ==> g[n][value] == f[n][value])
  {
    SweptEachAt(f, p, names, now, n);
    if n in Emptied(f, p, names, now) {
      EmptiedHadExpired(f, p, names, now, n);
      EmptiedIsEmpty(f, p, names, now);
    }
  }

  /** The values a sweep of these namespaces finds to be shown no more. */
  ghost function Hidden(f: Flat, names: seq<string>, now: int): set<(string, string)>
  {
    set n, v | n in names && n in f && v in f[n] && n != ALL_NAMESPACE && !(CONFIG_PREFIX <= n) &&
               Visible(f, n, v, now).None? :: (n, v)
  }

  ghost function HiddenIn(f: Flat, n: string, now: int): set<(string, string)>
  {
    set v | n in f && v in f[n] && n != ALL_NAMESPACE && !(CONFIG_PREFIX <= n) && Visible(f, n, v, now).None? :: (n, v)
  }

  lemma {:induction false} PairsSize(n: string, values: set<string>)
    ensures |set v | v in values :: (n, v)| == |values|
    decreases values
  {
    if values != {} {
      var x := Member(values);
      PairsSize(n, values - {x});
      assert (set v | v in values :: (n, v)) == (set v | v in values - {x} :: (n, v)) + {(n, x)};
    }
  }

  lemma HiddenSize(f: Flat, n: string, now: int)
    requires n != ALL_NAMESPACE
    ensures |HiddenIn(f, n, now)| == if CONFIG_PREFIX <= n then 0 else |Expired(In(f, n), now)|
  {
    if n in f && !(CONFIG_PREFIX <= n) {
      PairsSize(n, Expired(f[n], now));
      assert HiddenIn(f, n, now) == set v | v in Expired(f[n], now) :: (n, v);
    }
  }

  lemma HiddenNext(f: Flat, names: seq<string>, now: int)
    requires |names| > 0 && forall i, j :: 0 <= i < j < |names| ==> names[i] != names[j]
    ensures var front, n := names[..|names| - 1], names[|names| - 1];
            && n !in front && (n == ALL_NAMESPACE ==> HiddenIn(f, n, now) == {})
            && |Hidden(f, names, now)| == |Hidden(f, front, now)| + |HiddenIn(f, n, now)|
  {
    var front, n := names[..|names| - 1], names[|names| - 1];
    FrontAndLast(names);
    assert Hidden(f, names, now) == Hidden(f, front, now) + HiddenIn(f, n, now);
    assert Hidden(f, front, now) !! HiddenIn(f, n, now);
  }

  /** A sweep reports as many values as it found to be shown no more. */
  lemma {:induction false} SweepReports(f: Flat, p: Policy, extra: string -> nat, names: seq<string>, now: int)
    requires Tally(f, p.node, extra) && forall i, j :: 0 <= i < j < |names| ==> names[i] != names[j]
    ensures ExpiredIn(f, p, names, now) == |Hidden(f, names, now)|
    decreases |names|
  {
    if |names| > 0 {
      var front, n := names[..|names| - 1], names[|names| - 1];
      SweepReports(f, p, extra, front, now);
      HiddenNext(f, names, now);
      if n == ALL_NAMESPACE {
        SweptEachKeepsTally(f, p, extra, front, now);
        NothingExpiresInAll(SweptEach(f, p, front, now), p, extra, now);
      } else {
        HiddenSize(f, n, now);
        SweptEachAt(f, p, front, now, n);
      }
    }
  }

  /** And a namespace goes with its values if and only if it had some, and none of
      them is shown any more. */
  lemma {:induction false} EmptiedIff(f: Flat, p: Policy, names: seq<string>, now: int, n: string)
    requires n != ALL_NAMESPACE
    ensures n in Emptied(f, p, names, now) <==>
            && n in names && n in f && !(CONFIG_PREFIX <= n) && f[n] != map[]
            && forall v :: v in f[n] ==> Visible(f, n, v, now).None?
    decreases |names|
  {
    if |names| > 0 {
      var front, last := names[..|names| - 1], names[|names| - 1];
      EmptiedIff(f, p, front, now, n);
      FrontAndLast(names);
      if n == last {
        SweptEachAt(f, p, front, now, n);
        AllGoneIff(f, n, now);
        if n in f { NoneLeftToExpire(f[n], now); }
      }
    }
  }

  lemma AllGoneIff(f: Flat, n: string, now: int)
    ensures n in f ==> (AllGone(f[n], now) <==> f[n] != map[] && forall v :: v in f[n] ==> Visible(f, n, v, now).None?)
  {
    if n in f && f[n] != map[] && forall v :: v in f[n] ==> Visible(f, n, v, now).None? {
      assert f[n].Keys != {};
      assert f[n].Keys == Expired(f[n], now);
    }
  }

  /** What a page of a namespace can list is what is shown of it. */
  lemma ListedIsShown(f: Flat, path: string, now: int, value: string)
    ensures value in CatchUp.Live(CatchUp.Moment(In(f, path), now)) <==> Visible(f, path, value, now).Some?
  {
  }

  /** A search lists the namespaces that count, show the value and may be read. */
  lemma PermittedIs(f: Flat, value: string, allowed: string -> bool, now: int, n: string)
    ensures n in Permitted(f, value, allowed, now) <==>
            && Visible(f, n, value, now).Some? && allowed(n) && n != "_all"
            && !(|Segments(n)| > 1 && (Segments(n)[0] == "_shadow" || Segments(n)[0] == "_config"))
  {
    CountsIff(n);
  }

  // ---------------------------------------------------------------------
  // A catch-up walk.
  // ---------------------------------------------------------------------

  /** What was taken about one value, in order. */
  function OffersFor(items: CatchUp.Copy, v: string): seq<Offer>
    decreases |items|
  {
    if |items| == 0 then []
    else
      OffersFor(items[..|items| - 1], v) +
      if items[|items| - 1].0 == v then [items[|items| - 1].1] else []
  }

  /** Each value here ends as if exactly what was taken about it had been merged. */
  lemma {:induction false} WalkMerges(values: map<string, Attr>, items: CatchUp.Copy, node: string, v: string)
    ensures var after := CatchUp.MergeItems(values, items, node);
            && Held(after, v) == MergeAll(Held(values, v), OffersFor(items, v), node)
            && (v in after <==> v in values || OffersFor(items, v) != [])
    decreases |items|
  {
    if |items| > 0 {
      var front, last := items[..|items| - 1], items[|items| - 1];
      WalkMerges(values, front, node, v);
      MergeAllNext(Held(values, v), OffersFor(front, v), last.1, node);
      OffersNext(items, v);
      ItemLands(CatchUp.MergeItems(values, front, node), last, node, v);
    }
  }

  lemma OffersNext(items: CatchUp.Copy, v: string)
    requires |items| > 0
    ensures var front, last := items[..|items| - 1], items[|items| - 1];
            OffersFor(items, v) == if last.0 == v then OffersFor(front, v) + [last.1] else OffersFor(front, v)
  {
  }

  lemma ItemLands(values: map<string, Attr>, item: (string, Offer), node: string, v: string)
    ensures var after := CatchUp.MergeItem(values, item, node);
            && Held(after, v) == (if v == item.0 then Merged(Held(values, v), item.1, node) else Held(values, v))
            && (v in after <==> v in values || v == item.0)
  {
  }

  lemma MergeAllNext(a: Attr, offers: seq<Offer>, o: Offer, mine: string)
    ensures MergeAll(a, offers + [o], mine) == Merged(MergeAll(a, offers, mine), o, mine)
  {
    assert (offers + [o])[..|offers + [o]| - 1] == offers;
  }

  /** How many of the merges made a difference anyone can see. */
  ghost function Differences(values: map<string, Attr>, items: CatchUp.Copy, node: string): nat
    decreases |items|
  {
    if |items| == 0 then 0
    else
      var front, v := items[..|items| - 1], items[|items| - 1].0;
      var before, after := CatchUp.MergeItems(values, front, node), CatchUp.MergeItems(values, items, node);
      Differences(values, front, node) + if ShowsTheSame(Held(before, v), Held(after, v)) then 0 else 1
  }

  lemma {:induction false} WalkReports(values: map<string, Attr>, items: CatchUp.Copy, node: string)
    ensures CatchUp.Changes(values, items, node) == Differences(values, items, node)
    decreases |items|
  {
    if |items| > 0 {
      var front, last := items[..|items| - 1], items[|items| - 1];
      WalkReports(values, front, node);
      ReportedChangesShow(Held(CatchUp.MergeItems(values, front, node), last.0), last.1, node);
    }
  }
}
