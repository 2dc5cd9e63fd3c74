/** What merging promises: the result depends on which offers were taken, not
    on their order or how often each arrived (src/attribute.rs:289-402).

    The promise is stated against a reference that mentions no order at all:
    the join of a record and a *set* of offers. Everything but the seen window
    meets it for all offers. The window meets it for every offer that is not
    blank, and the exact circumstances in which a blank one breaks it are given. */
module MergeLaws {
  import opened Text
  import opened Sets
  import opened Attributes

  ghost function MergeAll(a: Attr, offers: seq<Offer>, mine: string): Attr
  {
    if |offers| == 0 then a
    else Merged(MergeAll(a, offers[..|offers| - 1], mine), offers[|offers| - 1], mine)
  }

  // ---------------------------------------------------------------------
  // Counters and buckets: the least map above all of them.
  // ---------------------------------------------------------------------

  /** Key by key: held if anyone holds it, no less than anyone's, and someone's. */
  ghost predicate JoinAt<K>(base: map<K, nat>, parts: set<map<K, nat>>, r: map<K, nat>, k: K)
  {
    && (k in r <==> k in base || exists p :: p in parts && k in p)
    && Entry(base, k) <= Entry(r, k)
    && (forall p :: p in parts ==> Entry(p, k) <= Entry(r, k))
    && (Entry(r, k) == Entry(base, k) || exists p :: p in parts && Entry(p, k) == Entry(r, k))
  }

  ghost predicate MaxJoin<K(!new)>(base: map<K, nat>, parts: set<map<K, nat>>, r: map<K, nat>)
  {
    forall k :: JoinAt(base, parts, r, k)
  }

  lemma JoinAtUnique<K>(base: map<K, nat>, parts: set<map<K, nat>>, r: map<K, nat>, s: map<K, nat>, k: K)
    requires JoinAt(base, parts, r, k) && JoinAt(base, parts, s, k)
    ensures k in r <==> k in s
    ensures Entry(r, k) == Entry(s, k)
  {
  }

  lemma MaxJoinUnique<K(!new)>(base: map<K, nat>, parts: set<map<K, nat>>, r: map<K, nat>, s: map<K, nat>)
    requires MaxJoin(base, parts, r) && MaxJoin(base, parts, s)
    ensures r == s
  {
    forall k ensures (k in r <==> k in s) && Entry(r, k) == Entry(s, k) {
      assert JoinAt(base, parts, r, k) && JoinAt(base, parts, s, k);
      JoinAtUnique(base, parts, r, s, k);
    }
    SameEntries(r, s);
  }

  lemma MaxJoinNone<K(!new)>(base: map<K, nat>)
    ensures MaxJoin(base, {}, base)
  {
  }

  lemma MaxIntoAt<K>(r: map<K, nat>, p: map<K, nat>, k: K)
    ensures k in MaxInto(r, p) <==> k in r || k in p
    ensures Entry(MaxInto(r, p), k) == MaxNat(Entry(r, k), Entry(p, k))
  {
  }

  lemma JoinAtStep<K>(base: map<K, nat>, parts: set<map<K, nat>>, r: map<K, nat>, p: map<K, nat>,
                      s: map<K, nat>, k: K)
    requires JoinAt(base, parts, r, k)
    requires k in s <==> k in r || k in p
    requires Entry(s, k) == MaxNat(Entry(r, k), Entry(p, k))
    ensures JoinAt(base, parts + {p}, s, k)
  {
    var more := parts + {p};
    assert p in more;
    if k in r && k !in base {
      var q :| q in parts && k in q;
      assert q in more;
    }
    if Entry(s, k) == Entry(r, k) && Entry(r, k) != Entry(base, k) {
      var q :| q in parts && Entry(q, k) == Entry(r, k);
      assert q in more;
    }
  }

  lemma MaxJoinStep<K(!new)>(base: map<K, nat>, parts: set<map<K, nat>>, r: map<K, nat>, p: map<K, nat>)
    requires MaxJoin(base, parts, r)
    ensures MaxJoin(base, parts + {p}, MaxInto(r, p))
  {
    forall k ensures JoinAt(base, parts + {p}, MaxInto(r, p), k) {
      assert JoinAt(base, parts, r, k);
      MaxIntoAt(r, p, k);
      JoinAtStep(base, parts, r, p, MaxInto(r, p), k);
    }
  }

  /** A part already joined adds nothing. */
  lemma MaxJoinAbsorbs<K(!new)>(base: map<K, nat>, parts: set<map<K, nat>>, r: map<K, nat>, p: map<K, nat>)
    requires MaxJoin(base, parts, r) && p in parts
    ensures MaxInto(r, p) == r && !Rises(r, p)
  {
    forall k ensures (k in MaxInto(r, p) <==> k in r) && Entry(MaxInto(r, p), k) == Entry(r, k)
      ensures Entry(p, k) <= Entry(r, k)
    {
      assert JoinAt(base, parts, r, k);
      MaxIntoAt(r, p, k);
    }
    SameEntries(MaxInto(r, p), r);
    assert forall k :: k in p ==> p[k] == Entry(p, k) <= Entry(r, k);
  }

  ghost function CountParts(offers: set<Offer>, mine: string): set<map<string, nat>>
  {
    set o | o in offers :: o.counts - {mine}
  }

  ghost function BucketParts(offers: set<Offer>, n: string, mine: string): set<map<int, nat>>
  {
    set o | o in offers && n in o.stats && n != mine :: o.stats[n]
  }

  ghost predicate StatsJoin(a: Attr, offers: set<Offer>, mine: string, r: map<string, map<int, nat>>)
  {
    && (forall n :: n in r <==> n in a.stats || (n != mine && exists o :: o in offers && n in o.stats))
    && (forall n :: n in r ==> MaxJoin(Buckets(a.stats, n), BucketParts(offers, n, mine), r[n]))
  }

  lemma StatsJoinUnique(a: Attr, offers: set<Offer>, mine: string,
                        r: map<string, map<int, nat>>, s: map<string, map<int, nat>>)
    requires StatsJoin(a, offers, mine, r) && StatsJoin(a, offers, mine, s)
    ensures r == s
  {
    forall n | n in r ensures n in s && r[n] == s[n] {
      MaxJoinUnique(Buckets(a.stats, n), BucketParts(offers, n, mine), r[n], s[n]);
    }
  }

  lemma StatsJoinStep(a: Attr, offers: set<Offer>, mine: string, r: map<string, map<int, nat>>, o: Offer)
    requires StatsJoin(a, offers, mine, r)
    ensures StatsJoin(a, offers + {o}, mine, MergedStats(r, o.stats, mine))
  {
    var more, s := offers + {o}, MergedStats(r, o.stats, mine);
    assert o in more;
    forall n | n in s ensures n in a.stats || (n != mine && exists q :: q in more && n in q.stats) {
      if n in r && n !in a.stats {
        var q :| q in offers && n in q.stats;
        assert q in more;
      }
    }
    forall n | n in s ensures MaxJoin(Buckets(a.stats, n), BucketParts(more, n, mine), s[n]) {
      StatsNodeStep(a, offers, mine, r, o, n);
    }
  }

  lemma BucketPartsStep(offers: set<Offer>, o: Offer, n: string, mine: string)
    ensures BucketParts(offers + {o}, n, mine)
            == BucketParts(offers, n, mine) + (if n in o.stats && n != mine then {o.stats[n]} else {})
  {
  }

  lemma StatsNodeStep(a: Attr, offers: set<Offer>, mine: string, r: map<string, map<int, nat>>, o: Offer, n: string)
    requires StatsJoin(a, offers, mine, r) && n in MergedStats(r, o.stats, mine)
    ensures MaxJoin(Buckets(a.stats, n), BucketParts(offers + {o}, n, mine), MergedStats(r, o.stats, mine)[n])
  {
    BucketPartsStep(offers, o, n, mine);
    if n in o.stats && n != mine {
      if n !in r {
        assert n !in a.stats && BucketParts(offers, n, mine) == {};
        MaxJoinNone<int>(map[]);
      }
      assert MaxJoin(Buckets(a.stats, n), BucketParts(offers, n, mine), Buckets(r, n));
      MaxJoinStep(Buckets(a.stats, n), BucketParts(offers, n, mine), Buckets(r, n), o.stats[n]);
    } else {
      assert BucketParts(offers + {o}, n, mine) == BucketParts(offers, n, mine);
    }
  }

  lemma StatsJoinAbsorbs(a: Attr, offers: set<Offer>, mine: string, r: map<string, map<int, nat>>, o: Offer)
    requires StatsJoin(a, offers, mine, r) && o in offers
    ensures MergedStats(r, o.stats, mine) == r && !StatsRise(r, o.stats, mine)
  {
    forall n | n in o.stats && n != mine
      ensures n in r && MaxInto(r[n], o.stats[n]) == r[n] && !Rises(r[n], o.stats[n])
    {
      assert o.stats[n] in BucketParts(offers, n, mine);
      MaxJoinAbsorbs(Buckets(a.stats, n), BucketParts(offers, n, mine), r[n], o.stats[n]);
    }
  }

  // ---------------------------------------------------------------------
  // Tags: the latest replacement, or the union of those made at that moment.
  // ---------------------------------------------------------------------

  ghost predicate CarriesTag(a: Attr, offers: set<Offer>, at: int, t: string)
  {
    || (a.tagsAt == at && t in TagSet(a.tags))
    || exists o :: o in offers && o.tagsAt == at && t in TagSet(o.tags)
  }

  ghost predicate TagsJoin(a: Attr, offers: set<Offer>, r: Attr)
  {
    && a.tagsAt <= r.tagsAt
    && (forall o :: o in offers ==> o.tagsAt <= r.tagsAt)
    && (r.tagsAt == a.tagsAt || exists o :: o in offers && o.tagsAt == r.tagsAt)
    && (forall t :: t in TagSet(r.tags) <==> CarriesTag(a, offers, r.tagsAt, t))
  }

  lemma MergedTagSet(r: Attr, o: Offer)
    ensures TagSet(MergedTags(r, o)) ==
            if o.tagsAt > r.tagsAt then TagSet(o.tags)
            else if o.tagsAt < r.tagsAt then TagSet(r.tags)
            else TagSet(r.tags) + TagSet(o.tags)
    ensures o.tagsAt == r.tagsAt && TagSet(o.tags) <= TagSet(r.tags) ==> MergedTags(r, o) == r.tags
  {
    if o.tagsAt == r.tagsAt {
      if o.tags == "" { NoTags(); } else { AddTagsIsUnion(r.tags, o.tags); }
    }
  }

  lemma CarriesTagStep(a: Attr, offers: set<Offer>, o: Offer, at: int, t: string)
    ensures CarriesTag(a, offers + {o}, at, t)
            <==> CarriesTag(a, offers, at, t) || (o.tagsAt == at && t in TagSet(o.tags))
  {
    var more := offers + {o};
    assert o in more;
    if exists q :: q in offers && q.tagsAt == at && t in TagSet(q.tags) {
      var q :| q in offers && q.tagsAt == at && t in TagSet(q.tags);
      assert q in more;
    }
  }

  lemma TagsJoinStep(a: Attr, offers: set<Offer>, r: Attr, o: Offer, s: Attr)
    requires TagsJoin(a, offers, r)
    requires s.tags == MergedTags(r, o) && s.tagsAt == Max(r.tagsAt, o.tagsAt)
    ensures TagsJoin(a, offers + {o}, s)
  {
    var more := offers + {o};
    assert o in more;
    if s.tagsAt == r.tagsAt && r.tagsAt != a.tagsAt {
      var q :| q in offers && q.tagsAt == r.tagsAt;
      assert q in more;
    }
    forall t ensures t in TagSet(s.tags) <==> CarriesTag(a, more, s.tagsAt, t) {
      MergedTagSet(r, o);
      assert t in TagSet(r.tags) <==> CarriesTag(a, offers, r.tagsAt, t);
      CarriesTagStep(a, offers, o, s.tagsAt, t);
      // Nothing taken so far was replaced later than `r`.
      assert o.tagsAt > r.tagsAt ==> !CarriesTag(a, offers, o.tagsAt, t);
    }
  }

  // ---------------------------------------------------------------------
  // Expiry: the shortest that is not "never".
  // ---------------------------------------------------------------------

  ghost predicate TtlJoin(a: Attr, offers: set<Offer>, ttl: nat)
  {
    && (ttl == 0 <==> a.ttl == 0 && forall o :: o in offers ==> o.ttl == 0)
    && (a.ttl > 0 ==> ttl <= a.ttl)
    && (forall o :: o in offers && o.ttl > 0 ==> ttl <= o.ttl)
    && (ttl == a.ttl || exists o :: o in offers && o.ttl == ttl)
  }

  // ---------------------------------------------------------------------
  // Everything but the window, for all offers whatever.
  // ---------------------------------------------------------------------

  ghost predicate CoreJoin(a: Attr, offers: set<Offer>, mine: string, r: Attr)
  {
    && MaxJoin(a.counts, CountParts(offers, mine), r.counts)
    && StatsJoin(a, offers, mine, r.stats)
    && TagsJoin(a, offers, r)
    && TtlJoin(a, offers, r.ttl)
  }

  ghost predicate SameCore(a: Attr, b: Attr)
  {
    && a.counts == b.counts && a.stats == b.stats
    && a.tagsAt == b.tagsAt && TagSet(a.tags) == TagSet(b.tags) && a.ttl == b.ttl
  }

  lemma CoreJoinUnique(a: Attr, offers: set<Offer>, mine: string, r: Attr, s: Attr)
    requires CoreJoin(a, offers, mine, r) && CoreJoin(a, offers, mine, s)
    ensures SameCore(r, s)
  {
    MaxJoinUnique(a.counts, CountParts(offers, mine), r.counts, s.counts);
    StatsJoinUnique(a, offers, mine, r.stats, s.stats);
  }

  lemma CoreJoinNone(a: Attr, mine: string)
    ensures CoreJoin(a, {}, mine, a)
  {
    assert CountParts({}, mine) == {};
    MaxJoinNone(a.counts);
    forall n | n in a.stats ensures MaxJoin(Buckets(a.stats, n), BucketParts({}, n, mine), a.stats[n]) {
      assert BucketParts({}, n, mine) == {};
      MaxJoinNone(a.stats[n]);
    }
  }

  lemma CoreJoinStep(a: Attr, offers: set<Offer>, mine: string, r: Attr, o: Offer)
    requires CoreJoin(a, offers, mine, r)
    ensures CoreJoin(a, offers + {o}, mine, Merged(r, o, mine))
  {
    assert CountParts(offers + {o}, mine) == CountParts(offers, mine) + {o.counts - {mine}};
    MaxJoinStep(a.counts, CountParts(offers, mine), r.counts, o.counts - {mine});
    StatsJoinStep(a, offers, mine, r.stats, o);
    TagsJoinStep(a, offers, r, o, Merged(r, o, mine));
    TtlJoinStep(a, offers, r.ttl, o);
  }

  lemma TtlJoinStep(a: Attr, offers: set<Offer>, ttl: nat, o: Offer)
    requires TtlJoin(a, offers, ttl)
    ensures TtlJoin(a, offers + {o}, MergedTtl(ttl, o.ttl))
  {
    var more := offers + {o};
    assert o in more;
    if ttl != a.ttl {
      var q :| q in offers && q.ttl == ttl;
      assert q in more;
    }
  }

  /** A run of merges reaches the join of the offers it took, window aside. */
  lemma {:induction false} MergeAllReachesJoin(a: Attr, offers: seq<Offer>, mine: string)
    ensures CoreJoin(a, Elements(offers), mine, MergeAll(a, offers, mine))
  {
    if |offers| == 0 {
      assert Elements(offers) == {};
      CoreJoinNone(a, mine);
    } else {
      var front, o := offers[..|offers| - 1], offers[|offers| - 1];
      MergeAllReachesJoin(a, front, mine);
      assert offers == front + [o];
      assert Elements(offers) == Elements(front) + {o};
      CoreJoinStep(a, Elements(front), mine, MergeAll(a, front, mine), o);
    }
  }

  /** Order and repetition never matter to counters, buckets, tags or expiry. */
  lemma CoreIgnoresOrder(a: Attr, xs: seq<Offer>, ys: seq<Offer>, mine: string)
    requires Elements(xs) == Elements(ys)
    ensures SameCore(MergeAll(a, xs, mine), MergeAll(a, ys, mine))
  {
    MergeAllReachesJoin(a, xs, mine);
    MergeAllReachesJoin(a, ys, mine);
    CoreJoinUnique(a, Elements(xs), mine, MergeAll(a, xs, mine), MergeAll(a, ys, mine));
  }

  /** A merge never touches this server's own entry or buckets. */
  lemma OwnEntryUntouched(a: Attr, o: Offer, mine: string)
    ensures Entry(Merged(a, o, mine).counts, mine) == Entry(a.counts, mine)
    ensures mine in Merged(a, o, mine).counts <==> mine in a.counts
    ensures Buckets(Merged(a, o, mine).stats, mine) == Buckets(a.stats, mine)
  {
  }

  // ---------------------------------------------------------------------
  // The seen window.
  // ---------------------------------------------------------------------

  datatype Window = Window(counted: bool, first: int, last: int)

  predicate CountsForeign(o: Offer, mine: string)
  {
    exists n :: n in o.counts && n != mine && o.counts[n] > 0
  }

  ghost function WindowOf(a: Attr): Window
  {
    Window(Total(a.counts) > 0, a.firstSeen, a.lastSeen)
  }

  ghost function OfferWindow(o: Offer, mine: string): Window
  {
    Window(CountsForeign(o, mine), o.firstSeen, o.lastSeen)
  }

  /** Looks like a value nobody has seen. */
  predicate IsBlank(w: Window) { !w.counted && w.first == 0 }

  function Widen(w: Window, v: Window): Window
  {
    if IsBlank(w) then v
    else Window(w.counted || v.counted, Min(w.first, v.first), Max(w.last, v.last))
  }

  lemma MergeWidens(a: Attr, o: Offer, mine: string)
    ensures WindowOf(Merged(a, o, mine)) == Widen(WindowOf(a), OfferWindow(o, mine))
  {
    var m := Merged(a, o, mine);
    TotalZero(a.counts);
    TotalZero(m.counts);
    if Total(m.counts) > 0 && Total(a.counts) == 0 {
      var n :| n in m.counts && m.counts[n] > 0;
      assert n in o.counts && n != mine && o.counts[n] > 0;
    }
    if Total(a.counts) > 0 {
      var n :| n in a.counts && a.counts[n] > 0;
      assert n in m.counts && m.counts[n] > 0;
    }
    if CountsForeign(o, mine) {
      var n :| n in o.counts && n != mine && o.counts[n] > 0;
      assert n in m.counts && m.counts[n] > 0;
    }
  }

  /** Brings neither a foreign sighting nor a time: the unseen rule overwrites it. */
  ghost predicate Blank(o: Offer, mine: string)
  {
    IsBlank(OfferWindow(o, mine))
  }

  /** Can never look unseen again, whatever is merged. */
  ghost predicate Settled(a: Attr)
  {
    Total(a.counts) > 0 || a.firstSeen < 0
  }

  /** From the earliest to the latest of the offers, and of the record if it had been seen. */
  ghost predicate WindowJoin(a: Attr, offers: set<Offer>, r: Attr)
  {
    if offers == {} then r.firstSeen == a.firstSeen && r.lastSeen == a.lastSeen
    else
      && (!Unseen(a) ==> r.firstSeen <= a.firstSeen && a.lastSeen <= r.lastSeen)
      && (forall o :: o in offers ==> r.firstSeen <= o.firstSeen && o.lastSeen <= r.lastSeen)
      && ((!Unseen(a) && r.firstSeen == a.firstSeen) || exists o :: o in offers && o.firstSeen == r.firstSeen)
      && ((!Unseen(a) && r.lastSeen == a.lastSeen) || exists o :: o in offers && o.lastSeen == r.lastSeen)
  }

  ghost predicate NoBlanks(offers: set<Offer>, mine: string)
  {
    forall o :: o in offers ==> !Blank(o, mine)
  }

  lemma {:induction false} MergeAllWindow(a: Attr, offers: seq<Offer>, mine: string)
    requires Settled(a) || NoBlanks(Elements(offers), mine)
    ensures WindowJoin(a, Elements(offers), MergeAll(a, offers, mine))
    ensures |offers| > 0 || Settled(a) ==> !Unseen(MergeAll(a, offers, mine))
    ensures Settled(a) ==> Settled(MergeAll(a, offers, mine))
  {
    if |offers| == 0 {
      EmptyElements(offers);
    } else {
      var front, o := offers[..|offers| - 1], offers[|offers| - 1];
      FrontNoBlanks(offers, mine);
      MergeAllWindow(a, front, mine);
      EmptyElements(front);
      var r := MergeAll(a, front, mine);
      assert |front| == 0 ==> r == a;
      MergeWidens(r, o, mine);
      WindowJoinStep(a, Elements(front), r, o, Merged(r, o, mine));
    }
  }

  lemma FrontNoBlanks(offers: seq<Offer>, mine: string)
    requires |offers| > 0
    ensures var front, o := offers[..|offers| - 1], offers[|offers| - 1];
            && Elements(offers) == Elements(front) + {o}
            && (NoBlanks(Elements(offers), mine) ==> NoBlanks(Elements(front), mine) && !Blank(o, mine))
  {
    var front, o := offers[..|offers| - 1], offers[|offers| - 1];
    assert offers == front + [o];
    assert o in Elements(offers);
  }

  lemma WindowJoinStep(a: Attr, offers: set<Offer>, r: Attr, o: Offer, s: Attr)
    requires WindowJoin(a, offers, r)
    requires offers == {} ==> (Unseen(r) <==> Unseen(a))
    requires offers != {} ==> !Unseen(r)
    requires s.firstSeen == if Unseen(r) then o.firstSeen else Min(r.firstSeen, o.firstSeen)
    requires s.lastSeen == if Unseen(r) then o.lastSeen else Max(r.lastSeen, o.lastSeen)
    ensures WindowJoin(a, offers + {o}, s)
  {
    var more := offers + {o};
    assert o in more;
    if offers != {} {
      if exists q :: q in offers && q.firstSeen == r.firstSeen {
        var q :| q in offers && q.firstSeen == r.firstSeen;
        assert q in more;
      }
      if exists q :: q in offers && q.lastSeen == r.lastSeen {
        var q :| q in offers && q.lastSeen == r.lastSeen;
        assert q in more;
      }
    }
  }

  // ---------------------------------------------------------------------
  // The laws.
  // ---------------------------------------------------------------------

  /** Equal in everything a reader or a peer can see: tags compared as a set. */
  ghost predicate Same(a: Attr, b: Attr)
  {
    SameCore(a, b) && a.firstSeen == b.firstSeen && a.lastSeen == b.lastSeen
  }

  /** Any order and any number of repetitions of the same offers, none of them
      blank, leave the same record. */
  lemma MergeIgnoresOrder(a: Attr, xs: seq<Offer>, ys: seq<Offer>, mine: string)
    requires Elements(xs) == Elements(ys)
    requires Settled(a) || NoBlanks(Elements(xs), mine)
    ensures Same(MergeAll(a, xs, mine), MergeAll(a, ys, mine))
  {
    CoreIgnoresOrder(a, xs, ys, mine);
    MergeAllWindow(a, xs, mine);
    MergeAllWindow(a, ys, mine);
    WindowJoinUnique(a, Elements(xs), MergeAll(a, xs, mine), MergeAll(a, ys, mine));
  }

  /** The window of a join is the one thing it can be. */
  lemma WindowJoinUnique(a: Attr, offers: set<Offer>, r: Attr, s: Attr)
    requires WindowJoin(a, offers, r) && WindowJoin(a, offers, s)
    ensures r.firstSeen == s.firstSeen && r.lastSeen == s.lastSeen
  {
  }

  /** A join absorbs its own parts: the record stays, `changed` is false. */
  lemma AbsorbedOfferChangesNothing(a: Attr, offers: seq<Offer>, o: Offer, mine: string)
    requires o in offers
    requires Settled(a) || NoBlanks(Elements(offers), mine)
    ensures Merged(MergeAll(a, offers, mine), o, mine) == MergeAll(a, offers, mine)
    ensures !ReportsChange(MergeAll(a, offers, mine), o, mine)
  {
    var r := MergeAll(a, offers, mine);
    assert o in Elements(offers);
    MergeAllReachesJoin(a, offers, mine);
    MergeAllWindow(a, offers, mine);
    assert o.counts - {mine} in CountParts(Elements(offers), mine);
    MaxJoinAbsorbs(a.counts, CountParts(Elements(offers), mine), r.counts, o.counts - {mine});
    StatsJoinAbsorbs(a, Elements(offers), mine, r.stats, o);
    MergedTagSet(r, o);
    forall t | o.tagsAt == r.tagsAt && t in TagSet(o.tags) ensures t in TagSet(r.tags) {
      assert CarriesTag(a, Elements(offers), r.tagsAt, t);
    }
  }

  /** A merge reports a change exactly when something shows: the one thing it
      can move in silence is the moment of the last replacement, and the only
      thing it can add in silence is a zero. */
  ghost predicate ShowsTheSame(a: Attr, b: Attr)
  {
    && !Differ(a.counts, b.counts)
    && (forall n :: !NodeShows(a.stats, b.stats, n))
    && a.firstSeen == b.firstSeen && a.lastSeen == b.lastSeen
    && a.tags == b.tags && a.ttl == b.ttl
  }

  /** Differ in some entry, a missing one and a zero being alike. */
  ghost predicate Differ<K(!new)>(a: map<K, nat>, b: map<K, nat>)
  {
    exists k :: Entry(a, k) != Entry(b, k)
  }

  lemma RisesShows<K(!new)>(ours: map<K, nat>, theirs: map<K, nat>)
    ensures Rises(ours, theirs) <==> Differ(ours, MaxInto(ours, theirs))
  {
    if Rises(ours, theirs) {
      var k :| k in theirs && theirs[k] > Entry(ours, k);
      MaxIntoAt(ours, theirs, k);
      assert Entry(MaxInto(ours, theirs), k) != Entry(ours, k);
    } else {
      forall k ensures Entry(MaxInto(ours, theirs), k) == Entry(ours, k) {
        MaxIntoAt(ours, theirs, k);
      }
    }
  }

  ghost predicate NodeRises(ours: map<string, map<int, nat>>, theirs: map<string, map<int, nat>>, mine: string,
                            n: string)
  {
    n in theirs && n != mine && Rises(Buckets(ours, n), theirs[n])
  }

  ghost predicate NodeShows(ours: map<string, map<int, nat>>, theirs: map<string, map<int, nat>>, n: string)
  {
    Differ(Buckets(ours, n), Buckets(theirs, n))
  }

  lemma NodeRisesShows(ours: map<string, map<int, nat>>, theirs: map<string, map<int, nat>>, mine: string, n: string)
    ensures NodeRises(ours, theirs, mine, n) <==> NodeShows(ours, MergedStats(ours, theirs, mine), n)
  {
    var m := MergedStats(ours, theirs, mine);
    if n in theirs && n != mine {
      assert Buckets(m, n) == MaxInto(Buckets(ours, n), theirs[n]);
      RisesShows(Buckets(ours, n), theirs[n]);
    } else {
      assert Buckets(m, n) == Buckets(ours, n);
    }
  }

  lemma StatsRiseShows(ours: map<string, map<int, nat>>, theirs: map<string, map<int, nat>>, mine: string)
    ensures StatsRise(ours, theirs, mine) <==> exists n :: NodeShows(ours, MergedStats(ours, theirs, mine), n)
  {
    forall n ensures NodeRises(ours, theirs, mine, n) <==> NodeShows(ours, MergedStats(ours, theirs, mine), n) {
      NodeRisesShows(ours, theirs, mine, n);
    }
    if StatsRise(ours, theirs, mine) {
      var n :| n in theirs && n != mine && Rises(Buckets(ours, n), theirs[n]);
      assert NodeRises(ours, theirs, mine, n);
    }
  }

  lemma ReportedChangesShow(a: Attr, o: Offer, mine: string)
    ensures ReportsChange(a, o, mine) <==> !ShowsTheSame(a, Merged(a, o, mine))
  {
    RisesShows(a.counts, o.counts - {mine});
    StatsRiseShows(a.stats, o.stats, mine);
    assert Merged(a, o, mine).counts == MaxInto(a.counts, o.counts - {mine});
  }

  // ---------------------------------------------------------------------
  // Where the plain statement fails, and exactly where it holds.
  // ---------------------------------------------------------------------

  /** When two offers may change places. */
  predicate WindowsCommute(w: Window, v1: Window, v2: Window)
  {
    || w.counted || w.first < 0
    || (!IsBlank(v1) && !IsBlank(v2))
    || (IsBlank(v1) && IsBlank(v2) && v1.last == v2.last)
    || (IsBlank(v1) && !IsBlank(v2) && v2.first <= 0 && v1.last <= v2.last && (w.first == 0 || w.last <= v2.last))
    || (IsBlank(v2) && !IsBlank(v1) && v1.first <= 0 && v2.last <= v1.last && (w.first == 0 || w.last <= v1.last))
  }

  lemma MergesCommuteIff(a: Attr, o1: Offer, o2: Offer, mine: string)
    ensures Same(Merged(Merged(a, o1, mine), o2, mine), Merged(Merged(a, o2, mine), o1, mine))
            <==> WindowsCommute(WindowOf(a), OfferWindow(o1, mine), OfferWindow(o2, mine))
  {
    var m1, m2 := Merged(a, o1, mine), Merged(a, o2, mine);
    assert MergeAll(a, [], mine) == a;
    assert [o1][..0] == [] && [o2][..0] == [];
    assert MergeAll(a, [o1], mine) == m1 && MergeAll(a, [o2], mine) == m2;
    assert [o1, o2][..1] == [o1] && [o2, o1][..1] == [o2];
    assert MergeAll(a, [o1, o2], mine) == Merged(m1, o2, mine);
    assert MergeAll(a, [o2, o1], mine) == Merged(m2, o1, mine);
    assert Elements([o1, o2]) == {o1, o2} == Elements([o2, o1]);
    CoreIgnoresOrder(a, [o1, o2], [o2, o1], mine);
    MergeWidens(a, o1, mine);
    MergeWidens(a, o2, mine);
    MergeWidens(m1, o2, mine);
    MergeWidens(m2, o1, mine);
    WidenCommutes(WindowOf(a), OfferWindow(o1, mine), OfferWindow(o2, mine));
  }

  lemma WidenCommutes(w: Window, v1: Window, v2: Window)
    ensures var x, y := Widen(Widen(w, v1), v2), Widen(Widen(w, v2), v1);
            (x.first == y.first && x.last == y.last) <==> WindowsCommute(w, v1, v2)
  {
  }

  /** One failing family: a record with a time but no sightings, offered a blank
      that ends earlier. Everywhere else a merge is idempotent. */
  lemma MergeTwiceIff(a: Attr, o: Offer, mine: string)
    ensures Same(Merged(Merged(a, o, mine), o, mine), Merged(a, o, mine))
            <==> !(Total(a.counts) == 0 && Blank(o, mine) && a.firstSeen > 0 && a.lastSeen > o.lastSeen)
  {
    var m := Merged(a, o, mine);
    assert MergeAll(a, [], mine) == a;
    assert [o][..0] == [];
    assert MergeAll(a, [o], mine) == m;
    assert [o, o][..1] == [o];
    assert MergeAll(a, [o, o], mine) == Merged(m, o, mine);
    assert Elements([o, o]) == {o} == Elements([o]);
    CoreIgnoresOrder(a, [o, o], [o], mine);
    MergeWidens(a, o, mine);
    MergeWidens(m, o, mine);
  }

  /** So an offer can change places with every offer that brings something,
      from every record, exactly when it brings something itself. */
  lemma NonBlankExactlyCommutes(o: Offer, mine: string)
    ensures !Blank(o, mine) <==>
            forall a: Attr, q: Offer :: !Blank(q, mine) ==>
              Same(Merged(Merged(a, o, mine), q, mine), Merged(Merged(a, q, mine), o, mine))
  {
    if !Blank(o, mine) {
      forall a: Attr, q: Offer | !Blank(q, mine)
        ensures Same(Merged(Merged(a, o, mine), q, mine), Merged(Merged(a, q, mine), o, mine))
      {
        MergesCommuteIff(a, o, q, mine);
      }
    } else {
      // A value first seen at 5: taken after the blank it keeps its window,
      // taken before it the window is dragged back to the epoch.
      var q := Offer(map[], map[], 5, 5, "", 0, 0);
      assert !Blank(q, mine);
      assert Total(NEW.counts) == 0;
      MergesCommuteIff(NEW, o, q, mine);
    }
  }
}
