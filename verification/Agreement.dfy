/** Mirrors that have heard from one another agree, whatever happened before
    (src/attribute.rs:277-402, src/galaxy.rs:1604-1640, 1743-1805).

    A galaxy runs for as long as it likes, forwarding, losing and double counting
    as the code allows, but dropping nothing. Then clients fall silent and the
    mirrors exchange offers. No fence is asked for anywhere. */
module Agreement {
  import opened Sets
  import opened Text
  import opened Options
  import opened Attributes
  import opened MergeLaws
  import opened GalaxyRuns

  function AttrOf(o: Offer): Attr
  {
    Attr(o.counts, o.stats, o.firstSeen, o.lastSeen, o.tags, o.tagsAt, o.ttl)
  }

  predicate Exchange(step: Step)
  {
    step.Publish? || step.Take?
  }

  ghost predicate Exchanges(steps: seq<Step>)
  {
    forall i :: 0 <= i < |steps| ==> Exchange(steps[i])
  }

  ghost function Made(g: Galaxy, n: string): Sent
    requires n in g.copies
  {
    Sent(n, Entry(g.accepted, n), AsMerge(g.copies[n]))
  }

  /** `m` takes an offer that `n` made in this very run, or one of `recent`. */
  ghost predicate HearsFrom(g: Galaxy, steps: seq<Step>, m: string, n: string, recent: set<Sent>)
    requires IsRun(g, steps)
    decreases |steps|
  {
    |steps| > 0 &&
    ((steps[0].Take? && steps[0].at == m && steps[0].sent in recent) ||
     HearsFrom(Apply(g, steps[0]), steps[1..], m, n, recent + if steps[0] == Publish(n) then {Made(g, n)} else {}))
  }

  /** Everyone hears from everyone else. */
  ghost predicate Exchanged(g: Galaxy, steps: seq<Step>)
    requires IsRun(g, steps)
  {
    forall m, n :: m in g.holders && n in g.holders && m != n ==> HearsFrom(g, steps, m, n, {})
  }

  // ---------------------------------------------------------------------
  // Reading one number off a record.
  // ---------------------------------------------------------------------

  /** At mirror `m` a merge never lowers the reading and never lifts it above
      what was held or offered. */
  ghost predicate MovesBetween(f: Attr -> int, ok: Attr -> bool, m: string)
  {
    forall a: Attr, o: Offer :: ok(a) && ok(AttrOf(o)) ==>
      ok(Merged(a, o, m)) && f(a) <= f(Merged(a, o, m)) <= Max(f(a), f(AttrOf(o)))
  }

  /** And it does reach what was offered. */
  ghost predicate Attains(f: Attr -> int, ok: Attr -> bool, m: string)
  {
    forall a: Attr, o: Offer :: ok(a) && ok(AttrOf(o)) ==> f(Merged(a, o, m)) >= f(AttrOf(o))
  }

  ghost predicate AllOk(g: Galaxy, ok: Attr -> bool)
  {
    && (forall m :: m in g.holders ==> ok(CopyOf(g, m)))
    && (forall sent :: sent in g.offers ==> ok(AttrOf(sent.body)))
  }

  ghost predicate AtMost(g: Galaxy, f: Attr -> int, top: int)
  {
    && (forall m :: m in g.holders ==> f(CopyOf(g, m)) <= top)
    && (forall sent :: sent in g.offers ==> f(AttrOf(sent.body)) <= top)
  }

  ghost predicate Lawful(g: Galaxy, f: Attr -> int, ok: Attr -> bool)
  {
    AllOk(g, ok) && forall m :: m in g.holders ==> MovesBetween(f, ok, m)
  }

  lemma OfferIsCopy(a: Attr)
    ensures AttrOf(AsMerge(a)) == a
  {
  }

  lemma LawfulStep(g: Galaxy, step: Step, f: Attr -> int, ok: Attr -> bool)
    requires Enabled(g, step) && Exchange(step) && Lawful(g, f, ok)
    ensures Lawful(Apply(g, step), f, ok)
    ensures forall m :: f(CopyOf(g, m)) <= f(CopyOf(Apply(g, step), m))
    ensures step.Take? ==> f(CopyOf(Apply(g, step), step.at)) <= Max(f(CopyOf(g, step.at)), f(AttrOf(step.sent.body)))
    ensures forall m :: step.Publish? || m != step.at ==> CopyOf(Apply(g, step), m) == CopyOf(g, m)
  {
    var h := Apply(g, step);
    if step.Publish? {
      OfferIsCopy(g.copies[step.at]);
    } else {
      assert MovesBetween(f, ok, step.at) && ok(CopyOf(g, step.at)) && ok(AttrOf(step.sent.body));
      assert CopyOf(h, step.at) == Merged(CopyOf(g, step.at), step.sent.body, step.at);
    }
  }

  lemma AtMostStep(g: Galaxy, step: Step, f: Attr -> int, ok: Attr -> bool, top: int)
    requires Enabled(g, step) && Exchange(step) && Lawful(g, f, ok) && AtMost(g, f, top)
    ensures AtMost(Apply(g, step), f, top)
  {
    LawfulStep(g, step, f, ok);
    if step.Publish? { OfferIsCopy(g.copies[step.at]); }
  }

  /** Through an exchange: no reading falls, and none passes the highest there was. */
  lemma {:induction false} BetweenRun(g: Galaxy, steps: seq<Step>, f: Attr -> int, ok: Attr -> bool, top: int)
    requires IsRun(g, steps) && Exchanges(steps) && Lawful(g, f, ok)
    ensures forall m :: f(CopyOf(g, m)) <= f(CopyOf(After(g, steps), m))
    ensures AtMost(g, f, top) ==> AtMost(After(g, steps), f, top)
    ensures After(g, steps).holders == g.holders
    decreases |steps|
  {
    if |steps| > 0 {
      assert Exchange(steps[0]);
      LawfulStep(g, steps[0], f, ok);
      if AtMost(g, f, top) { AtMostStep(g, steps[0], f, ok, top); }
      HoldersStay(g, steps[0]);
      BetweenRun(Apply(g, steps[0]), steps[1..], f, ok, top);
    }
  }

  /** Whoever hears from `n` ends no lower than `n` began. */
  lemma {:induction false} HeardIsReached(g: Galaxy, steps: seq<Step>, f: Attr -> int, ok: Attr -> bool,
                                          m: string, n: string, recent: set<Sent>, least: int)
    requires IsRun(g, steps) && Exchanges(steps) && Lawful(g, f, ok) && m in g.holders && Attains(f, ok, m)
    requires HearsFrom(g, steps, m, n, recent)
    requires recent <= g.offers && f(CopyOf(g, n)) >= least
    requires forall sent :: sent in recent ==> f(AttrOf(sent.body)) >= least
    ensures f(CopyOf(After(g, steps), m)) >= least
    decreases |steps|
  {
    var step, h := steps[0], Apply(g, steps[0]);
    assert Exchange(step);
    LawfulStep(g, step, f, ok);
    HoldersStay(g, step);
    if step.Take? && step.at == m && step.sent in recent {
      assert CopyOf(h, m) == Merged(CopyOf(g, m), step.sent.body, m);
      BetweenRun(h, steps[1..], f, ok, 0);
    } else {
      if step == Publish(n) { OfferIsCopy(g.copies[n]); }
      HeardIsReached(h, steps[1..], f, ok, m, n, recent + if step == Publish(n) then {Made(g, n)} else {}, least);
    }
  }

  /** Every offer around says no more than some mirror holds. */
  ghost predicate OffersBacked(g: Galaxy, f: Attr -> int)
  {
    forall sent :: sent in g.offers ==> sent.from in g.holders && f(AttrOf(sent.body)) <= f(CopyOf(g, sent.from))
  }

  lemma ReadingTop(g: Galaxy, steps: seq<Step>, f: Attr -> int, ok: Attr -> bool, m: string)
    requires IsRun(g, steps) && Exchanges(steps) && Exchanged(g, steps) && Lawful(g, f, ok) && OffersBacked(g, f)
    requires m in g.holders && Attains(f, ok, m)
    ensures AtMost(g, f, f(CopyOf(After(g, steps), m)))
  {
    var top := f(CopyOf(After(g, steps), m));
    BetweenRun(g, steps, f, ok, top);
    forall n | n in g.holders ensures f(CopyOf(g, n)) <= top {
      if n != m { HeardIsReached(g, steps, f, ok, m, n, {}, f(CopyOf(g, n))); }
    }
  }

  lemma {:induction false} Highest(s: set<string>, f: string -> int) returns (n: string)
    requires s != {}
    ensures n in s && forall m :: m in s ==> f(m) <= f(n)
    decreases s
  {
    var x := Member(s);
    n := x;
    if s != {x} {
      var y := Highest(s - {x}, f);
      if f(y) > f(x) { n := y; }
      assert forall m :: m in s ==> m == x || m in s - {x};
    }
  }

  /** Somebody held at the start what a mirror that takes the reading as offered
      ends with, and nobody held more. */
  lemma ReadingIsHighest(g: Galaxy, steps: seq<Step>, f: Attr -> int, ok: Attr -> bool, m: string) returns (n: string)
    requires IsRun(g, steps) && Exchanges(steps) && Exchanged(g, steps) && Lawful(g, f, ok) && OffersBacked(g, f)
    requires m in g.holders && Attains(f, ok, m)
    ensures n in g.holders && f(CopyOf(After(g, steps), m)) == f(CopyOf(g, n))
    ensures AtMost(g, f, f(CopyOf(g, n)))
  {
    n := Highest(g.holders, h => f(CopyOf(g, h)));
    ReadingTop(g, steps, f, ok, m);
    assert AtMost(g, f, f(CopyOf(g, n)));
    BetweenRun(g, steps, f, ok, f(CopyOf(g, n)));
  }

  /** After an exchange, two mirrors that take the reading as offered agree on it. */
  lemma ReadingsAgree(g: Galaxy, steps: seq<Step>, f: Attr -> int, ok: Attr -> bool, m1: string, m2: string)
    requires IsRun(g, steps) && Exchanges(steps) && Exchanged(g, steps) && Lawful(g, f, ok) && OffersBacked(g, f)
    requires m1 in g.holders && m2 in g.holders && Attains(f, ok, m1) && Attains(f, ok, m2)
    ensures f(CopyOf(After(g, steps), m1)) == f(CopyOf(After(g, steps), m2))
  {
    ReadingTop(g, steps, f, ok, m1);
    ReadingTop(g, steps, f, ok, m2);
    BetweenRun(g, steps, f, ok, f(CopyOf(After(g, steps), m1)));
    BetweenRun(g, steps, f, ok, f(CopyOf(After(g, steps), m2)));
  }

  // ---------------------------------------------------------------------
  // Before the exchange: any run that drops nothing.
  // ---------------------------------------------------------------------

  ghost predicate DropsNothing(steps: seq<Step>)
  {
    forall i :: 0 <= i < |steps| ==> !steps[i].Drop?
  }

  /** Offers never say more than their maker now holds, nobody counts more for a
      mirror than it counts for itself, and what is held has been seen. */
  ghost predicate Grown(g: Galaxy)
  {
    && (forall sent :: sent in g.offers ==> OfferGrown(g, sent))
    && (forall m, r :: r in g.holders ==> OwnMost(g, m, r))
    && (forall m :: m in g.copies ==> m in g.holders && Total(g.copies[m].counts) > 0)
  }

  ghost predicate OfferGrown(g: Galaxy, sent: Sent)
  {
    sent.from in g.holders && Total(sent.body.counts) > 0 && forall r :: OfferBelow(g, sent, r)
  }

  ghost predicate OfferBelow(g: Galaxy, sent: Sent, r: string)
  {
    Entry(sent.body.counts, r) <= CountAt(g, sent.from, r)
  }

  ghost predicate OwnMost(g: Galaxy, m: string, r: string)
  {
    OnTheWay(g, m, r) == 0 && CountAt(g, m, r) <= CountAt(g, r, r)
  }

  lemma CountsRise(g: Galaxy, step: Step, m: string, r: string)
    requires Enabled(g, step) && !step.Drop?
    ensures CountAt(g, m, r) <= CountAt(Apply(g, step), m, r)
  {
    CountStep(g, step, m, r);
  }

  lemma OwnMostStep(g: Galaxy, step: Step, m: string, r: string)
    requires Enabled(g, step) && !step.Drop? && Grown(g) && r in g.holders
    ensures OwnMost(Apply(g, step), m, r)
  {
    assert OwnMost(g, m, r);
    CountMoves(g, step, m, r);
    CountMoves(g, step, r, r);
    if step.Take? {
      assert OfferGrown(g, step.sent) && OfferBelow(g, step.sent, r) && OwnMost(g, step.sent.from, r);
    }
    if step.Deliver? { assert OwnMost(g, step.at, step.origin) || step.origin !in g.holders; }
  }

  lemma OfferGrownStep(g: Galaxy, step: Step, sent: Sent)
    requires Enabled(g, step) && !step.Drop? && Grown(g) && sent in Apply(g, step).offers
    ensures OfferGrown(Apply(g, step), sent)
  {
    var h := Apply(g, step);
    HoldersStay(g, step);
    forall r ensures OfferBelow(h, sent, r) {
      CountsRise(g, step, sent.from, r);
      if sent in g.offers { assert OfferGrown(g, sent) && OfferBelow(g, sent, r); }
    }
    if sent in g.offers { assert OfferGrown(g, sent); }
  }

  /** Taking an offer of something seen leaves something seen. */
  lemma MergedSeen(a: Attr, o: Offer, mine: string, r: string)
    requires r != mine && Entry(o.counts, r) > 0
    ensures Total(Merged(a, o, mine).counts) > 0
  {
    MergedAt(a, o, mine, r);
    TotalZero(Merged(a, o, mine).counts);
  }

  lemma MergedStaysSeen(a: Attr, o: Offer, mine: string)
    requires Total(a.counts) > 0
    ensures Total(Merged(a, o, mine).counts) > 0
  {
    TotalZero(a.counts);
    var n :| n in a.counts && a.counts[n] > 0;
    MergedAt(a, o, mine, n);
    TotalZero(Merged(a, o, mine).counts);
  }

  /** What a mirror takes into a copy it has not got was seen by someone else. */
  lemma TakenSeen(g: Galaxy, at: string, sent: Sent)
    requires Grown(g) && at in g.holders && sent in g.offers
    ensures Total(Merged(CopyOf(g, at), sent.body, at).counts) > 0
  {
    if at in g.copies {
      MergedStaysSeen(g.copies[at], sent.body, at);
    } else {
      assert OfferGrown(g, sent);
      TotalZero(sent.body.counts);
      var r :| r in sent.body.counts && sent.body.counts[r] > 0;
      assert OfferBelow(g, sent, r) && (r == at ==> OwnMost(g, sent.from, at));
      MergedSeen(CopyOf(g, at), sent.body, at, r);
    }
  }

  lemma CopySeenStep(g: Galaxy, step: Step, m: string)
    requires Enabled(g, step) && !step.Drop? && Grown(g) && m in Apply(g, step).copies
    ensures m in g.holders && Total(Apply(g, step).copies[m].counts) > 0
  {
    match step
    case Local(at, when, ttl, retention, tags) => SightedCounts(CopyOf(g, at), at, when, ttl, retention, tags);
    case Deliver(at, origin, when, ttl, retention, tags) =>
      SightedCounts(CopyOf(g, at), origin, when, ttl, retention, tags);
    case Take(at, sent) => TakenSeen(g, at, sent);
    case _ =>
  }

  lemma GrownStep(g: Galaxy, step: Step)
    requires Enabled(g, step) && !step.Drop? && Grown(g)
    ensures Grown(Apply(g, step))
  {
    var h := Apply(g, step);
    HoldersStay(g, step);
    forall sent | sent in h.offers ensures OfferGrown(h, sent) { OfferGrownStep(g, step, sent); }
    forall m, r | r in h.holders ensures OwnMost(h, m, r) { OwnMostStep(g, step, m, r); }
    forall m | m in h.copies ensures m in h.holders && Total(h.copies[m].counts) > 0 { CopySeenStep(g, step, m); }
  }

  lemma {:induction false} GrownRun(g: Galaxy, steps: seq<Step>)
    requires IsRun(g, steps) && DropsNothing(steps) && Grown(g)
    ensures Grown(After(g, steps)) && After(g, steps).holders == g.holders
    decreases |steps|
  {
    if |steps| > 0 {
      assert !steps[0].Drop?;
      GrownStep(g, steps[0]);
      HoldersStay(g, steps[0]);
      GrownRun(Apply(g, steps[0]), steps[1..]);
    }
  }

  // ---------------------------------------------------------------------
  // Counts agree.
  // ---------------------------------------------------------------------

  function CountOf(r: string): Attr -> int
  {
    (a: Attr) => Entry(a.counts, r)
  }

  function Anything(): Attr -> bool
  {
    (a: Attr) => true
  }

  lemma CountLaws(g: Galaxy, r: string)
    requires Grown(g)
    ensures Lawful(g, CountOf(r), Anything()) && OffersBacked(g, CountOf(r))
    ensures forall m :: m != r ==> Attains(CountOf(r), Anything(), m)
  {
    forall m, a: Attr, o: Offer
      ensures m == r ==> Entry(Merged(a, o, m).counts, r) == Entry(a.counts, r)
      ensures m != r ==> Entry(Merged(a, o, m).counts, r) == MaxNat(Entry(a.counts, r), Entry(o.counts, r))
    {
      MergedAt(a, o, m, r);
    }
    forall sent | sent in g.offers
      ensures sent.from in g.holders && Entry(sent.body.counts, r) <= CountAt(g, sent.from, r)
    {
      assert OfferGrown(g, sent) && OfferBelow(g, sent, r);
    }
  }

  /** A mirror's count for itself is what every other comes to hold. */
  lemma OwnCountIsHeard(g: Galaxy, steps: seq<Step>, m: string, r: string)
    requires Grown(g) && IsRun(g, steps) && Exchanges(steps) && Exchanged(g, steps)
    requires r in g.holders && m in g.holders && m != r
    ensures CountAt(After(g, steps), m, r) == CountAt(After(g, steps), r, r)
  {
    CountLaws(g, r);
    HeardIsReached(g, steps, CountOf(r), Anything(), m, r, {}, CountAt(g, r, r));
    OwnCountStays(g, steps, r);
    assert forall i :: 0 <= i < |steps| ==> Exchange(steps[i]);
    GrownRun(g, steps);
    assert OwnMost(After(g, steps), m, r);
  }

  lemma {:induction false} OwnCountStays(g: Galaxy, steps: seq<Step>, r: string)
    requires IsRun(g, steps) && Exchanges(steps)
    ensures CountAt(After(g, steps), r, r) == CountAt(g, r, r)
    decreases |steps|
  {
    if |steps| > 0 {
      assert Exchange(steps[0]);
      CountStep(g, steps[0], r, r);
      OwnCountStays(Apply(g, steps[0]), steps[1..], r);
    }
  }

  lemma CountsAgree(g: Galaxy, steps: seq<Step>, m1: string, m2: string, r: string)
    requires Grown(g) && IsRun(g, steps) && Exchanges(steps) && Exchanged(g, steps)
    requires m1 in g.holders && m2 in g.holders
    ensures CountAt(After(g, steps), m1, r) == CountAt(After(g, steps), m2, r)
  {
    if m1 != r && m2 != r {
      CountLaws(g, r);
      ReadingsAgree(g, steps, CountOf(r), Anything(), m1, m2);
    } else if m1 != m2 {
      OwnCountIsHeard(g, steps, if m1 == r then m2 else m1, r);
    }
  }

  /** The greatest count for `r` any mirror held. */
  ghost predicate Greatest(g: Galaxy, r: string, count: nat)
  {
    && (forall n :: n in g.holders ==> CountAt(g, n, r) <= count)
    && (exists n :: n in g.holders && CountAt(g, n, r) == count)
  }

  lemma CountIsGreatest(g: Galaxy, steps: seq<Step>, m: string, r: string)
    requires Grown(g) && IsRun(g, steps) && Exchanges(steps) && Exchanged(g, steps) && m in g.holders
    ensures Greatest(g, r, CountAt(After(g, steps), m, r))
  {
    if m == r {
      OwnCountStays(g, steps, r);
      forall n | n in g.holders ensures CountAt(g, n, r) <= CountAt(g, r, r) {
        assert OwnMost(g, n, r);
      }
    } else {
      CountLaws(g, r);
      var n := ReadingIsHighest(g, steps, CountOf(r), Anything(), m);
      assert CountAt(g, n, r) == CountAt(After(g, steps), m, r);
      forall k | k in g.holders ensures CountAt(g, k, r) <= CountAt(g, n, r) {
        assert CountOf(r)(CopyOf(g, k)) <= CountOf(r)(CopyOf(g, n));
      }
    }
  }

  /** After any run that dropped nothing, once every mirror has taken from every
      other an offer made since, all report the same count, server by server and
      in total: the greatest any of them held, stale offers, lost and doubled
      forwards notwithstanding. */
  lemma MirrorsAgree(holders: set<string>, first: seq<Step>, later: seq<Step>, m1: string, m2: string)
    requires IsRun(Start(holders), first) && DropsNothing(first)
    requires var g := After(Start(holders), first); IsRun(g, later) && Exchanges(later) && Exchanged(g, later)
    requires m1 in holders && m2 in holders
    ensures var h := After(After(Start(holders), first), later);
            && (forall r :: CountAt(h, m1, r) == CountAt(h, m2, r))
            && (forall r :: Greatest(After(Start(holders), first), r, CountAt(h, m1, r)))
            && Total(CopyOf(h, m1).counts) == Total(CopyOf(h, m2).counts)
  {
    GrownRun(Start(holders), first);
    var g := After(Start(holders), first);
    var h := After(g, later);
    forall r ensures Entry(CopyOf(h, m1).counts, r) == Entry(CopyOf(h, m2).counts, r) {
      CountsAgree(g, later, m1, m2, r);
      assert CountAt(h, m1, r) == CountAt(h, m2, r);
    }
    forall r ensures Greatest(g, r, CountAt(h, m1, r)) { CountIsGreatest(g, later, m1, r); }
    TotalAgree(CopyOf(h, m1).counts, CopyOf(h, m2).counts);
  }

  // ---------------------------------------------------------------------
  // And so does the rest of the record.
  // ---------------------------------------------------------------------

  ghost function WasSeen(): Attr -> bool
  {
    (a: Attr) => Total(a.counts) > 0
  }

  function Last(): Attr -> int { (a: Attr) => a.lastSeen }

  function First(): Attr -> int { (a: Attr) => -a.firstSeen }

  function Stamp(): Attr -> int { (a: Attr) => a.tagsAt }

  function StampedBy(at: int): Attr -> bool { (a: Attr) => a.tagsAt <= at }

  /** Carries `t` as of the replacement made at `at`. */
  function Carries(t: string, at: int): Attr -> int
  {
    (a: Attr) => if a.tagsAt == at && t in TagSet(a.tags) then 1 else 0
  }

  /** Expires, and within `k`. */
  function ExpiresBy(k: nat): Attr -> int
  {
    (a: Attr) => if 1 <= a.ttl <= k then 1 else 0
  }

  function Hits(n: string, hour: int): Attr -> int
  {
    (a: Attr) => Entry(Buckets(a.stats, n), hour)
  }

  lemma WindowLaws(m: string)
    ensures MovesBetween(Last(), WasSeen(), m) && Attains(Last(), WasSeen(), m)
    ensures MovesBetween(First(), WasSeen(), m) && Attains(First(), WasSeen(), m)
  {
    forall a: Attr, o: Offer | Total(a.counts) > 0 ensures Total(Merged(a, o, m).counts) > 0 {
      MergedStaysSeen(a, o, m);
    }
  }

  lemma StampLaws(m: string)
    ensures MovesBetween(Stamp(), Anything(), m) && Attains(Stamp(), Anything(), m)
  {
  }

  function Marked(stamp: int, tags: set<string>, t: string, at: int): int
  {
    if stamp == at && t in tags then 1 else 0
  }

  lemma MarkedJoin(s1: int, tags1: set<string>, s2: int, tags2: set<string>, t: string, at: int)
    requires s1 <= at && s2 <= at
    ensures var tags := if s2 > s1 then tags2 else if s2 < s1 then tags1 else tags1 + tags2;
            Marked(Max(s1, s2), tags, t, at) == Max(Marked(s1, tags1, t, at), Marked(s2, tags2, t, at))
  {
  }

  lemma CarriesIsMarked(a: Attr, t: string, at: int)
    ensures Carries(t, at)(a) == Marked(a.tagsAt, TagSet(a.tags), t, at)
  {
  }

  lemma MergedCarries(a: Attr, o: Offer, m: string, t: string, at: int)
    requires a.tagsAt <= at && o.tagsAt <= at
    ensures Merged(a, o, m).tagsAt <= at
    ensures Carries(t, at)(Merged(a, o, m)) == Max(Carries(t, at)(a), Carries(t, at)(AttrOf(o)))
  {
    CarriesIsMarked(a, t, at);
    CarriesIsMarked(AttrOf(o), t, at);
    CarriesIsMarked(Merged(a, o, m), t, at);
    MergedTagSet(a, o);
    MarkedJoin(a.tagsAt, TagSet(a.tags), o.tagsAt, TagSet(o.tags), t, at);
  }

  lemma TagLaws(t: string, at: int, m: string)
    ensures MovesBetween(Carries(t, at), StampedBy(at), m) && Attains(Carries(t, at), StampedBy(at), m)
  {
    forall a: Attr, o: Offer | StampedBy(at)(a) && StampedBy(at)(AttrOf(o))
      ensures StampedBy(at)(Merged(a, o, m))
      ensures Carries(t, at)(Merged(a, o, m)) == Max(Carries(t, at)(a), Carries(t, at)(AttrOf(o)))
    {
      MergedCarries(a, o, m, t, at);
    }
  }

  lemma ExpiryLaws(k: nat, m: string)
    ensures MovesBetween(ExpiresBy(k), Anything(), m) && Attains(ExpiresBy(k), Anything(), m)
  {
  }

  lemma MergedBucket(a: Attr, o: Offer, m: string, n: string, hour: int)
    ensures Hits(n, hour)(Merged(a, o, m)) ==
            if n == m then Hits(n, hour)(a) else Max(Hits(n, hour)(a), Hits(n, hour)(AttrOf(o)))
  {
    if n in o.stats && n != m { MaxIntoAt(Buckets(a.stats, n), o.stats[n], hour); }
  }

  lemma BucketLaws(n: string, hour: int, m: string)
    ensures MovesBetween(Hits(n, hour), Anything(), m)
    ensures m != n ==> Attains(Hits(n, hour), Anything(), m)
  {
    var f := Hits(n, hour);
    forall a: Attr, o: Offer
      ensures f(a) <= f(Merged(a, o, m)) <= Max(f(a), f(AttrOf(o)))
      ensures m != n ==> f(Merged(a, o, m)) >= f(AttrOf(o))
    {
      MergedBucket(a, o, m, n, hour);
    }
  }

  /** The exchange begins with everyone holding the value and nothing offered yet. */
  ghost predicate Fresh(g: Galaxy)
  {
    g.offers == {} && forall m :: m in g.holders ==> m in g.copies && Total(g.copies[m].counts) > 0
  }

  ghost predicate FullExchange(g: Galaxy, steps: seq<Step>)
  {
    Fresh(g) && IsRun(g, steps) && Exchanges(steps) && Exchanged(g, steps)
  }

  /** Everyone holds the value, and no offer around, however stale, has a wider
      window or a later stamp than its maker now. */
  ghost predicate Widened(g: Galaxy)
  {
    && (forall m :: m in g.holders ==> m in g.copies && Total(g.copies[m].counts) > 0)
    && (forall sent :: sent in g.offers ==> OfferInside(g, sent))
  }

  ghost predicate Inside(a: Attr, b: Attr)
  {
    b.firstSeen <= a.firstSeen && a.lastSeen <= b.lastSeen && a.tagsAt <= b.tagsAt
  }

  ghost predicate OfferInside(g: Galaxy, sent: Sent)
  {
    && sent.from in g.holders && sent.from in g.copies && Total(sent.body.counts) > 0
    && Inside(AttrOf(sent.body), g.copies[sent.from])
  }

  ghost predicate Exchanging(g: Galaxy, steps: seq<Step>)
  {
    Widened(g) && IsRun(g, steps) && Exchanges(steps) && Exchanged(g, steps)
  }

  lemma WindowsAgree(g: Galaxy, steps: seq<Step>, m1: string, m2: string)
    requires Exchanging(g, steps) && m1 in g.holders && m2 in g.holders
    ensures var h := After(g, steps);
            && CopyOf(h, m1).lastSeen == CopyOf(h, m2).lastSeen
            && CopyOf(h, m1).firstSeen == CopyOf(h, m2).firstSeen
  {
    forall m ensures MovesBetween(Last(), WasSeen(), m) && Attains(Last(), WasSeen(), m)
      ensures MovesBetween(First(), WasSeen(), m) && Attains(First(), WasSeen(), m)
    {
      WindowLaws(m);
    }
    BackedReadings(g);
    ReadingsAgree(g, steps, Last(), WasSeen(), m1, m2);
    ReadingsAgree(g, steps, First(), WasSeen(), m1, m2);
  }

  lemma BackedReadings(g: Galaxy)
    requires Widened(g)
    ensures OffersBacked(g, Last()) && OffersBacked(g, First()) && OffersBacked(g, Stamp())
    ensures AllOk(g, WasSeen()) && AllOk(g, Anything())
  {
    forall sent | sent in g.offers ensures OfferInside(g, sent) {}
  }

  /** Everyone ends at the latest stamp there was to begin with. */
  lemma StampsAgree(g: Galaxy, steps: seq<Step>, m1: string, m2: string)
    requires Exchanging(g, steps) && m1 in g.holders && m2 in g.holders
    ensures CopyOf(After(g, steps), m1).tagsAt == CopyOf(After(g, steps), m2).tagsAt
    ensures forall n :: n in g.holders ==> CopyOf(g, n).tagsAt <= CopyOf(After(g, steps), m1).tagsAt
  {
    forall m ensures MovesBetween(Stamp(), Anything(), m) && Attains(Stamp(), Anything(), m) {
      StampLaws(m);
    }
    BackedReadings(g);
    ReadingsAgree(g, steps, Stamp(), Anything(), m1, m2);
    ReadingTop(g, steps, Stamp(), Anything(), m1);
    forall n | n in g.holders ensures CopyOf(g, n).tagsAt <= CopyOf(After(g, steps), m1).tagsAt {
      assert Stamp()(CopyOf(g, n)) <= Stamp()(CopyOf(After(g, steps), m1));
    }
  }

  lemma TagsAgree(g: Galaxy, steps: seq<Step>, m1: string, m2: string, t: string)
    requires FullExchange(g, steps) && m1 in g.holders && m2 in g.holders
    ensures var h := After(g, steps); t in TagSet(CopyOf(h, m1).tags) <==> t in TagSet(CopyOf(h, m2).tags)
  {
    StampsAgree(g, steps, m1, m2);
    var h := After(g, steps);
    var at := CopyOf(h, m1).tagsAt;
    forall m ensures MovesBetween(Carries(t, at), StampedBy(at), m) && Attains(Carries(t, at), StampedBy(at), m) {
      TagLaws(t, at, m);
    }
    ReadingsAgree(g, steps, Carries(t, at), StampedBy(at), m1, m2);
    assert Carries(t, at)(CopyOf(h, m1)) == Carries(t, at)(CopyOf(h, m2));
  }

  lemma ExpiriesAgree(g: Galaxy, steps: seq<Step>, m1: string, m2: string)
    requires FullExchange(g, steps) && m1 in g.holders && m2 in g.holders
    ensures CopyOf(After(g, steps), m1).ttl == CopyOf(After(g, steps), m2).ttl
  {
    var h := After(g, steps);
    var x, y := CopyOf(h, m1).ttl, CopyOf(h, m2).ttl;
    forall k: nat ensures ExpiresBy(k)(CopyOf(h, m1)) == ExpiresBy(k)(CopyOf(h, m2)) {
      forall m ensures MovesBetween(ExpiresBy(k), Anything(), m) && Attains(ExpiresBy(k), Anything(), m) {
        ExpiryLaws(k, m);
      }
      ReadingsAgree(g, steps, ExpiresBy(k), Anything(), m1, m2);
    }
    assert ExpiresBy(x)(CopyOf(h, m1)) == ExpiresBy(x)(CopyOf(h, m2));
    assert ExpiresBy(y)(CopyOf(h, m1)) == ExpiresBy(y)(CopyOf(h, m2));
  }

  lemma BucketsAgree(g: Galaxy, steps: seq<Step>, m1: string, m2: string, n: string, hour: int)
    requires FullExchange(g, steps) && m1 in g.holders && m2 in g.holders && n != m1 && n != m2
    ensures var h := After(g, steps);
            Entry(Buckets(CopyOf(h, m1).stats, n), hour) == Entry(Buckets(CopyOf(h, m2).stats, n), hour)
  {
    forall m ensures MovesBetween(Hits(n, hour), Anything(), m) && (m != n ==> Attains(Hits(n, hour), Anything(), m)) {
      BucketLaws(n, hour, m);
    }
    ReadingsAgree(g, steps, Hits(n, hour), Anything(), m1, m2);
    var h := After(g, steps);
    assert Hits(n, hour)(CopyOf(h, m1)) == Hits(n, hour)(CopyOf(h, m2));
  }

  /** Equal in window, replacement stamp, tags and expiry, and in the buckets of
      every server but the two themselves. */
  ghost predicate SameRecord(a: Attr, b: Attr, m1: string, m2: string)
  {
    && a.firstSeen == b.firstSeen && a.lastSeen == b.lastSeen
    && a.tagsAt == b.tagsAt && a.ttl == b.ttl
    && (forall t :: t in TagSet(a.tags) <==> t in TagSet(b.tags))
    && (forall n, hour :: n != m1 && n != m2 ==> Entry(Buckets(a.stats, n), hour) == Entry(Buckets(b.stats, n), hour))
  }

  lemma ExchangeAgrees(g: Galaxy, steps: seq<Step>, m1: string, m2: string)
    requires FullExchange(g, steps) && m1 in g.holders && m2 in g.holders
    ensures SameRecord(CopyOf(After(g, steps), m1), CopyOf(After(g, steps), m2), m1, m2)
  {
    var h := After(g, steps);
    WindowsAgree(g, steps, m1, m2);
    StampsAgree(g, steps, m1, m2);
    ExpiriesAgree(g, steps, m1, m2);
    forall t ensures t in TagSet(CopyOf(h, m1).tags) <==> t in TagSet(CopyOf(h, m2).tags) {
      TagsAgree(g, steps, m1, m2, t);
    }
    forall n, hour | n != m1 && n != m2
      ensures Entry(Buckets(CopyOf(h, m1).stats, n), hour) == Entry(Buckets(CopyOf(h, m2).stats, n), hour)
    {
      BucketsAgree(g, steps, m1, m2, n, hour);
    }
  }

  // ---------------------------------------------------------------------
  // Stale offers and the window.
  // ---------------------------------------------------------------------

  ghost predicate OffersInside(g: Galaxy)
  {
    forall sent :: sent in g.offers ==> OfferInside(g, sent)
  }

  lemma SightedWidens(a: Attr, node: string, when: int, ttl: Option<nat>, retention: nat, tags: string)
    requires Total(a.counts) > 0
    ensures Inside(a, Sighted(a, node, when, ttl, retention, tags))
  {
    SightedTags(a, node, when, ttl, retention, tags);
  }

  /** Nothing but a drop narrows the window of a value seen, or lowers its stamp. */
  lemma RecordWidens(g: Galaxy, step: Step, m: string)
    requires Enabled(g, step) && !step.Drop? && m in g.copies && Total(g.copies[m].counts) > 0
    ensures m in Apply(g, step).copies && Inside(g.copies[m], Apply(g, step).copies[m])
  {
    match step
    case Local(at, when, ttl, retention, tags) =>
      if at == m { SightedWidens(g.copies[m], at, when, ttl, retention, tags); }
    case Deliver(at, origin, when, ttl, retention, tags) =>
      if at == m { SightedWidens(g.copies[m], origin, when, ttl, retention, tags); }
    case _ =>
  }

  lemma {:induction false} InsideRun(g: Galaxy, steps: seq<Step>)
    requires IsRun(g, steps) && DropsNothing(steps) && Grown(g) && OffersInside(g)
    ensures OffersInside(After(g, steps))
    decreases |steps|
  {
    if |steps| > 0 {
      var h := Apply(g, steps[0]);
      assert !steps[0].Drop?;
      GrownStep(g, steps[0]);
      HoldersStay(g, steps[0]);
      forall sent | sent in h.offers ensures OfferInside(h, sent) {
        if sent in g.offers { assert OfferInside(g, sent); }
        RecordWidens(g, steps[0], sent.from);
      }
      InsideRun(h, steps[1..]);
    }
  }

  /** With everyone holding the value, mirrors agree on window and stamp whatever
      stale offers arrive meanwhile, and the stamp is the latest there was. */
  lemma WindowsAndStampsAgree(holders: set<string>, first: seq<Step>, later: seq<Step>, m1: string, m2: string)
    requires IsRun(Start(holders), first) && DropsNothing(first)
    requires var g := After(Start(holders), first);
             (forall m :: m in holders ==> m in g.copies) && IsRun(g, later) && Exchanges(later) && Exchanged(g, later)
    requires m1 in holders && m2 in holders
    ensures var g := After(Start(holders), first);
            var h := After(g, later);
            && CopyOf(h, m1).firstSeen == CopyOf(h, m2).firstSeen && CopyOf(h, m1).lastSeen == CopyOf(h, m2).lastSeen
            && CopyOf(h, m1).tagsAt == CopyOf(h, m2).tagsAt
            && (forall n :: n in holders ==> CopyOf(g, n).tagsAt <= CopyOf(h, m1).tagsAt)
  {
    GrownRun(Start(holders), first);
    InsideRun(Start(holders), first);
    var g := After(Start(holders), first);
    assert Widened(g);
    WindowsAgree(g, later, m1, m2);
    StampsAgree(g, later, m1, m2);
  }

  // ---------------------------------------------------------------------
  // A removed tag is gone everywhere.
  // ---------------------------------------------------------------------

  lemma {:induction false} StampsRise(g: Galaxy, steps: seq<Step>, m: string)
    requires IsRun(g, steps) && DropsNothing(steps)
    ensures CopyOf(g, m).tagsAt <= CopyOf(After(g, steps), m).tagsAt && After(g, steps).holders == g.holders
    decreases |steps|
  {
    if |steps| > 0 {
      assert !steps[0].Drop?;
      StampRises(g, steps[0], m);
      HoldersStay(g, steps[0]);
      StampsRise(Apply(g, steps[0]), steps[1..], m);
    }
  }

  lemma StampRises(g: Galaxy, step: Step, m: string)
    requires Enabled(g, step) && !step.Drop?
    ensures CopyOf(g, m).tagsAt <= CopyOf(Apply(g, step), m).tagsAt
  {
    match step
    case Local(at, when, ttl, retention, tags) => SightedTags(CopyOf(g, at), at, when, ttl, retention, tags);
    case Deliver(at, origin, when, ttl, retention, tags) =>
      SightedTags(CopyOf(g, at), origin, when, ttl, retention, tags);
    case _ =>
  }

  /** After a replacement without `t`, later than any made so far, any run in which
      nobody adds `t` and nothing is dropped, and an exchange, no mirror carries it. */
  lemma RemovedTagIsGone(g: Galaxy, removal: Step, steps: seq<Step>, later: seq<Step>, t: string, m: string)
    requires removal.Retag? && Enabled(g, removal) && removal.at in g.holders && t !in TagSet(removal.tags)
    requires Latest(g, removal.stamp)
    requires IsRun(Apply(g, removal), steps) && DropsNothing(steps)
    requires forall i :: 0 <= i < |steps| ==> Omits(steps[i], t)
    requires var h := After(Apply(g, removal), steps); IsRun(h, later) && Exchanges(later) && Exchanged(h, later)
    requires m in g.holders
    ensures t !in TagSet(CopyOf(After(After(Apply(g, removal), steps), later), m).tags)
  {
    RemovedTagStaysRemoved(g, removal, steps, t);
    StampsRise(Apply(g, removal), steps, removal.at);
    GoneAfterExchange(After(Apply(g, removal), steps), later, t, removal.stamp, removal.at, m);
  }

  lemma GoneAfterExchange(g: Galaxy, steps: seq<Step>, t: string, since: int, from: string, m: string)
    requires IsRun(g, steps) && Exchanges(steps) && Exchanged(g, steps) && from in g.holders && m in g.holders
    requires Removed(g, t, since) && CopyOf(g, from).tagsAt >= since
    ensures t !in TagSet(CopyOf(After(g, steps), m).tags)
  {
    forall i | 0 <= i < |steps| ensures Omits(steps[i], t) {
      assert Exchange(steps[i]);
    }
    RemovedRun(g, steps, t, since);
    StampArrives(g, steps, from, m);
    NoTags();
  }

  lemma StampArrives(g: Galaxy, steps: seq<Step>, from: string, m: string)
    requires IsRun(g, steps) && Exchanges(steps) && Exchanged(g, steps) && from in g.holders && m in g.holders
    ensures CopyOf(After(g, steps), m).tagsAt >= CopyOf(g, from).tagsAt
  {
    forall n ensures MovesBetween(Stamp(), Anything(), n) && Attains(Stamp(), Anything(), n) {
      StampLaws(n);
    }
    if m == from {
      assert forall i :: 0 <= i < |steps| ==> Exchange(steps[i]);
      StampsRise(g, steps, m);
    } else {
      HeardIsReached(g, steps, Stamp(), Anything(), m, from, {}, CopyOf(g, from).tagsAt);
    }
  }

  /** If moreover everyone held the value and only offers made since are taken,
      the mirrors agree on the whole record, but that a merge never touches a
      server's own buckets. */
  lemma RecordsAgree(holders: set<string>, first: seq<Step>, later: seq<Step>, m1: string, m2: string)
    requires IsRun(Start(holders), first) && DropsNothing(first)
    requires var g := After(Start(holders), first);
             (forall m :: m in holders ==> m in g.copies) &&
             IsRun(g.(offers := {}), later) && Exchanges(later) && Exchanged(g.(offers := {}), later)
    requires m1 in holders && m2 in holders
    ensures var h := After(After(Start(holders), first).(offers := {}), later);
            SameRecord(CopyOf(h, m1), CopyOf(h, m2), m1, m2)
  {
    GrownRun(Start(holders), first);
    var g := After(Start(holders), first).(offers := {});
    assert Fresh(g);
    ExchangeAgrees(g, later, m1, m2);
  }
}
