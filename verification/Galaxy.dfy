/** Servers of one galaxy exchanging one value of one namespace, as a machine
    that takes one step at a time (src/galaxy.rs, src/handlers.rs:950-1060,
    src/db.rs:924-935, 1322-1338).

    Namespaces and values do not interact here, so one pair stands for all.
    Each forwarded write is on its way to a mirror at most once. */
module GalaxyRuns {
  import opened Text
  import opened Options
  import opened Attributes
  import opened MergeLaws

  /** An offer some mirror made. `made` is how many client writes that mirror
      itself had accepted by then. */
  datatype Sent = Sent(from: string, made: nat, body: Offer)

  datatype Galaxy = Galaxy(
    holders: set<string>,                 // servers that store the namespace
    copies: map<string, Attr>,            // what each of them holds, if anything
    offers: set<Sent>,                    // every offer ever made; any may arrive, any number of times
    accepted: map<string, nat>,           // client writes taken, by the server the client talked to
    pending: map<(string, string), nat>,  // forwarded writes on their way: (mirror, origin)
    heard: map<(string, string), nat>)    // history: the latest `made` a mirror took from another

  datatype Step =
    | Local(at: string, when: int, ttl: Option<nat>, retention: nat, tags: string)
    | Enter(at: string, to: set<string>)
    | Deliver(at: string, origin: string, when: int, ttl: Option<nat>, retention: nat, tags: string)
    | Lose(at: string, origin: string)
    | Publish(at: string)
    | Take(at: string, sent: Sent)
    | Drop(at: string)
    | Retag(at: string, tags: string, stamp: int)

  function Start(holders: set<string>): Galaxy
  {
    Galaxy(holders, map[], {}, map[], map[], map[])
  }

  function CopyOf(g: Galaxy, m: string): Attr
  {
    if m in g.copies then g.copies[m] else NEW
  }

  /** What mirror `m` counts for server `r`. */
  function CountAt(g: Galaxy, m: string, r: string): nat
  {
    Entry(CopyOf(g, m).counts, r)
  }

  function OnTheWay(g: Galaxy, m: string, r: string): nat
  {
    Entry(g.pending, (m, r))
  }

  predicate Enabled(g: Galaxy, step: Step)
  {
    match step
    case Local(at, _, _, _, _) => at in g.holders
    case Enter(at, to) => at !in g.holders && to <= g.holders
    case Deliver(at, origin, _, _, _, _) => at in g.holders && OnTheWay(g, at, origin) > 0
    case Lose(at, origin) => OnTheWay(g, at, origin) > 0
    case Publish(at) => at in g.holders && at in g.copies
    case Take(at, sent) => at in g.holders && sent in g.offers
    case Drop(at) => at in g.holders
    case Retag(at, _, _) => at in g.copies
  }

  /** One more write on its way from `r` to each of `to`. */
  function Fanned(pending: map<(string, string), nat>, to: set<string>, r: string): map<(string, string), nat>
  {
    pending + map m | m in to :: (m, r) := Entry(pending, (m, r)) + 1
  }

  ghost function Apply(g: Galaxy, step: Step): Galaxy
    requires Enabled(g, step)
  {
    match step
    case Local(at, when, ttl, retention, tags) =>
      g.(copies := g.copies[at := Sighted(CopyOf(g, at), at, when, ttl, retention, tags)],
         accepted := Bumped(g.accepted, at))
    case Enter(at, to) =>
      g.(accepted := Bumped(g.accepted, at), pending := Fanned(g.pending, to, at))
    case Deliver(at, origin, when, ttl, retention, tags) =>
      g.(copies := g.copies[at := Sighted(CopyOf(g, at), origin, when, ttl, retention, tags)],
         pending := g.pending[(at, origin) := OnTheWay(g, at, origin) - 1])
    case Lose(at, origin) =>
      g.(pending := g.pending[(at, origin) := OnTheWay(g, at, origin) - 1])
    case Publish(at) =>
      g.(offers := g.offers + {Sent(at, Entry(g.accepted, at), AsMerge(g.copies[at]))})
    case Take(at, sent) =>
      g.(copies := g.copies[at := Merged(CopyOf(g, at), sent.body, at)],
         heard := g.heard[(at, sent.from) := MaxNat(Entry(g.heard, (at, sent.from)), sent.made)])
    case Drop(at) =>
      g.(copies := g.copies - {at})
    case Retag(at, tags, stamp) =>
      g.(copies := g.copies[at := Retagged(g.copies[at], tags, stamp)])
  }

  ghost predicate IsRun(g: Galaxy, steps: seq<Step>)
    decreases |steps|
  {
    |steps| == 0 || (Enabled(g, steps[0]) && IsRun(Apply(g, steps[0]), steps[1..]))
  }

  ghost function After(g: Galaxy, steps: seq<Step>): Galaxy
    requires IsRun(g, steps)
    decreases |steps|
  {
    if |steps| == 0 then g else After(Apply(g, steps[0]), steps[1..])
  }

  lemma RunFrom(g: Galaxy, step: Step, rest: seq<Step>)
    requires Enabled(g, step) && IsRun(Apply(g, step), rest)
    ensures IsRun(g, [step] + rest) && After(g, [step] + rest) == After(Apply(g, step), rest)
  {
    var steps := [step] + rest;
    assert steps[0] == step && steps[1..] == rest;
  }

  lemma HoldersStay(g: Galaxy, step: Step)
    requires Enabled(g, step)
    ensures Apply(g, step).holders == g.holders
  {
  }

  // ---------------------------------------------------------------------
  // No inflation: no mirror counts more for a server than its clients wrote.
  // ---------------------------------------------------------------------

  /** Room is left for every write still on its way. */
  ghost predicate Covered(g: Galaxy, m: string, r: string)
  {
    CountAt(g, m, r) + OnTheWay(g, m, r) <= Entry(g.accepted, r)
  }

  ghost predicate Honest(g: Galaxy, sent: Sent, r: string)
  {
    Entry(sent.body.counts, r) <= Entry(g.accepted, r)
  }

  ghost predicate Safe(g: Galaxy)
  {
    && (forall m, r :: Covered(g, m, r))
    && (forall sent, r :: sent in g.offers ==> Honest(g, sent, r))
  }

  /** A mirror takes an offer only if, for every other server, the offer counts
      no more than what is no longer on its way to this mirror. */
  ghost predicate Fenced(g: Galaxy, step: Step)
  {
    step.Take? ==>
      forall r :: r != step.at ==>
        Entry(step.sent.body.counts, r) + OnTheWay(g, step.at, r) <= Entry(g.accepted, r)
  }

  ghost predicate FencedRun(g: Galaxy, steps: seq<Step>)
    requires IsRun(g, steps)
    decreases |steps|
  {
    |steps| == 0 || (Fenced(g, steps[0]) && FencedRun(Apply(g, steps[0]), steps[1..]))
  }

  lemma FannedAt(pending: map<(string, string), nat>, to: set<string>, r: string, m: string, q: string)
    ensures Entry(Fanned(pending, to, r), (m, q))
            == Entry(pending, (m, q)) + if m in to && q == r then 1 else 0
  {
    var more := map p | p in to :: (p, r) := Entry(pending, (p, r)) + 1;
    assert m in to ==> (m, r) in more;
    if (m, q) in more { assert q == r && m in to; }
  }

  function CountMove(g: Galaxy, step: Step, m: string, r: string): nat
  {
    match step
    case Local(at, _, _, _, _) => CountAt(g, m, r) + (if m == at == r then 1 else 0)
    case Deliver(at, origin, _, _, _, _) => CountAt(g, m, r) + (if m == at && r == origin then 1 else 0)
    case Take(at, sent) =>
      if m == at && r != at then MaxNat(CountAt(g, m, r), Entry(sent.body.counts, r)) else CountAt(g, m, r)
    case Drop(at) => if m == at then 0 else CountAt(g, m, r)
    case _ => CountAt(g, m, r)
  }

  function WayMove(g: Galaxy, step: Step, m: string, r: string): int
  {
    match step
    case Enter(at, to) => OnTheWay(g, m, r) + (if m in to && r == at then 1 else 0)
    case Deliver(at, origin, _, _, _, _) => OnTheWay(g, m, r) - (if m == at && r == origin then 1 else 0)
    case Lose(at, origin) => OnTheWay(g, m, r) - (if m == at && r == origin then 1 else 0)
    case _ => OnTheWay(g, m, r)
  }

  lemma SightedAt(a: Attr, node: string, when: int, ttl: Option<nat>, retention: nat, tags: string, r: string)
    ensures Entry(Sighted(a, node, when, ttl, retention, tags).counts, r)
            == Entry(a.counts, r) + if r == node then 1 else 0
  {
    SightedCounts(a, node, when, ttl, retention, tags);
  }

  lemma CountStep(g: Galaxy, step: Step, m: string, r: string)
    requires Enabled(g, step)
    ensures CountAt(Apply(g, step), m, r) == CountMove(g, step, m, r)
  {
    match step
    case Local(at, when, ttl, retention, tags) => SightedAt(CopyOf(g, at), at, when, ttl, retention, tags, r);
    case Deliver(at, origin, when, ttl, retention, tags) =>
      SightedAt(CopyOf(g, at), origin, when, ttl, retention, tags, r);
    case Take(at, sent) => MergedAt(CopyOf(g, at), sent.body, at, r);
    case _ =>
  }

  lemma WayStep(g: Galaxy, step: Step, m: string, r: string)
    requires Enabled(g, step)
    ensures OnTheWay(Apply(g, step), m, r) == WayMove(g, step, m, r)
  {
    if step.Enter? { FannedAt(g.pending, step.to, step.at, m, r); }
  }

  /** How one step moves what `m` counts for `r`, what is on its way, and what was accepted. */
  lemma CountMoves(g: Galaxy, step: Step, m: string, r: string)
    requires Enabled(g, step)
    ensures CountAt(Apply(g, step), m, r) == CountMove(g, step, m, r)
    ensures OnTheWay(Apply(g, step), m, r) == WayMove(g, step, m, r)
    ensures Entry(Apply(g, step).accepted, r) ==
            Entry(g.accepted, r) + if (step.Local? || step.Enter?) && step.at == r then 1 else 0
  {
    CountStep(g, step, m, r);
    WayStep(g, step, m, r);
  }

  lemma SafeStep(g: Galaxy, step: Step)
    requires Safe(g) && Enabled(g, step) && Fenced(g, step)
    ensures Safe(Apply(g, step))
  {
    var h := Apply(g, step);
    forall m, r ensures Covered(h, m, r) {
      assert Covered(g, m, r);
      CountMoves(g, step, m, r);
    }
    forall sent, r | sent in h.offers ensures Honest(h, sent, r) {
      CountMoves(g, step, step.at, r);
      if sent in g.offers {
        assert Honest(g, sent, r);
      } else {
        assert Covered(g, step.at, r);
      }
    }
  }

  lemma {:induction false} SafeRun(g: Galaxy, steps: seq<Step>)
    requires Safe(g) && IsRun(g, steps) && FencedRun(g, steps)
    ensures Safe(After(g, steps))
    decreases |steps|
  {
    if |steps| > 0 {
      SafeStep(g, steps[0]);
      SafeRun(Apply(g, steps[0]), steps[1..]);
    }
  }

  /** In every fenced run no mirror counts more for a server than that server's
      clients wrote, and no mirror reports more in total than was written. */
  lemma NoInflation(holders: set<string>, steps: seq<Step>, m: string, r: string)
    requires IsRun(Start(holders), steps) && FencedRun(Start(holders), steps)
    ensures var g := After(Start(holders), steps);
            && CountAt(g, m, r) <= Entry(g.accepted, r)
            && Total(CopyOf(g, m).counts) <= Total(g.accepted)
  {
    var g := After(Start(holders), steps);
    assert Safe(Start(holders));
    SafeRun(Start(holders), steps);
    forall n | n in CopyOf(g, m).counts ensures CopyOf(g, m).counts[n] <= Entry(g.accepted, n) {
      assert Covered(g, m, n);
    }
    TotalAtMost(CopyOf(g, m).counts, g.accepted);
    assert Covered(g, m, r);
  }

  /** The fence is exact, step by step: taking an offer keeps the room for what
      is on its way if and only if it was fenced. */
  lemma TakeIsSafeIff(g: Galaxy, step: Step)
    requires Safe(g) && step.Take? && Enabled(g, step)
    ensures Safe(Apply(g, step)) <==> Fenced(g, step)
  {
    if Fenced(g, step) {
      SafeStep(g, step);
    } else {
      var r :| r != step.at && Entry(step.sent.body.counts, r) + OnTheWay(g, step.at, r) > Entry(g.accepted, r);
      CountMoves(g, step, step.at, r);
      assert !Covered(Apply(g, step), step.at, r);
    }
  }

  ghost predicate AreDeliveries(steps: seq<Step>, m: string, r: string)
  {
    forall i :: 0 <= i < |steps| ==> steps[i].Deliver? && steps[i].at == m && steps[i].origin == r
  }

  lemma {:induction false} DeliveriesCount(g: Galaxy, steps: seq<Step>, m: string, r: string)
    requires IsRun(g, steps) && AreDeliveries(steps, m, r)
    ensures var h := After(g, steps);
            && CountAt(h, m, r) == CountAt(g, m, r) + |steps|
            && |steps| <= OnTheWay(g, m, r)
            && Entry(h.accepted, r) == Entry(g.accepted, r)
    decreases |steps|
  {
    if |steps| > 0 {
      assert steps[0].Deliver?;
      CountMoves(g, steps[0], m, r);
      assert AreDeliveries(steps[1..], m, r);
      DeliveriesCount(Apply(g, steps[0]), steps[1..], m, r);
    }
  }

  /** Everything on its way from `r` to `m`, arriving. */
  ghost function Arrivals(m: string, r: string, k: nat): (steps: seq<Step>)
    ensures |steps| == k && AreDeliveries(steps, m, r)
  {
    if k == 0 then [] else [Deliver(m, r, 0, None, 0, "")] + Arrivals(m, r, k - 1)
  }

  lemma {:induction false} ArrivalsRun(g: Galaxy, m: string, r: string, k: nat)
    requires m in g.holders && k <= OnTheWay(g, m, r)
    ensures IsRun(g, Arrivals(m, r, k))
    decreases k
  {
    if k > 0 {
      var step := Deliver(m, r, 0, None, 0, "");
      ArrivalLeaves(g, step, m, r);
      ArrivalsRun(Apply(g, step), m, r, k - 1);
      RunFrom(g, step, Arrivals(m, r, k - 1));
    }
  }

  lemma ArrivalLeaves(g: Galaxy, step: Step, m: string, r: string)
    requires m in g.holders && OnTheWay(g, m, r) > 0 && step.Deliver? && step.at == m && step.origin == r
    ensures Enabled(g, step) && m in Apply(g, step).holders
    ensures OnTheWay(Apply(g, step), m, r) == OnTheWay(g, m, r) - 1
  {
    WayStep(g, step, m, r);
    HoldersStay(g, step);
  }

  ghost predicate NeverInflates(g: Galaxy, m: string, r: string)
  {
    forall steps :: IsRun(g, steps) && AreDeliveries(steps, m, r) ==>
      CountAt(After(g, steps), m, r) <= Entry(After(g, steps).accepted, r)
  }

  /** And in the long run: a mirror's count for a server stays honest through
      every arrival still possible if and only if room is left for them all. */
  lemma StaysHonestIff(g: Galaxy, m: string, r: string)
    requires m in g.holders
    ensures NeverInflates(g, m, r) <==> Covered(g, m, r)
  {
    if Covered(g, m, r) {
      forall steps | IsRun(g, steps) && AreDeliveries(steps, m, r)
        ensures CountAt(After(g, steps), m, r) <= Entry(After(g, steps).accepted, r)
      {
        DeliveriesCount(g, steps, m, r);
      }
    } else {
      var steps := Arrivals(m, r, OnTheWay(g, m, r));
      ArrivalsRun(g, m, r, OnTheWay(g, m, r));
      DeliveriesCount(g, steps, m, r);
      assert IsRun(g, steps) && AreDeliveries(steps, m, r);
    }
  }

  /** So an offer taken from a safe state keeps this mirror honest for good if
      and only if it was fenced. */
  lemma TakeStaysHonestIff(g: Galaxy, step: Step)
    requires Safe(g) && step.Take? && Enabled(g, step)
    ensures Fenced(g, step) <==> forall r :: NeverInflates(Apply(g, step), step.at, r)
  {
    var h := Apply(g, step);
    forall r ensures NeverInflates(h, step.at, r) <==> Covered(h, step.at, r) {
      StaysHonestIff(h, step.at, r);
    }
    if Fenced(g, step) {
      SafeStep(g, step);
    } else {
      var r :| r != step.at && Entry(step.sent.body.counts, r) + OnTheWay(g, step.at, r) > Entry(g.accepted, r);
      CountMoves(g, step, step.at, r);
      assert !Covered(h, step.at, r);
    }
  }

  /** The plain statement is false of the code. One client write enters at `lb`
      and is sent to mirrors `a` and `b`; `b` takes `a`'s offer before its own
      delivery arrives; it then counts two sightings for one write. */
  lemma ForwardedWriteCountedTwice()
    ensures exists steps :: IsRun(Start({"a", "b"}), steps)
              && Entry(After(Start({"a", "b"}), steps).accepted, "lb") == 1
              && CountAt(After(Start({"a", "b"}), steps), "b", "lb") == 2
  {
    var g0 := Start({"a", "b"});
    var s1 := Enter("lb", {"a", "b"});
    var g1 := Apply(g0, s1);
    CountMoves(g0, s1, "a", "lb");
    CountMoves(g0, s1, "b", "lb");
    var s2 := Deliver("a", "lb", 0, None, 0, "");
    var g2 := Apply(g1, s2);
    CountMoves(g1, s2, "a", "lb");
    CountMoves(g1, s2, "b", "lb");
    var rest := TakenTooEarly(g2);
    RunFrom(g1, s2, rest);
    RunFrom(g0, s1, [s2] + rest);
    var steps := [s1] + ([s2] + rest);
    assert IsRun(g0, steps);
  }

  lemma TakenTooEarly(g: Galaxy) returns (steps: seq<Step>)
    requires {"a", "b"} <= g.holders && "a" in g.copies
    requires CountAt(g, "a", "lb") == 1 && CountAt(g, "b", "lb") == 0
    requires OnTheWay(g, "b", "lb") == 1 && Entry(g.accepted, "lb") == 1
    ensures IsRun(g, steps)
    ensures Entry(After(g, steps).accepted, "lb") == 1 && CountAt(After(g, steps), "b", "lb") == 2
  {
    var s3 := Publish("a");
    var g3 := Apply(g, s3);
    var sent := Sent("a", Entry(g.accepted, "a"), AsMerge(g.copies["a"]));
    CountMoves(g, s3, "b", "lb");
    var s4 := Take("b", sent);
    var g4 := Apply(g3, s4);
    CountMoves(g3, s4, "b", "lb");
    var s5 := Deliver("b", "lb", 0, None, 0, "");
    CountMoves(g4, s5, "b", "lb");
    RunFrom(g4, s5, []);
    RunFrom(g3, s4, [s5] + []);
    RunFrom(g, s3, [s4] + ([s5] + []));
    steps := [s3] + ([s4] + ([s5] + []));
  }

  /** Where clients only ever talk to mirrors, no fence is needed. */
  lemma {:induction false} NothingForwardedStaysSafe(g: Galaxy, steps: seq<Step>)
    requires Safe(g) && (forall m, r :: OnTheWay(g, m, r) == 0)
    requires IsRun(g, steps)
    requires forall i :: 0 <= i < |steps| ==> !steps[i].Enter?
    ensures Safe(After(g, steps))
    decreases |steps|
  {
    if |steps| > 0 {
      var step := steps[0];
      assert Fenced(g, step) by {
        if step.Take? {
          forall r ensures Entry(step.sent.body.counts, r) + OnTheWay(g, step.at, r) <= Entry(g.accepted, r) {
            assert Honest(g, step.sent, r);
          }
        }
      }
      SafeStep(g, step);
      forall m, r ensures OnTheWay(Apply(g, step), m, r) == 0 { CountMoves(g, step, m, r); }
      NothingForwardedStaysSafe(Apply(g, step), steps[1..]);
    }
  }

  // ---------------------------------------------------------------------
  // Convergence.
  // ---------------------------------------------------------------------

  /** Nothing dropped or lost, and every forwarded write addressed to every mirror. */
  predicate ReachesAll(g: Galaxy, step: Step)
  {
    !step.Drop? && !step.Lose? && (step.Enter? ==> step.to == g.holders)
  }

  ghost predicate ReachingRun(g: Galaxy, steps: seq<Step>)
    requires IsRun(g, steps)
    decreases |steps|
  {
    |steps| == 0 || (ReachesAll(g, steps[0]) && ReachingRun(Apply(g, steps[0]), steps[1..]))
  }

  /** Nothing a client wrote is missing: it is counted where it should be, or
      on its way there. */
  ghost predicate Whole(g: Galaxy)
  {
    && (forall m, r :: m in g.holders && r !in g.holders ==>
          Entry(g.accepted, r) <= CountAt(g, m, r) + OnTheWay(g, m, r))
    && (forall n :: n in g.holders ==> Entry(g.accepted, n) <= CountAt(g, n, n))
    && (forall sent :: sent in g.offers ==> sent.from in g.holders && sent.made <= Entry(sent.body.counts, sent.from))
    && (forall m, n :: m in g.holders && n in g.holders && m != n ==> Entry(g.heard, (m, n)) <= CountAt(g, m, n))
  }

  lemma WholeCounts(g: Galaxy, step: Step, m: string, r: string)
    requires Whole(g) && Enabled(g, step) && ReachesAll(g, step) && m in g.holders
    ensures var h := Apply(g, step);
            && (r !in g.holders ==> Entry(h.accepted, r) <= CountAt(h, m, r) + OnTheWay(h, m, r))
            && (r == m ==> Entry(h.accepted, r) <= CountAt(h, m, r))
  {
    CountMoves(g, step, m, r);
  }

  lemma WholeHeard(g: Galaxy, step: Step, m: string, n: string)
    requires Whole(g) && Enabled(g, step) && ReachesAll(g, step) && m in g.holders && n in g.holders && m != n
    ensures Entry(Apply(g, step).heard, (m, n)) <= CountAt(Apply(g, step), m, n)
  {
    CountStep(g, step, m, n);
    assert Entry(g.heard, (m, n)) <= CountAt(g, m, n);
  }

  lemma WholeStep(g: Galaxy, step: Step)
    requires Whole(g) && Enabled(g, step) && ReachesAll(g, step)
    ensures Whole(Apply(g, step))
  {
    var h := Apply(g, step);
    HoldersStay(g, step);
    forall m, r | m in h.holders && r !in h.holders
      ensures Entry(h.accepted, r) <= CountAt(h, m, r) + OnTheWay(h, m, r)
    {
      WholeCounts(g, step, m, r);
    }
    forall n | n in h.holders ensures Entry(h.accepted, n) <= CountAt(h, n, n) {
      WholeCounts(g, step, n, n);
    }
    forall m, n | m in h.holders && n in h.holders && m != n ensures Entry(h.heard, (m, n)) <= CountAt(h, m, n) {
      WholeHeard(g, step, m, n);
    }
    forall sent | sent in h.offers
      ensures sent.from in h.holders && sent.made <= Entry(sent.body.counts, sent.from)
    {
      WholeOffers(g, step, sent);
    }
  }

  lemma WholeOffers(g: Galaxy, step: Step, sent: Sent)
    requires Whole(g) && Enabled(g, step) && sent in Apply(g, step).offers
    ensures sent.from in g.holders && sent.made <= Entry(sent.body.counts, sent.from)
  {
    if sent !in g.offers {
      assert Entry(g.accepted, step.at) <= CountAt(g, step.at, step.at);
    }
  }

  lemma {:induction false} WholeRun(g: Galaxy, steps: seq<Step>)
    requires Whole(g) && IsRun(g, steps) && ReachingRun(g, steps)
    ensures Whole(After(g, steps)) && After(g, steps).holders == g.holders
    decreases |steps|
  {
    if |steps| > 0 {
      WholeStep(g, steps[0]);
      WholeRun(Apply(g, steps[0]), steps[1..]);
    }
  }

  /** Nothing is on its way, and every mirror has taken from every other an
      offer made after that one's last client write. */
  ghost predicate AllHeard(g: Galaxy)
  {
    && (forall m, r :: OnTheWay(g, m, r) == 0)
    && (forall m, n :: m in g.holders && n in g.holders && m != n ==> Entry(g.accepted, n) <= Entry(g.heard, (m, n)))
  }

  /** Then every mirror counts exactly what the clients wrote, server by server
      and in total, whatever order the offers were taken in. */
  lemma Convergence(holders: set<string>, steps: seq<Step>, m: string)
    requires IsRun(Start(holders), steps) && FencedRun(Start(holders), steps) && ReachingRun(Start(holders), steps)
    requires AllHeard(After(Start(holders), steps))
    requires m in holders
    ensures var g := After(Start(holders), steps);
            && (forall n :: CountAt(g, m, n) == Entry(g.accepted, n))
            && Total(CopyOf(g, m).counts) == Total(g.accepted)
  {
    var g := After(Start(holders), steps);
    assert Safe(Start(holders)) && Whole(Start(holders));
    SafeRun(Start(holders), steps);
    WholeRun(Start(holders), steps);
    ExactCounts(g, m);
  }

  lemma ExactCounts(g: Galaxy, m: string)
    requires Safe(g) && Whole(g) && AllHeard(g) && m in g.holders
    ensures forall n :: CountAt(g, m, n) == Entry(g.accepted, n)
    ensures Total(CopyOf(g, m).counts) == Total(g.accepted)
  {
    forall n ensures CountAt(g, m, n) == Entry(g.accepted, n) {
      assert Covered(g, m, n) && OnTheWay(g, m, n) == 0;
      if n in g.holders && n != m {
        assert Entry(g.heard, (m, n)) <= CountAt(g, m, n);
      }
    }
    TotalAgree(CopyOf(g, m).counts, g.accepted);
  }

  // ---------------------------------------------------------------------
  // A removed tag stays removed.
  // ---------------------------------------------------------------------

  /** Nobody adds `t`: neither a write nor a replacement carries it. */
  predicate Omits(step: Step, t: string)
  {
    match step
    case Local(_, _, _, _, tags) => t !in TagSet(tags)
    case Deliver(_, _, _, _, _, tags) => t !in TagSet(tags)
    case Retag(_, tags, _) => t !in TagSet(tags)
    case _ => true
  }

  /** Every copy and every offer as recent as the removal lacks the tag. */
  ghost predicate Removed(g: Galaxy, t: string, since: int)
  {
    && (forall m :: m in g.copies && g.copies[m].tagsAt >= since ==> t !in TagSet(g.copies[m].tags))
    && (forall sent :: sent in g.offers && sent.body.tagsAt >= since ==> t !in TagSet(sent.body.tags))
  }

  lemma RemovedStep(g: Galaxy, step: Step, t: string, since: int)
    requires Removed(g, t, since) && Enabled(g, step) && Omits(step, t)
    ensures Removed(Apply(g, step), t, since)
  {
    NoTags();
    match step
    case Local(at, when, ttl, retention, tags) => SightedTags(CopyOf(g, at), at, when, ttl, retention, tags);
    case Deliver(at, origin, when, ttl, retention, tags) =>
      SightedTags(CopyOf(g, at), origin, when, ttl, retention, tags);
    case Take(at, sent) => MergedTagSet(CopyOf(g, at), sent.body);
    case Retag(at, tags, stamp) => CleanTagsSameSet(tags);
    case _ =>
  }

  lemma {:induction false} RemovedRun(g: Galaxy, steps: seq<Step>, t: string, since: int)
    requires Removed(g, t, since) && IsRun(g, steps)
    requires forall i :: 0 <= i < |steps| ==> Omits(steps[i], t)
    ensures Removed(After(g, steps), t, since)
    decreases |steps|
  {
    if |steps| > 0 {
      RemovedStep(g, steps[0], t, since);
      RemovedRun(Apply(g, steps[0]), steps[1..], t, since);
    }
  }

  ghost predicate Latest(g: Galaxy, since: int)
  {
    && (forall m :: m in g.copies ==> g.copies[m].tagsAt < since)
    && (forall sent :: sent in g.offers ==> sent.body.tagsAt < since)
  }

  /** After a replacement without `t`, later than any made so far, and through
      every run in which nobody adds `t` again, no copy and no offer as recent
      as the replacement carries it, however old copies circulate. */
  lemma RemovedTagStaysRemoved(g: Galaxy, removal: Step, steps: seq<Step>, t: string)
    requires removal.Retag? && Enabled(g, removal) && t !in TagSet(removal.tags)
    requires Latest(g, removal.stamp)
    requires IsRun(Apply(g, removal), steps)
    requires forall i :: 0 <= i < |steps| ==> Omits(steps[i], t)
    ensures Removed(After(Apply(g, removal), steps), t, removal.stamp)
    ensures var h := Apply(g, removal);
            CopyOf(h, removal.at).tagsAt == removal.stamp && TagSet(CopyOf(h, removal.at).tags) == TagSet(removal.tags)
  {
    RemovalRemoves(g, removal, t);
    RemovedRun(Apply(g, removal), steps, t, removal.stamp);
  }

  lemma RemovalRemoves(g: Galaxy, removal: Step, t: string)
    requires removal.Retag? && Enabled(g, removal) && t !in TagSet(removal.tags) && Latest(g, removal.stamp)
    ensures var h := Apply(g, removal);
            && Removed(h, t, removal.stamp) && CopyOf(h, removal.at).tagsAt == removal.stamp
            && TagSet(CopyOf(h, removal.at).tags) == TagSet(removal.tags)
  {
    CleanTagsSameSet(removal.tags);
    var h := Apply(g, removal);
    forall m | m in h.copies && h.copies[m].tagsAt >= removal.stamp ensures t !in TagSet(h.copies[m].tags) {
      assert m == removal.at;
    }
  }

  /** `Latest` is needed: merging a copy with the same stamp joins the two sets,
      and the tag is back. */
  lemma TiedRemovalIsUndone(a: Attr, o: Offer, mine: string, t: string)
    requires a.tagsAt == o.tagsAt && t !in TagSet(a.tags) && t in TagSet(o.tags)
    ensures t in TagSet(Merged(a, o, mine).tags)
  {
    MergedTagSet(a, o);
  }
}
