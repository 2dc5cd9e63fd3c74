/** How far a count can be off in any run at all (src/attribute.rs:313-332,
    src/handlers.rs:976-1018, src/db.rs:1322-1338). */
module GalaxyBounds {
  import opened Sets
  import opened Text
  import opened Options
  import opened Attributes
  import opened MergeLaws
  import opened GalaxyRuns

  // ---------------------------------------------------------------------
  // Everything on its way from one server, to whichever mirror.
  // ---------------------------------------------------------------------

  ghost function WaysFrom(g: Galaxy, r: string): map<string, nat>
  {
    map m | m in g.holders :: OnTheWay(g, m, r)
  }

  ghost function Flight(g: Galaxy, r: string): nat
  {
    Total(WaysFrom(g, r))
  }

  function OneMoreEach(counts: map<string, nat>, to: set<string>): map<string, nat>
  {
    map k | k in counts :: counts[k] + if k in to then 1 else 0
  }

  lemma {:induction false} OneMoreEachTotal(counts: map<string, nat>, to: set<string>)
    requires to <= counts.Keys
    ensures Total(OneMoreEach(counts, to)) == Total(counts) + |to|
    decreases |to|
  {
    if to == {} {
      assert OneMoreEach(counts, to) == counts;
    } else {
      var k :| k in to;
      OneMoreEachTotal(counts, to - {k});
      var before := OneMoreEach(counts, to - {k});
      TotalSet(before, k, before[k] + 1);
      assert OneMoreEach(counts, to) == before[k := before[k] + 1];
    }
  }

  function FlightMove(g: Galaxy, step: Step, r: string): int
  {
    match step
    case Enter(at, to) => if at == r then |to| else 0
    case Deliver(at, origin, _, _, _, _) => if at in g.holders && r == origin then -1 else 0
    case Lose(at, origin) => if at in g.holders && r == origin then -1 else 0
    case _ => 0
  }

  /** A forwarded write adds one for each mirror it is sent to; an arrival or a
      loss takes one away; nothing else moves it. */
  lemma FlightMoves(g: Galaxy, step: Step, r: string)
    requires Enabled(g, step)
    ensures Flight(Apply(g, step), r) == Flight(g, r) + FlightMove(g, step, r)
  {
    var h := Apply(g, step);
    HoldersStay(g, step);
    forall m | m in g.holders ensures OnTheWay(h, m, r) == WayMove(g, step, m, r) {
      WayStep(g, step, m, r);
    }
    if step.Enter? {
      MoreOnTheWay(g, h, step.to, step.at, r);
    } else if step.Deliver? || step.Lose? {
      OneLess(g, h, step.at, step.origin, r);
    } else {
      assert WaysFrom(h, r) == WaysFrom(g, r);
    }
  }

  lemma MoreOnTheWay(g: Galaxy, h: Galaxy, to: set<string>, at: string, r: string)
    requires h.holders == g.holders && to <= g.holders
    requires forall m :: m in g.holders ==> OnTheWay(h, m, r) == OnTheWay(g, m, r) + if m in to && r == at then 1 else 0
    ensures Flight(h, r) == Flight(g, r) + if at == r then |to| else 0
  {
    OneMoreEachTotal(WaysFrom(g, r), to);
    if at == r {
      assert WaysFrom(h, r) == OneMoreEach(WaysFrom(g, r), to);
    } else {
      assert WaysFrom(h, r) == WaysFrom(g, r);
    }
  }

  lemma OneLess(g: Galaxy, h: Galaxy, at: string, origin: string, r: string)
    requires h.holders == g.holders && OnTheWay(g, at, origin) > 0
    requires forall m :: m in g.holders ==>
               OnTheWay(h, m, r) == OnTheWay(g, m, r) - if m == at && r == origin then 1 else 0
    ensures Flight(h, r) == Flight(g, r) - if at in g.holders && r == origin then 1 else 0
  {
    if at in g.holders && r == origin {
      TotalSet(WaysFrom(g, r), at, OnTheWay(g, at, r) - 1);
      assert WaysFrom(h, r) == WaysFrom(g, r)[at := OnTheWay(g, at, r) - 1];
    } else {
      assert WaysFrom(h, r) == WaysFrom(g, r);
    }
  }

  // ---------------------------------------------------------------------
  // The bound that needs no condition.
  // ---------------------------------------------------------------------

  function Times(n: nat, k: nat): nat { n * k }

  lemma TimesNext(n: nat, k: nat)
    ensures Times(n, k + 1) == Times(n, k) + n
  {
  }

  /** What may still be counted for `r`, besides what is on its way. */
  ghost function Room(g: Galaxy, r: string): int
  {
    Times(|g.holders|, Entry(g.accepted, r)) - Flight(g, r)
  }

  ghost predicate Within(g: Galaxy, m: string, r: string)
  {
    CountAt(g, m, r) <= Room(g, r)
  }

  ghost predicate OfferWithin(g: Galaxy, sent: Sent, r: string)
  {
    Entry(sent.body.counts, r) <= Room(g, r)
  }

  /** Room never shrinks, and a step that counts a sighting makes room for it. */
  lemma RoomStep(g: Galaxy, step: Step, r: string)
    requires Enabled(g, step)
    ensures Room(Apply(g, step), r) >= Room(g, r)
    ensures (step.Local? && step.at == r) || (step.Deliver? && step.origin == r) ==>
              Room(Apply(g, step), r) >= Room(g, r) + 1
  {
    HoldersStay(g, step);
    CountMoves(g, step, step.at, r);
    FlightMoves(g, step, r);
    TimesNext(|g.holders|, Entry(g.accepted, r));
    if step.Enter? { SubsetSize(step.to, g.holders); }
    if step.Local? { SubsetSize({step.at}, g.holders); }
  }

  ghost predicate Bounded(g: Galaxy)
  {
    && (forall m, r :: Within(g, m, r))
    && (forall sent, r :: sent in g.offers ==> OfferWithin(g, sent, r))
  }

  lemma WithinStep(g: Galaxy, step: Step, m: string, r: string)
    requires Bounded(g) && Enabled(g, step)
    ensures Within(Apply(g, step), m, r)
  {
    CountStep(g, step, m, r);
    RoomStep(g, step, r);
    assert Within(g, m, r);
    if step.Take? { assert OfferWithin(g, step.sent, r); }
    if step.Drop? { assert Room(g, r) >= 0; }
  }

  lemma OfferWithinStep(g: Galaxy, step: Step, sent: Sent, r: string)
    requires Bounded(g) && Enabled(g, step) && sent in Apply(g, step).offers
    ensures OfferWithin(Apply(g, step), sent, r)
  {
    RoomStep(g, step, r);
    if sent in g.offers { assert OfferWithin(g, sent, r); } else { assert Within(g, step.at, r); }
  }

  lemma {:induction false} BoundedRun(g: Galaxy, steps: seq<Step>)
    requires Bounded(g) && IsRun(g, steps)
    ensures Bounded(After(g, steps)) && After(g, steps).holders == g.holders
    decreases |steps|
  {
    if |steps| > 0 {
      var h := Apply(g, steps[0]);
      HoldersStay(g, steps[0]);
      forall m, r ensures Within(h, m, r) { WithinStep(g, steps[0], m, r); }
      forall sent, r | sent in h.offers ensures OfferWithin(h, sent, r) { OfferWithinStep(g, steps[0], sent, r); }
      BoundedRun(h, steps[1..]);
    }
  }

  lemma StartBounded(holders: set<string>)
    ensures Bounded(Start(holders))
  {
    var g := Start(holders);
    forall r ensures Flight(g, r) == 0 { TotalZero(WaysFrom(g, r)); }
  }

  /** In every run, fenced or not, with offers stale, repeated and reordered: no
      mirror counts more for a server than as many times its clients' writes as
      there are mirrors, nor reports more in total. */
  lemma InflationIsBounded(holders: set<string>, steps: seq<Step>, m: string, r: string)
    requires IsRun(Start(holders), steps)
    ensures var g := After(Start(holders), steps);
            && CountAt(g, m, r) <= |holders| * Entry(g.accepted, r)
            && Total(CopyOf(g, m).counts) <= |holders| * Total(g.accepted)
  {
    StartBounded(holders);
    BoundedRun(Start(holders), steps);
    var g := After(Start(holders), steps);
    assert Within(g, m, r);
    var counts := CopyOf(g, m).counts;
    forall n | n in counts ensures counts[n] <= Times(|holders|, Entry(g.accepted, n)) {
      assert Within(g, m, n);
    }
    TotalAtMostTimes(counts, g.accepted, |holders|);
  }

  lemma TimesSum(k: nat, a: nat, b: nat)
    ensures Times(k, a + b) == Times(k, a) + Times(k, b)
  {
  }

  lemma {:induction false} TotalAtMostTimes(a: map<string, nat>, b: map<string, nat>, k: nat)
    requires forall n :: n in a ==> a[n] <= Times(k, Entry(b, n))
    ensures Total(a) <= Times(k, Total(b))
    decreases |a|
  {
    if a != map[] {
      var n :| n in a;
      TotalTake(a, n);
      TotalAtMostTimes(a - {n}, b - {n}, k);
      if n in b { TotalTake(b, n); } else { assert b - {n} == b; }
      TimesSum(k, Entry(b, n), Total(b - {n}));
    }
  }

  // ---------------------------------------------------------------------
  // A mirror's own clients are never over-counted.
  // ---------------------------------------------------------------------

  /** Nothing a mirror accepted itself is ever forwarded. */
  ghost predicate OwnHonest(g: Galaxy, r: string)
  {
    && (forall m :: OnTheWay(g, m, r) == 0 && CountAt(g, m, r) <= Entry(g.accepted, r))
    && (forall sent :: sent in g.offers ==> Honest(g, sent, r))
  }

  lemma OwnHonestStep(g: Galaxy, step: Step, r: string)
    requires r in g.holders && OwnHonest(g, r) && Enabled(g, step)
    ensures OwnHonest(Apply(g, step), r)
  {
    var h := Apply(g, step);
    forall m ensures OnTheWay(h, m, r) == 0 && CountAt(h, m, r) <= Entry(h.accepted, r) {
      CountMoves(g, step, m, r);
      assert OnTheWay(g, m, r) == 0;
      if step.Take? { assert Honest(g, step.sent, r); }
    }
    forall sent | sent in h.offers ensures Honest(h, sent, r) {
      CountMoves(g, step, step.at, r);
      if sent in g.offers { assert Honest(g, sent, r); } else { assert CountAt(g, step.at, r) <= Entry(g.accepted, r); }
    }
  }

  lemma {:induction false} OwnHonestRun(g: Galaxy, steps: seq<Step>, r: string)
    requires r in g.holders && OwnHonest(g, r) && IsRun(g, steps)
    ensures OwnHonest(After(g, steps), r)
    decreases |steps|
  {
    if |steps| > 0 {
      OwnHonestStep(g, steps[0], r);
      HoldersStay(g, steps[0]);
      OwnHonestRun(Apply(g, steps[0]), steps[1..], r);
    }
  }

  /** In every run, fenced or not: what clients wrote at a mirror is counted no
      more often than they wrote it, at every mirror. */
  lemma OwnClientsNeverInflated(holders: set<string>, steps: seq<Step>, m: string, r: string)
    requires IsRun(Start(holders), steps) && r in holders
    ensures var g := After(Start(holders), steps);
            CountAt(g, m, r) <= Entry(g.accepted, r)
  {
    assert OwnHonest(Start(holders), r);
    OwnHonestRun(Start(holders), steps, r);
  }

  /** Enough for a fence: nothing at all is on its way to the mirror. */
  lemma IdleTakeIsFenced(g: Galaxy, step: Step)
    requires Safe(g) && step.Take? && Enabled(g, step)
    requires forall r :: OnTheWay(g, step.at, r) == 0
    ensures Fenced(g, step)
  {
    forall r | r != step.at
      ensures Entry(step.sent.body.counts, r) + OnTheWay(g, step.at, r) <= Entry(g.accepted, r)
    {
      assert Honest(g, step.sent, r);
    }
  }

  // ---------------------------------------------------------------------
  // The bound is attained.
  // ---------------------------------------------------------------------

  ghost predicate Waiting(g: Galaxy, m: string, r: string)
  {
    m in g.holders && m != r && OnTheWay(g, m, r) == 1 && CountAt(g, m, r) == 0
  }

  ghost predicate NoRepeats(mirrors: seq<string>)
  {
    forall i, j :: 0 <= i < j < |mirrors| ==> mirrors[i] != mirrors[j]
  }

  /** One mirror's turn: take the last one's offer, receive the write, offer. */
  lemma Turn(g: Galaxy, m: string, k: nat, sent: Sent, r: string) returns (h: Galaxy, turn: seq<Step>, offer: Sent)
    requires Waiting(g, m, r) && (k > 0 ==> sent in g.offers && Entry(sent.body.counts, r) == k)
    ensures IsRun(g, turn) && h == After(g, turn) && h.holders == g.holders
    ensures Entry(h.accepted, r) == Entry(g.accepted, r)
    ensures CountAt(h, m, r) == k + 1 && offer in h.offers && Entry(offer.body.counts, r) == k + 1
    ensures forall n :: n != m ==> CountAt(h, n, r) == CountAt(g, n, r) && OnTheWay(h, n, r) == OnTheWay(g, n, r)
  {
    var take, deliver, publish := Take(m, sent), Deliver(m, r, 0, None, 0, ""), Publish(m);
    var g1 := if k > 0 then Apply(g, take) else g;
    if k > 0 { Moved(g, take, m, r); }
    var g2 := Apply(g1, deliver);
    Moved(g1, deliver, m, r);
    h := Apply(g2, publish);
    Moved(g2, publish, m, r);
    offer := Sent(m, Entry(g2.accepted, m), AsMerge(g2.copies[m]));
    RunFrom(g2, publish, []);
    RunFrom(g1, deliver, [publish] + []);
    if k > 0 {
      RunFrom(g, take, [deliver] + ([publish] + []));
      turn := [take] + ([deliver] + ([publish] + []));
    } else {
      turn := [deliver] + ([publish] + []);
    }
  }

  lemma Moved(g: Galaxy, step: Step, m: string, r: string)
    requires Enabled(g, step) && step.at == m && m in g.holders
    requires step.Take? || step.Deliver? || step.Publish?
    ensures var h := Apply(g, step);
            && h.holders == g.holders && Entry(h.accepted, r) == Entry(g.accepted, r)
            && CountAt(h, m, r) == CountMove(g, step, m, r) && OnTheWay(h, m, r) == WayMove(g, step, m, r)
            && (forall n :: n != m ==> CountAt(h, n, r) == CountAt(g, n, r) && OnTheWay(h, n, r) == OnTheWay(g, n, r))
  {
    HoldersStay(g, step);
    CountMoves(g, step, m, r);
    forall n | n != m ensures CountAt(Apply(g, step), n, r) == CountAt(g, n, r)
      ensures OnTheWay(Apply(g, step), n, r) == OnTheWay(g, n, r)
    {
      CountMoves(g, step, n, r);
    }
  }

  lemma {:induction false} RunBoth(g: Galaxy, a: seq<Step>, b: seq<Step>)
    requires IsRun(g, a) && IsRun(After(g, a), b)
    ensures IsRun(g, a + b) && After(g, a + b) == After(After(g, a), b)
    decreases |a|
  {
    if |a| == 0 {
      assert a + b == b;
    } else {
      RunBoth(Apply(g, a[0]), a[1..], b);
      RunFrom(g, a[0], a[1..] + b);
      SplitFirst(a, b);
    }
  }

  lemma SplitFirst<T>(a: seq<T>, b: seq<T>)
    requires |a| > 0
    ensures [a[0]] + (a[1..] + b) == a + b
  {
  }

  lemma {:induction false} Chain(g: Galaxy, rest: seq<string>, k: nat, sent: Sent, last: string, r: string)
      returns (steps: seq<Step>)
    requires NoRepeats(rest) && forall i :: 0 <= i < |rest| ==> Waiting(g, rest[i], r)
    requires k > 0 ==> sent in g.offers && Entry(sent.body.counts, r) == k
    requires |rest| == 0 ==> CountAt(g, last, r) == k
    requires |rest| > 0 ==> last == rest[|rest| - 1]
    ensures IsRun(g, steps) && Entry(After(g, steps).accepted, r) == Entry(g.accepted, r)
    ensures CountAt(After(g, steps), last, r) == k + |rest|
    decreases |rest|
  {
    steps := [];
    if |rest| > 0 {
      var h, turn, offer := Turn(g, rest[0], k, sent, r);
      forall i | 1 <= i < |rest| ensures Waiting(h, rest[i], r) {
        assert Waiting(g, rest[i], r) && rest[i] != rest[0];
      }
      var more := Chain(h, rest[1..], k + 1, offer, last, r);
      RunBoth(g, turn, more);
      steps := turn + more;
    }
  }

  /** One client write, sent to every mirror and passed along with each mirror's
      offer ahead of the next one's delivery: the last mirror counts it once for
      every mirror there is. */
  lemma BoundIsAttained(mirrors: seq<string>, r: string)
    requires |mirrors| > 0 && NoRepeats(mirrors) && r !in mirrors
    ensures exists steps :: IsRun(Start(Elements(mirrors)), steps)
              && Entry(After(Start(Elements(mirrors)), steps).accepted, r) == 1
              && CountAt(After(Start(Elements(mirrors)), steps), mirrors[|mirrors| - 1], r) == |Elements(mirrors)|
  {
    var g := Start(Elements(mirrors));
    var enter := Enter(r, Elements(mirrors));
    var h := Apply(g, enter);
    HoldersStay(g, enter);
    CountMoves(g, enter, r, r);
    forall i | 0 <= i < |mirrors| ensures Waiting(h, mirrors[i], r) {
      assert mirrors[i] in Elements(mirrors);
      CountMoves(g, enter, mirrors[i], r);
    }
    var rest := Chain(h, mirrors, 0, Sent(r, 0, AsMerge(NEW)), mirrors[|mirrors| - 1], r);
    RunFrom(g, enter, rest);
    DistinctSize(mirrors);
    var steps := [enter] + rest;
    assert IsRun(g, steps);
  }

  lemma {:induction false} DistinctSize(mirrors: seq<string>)
    requires NoRepeats(mirrors)
    ensures |Elements(mirrors)| == |mirrors|
  {
    if |mirrors| > 0 {
      DistinctSize(mirrors[1..]);
      FirstAndRest(mirrors);
      assert mirrors[0] !in mirrors[1..];
    }
  }
}
