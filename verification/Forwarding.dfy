/** Passing a request along until it meets a server that stores its namespace
    (src/galaxy.rs:442-454, 529-613, 871-924; src/handlers.rs:1474-1493).

    A wiring says which servers exist, what each stores and which peers it has.
    It may be any graph whatever, cycles included, and another one at every hop:
    servers come and go while a request is under way. */
module Forwarding {
  import opened Options
  import opened Namespaces
  import opened Peers

  /** A server as one request sees it: whether it stores the namespace, and if
      it has peers, whether any of them stores it, which one reads the value and
      which take a write. */
  datatype Server = Server(stores: bool, galaxy: Option<Links>)
  datatype Links = Links(maxHops: nat, anyHolder: bool, reader: Option<string>, live: seq<string>)

  /** Reachable servers by URL. */
  type Wiring = map<string, Server>

  /** The wiring each forward finds when it arrives, by its place in the tree of
      forwards: the i-th forward made from `path` is at `path + [i]`. */
  type Wirings = seq<nat> -> Wiring

  function UrlsOf(peers: seq<Peer>): (r: seq<string>)
    ensures |r| == |peers| && forall i :: 0 <= i < |r| ==> r[i] == peers[i].url
  {
    seq(|peers|, i requires 0 <= i < |peers| => peers[i].url)
  }

  /** What a server with these peers makes of a request. */
  function Resolve(maxHops: nat, peers: seq<Peer>, health: Table, namespace: string, weigh: string -> nat): Links
  {
    var reader := ReaderFor(peers, health, namespace, weigh);
    Links(maxHops, |Holders(peers, namespace)| > 0,
          if reader.Some? then Some(reader.value.url) else None,
          UrlsOf(LiveHolders(peers, health, namespace)))
  }

  /** A read has somewhere to go exactly when a write does, and goes to one of
      the servers a write would; both need a holder. */
  lemma ResolvedAgree(maxHops: nat, peers: seq<Peer>, health: Table, namespace: string, weigh: string -> nat)
    ensures var links := Resolve(maxHops, peers, health, namespace, weigh);
            && (links.reader.Some? <==> |links.live| > 0)
            && (links.reader.Some? ==> links.reader.value in links.live && links.anyHolder)
            && |links.live| <= |peers|
  {
    ReaderIsBest(peers, health, namespace, weigh);
    var reader := ReaderFor(peers, health, namespace, weigh);
    if reader.Some? {
      var live := LiveHolders(peers, health, namespace);
      var i :| 0 <= i < |live| && live[i] == reader.value;
      assert UrlsOf(live)[i] == reader.value.url;
      assert reader.value in Holders(peers, namespace);
    }
  }

  datatype Ending =
    | Handled(at: string, path: seq<nat>)      // stored there, or nowhere to pass it on to
    | LoopDetected                             // 508: the hop budget is spent
    | NoHolder                                 // 421: no peer stores the namespace
    | AllDown                                  // 502
    | Unreachable(url: string, path: seq<nat>) // 502

  /** What the hops header of a request leaves to spend: a client's request has
      none and gets the full budget; a forwarded one is refused at zero. */
  function HopsLeft(header: Option<nat>, max: nat): Option<nat>
  {
    match header
    case None => Some(max)
    case Some(left) => if left > 0 then Some(left) else None
  }

  /** An internal namespace is stored everywhere, so storing covers it. */
  predicate HandledHere(server: Server)
  {
    server.stores || server.galaxy.None?
  }

  datatype Trip = Trip(forwards: nat, end: Ending)

  function Read(nets: Wirings, path: seq<nat>, at: string, header: Option<nat>): Trip
    requires at in nets(path)
    decreases header.None?, if header.Some? then header.value else 0
  {
    if HandledHere(nets(path)[at]) then Trip(0, Handled(at, path))
    else
      var links := nets(path)[at].galaxy.value;
      var hops := HopsLeft(header, links.maxHops);
      if hops.None? || hops.value == 0 then Trip(0, LoopDetected)
      else if !links.anyHolder then Trip(0, NoHolder)
      else
        if links.reader.None? then Trip(0, AllDown)
        else if links.reader.value !in nets(path + [0]) then Trip(1, Unreachable(links.reader.value, path + [0]))
        else
          var rest := Read(nets, path + [0], links.reader.value, Some(hops.value - 1));
          Trip(1 + rest.forwards, rest.end)
  }

  /** What a request arriving at `at` may still cost. */
  function Budget(net: Wiring, at: string, header: Option<nat>): nat
    requires at in net
  {
    if header.Some? then header.value
    else if net[at].galaxy.Some? then net[at].galaxy.value.maxHops else 0
  }

  /** A path ends where the request is handled, at a failure, or at 508. */
  ghost predicate ProperEnd(nets: Wirings, end: Ending)
  {
    && (end.Handled? ==> end.at in nets(end.path) && HandledHere(nets(end.path)[end.at]))
    && (end.Unreachable? ==> end.url !in nets(end.path))
  }

  /** A read is forwarded at most as often as its budget allows, however the
      wiring changes on the way. It ends at a server that handles it, at a
      failure, or at 508 — and at 508 only once the whole budget is spent. */
  lemma {:induction false} ReadTerminates(nets: Wirings, path: seq<nat>, at: string, header: Option<nat>)
    requires at in nets(path)
    ensures var trip := Read(nets, path, at, header);
            && trip.forwards <= Budget(nets(path), at, header)
            && (trip.end == LoopDetected ==> trip.forwards == Budget(nets(path), at, header))
            && ProperEnd(nets, trip.end)
    decreases header.None?, if header.Some? then header.value else 0
  {
    if !HandledHere(nets(path)[at]) {
      var links := nets(path)[at].galaxy.value;
      var hops := HopsLeft(header, links.maxHops);
      if hops.Some? && hops.value > 0 && links.reader.Some? && links.reader.value in nets(path + [0]) {
        ReadTerminates(nets, path + [0], links.reader.value, Some(hops.value - 1));
      }
    }
  }

  /** Nobody stores the namespace, and the reader of every server is there when
      the request comes. */
  ghost predicate GoesRound(nets: Wirings)
  {
    forall path, u :: u in nets(path) ==>
      && !HandledHere(nets(path)[u])
      && var links := nets(path)[u].galaxy.value;
         links.anyHolder && links.reader.Some? && links.reader.value in nets(path + [0])
  }

  /** The bound is met: then a read circulates until its budget is spent to the
      last hop, and no further. */
  lemma {:induction false} LoopSpendsWholeBudget(nets: Wirings, path: seq<nat>, at: string, header: Option<nat>)
    requires at in nets(path) && GoesRound(nets)
    ensures Read(nets, path, at, header) == Trip(Budget(nets(path), at, header), LoopDetected)
    decreases header.None?, if header.Some? then header.value else 0
  {
    var links := nets(path)[at].galaxy.value;
    var hops := HopsLeft(header, links.maxHops);
    if hops.Some? && hops.value > 0 {
      LoopSpendsWholeBudget(nets, path + [0], links.reader.value, Some(hops.value - 1));
    }
  }

  // ---------------------------------------------------------------------
  // Writes go to every live holder, so a trip is a tree.
  // ---------------------------------------------------------------------

  datatype Spread = Spread(forwards: nat, ends: seq<Ending>)

  function Write(nets: Wirings, path: seq<nat>, at: string, header: Option<nat>): Spread
    requires at in nets(path)
    decreases header.None?, if header.Some? then header.value else 0, 0
  {
    if HandledHere(nets(path)[at]) then Spread(0, [Handled(at, path)])
    else
      var links := nets(path)[at].galaxy.value;
      var hops := HopsLeft(header, links.maxHops);
      if hops.None? || hops.value == 0 then Spread(0, [LoopDetected])
      else if !links.anyHolder then Spread(0, [NoHolder])
      else
        if |links.live| == 0 then Spread(0, [AllDown])
        else WriteAll(nets, path, 0, links.live, hops.value - 1)
  }

  /** `targets` are the holders still to be sent to, the first of them `k`-th. */
  function WriteAll(nets: Wirings, path: seq<nat>, k: nat, targets: seq<string>, left: nat): Spread
    decreases false, left, 1 + |targets|
  {
    if |targets| == 0 then Spread(0, [])
    else
      var url, here := targets[0], path + [k];
      var first := if url in nets(here) then Write(nets, here, url, Some(left))
                   else Spread(0, [Unreachable(url, here)]);
      var rest := WriteAll(nets, path, k + 1, targets[1..], left);
      Spread(1 + first.forwards + rest.forwards, first.ends + rest.ends)
  }

  function Power(d: nat, k: nat): nat
  {
    if k == 0 then 1 else d * Power(d, k - 1)
  }

  /** d + d^2 + ... + d^hops */
  function PowerSum(d: nat, hops: nat): nat
  {
    if hops == 0 then 0 else PowerSum(d, hops - 1) + Power(d, hops)
  }

  /** Summed from the other end: one level of forwards, then the rest below each. */
  lemma {:induction false} PowerSumFolds(d: nat, hops: nat)
    ensures PowerSum(d, hops + 1) == d * (1 + PowerSum(d, hops))
  {
    if hops == 0 {
      assert Power(d, 1) == d * Power(d, 0);
    } else {
      PowerSumFolds(d, hops - 1);
      calc {
        PowerSum(d, hops + 1);
        PowerSum(d, hops) + Power(d, hops + 1);
        d * (1 + PowerSum(d, hops - 1)) + d * Power(d, hops);
        d * (1 + PowerSum(d, hops - 1) + Power(d, hops));
        d * (1 + PowerSum(d, hops));
      }
    }
  }

  /** No server ever passes a write to more than `d` others. */
  ghost predicate FanOut(nets: Wirings, d: nat)
  {
    forall path, u :: u in nets(path) && nets(path)[u].galaxy.Some? ==> |nets(path)[u].galaxy.value.live| <= d
  }

  ghost predicate ProperEnds(nets: Wirings, ends: seq<Ending>)
  {
    forall i :: 0 <= i < |ends| ==> ProperEnd(nets, ends[i])
  }

  lemma {:induction false} WriteTerminates(nets: Wirings, path: seq<nat>, at: string, header: Option<nat>, d: nat)
    requires at in nets(path) && FanOut(nets, d)
    ensures var spread := Write(nets, path, at, header);
            && spread.forwards <= PowerSum(d, Budget(nets(path), at, header))
            && |spread.ends| > 0 && ProperEnds(nets, spread.ends)
    decreases header.None?, if header.Some? then header.value else 0, 0
  {
    if !HandledHere(nets(path)[at]) {
      var links := nets(path)[at].galaxy.value;
      var hops := HopsLeft(header, links.maxHops);
      var live := links.live;
      if hops.Some? && hops.value > 0 && |live| > 0 {
        var left := hops.value - 1;
        WriteAllTerminates(nets, path, 0, live, left, d);
        PowerSumFolds(d, left);
        AtMostTimes(|live|, d, 1 + PowerSum(d, left));
      }
    }
  }

  lemma AtMostTimes(a: nat, b: nat, c: nat)
    requires a <= b
    ensures a * c <= b * c
  {
  }

  lemma {:induction false} WriteAllTerminates(nets: Wirings, path: seq<nat>, k: nat, targets: seq<string>, left: nat,
                                              d: nat)
    requires FanOut(nets, d)
    ensures var spread := WriteAll(nets, path, k, targets, left);
            && spread.forwards <= |targets| * (1 + PowerSum(d, left))
            && (|targets| > 0 ==> |spread.ends| > 0) && ProperEnds(nets, spread.ends)
    decreases false, left, 1 + |targets|
  {
    if |targets| > 0 {
      var url, each := targets[0], 1 + PowerSum(d, left);
      if url in nets(path + [k]) { WriteTerminates(nets, path + [k], url, Some(left), d); }
      WriteAllTerminates(nets, path, k + 1, targets[1..], left, d);
      OnceMore(|targets[1..]|, each);
    }
  }

  lemma OnceMore(n: nat, each: nat)
    ensures (n + 1) * each == each + n * each
  {
  }

  /** Nobody stores the namespace, and every server has exactly `d` live holders,
      which are there when the request comes. */
  ghost predicate Regular(nets: Wirings, d: nat)
  {
    forall path, u :: u in nets(path) ==>
      && !HandledHere(nets(path)[u])
      && var links := nets(path)[u].galaxy.value;
         links.anyHolder && |links.live| == d && AllThere(nets, path, 0, links.live)
  }

  ghost predicate AllThere(nets: Wirings, path: seq<nat>, k: nat, targets: seq<string>)
  {
    forall i: nat :: i < |targets| ==> targets[i] in nets(path + [k + i])
  }

  /** The bound is met there, and every path ends at 508. */
  lemma {:induction false} WriteBoundIsMet(nets: Wirings, path: seq<nat>, at: string, header: Option<nat>, d: nat)
    requires at in nets(path) && d > 0 && Regular(nets, d)
    ensures var spread := Write(nets, path, at, header);
            && spread.forwards == PowerSum(d, Budget(nets(path), at, header))
            && forall i :: 0 <= i < |spread.ends| ==> spread.ends[i] == LoopDetected
    decreases header.None?, if header.Some? then header.value else 0, 0
  {
    var links := nets(path)[at].galaxy.value;
    var hops := HopsLeft(header, links.maxHops);
    var live := links.live;
    if hops.Some? && hops.value > 0 {
      var left := hops.value - 1;
      WriteAllBoundIsMet(nets, path, 0, live, left, d);
      PowerSumFolds(d, left);
    }
  }

  lemma {:induction false} WriteAllBoundIsMet(nets: Wirings, path: seq<nat>, k: nat, targets: seq<string>, left: nat,
                                              d: nat)
    requires d > 0 && Regular(nets, d) && AllThere(nets, path, k, targets)
    ensures var spread := WriteAll(nets, path, k, targets, left);
            && spread.forwards == |targets| * (1 + PowerSum(d, left))
            && forall i :: 0 <= i < |spread.ends| ==> spread.ends[i] == LoopDetected
    decreases false, left, 1 + |targets|
  {
    if |targets| > 0 {
      var each := 1 + PowerSum(d, left);
      assert targets[0] in nets(path + [k + 0]);
      WriteBoundIsMet(nets, path + [k], targets[0], Some(left), d);
      forall i: nat | i < |targets[1..]| ensures targets[1..][i] in nets(path + [k + 1 + i]) {
        assert targets[i + 1] in nets(path + [k + (i + 1)]);
      }
      WriteAllBoundIsMet(nets, path, k + 1, targets[1..], left, d);
      OnceMore(|targets[1..]|, each);
    }
  }

  // ---------------------------------------------------------------------
  // Where a request gets to, told from the wiring alone.
  // ---------------------------------------------------------------------

  /** A hop is left to spend. */
  predicate CanHop(links: Links, header: Option<nat>)
  {
    if header.None? then links.maxHops > 0 else header.value > 0
  }

  /** What is left of the budget for those it is passed on to. */
  function Rest(links: Links, header: Option<nat>): Option<nat>
    requires CanHop(links, header)
  {
    Some(if header.None? then links.maxHops - 1 else header.value - 1)
  }

  /** A server that does not store the namespace, has peers, knows of a holder and
      has a hop left passes the request on. */
  predicate PassesOn(server: Server, header: Option<nat>)
  {
    !server.stores && server.galaxy.Some? && server.galaxy.value.anyHolder && CanHop(server.galaxy.value, header)
  }

  /** Following these forwards a write gets to server `u` with header `h`. */
  ghost predicate Arrives(nets: Wirings, path: seq<nat>, at: string, header: Option<nat>, forwards: seq<nat>,
                          u: string, h: Option<nat>)
    decreases |forwards|
  {
    if |forwards| == 0 then u == at && h == header && at in nets(path)
    else
      && at in nets(path) && PassesOn(nets(path)[at], header)
      && var links, i := nets(path)[at].galaxy.value, forwards[0];
         && i < |links.live|
         && Arrives(nets, path + [i], links.live[i], Rest(links, header), forwards[1..], u, h)
  }

  /** What becomes of it at `u`, if it goes no further from there, or of a forward
      from there to someone who is gone. */
  ghost predicate EndsThere(nets: Wirings, path: seq<nat>, u: string, h: Option<nat>, end: Ending)
    requires u in nets(path)
  {
    var server := nets(path)[u];
    match end
    case Handled(v, q) => v == u && q == path && (server.stores || server.galaxy.None?)
    case LoopDetected => !server.stores && server.galaxy.Some? && !CanHop(server.galaxy.value, h)
    case NoHolder =>
      !server.stores && server.galaxy.Some? && CanHop(server.galaxy.value, h) && !server.galaxy.value.anyHolder
    case AllDown => PassesOn(server, h) && server.galaxy.value.live == []
    case Unreachable(v, q) =>
      PassesOn(server, h) &&
      exists i: nat :: i < |server.galaxy.value.live| && server.galaxy.value.live[i] == v && q == path + [i] &&
                       v !in nets(q)
  }

  ghost predicate Ends(nets: Wirings, path: seq<nat>, at: string, header: Option<nat>, end: Ending)
  {
    exists forwards, u, h ::
      Arrives(nets, path, at, header, forwards, u, h) && u in nets(path + forwards) &&
      EndsThere(nets, path + forwards, u, h, end)
  }

  /** Ended where it is, or with one of those it was passed on to. */
  ghost predicate EndsBelow(nets: Wirings, path: seq<nat>, at: string, header: Option<nat>, end: Ending)
  {
    && at in nets(path) && PassesOn(nets(path)[at], header)
    && var links := nets(path)[at].galaxy.value;
       exists i: nat :: i < |links.live| && Ends(nets, path + [i], links.live[i], Rest(links, header), end)
  }

  lemma EndsDown(nets: Wirings, path: seq<nat>, at: string, header: Option<nat>, end: Ending)
    requires Ends(nets, path, at, header, end)
    ensures at in nets(path)
    ensures EndsThere(nets, path, at, header, end) || EndsBelow(nets, path, at, header, end)
  {
    var forwards, u, h :| Arrives(nets, path, at, header, forwards, u, h) && u in nets(path + forwards) &&
                          EndsThere(nets, path + forwards, u, h, end);
    if |forwards| == 0 {
      assert path + forwards == path;
    } else {
      var links, i := nets(path)[at].galaxy.value, forwards[0];
      assert (path + [i]) + forwards[1..] == path + forwards;
      assert Ends(nets, path + [i], links.live[i], Rest(links, header), end);
    }
  }

  lemma EndsUp(nets: Wirings, path: seq<nat>, at: string, header: Option<nat>, end: Ending)
    requires at in nets(path)
    requires EndsThere(nets, path, at, header, end) || EndsBelow(nets, path, at, header, end)
    ensures Ends(nets, path, at, header, end)
  {
    if EndsThere(nets, path, at, header, end) {
      assert path + [] == path;
      assert Arrives(nets, path, at, header, [], at, header);
    } else {
      var links := nets(path)[at].galaxy.value;
      var i: nat :| i < |links.live| && Ends(nets, path + [i], links.live[i], Rest(links, header), end);
      EndsFurther(nets, path, at, header, i, end);
    }
  }

  lemma EndsFurther(nets: Wirings, path: seq<nat>, at: string, header: Option<nat>, i: nat, end: Ending)
    requires at in nets(path) && PassesOn(nets(path)[at], header)
    requires var links := nets(path)[at].galaxy.value;
             i < |links.live| && Ends(nets, path + [i], links.live[i], Rest(links, header), end)
    ensures Ends(nets, path, at, header, end)
  {
    var links := nets(path)[at].galaxy.value;
    var forwards, u, h :| Arrives(nets, path + [i], links.live[i], Rest(links, header), forwards, u, h) &&
                          u in nets((path + [i]) + forwards) && EndsThere(nets, (path + [i]) + forwards, u, h, end);
    var all := [i] + forwards;
    assert all[0] == i && all[1..] == forwards && path + all == (path + [i]) + forwards;
    assert Arrives(nets, path, at, header, all, u, h);
  }

  /** What the j-th of several targets contributes. */
  ghost predicate EndedAt(nets: Wirings, path: seq<nat>, k: nat, targets: seq<string>, left: nat, end: Ending, j: nat)
  {
    && j < |targets|
    && var url, here := targets[j], path + [k + j];
       if url in nets(here) then end in Write(nets, here, url, Some(left)).ends else end == Unreachable(url, here)
  }

  ghost predicate EndedSomewhere(nets: Wirings, path: seq<nat>, k: nat, targets: seq<string>, left: nat, end: Ending)
  {
    exists j: nat :: EndedAt(nets, path, k, targets, left, end, j)
  }

  lemma EndedLater(nets: Wirings, path: seq<nat>, k: nat, targets: seq<string>, left: nat, end: Ending, j: nat)
    requires |targets| > 0
    ensures EndedAt(nets, path, k, targets, left, end, j + 1) <==>
            EndedAt(nets, path, k + 1, targets[1..], left, end, j)
  {
    if j + 1 < |targets| { assert targets[1..][j] == targets[j + 1] && k + 1 + j == k + (j + 1); }
  }

  /** Every target contributes all its endings, and nothing else does. */
  lemma {:induction false} WriteAllEnds(nets: Wirings, path: seq<nat>, k: nat, targets: seq<string>, left: nat,
                                        end: Ending)
    ensures end in WriteAll(nets, path, k, targets, left).ends <==>
            EndedSomewhere(nets, path, k, targets, left, end)
    decreases |targets|
  {
    if |targets| > 0 {
      WriteAllEnds(nets, path, k + 1, targets[1..], left, end);
      assert k + 0 == k;
      if EndedSomewhere(nets, path, k + 1, targets[1..], left, end) {
        var j: nat :| EndedAt(nets, path, k + 1, targets[1..], left, end, j);
        EndedLater(nets, path, k, targets, left, end, j);
      } else if end in WriteAll(nets, path, k, targets, left).ends {
        assert EndedAt(nets, path, k, targets, left, end, 0);
      }
      if EndedSomewhere(nets, path, k, targets, left, end) {
        var j: nat :| EndedAt(nets, path, k, targets, left, end, j);
        if j > 0 { EndedLater(nets, path, k, targets, left, end, j - 1); }
      }
    }
  }

  /** A write's endings are exactly those of the places it gets to: every live
      holder of a server that passes it on is sent it, and each says what becomes
      of it there. */
  lemma {:induction false} WriteEndsIff(nets: Wirings, path: seq<nat>, at: string, header: Option<nat>, end: Ending)
    requires at in nets(path)
    ensures end in Write(nets, path, at, header).ends <==> Ends(nets, path, at, header, end)
    decreases header.None?, if header.Some? then header.value else 0
  {
    var server := nets(path)[at];
    if PassesOn(server, header) {
      var links := server.galaxy.value;
      var left := Rest(links, header).value;
      assert Write(nets, path, at, header) == if |links.live| == 0 then Spread(0, [AllDown])
                                              else WriteAll(nets, path, 0, links.live, left);
      WriteAllEnds(nets, path, 0, links.live, left, end);
      forall i: nat | i < |links.live| && links.live[i] in nets(path + [i])
        ensures end in Write(nets, path + [i], links.live[i], Some(left)).ends <==>
                Ends(nets, path + [i], links.live[i], Some(left), end)
      {
        WriteEndsIff(nets, path + [i], links.live[i], Some(left), end);
      }
      PassedOnEnds(nets, path, at, header, end);
    } else if Ends(nets, path, at, header, end) {
      EndsDown(nets, path, at, header, end);
    } else if end in Write(nets, path, at, header).ends {
      EndsUp(nets, path, at, header, end);
    }
  }

  lemma PassedOnEnds(nets: Wirings, path: seq<nat>, at: string, header: Option<nat>, end: Ending)
    requires at in nets(path) && PassesOn(nets(path)[at], header)
    requires var links := nets(path)[at].galaxy.value;
             forall i: nat :: i < |links.live| && links.live[i] in nets(path + [i]) ==>
               (end in Write(nets, path + [i], links.live[i], Rest(links, header)).ends <==>
                Ends(nets, path + [i], links.live[i], Rest(links, header), end))
    ensures var links := nets(path)[at].galaxy.value;
            Ends(nets, path, at, header, end) <==>
            if |links.live| == 0 then end == AllDown
            else EndedSomewhere(nets, path, 0, links.live, Rest(links, header).value, end)
  {
    var links := nets(path)[at].galaxy.value;
    var left := Rest(links, header).value;
    if Ends(nets, path, at, header, end) {
      EndsDown(nets, path, at, header, end);
      if EndsThere(nets, path, at, header, end) {
        if end.Unreachable? {
          var i: nat :| i < |links.live| && links.live[i] == end.url && end.path == path + [i] &&
                        end.url !in nets(end.path);
          assert EndedAt(nets, path, 0, links.live, left, end, i);
        }
      } else {
        var i: nat :| i < |links.live| && Ends(nets, path + [i], links.live[i], Rest(links, header), end);
        EndsDown(nets, path + [i], links.live[i], Rest(links, header), end);
        assert EndedAt(nets, path, 0, links.live, left, end, i);
      }
    }
    if |links.live| > 0 && EndedSomewhere(nets, path, 0, links.live, left, end) {
      var i: nat :| EndedAt(nets, path, 0, links.live, left, end, i);
      assert path + [0 + i] == path + [i];
      EndsUp(nets, path, at, header, end);
    } else if |links.live| == 0 && end == AllDown {
      EndsUp(nets, path, at, header, end);
    }
  }

  /** So every live holder is sent the write, and one that is there and stores the
      namespace takes it. */
  lemma WriteReachesHolders(nets: Wirings, path: seq<nat>, at: string, header: Option<nat>, i: nat)
    requires at in nets(path) && PassesOn(nets(path)[at], header) && i < |nets(path)[at].galaxy.value.live|
    ensures var url, here, ends := nets(path)[at].galaxy.value.live[i], path + [i], Write(nets, path, at, header).ends;
            && (url !in nets(here) ==> Unreachable(url, here) in ends)
            && (url in nets(here) && nets(here)[url].stores ==> Handled(url, here) in ends)
  {
    var url, here := nets(path)[at].galaxy.value.live[i], path + [i];
    var rest := Rest(nets(path)[at].galaxy.value, header);
    if url !in nets(here) {
      EndsUp(nets, path, at, header, Unreachable(url, here));
      WriteEndsIff(nets, path, at, header, Unreachable(url, here));
    } else if nets(here)[url].stores {
      EndsUp(nets, here, url, rest, Handled(url, here));
      EndsUp(nets, path, at, header, Handled(url, here));
      WriteEndsIff(nets, path, at, header, Handled(url, here));
    }
  }

  /** Where all of them are, it costs one forward each and ends with them. */
  lemma {:induction false} WriteToHolders(nets: Wirings, path: seq<nat>, k: nat, targets: seq<string>, left: nat)
    requires forall j: nat :: j < |targets| ==>
               targets[j] in nets(path + [k + j]) && nets(path + [k + j])[targets[j]].stores
    ensures WriteAll(nets, path, k, targets, left) ==
            Spread(|targets|, seq(|targets|, j requires 0 <= j < |targets| => Handled(targets[j], path + [k + j])))
    decreases |targets|
  {
    if |targets| > 0 {
      assert k + 0 == k && targets[0] in nets(path + [k + 0]);
      forall j: nat | j < |targets[1..]|
        ensures targets[1..][j] in nets(path + [k + 1 + j]) && nets(path + [k + 1 + j])[targets[1..][j]].stores
      {
        assert k + 1 + j == k + (j + 1) && targets[1..][j] == targets[j + 1];
      }
      WriteToHolders(nets, path, k + 1, targets[1..], left);
    }
  }

  // ---------------------------------------------------------------------
  // The same of reads, which go one way.
  // ---------------------------------------------------------------------

  function Zeros(k: nat): seq<nat>
  {
    seq(k, _ => 0)
  }

  /** After `k` forwards, each to the reader of the server before, a read is at `u`. */
  ghost predicate ReadArrives(nets: Wirings, path: seq<nat>, at: string, header: Option<nat>, k: nat, u: string,
                              h: Option<nat>)
    decreases k
  {
    if k == 0 then u == at && h == header && at in nets(path)
    else
      && at in nets(path) && PassesOn(nets(path)[at], header)
      && var links := nets(path)[at].galaxy.value;
         links.reader.Some? && ReadArrives(nets, path + [0], links.reader.value, Rest(links, header), k - 1, u, h)
  }

  ghost predicate ReadEndsThere(nets: Wirings, path: seq<nat>, u: string, h: Option<nat>, end: Ending)
    requires u in nets(path)
  {
    var server := nets(path)[u];
    match end
    case AllDown => PassesOn(server, h) && server.galaxy.value.reader.None?
    case Unreachable(v, q) =>
      PassesOn(server, h) && server.galaxy.value.reader == Some(v) && q == path + [0] && v !in nets(q)
    case _ => EndsThere(nets, path, u, h, end)
  }

  /** A read that gets to a place where it ends, ends there, having been forwarded
      as often as it took to get there, and once more to someone who is gone. */
  lemma {:induction false} ReadFollows(nets: Wirings, path: seq<nat>, at: string, header: Option<nat>, k: nat,
                                       u: string, h: Option<nat>, end: Ending)
    requires at in nets(path) && ReadArrives(nets, path, at, header, k, u, h)
    requires u in nets(path + Zeros(k)) && ReadEndsThere(nets, path + Zeros(k), u, h, end)
    ensures Read(nets, path, at, header) == Trip(k + if end.Unreachable? then 1 else 0, end)
    decreases k
  {
    if k == 0 {
      assert path + Zeros(0) == path;
    } else {
      var links := nets(path)[at].galaxy.value;
      assert (path + [0]) + Zeros(k - 1) == path + Zeros(k);
      ReadFollows(nets, path + [0], links.reader.value, Rest(links, header), k - 1, u, h, end);
    }
  }

  /** And there always is such a place. */
  lemma {:induction false} ReadLeads(nets: Wirings, path: seq<nat>, at: string, header: Option<nat>)
    returns (k: nat, u: string, h: Option<nat>)
    requires at in nets(path)
    ensures ReadArrives(nets, path, at, header, k, u, h) && u in nets(path + Zeros(k))
    ensures ReadEndsThere(nets, path + Zeros(k), u, h, Read(nets, path, at, header).end)
    decreases header.None?, if header.Some? then header.value else 0
  {
    var server := nets(path)[at];
    if PassesOn(server, header) && server.galaxy.value.reader.Some? &&
       server.galaxy.value.reader.value in nets(path + [0]) {
      var links := server.galaxy.value;
      k, u, h := ReadLeads(nets, path + [0], links.reader.value, Rest(links, header));
      assert (path + [0]) + Zeros(k) == path + Zeros(k + 1);
      k := k + 1;
    } else {
      k, u, h := 0, at, header;
      assert path + Zeros(0) == path;
    }
  }

  /** In particular a read passed on to a reader that is there and stores the
      namespace is answered by it, after one forward. */
  lemma ReadReachesReader(nets: Wirings, path: seq<nat>, at: string, header: Option<nat>)
    requires at in nets(path) && PassesOn(nets(path)[at], header) && nets(path)[at].galaxy.value.reader.Some?
    requires var url := nets(path)[at].galaxy.value.reader.value;
             url in nets(path + [0]) && nets(path + [0])[url].stores
    ensures var url := nets(path)[at].galaxy.value.reader.value;
            Read(nets, path, at, header) == Trip(1, Handled(url, path + [0]))
  {
    var links := nets(path)[at].galaxy.value;
    assert Zeros(1) == [0];
    var url := links.reader.value;
    ReadFollows(nets, path, at, header, 1, url, Rest(links, header), Handled(url, path + [0]));
  }
}
