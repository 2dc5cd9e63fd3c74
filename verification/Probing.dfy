/** Who is asked, told from what the probes found (src/galaxy.rs:236-306, 326-363,
    591-613). */
module Probing {
  import opened Options
  import opened Namespaces
  import opened Peers
  import opened Forwarding

  /** One probe: the peer answered, catching up or not, or it did not. */
  datatype Probe = Probe(url: string, answered: Option<bool>)

  function ProbedAll(health: Table, probes: seq<Probe>): Table
  {
    if |probes| == 0 then health
    else
      var last := probes[|probes| - 1];
      Probed(ProbedAll(health, probes[..|probes| - 1]), last.url, last.answered)
  }

  /** Nothing is known of anyone yet. */
  predicate NothingKnown(health: Table)
  {
    forall u :: u in health ==> health[u] == Health(false, false, false)
  }

  /** What the last probe of `url` found, if there was one. */
  function LastFound(probes: seq<Probe>, url: string): Option<Option<bool>>
  {
    if |probes| == 0 then None
    else if probes[|probes| - 1].url == url then Some(probes[|probes| - 1].answered)
    else LastFound(probes[..|probes| - 1], url)
  }

  lemma {:induction false} KnownIs(health: Table, probes: seq<Probe>, url: string)
    requires NothingKnown(health)
    ensures var found, now := LastFound(probes, url), ProbedAll(health, probes);
            if found.None? then url in now ==> now[url] == Health(false, false, false)
            else && url in now && now[url].probed && now[url].online == found.value.Some?
                 && (found.value.Some? ==> now[url].catchingUp == found.value.value)
  {
    if |probes| > 0 { KnownIs(health, probes[..|probes| - 1], url); }
  }

  /** Enabled, storing the namespace, and not found to be down. */
  predicate MayServe(peers: seq<Peer>, probes: seq<Probe>, namespace: string, p: Peer)
  {
    p in peers && p.enabled && Holds(p.stores, namespace) && LastFound(probes, p.url) != Some(None)
  }

  /** And not found to be catching up. */
  predicate IsCurrent(peers: seq<Peer>, probes: seq<Probe>, namespace: string, p: Peer)
  {
    MayServe(peers, probes, namespace, p) && LastFound(probes, p.url) != Some(Some(true))
  }

  lemma WhoIsLive(peers: seq<Peer>, health: Table, probes: seq<Probe>, namespace: string, p: Peer)
    requires NothingKnown(health)
    ensures var now := ProbedAll(health, probes);
            && (p in LiveHolders(peers, now, namespace) <==> MayServe(peers, probes, namespace, p))
            && (p in CurrentHolders(peers, now, namespace) <==> IsCurrent(peers, probes, namespace, p))
  {
    KnownIs(health, probes, p.url);
  }

  /** A write is sent to a URL if and only if it is that of an enabled peer storing
      the namespace whose last probe, if there was one, did not fail. */
  lemma TargetsIff(peers: seq<Peer>, health: Table, probes: seq<Probe>, namespace: string, maxHops: nat,
                   weigh: string -> nat, url: string)
    requires NothingKnown(health)
    ensures url in Resolve(maxHops, peers, ProbedAll(health, probes), namespace, weigh).live <==>
            exists p :: MayServe(peers, probes, namespace, p) && p.url == url
  {
    var live := LiveHolders(peers, ProbedAll(health, probes), namespace);
    if url in UrlsOf(live) {
      var i: nat :| i < |live| && live[i].url == url;
      assert live[i] in live;
      WhoIsLive(peers, health, probes, namespace, live[i]);
    }
    if p :| MayServe(peers, probes, namespace, p) && p.url == url {
      WhoIsLive(peers, health, probes, namespace, p);
      var i: nat :| i < |live| && live[i] == p;
      assert UrlsOf(live)[i] == url;
    }
  }

  /** The heaviest of those that are current reads, or of all that may serve when
      none is; nobody only when nobody may. */
  lemma ReaderIs(peers: seq<Peer>, health: Table, probes: seq<Probe>, namespace: string, weigh: string -> nat)
    requires NothingKnown(health)
    ensures var r := ReaderFor(peers, ProbedAll(health, probes), namespace, weigh);
            && (r.None? <==> forall p :: !MayServe(peers, probes, namespace, p))
            && (r.Some? ==> MayServe(peers, probes, namespace, r.value))
            && (r.Some? && (exists p :: IsCurrent(peers, probes, namespace, p)) ==>
                  && IsCurrent(peers, probes, namespace, r.value)
                  && forall p :: IsCurrent(peers, probes, namespace, p) ==> weigh(p.url) <= weigh(r.value.url))
            && (r.Some? && (forall p :: !IsCurrent(peers, probes, namespace, p)) ==>
                  forall p :: MayServe(peers, probes, namespace, p) ==> weigh(p.url) <= weigh(r.value.url))
  {
    var now := ProbedAll(health, probes);
    var live, current := LiveHolders(peers, now, namespace), CurrentHolders(peers, now, namespace);
    ReaderIsBest(peers, now, namespace, weigh);
    forall p
      ensures p in live <==> MayServe(peers, probes, namespace, p)
      ensures p in current <==> IsCurrent(peers, probes, namespace, p)
    {
      WhoIsLive(peers, health, probes, namespace, p);
    }
    if |live| > 0 { assert live[0] in live; }
    if |current| > 0 { assert current[0] in current; }
  }

  /** With every holder found to be up and up to date, the heaviest of all reads. */
  lemma AllUpHeaviestReads(peers: seq<Peer>, health: Table, probes: seq<Probe>, namespace: string, weigh: string -> nat)
    requires NothingKnown(health)
    requires forall p :: p in peers ==> LastFound(probes, p.url) == Some(Some(false))
    requires exists p :: p in peers && p.enabled && Holds(p.stores, namespace)
    ensures var r := ReaderFor(peers, ProbedAll(health, probes), namespace, weigh);
            && r.Some? && r.value in peers && r.value.enabled && Holds(r.value.stores, namespace)
            && forall p :: p in peers && p.enabled && Holds(p.stores, namespace) ==> weigh(p.url) <= weigh(r.value.url)
  {
    ReaderIs(peers, health, probes, namespace, weigh);
    var p :| p in peers && p.enabled && Holds(p.stores, namespace);
    assert IsCurrent(peers, probes, namespace, p);
    forall q | q in peers && q.enabled && Holds(q.stores, namespace) ensures IsCurrent(peers, probes, namespace, q) {}
  }

  /** A peer whose last probe failed reads nothing and is sent nothing. */
  lemma DownIsLeftAlone(peers: seq<Peer>, health: Table, probes: seq<Probe>, namespace: string, maxHops: nat,
                        weigh: string -> nat, url: string)
    requires NothingKnown(health) && LastFound(probes, url) == Some(None)
    ensures var links := Resolve(maxHops, peers, ProbedAll(health, probes), namespace, weigh);
            links.reader != Some(url) && url !in links.live
  {
    TargetsIff(peers, health, probes, namespace, maxHops, weigh, url);
    ReaderIs(peers, health, probes, namespace, weigh);
  }

  /** The namespace is somebody's exactly when an enabled peer stores it, down or not. */
  lemma AnyHolderIff(peers: seq<Peer>, health: Table, namespace: string, maxHops: nat, weigh: string -> nat)
    ensures var links := Resolve(maxHops, peers, health, namespace, weigh);
            && links.maxHops == maxHops
            && (links.anyHolder <==> exists p :: p in peers && p.enabled && Holds(p.stores, namespace))
  {
    var holders := Holders(peers, namespace);
    if |holders| > 0 { assert holders[0] in holders; }
    if p :| p in peers && p.enabled && Holds(p.stores, namespace) { assert p in holders; }
  }

  /** What a request is resolved to read from is that reader. */
  lemma ResolvedReader(peers: seq<Peer>, health: Table, namespace: string, maxHops: nat, weigh: string -> nat)
    ensures var links := Resolve(maxHops, peers, health, namespace, weigh);
            var r := ReaderFor(peers, health, namespace, weigh);
            && (links.reader.Some? <==> r.Some?)
            && (r.Some? ==> r.value in peers && links.reader == Some(r.value.url))
  {
    ReaderIsBest(peers, health, namespace, weigh);
  }
}
