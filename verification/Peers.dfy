/** The peer table and the choice of a reader from it
    (src/galaxy.rs:236-306, 326-363, 637-761). */
module Peers {
  import opened Text
  import opened Options
  import opened Namespaces

  datatype Peer = Peer(url: string, key: string, stores: StoragePolicy, enabled: bool)

  /** What the last probe found. Latency, version and the like are only shown. */
  datatype Health = Health(online: bool, probed: bool, catchingUp: bool)

  const UNPROBED := Health(false, false, false)

  type Table = map<string, Health>

  function Filter<T(!new)>(peers: seq<T>, keep: T -> bool): (r: seq<T>)
    ensures forall p :: p in r <==> p in peers && keep(p)
    ensures |r| <= |peers|
  {
    if |peers| == 0 then []
    else
      var last := peers[|peers| - 1];
      assert peers == peers[..|peers| - 1] + [last];
      Filter(peers[..|peers| - 1], keep) + if keep(last) then [last] else []
  }

  function HolderOf(namespace: string): Peer -> bool
  {
    (p: Peer) => p.enabled && Holds(p.stores, namespace)
  }

  /** Ruled out only by a probe that failed. */
  function LiveHolderOf(health: Table, namespace: string): Peer -> bool
  {
    (p: Peer) => p.enabled && Holds(p.stores, namespace)
                 && (p.url in health ==> health[p.url].online || !health[p.url].probed)
  }

  function CurrentHolderOf(health: Table, namespace: string): Peer -> bool
  {
    (p: Peer) => LiveHolderOf(health, namespace)(p) && !(p.url in health && health[p.url].catchingUp)
  }

  function Holders(peers: seq<Peer>, namespace: string): seq<Peer>
  {
    Filter(peers, HolderOf(namespace))
  }

  function LiveHolders(peers: seq<Peer>, health: Table, namespace: string): seq<Peer>
  {
    Filter(peers, LiveHolderOf(health, namespace))
  }

  function CurrentHolders(peers: seq<Peer>, health: Table, namespace: string): seq<Peer>
  {
    Filter(peers, CurrentHolderOf(health, namespace))
  }

  /** `max_by_key`: the heaviest, and the last of several equally heavy. */
  function Heaviest(peers: seq<Peer>, weigh: string -> nat): (r: Option<Peer>)
    ensures r.None? <==> |peers| == 0
    ensures r.Some? ==> r.value in peers && forall p :: p in peers ==> weigh(p.url) <= weigh(r.value.url)
  {
    if |peers| == 0 then None
    else
      var front, last := peers[..|peers| - 1], peers[|peers| - 1];
      assert peers == front + [last];
      var best := Heaviest(front, weigh);
      if best.None? || weigh(last.url) >= weigh(best.value.url) then Some(last) else best
  }

  /** The place of the heaviest: among equals the one configured last wins. */
  lemma {:induction false} TiesGoToTheLast(peers: seq<Peer>, weigh: string -> nat) returns (i: nat)
    requires |peers| > 0
    ensures i < |peers| && Heaviest(peers, weigh) == Some(peers[i])
    ensures forall j :: i < j < |peers| ==> weigh(peers[j].url) < weigh(peers[i].url)
  {
    var n := |peers| - 1;
    var best := Heaviest(peers[..n], weigh);
    if best.None? || weigh(peers[n].url) >= weigh(best.value.url) {
      i := n;
    } else {
      i := TiesGoToTheLast(peers[..n], weigh);
      forall j | i < j < |peers| ensures weigh(peers[j].url) < weigh(peers[i].url) {
        if j < n { assert peers[j] == peers[..n][j]; }
      }
    }
  }

  /** The holders a read is chosen from: those that are current, or every live
      one when none is. */
  function Pool(peers: seq<Peer>, health: Table, namespace: string): seq<Peer>
  {
    var current := CurrentHolders(peers, health, namespace);
    if |current| == 0 then LiveHolders(peers, health, namespace) else current
  }

  function ReaderFor(peers: seq<Peer>, health: Table, namespace: string, weigh: string -> nat): Option<Peer>
  {
    Heaviest(Pool(peers, health, namespace), weigh)
  }

  /** Who reads: a live holder, never one catching up while another is current,
      and no other such holder is heavier. Nobody only when nobody is live. */
  lemma ReaderIsBest(peers: seq<Peer>, health: Table, namespace: string, weigh: string -> nat)
    ensures var r := ReaderFor(peers, health, namespace, weigh);
            var live, current := LiveHolders(peers, health, namespace), CurrentHolders(peers, health, namespace);
            && (r.None? <==> |live| == 0)
            && (r.Some? ==> r.value in live)
            && (r.Some? && |current| > 0 ==>
                  (r.value in current && forall p :: p in current ==> weigh(p.url) <= weigh(r.value.url)))
            && (r.Some? && |current| == 0 ==> forall p :: p in live ==> weigh(p.url) <= weigh(r.value.url))
  {
    var current, live := CurrentHolders(peers, health, namespace), LiveHolders(peers, health, namespace);
    if |current| > 0 {
      assert current[0] in current && current[0] in live;
    }
  }

  // ---------------------------------------------------------------------
  // A change to one peer moves only the reads that involve it.
  // ---------------------------------------------------------------------

  function Other(url: string): Peer -> bool
  {
    (p: Peer) => p.url != url
  }

  function Without(peers: seq<Peer>, url: string): seq<Peer>
  {
    Filter(peers, Other(url))
  }

  /** Nothing about any peer but `url` differs, its place in the order included. */
  ghost predicate DifferOnlyAt(peers1: seq<Peer>, health1: Table, peers2: seq<Peer>, health2: Table, url: string)
  {
    Without(peers1, url) == Without(peers2, url) && health1 - {url} == health2 - {url}
  }

  lemma {:induction false} FiltersCommute<T(!new)>(s: seq<T>, keep: T -> bool, too: T -> bool)
    ensures Filter(Filter(s, keep), too) == Filter(Filter(s, too), keep)
  {
    if |s| > 0 {
      var front, last := s[..|s| - 1], s[|s| - 1];
      FiltersCommute(front, keep, too);
      FilterLast(s, keep);
      FilterLast(s, too);
      FilterMore(Filter(front, keep), last, too);
      FilterMore(Filter(front, too), last, keep);
    }
  }

  lemma FilterLast<T(!new)>(s: seq<T>, keep: T -> bool)
    requires |s| > 0
    ensures var front, last := s[..|s| - 1], s[|s| - 1];
            Filter(s, keep) == if keep(last) then Filter(front, keep) + [last] else Filter(front, keep)
  {
  }

  lemma FilterMore<T(!new)>(front: seq<T>, last: T, keep: T -> bool)
    ensures Filter(front + [last], keep) == if keep(last) then Filter(front, keep) + [last] else Filter(front, keep)
  {
    FilterLast(front + [last], keep);
    assert (front + [last])[..|front + [last]| - 1] == front;
  }

  lemma FilterWithout(peers: seq<Peer>, keep: Peer -> bool, url: string)
    ensures Without(Filter(peers, keep), url) == Filter(Without(peers, url), keep)
  {
    FiltersCommute(peers, keep, Other(url));
  }

  lemma FilterAppend<T(!new)>(front: seq<T>, last: T, keep: T -> bool)
    ensures Filter(front + [last], keep) == Filter(front, keep) + if keep(last) then [last] else []
  {
    assert (front + [last])[..|front + [last]| - 1] == front;
  }

  lemma {:induction false} FilterAgree(peers: seq<Peer>, k1: Peer -> bool, k2: Peer -> bool)
    requires forall p :: p in peers ==> k1(p) == k2(p)
    ensures Filter(peers, k1) == Filter(peers, k2)
  {
    if |peers| > 0 { FilterAgree(peers[..|peers| - 1], k1, k2); }
  }

  /** A winner other than `url` also wins where `url` does not run. */
  lemma {:induction false} WinnerWithout(peers: seq<Peer>, weigh: string -> nat, url: string)
    requires Heaviest(peers, weigh).Some? && Heaviest(peers, weigh).value.url != url
    ensures Heaviest(Without(peers, url), weigh) == Heaviest(peers, weigh)
  {
    var front, last := peers[..|peers| - 1], peers[|peers| - 1];
    assert peers == front + [last];
    var best := Heaviest(front, weigh);
    if best.Some? && best.value.url != url { WinnerWithout(front, weigh, url); }
    if last.url == url {
      assert Without(peers, url) == Without(front, url);
    } else {
      var rest := Without(front, url);
      assert Without(peers, url) == rest + [last];
      assert (rest + [last])[..|rest + [last]| - 1] == rest;
    }
  }

  lemma SameHealthElsewhere(health1: Table, health2: Table, url: string, other: string)
    requires health1 - {url} == health2 - {url} && other != url
    ensures other in health1 <==> other in health2
    ensures other in health1 ==> health1[other] == health2[other]
  {
    assert other in health1 <==> other in health1 - {url};
    assert other in health2 <==> other in health2 - {url};
    if other in health1 { assert (health1 - {url})[other] == (health2 - {url})[other]; }
  }

  lemma PoolWithout(peers1: seq<Peer>, health1: Table, peers2: seq<Peer>, health2: Table, url: string,
                    namespace: string)
    requires DifferOnlyAt(peers1, health1, peers2, health2, url)
    ensures Without(LiveHolders(peers1, health1, namespace), url) ==
            Without(LiveHolders(peers2, health2, namespace), url)
    ensures Without(CurrentHolders(peers1, health1, namespace), url)
            == Without(CurrentHolders(peers2, health2, namespace), url)
  {
    FilterWithout(peers1, LiveHolderOf(health1, namespace), url);
    FilterWithout(peers2, LiveHolderOf(health2, namespace), url);
    FilterWithout(peers1, CurrentHolderOf(health1, namespace), url);
    FilterWithout(peers2, CurrentHolderOf(health2, namespace), url);
    forall p | p in Without(peers1, url)
      ensures LiveHolderOf(health1, namespace)(p) == LiveHolderOf(health2, namespace)(p)
      ensures CurrentHolderOf(health1, namespace)(p) == CurrentHolderOf(health2, namespace)(p)
    {
      SameHealthElsewhere(health1, health2, url, p.url);
    }
    FilterAgree(Without(peers1, url), LiveHolderOf(health1, namespace), LiveHolderOf(health2, namespace));
    FilterAgree(Without(peers1, url), CurrentHolderOf(health1, namespace), CurrentHolderOf(health2, namespace));
  }

  ghost predicate Serves(r: Option<Peer>, url: string)
  {
    r.Some? && r.value.url == url
  }

  /** Unless `url` serves, the reader is decided without it. */
  lemma ReaderWithout(peers: seq<Peer>, health: Table, namespace: string, weigh: string -> nat, url: string)
    requires !Serves(ReaderFor(peers, health, namespace, weigh), url)
    ensures var current, live := Without(CurrentHolders(peers, health, namespace), url),
                                 Without(LiveHolders(peers, health, namespace), url);
            ReaderFor(peers, health, namespace, weigh) == Heaviest(if |current| > 0 then current else live, weigh)
  {
    var pool := Pool(peers, health, namespace);
    var current := CurrentHolders(peers, health, namespace);
    if |pool| > 0 {
      WinnerWithout(pool, weigh, url);
    } else {
      assert Without(pool, url) == [];
    }
    if |current| > 0 {
      assert Heaviest(current, weigh).value in Without(current, url);
    } else {
      assert Without(current, url) == [];
    }
  }

  /** A change to one peer, whatever it is, changes who reads a value only if
      that peer read it before or reads it now. Ties, and the case where every
      live holder is catching up, are included. */
  lemma MinimalDisruption(peers1: seq<Peer>, health1: Table, peers2: seq<Peer>, health2: Table, url: string,
                          namespace: string, weigh: string -> nat)
    requires DifferOnlyAt(peers1, health1, peers2, health2, url)
    ensures var r1, r2 := ReaderFor(peers1, health1, namespace, weigh), ReaderFor(peers2, health2, namespace, weigh);
            r1 == r2 || Serves(r1, url) || Serves(r2, url)
  {
    PoolWithout(peers1, health1, peers2, health2, url, namespace);
    var r1, r2 := ReaderFor(peers1, health1, namespace, weigh), ReaderFor(peers2, health2, namespace, weigh);
    if !Serves(r1, url) && !Serves(r2, url) {
      ReaderWithout(peers1, health1, namespace, weigh, url);
      ReaderWithout(peers2, health2, namespace, weigh, url);
    }
  }

  // ---------------------------------------------------------------------
  // The table, edited while the server runs.
  // ---------------------------------------------------------------------

  function TrimEndSlashes(s: string): string
  {
    if |s| > 0 && s[|s| - 1] == '/' then TrimEndSlashes(s[..|s| - 1]) else s
  }

  function CleanUrl(url: string): string
  {
    TrimEndSlashes(Trim(url))
  }

  function StripAll(s: string, prefix: string): string
    requires |prefix| > 0
    decreases |s|
  {
    if prefix <= s then StripAll(s[|prefix|..], prefix) else s
  }

  /** A URL without the blanks around it and the slashes after it. */
  lemma CleanUrlIs(url: string)
    ensures var clean, trimmed := CleanUrl(url), Trim(url);
            && |clean| <= |trimmed| && clean == trimmed[..|clean|]
            && (forall k :: |clean| <= k < |trimmed| ==> trimmed[k] == '/')
            && (|clean| > 0 ==> clean[|clean| - 1] != '/')
  {
    EndSlashesGo(Trim(url));
  }

  lemma {:induction false} EndSlashesGo(s: string)
    ensures var r := TrimEndSlashes(s);
            && |r| <= |s| && r == s[..|r|]
            && (forall k :: |r| <= k < |s| ==> s[k] == '/')
            && (|r| > 0 ==> r[|r| - 1] != '/')
  {
    if |s| > 0 && s[|s| - 1] == '/' { EndSlashesGo(s[..|s| - 1]); }
  }

  function Repeated(prefix: string, k: nat): string
  {
    if k == 0 then "" else prefix + Repeated(prefix, k - 1)
  }

  lemma {:induction false} StripAllIs(s: string, prefix: string) returns (k: nat)
    requires |prefix| > 0
    ensures s == Repeated(prefix, k) + StripAll(s, prefix) && !(prefix <= StripAll(s, prefix))
    decreases |s|
  {
    if prefix <= s {
      var j := StripAllIs(s[|prefix|..], prefix);
      PrefixAgain(prefix, s, Repeated(prefix, j), StripAll(s[|prefix|..], prefix));
      k := j + 1;
    } else {
      k := 0;
    }
  }

  lemma PrefixAgain(prefix: string, s: string, more: string, rest: string)
    requires prefix <= s && s[|prefix|..] == more + rest
    ensures s == prefix + more + rest
  {
    assert s == prefix + s[|prefix|..];
  }

  function Cleaned(arriving: Peer): Peer
  {
    arriving.(url := CleanUrl(arriving.url), key := Trim(arriving.key))
  }

  datatype AddOutcome = Added(peer: Peer) | Invalid | AlreadyThere

  ghost predicate Distinct(peers: seq<Peer>)
  {
    forall i, j :: 0 <= i < j < |peers| ==> peers[i].url != peers[j].url
  }

  lemma {:induction false} WithoutMissing(peers: seq<Peer>, url: string)
    requires forall p :: p in peers ==> p.url != url
    ensures Without(peers, url) == peers
  {
    if |peers| > 0 {
      assert peers == peers[..|peers| - 1] + [peers[|peers| - 1]];
      WithoutMissing(peers[..|peers| - 1], url);
    }
  }

  lemma AppendMissing(peers: seq<Peer>, peer: Peer)
    requires Distinct(peers) && forall p :: p in peers ==> p.url != peer.url
    ensures Distinct(peers + [peer]) && Without(peers + [peer], peer.url) == Without(peers, peer.url)
  {
    FilterAppend(peers, peer, Other(peer.url));
  }

  lemma {:induction false} WithoutReplaced(peers: seq<Peer>, i: nat, p: Peer)
    requires i < |peers| && peers[i].url == p.url
    ensures Without(peers[i := p], p.url) == Without(peers, p.url)
  {
    var front := peers[..|peers| - 1];
    if i < |front| {
      WithoutReplaced(front, i, p);
      assert peers[i := p][..|peers| - 1] == front[i := p];
    } else {
      assert peers[i := p][..|peers| - 1] == front;
    }
  }

  lemma {:induction false} WithoutDistinct(peers: seq<Peer>, url: string)
    requires Distinct(peers)
    ensures Distinct(Without(peers, url))
  {
    if |peers| > 0 {
      var front, last := peers[..|peers| - 1], peers[|peers| - 1];
      WithoutDistinct(front, url);
      forall p | p in Without(front, url) ensures p.url != last.url {
        assert p in front;
      }
    }
  }

  function Urls(peers: seq<Peer>): set<string>
  {
    set i | 0 <= i < |peers| :: peers[i].url
  }

  /** A URL a peer can be reached at: a scheme and something after it. */
  predicate UsableUrl(url: string)
  {
    && ("http://" <= url || "https://" <= url)
    && |StripAll(StripAll(url, "https://"), "http://")| > 0
  }

  /** Any host after either scheme will do, and nothing else. */
  lemma UsableUrlIs(host: string)
    requires |host| > 0 && !("http://" <= host) && !("https://" <= host)
    ensures UsableUrl("http://" + host) && UsableUrl("https://" + host) && !UsableUrl(host)
    ensures !UsableUrl("http://") && !UsableUrl("https://")
  {
    assert ("http://" + host)[7..] == host && ("https://" + host)[8..] == host;
    assert !("https://" <= "http://" + host) by { assert ("http://" + host)[4] != "https://"[4]; }
    assert "http://"[7..] == "" && "https://"[8..] == "";
    assert !("https://" <= "http://") && !("http://" <= "");
  }

  /** What a probe that answered, catching up or not, or that failed, leaves. */
  function Probed(health: Table, url: string, answered: Option<bool>): Table
  {
    var behind := url in health && health[url].catchingUp;
    health[url := Health(answered.Some?, true, if answered.Some? then answered.value else behind)]
  }

  class PeerTable {
    var peers: seq<Peer>
    var health: Table
    const fixed: seq<string>

    ghost predicate Valid()
      reads this
    {
      Distinct(peers)
    }

    constructor (peers: seq<Peer>, fixed: seq<string>)
      requires Distinct(peers)
      ensures Valid() && this.peers == peers && this.fixed == fixed
      ensures health == map u | u in Urls(peers) :: UNPROBED
    {
      this.peers, this.fixed := peers, fixed;
      this.health := map u | u in Urls(peers) :: UNPROBED;
    }

    predicate IsFixed(url: string)
    {
      CleanUrl(url) in fixed
    }

    method IndexOf(url: string) returns (found: Option<nat>)
      ensures found.Some? ==> found.value < |peers| && peers[found.value].url == url
      ensures found.None? ==> forall p :: p in peers ==> p.url != url
    {
      for i := 0 to |peers|
        invariant forall j :: 0 <= j < i ==> peers[j].url != url
      {
        if peers[i].url == url { return Some(i); }
      }
      return None;
    }

    /** What a probe found: it answered, catching up or not, or it failed. */
    method RecordProbe(url: string, answered: Option<bool>)
      requires Valid()
      modifies this`health
      ensures Valid() && DifferOnlyAt(old(peers), old(health), peers, health, url)
      ensures health == Probed(old(health), url, answered)
      ensures url in health && health[url].probed && health[url].online == answered.Some?
      ensures health[url].catchingUp == if answered.Some? then answered.value
                                        else url in old(health) && old(health)[url].catchingUp
    {
      var entry := if url in health then health[url] else UNPROBED;
      entry := entry.(probed := true);
      entry := if answered.Some? then entry.(online := true, catchingUp := answered.value)
               else entry.(online := false);
      health := health[url := entry];
      assert health - {url} == old(health) - {url};
    }

    method AddPeer(arriving: Peer, isOwnAddress: string -> bool) returns (outcome: AddOutcome)
      requires Valid()
      modifies this`peers
      ensures Valid()
      ensures DifferOnlyAt(old(peers), old(health), peers, health, CleanUrl(arriving.url))
      ensures var peer := Cleaned(arriving);
              var known := exists p :: p in old(peers) && p.url == peer.url;
              && (outcome.Invalid? <==> !UsableUrl(peer.url) || |peer.key| == 0 || isOwnAddress(peer.url))
              && (outcome.AlreadyThere? <==> !outcome.Invalid? && (known || IsFixed(peer.url)))
              && (outcome.Added? ==> outcome.peer == peer && peers == old(peers) + [peer])
              && (!outcome.Added? ==> peers == old(peers))
    {
      var peer := Cleaned(arriving);
      if !UsableUrl(peer.url) || |peer.key| == 0 || isOwnAddress(peer.url) { return Invalid; }
      outcome := AddUsable(peer);
    }

    method AddUsable(peer: Peer) returns (outcome: AddOutcome)
      requires Valid()
      modifies this`peers
      ensures Valid() && DifferOnlyAt(old(peers), old(health), peers, health, peer.url)
      ensures !outcome.Invalid?
      ensures outcome.AlreadyThere? <==> IsFixed(peer.url) || exists p :: p in old(peers) && p.url == peer.url
      ensures outcome.Added? ==> outcome.peer == peer && peers == old(peers) + [peer]
      ensures !outcome.Added? ==> peers == old(peers)
    {
      var known := IndexOf(peer.url);
      if known.Some? {
        assert peers[known.value] in peers;
        return AlreadyThere;
      }
      if IsFixed(peer.url) { return AlreadyThere; }
      AppendMissing(peers, peer);
      peers := peers + [peer];
      outcome := Added(peer);
    }

    method RemovePeer(named: string) returns (removed: bool)
      requires Valid()
      modifies this
      ensures Valid()
      ensures DifferOnlyAt(old(peers), old(health), peers, health, CleanUrl(named))
      ensures forall p :: p in peers ==> p.url != CleanUrl(named)
      ensures removed <==> exists p :: p in old(peers) && p.url == CleanUrl(named)
      ensures removed ==> CleanUrl(named) !in health
      ensures !removed ==> peers == old(peers) && health == old(health)
    {
      var url := CleanUrl(named);
      var found := IndexOf(url);
      removed := found.Some?;
      if removed {
        WithoutDistinct(peers, url);
        WithoutMissing(Without(peers, url), url);
        peers := Without(peers, url);
        assert health - {url} - {url} == health - {url};
        health := health - {url};
      }
    }

    method SetEnabled(named: string, enabled: bool) returns (updated: Option<Peer>)
      requires Valid()
      modifies this
      ensures Valid()
      ensures DifferOnlyAt(old(peers), old(health), peers, health, CleanUrl(named))
      ensures updated.Some? <==> exists p :: p in old(peers) && p.url == CleanUrl(named)
      ensures updated.Some? ==>
                && (exists i: nat :: i < |old(peers)| && old(peers)[i].url == CleanUrl(named)
                      && updated.value == old(peers)[i].(enabled := enabled)
                      && peers == old(peers)[i := updated.value])
                && CleanUrl(named) !in health
      ensures updated.None? ==> peers == old(peers) && health == old(health)
    {
      var url := CleanUrl(named);
      var found := IndexOf(url);
      if found.None? { return None; }
      var i := found.value;
      var peer := peers[i].(enabled := enabled);
      WithoutReplaced(peers, i, peer);
      peers := peers[i := peer];
      assert peers[i] == peer;
      assert health - {url} - {url} == health - {url};
      health := health - {url};
      updated := Some(peer);
    }

    method UpdatePeer(arriving: Peer) returns (updated: Option<Peer>)
      requires Valid()
      modifies this`peers
      ensures Valid()
      ensures DifferOnlyAt(old(peers), old(health), peers, health, CleanUrl(arriving.url))
      ensures updated.Some? <==>
              |Trim(arriving.key)| > 0 && exists p :: p in old(peers) && p.url == CleanUrl(arriving.url)
      ensures updated.Some? ==>
                && updated.value == Cleaned(arriving)
                && exists i: nat :: i < |old(peers)| && old(peers)[i].url == CleanUrl(arriving.url)
                                    && peers == old(peers)[i := updated.value]
      ensures updated.None? ==> peers == old(peers)
    {
      var peer := Cleaned(arriving);
      if |peer.key| == 0 { return None; }
      updated := Replace(peer);
    }

    method Replace(peer: Peer) returns (updated: Option<Peer>)
      requires Valid()
      modifies this`peers
      ensures Valid() && DifferOnlyAt(old(peers), old(health), peers, health, peer.url)
      ensures updated.Some? <==> exists p :: p in old(peers) && p.url == peer.url
      ensures updated.Some? ==>
                && updated.value == peer
                && exists i: nat :: i < |old(peers)| && old(peers)[i].url == peer.url && peers == old(peers)[i := peer]
      ensures updated.None? ==> peers == old(peers)
    {
      var found := IndexOf(peer.url);
      if found.None? { return None; }
      var i := found.value;
      WithoutReplaced(peers, i, peer);
      peers := peers[i := peer];
      assert peers[i] == peer;
      updated := Some(peer);
    }
  }
}
