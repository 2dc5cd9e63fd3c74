/** Answering a batch of reads, some here and some by mirrors
    (src/handlers.rs:1774-1934). */
module BulkRead {
  import opened Options
  import opened Namespaces
  import opened Text

  datatype Item = Item(namespace: string, value: string, noshadow: bool)

  datatype Reason = TooManyHops | NoHolder | AllDown | NoAnswer(url: string) | NotFilled

  datatype Answer<+R> = Found(entry: R) | Relayed(entry: R) | Failed(reason: Reason)

  datatype Route = To(url: string) | Nowhere(reason: Reason)

  /** The server a batch arrived at. `ask` is what a mirror sends back for a
      sub-batch: nothing if it could not be reached or read, and otherwise a
      list of any length. */
  datatype Context<!R> = Context(
    hasGalaxy: bool,
    holds: string -> bool,
    hops: Option<nat>,
    readHere: Item -> R,
    readerUrl: (string, string) -> Route,
    ask: (string, seq<Item>) -> Option<seq<R>>)

  predicate Elsewhere<R>(c: Context<R>, item: Item)
  {
    c.hasGalaxy && !c.holds(item.namespace) && !IsInternal(item.namespace)
  }

  function RouteOf<R>(c: Context<R>, item: Item): Route
  {
    c.readerUrl(item.namespace, item.value)
  }

  /** Whether `item` is sent to the mirror `url`. */
  predicate GoesTo<R>(c: Context<R>, item: Item, url: string)
  {
    Elsewhere(c, item) && c.hops.Some? && RouteOf(c, item) == To(url)
  }

  predicate Forwarded<R>(c: Context<R>, item: Item)
  {
    Elsewhere(c, item) && c.hops.Some? && RouteOf(c, item).To?
  }

  /** The items of the batch a mirror is to answer, by position, in order. */
  function IndicesFor<R>(c: Context<R>, items: seq<Item>, url: string): (r: seq<nat>)
    ensures forall k :: 0 <= k < |r| ==> r[k] < |items|
  {
    if |items| == 0 then []
    else
      var n := |items| - 1;
      IndicesFor(c, items[..n], url) + if GoesTo(c, items[n], url) then [n] else []
  }

  function SubBatch(items: seq<Item>, indices: seq<nat>): (r: seq<Item>)
    requires forall k :: 0 <= k < |indices| ==> indices[k] < |items|
    ensures |r| == |indices|
    ensures forall k :: 0 <= k < |r| ==> r[k] == items[indices[k]].(noshadow := true)
  {
    seq(|indices|, k requires 0 <= k < |indices| => items[indices[k]].(noshadow := true))
  }

  /** A mirror's answer to everything it was sent. Sending needs a hop to spend. */
  function Reply<R>(c: Context<R>, items: seq<Item>, url: string): Option<seq<R>>
  {
    if c.hops == Some(0) then None else c.ask(url, SubBatch(items, IndicesFor(c, items, url)))
  }

  function Pick<R>(url: string, reply: Option<seq<R>>, position: nat): Answer<R>
  {
    if reply.Some? && position < |reply.value| then Relayed(reply.value[position]) else Failed(NoAnswer(url))
  }

  /** What position `i` of the answer should be, said item by item: read here;
      or a reason; or what the one mirror named for it sent back in the place
      it has among that mirror's items. */
  function Expected<R>(c: Context<R>, items: seq<Item>, i: nat): Answer<R>
    requires i < |items|
  {
    var item := items[i];
    if !Elsewhere(c, item) then Found(c.readHere(item))
    else if c.hops.None? then Failed(TooManyHops)
    else match RouteOf(c, item)
      case Nowhere(reason) => Failed(reason)
      case To(url) => Pick(url, Reply(c, items, url), |IndicesFor(c, items[..i], url)|)
  }

  // ---------------------------------------------------------------------
  // The groups partition the forwarded items.
  // ---------------------------------------------------------------------

  lemma {:induction false} IndicesAreThose<R>(c: Context<R>, items: seq<Item>, url: string)
    ensures forall i :: i in IndicesFor(c, items, url) <==> 0 <= i < |items| && GoesTo(c, items[i], url)
    ensures forall j, k :: 0 <= j < k < |IndicesFor(c, items, url)| ==>
              IndicesFor(c, items, url)[j] < IndicesFor(c, items, url)[k]
  {
    if |items| > 0 {
      var n := |items| - 1;
      IndicesAreThose(c, items[..n], url);
      assert forall k :: 0 <= k < |IndicesFor(c, items[..n], url)| ==> IndicesFor(c, items[..n], url)[k] < n;
    }
  }

  /** An item's place among its mirror's items is how many of them came before. */
  lemma {:induction false} PlaceInGroup<R>(c: Context<R>, items: seq<Item>, url: string, i: nat)
    requires i < |items| && GoesTo(c, items[i], url)
    ensures |IndicesFor(c, items[..i], url)| < |IndicesFor(c, items, url)|
    ensures IndicesFor(c, items, url)[|IndicesFor(c, items[..i], url)|] == i
  {
    var n := |items| - 1;
    if i < n {
      PlaceInGroup(c, items[..n], url, i);
      assert items[..n][..i] == items[..i];
    }
  }

  /** The same seen from the group. */
  lemma GroupMember<R>(c: Context<R>, items: seq<Item>, url: string, k: nat)
    requires k < |IndicesFor(c, items, url)|
    ensures var i := IndicesFor(c, items, url)[k];
            && i < |items| && GoesTo(c, items[i], url)
            && |IndicesFor(c, items[..i], url)| == k
  {
    IndicesAreThose(c, items, url);
    var indices := IndicesFor(c, items, url);
    var i := indices[k];
    assert i in indices;
    PlaceInGroup(c, items, url, i);
    StrictlyOnce(indices, |IndicesFor(c, items[..i], url)|, k);
  }

  lemma StrictlyOnce(s: seq<nat>, j: nat, k: nat)
    requires forall a, b :: 0 <= a < b < |s| ==> s[a] < s[b]
    requires j < |s| && k < |s| && s[j] == s[k]
    ensures j == k
  {
  }

  datatype Group = Group(url: string, indices: seq<nat>)

  /** One group for each mirror that is sent anything, holding exactly its items. */
  ghost predicate GroupsOf<R>(c: Context<R>, items: seq<Item>, groups: seq<Group>)
  {
    && (forall g :: g in groups ==> |g.indices| > 0 && g.indices == IndicesFor(c, items, g.url))
    && (forall j, k :: 0 <= j < k < |groups| ==> groups[j].url != groups[k].url)
    && (forall i, url :: 0 <= i < |items| && GoesTo(c, items[i], url) ==> HasGroup(groups, url))
  }

  ghost predicate HasGroup(groups: seq<Group>, url: string)
  {
    exists k :: 0 <= k < |groups| && groups[k].url == url
  }

  // ---------------------------------------------------------------------
  // The two passes.
  // ---------------------------------------------------------------------

  method FindGroup(groups: seq<Group>, url: string) returns (found: Option<nat>)
    ensures found.Some? ==> found.value < |groups| && groups[found.value].url == url
    ensures found.None? ==> !HasGroup(groups, url)
  {
    for k := 0 to |groups|
      invariant forall j :: 0 <= j < k ==> groups[j].url != url
    {
      if groups[k].url == url { return Some(k); }
    }
    return None;
  }

  method AddToGroup<R>(ghost c: Context<R>, ghost items: seq<Item>, groups: seq<Group>, url: string, index: nat)
    returns (grown: seq<Group>)
    requires |items| == index + 1 && GoesTo(c, items[index], url)
    requires GroupsOf(c, items[..index], groups)
    ensures GroupsOf(c, items, grown)
  {
    var found := FindGroup(groups, url);
    if found.Some? {
      var k := found.value;
      grown := groups[k := Group(url, groups[k].indices + [index])];
      GroupGrown(c, items, groups, k);
    } else {
      grown := groups + [Group(url, [index])];
      GroupStarted(c, items, groups, url);
    }
  }

  lemma OthersUnmoved<R>(c: Context<R>, items: seq<Item>, url: string, other: string)
    requires |items| > 0 && GoesTo(c, items[|items| - 1], url)
    ensures IndicesFor(c, items, other) ==
            IndicesFor(c, items[..|items| - 1], other) + if other == url then [|items| - 1] else []
  {
  }

  lemma GroupGrown<R>(c: Context<R>, items: seq<Item>, groups: seq<Group>, k: nat)
    requires |items| > 0 && k < |groups| && GoesTo(c, items[|items| - 1], groups[k].url)
    requires GroupsOf(c, items[..|items| - 1], groups)
    ensures GroupsOf(c, items, groups[k := Group(groups[k].url, groups[k].indices + [|items| - 1])])
  {
    var n, url := |items| - 1, groups[k].url;
    var grown := groups[k := Group(url, groups[k].indices + [n])];
    forall j | 0 <= j < |grown|
      ensures |grown[j].indices| > 0 && grown[j].indices == IndicesFor(c, items, grown[j].url)
    {
      OthersUnmoved(c, items, url, grown[j].url);
      assert groups[j] in groups;
    }
    assert forall u :: HasGroup(groups, u) ==> HasGroup(grown, u) by {
      forall u | HasGroup(groups, u) ensures HasGroup(grown, u) {
        KeptGroup(groups, grown, u);
      }
    }
    assert grown[k].url == url;
    EveryoneGrouped(c, items, url, groups, grown);
  }

  lemma KeptGroup(groups: seq<Group>, grown: seq<Group>, url: string)
    requires HasGroup(groups, url) && |groups| <= |grown|
    requires forall j :: 0 <= j < |groups| ==> grown[j].url == groups[j].url
    ensures HasGroup(grown, url)
  {
    var j: nat :| j < |groups| && groups[j].url == url;
    assert grown[j].url == url;
  }

  lemma EveryoneGrouped<R>(c: Context<R>, items: seq<Item>, url: string, groups: seq<Group>, grown: seq<Group>)
    requires |items| > 0 && GoesTo(c, items[|items| - 1], url) && GroupsOf(c, items[..|items| - 1], groups)
    requires HasGroup(grown, url) && forall u :: HasGroup(groups, u) ==> HasGroup(grown, u)
    ensures forall i, u :: 0 <= i < |items| && GoesTo(c, items[i], u) ==> HasGroup(grown, u)
  {
    var front := items[..|items| - 1];
    forall i, u | 0 <= i < |items| && GoesTo(c, items[i], u) ensures HasGroup(grown, u) {
      assert i < |front| ==> GoesTo(c, front[i], u);
    }
  }

  /** A mirror with no group has been sent nothing. */
  lemma NothingFor<R>(c: Context<R>, items: seq<Item>, groups: seq<Group>, url: string)
    requires GroupsOf(c, items, groups) && !HasGroup(groups, url)
    ensures IndicesFor(c, items, url) == []
  {
    IndicesAreThose(c, items, url);
    var indices := IndicesFor(c, items, url);
    assert forall i :: 0 <= i < |items| ==> !GoesTo(c, items[i], url);
    EmptyElements(indices);
    assert forall i :: i !in indices;
    assert Elements(indices) == {};
  }

  lemma GroupStarted<R>(c: Context<R>, items: seq<Item>, groups: seq<Group>, url: string)
    requires |items| > 0 && GoesTo(c, items[|items| - 1], url) && !HasGroup(groups, url)
    requires GroupsOf(c, items[..|items| - 1], groups)
    ensures GroupsOf(c, items, groups + [Group(url, [|items| - 1])])
  {
    var n := |items| - 1;
    var grown := groups + [Group(url, [n])];
    NothingFor(c, items[..n], groups, url);
    forall j | 0 <= j < |grown|
      ensures |grown[j].indices| > 0 && grown[j].indices == IndicesFor(c, items, grown[j].url)
    {
      OthersUnmoved(c, items, url, grown[j].url);
      assert j < |groups| ==> groups[j] in groups && groups[j].url != url;
    }
    assert grown[|groups|].url == url;
    assert forall u :: HasGroup(groups, u) ==> HasGroup(grown, u) by {
      forall u | HasGroup(groups, u) ensures HasGroup(grown, u) {
        KeptGroup(groups, grown, u);
      }
    }
    EveryoneGrouped(c, items, url, groups, grown);
  }

  lemma GroupsUnmoved<R>(c: Context<R>, items: seq<Item>, groups: seq<Group>)
    requires |items| > 0 && !Forwarded(c, items[|items| - 1])
    requires GroupsOf(c, items[..|items| - 1], groups)
    ensures GroupsOf(c, items, groups)
  {
    var n := |items| - 1;
    forall i, u | 0 <= i < |items| && GoesTo(c, items[i], u) ensures HasGroup(groups, u) {
      assert GoesTo(c, items[..n][i], u);
    }
  }

  /** Items searched for through this server, recorded here rather than on the mirror. */
  function Shadows<R>(c: Context<R>, items: seq<Item>): seq<(string, string)>
  {
    if |items| == 0 then []
    else
      var n := |items| - 1;
      Shadows(c, items[..n]) +
      if Forwarded(c, items[n]) && !items[n].noshadow then [(items[n].namespace, items[n].value)] else []
  }

  /** What there is to say of an item before any mirror is asked. */
  function AtOnce<R>(c: Context<R>, item: Item): Option<Answer<R>>
  {
    if !Elsewhere(c, item) then Some(Found(c.readHere(item)))
    else if c.hops.None? then Some(Failed(TooManyHops))
    else match RouteOf(c, item)
      case Nowhere(reason) => Some(Failed(reason))
      case To(_) => None
  }

  lemma AtOnceIsExpected<R>(c: Context<R>, items: seq<Item>, i: nat)
    requires i < |items|
    ensures AtOnce(c, items[i]) == if Forwarded(c, items[i]) then None else Some(Expected(c, items, i))
  {
  }

  /** Read what is here, give reasons where there are any, and group the rest. */
  method Scatter<R(0)>(c: Context<R>, items: seq<Item>)
    returns (answers: array<Option<Answer<R>>>, groups: seq<Group>, shadows: seq<(string, string)>)
    ensures fresh(answers) && answers.Length == |items|
    ensures GroupsOf(c, items, groups) && shadows == Shadows(c, items)
    ensures forall i :: 0 <= i < |items| ==> answers[i] == AtOnce(c, items[i])
  {
    answers := new Option<Answer<R>>[|items|](_ => None);
    groups, shadows := [], [];
    for index := 0 to |items|
      invariant GroupsOf(c, items[..index], groups) && shadows == Shadows(c, items[..index])
      invariant forall i :: 0 <= i < |items| ==> answers[i] == if i < index then AtOnce(c, items[i]) else None
    {
      var answer;
      assert items[..index + 1][..index] == items[..index];
      answer, groups, shadows := Sort(c, items[..index + 1], items[index], index, groups, shadows);
      answers[index] := answer;
    }
    assert items[..|items|] == items;
  }

  /** One item: answered at once, or put into its mirror's group. */
  method Sort<R>(c: Context<R>, ghost so: seq<Item>, item: Item, index: nat, groups: seq<Group>,
                 shadows: seq<(string, string)>)
    returns (answer: Option<Answer<R>>, grown: seq<Group>, noted: seq<(string, string)>)
    requires |so| == index + 1 && so[index] == item
    requires GroupsOf(c, so[..index], groups) && shadows == Shadows(c, so[..index])
    ensures answer == AtOnce(c, item)
    ensures GroupsOf(c, so, grown) && noted == Shadows(c, so)
  {
    grown, noted := groups, shadows;
    if !Elsewhere(c, item) {
      answer := Some(Found(c.readHere(item)));
      GroupsUnmoved(c, so, groups);
    } else if c.hops.None? {
      answer := Some(Failed(TooManyHops));
      GroupsUnmoved(c, so, groups);
    } else {
      var route := RouteOf(c, item);
      if route.To? {
        answer := None;
        if !item.noshadow { noted := noted + [(item.namespace, item.value)]; }
        grown := AddToGroup(c, so, groups, route.url, index);
      } else {
        answer := Some(Failed(route.reason));
        GroupsUnmoved(c, so, groups);
      }
    }
  }

  /** The first `position` of a group's answers are in place, all else as it was. */
  ghost predicate PlacedUpTo<R>(c: Context<R>, items: seq<Item>, indices: seq<nat>, position: nat,
                                was: seq<Option<Answer<R>>>, now: seq<Option<Answer<R>>>)
    requires position <= |indices| && |items| == |was| == |now|
  {
    forall i :: 0 <= i < |items| ==>
      now[i] == if i in indices[..position] then Some(Expected(c, items, i)) else was[i]
  }

  lemma PlaceNext<R>(c: Context<R>, items: seq<Item>, indices: seq<nat>, position: nat,
                     was: seq<Option<Answer<R>>>, now: seq<Option<Answer<R>>>)
    requires position < |indices| && indices[position] < |items| && |items| == |was| == |now|
    requires PlacedUpTo(c, items, indices, position, was, now)
    ensures PlacedUpTo(c, items, indices, position + 1, was,
                       now[indices[position] := Some(Expected(c, items, indices[position]))])
  {
    assert indices[..position + 1] == indices[..position] + [indices[position]];
  }

  /** Put one mirror's answers where they belong. */
  method Gather<R>(c: Context<R>, items: seq<Item>, group: Group, answers: array<Option<Answer<R>>>)
    requires answers.Length == |items|
    requires group.indices == IndicesFor(c, items, group.url)
    modifies answers
    ensures forall i :: 0 <= i < |items| ==>
              answers[i] == if GoesTo(c, items[i], group.url) then Some(Expected(c, items, i)) else old(answers[i])
  {
    var url, indices := group.url, group.indices;
    ghost var was := answers[..];
    var reply := if c.hops == Some(0) then None else c.ask(url, SubBatch(items, indices));
    for position := 0 to |indices|
      invariant PlacedUpTo(c, items, indices, position, was, answers[..])
    {
      var index := indices[position];
      GroupMember(c, items, url, position);
      PlaceNext(c, items, indices, position, was, answers[..]);
      ghost var now := answers[..];
      answers[index] := Some(Pick(url, reply, position));
      assert answers[..] == now[index := Some(Expected(c, items, index))];
    }
    assert indices[..|indices|] == indices;
    IndicesAreThose(c, items, url);
  }

  /** A server outside any galaxy, or one that holds the namespace, or any server for
      its own namespaces, reads here; otherwise there is a reason, or a mirror's word. */
  ghost predicate AnsweredWell<R>(c: Context<R>, item: Item, answer: Answer<R>)
  {
    if !c.hasGalaxy || c.holds(item.namespace) || IsInternal(item.namespace) then answer == Found(c.readHere(item))
    else if c.hops.None? then answer == Failed(TooManyHops)
    else match c.readerUrl(item.namespace, item.value)
      case Nowhere(reason) => answer == Failed(reason)
      case To(url) => answer == Failed(NoAnswer(url)) || (answer.Relayed? && c.hops != Some(0))
  }

  /** Items sent to a mirror are those it was named for and that are not read here. */
  ghost predicate AskedOf<R>(c: Context<R>, item: Item, url: string)
  {
    && c.hasGalaxy && !c.holds(item.namespace) && !IsInternal(item.namespace) && c.hops.Some?
    && c.readerUrl(item.namespace, item.value) == To(url)
  }

  /** The batch is answered in request order, nothing dropped, repeated or moved. */
  method DoReadBulk<R(0)>(c: Context<R>, items: seq<Item>)
    returns (result: seq<Answer<R>>, groups: seq<Group>, shadows: seq<(string, string)>)
    ensures |result| == |items|
    ensures forall i :: 0 <= i < |items| ==> result[i] == Expected(c, items, i)
    ensures forall i :: 0 <= i < |items| ==> AnsweredWell(c, items[i], result[i])
    ensures GroupsOf(c, items, groups) && shadows == Shadows(c, items)
    ensures forall g, i :: g in groups && i in g.indices ==> i < |items| && AskedOf(c, items[i], g.url)
  {
    var answers: array<Option<Answer<R>>>;
    answers, groups, shadows := Scatter(c, items);
    forall i | 0 <= i < |items|
      ensures answers[i] == if Forwarded(c, items[i]) then None else Some(Expected(c, items, i))
    {
      AtOnceIsExpected(c, items, i);
    }
    for k := 0 to |groups|
      invariant forall i :: 0 <= i < |items| ==>
        answers[i] == (if Forwarded(c, items[i]) && !HasGroup(groups[..k], RouteOf(c, items[i]).url) then None
                       else Some(Expected(c, items, i)))
    {
      assert groups[k] in groups;
      Gather(c, items, groups[k], answers);
      OneMoreGroup(groups, k);
    }
    assert groups[..|groups|] == groups;
    forall i | 0 <= i < |items| ensures answers[i] == Some(Expected(c, items, i)) {
      AllGrouped(c, items, groups, i);
    }
    result := [];
    for i := 0 to |items|
      invariant |result| == i
      invariant forall j :: 0 <= j < i ==> result[j] == Expected(c, items, j)
    {
      result := result + [match answers[i] case Some(answer) => answer case None => Failed(NotFilled)];
    }
    forall i | 0 <= i < |items| ensures AnsweredWell(c, items[i], result[i]) {}
    forall g, i | g in groups && i in g.indices ensures i < |items| && AskedOf(c, items[i], g.url) {
      IndicesAreThose(c, items, g.url);
    }
  }

  lemma OneMoreGroup(groups: seq<Group>, k: nat)
    requires k < |groups|
    ensures forall url :: HasGroup(groups[..k + 1], url) <==> HasGroup(groups[..k], url) || url == groups[k].url
  {
    forall url ensures HasGroup(groups[..k + 1], url) <==> HasGroup(groups[..k], url) || url == groups[k].url {
      if HasGroup(groups[..k], url) {
        var j :| 0 <= j < k && groups[..k][j].url == url;
        assert groups[..k + 1][j].url == url;
      }
      assert groups[..k + 1][k] == groups[k];
      if HasGroup(groups[..k + 1], url) && url != groups[k].url {
        var j :| 0 <= j < k + 1 && groups[..k + 1][j].url == url;
        assert groups[..k][j].url == url;
      }
    }
  }

  lemma AllGrouped<R>(c: Context<R>, items: seq<Item>, groups: seq<Group>, i: nat)
    requires GroupsOf(c, items, groups) && i < |items|
    ensures Forwarded(c, items[i]) ==> HasGroup(groups, RouteOf(c, items[i]).url)
  {
    if Forwarded(c, items[i]) { assert GoesTo(c, items[i], RouteOf(c, items[i]).url); }
  }

  // ---------------------------------------------------------------------
  // Scatter and gather against reading one item at a time.
  // ---------------------------------------------------------------------

  /** Each item forwarded is in the one group of the mirror named for it, once,
      and in no other. */
  lemma GroupsPartition<R>(c: Context<R>, items: seq<Item>, groups: seq<Group>, i: nat)
    requires GroupsOf(c, items, groups) && i < |items|
    ensures forall g :: g in groups ==> (i in g.indices <==> GoesTo(c, items[i], g.url))
    ensures Forwarded(c, items[i]) <==> exists g :: g in groups && i in g.indices
    ensures forall g, j, k :: g in groups && 0 <= j < k < |g.indices| ==> g.indices[j] < g.indices[k]
  {
    forall g | g in groups
      ensures i in g.indices <==> GoesTo(c, items[i], g.url)
      ensures forall j, k :: 0 <= j < k < |g.indices| ==> g.indices[j] < g.indices[k]
    {
      IndicesAreThose(c, items, g.url);
    }
    if Forwarded(c, items[i]) {
      AllGrouped(c, items, groups, i);
      var k :| 0 <= k < |groups| && groups[k].url == RouteOf(c, items[i]).url;
      assert groups[k] in groups && i in groups[k].indices;
    }
  }

  /** Mirrors that answer each item of a sub-batch on its own. */
  ghost predicate AnswersEach<R(!new)>(c: Context<R>, readAt: (string, Item) -> R)
  {
    forall url, sub :: c.ask(url, sub) == Some(seq(|sub|, k requires 0 <= k < |sub| => readAt(url, sub[k])))
  }

  /** Then position i of a bulk answer is what asking the mirror named for item
      i, for that item alone, would have given. */
  lemma RefinesSingleReads<R(!new)>(c: Context<R>, items: seq<Item>, readAt: (string, Item) -> R, i: nat)
    requires AnswersEach(c, readAt) && i < |items| && c.hops != Some(0)
    requires c.readerUrl(items[i].namespace, items[i].value).To?
    requires AskedOf(c, items[i], c.readerUrl(items[i].namespace, items[i].value).url)
    ensures var url := c.readerUrl(items[i].namespace, items[i].value).url;
            Expected(c, items, i) == Relayed(readAt(url, items[i].(noshadow := true)))
  {
    var url := c.readerUrl(items[i].namespace, items[i].value).url;
    var indices := IndicesFor(c, items, url);
    PlaceInGroup(c, items, url, i);
    var sub := SubBatch(items, indices);
    assert c.ask(url, sub) == Some(seq(|sub|, k requires 0 <= k < |sub| => readAt(url, sub[k])));
  }

  /** A search is noted here if and only if it was sent on and not asked to leave no
      shadow. */
  lemma {:induction false} ShadowsAre<R>(c: Context<R>, items: seq<Item>, namespace: string, value: string)
    ensures (namespace, value) in Shadows(c, items) <==>
            exists i, url :: 0 <= i < |items| && AskedOf(c, items[i], url) && !items[i].noshadow &&
                             items[i].namespace == namespace && items[i].value == value
  {
    if |items| > 0 {
      var n := |items| - 1;
      ShadowsAre(c, items[..n], namespace, value);
      if i, url :| 0 <= i < |items| && AskedOf(c, items[i], url) && !items[i].noshadow &&
                   items[i].namespace == namespace && items[i].value == value {
        assert i < n ==> items[..n][i] == items[i];
      }
      if i, url :| 0 <= i < n && AskedOf(c, items[..n][i], url) && !items[..n][i].noshadow &&
                   items[..n][i].namespace == namespace && items[..n][i].value == value {
        assert items[i] == items[..n][i] && AskedOf(c, items[i], url);
      }
      if Forwarded(c, items[n]) { assert AskedOf(c, items[n], RouteOf(c, items[n]).url); }
    }
  }
}
