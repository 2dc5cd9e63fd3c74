/** Namespace names, and what the server decides from a name alone
    (src/db.rs:14-20, 76-171, 2048-2077; src/persistence.rs:46-60). */
module Namespaces {
  import opened Options
  import opened Text

  const ALL_NAMESPACE := "_all"
  const SHADOW_PREFIX := "_shadow/"
  const CONFIG_PREFIX := "_config/"
  const INTERNAL_SHARD := "_internal"

  function UpToSlash(s: string): string
  {
    if |s| == 0 || s[0] == '/' then "" else [s[0]] + UpToSlash(s[1..])
  }

  /** The first path segment that is not empty. */
  function FirstSegment(name: string): (r: Option<string>)
    ensures r.Some? ==> |r.value| > 0 && '/' !in r.value
  {
    if |name| == 0 then None
    else if name[0] == '/' then FirstSegment(name[1..])
    else
      SegmentHasNoSlash(name);
      Some(UpToSlash(name))
  }

  lemma SegmentHasNoSlash(s: string)
    ensures '/' !in UpToSlash(s)
  {
  }

  /** One of the server's own: `_all`, the shadow namespaces or the configuration. */
  predicate IsInternal(name: string)
  {
    var first := FirstSegment(name);
    first.Some? && first.value[0] == '_'
  }

  /** The unit a namespace is saved and evicted by. */
  function ShardOf(name: string): string
  {
    var first := FirstSegment(name);
    if first.None? || first.value[0] == '_' then INTERNAL_SHARD else first.value
  }

  predicate CountsTowardsConsensus(name: string)
  {
    name != ALL_NAMESPACE && !(SHADOW_PREFIX <= name) && !(CONFIG_PREFIX <= name)
  }

  lemma UnderscoreFirst(name: string)
    requires |name| > 0 && name[0] == '_'
    ensures IsInternal(name) && ShardOf(name) == INTERNAL_SHARD
  {
    assert FirstSegment(name) == Some(UpToSlash(name));
    assert UpToSlash(name) == [name[0]] + UpToSlash(name[1..]);
  }

  /** What a client may write is what counts towards consensus, and it is never
      one of the server's own namespaces. */
  lemma ClientNamespaceCounts(name: string)
    requires !IsInternal(name)
    ensures CountsTowardsConsensus(name)
  {
    if |name| > 0 && name[0] == '_' { UnderscoreFirst(name); }
    assert ALL_NAMESPACE[0] == '_' && SHADOW_PREFIX[0] == '_' && CONFIG_PREFIX[0] == '_';
  }

  lemma ShadowIsInternal(name: string)
    requires SHADOW_PREFIX <= name
    ensures IsInternal(name) && ShardOf(name) == INTERNAL_SHARD && !CountsTowardsConsensus(name)
  {
    assert name[0] == SHADOW_PREFIX[0] == '_';
    UnderscoreFirst(name);
  }

  lemma AllIsInternal()
    ensures IsInternal(ALL_NAMESPACE) && ShardOf(ALL_NAMESPACE) == INTERNAL_SHARD
    ensures !CountsTowardsConsensus(ALL_NAMESPACE)
    ensures !(SHADOW_PREFIX <= ALL_NAMESPACE) && !(CONFIG_PREFIX <= ALL_NAMESPACE)
  {
    assert ALL_NAMESPACE[0] == '_';
    UnderscoreFirst(ALL_NAMESPACE);
  }

  // ---------------------------------------------------------------------
  // Which namespaces a server stores.
  // ---------------------------------------------------------------------

  datatype StoragePolicy = StoragePolicy(prefixes: seq<string>, everything: bool)

  function TrimSlashes(s: string): string
  {
    if |s| == 0 then s
    else if s[0] == '/' then TrimSlashes(s[1..])
    else if s[|s| - 1] == '/' then TrimSlashes(s[..|s| - 1])
    else s
  }

  /** `prefix` itself, or `prefix` followed by a slash and anything. */
  predicate AtOrBelow(name: string, prefix: string)
  {
    name == prefix || (prefix <= name && |name| > |prefix| && name[|prefix|] == '/')
  }

  predicate Holds(policy: StoragePolicy, name: string)
  {
    || IsInternal(name)
    || policy.everything
    || exists i :: 0 <= i < |policy.prefixes| && AtOrBelow(TrimSlashes(name), policy.prefixes[i])
  }

  // ---------------------------------------------------------------------
  // The same, by path segments.
  // ---------------------------------------------------------------------

  function Segments(name: string): seq<string>
  {
    SplitOn(name, '/')
  }

  /** A name is at or below a prefix if and only if the prefix's segments are its
      first ones. */
  lemma AtOrBelowIff(name: string, prefix: string)
    ensures AtOrBelow(name, prefix) <==> Segments(prefix) <= Segments(name)
  {
    if AtOrBelow(name, prefix) && name != prefix {
      var rest := name[|prefix| + 1..];
      assert name == prefix + ['/'] + rest;
      SplitBoth(prefix, rest, '/');
    }
    if Segments(prefix) <= Segments(name) {
      SplitRejoins(prefix, '/');
      SplitRejoins(name, '/');
      var more := Segments(name)[|Segments(prefix)|..];
      assert Segments(name) == Segments(prefix) + more;
      if |more| > 0 {
        RejoinBoth(Segments(prefix), more, '/');
        assert name[|prefix|] == '/' && prefix <= name;
      } else {
        assert Segments(name) == Segments(prefix);
      }
    }
  }

  /** Only slashes at either end go. */
  lemma {:induction false} TrimSlashesIs(s: string) returns (i: nat, j: nat)
    ensures i <= j <= |s| && TrimSlashes(s) == s[i..j]
    ensures forall k :: 0 <= k < i || j <= k < |s| ==> s[k] == '/'
    ensures i < j ==> s[i] != '/' && s[j - 1] != '/'
    decreases |s|
  {
    if |s| == 0 {
      i, j := 0, 0;
    } else if s[0] == '/' {
      i, j := TrimSlashesIs(s[1..]);
      assert forall k :: 0 <= k < |s| - 1 ==> s[1..][k] == s[k + 1];
      i, j := i + 1, j + 1;
      assert forall k :: 0 < k < |s| ==> s[k] == s[1..][k - 1];
    } else if s[|s| - 1] == '/' {
      i, j := TrimSlashesIs(s[..|s| - 1]);
    } else {
      i, j := 0, |s|;
    }
  }

  /** A server holds its own namespaces, everything if it stores everything, and
      else what is at or below one of its prefixes. */
  lemma HoldsIff(policy: StoragePolicy, name: string)
    ensures Holds(policy, name) <==>
            || IsInternal(name) || policy.everything
            || exists prefix :: prefix in policy.prefixes && Segments(prefix) <= Segments(TrimSlashes(name))
  {
    if i :| 0 <= i < |policy.prefixes| && AtOrBelow(TrimSlashes(name), policy.prefixes[i]) {
      AtOrBelowIff(TrimSlashes(name), policy.prefixes[i]);
      assert policy.prefixes[i] in policy.prefixes;
    }
    if prefix :| prefix in policy.prefixes && Segments(prefix) <= Segments(TrimSlashes(name)) {
      AtOrBelowIff(TrimSlashes(name), prefix);
    }
  }

  /** The first of these that is not empty. */
  function FirstNonEmpty(parts: seq<string>): (r: Option<string>)
    ensures r.Some? ==> |r.value| > 0
  {
    if |parts| == 0 then None else if |parts[0]| > 0 then Some(parts[0]) else FirstNonEmpty(parts[1..])
  }

  lemma {:induction false} FirstSegmentIs(name: string)
    ensures FirstSegment(name) == FirstNonEmpty(Segments(name))
  {
    if |name| > 0 {
      if name[0] == '/' {
        FirstSegmentIs(name[1..]);
        assert ([""] + Segments(name[1..]))[1..] == Segments(name[1..]);
      } else {
        UpToSlashIs(name);
      }
    }
  }

  lemma {:induction false} UpToSlashIs(s: string)
    ensures UpToSlash(s) == Segments(s)[0]
  {
    if |s| > 0 && s[0] != '/' { UpToSlashIs(s[1..]); }
  }

  /** A namespace lives in the shard of its first segment; those whose first
      segment begins with an underscore, or that have none, in the server's own. */
  lemma ShardIs(name: string)
    ensures var first := FirstNonEmpty(Segments(name));
            && (IsInternal(name) <==> first.Some? && first.value[0] == '_')
            && ShardOf(name) == if first.Some? && first.value[0] != '_' then first.value else "_internal"
  {
    FirstSegmentIs(name);
  }

  /** Everything counts but `_all` and what is below `_shadow` or `_config`. */
  lemma CountsIff(name: string)
    ensures CountsTowardsConsensus(name) <==>
            && name != "_all"
            && !(|Segments(name)| > 1 && (Segments(name)[0] == "_shadow" || Segments(name)[0] == "_config"))
  {
    BelowIff(name, "_shadow");
    BelowIff(name, "_config");
  }

  lemma BelowIff(name: string, top: string)
    requires '/' !in top
    ensures top + "/" <= name <==> |Segments(name)| > 1 && Segments(name)[0] == top
  {
    OneSegment(top);
    AtOrBelowIff(name, top);
    if name == top { assert |Segments(name)| == 1; }
    SplitRejoins(name, '/');
    if top + "/" <= name { assert name[|top|] == '/' && top <= name; }
  }

  lemma {:induction false} OneSegment(top: string)
    requires '/' !in top
    ensures Segments(top) == [top]
  {
    if |top| > 0 {
      OneSegment(top[1..]);
      assert top == [top[0]] + top[1..];
    }
  }
}
