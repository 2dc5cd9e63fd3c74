/** Strings as the server handles them: the byte order values are sorted in,
    and the comma-separated tag sets of src/attribute.rs. */
module Text {
  import opened Sets

  lemma Regroup<T>(a: seq<T>, b: seq<T>, c: seq<T>)
    ensures a + (b + c) == a + b + c
  {
  }

  // ---------------------------------------------------------------------
  // The order `sort_unstable` puts names in. Comparing code points in turn
  // agrees with comparing UTF-8 bytes.
  // ---------------------------------------------------------------------

  predicate Less(a: string, b: string)
  {
    if |b| == 0 then false
    else if |a| == 0 then true
    else a[0] < b[0] || (a[0] == b[0] && Less(a[1..], b[1..]))
  }

  lemma {:induction false} LessTransitive(a: string, b: string, c: string)
    requires Less(a, b) && Less(b, c)
    ensures Less(a, c)
  {
    if |a| > 0 && a[0] == b[0] == c[0] {
      LessTransitive(a[1..], b[1..], c[1..]);
    }
  }

  lemma {:induction false} LessTotal(a: string, b: string)
    ensures Less(a, b) || Less(b, a) || a == b
    ensures !(Less(a, b) && Less(b, a))
    ensures a == b ==> !Less(a, b)
  {
    if |a| > 0 && |b| > 0 {
      LessTotal(a[1..], b[1..]);
      assert a == [a[0]] + a[1..] && b == [b[0]] + b[1..];
    }
  }

  ghost predicate Increasing(names: seq<string>)
  {
    forall i, j :: 0 <= i < j < |names| ==> Less(names[i], names[j])
  }

  function Elements<T>(s: seq<T>): set<T>
  {
    set x | x in s
  }

  /** Put `name` into its place in a sorted listing that does not hold it. */
  function Insert(names: seq<string>, name: string): (r: seq<string>)
    requires Increasing(names) && name !in names
    ensures Increasing(r)
    ensures Elements(r) == Elements(names) + {name}
    ensures |r| == |names| + 1
  {
    if |names| == 0 then [name]
    else if Less(name, names[0]) then
      InsertInFront(names, name);
      [name] + names
    else
      LessTotal(name, names[0]);
      var rest := Insert(names[1..], name);
      InsertBehind(names, name, rest);
      [names[0]] + rest
  }

  lemma InsertInFront(names: seq<string>, name: string)
    requires |names| > 0 && Increasing(names) && Less(name, names[0])
    ensures Increasing([name] + names)
    ensures Elements([name] + names) == Elements(names) + {name}
  {
    forall j | 0 <= j < |names| ensures Less(name, names[j]) {
      if j > 0 { LessTransitive(name, names[0], names[j]); }
    }
  }

  lemma InsertBehind(names: seq<string>, name: string, rest: seq<string>)
    requires |names| > 0 && Increasing(names) && Less(names[0], name)
    requires Increasing(rest) && Elements(rest) == Elements(names[1..]) + {name}
    ensures Increasing([names[0]] + rest)
    ensures Elements([names[0]] + rest) == Elements(names) + {name}
  {
    forall j | 0 <= j < |rest| ensures Less(names[0], rest[j]) {
      assert rest[j] in Elements(rest);
      if rest[j] != name { BehindFirst(names, rest[j]); }
    }
    FirstAndRest(names);
    FirstAndRest([names[0]] + rest);
    assert ([names[0]] + rest)[1..] == rest;
  }

  lemma BehindFirst(names: seq<string>, x: string)
    requires |names| > 0 && Increasing(names) && x in names[1..]
    ensures Less(names[0], x)
  {
    var k :| 0 <= k < |names[1..]| && names[1..][k] == x;
    assert Less(names[0], names[k + 1]);
  }

  lemma FirstAndRest<T>(s: seq<T>)
    requires |s| > 0
    ensures Elements(s) == {s[0]} + Elements(s[1..])
  {
    assert s == [s[0]] + s[1..];
  }

  lemma EmptyElements<T>(s: seq<T>)
    ensures |s| == 0 <==> Elements(s) == {}
  {
    if |s| > 0 { assert s[0] in Elements(s); }
  }

  /** A sorted listing holds each name once, so it is determined by its set. */
  lemma {:induction false} IncreasingUnique(a: seq<string>, b: seq<string>)
    requires Increasing(a) && Increasing(b) && Elements(a) == Elements(b)
    ensures a == b
  {
    if |a| == 0 || |b| == 0 {
      EmptyElements(a);
      EmptyElements(b);
    } else {
      LeastFirst(a, b);
      LeastFirst(b, a);
      LessTotal(a[0], b[0]);
      IncreasingTail(a);
      IncreasingTail(b);
      IncreasingUnique(a[1..], b[1..]);
      assert a == [a[0]] + a[1..] && b == [b[0]] + b[1..];
    }
  }

  lemma LeastFirst(a: seq<string>, b: seq<string>)
    requires |a| > 0 && |b| > 0 && Increasing(a) && Elements(a) == Elements(b)
    ensures a[0] == b[0] || Less(a[0], b[0])
  {
    assert b[0] in Elements(b);
    var k :| 0 <= k < |a| && a[k] == b[0];
  }

  lemma IncreasingTail(a: seq<string>)
    requires |a| > 0 && Increasing(a)
    ensures Increasing(a[1..])
    ensures Elements(a[1..]) == Elements(a) - {a[0]}
  {
    LessTotal(a[0], a[0]);
    forall x | x in Elements(a) && x != a[0] ensures x in Elements(a[1..]) {
      var k :| 0 <= k < |a| && a[k] == x;
      assert a[1..][k - 1] == x;
    }
    forall x | x in Elements(a[1..]) ensures x != a[0] {
      var k :| 0 <= k < |a[1..]| && a[1..][k] == x;
      assert Less(a[0], a[k + 1]);
    }
  }

  lemma {:induction false} IncreasingSize(names: seq<string>)
    requires Increasing(names)
    ensures |Elements(names)| == |names|
  {
    if |names| > 0 {
      IncreasingTail(names);
      IncreasingSize(names[1..]);
      assert names[0] in Elements(names);
    }
  }

  /** The names of a set, sorted. */
  ghost function Listing(names: set<string>): (r: seq<string>)
    ensures Increasing(r) && Elements(r) == names
  {
    if names == {} then []
    else
      var v :| v in names;
      Insert(Listing(names - {v}), v)
  }

  /** `r` lists, in order, all of `names` but those `left`. */
  ghost predicate SortedSoFar(names: set<string>, left: set<string>, r: seq<string>)
  {
    left <= names && Increasing(r) && Elements(r) == names - left
  }

  lemma SortStep(names: set<string>, left: set<string>, r: seq<string>, v: string)
    requires SortedSoFar(names, left, r) && v in left
    ensures v !in r && SortedSoFar(names, left - {v}, Insert(r, v))
  {
    assert v !in Elements(r);
    assert names - left + {v} == names - (left - {v});
  }

  method Sorted(names: set<string>) returns (r: seq<string>)
    ensures r == Listing(names)
  {
    r := [];
    var left := names;
    while left != {}
      invariant SortedSoFar(names, left, r)
      decreases |left|
    {
      var v := Pick(left);
      SortStep(names, left, r, v);
      r := Insert(r, v);
      left := left - {v};
    }
    IncreasingUnique(r, Listing(names));
  }

  // ---------------------------------------------------------------------
  // Tags: a comma-separated set held in a string.
  // ---------------------------------------------------------------------

  /** `char::is_whitespace`: the Unicode White_Space property. */
  predicate IsWhite(c: char)
  {
    var n := c as int;
    || 0x09 <= n <= 0x0D || n == 0x20 || n == 0x85 || n == 0xA0 || n == 0x1680
    || 0x2000 <= n <= 0x200A || n == 0x2028 || n == 0x2029 || n == 0x202F
    || n == 0x205F || n == 0x3000
  }

  function TrimStart(s: string): (r: string)
    ensures |r| <= |s| && r == s[|s| - |r|..]
    ensures |r| > 0 ==> !IsWhite(r[0])
    ensures |s| > 0 && !IsWhite(s[0]) ==> r == s
  {
    if |s| > 0 && IsWhite(s[0]) then TrimStart(s[1..]) else s
  }

  function TrimEnd(s: string): (r: string)
    ensures |r| <= |s| && r == s[..|r|]
    ensures |r| > 0 ==> !IsWhite(r[|r| - 1])
    ensures |s| > 0 && !IsWhite(s[|s| - 1]) ==> r == s
  {
    if |s| > 0 && IsWhite(s[|s| - 1]) then TrimEnd(s[..|s| - 1]) else s
  }

  function Trim(s: string): string
  {
    TrimEnd(TrimStart(s))
  }

  /** `str::split`: always at least one part. */
  function SplitOn(s: string, separator: char): (r: seq<string>)
    ensures |r| > 0
    ensures forall p :: p in r ==> separator !in p
  {
    if |s| == 0 then [""]
    else
      var rest := SplitOn(s[1..], separator);
      if s[0] == separator then [""] + rest
      else [[s[0]] + rest[0]] + rest[1..]
  }

  function Rejoined(parts: seq<string>, separator: char): string
    requires |parts| > 0
  {
    if |parts| == 1 then parts[0] else parts[0] + [separator] + Rejoined(parts[1..], separator)
  }

  /** Put together again, the parts are the string they were split from. */
  lemma {:induction false} SplitRejoins(s: string, c: char)
    ensures Rejoined(SplitOn(s, c), c) == s
  {
    if |s| > 0 {
      var rest := SplitOn(s[1..], c);
      SplitRejoins(s[1..], c);
      if s[0] == c {
        assert ([""] + rest)[1..] == rest && "" + [c] + s[1..] == s;
      } else {
        FirstGrows(s[0], rest, c);
      }
    }
  }

  lemma FirstGrows(x: char, rest: seq<string>, c: char)
    requires |rest| > 0
    ensures Rejoined([[x] + rest[0]] + rest[1..], c) == [x] + Rejoined(rest, c)
  {
    var more := [[x] + rest[0]] + rest[1..];
    if |rest| > 1 {
      assert more[1..] == rest[1..];
      assert [x] + rest[0] + [c] + Rejoined(rest[1..], c) == [x] + (rest[0] + [c] + Rejoined(rest[1..], c));
    }
  }

  /** The parts on either side of a separator are split on their own. */
  lemma {:induction false} SplitBoth(a: string, b: string, c: char)
    ensures SplitOn(a + [c] + b, c) == SplitOn(a, c) + SplitOn(b, c)
  {
    var all := a + [c] + b;
    if |a| == 0 {
      assert all[0] == c && all[1..] == b;
    } else {
      assert all[0] == a[0] && all[1..] == a[1..] + [c] + b;
      SplitBoth(a[1..], b, c);
      var first, rest := SplitOn(a[1..], c), SplitOn(b, c);
      assert (first + rest)[0] == first[0] && (first + rest)[1..] == first[1..] + rest;
      Regroup([[a[0]] + first[0]], first[1..], rest);
      Regroup([""], first, rest);
    }
  }

  lemma {:induction false} RejoinBoth(a: seq<string>, b: seq<string>, c: char)
    requires |a| > 0 && |b| > 0
    ensures Rejoined(a + b, c) == Rejoined(a, c) + [c] + Rejoined(b, c)
  {
    assert (a + b)[0] == a[0] && (a + b)[1..] == a[1..] + b;
    if |a| == 1 {
      assert a[1..] + b == b;
    } else {
      RejoinBoth(a[1..], b, c);
      assert a[0] + [c] + (Rejoined(a[1..], c) + [c] + Rejoined(b, c)) ==
             a[0] + [c] + Rejoined(a[1..], c) + [c] + Rejoined(b, c);
    }
  }

  /** All of these are blanks. */
  ghost predicate Blanks(s: string)
  {
    forall k :: 0 <= k < |s| ==> IsWhite(s[k])
  }

  lemma BlanksBoth(a: string, b: string)
    requires Blanks(a) && Blanks(b)
    ensures Blanks(a + b)
  {
    forall k | 0 <= k < |a + b| ensures IsWhite((a + b)[k]) {
      assert (a + b)[k] == if k < |a| then a[k] else b[k - |a|];
    }
  }

  lemma FirstAndMore<T>(s: seq<T>, n: nat)
    requires 0 < n <= |s|
    ensures s[..n] == [s[0]] + s[1..][..n - 1]
  {
  }

  lemma {:induction false} TrimStartBlanks(s: string, n: nat)
    requires n == |s| - |TrimStart(s)|
    ensures Blanks(s[..n])
  {
    if |s| > 0 && IsWhite(s[0]) {
      var rest := s[1..];
      assert TrimStart(s) == TrimStart(rest) && n > 0;
      TrimStartBlanks(rest, n - 1);
      FirstAndMore(s, n);
      BlanksBoth([s[0]], rest[..n - 1]);
    }
  }

  lemma {:induction false} TrimEndBlanks(s: string)
    ensures Blanks(s[|TrimEnd(s)|..])
  {
    if |s| > 0 && IsWhite(s[|s| - 1]) {
      var front, last, n := s[..|s| - 1], s[|s| - 1], |TrimEnd(s)|;
      TrimEndBlanks(front);
      assert s[n..] == front[n..] + [last];
      BlanksBoth(front[n..], [last]);
    }
  }

  /** Blanks and then `r` and then blanks, and none of them at the ends of `r`. */
  ghost predicate TrimmedFrom(s: string, before: string, r: string, after: string)
  {
    && s == before + r + after && Blanks(before) && Blanks(after)
    && (|r| > 0 ==> !IsWhite(r[0]) && !IsWhite(r[|r| - 1]))
  }

  /** Trimming takes away exactly the blanks at both ends. */
  lemma TrimIs(s: string) returns (before: string, after: string)
    ensures TrimmedFrom(s, before, Trim(s), after)
  {
    var start := TrimStart(s);
    TrimStartBlanks(s, |s| - |start|);
    before, after := TrimRest(s, start, TrimEnd(start));
  }

  lemma TrimRest(s: string, start: string, middle: string) returns (before: string, after: string)
    requires |start| <= |s| && start == s[|s| - |start|..] && Blanks(s[..|s| - |start|])
    requires middle == TrimEnd(start) && (|start| > 0 ==> !IsWhite(start[0]))
    ensures TrimmedFrom(s, before, middle, after)
  {
    before, after := s[..|s| - |start|], start[|middle|..];
    TrimEndBlanks(start);
    TrimmedParts(s, start, middle);
    if |middle| > 0 { assert middle[0] == start[0]; }
  }

  lemma TrimmedParts<T>(s: seq<T>, start: seq<T>, middle: seq<T>)
    requires |middle| <= |start| <= |s| && start == s[|s| - |start|..] && middle == start[..|middle|]
    ensures s == s[..|s| - |start|] + middle + start[|middle|..]
  {
    assert start == middle + start[|middle|..];
    Regroup(s[..|s| - |start|], middle, start[|middle|..]);
  }

  /** What `split_tags` yields from each part: trimmed, and only if anything is left. */
  function Kept(parts: seq<string>): seq<string>
  {
    if |parts| == 0 then []
    else
      var tag := Trim(parts[0]);
      (if |tag| == 0 then [] else [tag]) + Kept(parts[1..])
  }

  function SplitTags(tags: string): seq<string>
  {
    Kept(SplitOn(tags, ','))
  }

  function JoinTags(tags: seq<string>): string
  {
    if |tags| == 0 then ""
    else if |tags| == 1 then tags[0]
    else tags[0] + "," + JoinTags(tags[1..])
  }

  /** A label `split_tags` gives back as it is. */
  predicate IsTag(t: string)
  {
    |t| > 0 && ',' !in t && !IsWhite(t[0]) && !IsWhite(t[|t| - 1])
  }

  lemma TrimmedIsTag(p: string)
    requires ',' !in p && |Trim(p)| > 0
    ensures IsTag(Trim(p))
  {
    var q := TrimStart(p);
    var t := Trim(p);
    assert t == q[..|t|] && q == p[|p| - |q|..];
    assert t[0] == q[0];
    assert forall i :: 0 <= i < |t| ==> t[i] == p[|p| - |q| + i];
  }

  lemma {:induction false} KeptAreTags(parts: seq<string>)
    requires forall p :: p in parts ==> ',' !in p
    ensures forall t :: t in Kept(parts) ==> IsTag(t)
  {
    if |parts| > 0 {
      assert parts[0] in parts;
      if |Trim(parts[0])| > 0 { TrimmedIsTag(parts[0]); }
      KeptAreTags(parts[1..]);
    }
  }

  lemma SplitTagsAreTags(tags: string)
    ensures forall t :: t in SplitTags(tags) ==> IsTag(t)
  {
    KeptAreTags(SplitOn(tags, ','));
  }

  lemma {:induction false} SplitOnWhole(p: string)
    requires ',' !in p
    ensures SplitOn(p, ',') == [p]
  {
    if |p| > 0 {
      SplitOnWhole(p[1..]);
      assert p == [p[0]] + p[1..];
    }
  }

  lemma PartHead<T>(p: seq<T>, c: T, s: seq<T>)
    requires |p| > 0
    ensures (p + [c] + s)[0] == p[0] && (p + [c] + s)[1..] == p[1..] + [c] + s
    ensures p == [p[0]] + p[1..]
  {
  }

  lemma {:induction false} SplitOnPart(p: string, s: string)
    requires ',' !in p
    ensures SplitOn(p + "," + s, ',') == [p] + SplitOn(s, ',')
  {
    if |p| == 0 {
      assert (p + "," + s)[1..] == s;
    } else {
      SplitOnPart(p[1..], s);
      PartHead(p, ',', s);
    }
  }

  /** Splitting a joined list of labels gives the labels back. */
  lemma {:induction false} SplitJoin(tags: seq<string>)
    requires forall t :: t in tags ==> IsTag(t)
    ensures SplitTags(JoinTags(tags)) == tags
  {
    if |tags| > 0 {
      var t := tags[0];
      assert t in tags && Trim(t) == t;
      assert [t] + tags[1..] == tags;
      if |tags| == 1 {
        SplitOnWhole(t);
        assert Kept([t][1..]) == [];
      } else {
        SplitOnPart(t, JoinTags(tags[1..]));
        SplitJoin(tags[1..]);
        var parts := [t] + SplitOn(JoinTags(tags[1..]), ',');
        assert parts[0] == t && parts[1..] == SplitOn(JoinTags(tags[1..]), ',');
      }
    }
  }

  function TagSet(tags: string): set<string>
  {
    Elements(SplitTags(tags))
  }

  /** The labels are what is left of the comma-separated parts once trimmed. */
  lemma TagSetIs(tags: string, t: string)
    ensures t in TagSet(tags) <==> |t| > 0 && TrimsTo(SplitOn(tags, ','), t)
  {
    KeptIs(SplitOn(tags, ','), t);
  }

  /** Some part trims to `t`. */
  predicate TrimsTo(parts: seq<string>, t: string)
  {
    exists part :: part in parts && Trim(part) == t
  }

  lemma TrimsToNext(parts: seq<string>, t: string)
    requires |parts| > 0
    ensures TrimsTo(parts, t) <==> Trim(parts[0]) == t || TrimsTo(parts[1..], t)
  {
    assert parts == [parts[0]] + parts[1..];
    assert parts[0] in parts;
  }

  lemma {:induction false} KeptIs(parts: seq<string>, t: string)
    ensures t in Kept(parts) <==> |t| > 0 && TrimsTo(parts, t)
  {
    if |parts| > 0 {
      KeptIs(parts[1..], t);
      TrimsToNext(parts, t);
    }
  }

  lemma NoTags()
    ensures SplitTags("") == [] && TagSet("") == {}
  {
    assert Trim("") == "";
    assert Kept([""]) == [];
  }

  /** Push each of `more` that is not already in `held`. */
  function Absorb(held: seq<string>, more: seq<string>): seq<string>
    decreases |more|
  {
    if |more| == 0 then held
    else Absorb(if more[0] in held then held else held + [more[0]], more[1..])
  }

  lemma AbsorbElements(held: seq<string>, more: seq<string>)
    ensures Elements(Absorb(held, more)) == Elements(held) + Elements(more)
    ensures held <= Absorb(held, more)
    ensures Absorb(held, more) == held <==> Elements(more) <= Elements(held)
  {
    AbsorbUnion(held, more);
    AbsorbAppends(held, more);
    if Elements(more) <= Elements(held) { AbsorbNothing(held, more); }
  }

  lemma ElementsSplit(more: seq<string>)
    requires |more| > 0
    ensures Elements(more) == Elements(more[1..]) + {more[0]}
  {
    assert more == [more[0]] + more[1..];
  }

  lemma {:induction false} AbsorbUnion(held: seq<string>, more: seq<string>)
    ensures Elements(Absorb(held, more)) == Elements(held) + Elements(more)
    decreases |more|
  {
    if |more| > 0 {
      var next := if more[0] in held then held else held + [more[0]];
      AbsorbUnion(next, more[1..]);
      assert Elements(next) == Elements(held) + {more[0]};
      ElementsSplit(more);
    }
  }

  lemma {:induction false} AbsorbAppends(held: seq<string>, more: seq<string>)
    ensures held <= Absorb(held, more)
    decreases |more|
  {
    if |more| > 0 { AbsorbAppends(if more[0] in held then held else held + [more[0]], more[1..]); }
  }

  lemma {:induction false} AbsorbNothing(held: seq<string>, more: seq<string>)
    requires Elements(more) <= Elements(held)
    ensures Absorb(held, more) == held
    decreases |more|
  {
    if |more| > 0 {
      ElementsSplit(more);
      assert more[0] in Elements(held);
      AbsorbNothing(held, more[1..]);
    }
  }

  /** `add_tags`: rewritten only when something new arrived. */
  function AddTags(held: string, more: string): string
  {
    var merged := Absorb(SplitTags(held), SplitTags(more));
    if merged == SplitTags(held) then held else JoinTags(merged)
  }

  lemma AddTagsIsUnion(held: string, more: string)
    ensures TagSet(AddTags(held, more)) == TagSet(held) + TagSet(more)
    ensures AddTags(held, more) == held <==> TagSet(more) <= TagSet(held)
  {
    AbsorbElements(SplitTags(held), SplitTags(more));
    AbsorbedAreTags(held, more);
    SplitJoin(Absorb(SplitTags(held), SplitTags(more)));
  }

  lemma AbsorbedAreTags(held: string, more: string)
    ensures forall t :: t in Absorb(SplitTags(held), SplitTags(more)) ==> IsTag(t)
  {
    SplitTagsAreTags(held);
    SplitTagsAreTags(more);
    AbsorbKeepsTags(SplitTags(held), SplitTags(more));
  }

  lemma {:induction false} AbsorbKeepsTags(held: seq<string>, more: seq<string>)
    requires forall t :: t in held ==> IsTag(t)
    requires forall t :: t in more ==> IsTag(t)
    ensures forall t :: t in Absorb(held, more) ==> IsTag(t)
    decreases |more|
  {
    if |more| > 0 {
      assert more[0] in more;
      AbsorbKeepsTags(if more[0] in held then held else held + [more[0]], more[1..]);
    }
  }

  /** The set `set_tags` writes: repeats dropped, order of first appearance. */
  function CleanTags(tags: string): string
  {
    JoinTags(Absorb([], SplitTags(tags)))
  }

  lemma CleanTagsSameSet(tags: string)
    ensures TagSet(CleanTags(tags)) == TagSet(tags)
  {
    SplitTagsAreTags(tags);
    AbsorbElements([], SplitTags(tags));
    AbsorbKeepsTags([], SplitTags(tags));
    SplitJoin(Absorb([], SplitTags(tags)));
  }
}
