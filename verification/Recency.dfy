/** A list of things in order of last write, told apart by a key: every write
    moves its key to the end, and the oldest go once there are too many
    (src/latest.rs:74-98). What is written and what it is told apart by are
    parameters; the list is kept in two indexes. */
module Recency {
  import opened Text

  // ---------------------------------------------------------------------
  // The ideal list: entries in order of last write, oldest first.
  // ---------------------------------------------------------------------

  function Without<T, K(==)>(keyOf: T -> K, s: seq<T>, key: K): seq<T>
  {
    if |s| == 0 then []
    else if keyOf(s[0]) == key then Without(keyOf, s[1..], key)
    else [s[0]] + Without(keyOf, s[1..], key)
  }

  lemma {:induction false} WithoutHolds<T, K>(keyOf: T -> K, s: seq<T>, key: K)
    ensures |Without(keyOf, s, key)| <= |s|
    ensures forall e :: e in Without(keyOf, s, key) <==> e in s && keyOf(e) != key
  {
    if |s| > 0 {
      WithoutHolds(keyOf, s[1..], key);
      assert s == [s[0]] + s[1..];
    }
  }

  function LastOf<T>(s: seq<T>, n: nat): seq<T>
  {
    if |s| <= n then s else s[|s| - n..]
  }

  /** A write moves its key to the end; the oldest go once there are too many. */
  function Pushed<T, K(==)>(keyOf: T -> K, s: seq<T>, e: T, capacity: nat): seq<T>
  {
    LastOf(Without(keyOf, s, keyOf(e)) + [e], capacity)
  }

  function PushAll<T, K(==)>(keyOf: T -> K, s: seq<T>, writes: seq<T>, capacity: nat): seq<T>
    decreases |writes|
  {
    if |writes| == 0 then s
    else Pushed(keyOf, PushAll(keyOf, s, writes[..|writes| - 1], capacity), writes[|writes| - 1], capacity)
  }

  ghost predicate Distinct<T, K>(keyOf: T -> K, s: seq<T>)
  {
    forall i, j :: 0 <= i < j < |s| ==> keyOf(s[i]) != keyOf(s[j])
  }

  /** Every write that is the last one of its key, in order. */
  function LastWrites<T, K(==)>(keyOf: T -> K, writes: seq<T>): seq<T>
  {
    if |writes| == 0 then []
    else if WrittenAgain(keyOf, writes[1..], keyOf(writes[0])) then LastWrites(keyOf, writes[1..])
    else [writes[0]] + LastWrites(keyOf, writes[1..])
  }

  predicate WrittenAgain<T, K(==)>(keyOf: T -> K, later: seq<T>, key: K)
  {
    exists i :: 0 <= i < |later| && keyOf(later[i]) == key
  }

  /** The reference list holds each key once, as it was last written. */
  lemma {:induction false} LastWritesAre<T, K>(keyOf: T -> K, writes: seq<T>, i: nat)
    requires i < |writes|
    ensures !WrittenAgain(keyOf, writes[i + 1..], keyOf(writes[i])) ==> writes[i] in LastWrites(keyOf, writes)
    ensures WrittenAgain(keyOf, LastWrites(keyOf, writes), keyOf(writes[i]))
  {
    if i > 0 {
      assert writes[1..][i..] == writes[i + 1..];
      LastWritesAre(keyOf, writes[1..], i - 1);
      var rest := LastWrites(keyOf, writes[1..]);
      var j: nat :| j < |rest| && keyOf(rest[j]) == keyOf(writes[i]);
      if !WrittenAgain(keyOf, writes[1..], keyOf(writes[0])) {
        assert ([writes[0]] + rest)[j + 1] == rest[j];
      }
    } else if WrittenAgain(keyOf, writes[1..], keyOf(writes[0])) {
      var k: nat :| k < |writes[1..]| && keyOf(writes[1..][k]) == keyOf(writes[0]);
      LastWritesAre(keyOf, writes[1..], k);
    } else {
      assert LastWrites(keyOf, writes)[0] == writes[0];
    }
  }

  lemma {:induction false} LastWritesDistinct<T, K>(keyOf: T -> K, writes: seq<T>)
    ensures Distinct(keyOf, LastWrites(keyOf, writes))
    ensures forall e :: e in LastWrites(keyOf, writes) ==> e in writes
  {
    if |writes| > 0 {
      LastWritesDistinct(keyOf, writes[1..]);
      var rest := LastWrites(keyOf, writes[1..]);
      if !WrittenAgain(keyOf, writes[1..], keyOf(writes[0])) {
        forall j | 0 <= j < |rest| ensures keyOf(rest[j]) != keyOf(writes[0]) {
          assert rest[j] in writes[1..];
          var k :| 0 <= k < |writes[1..]| && writes[1..][k] == rest[j];
        }
      }
    }
  }

  // ---------------------------------------------------------------------
  // A run of writes keeps exactly the last distinct keys.
  // ---------------------------------------------------------------------

  lemma {:induction false} WithoutAbsent<T, K>(keyOf: T -> K, s: seq<T>, key: K)
    requires !WrittenAgain(keyOf, s, key)
    ensures Without(keyOf, s, key) == s
  {
    if |s| > 0 {
      assert keyOf(s[0]) != key;
      assert forall i :: 0 <= i < |s[1..]| ==> s[1..][i] == s[i + 1];
      WithoutAbsent(keyOf, s[1..], key);
    }
  }

  lemma {:induction false} WithoutBoth<T, K>(keyOf: T -> K, a: seq<T>, b: seq<T>, key: K)
    ensures Without(keyOf, a + b, key) == Without(keyOf, a, key) + Without(keyOf, b, key)
  {
    if |a| == 0 {
      assert a + b == b;
    } else {
      WithoutBoth(keyOf, a[1..], b, key);
      assert (a + b)[1..] == a[1..] + b;
      Regroup([a[0]], Without(keyOf, a[1..], key), Without(keyOf, b, key));
    }
  }

  lemma {:induction false} WithoutAt<T, K>(keyOf: T -> K, s: seq<T>, i: nat)
    requires i < |s| && Distinct(keyOf, s)
    ensures Without(keyOf, s, keyOf(s[i])) == s[..i] + s[i + 1..]
  {
    if i == 0 {
      assert !WrittenAgain(keyOf, s[1..], keyOf(s[0]));
      WithoutAbsent(keyOf, s[1..], keyOf(s[0]));
      assert s[..0] + s[1..] == s[1..];
    } else {
      WithoutAt(keyOf, s[1..], i - 1);
      DropOne(s, i);
    }
  }

  lemma DropOne<T>(s: seq<T>, i: nat)
    requires 0 < i < |s|
    ensures [s[0]] + (s[1..][..i - 1] + s[1..][i..]) == s[..i] + s[i + 1..]
  {
  }

  lemma {:induction false} WithoutDistinct<T, K>(keyOf: T -> K, s: seq<T>, key: K)
    requires Distinct(keyOf, s)
    ensures Distinct(keyOf, Without(keyOf, s, key)) && !WrittenAgain(keyOf, Without(keyOf, s, key), key)
  {
    if WrittenAgain(keyOf, s, key) {
      var i: nat :| i < |s| && keyOf(s[i]) == key;
      WithoutAt(keyOf, s, i);
    } else {
      WithoutAbsent(keyOf, s, key);
    }
  }

  /** The reference list grows by one write as the record does. */
  lemma {:induction false} LastWritesNext<T, K>(keyOf: T -> K, writes: seq<T>, e: T)
    ensures LastWrites(keyOf, writes + [e]) == Without(keyOf, LastWrites(keyOf, writes), keyOf(e)) + [e]
  {
    if |writes| == 0 {
      assert writes + [e] == [e] && LastWrites(keyOf, [e][1..]) == [];
    } else {
      var more := writes + [e];
      var rest := LastWrites(keyOf, writes[1..]);
      assert more[1..] == writes[1..] + [e];
      LastWritesNext(keyOf, writes[1..], e);
      AgainAfter(keyOf, writes[1..], e, keyOf(writes[0]));
      WithoutBoth(keyOf, [writes[0]], rest, keyOf(e));
      assert Without(keyOf, [writes[0]], keyOf(e)) == if keyOf(writes[0]) == keyOf(e) then [] else [writes[0]];
    }
  }

  lemma AgainAfter<T, K>(keyOf: T -> K, later: seq<T>, e: T, key: K)
    ensures WrittenAgain(keyOf, later + [e], key) <==> WrittenAgain(keyOf, later, key) || keyOf(e) == key
  {
    if WrittenAgain(keyOf, later, key) {
      var i: nat :| i < |later| && keyOf(later[i]) == key;
      assert (later + [e])[i] == later[i];
    }
    assert (later + [e])[|later|] == e;
  }

  /** Whatever falls off the end would have been among the first to go anyway. */
  lemma TrimThenPush<T, K>(keyOf: T -> K, s: seq<T>, e: T, capacity: nat)
    requires Distinct(keyOf, s)
    ensures Pushed(keyOf, LastOf(s, capacity), e, capacity) == Pushed(keyOf, s, e, capacity)
  {
    if |s| > capacity {
      var cut := |s| - capacity;
      assert s == s[..cut] + s[cut..];
      WithoutBoth(keyOf, s[..cut], s[cut..], keyOf(e));
      AtMostOneGoes(keyOf, s[cut..], keyOf(e));
      Regroup(Without(keyOf, s[..cut], keyOf(e)), Without(keyOf, s[cut..], keyOf(e)), [e]);
      LastOfBoth(Without(keyOf, s[..cut], keyOf(e)), Without(keyOf, s[cut..], keyOf(e)) + [e], capacity);
    }
  }

  lemma LastOfTail<T>(s: seq<T>, n: nat)
    requires |s| > n
    ensures LastOf(s[1..], n) == LastOf(s, n)
  {
  }

  lemma LastOfBoth<T>(a: seq<T>, b: seq<T>, n: nat)
    requires |b| >= n
    ensures LastOf(a + b, n) == LastOf(b, n)
  {
  }

  lemma AtMostOneGoes<T, K>(keyOf: T -> K, s: seq<T>, key: K)
    requires Distinct(keyOf, s)
    ensures |Without(keyOf, s, key)| >= |s| - 1
  {
    if WrittenAgain(keyOf, s, key) {
      var i: nat :| i < |s| && keyOf(s[i]) == key;
      WithoutAt(keyOf, s, i);
    } else {
      WithoutAbsent(keyOf, s, key);
    }
  }

  /** After any run of writes the record holds exactly the `capacity` most
      recently written distinct keys, in order of last write. */
  lemma {:induction false} KeepsLastDistinct<T, K>(keyOf: T -> K, writes: seq<T>, capacity: nat)
    ensures PushAll(keyOf, [], writes, capacity) == LastOf(LastWrites(keyOf, writes), capacity)
    decreases |writes|
  {
    if |writes| > 0 {
      var front, e := writes[..|writes| - 1], writes[|writes| - 1];
      KeepsLastDistinct(keyOf, front, capacity);
      LastWritesDistinct(keyOf, front);
      TrimThenPush(keyOf, LastWrites(keyOf, front), e, capacity);
      assert writes == front + [e];
      LastWritesNext(keyOf, front, e);
    }
  }

  lemma {:induction false} DistinctAreLast<T, K>(keyOf: T -> K, s: seq<T>)
    requires Distinct(keyOf, s)
    ensures LastWrites(keyOf, s) == s
  {
    if |s| > 0 {
      assert forall i :: 0 <= i < |s[1..]| ==> keyOf(s[1..][i]) != keyOf(s[0]);
      DistinctAreLast(keyOf, s[1..]);
      assert s == [s[0]] + s[1..];
    }
  }

  lemma {:induction false} PushAllTwice<T, K>(keyOf: T -> K, s: seq<T>, a: seq<T>, b: seq<T>, capacity: nat)
    ensures PushAll(keyOf, s, a + b, capacity) == PushAll(keyOf, PushAll(keyOf, s, a, capacity), b, capacity)
    decreases |b|
  {
    if |b| == 0 {
      assert a + b == a;
    } else {
      assert (a + b)[..|a + b| - 1] == a + b[..|b| - 1];
      PushAllTwice(keyOf, s, a, b[..|b| - 1], capacity);
    }
  }

  lemma PushAllNext<T, K>(keyOf: T -> K, s: seq<T>, writes: seq<T>, i: nat, capacity: nat)
    requires i < |writes|
    ensures PushAll(keyOf, s, writes[..i + 1], capacity) ==
            Pushed(keyOf, PushAll(keyOf, s, writes[..i], capacity), writes[i], capacity)
  {
    assert writes[..i + 1][..i] == writes[..i];
  }

  /** The same from any record already there: it behaves as if its contents had
      been written first. */
  lemma KeepsLastDistinctFrom<T, K>(keyOf: T -> K, s: seq<T>, writes: seq<T>, capacity: nat)
    requires Distinct(keyOf, s) && |s| <= capacity
    ensures PushAll(keyOf, s, writes, capacity) == LastOf(LastWrites(keyOf, s + writes), capacity)
  {
    KeepsLastDistinct(keyOf, s, capacity);
    DistinctAreLast(keyOf, s);
    PushAllTwice(keyOf, [], s, writes, capacity);
    KeepsLastDistinct(keyOf, s + writes, capacity);
  }

  /** Restoring a saved record gives it back, less what a smaller capacity cuts off. */
  lemma RestoreRoundTrip<T, K>(keyOf: T -> K, s: seq<T>, capacity: nat)
    requires Distinct(keyOf, s)
    ensures PushAll(keyOf, [], s, capacity) == LastOf(s, capacity)
  {
    KeepsLastDistinct(keyOf, s, capacity);
    DistinctAreLast(keyOf, s);
  }

  // ---------------------------------------------------------------------
  // Keys that may not tell everything apart.
  // ---------------------------------------------------------------------

  /** `keyOf` knows no more than `sortOf`. */
  ghost predicate Coarser<T(!new), K, P>(keyOf: T -> K, sortOf: T -> P)
  {
    forall a, b :: sortOf(a) == sortOf(b) ==> keyOf(a) == keyOf(b)
  }

  /** No two of different sorts share a key. */
  ghost predicate Apart<T, K, P>(keyOf: T -> K, sortOf: T -> P, writes: seq<T>)
  {
    forall i, j :: 0 <= i < j < |writes| && keyOf(writes[i]) == keyOf(writes[j]) ==>
      sortOf(writes[i]) == sortOf(writes[j])
  }

  lemma {:induction false} ApartSame<T(!new), K, P>(keyOf: T -> K, sortOf: T -> P, writes: seq<T>)
    requires Coarser(keyOf, sortOf) && Apart(keyOf, sortOf, writes)
    ensures LastWrites(keyOf, writes) == LastWrites(sortOf, writes)
  {
    if |writes| > 0 {
      var first, rest := writes[0], writes[1..];
      assert Apart(keyOf, sortOf, rest);
      ApartSame(keyOf, sortOf, rest);
      if WrittenAgain(keyOf, rest, keyOf(first)) {
        var i: nat :| i < |rest| && keyOf(rest[i]) == keyOf(first);
        assert writes[i + 1] == rest[i] && sortOf(rest[i]) == sortOf(first);
      }
    }
  }

  lemma SharedKeyDiffers<T(!new), K, P>(keyOf: T -> K, sortOf: T -> P, writes: seq<T>, i: nat, j: nat)
    requires i < j < |writes| && keyOf(writes[i]) == keyOf(writes[j]) && sortOf(writes[i]) != sortOf(writes[j])
    requires Coarser(keyOf, sortOf)
    ensures LastWrites(keyOf, writes) != LastWrites(sortOf, writes)
  {
    LastWritesAre(sortOf, writes, i);
    LastWritesAre(sortOf, writes, j);
    LastWritesDistinct(keyOf, writes);
    var last := LastWrites(sortOf, writes);
    var m: nat :| m < |last| && sortOf(last[m]) == sortOf(writes[i]);
    var n: nat :| n < |last| && sortOf(last[n]) == sortOf(writes[j]);
    assert keyOf(last[m]) == keyOf(last[n]) && m != n;
    assert !Distinct(keyOf, last);
  }

  ghost predicate KeepsLast<T, K, P>(keyOf: T -> K, sortOf: T -> P, writes: seq<T>, capacity: nat)
  {
    PushAll(keyOf, [], writes, capacity) == LastOf(LastWrites(sortOf, writes), capacity)
  }

  lemma {:induction false} LastWritesFew<T, K>(keyOf: T -> K, writes: seq<T>)
    ensures |LastWrites(keyOf, writes)| <= |writes|
  {
    if |writes| > 0 { LastWritesFew(keyOf, writes[1..]); }
  }

  /** A record told apart by key keeps the last of every sort, whatever it has room
      for, if and only if no two of different sorts were written under one key. */
  lemma KeepsLastIff<T(!new), K, P>(keyOf: T -> K, sortOf: T -> P, writes: seq<T>)
    requires Coarser(keyOf, sortOf)
    ensures (forall capacity: nat :: KeepsLast(keyOf, sortOf, writes, capacity)) <==> Apart(keyOf, sortOf, writes)
  {
    if Apart(keyOf, sortOf, writes) {
      ApartSame(keyOf, sortOf, writes);
      forall capacity: nat ensures KeepsLast(keyOf, sortOf, writes, capacity) {
        KeepsLastDistinct(keyOf, writes, capacity);
      }
    } else {
      var i: nat, j: nat :| i < j < |writes| && keyOf(writes[i]) == keyOf(writes[j]) &&
                            sortOf(writes[i]) != sortOf(writes[j]);
      SharedKeyDiffers(keyOf, sortOf, writes, i, j);
      KeepsLastDistinct(keyOf, writes, |writes|);
      LastWritesFew(keyOf, writes);
      LastWritesFew(sortOf, writes);
      assert !KeepsLast(keyOf, sortOf, writes, |writes|);
    }
  }

  // ---------------------------------------------------------------------
  // The two indexes.
  // ---------------------------------------------------------------------

  datatype Slot<T> = Slot(at: nat, entry: T)

  function Entries<T>(order: seq<Slot<T>>): (r: seq<T>)
    ensures |r| == |order|
    ensures forall i :: 0 <= i < |r| ==> r[i] == order[i].entry
  {
    seq(|order|, i requires 0 <= i < |order| => order[i].entry)
  }

  ghost predicate InOrder<T>(order: seq<Slot<T>>, next: nat)
  {
    && (forall i :: 0 <= i < |order| ==> order[i].at < next)
    && (forall i, j :: 0 <= i < j < |order| ==> order[i].at < order[j].at)
  }

  ghost predicate Indexed<T, K>(keyOf: T -> K, order: seq<Slot<T>>, position: map<K, nat>)
  {
    forall i :: 0 <= i < |order| ==>
      keyOf(order[i].entry) in position && position[keyOf(order[i].entry)] == order[i].at
  }

  /** `position` is the inverse of `order`, which is in order of write. */
  ghost predicate Inverse<T, K>(keyOf: T -> K, order: seq<Slot<T>>, position: map<K, nat>, next: nat)
  {
    && InOrder(order, next)
    && Indexed(keyOf, order, position)
    && (forall key :: key in position ==> Listed(keyOf, order, key, position[key]))
  }

  ghost predicate Listed<T, K>(keyOf: T -> K, order: seq<Slot<T>>, key: K, at: nat)
  {
    exists i :: 0 <= i < |order| && keyOf(order[i].entry) == key && order[i].at == at
  }

  lemma InverseDistinct<T, K>(keyOf: T -> K, order: seq<Slot<T>>, position: map<K, nat>, next: nat)
    requires Inverse(keyOf, order, position, next)
    ensures Distinct(keyOf, Entries(order))
  {
    forall i, j | 0 <= i < j < |order| ensures keyOf(order[i].entry) != keyOf(order[j].entry) {
      assert order[i].at < order[j].at;
    }
  }

  lemma StillListed<T, K>(keyOf: T -> K, order: seq<Slot<T>>, i: nat, key: K, at: nat)
    requires i < |order| && Listed(keyOf, order, key, at) && keyOf(order[i].entry) != key
    ensures Listed(keyOf, DropAt(order, i), key, at)
  {
    var j: nat :| j < |order| && keyOf(order[j].entry) == key && order[j].at == at;
    assert DropAt(order, i)[if j < i then j else j - 1] == order[j];
  }

  function DropAt<T>(s: seq<T>, i: nat): (r: seq<T>)
    requires i < |s|
    ensures |r| == |s| - 1
    ensures forall j :: 0 <= j < |r| ==> r[j] == s[if j < i then j else j + 1]
  {
    s[..i] + s[i + 1..]
  }

  lemma InOrderRemove<T>(order: seq<Slot<T>>, next: nat, i: nat)
    requires i < |order| && InOrder(order, next)
    ensures InOrder(DropAt(order, i), next)
  {
  }

  lemma IndexedRemove<T, K>(keyOf: T -> K, order: seq<Slot<T>>, position: map<K, nat>, next: nat, i: nat)
    requires i < |order| && InOrder(order, next) && Indexed(keyOf, order, position)
    ensures Indexed(keyOf, DropAt(order, i), position - {keyOf(order[i].entry)})
  {
    var left := DropAt(order, i);
    forall j | 0 <= j < |left| ensures keyOf(left[j].entry) != keyOf(order[i].entry) {
      var was := if j < i then j else j + 1;
      assert left[j] == order[was] && order[was].at != order[i].at;
    }
  }

  lemma InverseRemove<T, K>(keyOf: T -> K, order: seq<Slot<T>>, position: map<K, nat>, next: nat, i: nat)
    requires i < |order| && Inverse(keyOf, order, position, next)
    ensures Inverse(keyOf, DropAt(order, i), position - {keyOf(order[i].entry)}, next)
  {
    InOrderRemove(order, next, i);
    IndexedRemove(keyOf, order, position, next, i);
    var rest := position - {keyOf(order[i].entry)};
    forall k | k in rest ensures Listed(keyOf, DropAt(order, i), k, rest[k]) {
      StillListed(keyOf, order, i, k, position[k]);
    }
  }

  /** The oldest goes, and with it its place in the other index. */
  lemma DropOldest<T, K>(keyOf: T -> K, order: seq<Slot<T>>, position: map<K, nat>, next: nat, size: nat)
    requires Inverse(keyOf, order, position, next) && |order| > size
    ensures Inverse(keyOf, order[1..], position - {keyOf(order[0].entry)}, next)
    ensures LastOf(Entries(order[1..]), size) == LastOf(Entries(order), size)
  {
    InverseRemove(keyOf, order, position, next, 0);
    assert DropAt(order, 0) == order[1..];
    assert Entries(order[1..]) == Entries(order)[1..];
    LastOfTail(Entries(order), size);
  }

  lemma ContentsRemove<T, K>(keyOf: T -> K, order: seq<Slot<T>>, position: map<K, nat>, next: nat, i: nat)
    requires i < |order| && Inverse(keyOf, order, position, next)
    ensures Entries(DropAt(order, i)) == Without(keyOf, Entries(order), keyOf(order[i].entry))
  {
    InverseDistinct(keyOf, order, position, next);
    WithoutAt(keyOf, Entries(order), i);
    assert Entries(DropAt(order, i)) == Entries(order)[..i] + Entries(order)[i + 1..];
  }

  lemma InverseAppend<T, K>(keyOf: T -> K, order: seq<Slot<T>>, position: map<K, nat>, next: nat, e: T)
    requires Inverse(keyOf, order, position, next) && keyOf(e) !in position
    ensures Inverse(keyOf, order + [Slot(next, e)], position[keyOf(e) := next], next + 1)
  {
    var more, grown := order + [Slot(next, e)], position[keyOf(e) := next];
    forall k | k in grown ensures Listed(keyOf, more, k, grown[k]) {
      if k == keyOf(e) {
        assert more[|order|].entry == e;
      } else {
        var j: nat :| j < |order| && keyOf(order[j].entry) == k && order[j].at == position[k];
        assert more[j] == order[j];
      }
    }
  }

  lemma AbsentKey<T, K>(keyOf: T -> K, order: seq<Slot<T>>, position: map<K, nat>, next: nat, key: K)
    requires Inverse(keyOf, order, position, next) && key !in position
    ensures Without(keyOf, Entries(order), key) == Entries(order)
  {
    WithoutAbsent(keyOf, Entries(order), key);
  }

  method Find<T>(order: seq<Slot<T>>, at: nat) returns (i: nat)
    requires exists j :: 0 <= j < |order| && order[j].at == at
    ensures i < |order| && order[i].at == at
  {
    i := 0;
    while order[i].at != at
      invariant i < |order| && forall j :: 0 <= j < i ==> order[j].at != at
      decreases |order| - i
    {
      i := i + 1;
    }
  }

  lemma SameSlot<T, K>(keyOf: T -> K, order: seq<Slot<T>>, position: map<K, nat>, next: nat, key: K, i: nat)
    requires Inverse(keyOf, order, position, next) && key in position && i < |order| && order[i].at == position[key]
    ensures keyOf(order[i].entry) == key
  {
    var j: nat :| j < |order| && keyOf(order[j].entry) == key && order[j].at == position[key];
  }

  // ---------------------------------------------------------------------
  // Removing several keys.
  // ---------------------------------------------------------------------

  function WithoutAll<T, K(==)>(keyOf: T -> K, s: seq<T>, keys: seq<K>): seq<T>
    decreases |keys|
  {
    if |keys| == 0 then s else WithoutAll(keyOf, Without(keyOf, s, keys[0]), keys[1..])
  }

  lemma {:induction false} WithoutAllBehind<T, K>(keyOf: T -> K, e: T, s: seq<T>, keys: seq<K>)
    requires keyOf(e) !in keys
    ensures WithoutAll(keyOf, [e] + s, keys) == [e] + WithoutAll(keyOf, s, keys)
    decreases |keys|
  {
    if |keys| > 0 {
      assert keys[0] in keys;
      assert ([e] + s)[1..] == s;
      WithoutAllBehind(keyOf, e, Without(keyOf, s, keys[0]), keys[1..]);
    }
  }
}
