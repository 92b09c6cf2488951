/**
 * Replaying a received batch of log entries on a slave.
 *
 * A removal directly followed by a packet that re-adds the same key is not carried
 * out: the addition will replace the item anyway. The test for "the same key" compares
 * the removed key with that many bytes of the next packet's data, which hold the next
 * key, then its value, then whatever follows; so it can also fire for another key.
 */
module TidReplay {
  import opened TidLog

  /** A received packet: the entry and, for an addition, the memory from its key on. */
  datatype Pkt = Pkt(rec: Rec, data: Str)

  predicate Starts(data: Str, k: Str) {
    |k| <= |data| && data[..|k|] == k
  }

  /** The removal at the head is left to the addition that follows it. */
  predicate Skips(s: Store, pkts: seq<Pkt>) {
    && |pkts| > 1 && pkts[0].rec.Rem? && pkts[0].rec.gone != FlushAll
    && pkts[0].rec.gone in s.log && s.log[pkts[0].rec.gone].Put?
    && pkts[1].rec.Add? && Starts(pkts[1].data, s.log[pkts[0].rec.gone].key)
  }

  function Step(s: Store, pkts: seq<Pkt>): Store
    requires pkts != []
  {
    if Skips(s, pkts) then Note(s, pkts[0].rec.tid, pkts[0].rec.gone) else Apply(s, pkts[0].rec)
  }

  /** The loop of `tidSetItems`: it stops at the first packet out of sequence. */
  function Replay(s: Store, pkts: seq<Pkt>): Store
    decreases |pkts|
  {
    if pkts == [] || pkts[0].rec.tid <= s.last then s
    else Replay(Step(s, pkts), pkts[1..])
  }

  /** How many packets it takes. */
  function Taken(s: Store, pkts: seq<Pkt>): (n: nat)
    ensures n <= |pkts|
    decreases |pkts|
  {
    if pkts == [] || pkts[0].rec.tid <= s.last then 0
    else 1 + Taken(Step(s, pkts), pkts[1..])
  }

  /** The same loop with every removal carried out. */
  function Performed(s: Store, pkts: seq<Pkt>): Store
    decreases |pkts|
  {
    if pkts == [] || pkts[0].rec.tid <= s.last then s
    else Performed(Apply(s, pkts[0].rec), pkts[1..])
  }

  /** Every removal left out is followed by an addition of that very key, in sequence. */
  predicate NoMisfire(s: Store, pkts: seq<Pkt>)
    decreases |pkts|
  {
    pkts == [] || pkts[0].rec.tid <= s.last ||
    ((Skips(s, pkts) ==> Replaces(s, pkts)) && NoMisfire(Apply(s, pkts[0].rec), pkts[1..]))
  }

  predicate Replaces(s: Store, pkts: seq<Pkt>)
    requires Skips(s, pkts)
  {
    && pkts[1].rec.key == s.log[pkts[0].rec.gone].key
    && pkts[0].rec.tid < pkts[1].rec.tid
  }

  // ----- TIDs and prefixes -----

  lemma StepLast(s: Store, pkts: seq<Pkt>)
    requires pkts != []
    ensures Step(s, pkts).last == pkts[0].rec.tid == Apply(s, pkts[0].rec).last
  {
  }

  /**
   * The packets taken are exactly the longest prefix with ascending TIDs above the
   * slave's last one, the last TID ends at the last packet taken, and stopping early
   * leaves the same state as a batch of that prefix alone.
   */
  lemma {:induction false} ReplayTakesPrefix(s: Store, pkts: seq<Pkt>)
    ensures var n := Taken(s, pkts);
      && Replay(s, pkts).last == (if n == 0 then s.last else pkts[n - 1].rec.tid)
      && (forall i :: 0 <= i < n ==> (if i == 0 then s.last else pkts[i - 1].rec.tid) < pkts[i].rec.tid)
      && (n < |pkts| ==> pkts[n].rec.tid <= Replay(s, pkts).last)
    decreases |pkts|
  {
    if pkts != [] && s.last < pkts[0].rec.tid {
      var s1 := Step(s, pkts);
      StepLast(s, pkts);
      ReplayTakesPrefix(s1, pkts[1..]);
      var n := Taken(s, pkts);
      assert n == 1 + Taken(s1, pkts[1..]);
      forall i | 0 <= i < n
        ensures (if i == 0 then s.last else pkts[i - 1].rec.tid) < pkts[i].rec.tid
      {
        if i > 0 { assert pkts[i] == pkts[1..][i - 1]; }
      }
    }
  }

  // ----- the lookahead -----

  /** Leaving a removal to the addition of the same key changes nothing. */
  lemma SkipReplaces(s: Store, pkts: seq<Pkt>)
    requires Consistent(s) && Skips(s, pkts) && Replaces(s, pkts) && s.last < pkts[0].rec.tid
    ensures Apply(Step(s, pkts), pkts[1].rec) == Apply(Apply(s, pkts[0].rec), pkts[1].rec)
  {
    var d := pkts[0].rec.gone;
    assert EntryOk(s, d);
    var x := Apply(Step(s, pkts), pkts[1].rec);
    var y := Apply(Apply(s, pkts[0].rec), pkts[1].rec);
    assert x.items == y.items;
    assert x.log == y.log;
  }

  /** Without misfires the replay does what the log says. */
  lemma {:induction false} LookaheadSound(s: Store, pkts: seq<Pkt>)
    requires Consistent(s) && NoMisfire(s, pkts)
    ensures Replay(s, pkts) == Performed(s, pkts)
    decreases |pkts|
  {
    if pkts != [] && s.last < pkts[0].rec.tid {
      var a := Apply(s, pkts[0].rec);
      ApplyConsistent(s, pkts[0].rec);
      if Skips(s, pkts) {
        var rest := pkts[1..];
        SkipReplaces(s, pkts);
        ApplyConsistent(a, rest[0].rec);
        assert !Skips(a, rest) && !Skips(Step(s, pkts), rest);
        LookaheadSound(Apply(a, rest[0].rec), rest[1..]);
      } else {
        LookaheadSound(a, pkts[1..]);
      }
    }
  }

  lemma {:induction false} PrefixNoMisfire(s: Store, pkts: seq<Pkt>, n: nat)
    requires NoMisfire(s, pkts) && n <= |pkts|
    ensures NoMisfire(s, pkts[..n])
    decreases |pkts|
  {
    if n > 0 && s.last < pkts[0].rec.tid {
      PrefixNoMisfire(Apply(s, pkts[0].rec), pkts[1..], n - 1);
      assert pkts[..n][1..] == pkts[1..][..n - 1];
    }
  }

  /** A removal left to an addition that does not replace the item leaves the item in place. */
  lemma MisfireShows(s: Store, pkts: seq<Pkt>)
    requires Consistent(s) && Skips(s, pkts) && s.last < pkts[0].rec.tid && !Replaces(s, pkts)
    ensures Replay(s, pkts[..2]) != Performed(s, pkts[..2])
  {
    var two := pkts[..2];
    var d := pkts[0].rec.gone;
    var k := s.log[d].key;
    var a := Apply(s, pkts[0].rec);
    var b := Step(s, pkts);
    assert EntryOk(s, d);
    assert Skips(s, two) && Step(s, two) == b;
    assert two[1..] == [pkts[1]];
    assert k in b.items && k !in a.items;
    if pkts[0].rec.tid < pkts[1].rec.tid {
      assert Replay(b, [pkts[1]]) == Apply(b, pkts[1].rec) by { assert [pkts[1]][1..] == []; }
      assert Performed(a, [pkts[1]]) == Apply(a, pkts[1].rec) by { assert [pkts[1]][1..] == []; }
      assert k in Apply(b, pkts[1].rec).items && k !in Apply(a, pkts[1].rec).items;
    } else {
      assert Replay(b, [pkts[1]]) == b && Performed(a, [pkts[1]]) == a;
    }
  }

  lemma {:induction false} MisfireFound(s: Store, pkts: seq<Pkt>) returns (n: nat)
    requires Consistent(s) && !NoMisfire(s, pkts)
    ensures 2 <= n <= |pkts| && Replay(s, pkts[..n]) != Performed(s, pkts[..n])
    decreases |pkts|
  {
    var a := Apply(s, pkts[0].rec);
    ApplyConsistent(s, pkts[0].rec);
    if !Skips(s, pkts) {
      n := MisfireFound(a, pkts[1..]);
      n := n + 1;
      assert pkts[..n][1..] == pkts[1..][..n - 1];
      assert !Skips(s, pkts[..n]);
    } else if !Replaces(s, pkts) {
      MisfireShows(s, pkts);
      n := 2;
    } else {
      var rest := pkts[1..];
      SkipReplaces(s, pkts);
      ApplyConsistent(a, rest[0].rec);
      assert !Skips(a, rest);
      n := MisfireFound(Apply(a, rest[0].rec), rest[1..]);
      n := n + 2;
      var cut := pkts[..n];
      assert cut[1..][1..] == rest[1..][..n - 2];
      assert Skips(s, cut) && Step(s, cut) == Step(s, pkts);
      assert !Skips(Step(s, cut), cut[1..]) && !Skips(a, cut[1..]);
    }
  }

  /**
   * The lookahead is invisible, however much of the batch has arrived, exactly when
   * it never fires for another key or for an addition that is out of sequence.
   */
  lemma LookaheadExactly(s: Store, pkts: seq<Pkt>)
    requires Consistent(s)
    ensures NoMisfire(s, pkts) <==>
      forall n :: 0 <= n <= |pkts| ==> Replay(s, pkts[..n]) == Performed(s, pkts[..n])
  {
    if NoMisfire(s, pkts) {
      forall n | 0 <= n <= |pkts| ensures Replay(s, pkts[..n]) == Performed(s, pkts[..n]) {
        PrefixNoMisfire(s, pkts, n);
        LookaheadSound(s, pkts[..n]);
      }
    } else {
      var n := MisfireFound(s, pkts);
    }
  }

  /**
   * The test fires for the wrong key in two ways: the removed key is a proper prefix of
   * the next one, or the next key is a proper prefix of it and the bytes after the next
   * key carry on with the rest of it.
   */
  lemma FiresForAnotherKey(key: Str, after: Str, k: Str)
    ensures Starts(key + after, k) && k != key <==>
      (|k| < |key| && Starts(key, k)) || (|key| < |k| && Starts(k, key) && Starts(after, k[|key|..]))
  {
    var data := key + after;
    if |k| <= |key| {
      assert data[..|k|] == key[..|k|];
    } else if |k| <= |data| {
      var m := |key|;
      assert data[..|k|] == key + after[..|k| - m];
      assert k == k[..m] + k[m..];
      if data[..|k|] == k {
        assert k[..m] == data[..|k|][..m] == key;
        assert k[m..] == data[..|k|][m..] == after[..|k| - m];
      }
    }
  }
}
