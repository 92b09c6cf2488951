/** The streaming and one-shot forms of XXH32 and XXH64 (`xxhash.c`).

    Both hashes run the same control flow over different lane widths and arithmetic, so
    the control flow is written once over a `Kernel`; `Kernel32` and `Kernel64` supply the
    arithmetic of each.
 */
module XxHash {

  type byte = bv8

  const TWO_64: nat := 0x1_0000_0000_0000_0000

  datatype Lanes<V> = Lanes(v1: V, v2: V, v3: V, v4: V)

  /** `lane` bytes feed one of four accumulators; four lanes make a stripe.
      - `init`: accumulators from the seed
      - `round`: one lane into one accumulator
      - `merge`, `short`: start of the tail hash for long and for short inputs
      - `addLen`: mixes in the input length
      - `word`, `half`, `one`: tail steps of `lane`, four and one bytes
      - `finish`: the avalanche */
  datatype Kernel<!V> = Kernel(
    lane: nat,
    hasHalf: bool,
    init: V -> Lanes<V>,
    round: (V, seq<byte>) -> V,
    merge: Lanes<V> -> V,
    short: V -> V,
    addLen: (V, nat) -> V,
    word: (V, seq<byte>) -> V,
    half: (V, seq<byte>) -> V,
    one: (V, byte) -> V,
    finish: V -> V)
  {
    predicate Valid() { lane > 0 }

    function Width(): nat { 4 * lane }
  }

  // ---------- what the hash of a byte string is ----------

  function Stripe<V>(k: Kernel<V>, v: Lanes<V>, s: seq<byte>): Lanes<V>
    requires |s| == k.Width()
  {
    Lanes(k.round(v.v1, s[..k.lane]),
          k.round(v.v2, s[k.lane..2 * k.lane]),
          k.round(v.v3, s[2 * k.lane..3 * k.lane]),
          k.round(v.v4, s[3 * k.lane..]))
  }

  /** All whole stripes of `s`, in order. */
  function Stripes<V>(k: Kernel<V>, v: Lanes<V>, s: seq<byte>): Lanes<V>
    requires k.Valid()
    decreases |s|
  {
    if |s| < k.Width() then v
    else Stripes(k, Stripe(k, v, s[..k.Width()]), s[k.Width()..])
  }

  /** The bytes after the last whole stripe. */
  function Rest<V>(k: Kernel<V>, s: seq<byte>): seq<byte>
    requires k.Valid()
    decreases |s|
  {
    if |s| < k.Width() then s else Rest(k, s[k.Width()..])
  }

  function Bytes<V>(k: Kernel<V>, h: V, t: seq<byte>): V {
    if t == [] then h else Bytes(k, k.one(h, t[0]), t[1..])
  }

  function Tail<V>(k: Kernel<V>, h: V, t: seq<byte>): V
    requires k.Valid()
    decreases |t|
  {
    if |t| >= k.lane then Tail(k, k.word(h, t[..k.lane]), t[k.lane..])
    else if k.hasHalf && |t| >= 4 then Bytes(k, k.half(h, t[..4]), t[4..])
    else Bytes(k, h, t)
  }

  /** The hash of `s` when its length is recorded as `len`. */
  function HashAs<V>(k: Kernel<V>, seed: V, s: seq<byte>, len: nat): V
    requires k.Valid()
  {
    var h := if len >= k.Width() then k.merge(Stripes(k, k.init(seed), s)) else k.short(seed);
    k.finish(Tail(k, k.addLen(h, len), Rest(k, s)))
  }

  function Hash<V>(k: Kernel<V>, seed: V, s: seq<byte>): V
    requires k.Valid()
  {
    HashAs(k, seed, s, |s|)
  }

  // ---------- segmentation ----------

  /** Whole stripes may be absorbed before the rest of the input is known. */
  lemma {:induction false} StripesSplit<V>(k: Kernel<V>, v: Lanes<V>, a: seq<byte>, b: seq<byte>)
    requires k.Valid() && |Rest(k, a)| == 0
    ensures Stripes(k, v, a + b) == Stripes(k, Stripes(k, v, a), b)
    ensures Rest(k, a + b) == Rest(k, b)
    decreases |a|
  {
    if |a| < k.Width() {
      assert a + b == b;
    } else {
      var w := k.Width();
      assert (a + b)[..w] == a[..w] && (a + b)[w..] == a[w..] + b;
      StripesSplit(k, Stripe(k, v, a[..w]), a[w..], b);
    }
  }

  /** A byte string is its whole stripes followed by its rest. */
  lemma {:induction false} StripesAndRest<V>(k: Kernel<V>, v: Lanes<V>, s: seq<byte>)
    requires k.Valid()
    ensures |Rest(k, s)| < k.Width() && |Rest(k, s)| <= |s|
    ensures var whole := s[..|s| - |Rest(k, s)|];
      && s == whole + Rest(k, s)
      && Rest(k, whole) == []
      && Stripes(k, v, whole) == Stripes(k, v, s)
    decreases |s|
  {
    if |s| >= k.Width() {
      var w := k.Width();
      StripesAndRest(k, Stripe(k, v, s[..w]), s[w..]);
      var whole := s[..|s| - |Rest(k, s)|];
      assert whole[..w] == s[..w];
      assert whole[w..] == s[w..][..|s[w..]| - |Rest(k, s)|];
    }
  }

  /** Appending to a string: only the rest of the old part meets the new bytes. */
  lemma Append<V>(k: Kernel<V>, v: Lanes<V>, a: seq<byte>, b: seq<byte>)
    requires k.Valid()
    ensures Stripes(k, v, a + b) == Stripes(k, Stripes(k, v, a), Rest(k, a) + b)
    ensures Rest(k, a + b) == Rest(k, Rest(k, a) + b)
  {
    StripesAndRest(k, v, a);
    var whole := a[..|a| - |Rest(k, a)|];
    assert a + b == whole + (Rest(k, a) + b);
    StripesSplit(k, v, whole, Rest(k, a) + b);
  }

  // ---------- the tail loops, shared by the one-shot hash and the digest ----------

  method HashTail<V>(k: Kernel<V>, h0: V, t: seq<byte>) returns (h: V)
    requires k.Valid()
    ensures h == k.finish(Tail(k, h0, t))
  {
    h := h0;
    var p := 0;
    while p + k.lane <= |t|
      invariant p <= |t| && Tail(k, h, t[p..]) == Tail(k, h0, t)
    {
      assert t[p..][..k.lane] == t[p..p + k.lane] && t[p..][k.lane..] == t[p + k.lane..];
      h := k.word(h, t[p..p + k.lane]);
      p := p + k.lane;
    }
    assert |t[p..]| < k.lane;
    ghost var goal := Tail(k, h0, t);
    if k.hasHalf && p + 4 <= |t| {
      assert t[p..][..4] == t[p..p + 4] && t[p..][4..] == t[p + 4..];
      h := k.half(h, t[p..p + 4]);
      p := p + 4;
    }
    while p < |t|
      invariant p <= |t| && Bytes(k, h, t[p..]) == goal
    {
      assert t[p..][1..] == t[p + 1..];
      h := k.one(h, t[p]);
      p := p + 1;
    }
    h := k.finish(h);
  }

  /** `XXH32_endian_align` / `XXH64_endian_align`. */
  method OneShot<V>(k: Kernel<V>, input: seq<byte>, seed: V) returns (h: V)
    requires k.Valid()
    ensures h == Hash(k, seed, input)
  {
    var w := k.Width();
    var p := 0;
    if |input| >= w {
      var v := k.init(seed);
      while p + w <= |input|
        invariant p <= |input|
        invariant Stripes(k, v, input[p..]) == Stripes(k, k.init(seed), input)
        invariant Rest(k, input[p..]) == Rest(k, input)
      {
        assert input[p..][..w] == input[p..p + w] && input[p..][w..] == input[p + w..];
        v := Stripe(k, v, input[p..p + w]);
        p := p + w;
      }
      h := k.merge(v);
    } else {
      h := k.short(seed);
    }
    h := HashTail(k, k.addLen(h, |input|), input[p..]);
  }

  // ---------- the streaming state ----------

  /** A 64-bit counter after one more addition. */
  lemma CounterAdds(a: nat, b: nat)
    ensures (a % TWO_64 + b) % TWO_64 == (a + b) % TWO_64
  {
    var q := a / TWO_64;
    assert a + b == (a % TWO_64 + b) + q * TWO_64;
  }

  class Stream<V> {
    const k: Kernel<V>
    var totalLen: nat          // a 64-bit counter
    var seed: V
    var v: Lanes<V>
    var mem: array<byte>       // one stripe
    var memsize: nat
    ghost var absorbed: seq<byte>

    ghost predicate Valid()
      reads this, mem
    {
      && k.Valid()
      && mem.Length == k.Width()
      && memsize < k.Width()
      && mem[..memsize] == Rest(k, absorbed)
      && v == Stripes(k, k.init(seed), absorbed)
      && totalLen == |absorbed| % TWO_64
    }

    /** Allocation followed by `XXH32_reset` / `XXH64_reset`. */
    constructor (k: Kernel<V>, seed: V)
      requires k.Valid()
      ensures Valid() && fresh(mem) && this.k == k && this.seed == seed && absorbed == []
    {
      this.k := k;
      this.seed := seed;
      v := k.init(seed);
      totalLen := 0;
      memsize := 0;
      mem := new byte[k.Width()](_ => 0);
      absorbed := [];
    }

    method Reset(seed: V)
      requires Valid()
      modifies this
      ensures Valid() && mem == old(mem) && this.seed == seed && absorbed == []
    {
      this.seed := seed;
      v := k.init(seed);
      totalLen := 0;
      memsize := 0;
      absorbed := [];
      assert mem[..memsize] == [];
    }

    /** The stripe loop of the update: consumes whole stripes of `input` from `start` on. */
    method AbsorbStripes(input: seq<byte>, start: nat) returns (p: nat)
      requires k.Valid() && start <= |input|
      modifies this`v
      ensures p <= |input| && input[p..] == Rest(k, input[start..])
      ensures v == Stripes(k, old(v), input[start..])
    {
      var w := k.Width();
      p := start;
      while p + w <= |input|
        invariant p <= |input|
        invariant Stripes(k, v, input[p..]) == Stripes(k, old(v), input[start..])
        invariant Rest(k, input[p..]) == Rest(k, input[start..])
      {
        assert input[p..][..w] == input[p..p + w] && input[p..][w..] == input[p + w..];
        v := Stripe(k, v, input[p..p + w]);
        p := p + w;
      }
    }

    /** The part of the update that runs once a stripe is complete: `mem` is filled up from
        the input and absorbed, then whole stripes of the input, then the rest is kept. */
    method AbsorbAll(input: seq<byte>)
      requires k.Valid() && mem.Length == k.Width()
      requires memsize < k.Width() <= memsize + |input|
      modifies this`v, this`memsize, mem
      ensures memsize < k.Width()
      ensures v == Stripes(k, old(v), old(mem[..memsize]) + input)
      ensures mem[..memsize] == Rest(k, old(mem[..memsize]) + input)
    {
      var w := k.Width();
      ghost var pending := mem[..memsize] + input;
      var p := 0;
      if memsize > 0 {
        p := w - memsize;
        CopyIn(memsize, input[..p]);
        assert mem[..] == pending[..w] && pending[w..] == input[p..];
        v := Stripe(k, v, mem[..]);
        memsize := 0;
      } else {
        assert pending == input[p..];
      }
      p := AbsorbStripes(input, p);
      StripesAndRest(k, v, pending);
      if p < |input| {
        CopyIn(0, input[p..]);
        memsize := |input| - p;
      }
      assert mem[..memsize] == input[p..];
    }

    /** Too little for a stripe: everything is kept. */
    method Keep(input: seq<byte>)
      requires k.Valid() && mem.Length == k.Width()
      requires memsize + |input| < k.Width()
      modifies this`memsize, mem
      ensures memsize < k.Width()
      ensures v == Stripes(k, v, old(mem[..memsize]) + input)
      ensures mem[..memsize] == Rest(k, old(mem[..memsize]) + input)
    {
      ghost var pending := mem[..memsize] + input;
      CopyIn(memsize, input);
      memsize := memsize + |input|;
      assert mem[..memsize] == pending;
    }

    /** `XXH32_update_endian` / `XXH64_update_endian`. */
    method Update(input: seq<byte>)
      requires Valid()
      modifies this`totalLen, this`v, this`memsize, this`absorbed, mem
      ensures Valid()
      ensures absorbed == old(absorbed) + input
    {
      ghost var all, kept := absorbed + input, mem[..memsize];
      assert Stripes(k, k.init(seed), all) == Stripes(k, v, kept + input) && Rest(k, all) == Rest(k, kept + input) by {
        Append(k, k.init(seed), absorbed, input);
      }
      assert (totalLen + |input|) % TWO_64 == |all| % TWO_64 by {
        CounterAdds(|absorbed|, |input|);
      }
      totalLen := (totalLen + |input|) % TWO_64;
      absorbed := all;
      if memsize + |input| < k.Width() {
        Keep(input);
      } else {
        AbsorbAll(input);
      }
    }

    /** memcpy into the stripe buffer. */
    method CopyIn(at: nat, bytes: seq<byte>)
      requires at + |bytes| <= mem.Length
      modifies mem
      ensures mem[..at] == old(mem[..at])
      ensures mem[at..at + |bytes|] == bytes
    {
      forall i | 0 <= i < |bytes| {
        mem[at + i] := bytes[i];
      }
    }

    /** `XXH32_digest_endian` / `XXH64_digest_endian`: reads the state and changes nothing. */
    method Digest() returns (h: V)
      requires Valid()
      ensures h == HashAs(k, seed, absorbed, |absorbed| % TWO_64)
      ensures |absorbed| < TWO_64 ==> h == Hash(k, seed, absorbed)
    {
      if totalLen >= k.Width() {
        h := k.merge(v);
      } else {
        h := k.short(seed);
      }
      h := HashTail(k, k.addLen(h, totalLen), mem[..memsize]);
    }
  }

  function Concat(chunks: seq<seq<byte>>): seq<byte> {
    if chunks == [] then [] else Concat(chunks[..|chunks| - 1]) + chunks[|chunks| - 1]
  }

  /** Feeding a string in any pieces, and asking for a digest after each piece, gives the
      one-shot hash of the whole string. */
  method HashInPieces<V>(k: Kernel<V>, chunks: seq<seq<byte>>, seed: V) returns (h: V, running: seq<V>)
    requires k.Valid()
    requires |Concat(chunks)| < TWO_64
    ensures h == Hash(k, seed, Concat(chunks))
    ensures |running| == |chunks| && forall i | 0 <= i < |chunks| :: running[i] == Hash(k, seed, Concat(chunks[..i + 1]))
  {
    var s := new Stream(k, seed);
    running := [];
    for i := 0 to |chunks|
      invariant s.Valid() && fresh(s) && fresh(s.mem) && s.k == k && s.seed == seed
      invariant s.absorbed == Concat(chunks[..i])
      invariant |running| == i && forall j | 0 <= j < i :: running[j] == Hash(k, seed, Concat(chunks[..j + 1]))
    {
      s.Update(chunks[i]);
      assert chunks[..i + 1][..i] == chunks[..i];
      ConcatPrefixShorter(chunks, i + 1);
      var d := s.Digest();
      running := running + [d];
    }
    assert chunks[..|chunks|] == chunks;
    h := s.Digest();
  }

  lemma {:induction false} ConcatPrefixShorter(chunks: seq<seq<byte>>, i: nat)
    requires i <= |chunks|
    ensures |Concat(chunks[..i])| <= |Concat(chunks)|
    decreases |chunks|
  {
    if i == |chunks| {
      assert chunks[..i] == chunks;
    } else {
      assert chunks[..|chunks| - 1][..i] == chunks[..i];
      ConcatPrefixShorter(chunks[..|chunks| - 1], i);
    }
  }
}
