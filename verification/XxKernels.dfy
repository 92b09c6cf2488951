/** The 32-bit and 64-bit arithmetic of xxHash (`xxhash.c`), as kernels of `XxHash`. */
module XxKernels {
  import opened XxHash

  const PRIME32_1: bv32 := 2654435761
  const PRIME32_2: bv32 := 2246822519
  const PRIME32_3: bv32 := 3266489917
  const PRIME32_4: bv32 := 668265263
  const PRIME32_5: bv32 := 374761393

  const PRIME64_1: bv64 := 11400714785074694791
  const PRIME64_2: bv64 := 14029467366897019727
  const PRIME64_3: bv64 := 1609587929392839161
  const PRIME64_4: bv64 := 9650029242287828579
  const PRIME64_5: bv64 := 2870177450012600261

  /** `XXH_readLE32`. */
  function ReadLE32(s: seq<byte>): bv32 {
    if |s| < 4 then 0
    else (s[0] as bv32) | ((s[1] as bv32) << 8) | ((s[2] as bv32) << 16) | ((s[3] as bv32) << 24)
  }

  /** `XXH_readLE64`. */
  function ReadLE64(s: seq<byte>): bv64 {
    if |s| < 8 then 0
    else (ReadLE32(s[..4]) as bv64) | ((ReadLE32(s[4..8]) as bv64) << 32)
  }

  function Round32(acc: bv32, s: seq<byte>): bv32 {
    (acc + ReadLE32(s) * PRIME32_2).RotateLeft(13) * PRIME32_1
  }

  function Avalanche32(h: bv32): bv32 {
    var a := (h ^ (h >> 15)) * PRIME32_2;
    var b := (a ^ (a >> 13)) * PRIME32_3;
    b ^ (b >> 16)
  }

  function Init32(seed: bv32): Lanes<bv32> {
    Lanes(seed + PRIME32_1 + PRIME32_2, seed + PRIME32_2, seed, seed - PRIME32_1)
  }

  function Merge32(v: Lanes<bv32>): bv32 {
    v.v1.RotateLeft(1) + v.v2.RotateLeft(7) + v.v3.RotateLeft(12) + v.v4.RotateLeft(18)
  }

  function Short32(seed: bv32): bv32 { seed + PRIME32_5 }

  /** `h32 += (U32) len`. */
  function AddLen32(h: bv32, len: nat): bv32 { h + ((len % 0x1_0000_0000) as bv32) }

  function Word32(h: bv32, s: seq<byte>): bv32 {
    (h + ReadLE32(s) * PRIME32_3).RotateLeft(17) * PRIME32_4
  }

  /** XXH32 has no four-byte step after its word loop. */
  function NoHalf(h: bv32, s: seq<byte>): bv32 { h }

  function Byte32(h: bv32, b: byte): bv32 {
    (h + (b as bv32) * PRIME32_5).RotateLeft(11) * PRIME32_1
  }

  function Kernel32(): (k: Kernel<bv32>)
    ensures k.Valid() && k.Width() == 16
  {
    Kernel(4, false, Init32, Round32, Merge32, Short32, AddLen32, Word32, NoHalf, Byte32, Avalanche32)
  }

  function Scramble64(v: bv64): bv64 {
    (v * PRIME64_2).RotateLeft(31) * PRIME64_1
  }

  function MergeLane64(h: bv64, v: bv64): bv64 {
    (h ^ Scramble64(v)) * PRIME64_1 + PRIME64_4
  }

  function Merge64(v: Lanes<bv64>): bv64 {
    var h := v.v1.RotateLeft(1) + v.v2.RotateLeft(7) + v.v3.RotateLeft(12) + v.v4.RotateLeft(18);
    MergeLane64(MergeLane64(MergeLane64(MergeLane64(h, v.v1), v.v2), v.v3), v.v4)
  }

  function Avalanche64(h: bv64): bv64 {
    var a := (h ^ (h >> 33)) * PRIME64_2;
    var b := (a ^ (a >> 29)) * PRIME64_3;
    b ^ (b >> 32)
  }

  function Init64(seed: bv64): Lanes<bv64> {
    Lanes(seed + PRIME64_1 + PRIME64_2, seed + PRIME64_2, seed, seed - PRIME64_1)
  }

  function Round64(acc: bv64, s: seq<byte>): bv64 {
    (acc + ReadLE64(s) * PRIME64_2).RotateLeft(31) * PRIME64_1
  }

  function Short64(seed: bv64): bv64 { seed + PRIME64_5 }

  function AddLen64(h: bv64, len: nat): bv64 { h + ((len % TWO_64) as bv64) }

  function Word64(h: bv64, s: seq<byte>): bv64 {
    (h ^ Scramble64(ReadLE64(s))).RotateLeft(27) * PRIME64_1 + PRIME64_4
  }

  function Half64(h: bv64, s: seq<byte>): bv64 {
    (h ^ ((ReadLE32(s) as bv64) * PRIME64_1)).RotateLeft(23) * PRIME64_2 + PRIME64_3
  }

  function Byte64(h: bv64, b: byte): bv64 {
    (h ^ ((b as bv64) * PRIME64_5)).RotateLeft(11) * PRIME64_1
  }

  function Kernel64(): (k: Kernel<bv64>)
    ensures k.Valid() && k.Width() == 32
  {
    Kernel(8, true, Init64, Round64, Merge64, Short64, AddLen64, Word64, Half64, Byte64, Avalanche64)
  }

  /** XXH32 of a string fed in pieces is `XXH32` of the string. */
  method Xxh32InPieces(chunks: seq<seq<byte>>, seed: bv32) returns (streamed: bv32, whole: bv32)
    requires |Concat(chunks)| < TWO_64
    ensures streamed == whole == Hash(Kernel32(), seed, Concat(chunks))
  {
    var running;
    streamed, running := HashInPieces(Kernel32(), chunks, seed);
    whole := OneShot(Kernel32(), Concat(chunks), seed);
  }

  /** XXH64 of a string fed in pieces is `XXH64` of the string. */
  method Xxh64InPieces(chunks: seq<seq<byte>>, seed: bv64) returns (streamed: bv64, whole: bv64)
    requires |Concat(chunks)| < TWO_64
    ensures streamed == whole == Hash(Kernel64(), seed, Concat(chunks))
  {
    var running;
    streamed, running := HashInPieces(Kernel64(), chunks, seed);
    whole := OneShot(Kernel64(), Concat(chunks), seed);
  }

  /** The published digests of the empty string and of "abc", with seed 0. */
  lemma PublishedDigests()
    ensures Hash(Kernel32(), 0, []) == 0x02CC5D05
    ensures Hash(Kernel64(), 0, []) == 0xEF46DB3751D8E999
    ensures Hash(Kernel32(), 0, [0x61, 0x62, 0x63]) == 0x32D153FF
    ensures Hash(Kernel64(), 0, [0x61, 0x62, 0x63]) == 0x44BC2CF5AD770999
  {
    var abc: seq<byte> := [0x61, 0x62, 0x63];
    assert abc[1..] == [0x62, 0x63] && abc[1..][1..] == [0x63] && abc[1..][1..][1..] == [];
    assert Hash(Kernel32(), 0, []) == Avalanche32(PRIME32_5);
    assert Hash(Kernel64(), 0, []) == Avalanche64(PRIME64_5);
    assert Hash(Kernel32(), 0, abc) ==
      Avalanche32(Byte32(Byte32(Byte32(AddLen32(Short32(0), 3), 0x61), 0x62), 0x63));
    assert Hash(Kernel64(), 0, abc) ==
      Avalanche64(Byte64(Byte64(Byte64(AddLen64(Short64(0), 3), 0x61), 0x62), 0x63));
  }
}
