/**
 * The encoding of node status records (`lcnodeinfo.cpp`): a count, then one column after
 * the other for all containers. Integers are copied as they lie in memory, little-endian.
 */
module NodeCodec {
  import L = TidLog
  import opened W = TidWire

  type Str = L.Str
  datatype Option<T> = None | Some(value: T)

  /** Six columns of one length: 32-bit ids, 64-bit TIDs, two 32-bit, two 16-bit columns. */
  datatype NodeInfo = NodeInfo(contId: seq<nat>, currTid: seq<nat>, priority: seq<nat>, tidNum: seq<nat>,
                               role: seq<nat>, fsync: seq<nat>)
  datatype StaticInfo = StaticInfo(svrIp: nat, svrPort: nat, shmIp: nat, shmPort: nat)

  predicate Fields(width: nat, xs: seq<nat>) {
    forall i :: 0 <= i < |xs| ==> xs[i] < Pow256(width)
  }

  predicate Valid(x: NodeInfo) {
    var n := |x.contId|;
    && n == |x.currTid| == |x.priority| == |x.tidNum| == |x.role| == |x.fsync|
    && TotalSize(n) < 0x8000_0000
    && Fields(4, x.contId) && Fields(8, x.currTid) && Fields(4, x.priority) && Fields(4, x.tidNum)
    && Fields(2, x.role) && Fields(2, x.fsync)
  }

  /** `LcNodeInfo::totalSize`. */
  function TotalSize(n: nat): nat {
    4 + (4 + 8 + 4 + 4 + 2 + 2) * n
  }

  /** The bytes of an array. */
  function Column(width: nat, xs: seq<nat>): (b: Str)
    ensures |b| == width * |xs|
  {
    if xs == [] then [] else Le(width, xs[0]) + Column(width, xs[1..])
  }

  /** An array of n elements read from memory. */
  function ReadColumn(width: nat, b: Str, n: nat): (xs: seq<nat>)
    requires |b| >= width * n
    ensures |xs| == n
    decreases n
  {
    if n == 0 then []
    else
      assert width * n == width + width * (n - 1);
      [UnLe(b[..width])] + ReadColumn(width, b[width..], n - 1)
  }

  lemma {:induction false} ColumnRoundTrip(width: nat, xs: seq<nat>, b: Str)
    requires Fields(width, xs) && |b| >= width * |xs| && b[..width * |xs|] == Column(width, xs)
    ensures ReadColumn(width, b, |xs|) == xs
    decreases |xs|
  {
    if xs != [] {
      var n := |xs|;
      var c := Column(width, xs);
      assert width * n == width + width * (n - 1);
      LeRoundTrip(width, xs[0]);
      assert b[..width] == c[..width] == Le(width, xs[0]);
      assert b[width..][..width * (n - 1)] == c[width..] == Column(width, xs[1..]);
      ColumnRoundTrip(width, xs[1..], b[width..]);
    }
  }

  /** `LcNodeInfo::serialize`. */
  method Serialize(x: NodeInfo) returns (b: Str)
    requires Valid(x)
    ensures b == Encoded(x) && |b| == TotalSize(|x.contId|)
  {
    b := Le(4, |x.contId|);
    b := b + Column(4, x.contId);
    b := b + Column(8, x.currTid);
    b := b + Column(4, x.priority);
    b := b + Column(4, x.tidNum);
    b := b + Column(2, x.role);
    b := b + Column(2, x.fsync);
  }

  function Encoded(x: NodeInfo): Str {
    Le(4, |x.contId|) + (Column(4, x.contId) + (Column(8, x.currTid) + (Column(4, x.priority)
      + (Column(4, x.tidNum) + (Column(2, x.role) + Column(2, x.fsync))))))
  }

  /** The memory b starts with e. */
  predicate Starts(b: Str, e: Str) {
    |b| >= |e| && b[..|e|] == e
  }

  /** A record lies at the start of the memory b. */
  predicate Lies(x: NodeInfo, b: Str) {
    Valid(x) && Starts(b, Encoded(x))
  }

  /** Past the first part of what lies in memory the rest of it begins. */
  lemma Past(b: Str, first: Str, rest: Str)
    requires Starts(b, first + rest)
    ensures Starts(b, first) && Starts(b[|first|..], rest)
  {
    var e := first + rest;
    assert b[..|first|] == b[..|e|][..|first|] == first;
    assert b[|first|..][..|rest|] == b[..|e|][|first|..] == rest;
  }

  /** One column is read and the cursor moved past it. */
  method TakeColumn(p: Str, width: nat, n: nat, ghost xs: seq<nat>, ghost rest: Str) returns (ys: seq<nat>, p': Str)
    requires Fields(width, xs) && |xs| == n && Starts(p, Column(width, xs) + rest)
    ensures ys == xs && Starts(p', rest)
  {
    Past(p, Column(width, xs), rest);
    ColumnRoundTrip(width, xs, p);
    ys := ReadColumn(width, p, n);
    p' := p[width * n..];
  }

  lemma CountFits(n: nat)
    requires TotalSize(n) < 0x8000_0000
    ensures UnLe(Le(4, n)) == n
  {
    assert Pow256(4) == 0x1_0000_0000 by { assert Pow256(2) == 0x1_0000 && Pow256(3) == 0x100_0000; }
    LeRoundTrip(4, n);
  }

  /**
   * `LcNodeInfo::deserialize` of memory in which a record lies: the record comes back
   * when the stated length is its size, and any other length is refused.
   */
  method Deserialize(b: Str, dataLen: int, ghost x: NodeInfo) returns (r: Option<NodeInfo>)
    requires Lies(x, b)
    ensures r == if dataLen == TotalSize(|x.contId|) then Some(x) else None
  {
    CountFits(|x.contId|);
    ghost var c6 := Column(2, x.fsync);
    ghost var c5 := Column(2, x.role) + c6;
    ghost var c4 := Column(4, x.tidNum) + c5;
    ghost var c3 := Column(4, x.priority) + c4;
    ghost var c2 := Column(8, x.currTid) + c3;
    ghost var c1 := Column(4, x.contId) + c2;
    Past(b, Le(4, |x.contId|), c1);
    var n := UnLe(b[..4]);
    var contId, p := TakeColumn(b[4..], 4, n, x.contId, c2);
    var currTid, priority, tidNum, role, fsync;
    currTid, p := TakeColumn(p, 8, n, x.currTid, c3);
    priority, p := TakeColumn(p, 4, n, x.priority, c4);
    tidNum, p := TakeColumn(p, 4, n, x.tidNum, c5);
    role, p := TakeColumn(p, 2, n, x.role, c6);
    assert c6 + [] == c6;
    fsync, p := TakeColumn(p, 2, n, x.fsync, []);
    r := if TotalSize(n) != dataLen then None
         else Some(NodeInfo(contId, currTid, priority, tidNum, role, fsync));
  }

  // ----- StaticNodeInfo -----

  const StaticSize := 12

  function EncodedStatic(x: StaticInfo): (b: Str)
    ensures |b| == StaticSize
  {
    Le(4, x.svrIp) + Le(2, x.svrPort) + Le(4, x.shmIp) + Le(2, x.shmPort)
  }

  /** `StaticNodeInfo::deserialize`. */
  method DeserializeStatic(b: Str, dataLen: int, ghost x: StaticInfo) returns (r: Option<StaticInfo>)
    requires x.svrIp < Pow256(4) && x.svrPort < Pow256(2) && x.shmIp < Pow256(4) && x.shmPort < Pow256(2)
    requires |b| >= StaticSize && b[..StaticSize] == EncodedStatic(x)
    ensures r == if dataLen == StaticSize then Some(x) else None
  {
    var e := b[..StaticSize];
    assert b[0..4] == e[0..4] == Le(4, x.svrIp) && b[4..6] == e[4..6] == Le(2, x.svrPort);
    assert b[6..10] == e[6..10] == Le(4, x.shmIp) && b[10..12] == e[10..12] == Le(2, x.shmPort);
    LeRoundTrip(4, x.svrIp);
    LeRoundTrip(2, x.svrPort);
    LeRoundTrip(4, x.shmIp);
    LeRoundTrip(2, x.shmPort);
    var s := StaticInfo(UnLe(b[0..4]), UnLe(b[4..6]), UnLe(b[6..10]), UnLe(b[10..12]));
    r := if StaticSize != dataLen then None else Some(s);
  }
}
