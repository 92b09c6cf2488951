/**
 * Buffered output: the stream of `bufferedos.cpp` with `outputbuf.cpp`, and the socket
 * output of `memcacheconn.cpp`.
 *
 * What lies below takes as many bytes of each write as it likes, or none, or fails. The
 * stream of a channel is what was sent followed by what is buffered; every operation is
 * to append to it exactly the bytes it reports as accepted.
 */
module BufferedOutput {
  type byte = bv8
  type Bytes = seq<byte>

  datatype Answer = Took(n: nat) | Interrupted | WouldBlock | Failed

  /** The stream or socket below; `answers` is how it will respond, in order. */
  class Below {
    var sent: Bytes
    var answers: seq<Answer>

    constructor (answers: seq<Answer>)
      ensures sent == [] && this.answers == answers
    {
      sent := [];
      this.answers := answers;
    }

    /** One write: a prefix of the data goes out. */
    method Write(data: Bytes) returns (a: Answer)
      modifies this
      ensures a.Took? ==> a.n <= |data| && sent == old(sent) + data[..a.n]
      ensures !a.Took? ==> sent == old(sent)
      ensures a.Interrupted? ==> |answers| < |old(answers)|
    {
      if answers == [] { return WouldBlock; }
      a, answers := answers[0], answers[1..];
      if a.Took? {
        if a.n > |data| { a := Took(|data|); }
        sent := sent + data[..a.n];
      }
    }
  }

  function Concat(vec: seq<Bytes>): Bytes {
    if vec == [] then [] else vec[0] + Concat(vec[1..])
  }

  // ----- OutputBuf::cache over blocks -----

  /** Blocks are taken up to the first empty one. */
  function Run(vec: seq<Bytes>): Bytes {
    if vec == [] || vec[0] == [] then [] else vec[0] + Run(vec[1..])
  }

  /** What `cache` appends when `written` bytes of the blocks have gone out already. */
  function Rest(vec: seq<Bytes>, written: nat): Bytes {
    if vec == [] then []
    else if |vec[0]| <= written then Rest(vec[1..], written - |vec[0]|)
    else vec[0][written..] + Run(vec[1..])
  }

  predicate NoneAfterEmpty(vec: seq<Bytes>) {
    vec == [] || if vec[0] == [] then Concat(vec) == [] else NoneAfterEmpty(vec[1..])
  }

  /** No empty block stands between two blocks that are yet to be written. */
  predicate Solid(vec: seq<Bytes>, written: nat) {
    vec == [] ||
    if |vec[0]| <= written then Solid(vec[1..], written - |vec[0]|) else NoneAfterEmpty(vec[1..])
  }

  predicate Prefix(a: Bytes, b: Bytes) {
    |a| <= |b| && b[..|a|] == a
  }

  lemma {:induction false} RunIsPrefix(vec: seq<Bytes>)
    ensures Prefix(Run(vec), Concat(vec))
    ensures Run(vec) == Concat(vec) <==> NoneAfterEmpty(vec)
  {
    if vec != [] && vec[0] != [] {
      RunIsPrefix(vec[1..]);
      var r, c := Run(vec[1..]), Concat(vec[1..]);
      assert (vec[0] + c)[..|vec[0]| + |r|] == vec[0] + c[..|r|];
      if vec[0] + r == vec[0] + c {
        assert r == (vec[0] + r)[|vec[0]|..] == (vec[0] + c)[|vec[0]|..] == c;
      }
    }
  }

  /**
   * What is cached continues exactly where the writing stopped; it is all that is left
   * exactly when no empty block stands in between.
   */
  lemma {:induction false} CacheContinues(vec: seq<Bytes>, written: nat)
    requires written <= |Concat(vec)|
    ensures Prefix(Rest(vec, written), Concat(vec)[written..])
    ensures Rest(vec, written) == Concat(vec)[written..] <==> Solid(vec, written)
  {
    if vec != [] {
      var c := Concat(vec[1..]);
      if |vec[0]| <= written {
        CacheContinues(vec[1..], written - |vec[0]|);
        assert Concat(vec)[written..] == c[written - |vec[0]|..];
      } else {
        RunIsPrefix(vec[1..]);
        var r, h := Run(vec[1..]), vec[0][written..];
        assert Concat(vec)[written..] == h + c;
        assert (h + c)[..|h| + |r|] == h + c[..|r|];
        if h + r == h + c { assert r == (h + r)[|h|..] == (h + c)[|h|..] == c; }
      }
    }
  }

  /** An empty block between two others: the second is not cached, though all three are reported. */
  lemma EmptyBlockLoses()
    ensures var vec: seq<Bytes> := [[1], [], [2]];
      !Solid(vec, 0) && Rest(vec, 0) == [1] && Concat(vec) == [1, 2]
  {
    var vec: seq<Bytes> := [[1], [], [2]];
    assert vec[1..] == [[], [2]] && vec[1..][1..] == [[2]] && vec[1..][1..][1..] == [];
  }

  lemma WrittenCounts(vec: seq<Bytes>, w: nat)
    requires w <= |Concat(vec)|
    ensures var n := w + |Rest(vec, w)|;
      n <= |Concat(vec)| && Concat(vec)[..w] + Rest(vec, w) == Concat(vec)[..n]
  {
    CacheContinues(vec, w);
    var c, r := Concat(vec), Rest(vec, w);
    assert c[..w + |r|] == c[..w] + c[w..][..|r|];
  }

  /** Blocks that are all non-empty lose nothing. */
  lemma {:induction false} FullBlocksSolid(vec: seq<Bytes>, written: nat)
    requires forall i :: 0 <= i < |vec| ==> vec[i] != []
    ensures Solid(vec, written)
  {
    if vec != [] {
      if |vec[0]| <= written {
        FullBlocksSolid(vec[1..], written - |vec[0]|);
      } else {
        FullBlocks(vec[1..]);
      }
    }
  }

  lemma {:induction false} FullBlocks(vec: seq<Bytes>)
    requires forall i :: 0 <= i < |vec| ==> vec[i] != []
    ensures NoneAfterEmpty(vec)
  {
    if vec != [] { FullBlocks(vec[1..]); }
  }

  /** Everything was accepted, or nothing; with caching always allowed, nothing only on an error. */
  predicate AllOrNone(ret: int, total: nat, avoidCache: nat) {
    ret == total || (ret <= 0 && (avoidCache == 0 ==> ret < 0))
  }

  lemma Grouped(a: Bytes, b: Bytes, c: Bytes)
    ensures a + (b + c) == a + b + c
  {
  }

  // ----- BufferedOS -----

  class BufferedOS {
    const os: Below
    var buf: Bytes

    constructor (os: Below)
      ensures this.os == os && buf == []
    {
      this.os := os;
      buf := [];
    }

    ghost function Stream(): Bytes
      reads this, os
    {
      os.sent + buf
    }

    /** `OutputBuf::cache` of one block; the result is how much of it is now taken care of. */
    method Cache(data: Bytes, written: nat) returns (ret: nat)
      requires written <= |data|
      modifies this`buf
      ensures buf == old(buf) + data[written..] && ret == |data|
    {
      buf := buf + data[written..];
      ret := |data|;
    }

    /** `OutputBuf::cache` of several blocks. */
    method CacheBlocks(vec: seq<Bytes>, written: nat) returns (ret: nat)
      requires written <= |Concat(vec)|
      modifies this`buf
      ensures buf == old(buf) + Rest(vec, written) && ret == written + |Rest(vec, written)|
    {
      var v := vec;
      var w: nat := written;
      ret := written;
      while v != [] && |v[0]| <= w
        invariant Rest(v, w) == Rest(vec, written)
      {
        v, w := v[1..], w - |v[0]|;
      }
      if v != [] {
        ret := CacheFrom(v[0][w..], v[1..], ret);
      }
    }

    /** The second loop: a piece of a block, then whole blocks up to the first empty one. */
    method CacheFrom(first: Bytes, blocks: seq<Bytes>, written: nat) returns (ret: nat)
      requires first != []
      modifies this`buf
      ensures buf == old(buf) + (first + Run(blocks)) && ret == written + |first| + |Run(blocks)|
    {
      buf := buf + first;
      ret := written + |first|;
      var v := blocks;
      ghost var done := first;
      while v != [] && v[0] != []
        invariant done + Run(v) == first + Run(blocks) && buf == old(buf) + done
        invariant ret == written + |done|
      {
        assert done + Run(v) == (done + v[0]) + Run(v[1..]);
        buf := buf + v[0];
        ret := ret + |v[0]|;
        done := done + v[0];
        v := v[1..];
      }
      assert done + Run(v) == done;
    }

    /** `writeEx`: the result is the number of bytes accepted, negative for an error. */
    method WriteEx(data: Bytes, avoidCache: nat) returns (ret: int)
      requires avoidCache <= 1
      modifies this`buf, os
      ensures -1 <= ret <= |data| && Stream() == old(Stream()) + data[..if ret < 0 then 0 else ret]
      ensures Prefix(old(os.sent), os.sent)
      ensures AllOrNone(ret, |data|, avoidCache)
    {
      if buf == [] {
        var a := os.Write(data);
        ret := if a.Took? then a.n else -1;
        if ret >= avoidCache {
          ret := Cache(data, ret);
        }
      } else {
        ret := WritevEx([data], avoidCache);
        assert Concat([data]) == data;
        assert forall w: nat :: Solid([data], w);
      }
    }

    /** `writevEx`: what is buffered goes first. */
    method WritevEx(vec: seq<Bytes>, avoidCache: nat) returns (ret: int)
      requires avoidCache <= 1
      modifies this`buf, os
      ensures -1 <= ret <= |Concat(vec)|
      ensures Stream() == old(Stream()) + Concat(vec)[..if ret < 0 then 0 else ret]
      ensures Prefix(old(os.sent), os.sent)
      ensures (forall w :: 0 <= w <= |Concat(vec)| ==> Solid(vec, w)) ==>
        AllOrNone(ret, |Concat(vec)|, avoidCache)
    {
      ret := SendBehind(Concat(vec));
      if ret >= avoidCache {
        WrittenCounts(vec, ret);
        CacheContinues(vec, ret);
        Grouped(os.sent, buf, Rest(vec, ret));
        Grouped(old(Stream()), Concat(vec)[..ret], Rest(vec, ret));
        ret := CacheBlocks(vec, ret);
      }
    }

    /** What is buffered and new data go down in one write; the result counts the new bytes. */
    method SendBehind(data: Bytes) returns (ret: int)
      modifies this`buf, os
      ensures -1 <= ret <= |data| && Prefix(old(os.sent), os.sent)
      ensures Stream() == old(Stream()) + data[..if ret < 0 then 0 else ret]
    {
      ghost var was, pending := os.sent, buf;
      var a := os.Write(buf + data);
      if !a.Took? { return -1; }
      var pop := if a.n > |buf| then |buf| else a.n;
      ret := a.n - pop;
      buf := buf[pop..];
      assert (pending + data)[..a.n] == pending[..pop] + data[..ret];
      assert ret > 0 ==> buf == [];
      assert pending == pending[..pop] + buf;
    }

    /** `cacheWrite`: small writes only go to the buffer. */
    method CacheWrite(data: Bytes) returns (ret: int)
      modifies this`buf, os
      ensures -1 <= ret <= |data| && Stream() == old(Stream()) + data[..if ret < 0 then 0 else ret]
      ensures Prefix(old(os.sent), os.sent) && AllOrNone(ret, |data|, 0)
    {
      if |buf| + |data| < 9000 {
        buf := buf + data;
        ret := |data|;
      } else {
        ret := WriteEx(data, 0);
      }
    }

    /**
     * `cacheWritev`, told the total size of the blocks. Below 16384 bytes it reports them all
     * as accepted, which is true exactly when no empty block stands before a non-empty one
     * after the first.
     */
    method CacheWritev(vec: seq<Bytes>, total: nat) returns (ret: int)
      requires total == |Concat(vec)|
      modifies this`buf, os
      ensures -1 <= ret <= total && Prefix(old(os.sent), os.sent)
      ensures |old(buf)| + total >= 16384 ==>
        Stream() == old(Stream()) + Concat(vec)[..if ret < 0 then 0 else ret]
      ensures |old(buf)| + total < 16384 ==>
        ret == total && (Stream() == old(Stream()) + Concat(vec) <==> Solid(vec, 0))
    {
      if |buf| + total < 16384 {
        CacheContinues(vec, 0);
        var n := CacheBlocks(vec, 0);
        ret := total;
        assert Stream() == old(Stream()) + Rest(vec, 0);
        assert Concat(vec)[0..] == Concat(vec);
        SameTail(old(Stream()), Rest(vec, 0), Concat(vec));
      } else {
        ret := WritevEx(vec, 0);
      }
    }

    /** `flush`: bytes move down, none is lost; the result is what is still buffered. */
    method Flush() returns (ret: int)
      modifies this`buf, os
      ensures Stream() == old(Stream()) && Prefix(old(os.sent), os.sent)
      ensures ret >= 0 ==> ret == |buf|
      ensures ret < 0 ==> buf == old(buf)
    {
      ret := 0;
      if buf != [] {
        var a := os.Write(buf);
        ret := if a.Took? then a.n else -1;
        if ret >= 0 {
          assert buf == buf[..ret] + buf[ret..];
          buf := if |buf| <= ret then [] else buf[ret..];
          ret := |buf|;
        }
      }
    }
  }

  lemma SameTail(a: Bytes, b: Bytes, c: Bytes)
    ensures a + b == a + c <==> b == c
  {
    if a + b == a + c {
      assert b == (a + b)[|a|..] == (a + c)[|a|..] == c;
    }
  }

  lemma Behind(s: Bytes, out: Bytes, msg: Bytes, n: nat)
    requires n <= |msg|
    ensures s + msg[..n] + msg[n..] == s + msg
    ensures out + msg[n..] == out + [] + msg[n..]
  {
    assert msg == msg[..n] + msg[n..];
  }

  // ----- MemcacheConn -----

  class Conn {
    const sock: Below
    var fd: int
    var outgoing: Bytes
    var wrap: nat              // where the ring buffer wraps, counted from its head
    var closing: bool
    var writing: bool          // write interest asked of the multiplexer

    constructor (sock: Below, fd: int)
      ensures this.sock == sock && this.fd == fd && outgoing == [] && !closing
    {
      this.sock := sock;
      this.fd := fd;
      outgoing, wrap, closing, writing := [], 0, false, false;
    }

    ghost function Stream(): Bytes
      reads this, sock
    {
      sock.sent + outgoing
    }

    /** `SendEx`: an interrupted write is tried again; 0 when nothing could be sent. */
    method SendEx(msg: Bytes) returns (n: nat)
      modifies this`closing, sock
      ensures n <= |msg| && sock.sent == old(sock.sent) + msg[..n]
      ensures old(closing) ==> closing
    {
      n := 0;
      if msg == [] { return; }
      while true
        invariant n == 0 && sock.sent == old(sock.sent) && closing == old(closing)
        decreases |sock.answers|
      {
        var a := sock.Write(msg);
        match a
        case Interrupted => continue;
        case WouldBlock => return 0;
        case Failed => closing := true; return 0;
        case Took(k) => return k;
      }
    }

    /**
     * `SendBuff`: the whole message is sent or buffered, in order. It leaves the connection
     * marked as connected, even when the send below it failed.
     */
    method SendBuff(msg: Bytes) returns (total: nat)
      modifies this`outgoing, this`closing, this`writing, sock
      ensures total == |msg| && Stream() == old(Stream()) + msg && Prefix(old(sock.sent), sock.sent)
      ensures msg != [] && outgoing != [] ==> writing
      ensures msg != [] ==> !closing
      ensures old(outgoing) != [] ==> sock.sent == old(sock.sent)
    {
      total := 0;
      if outgoing == [] {
        total := SendEx(msg);
      }
      if total < |msg| {
        Behind(old(Stream()), outgoing, msg, total);
        outgoing := outgoing + msg[total..];
        total := |msg|;
        writing := true;
      } else {
        assert msg[..total] == msg;
      }
      if total > 0 { closing := false; }
    }

    /** The first contiguous piece of the ring buffer. */
    function BlockSize(): (n: nat)
      reads this
      ensures n <= |outgoing| && (outgoing != [] ==> n > 0)
    {
      if 0 < wrap < |outgoing| then wrap else |outgoing|
    }

    /** `Flush`: block by block until all is sent or the socket takes no more. */
    method Flush() returns (ret: int)
      modifies this`outgoing, this`wrap, this`closing, this`writing, sock
      ensures Stream() == old(Stream()) && Prefix(old(sock.sent), sock.sent)
      ensures |outgoing| <= |old(outgoing)|
      ensures fd != -1 ==> writing == (outgoing != []) && ret == 0
      ensures fd == -1 ==> ret == -1 && outgoing == old(outgoing)
    {
      if fd == -1 { return -1; }
      while outgoing != []
        invariant Stream() == old(Stream()) && Prefix(old(sock.sent), sock.sent)
        invariant |outgoing| <= |old(outgoing)|
        decreases |outgoing|
      {
        var block := outgoing[..BlockSize()];
        var sent := SendEx(block);
        if sent == 0 {
          writing := true;
          return 0;
        }
        assert block[..sent] == outgoing[..sent] && outgoing == outgoing[..sent] + outgoing[sent..];
        outgoing := outgoing[sent..];
        wrap := if sent < wrap then wrap - sent else 0;
      }
      writing := false;
      ret := 0;
    }

    /** `appendOutput`: buffered while little is pending, else flushed first. */
    method AppendOutput(msg: Bytes) returns (ret: nat)
      modifies this`outgoing, this`wrap, this`closing, this`writing, sock
      ensures ret == |msg| && Stream() == old(Stream()) + msg && Prefix(old(sock.sent), sock.sent)
    {
      if |outgoing| > 4096 {
        var r := Flush();
        if outgoing == [] && |msg| > 1024 {
          ret := SendBuff(msg);
          return;
        }
      }
      outgoing := outgoing + msg;
      ret := |msg|;
    }
  }
}
