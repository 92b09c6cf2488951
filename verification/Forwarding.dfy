/**
 * Forwarding commands of clients to the masters of their slices (`fwdCommand`,
 * `processInternal`, `putWaitQ` and `processWaitQ` of `lsmemcache.cpp`, and the loop of
 * `processIncoming` in `memcacheconn.cpp`).
 *
 * A client that waits for a reply, or whose next command needs a slice whose master is
 * still working on another one, goes onto a queue linked through the connections. When a
 * reply has come in, the queue is taken off and its clients are tried again.
 */
module Forwarding {
  type Conn = nat
  datatype Cmd = Cmd(slice: nat, id: nat)
  datatype Option<T> = None | Some(value: T)

  function Of(m: map<Conn, seq<Cmd>>, c: Conn): seq<Cmd> {
    if c in m then m[c] else []
  }

  function LinkOf(next: map<Conn, Option<Conn>>, c: Conn): Option<Conn> {
    if c in next then next[c] else None
  }

  /** The link fields lead from `from` through the connections q, each once, and end. */
  ghost predicate Linked(next: map<Conn, Option<Conn>>, from: Option<Conn>, q: seq<Conn>)
    decreases |q|
  {
    if q == [] then from.None?
    else from == Some(q[0]) && q[0] !in q[1..] && Linked(next, LinkOf(next, q[0]), q[1..])
  }

  lemma {:induction false} LinkedFrame(n: map<Conn, Option<Conn>>, m: map<Conn, Option<Conn>>, from: Option<Conn>, q: seq<Conn>)
    requires Linked(n, from, q) && forall c :: c in q ==> LinkOf(m, c) == LinkOf(n, c)
    ensures Linked(m, from, q)
    decreases |q|
  {
    if q != [] { LinkedFrame(n, m, LinkOf(n, q[0]), q[1..]); }
  }

  /** Linking a new last connection behind the old last one. */
  lemma {:induction false} LinkedSnoc(n: map<Conn, Option<Conn>>, from: Option<Conn>, q: seq<Conn>, c: Conn)
    requires Linked(n, from, q) && q != [] && c !in q && LinkOf(n, c).None?
    ensures Linked(n[q[|q| - 1] := Some(c)], from, q + [c])
    decreases |q|
  {
    var m := n[q[|q| - 1] := Some(c)];
    var rest := q[1..];
    if rest == [] {
      assert q + [c] == [q[0], c] && (q + [c])[1..] == [c];
      assert Linked(m, Some(c), [c]) by { assert [c][1..] == []; }
    } else {
      LinkedSnoc(n, LinkOf(n, q[0]), rest, c);
      assert rest[|rest| - 1] == q[|q| - 1] && q[|q| - 1] in rest;
      assert (q + [c])[1..] == rest + [c];
    }
  }

  lemma {:induction false} LinkedOnce(n: map<Conn, Option<Conn>>, from: Option<Conn>, q: seq<Conn>)
    requires Linked(n, from, q)
    ensures forall i, j :: 0 <= i < j < |q| ==> q[i] != q[j]
    decreases |q|
  {
    if q != [] {
      LinkedOnce(n, LinkOf(n, q[0]), q[1..]);
      forall i, j | 0 <= i < j < |q| ensures q[i] != q[j] {
        assert q[j] == q[1..][j - 1] && (i > 0 ==> q[i] == q[1..][i - 1]);
      }
    }
  }

  ghost function Front(q: seq<Conn>): Option<Conn> {
    if q == [] then None else Some(q[0])
  }

  ghost predicate Subsequence(a: seq<Conn>, b: seq<Conn>)
    decreases |b|
  {
    if a == [] then true
    else if b == [] then false
    else Subsequence(a, b[..|b| - 1]) || (a[|a| - 1] == b[|b| - 1] && Subsequence(a[..|a| - 1], b[..|b| - 1]))
  }

  lemma SubsequenceMore(a: seq<Conn>, b: seq<Conn>, c: Conn)
    requires Subsequence(a, b)
    ensures Subsequence(a, b + [c]) && Subsequence(a + [c], b + [c])
  {
    assert (b + [c])[..|b|] == b && (a + [c])[..|a|] == a;
  }

  lemma FirstMoves(a: seq<Cmd>, b: seq<Cmd>)
    requires b != []
    ensures a + [] + b == a + [b[0]] + b[1..] == (a + [b[0]]) + [] + b[1..]
  {
    assert b == [b[0]] + b[1..];
  }

  /** No answer is taken back. */
  ghost predicate Grown(a: map<Conn, seq<Cmd>>, b: map<Conn, seq<Cmd>>) {
    forall c {:trigger Of(b, c)} :: |Of(a, c)| <= |Of(b, c)|
  }

  class Forwarder {
    const local: nat -> bool            // the slice is mastered here, or has no master to send to
    var busy: set<nat>                  // CS_REMBUSY, by slice
    var link: map<nat, Conn>            // _pLink of the connection to the slice's master
    var respWait: set<Conn>             // CS_RESPWAIT
    var cmdWait: set<Conn>              // CS_CMDWAIT
    var next: map<Conn, Option<Conn>>   // _pLink of the clients
    var head: Option<Conn>              // m_pWaitQ
    var tail: Conn                      // m_pWaitTail, while the queue is not empty
    var input: map<Conn, seq<Cmd>>      // received and not yet consumed
    ghost var answers: map<Conn, seq<Cmd>>   // commands whose answers were given to the client
    ghost var queue: seq<Conn>
    ghost var issued: map<Conn, seq<Cmd>>
    ghost var out: map<Conn, Cmd>       // the command a client waits for
    ghost var upstream: map<nat, seq<Cmd>>   // what each master was sent and has not answered, in order

    /** A master works on one command at most, and the link names the client it is for. */
    ghost predicate SliceOk(s: nat)
      reads this
    {
      if s in busy then
        s in link && link[s] in out && out[link[s]].slice == s && Of(upstream, s) == [out[link[s]]]
      else Of(upstream, s) == []
    }

    /** A waiting client waits for one command; its commands are answered in the order issued. */
    ghost predicate ClientOk(c: Conn)
      reads this
    {
      && (c in respWait <==> c in out)
      && (c in out ==> out[c].slice in busy && out[c].slice in link && link[out[c].slice] == c)
      && Of(issued, c) == Of(answers, c) + (if c in out then [out[c]] else []) + Of(input, c)
    }

    ghost predicate Talks()
      reads this
    {
      (forall s {:trigger SliceOk(s)} :: SliceOk(s)) && (forall c {:trigger ClientOk(c)} :: ClientOk(c))
    }

    /** The wait queue, while `rest` is what a drain has still to go through. */
    ghost predicate Queued(rest: seq<Conn>)
      reads this
    {
      && Linked(next, head, queue) && (queue != [] ==> tail == queue[|queue| - 1])
      && (forall c :: c in cmdWait <==> c in queue || c in rest)
      && (forall c :: c in queue ==> c !in rest)
    }

    /** While clients are queued, a reply is still to come. */
    ghost predicate WillWake()
      reads this
    {
      queue != [] ==> busy != {}
    }

    ghost predicate Rests(c: Conn)
      reads this
    {
      Of(input, c) != [] ==> c in cmdWait
    }

    /** Between events: a client with commands left is on the queue, and someone will wake it. */
    ghost predicate Valid()
      reads this
    {
      Talks() && Queued([]) && WillWake() && forall c {:trigger Rests(c)} :: Rests(c)
    }

    constructor (local: nat -> bool)
      ensures Valid() && this.local == local && issued == map[] && queue == []
    {
      this.local := local;
      busy, link, respWait, cmdWait, next, head := {}, map[], {}, {}, map[], None;
      input, answers, queue, issued, out, upstream := map[], map[], [], map[], map[], map[];
      new;
      forall s ensures SliceOk(s) { }
      forall c ensures ClientOk(c) && Rests(c) { }
    }

    /** `putWaitQ`. */
    method PutWaitQ(c: Conn, ghost rest: seq<Conn>)
      requires Queued(rest) && c !in rest
      requires Linked(next, Front(rest), rest)
      modifies this`cmdWait, this`next, this`head, this`tail, this`queue
      ensures Queued(rest) && c in queue && cmdWait == old(cmdWait) + {c}
      ensures queue == if c in old(queue) then old(queue) else old(queue) + [c]
      ensures Linked(next, Front(rest), rest)
    {
      if c in cmdWait { return; }
      cmdWait := cmdWait + {c};
      ghost var n := next;
      next := next[c := None];
      LinkedFrame(n, next, head, queue);
      LinkedFrame(n, next, Front(rest), rest);
      if head == None {
        head := Some(c);
        assert [c][1..] == [];
      } else {
        ghost var m := next;
        LinkedSnoc(next, head, queue, c);
        next := next[tail := Some(c)];
        assert tail in queue;
        LinkedFrame(m, next, Front(rest), rest);
      }
      tail := c;
      queue := queue + [c];
    }

    /** `fwdCommand`. */
    method FwdCommand(c: Conn)
      requires Talks() && c !in respWait && Of(input, c) != [] && Of(input, c)[0].slice !in busy
      modifies this`respWait, this`link, this`busy, this`input, this`out, this`upstream
      ensures Talks() && busy == old(busy) + {old(Of(input, c)[0]).slice}
      ensures input == old(input)[c := old(Of(input, c))[1..]] && respWait == old(respWait) + {c}
    {
      var cmd := Of(input, c)[0];
      var s := cmd.slice;
      assert SliceOk(s) && ClientOk(c);
      respWait := respWait + {c};
      link := link[s := c];
      busy := busy + {s};
      input := input[c := Of(input, c)[1..]];
      out := out[c := cmd];
      upstream := upstream[s := [cmd]];
      FirstMoves(old(Of(answers, c)), old(Of(input, c)));
      forall t ensures SliceOk(t) { assert old(SliceOk(t)); }
      forall d | d != c ensures ClientOk(d) { assert old(ClientOk(d)); }
      assert ClientOk(c) by { assert old(ClientOk(c)); }
    }

    /** A command of a slice mastered here is carried out and answered at once. */
    method Answer(c: Conn)
      requires Talks() && c !in respWait && Of(input, c) != []
      modifies this`input, this`answers
      ensures Talks() && input == old(input)[c := old(Of(input, c))[1..]]
      ensures answers == old(answers)[c := old(Of(answers, c)) + [old(Of(input, c))[0]]]
    {
      assert ClientOk(c);
      answers := answers[c := Of(answers, c) + [Of(input, c)[0]]];
      input := input[c := Of(input, c)[1..]];
      FirstMoves(old(Of(answers, c)), old(Of(input, c)));
      forall t ensures SliceOk(t) { assert old(SliceOk(t)); }
      forall d ensures ClientOk(d) { assert old(ClientOk(d)); }
    }

    /** What holds while the clients `rest` of a drain are still linked and to be tried. */
    ghost predicate Going(rest: seq<Conn>)
      reads this
    {
      Talks() && Queued(rest) && WillWake() && Linked(next, Front(rest), rest)
    }

    ghost predicate AllRest(but: Option<Conn>)
      reads this
    {
      forall d: Conn {:trigger Rests(d)} :: but != Some(d) ==> Rests(d)
    }

    /** A client that cannot go on is queued; nothing else changes. */
    method Wait(c: Conn, ghost rest: seq<Conn>)
      requires Going(rest) && c !in rest && AllRest(Some(c)) && busy != {}
      modifies this`cmdWait, this`next, this`head, this`tail, this`queue
      ensures Going(rest) && AllRest(None)
      ensures queue == if c in old(queue) then old(queue) else old(queue) + [c]
    {
      PutWaitQ(c, rest);
      forall t ensures SliceOk(t) { assert old(SliceOk(t)); }
      forall d ensures ClientOk(d) && Rests(d) { assert old(ClientOk(d)); if d != c { assert old(Rests(d)); } }
    }

    /** Answer or forward the next command. */
    method Take(c: Conn, ghost rest: seq<Conn>)
      requires Going(rest) && AllRest(Some(c)) && c !in respWait && Of(input, c) != []
      requires local(Of(input, c)[0].slice) || Of(input, c)[0].slice !in busy
      modifies this`respWait, this`link, this`busy, this`input, this`answers, this`out, this`upstream
      ensures Going(rest) && AllRest(Some(c)) && old(busy) <= busy && |Of(input, c)| < |old(Of(input, c))|
      ensures Grown(old(answers), answers)
    {
      if local(Of(input, c)[0].slice) {
        Answer(c);
      } else {
        FwdCommand(c);
      }
      forall d | d != c ensures Rests(d) { assert old(Rests(d)); }
    }

    /**
     * The loop of `processIncoming` on a client: commands are answered or forwarded until
     * none is left, or the client has to wait and is queued.
     */
    method ProcessIncoming(c: Conn, ghost rest: seq<Conn>)
      requires Going(rest) && c !in rest && AllRest(Some(c))
      modifies this
      ensures Going(rest) && AllRest(None) && old(busy) <= busy && issued == old(issued)
      ensures Grown(old(answers), answers)
      ensures queue == old(queue) || (c !in old(queue) && queue == old(queue) + [c])
      ensures queue != old(queue) ==> Of(input, c) != [] || c in old(respWait)
    {
      while true
        invariant Going(rest) && AllRest(Some(c))
        invariant queue == old(queue) && old(busy) <= busy && issued == old(issued)
        invariant Grown(old(answers), answers)
        invariant Of(input, c) == [] && c in respWait ==> c in old(respWait)
        decreases |Of(input, c)|
      {
        assert ClientOk(c);
        if c in respWait {
          Wait(c, rest);
          return;
        }
        if Of(input, c) == [] {
          assert Rests(c);
          return;
        }
        var s := Of(input, c)[0].slice;
        if !local(s) && s in busy {
          Wait(c, rest);
          return;
        }
        Take(c, rest);
        if Of(input, c) == [] {
          assert Rests(c);
          return;
        }
      }
    }

    /**
     * `processWaitQ`: the queue is taken off and every client on it tried once, in order;
     * those that have to wait again are queued again, in order.
     */
    method ProcessWaitQ() returns (ghost tried: seq<Conn>)
      requires Talks() && Queued([]) && AllRest(None)
      modifies this
      ensures Valid() && issued == old(issued) && old(busy) <= busy && Grown(old(answers), answers)
      ensures tried == old(queue) && Subsequence(queue, old(queue))
    {
      ghost var all, rest := queue, queue;
      var cur := TakeOff();
      tried := [];
      while cur.Some?
        invariant Going(rest) && AllRest(None) && Linked(next, cur, rest)
        invariant all == tried + rest && Subsequence(queue, tried)
        invariant issued == old(issued) && old(busy) <= busy && Grown(old(answers), answers)
        decreases |rest|
      {
        var c := cur.value;
        SubsequenceMore(queue, tried, c);
        cur := TryOne(c, rest);
        rest := rest[1..];
        tried := tried + [c];
      }
    }

    /** One turn of the drain. */
    method TryOne(c: Conn, ghost rest: seq<Conn>) returns (cur: Option<Conn>)
      requires Going(rest) && AllRest(None) && rest != [] && c == rest[0]
      modifies this
      ensures Going(rest[1..]) && AllRest(None) && old(busy) <= busy && issued == old(issued)
      ensures Grown(old(answers), answers)
      ensures Linked(next, cur, rest[1..])
      ensures queue == old(queue) || queue == old(queue) + [c]
    {
      cur := LinkOf(next, c);
      Detach(c, rest);
      FrontOf(rest[1..], next, cur);
      ProcessIncoming(c, rest[1..]);
    }

    lemma FrontOf(q: seq<Conn>, n: map<Conn, Option<Conn>>, cur: Option<Conn>)
      requires Linked(n, cur, q)
      ensures cur == Front(q)
    {
    }

    /** The whole queue, about to be tried. */
    method TakeOff() returns (cur: Option<Conn>)
      requires Talks() && Queued([]) && AllRest(None)
      modifies this`head, this`queue
      ensures Going(old(queue)) && AllRest(None) && queue == [] && Linked(next, cur, old(queue))
    {
      cur := head;
      head := None;
      queue := [];
      forall t ensures SliceOk(t) { assert old(SliceOk(t)); }
      forall d ensures ClientOk(d) && Rests(d) { assert old(ClientOk(d)) && old(Rests(d)); }
    }

    /** Take the first client off the queue being drained. */
    method Detach(c: Conn, ghost rest: seq<Conn>)
      requires Going(rest) && AllRest(None) && rest != [] && c == rest[0]
      modifies this`cmdWait, this`next
      ensures Going(rest[1..]) && AllRest(Some(c)) && c !in rest[1..]
      ensures Linked(next, old(LinkOf(next, c)), rest[1..])
    {
      ghost var n, r := next, rest[1..];
      cmdWait := cmdWait - {c};
      next := next[c := None];
      assert c in rest && forall d :: d in rest <==> d == c || d in r;
      LinkedFrame(n, next, head, queue);
      LinkedFrame(n, next, LinkOf(n, c), r);
      forall t ensures SliceOk(t) { assert old(SliceOk(t)); }
      forall d ensures ClientOk(d) && (d != c ==> Rests(d)) { assert old(ClientOk(d)) && old(Rests(d)); }
    }

    /** Commands arrive from a client. */
    method Receive(c: Conn, cmds: seq<Cmd>)
      requires Valid()
      modifies this
      ensures Valid() && issued == old(issued)[c := old(Of(issued, c)) + cmds]
    {
      Buffer(c, cmds);
      ProcessIncoming(c, []);
    }

    method Buffer(c: Conn, cmds: seq<Cmd>)
      requires Valid()
      modifies this`input, this`issued
      ensures Going([]) && AllRest(Some(c)) && issued == old(issued)[c := old(Of(issued, c)) + cmds]
    {
      input := input[c := Of(input, c) + cmds];
      issued := issued[c := Of(issued, c) + cmds];
      forall t ensures SliceOk(t) { assert old(SliceOk(t)); }
      forall d ensures ClientOk(d) && (d != c ==> Rests(d)) { assert old(ClientOk(d)) && old(Rests(d)); }
    }

    /**
     * `processInternal`, then the drain: the master of slice s has answered the first
     * command it was sent. The answer goes to the client that issued that command.
     */
    method Reply(s: nat)
      requires Valid() && Of(upstream, s) != []
      modifies this
      ensures Valid() && issued == old(issued) && Grown(old(answers), answers)
      ensures s in old(link)
      ensures var c, n := old(link)[s], |old(Of(answers, link[s]))|;
        n < |Of(answers, c)| && Of(answers, c)[n] == old(Of(upstream, s))[0]
    {
      assert SliceOk(s);
      var c := link[s];
      assert ClientOk(c);
      ghost var n, cmd := |Of(answers, c)|, Of(upstream, s)[0];
      assert n < |Of(issued, c)| && Of(issued, c)[n] == cmd;
      Respond(s, c);
      assert |Of(answers, c)| == n + 1;
      var tried := ProcessWaitQ();
      AnsweredInOrder(c);
      assert Of(issued, c)[..|Of(answers, c)|][n] == cmd;
    }

    method Respond(s: nat, c: Conn)
      requires Talks() && Queued([]) && AllRest(None) && s in busy && s in link && link[s] == c
      modifies this`respWait, this`busy, this`answers, this`out, this`upstream
      ensures Talks() && Queued([]) && AllRest(None) && s !in busy && c !in respWait
      ensures old(Of(upstream, s)) != [] && c in old(out) && old(out)[c] == old(Of(upstream, s))[0]
      ensures answers == old(answers)[c := old(Of(answers, c)) + [old(Of(upstream, s))[0]]]
    {
      assert SliceOk(s) && ClientOk(c);
      ghost var cmd := Of(upstream, s)[0];
      respWait := respWait - {c};
      answers := answers[c := Of(answers, c) + [out[c]]];
      busy := busy - {s};
      out := out - {c};
      upstream := upstream[s := Of(upstream, s)[1..]];
      forall t ensures SliceOk(t) { assert old(SliceOk(t)); }
      forall d ensures ClientOk(d) && Rests(d) { assert old(ClientOk(d)) && old(Rests(d)); }
    }

    /**
     * What every run keeps, for every client: its answers are a prefix of its commands, in
     * the order issued; and while one is missing, some master is still to reply, and the
     * client either waits for that reply or is on the queue, there at most once.
     */
    lemma AnsweredInOrder(c: Conn)
      requires Valid()
      ensures |Of(answers, c)| <= |Of(issued, c)| && Of(issued, c)[..|Of(answers, c)|] == Of(answers, c)
      ensures Of(answers, c) != Of(issued, c) ==> busy != {} && (c in respWait || c in queue)
      ensures c in cmdWait <==> c in queue
      ensures forall i, j :: 0 <= i < j < |queue| ==> queue[i] != queue[j]
    {
      assert ClientOk(c) && Rests(c);
      LinkedOnce(next, head, queue);
    }

    /** A master has at most one command to answer, and its answer goes to the client that issued it. */
    lemma OneOutstanding(s: nat)
      requires Valid()
      ensures |Of(upstream, s)| <= 1 && (Of(upstream, s) != [] <==> s in busy)
      ensures Of(upstream, s) != [] ==>
        s in link && link[s] in respWait && var c := link[s];
        Of(issued, c) == Of(answers, c) + Of(upstream, s) + Of(input, c)
    {
      assert SliceOk(s);
      if s in busy { assert ClientOk(link[s]); }
    }
  }
}
