/**
 * Deferred interest updates of the epoll multiplexer (`epoll.cpp`, `reactorindex.h`).
 *
 * A reactor carries the mask it wants and the mask the kernel was last given. A change of
 * the wanted mask only puts the descriptor on a list, once; `ApplyEvents` goes through
 * the list and tells the kernel.
 */
module EpollInterest {
  type Mask = bv16

  const POLLIN: Mask := 0x01
  const POLLOUT: Mask := 0x04
  const POLLERR: Mask := 0x08
  const POLLHUP: Mask := 0x10
  const MAX_FDINDEX := 100000

  class Reactor {
    const fd: int
    var events: Mask        // wanted
    var eventSet: Mask      // given to the kernel

    constructor (fd: int)
      ensures this.fd == fd
    {
      this.fd := fd;
      events, eventSet := 0, 0;
    }
  }

  class Epoll {
    var reactors: array<Reactor?>   // the index, by descriptor
    var flags: array<bool>          // on the list of updates
    var used: nat
    var updates: seq<int>
    var kernel: map<int, Mask>      // epoll_ctl's interest list

    ghost predicate Shape()
      reads this
    {
      reactors.Length == flags.Length > used
    }

    ghost function Handlers(): set<Reactor>
      reads this, reactors
    {
      set i | 0 <= i < reactors.Length && reactors[i] != null :: reactors[i]
    }

    /** The entry of one descriptor, apart from whether it is on the list. */
    ghost predicate EntryOk(i: nat)
      requires i < reactors.Length
      reads this, reactors, Handlers()
    {
      reactors[i] != null ==>
        i <= used && reactors[i].fd == i && i in kernel && kernel[i] == reactors[i].eventSet
    }

    /** A reactor whose wanted mask the kernel does not have is on the list. */
    ghost predicate Noticed(i: nat)
      requires i < reactors.Length && flags.Length == reactors.Length
      reads this, reactors, flags, Handlers()
    {
      reactors[i] != null && reactors[i].events != reactors[i].eventSet ==> flags[i]
    }

    ghost predicate KernelOk(fd: int)
      reads this, reactors
    {
      fd in kernel ==> 0 <= fd < reactors.Length && reactors[fd] != null
    }

    ghost predicate Indexed()
      requires Shape()
      reads this, reactors, Handlers()
    {
      && (forall i {:trigger EntryOk(i)} :: 0 <= i < reactors.Length ==> EntryOk(i))
      && (forall fd {:trigger KernelOk(fd)} :: KernelOk(fd))
    }

    /** The flagged descriptors are exactly those on the list, each once. */
    ghost predicate Listed(list: seq<int>)
      reads this, flags
    {
      && (forall i {:trigger i in list} :: i in list <==> 0 <= i < flags.Length && flags[i])
      && (forall i, j :: 0 <= i < j < |list| ==> list[i] != list[j])
    }

    ghost predicate Valid()
      reads this, reactors, flags, Handlers()
    {
      && Shape() && Indexed() && Listed(updates)
      && forall i {:trigger Noticed(i)} :: 0 <= i < reactors.Length ==> Noticed(i)
    }

    ghost predicate Registered(r: Reactor)
      reads this, reactors
    {
      0 <= r.fd < reactors.Length && reactors[r.fd] == r
    }

    /** What the kernel would have been told had every change been passed on at once. */
    ghost function Wanted(): map<int, Mask>
      reads this, reactors, Handlers()
    {
      map i | 0 <= i < reactors.Length && reactors[i] != null :: reactors[i].events
    }

    /** `init`. */
    constructor (capacity: nat)
      requires 0 < capacity
      ensures Valid() && Wanted() == map[] && fresh(reactors) && fresh(flags)
    {
      reactors := new Reactor?[capacity](_ => null);
      flags := new bool[capacity](_ => false);
      used, updates, kernel := 0, [], map[];
      new;
      forall i | 0 <= i < reactors.Length ensures EntryOk(i) && Noticed(i) { }
      forall fd ensures KernelOk(fd) { }
      assert Wanted() == map[];
    }

    /** `ReactorIndex::get`. */
    method Get(fd: int) returns (r: Reactor?)
      requires Valid() && 0 <= fd < reactors.Length
      ensures r == reactors[fd]
    {
      assert EntryOk(fd);
      r := if fd <= used then reactors[fd] else null;
    }

    /** `appendEvent`. */
    method AppendEvent(fd: nat)
      requires Shape() && Listed(updates) && fd < flags.Length
      modifies this`updates, flags
      ensures Listed(updates) && forall i :: 0 <= i < flags.Length ==> flags[i] == (old(flags[i]) || i == fd)
    {
      if flags[fd] { return; }
      assert fd !in updates;
      flags[fd] := true;
      updates := updates + [fd];
    }

    /** `updateEvents`, with the wanted mask computed by the caller: nothing reaches the kernel yet. */
    method UpdateEvents(r: Reactor, mask: Mask)
      requires Valid() && Registered(r)
      modifies this`updates, flags, r`events
      ensures Valid() && kernel == old(kernel) && Wanted() == old(Wanted())[r.fd := mask]
      ensures r.events == mask
    {
      r.events := mask;
      forall i | 0 <= i < reactors.Length && i != r.fd ensures reactors[i] != r { assert old(EntryOk(i)); }
      AppendEvent(r.fd);
      forall i | 0 <= i < reactors.Length ensures EntryOk(i) && Noticed(i) { assert old(EntryOk(i)) && old(Noticed(i)); }
      forall fd ensures KernelOk(fd) { assert old(KernelOk(fd)); }
    }

    /** `continueRead` and `continueWrite`, for POLLIN and POLLOUT. */
    method Continue(r: Reactor, bit: Mask)
      requires Valid() && Registered(r) && (bit == POLLIN || bit == POLLOUT)
      modifies this`updates, flags, r`events
      ensures Valid() && kernel == old(kernel) && Wanted() == old(Wanted())[r.fd := With(old(r.events), bit)]
    {
      BitKept(r.events, bit);
      if !Has(r.events, bit) {
        UpdateEvents(r, With(r.events, bit));
      } else {
        assert Wanted()[r.fd] == r.events;
      }
    }

    /** `suspendRead` and `suspendWrite`. */
    method Suspend(r: Reactor, bit: Mask)
      requires Valid() && Registered(r) && (bit == POLLIN || bit == POLLOUT)
      modifies this`updates, flags, r`events
      ensures Valid() && kernel == old(kernel) && Wanted() == old(Wanted())[r.fd := Without(old(r.events), bit)]
    {
      BitKept(r.events, bit);
      if Has(r.events, bit) {
        UpdateEvents(r, Without(r.events, bit));
      } else {
        assert Wanted()[r.fd] == r.events;
      }
    }

    /** `setEvents`, behind `switchWriteToRead` and `switchReadToWrite`. */
    method SetEvents(r: Reactor, mask: Mask)
      requires Valid() && Registered(r)
      modifies this`updates, flags, r`events
      ensures Valid() && kernel == old(kernel) && Wanted() == old(Wanted())[r.fd := mask]
    {
      if r.events != mask {
        UpdateEvents(r, mask);
      } else {
        assert Wanted()[r.fd] == r.events;
      }
    }

    method SwitchWriteToRead(r: Reactor)
      requires Valid() && Registered(r)
      modifies this`updates, flags, r`events
      ensures Valid() && kernel == old(kernel) && Wanted() == old(Wanted())[r.fd := POLLIN | POLLHUP | POLLERR]
    {
      SetEvents(r, POLLIN | POLLHUP | POLLERR);
    }

    method SwitchReadToWrite(r: Reactor)
      requires Valid() && Registered(r)
      modifies this`updates, flags, r`events
      ensures Valid() && kernel == old(kernel) && Wanted() == old(Wanted())[r.fd := POLLOUT | POLLHUP | POLLERR]
    {
      SetEvents(r, POLLOUT | POLLHUP | POLLERR);
    }

    /** `ReactorIndex::allocate`: more room, nothing else. */
    method Reallocate(capacity: nat)
      requires Valid() && capacity > reactors.Length
      modifies this`reactors, this`flags
      ensures Valid() && Wanted() == old(Wanted()) && reactors.Length == capacity
      ensures fresh(reactors) && fresh(flags) && Handlers() == old(Handlers())
      ensures forall i :: 0 <= i < capacity ==> reactors[i] == if i < old(reactors.Length) then old(reactors[i]) else null
    {
      ghost var was, hs := reactors[..], Handlers();
      var rs := new Reactor?[capacity](_ => null);
      var fs := new bool[capacity](_ => false);
      forall i | 0 <= i < reactors.Length { rs[i] := reactors[i]; }
      forall i | 0 <= i < flags.Length { fs[i] := flags[i]; }
      reactors, flags := rs, fs;
      forall i | 0 <= i < capacity ensures EntryOk(i) && Noticed(i) {
        if i < old(reactors.Length) { assert old(EntryOk(i)) && old(Noticed(i)); }
      }
      forall fd ensures KernelOk(fd) { assert old(KernelOk(fd)); }
      SameHandlers(was, hs);
    }

    lemma SameHandlers(was: seq<Reactor?>, hs: set<Reactor>)
      requires |was| <= reactors.Length && hs == set i | 0 <= i < |was| && was[i] != null :: was[i]
      requires forall i :: 0 <= i < reactors.Length ==> reactors[i] == if i < |was| then was[i] else null
      ensures Handlers() == hs
    {
      forall r | r in hs ensures r in Handlers() {
        var i :| 0 <= i < |was| && was[i] == r;
        assert reactors[i] == r;
      }
    }

    /** `ReactorIndex::set` for a reactor: the index grows as needed. */
    method Reserve(fd: nat)
      requires Valid() && fd <= MAX_FDINDEX
      modifies this`reactors, this`flags, this`used
      ensures Valid() && fd < reactors.Length && fd <= used
      ensures Wanted() == old(Wanted()) && Handlers() == old(Handlers())
      ensures reactors == old(reactors) || fresh(reactors)
      ensures flags == old(flags) || fresh(flags)
      ensures old(reactors.Length) <= reactors.Length
      ensures forall i :: 0 <= i < reactors.Length ==>
        reactors[i] == if i < old(reactors.Length) then old(reactors[i]) else null
    {
      if fd >= reactors.Length {
        var cap := reactors.Length * 2;
        if cap <= fd { cap := fd + 1; }
        Reallocate(cap);
      }
      label grown:
      if fd > used { used := fd; }
      forall i | 0 <= i < reactors.Length ensures EntryOk(i) && Noticed(i) {
        assert old@grown(EntryOk(i)) && old@grown(Noticed(i));
      }
      forall x ensures KernelOk(x) { assert old@grown(KernelOk(x)); }
    }

    /** `add`: a new reactor; the kernel is told at once. */
    method Add(r: Reactor, mask: Mask) returns (ret: int)
      requires Valid() && r !in Handlers() && r.fd !in kernel && r.fd >= -1
      modifies this, reactors, flags, r
      ensures Valid() && (reactors == old(reactors) || fresh(reactors)) && (flags == old(flags) || fresh(flags))
      ensures ret == (if r.fd > MAX_FDINDEX then -1 else 0)
      ensures if 0 <= r.fd <= MAX_FDINDEX then
          Registered(r) && Wanted() == old(Wanted())[r.fd := mask] && kernel == old(kernel)[r.fd := mask]
        else Wanted() == old(Wanted()) && kernel == old(kernel)
    {
      if r.fd == -1 { return 0; }
      if r.fd > MAX_FDINDEX { return -1; }
      Reserve(r.fd);
      assert EntryOk(r.fd);
      Fill(r, mask);
      ret := 0;
    }

    method Fill(r: Reactor, mask: Mask)
      requires Valid() && r !in Handlers() && 0 <= r.fd < reactors.Length && r.fd <= used && reactors[r.fd] == null
      requires r.fd !in kernel
      modifies this`kernel, reactors, r
      ensures Valid() && Registered(r)
      ensures Wanted() == old(Wanted())[r.fd := mask] && kernel == old(kernel)[r.fd := mask]
    {
      reactors[r.fd] := r;
      r.events := mask;
      kernel := kernel[r.fd := mask];
      r.eventSet := mask;
      forall i | 0 <= i < reactors.Length ensures EntryOk(i) && Noticed(i) { assert old(EntryOk(i)) && old(Noticed(i)); }
      forall x ensures KernelOk(x) { assert old(KernelOk(x)); }
    }

    /** `remove`: the kernel is told at once; an entry on the list stays behind. */
    method Remove(r: Reactor)
      requires Valid() && (r.fd == -1 || Registered(r))
      modifies this`kernel, reactors, r`events, r`eventSet
      ensures Valid() && Wanted() == old(Wanted()) - {r.fd} && kernel == old(kernel) - {r.fd}
    {
      if r.fd == -1 {
        assert KernelOk(-1);
        return;
      }
      assert EntryOk(r.fd);
      forall i | 0 <= i < reactors.Length && i != r.fd ensures reactors[i] != r { assert EntryOk(i); }
      r.events, r.eventSet := 0, 0;
      reactors[r.fd] := null;
      kernel := kernel - {r.fd};
      forall i | 0 <= i < reactors.Length ensures EntryOk(i) && Noticed(i) { assert old(EntryOk(i)) && old(Noticed(i)); }
      forall x ensures KernelOk(x) { assert old(KernelOk(x)); }
    }

    /** One turn of `applyEvents`. */
    method ApplyOne(fd: nat, ghost rest: seq<int>)
      requires Shape() && Indexed() && rest != [] && rest[0] == fd && Listed(rest) && fd < reactors.Length
      requires forall i {:trigger Noticed(i)} :: 0 <= i < reactors.Length ==> Noticed(i)
      modifies this`kernel, flags, Handlers()`eventSet
      ensures Shape() && Indexed() && Listed(rest[1..]) && Handlers() == old(Handlers())
      ensures forall i {:trigger Noticed(i)} :: 0 <= i < reactors.Length ==> Noticed(i)
      ensures Wanted() == old(Wanted())
    {
      assert EntryOk(fd);
      var r := if fd <= used then reactors[fd] else null;
      flags[fd] := false;
      if r != null && r.eventSet != r.events {
        kernel := kernel[fd := r.events];
        r.eventSet := r.events;
      }
      forall i | 0 <= i < reactors.Length ensures EntryOk(i) && Noticed(i) { assert old(EntryOk(i)) && old(Noticed(i)); }
      forall x ensures KernelOk(x) { assert old(KernelOk(x)); }
      forall i ensures i in rest[1..] <==> 0 <= i < flags.Length && flags[i] {
        assert i in rest <==> i == fd || i in rest[1..];
      }
    }

    /** `applyEvents`: afterwards the kernel's masks are the wanted ones for every descriptor. */
    method ApplyEvents()
      requires Valid()
      modifies this`kernel, this`updates, flags, Handlers()`eventSet
      ensures Valid() && updates == [] && Wanted() == old(Wanted()) && kernel == Wanted()
    {
      var p := 0;
      ghost var hs := Handlers();
      while p < |updates|
        invariant 0 <= p <= |updates| && updates == old(updates) && Handlers() == hs && Wanted() == old(Wanted())
        invariant Shape() && Indexed() && Listed(updates[p..])
        invariant forall i {:trigger Noticed(i)} :: 0 <= i < reactors.Length ==> Noticed(i)
      {
        assert updates[p] in updates[p..];
        assert updates[p..][1..] == updates[p + 1..];
        ApplyOne(updates[p], updates[p..]);
        p := p + 1;
      }
      forall i | 0 <= i < reactors.Length && reactors[i] != null
        ensures i in kernel && kernel[i] == reactors[i].events {
        assert EntryOk(i) && Noticed(i) && i !in updates[p..];
      }
      forall x | x in kernel ensures x in Wanted() { assert KernelOk(x); }
      label done:
      updates := [];
      forall i | 0 <= i < reactors.Length ensures EntryOk(i) && Noticed(i) { assert old@done(EntryOk(i)) && old@done(Noticed(i)); }
      forall x ensures KernelOk(x) { assert old@done(KernelOk(x)); }
    }
  }

  function Has(m: Mask, bit: Mask): bool { m & bit != 0 }
  function With(m: Mask, bit: Mask): Mask { m | bit }
  function Without(m: Mask, bit: Mask): Mask { m & !bit }

  lemma BitKept(m: Mask, bit: Mask)
    requires bit == POLLIN || bit == POLLOUT
    ensures Has(m, bit) ==> With(m, bit) == m
    ensures !Has(m, bit) ==> Without(m, bit) == m
  {
  }
}
