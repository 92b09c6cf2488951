/**
 * The slot table of `poll` (`pollfdreactor.h`, `pollfdreactor.cpp`).
 *
 * Slots below `end` are handed to poll(2); a slot with descriptor -1 is a hole. Holes are
 * chained through the `events` field of the slots themselves, 65535 ending the chain.
 * Removing the last slot moves `end` down past any holes before it but leaves them on
 * the chain, so the chain may name slots beyond `end`.
 */
module PollSlots {
  datatype Option<T> = None | Some(value: T)

  /** An event reactor and its descriptor. */
  datatype Handler = Handler(id: nat, fd: int)

  /** A `pollfd` pointer: which allocation of the array it points into, and where. */
  datatype Ptr = Ptr(base: nat, index: nat)

  const NIL := 65535
  const DEFAULT_CAPACITY := 16

  /** A value stored in the 16-bit `events` and read back as unsigned. */
  function Short(x: int): int { x % 65536 }

  /** The chain from `first` visits exactly the slots `free`, in order, each once. */
  ghost predicate Chain(events: seq<int>, first: int, free: seq<nat>)
    decreases |free|
  {
    if free == [] then first == NIL
    else
      && first == free[0] < |events| && first < NIL && free[0] !in free[1..]
      && Chain(events, Short(events[free[0]]), free[1..])
  }

  /** Writing a slot that is not on the chain leaves the chain alone. */
  lemma {:induction false} ChainFrame(events: seq<int>, events': seq<int>, first: int, free: seq<nat>)
    requires Chain(events, first, free) && |events| <= |events'|
    requires forall i :: 0 <= i < |events| && i in free ==> events'[i] == events[i]
    ensures Chain(events', first, free)
    decreases |free|
  {
    if free != [] { ChainFrame(events, events', Short(events[free[0]]), free[1..]); }
  }

  /** The chain is free of cycles and repetitions, and fixed by the fields it is read from. */
  lemma {:induction false} ChainMeans(events: seq<int>, first: int, a: seq<nat>, b: seq<nat>)
    requires Chain(events, first, a) && Chain(events, first, b)
    ensures a == b && forall i, j :: 0 <= i < j < |a| ==> a[i] != a[j]
    decreases |a|
  {
    if a != [] {
      ChainMeans(events, Short(events[a[0]]), a[1..], b[1..]);
      assert a == [a[0]] + a[1..] && b == [b[0]] + b[1..];
      forall i, j | 0 <= i < j < |a| ensures a[i] != a[j] {
        assert a[j] == a[1..][j - 1] && (i > 0 ==> a[i] == a[1..][i - 1]);
      }
    }
  }

  class PollTable {
    var fds: array<int>
    var events: array<int>
    var reactors: array<Option<Handler>>
    var end: nat
    var first: int
    var base: nat                      // counts the reallocations
    var pollfd: map<Handler, Ptr>      // the pointer kept in every registered handler
    ghost var free: seq<nat>

    ghost predicate Shape()
      reads this
    {
      && fds.Length == events.Length == reactors.Length && fds != events && end <= fds.Length
    }

    /** Slot i names a handler that points back at it, or is a hole on the chain. */
    ghost predicate SlotOk(i: nat)
      requires Shape() && i < end
      reads this, fds, reactors
    {
      if reactors[i].None? then fds[i] == -1 && i in free
      else
        var h := reactors[i].value;
        h.fd == fds[i] != -1 && i !in free && h in pollfd && pollfd[h] == Ptr(base, i)
    }

    ghost predicate PtrOk(h: Handler)
      requires Shape()
      reads this, reactors
    {
      h in pollfd ==> pollfd[h].base == base && pollfd[h].index < end && reactors[pollfd[h].index] == Some(h)
    }

    ghost predicate Valid()
      reads this, fds, events, reactors
    {
      && Shape()
      && (forall i {:trigger SlotOk(i)} :: 0 <= i < end ==> SlotOk(i))
      && (forall h {:trigger PtrOk(h)} :: PtrOk(h))
      && end <= NIL && (end > 0 ==> fds[end - 1] != -1)
      && Chain(events[..], first, free)
    }

    /** Which handler holds which slot. */
    ghost function Used(): map<Handler, nat>
      reads this
    {
      map h | h in pollfd :: pollfd[h].index
    }

    constructor ()
      ensures Valid() && Used() == map[] && fresh(fds) && fresh(events) && fresh(reactors)
    {
      fds := new int[0];
      events := new int[0];
      reactors := new Option<Handler>[0];
      end, first, base, pollfd, free := 0, NIL, 0, map[], [];
      new;
      assert fds != events by { assert fresh(fds); }
    }

    /** Everything holds but that slot x has been taken and not yet filled. */
    ghost predicate Reserved(x: nat)
      reads this, fds, events, reactors
    {
      && Shape() && x < end <= NIL && x !in free
      && (forall i {:trigger SlotOk(i)} :: 0 <= i < end && i != x ==> SlotOk(i))
      && (forall h {:trigger PtrOk(h)} :: PtrOk(h) && (h in pollfd ==> pollfd[h].index != x))
      && (x != end - 1 ==> fds[end - 1] != -1)
      && Chain(events[..], first, free)
    }

    /** Slot i is filled, by a handler that pointed at slot i of the old array. */
    ghost predicate Moved(i: nat, was: map<Handler, Ptr>)
      requires Shape() && i < end
      reads this, fds, reactors
    {
      && reactors[i].Some? && reactors[i].value.fd == fds[i] != -1
      && reactors[i].value in was && was[reactors[i].value].index == i
    }

    /** Point every handler at its slot in the new array. */
    method Relink()
      requires Shape() && end <= NIL && free == [] && first == NIL
      requires forall i {:trigger Moved(i, pollfd)} :: 0 <= i < end ==> Moved(i, pollfd)
      requires forall h :: h in pollfd ==> pollfd[h].index < end && reactors[pollfd[h].index] == Some(h)
      modifies this`pollfd
      ensures Valid() && Used() == old(Used())
    {
      ghost var was := pollfd;
      var i := 0;
      while i < end
        invariant 0 <= i <= end && pollfd.Keys == was.Keys
        invariant forall h {:trigger was[h]} :: h in was ==>
          pollfd[h] == if was[h].index < i then Ptr(base, was[h].index) else was[h]
        invariant forall j {:trigger Moved(j, was)} :: 0 <= j < end ==> Moved(j, was)
      {
        label turn:
        assert Moved(i, was);
        pollfd := pollfd[reactors[i].value := Ptr(base, i)];
        i := i + 1;
        forall j | 0 <= j < end ensures Moved(j, was) { assert old@turn(Moved(j, was)); }
      }
      forall j | 0 <= j < end ensures SlotOk(j) { assert Moved(j, was); }
      forall h ensures PtrOk(h) { assert h in was ==> was[h].index < end; }
      assert end > 0 ==> Moved(end - 1, was);
      assert Used() == old(Used());
    }

    /** `allocate`: larger arrays, and every handler's pointer moved to its new slot. */
    method Allocate(capacity: nat)
      requires Valid() && free == [] && end <= capacity
      modifies this
      ensures Valid() && free == [] && end == old(end) && fds.Length == capacity
      ensures fresh(fds) && fresh(events) && fresh(reactors) && Used() == old(Used())
    {
      var clients := new Option<Handler>[capacity](_ => None);
      var pfds := new int[capacity](_ => -1);
      var masks := new int[capacity](_ => 0);
      forall i | 0 <= i < end { clients[i] := reactors[i]; }
      forall i | 0 <= i < end { pfds[i] := fds[i]; }
      forall i | 0 <= i < end { masks[i] := events[i]; }
      forall i | 0 <= i < end ensures clients[i] == reactors[i] && pfds[i] == fds[i] && SlotOk(i) { }
      forall h ensures PtrOk(h) { }
      forall h | h in pollfd ensures pollfd[h].index < end && clients[pollfd[h].index] == Some(h) { assert PtrOk(h); }
      reactors, fds, events, base := clients, pfds, masks, base + 1;
      forall i | 0 <= i < end ensures Moved(i, pollfd) { assert old(SlotOk(i)); }
      Relink();
    }

    /** `grow`; the system's memory may run out. */
    method Grow(memory: bool) returns (ok: bool)
      requires Valid() && free == [] && end == fds.Length
      modifies this
      ensures Valid() && free == [] && end == old(end) && Used() == old(Used())
      ensures ok == memory && (ok ==> end < fds.Length && fresh(fds) && fresh(events) && fresh(reactors))
      ensures !ok ==> fds == old(fds) && events == old(events) && reactors == old(reactors)
    {
      var n := fds.Length * 2;
      if n == 0 { n := DEFAULT_CAPACITY; }
      if memory { Allocate(n); }
      ok := memory;
    }

    /** There is a hole, or the table may still get longer. */
    ghost predicate Roomy()
      requires Shape()
      reads this, reactors
    {
      end < NIL || exists i :: 0 <= i < end && reactors[i].None?
    }

    /** Take the first slot off the chain. */
    method Pop() returns (x: nat)
      requires Valid() && free != []
      modifies this`first, this`free
      ensures x == old(free)[0] && free == old(free)[1..] && x !in free && x < events.Length
      ensures Chain(events[..], first, free)
    {
      x := first;
      first := Short(events[x]);
      free := free[1..];
    }

    /** A chain entry beyond the end is dropped, and no hole is lost by that. */
    method Discard(x: nat)
      requires Shape() && end <= x < events.Length && x !in free && end <= NIL
      requires Chain(events[..], first, free)
      requires forall i {:trigger SlotOk(i)} :: 0 <= i < end ==> SlotOk(i)
      requires forall h {:trigger PtrOk(h)} :: PtrOk(h)
      requires end > 0 ==> fds[end - 1] != -1
      modifies events
      ensures Valid()
    {
      ghost var was := events[..];
      events[x] := NIL;
      ChainFrame(was, events[..], first, free);
      forall i | 0 <= i < end ensures SlotOk(i) { assert old(SlotOk(i)); }
      forall h ensures PtrOk(h) { assert old(PtrOk(h)); }
    }

    /** The next chain entry: a hole to be filled, or an entry dropped. */
    method TakeHole() returns (x: nat)
      requires Valid() && free != []
      modifies this`first, this`free, events
      ensures x < end ==> Reserved(x)
      ensures x >= end ==> Valid() && |free| < |old(free)|
    {
      forall i | 0 <= i < end ensures SlotOk(i) { }
      forall h ensures PtrOk(h) { }
      x := Pop();
      forall i | 0 <= i < end && i != x ensures SlotOk(i) { assert old(SlotOk(i)); }
      forall h ensures PtrOk(h) { assert old(PtrOk(h)); }
      if x < end {
        assert old(SlotOk(x));
        forall h ensures h in pollfd ==> pollfd[h].index != x { assert PtrOk(h); }
      } else {
        Discard(x);
      }
    }

    /** With no hole left, the slot at the end, in larger arrays if need be. */
    method TakeEnd(memory: bool) returns (slot: int)
      requires Valid() && free == [] && end < NIL
      modifies this
      ensures 0 <= slot ==> Reserved(slot) && Used() == old(Used())
      ensures slot < 0 ==> !memory && Valid() && Used() == old(Used())
      ensures slot < 0 || slot == old(end)
      ensures fds == old(fds) || fresh(fds)
      ensures events == old(events) || fresh(events)
      ensures reactors == old(reactors) || fresh(reactors)
    {
      if end == fds.Length {
        var ok := Grow(memory);
        if !ok { return -1; }
      }
      slot := end;
      forall i | 0 <= i < end ensures SlotOk(i) { }
      label grown:
      end := end + 1;
      forall i | 0 <= i < end && i != slot ensures SlotOk(i) { assert old@grown(SlotOk(i)); }
      forall h ensures PtrOk(h) && (h in pollfd ==> pollfd[h].index != slot) { assert old@grown(PtrOk(h)); }
    }

    /** `getAvail`: a slot no handler holds, now below the end; -1 if memory ran out. */
    method GetAvail(memory: bool) returns (slot: int)
      requires Valid() && Roomy()
      modifies this, events
      ensures 0 <= slot ==> Reserved(slot) && Used() == old(Used())
      ensures slot < 0 ==> !memory && Valid() && Used() == old(Used())
      ensures slot < 0 || slot >= old(end) ==> forall i :: 0 <= i < old(end) ==> old(reactors[i].Some?)
      ensures fds == old(fds) || fresh(fds)
      ensures events == old(events) || fresh(events)
      ensures reactors == old(reactors) || fresh(reactors)
    {
      while first != NIL
        invariant Valid() && Roomy() && Used() == old(Used())
        invariant fds == old(fds) && events == old(events) && reactors == old(reactors) && end == old(end)
        decreases |free|
      {
        var x := TakeHole();
        if x < end { return x; }
      }
      forall i | 0 <= i < end ensures reactors[i].Some? { assert SlotOk(i); }
      slot := TakeEnd(memory);
    }

    /**
     * `add`: the handler gets a slot that was in no use, a hole while there is one, and every
     * other handler keeps its own; without memory nothing changes.
     */
    method Add(h: Handler, mask: int, memory: bool) returns (slot: int)
      requires Valid() && Roomy() && h.fd != -1 && h !in Used()
      modifies this, fds, events, reactors
      ensures Valid()
      ensures slot < 0 ==> !memory && Used() == old(Used())
      ensures 0 <= slot ==> Used() == old(Used())[h := slot] && slot !in old(Used()).Values
      ensures 0 <= slot ==> slot < events.Length && events[slot] == mask
      ensures slot >= old(end) ==> forall i :: 0 <= i < old(end) ==> old(reactors[i].Some?)
    {
      slot := GetAvail(memory);
      if slot < 0 { return; }
      Fill(slot, h, mask);
    }

    /** Put a handler into a reserved slot. */
    method Fill(x: nat, h: Handler, mask: int)
      requires Reserved(x) && h.fd != -1 && h !in pollfd
      modifies this`pollfd, fds, events, reactors
      ensures Valid() && Used() == old(Used())[h := x] && x !in old(Used()).Values
      ensures x < events.Length && events[x] == mask
    {
      ghost var was := events[..];
      forall g | g in pollfd ensures pollfd[g].index != x { assert PtrOk(g); }
      pollfd := pollfd[h := Ptr(base, x)];
      events[x] := mask;
      fds[x] := h.fd;
      reactors[x] := Some(h);
      ChainFrame(was, events[..], first, free);
      forall i | 0 <= i < end ensures SlotOk(i) { if i != x { assert old(SlotOk(i)); } }
      forall g ensures PtrOk(g) { assert old(PtrOk(g)); }
    }

    /** `remove`: only the handler's own slot is given up; a handler without one is refused. */
    method Remove(h: Handler) returns (ok: bool)
      requires Valid()
      modifies this, fds, events, reactors
      ensures Valid() && ok == (h in old(Used())) && Used() == old(Used()) - {h}
      ensures fds == old(fds) && events == old(events) && reactors == old(reactors)
      ensures end <= old(end) <= fds.Length && (end > 0 ==> fds[end - 1] != -1)
      ensures forall i :: end <= i < old(end) ==> fds[i] == -1
    {
      if h !in pollfd {
        return false;
      }
      var x := pollfd[h].index;
      assert PtrOk(h) && SlotOk(x);
      if x == end - 1 {
        DropLast(h, x);
      } else {
        Recycle(h, x);
      }
      ok := true;
    }

    /** Unhook a handler that does not hold the last slot: its slot goes onto the chain. */
    method Recycle(h: Handler, x: nat)
      requires Valid() && x + 1 < end && h in pollfd && pollfd[h] == Ptr(base, x) && reactors[x] == Some(h)
      modifies this`pollfd, this`first, this`free, fds, events, reactors
      ensures Valid() && Used() == old(Used()) - {h} && first == x && free == [x] + old(free)
    {
      ghost var was := events[..];
      assert SlotOk(x);
      pollfd := pollfd - {h};
      fds[x] := -1;
      reactors[x] := None;
      events[x] := first;
      first := x;
      ChainFrame(was, events[..], old(first), free);
      free := [x] + free;
      forall i | 0 <= i < end ensures SlotOk(i) { assert old(SlotOk(i)); }
      forall g ensures PtrOk(g) { assert old(PtrOk(g)); }
    }

    /** Unhook the last handler, and move the end down past the holes before it. */
    method DropLast(h: Handler, x: nat)
      requires Valid() && x + 1 == end && h in pollfd && pollfd[h] == Ptr(base, x) && reactors[x] == Some(h)
      modifies this`pollfd, this`end, fds, reactors
      ensures Valid() && Used() == old(Used()) - {h}
      ensures end < old(end) && forall i :: end <= i < old(end) ==> fds[i] == -1
    {
      pollfd := pollfd - {h};
      fds[x] := -1;
      reactors[x] := None;
      end := end - 1;
      forall i | 0 <= i < end ensures SlotOk(i) { assert old(SlotOk(i)); }
      forall g ensures PtrOk(g) { assert old(PtrOk(g)); }
      Shrink();
    }

    method Shrink()
      requires Shape() && end <= NIL && Chain(events[..], first, free)
      requires forall i {:trigger SlotOk(i)} :: 0 <= i < end ==> SlotOk(i)
      requires forall h {:trigger PtrOk(h)} :: PtrOk(h)
      modifies this`end
      ensures Valid() && end <= old(end) && forall i :: end <= i < old(end) ==> fds[i] == -1
    {
      while end > 0 && fds[end - 1] == -1
        invariant end <= old(end) && forall i :: end <= i < old(end) ==> fds[i] == -1
        invariant Shape() && forall i {:trigger SlotOk(i)} :: 0 <= i < end ==> SlotOk(i)
        invariant forall h {:trigger PtrOk(h)} :: PtrOk(h)
        decreases end
      {
        label turn:
        assert SlotOk(end - 1);
        end := end - 1;
        forall i | 0 <= i < end ensures SlotOk(i) { assert old@turn(SlotOk(i)); }
        forall h ensures PtrOk(h) { assert old@turn(PtrOk(h)); }
      }
    }
  }
}
