/**
 * What the commands of `lsmemcache.cpp` do to one slice, as a map from keys to entries
 * and the slice's counter of cas values.
 */
module ItemSpec {
  import opened TidLog
  import W = TidWire

  const TWO_32: nat := 0x1_0000_0000
  const TWO_64: nat := 0x1_0000_0000_0000_0000
  const MAXDELTATIME := 2592000        // LSMC_MAXDELTATIME, 30 days

  datatype Option<T> = None | Some(value: T)

  datatype Entry = Entry(flags: nat, exptime: nat, val: Str, cas: nat)
  datatype Slice = Slice(items: map<Str, Entry>, counter: nat, usecas: bool)

  datatype Answer = Stored | NotStored | NotFound | Exists | NonNumeric | Deleted | Touched

  datatype Op =
    | Set(key: Str, flags: nat, exptime: nat, val: Str)
    | Add(key: Str, flags: nat, exptime: nat, val: Str)
    | Replace(key: Str, flags: nat, exptime: nat, val: Str)
    | Append(key: Str, val: Str)
    | Prepend(key: Str, val: Str)
    | Incr(key: Str, delta: nat)
    | Decr(key: Str, delta: nat)
    | Delete(key: Str)
    | Touch(key: Str, exptime: nat)

  /**
   * A command with the cas token it carries, if any, at the time it is executed. `behind` is
   * what lies in memory behind the value of the item; it matters only for a token given
   * while cas is not in use.
   */
  datatype Cmd = Cmd(op: Op, token: Option<nat>, now: nat, behind: Str)

  // ----- numbers -----

  function IsSpace(c: byte): bool { c == 32 || 9 <= c <= 13 }
  function IsDigit(c: byte): bool { 48 <= c <= 57 }

  function Digits(s: Str): (n: nat)
    ensures n <= |s| && forall i :: 0 <= i < n ==> IsDigit(s[i])
  {
    if s == [] || !IsDigit(s[0]) then 0 else 1 + Digits(s[1..])
  }

  function Value(s: Str): nat
    requires forall i :: 0 <= i < |s| ==> IsDigit(s[i])
  {
    if s == [] then 0
    else
      var last := s[|s| - 1];
      assert IsDigit(last);
      10 * Value(s[..|s| - 1]) + (last as int - 48)
  }

  /**
   * `myStrtoull`: white space, an optional sign, digits, then the end of the string or
   * white space; a minus sign negates modulo 2^64.
   */
  function StrToUll(s: Str): (n: Option<nat>)
    ensures n.Some? ==> n.value < TWO_64
  {
    if s != [] && IsSpace(s[0]) then StrToUll(s[1..])
    else if s != [] && s[0] == 43 then Unsigned(s[1..])
    else if s != [] && s[0] == 45 then
      var u := Unsigned(s[1..]);
      if u.Some? then Some((TWO_64 - u.value) % TWO_64) else None
    else Unsigned(s)
  }

  function Unsigned(s: Str): (n: Option<nat>)
    ensures n.Some? ==> n.value < TWO_64
  {
    var d := Digits(s);
    if d == 0 || Value(s[..d]) >= TWO_64 then None
    else if d < |s| && s[d] != 0 && !IsSpace(s[d]) then None
    else Some(Value(s[..d]))
  }

  /** `%llu`. */
  function Decimal(n: nat): (s: Str)
    ensures s != [] && forall i :: 0 <= i < |s| ==> IsDigit(s[i])
  {
    if n < 10 then [(48 + n) as byte] else Decimal(n / 10) + [(48 + n % 10) as byte]
  }

  lemma {:induction false} DecimalValue(n: nat)
    ensures Value(Decimal(n)) == n
  {
    var s := Decimal(n);
    if n >= 10 {
      DecimalValue(n / 10);
      assert s[..|s| - 1] == Decimal(n / 10);
    } else {
      assert s[..0] == [];
    }
  }

  lemma {:induction false} AllDigits(s: Str)
    requires forall i :: 0 <= i < |s| ==> IsDigit(s[i])
    ensures Digits(s) == |s|
  {
    if s != [] { AllDigits(s[1..]); }
  }

  /** A number stored by one arithmetic command is read back by the next. */
  lemma DecimalReadBack(n: nat)
    requires n < TWO_64
    ensures StrToUll(Decimal(n)) == Some(n)
  {
    var s := Decimal(n);
    AllDigits(s);
    DecimalValue(n);
    assert s[..|s|] == s;
    assert IsDigit(s[0]);
  }

  // ----- the commands -----

  predicate Expired(e: Entry, now: nat) {
    e.exptime != 0 && e.exptime <= now
  }

  predicate Live(s: Slice, k: Str, now: nat) {
    k in s.items && !Expired(s.items[k], now)
  }

  /** Small expiry times count from now. */
  function Absolute(exptime: nat, now: nat): nat {
    if 0 < exptime <= MAXDELTATIME then exptime + now else exptime
  }

  /** An entry is written under the next cas value. */
  function Put(s: Slice, k: Str, e: Entry): Slice {
    if s.usecas then Slice(s.items[k := e.(cas := s.counter + 1)], s.counter + 1, true)
    else Slice(s.items[k := e.(cas := 0)], s.counter, false)
  }

  function Drop(s: Slice, k: Str): Slice {
    s.(items := s.items - {k})
  }

  /** The old number of an item: at most 24 characters are looked at. */
  function Number(e: Entry): (n: Option<nat>)
    ensures n.Some? ==> n.value < TWO_64
  {
    if 0 < |e.val| <= 24 then StrToUll(e.val) else None
  }

  function Plus(n: nat, delta: nat): nat { (n + delta) % TWO_64 }
  function Minus(n: nat, delta: nat): nat { if delta > n then 0 else n - delta }

  /** An arithmetic command on a live item. */
  function Arith(s: Slice, k: Str, e: Entry, up: bool, delta: nat, now: nat): (Slice, Answer) {
    match Number(e)
    case None => (s, NonNumeric)
    case Some(n) =>
      var m := if up then Plus(n, delta) else Minus(n, delta);
      (Put(s, k, e.(val := Decimal(m), exptime := Absolute(e.exptime, now))), Stored)
  }

  /** `setItemExptime`: the sum is kept in 32 bits. */
  function Absolute32(exptime: nat, now: nat): nat {
    if 0 < exptime <= MAXDELTATIME then (exptime + now) % TWO_32 else exptime
  }

  /** The eight bytes a token is compared with: the cas value, or the first of the value. */
  function CasField(usecas: bool, e: Entry, behind: Str): nat {
    if usecas then e.cas
    else
      var b := e.val + behind;
      W.UnLe(if |b| < 8 then b else b[..8])
  }

  /** A command that needs the item, on the live item e. */
  function OnItem(s: Slice, c: Cmd, e: Entry): (Slice, Answer) {
    var op, now := c.op, c.now;
    if op.Touch? then
      (s.(items := s.items[op.key := e.(exptime := Absolute32(op.exptime, now))]), Touched)
    else if c.token.Some? && CasField(s.usecas, e, c.behind) != c.token.value then (s, Exists)
    else
      match op
      case Replace(k, f, x, v) => (Put(s, k, Entry(f, Absolute(x, now), v, 0)), Stored)
      case Append(k, v) => (Put(s, k, e.(val := e.val + v)), Stored)
      case Prepend(k, v) => (Put(s, k, e.(val := v + e.val)), Stored)
      case Incr(k, d) => Arith(s, k, e, true, d, now)
      case Decr(k, d) => Arith(s, k, e, false, d, now)
      case _ => (s, NotStored)
  }

  function Exec(s: Slice, c: Cmd): (Slice, Answer) {
    var k, now := c.op.key, c.now;
    match c.op
    case Set(_, f, x, v) => (Put(s, k, Entry(f, Absolute(x, now), v, 0)), Stored)
    case Add(_, f, x, v) =>
      if Live(s, k, now) then (s, NotStored) else (Put(s, k, Entry(f, Absolute(x, now), v, 0)), Stored)
    case Delete(_) => (Drop(s, k), if Live(s, k, now) then Deleted else NotFound)
    case _ =>
      if k !in s.items then (s, NotFound)
      else if Expired(s.items[k], now) then (Drop(s, k), NotFound)
      else OnItem(s, c, s.items[k])
  }

  // ----- cas over whole runs -----

  ghost predicate CasOk(s: Slice, k: Str) {
    k in s.items ==> 0 < s.items[k].cas <= s.counter
  }

  ghost predicate CasApart(s: Slice, j: Str, k: Str) {
    j in s.items && k in s.items && j != k ==> s.items[j].cas != s.items[k].cas
  }

  /** Cas values are pairwise distinct and never above the counter. */
  ghost predicate CasInv(s: Slice) {
    && s.usecas
    && (forall k {:trigger CasOk(s, k)} :: CasOk(s, k))
    && (forall j, k {:trigger CasApart(s, j, k)} :: CasApart(s, j, k))
  }

  lemma ExecCasInv(s: Slice, c: Cmd)
    requires CasInv(s)
    ensures CasInv(Exec(s, c).0) && s.counter <= Exec(s, c).0.counter
  {
    var s' := Exec(s, c).0;
    forall k ensures CasOk(s', k) { assert CasOk(s, k); }
    forall j, k ensures CasApart(s', j, k) {
      assert CasApart(s, j, k) && CasOk(s, j) && CasOk(s, k);
    }
  }

  function After(s: Slice, cs: seq<Cmd>): Slice
    decreases |cs|
  {
    if cs == [] then s else After(Exec(s, cs[0]).0, cs[1..])
  }

  lemma {:induction false} CasInvOverRuns(s: Slice, cs: seq<Cmd>)
    requires CasInv(s)
    ensures CasInv(After(s, cs)) && s.counter <= After(s, cs).counter
    decreases |cs|
  {
    if cs != [] {
      ExecCasInv(s, cs[0]);
      CasInvOverRuns(Exec(s, cs[0]).0, cs[1..]);
    }
  }

  /** Starting from an empty slice, cas values stay pairwise distinct and at most the counter. */
  lemma CasDistinct(cs: seq<Cmd>, j: Str, k: Str)
    ensures var s := After(Slice(map[], 0, true), cs);
      && (k in s.items ==> 0 < s.items[k].cas <= s.counter)
      && (j in s.items && k in s.items && j != k ==> s.items[j].cas != s.items[k].cas)
  {
    var s0 := Slice(map[], 0, true);
    forall x ensures CasOk(s0, x) { }
    forall x, y ensures CasApart(s0, x, y) { }
    CasInvOverRuns(s0, cs);
    assert CasOk(After(s0, cs), k) && CasApart(After(s0, cs), j, k);
  }

  ghost predicate Has(s: Slice, k: Str, c: nat) {
    k in s.items && s.items[k].cas == c
  }

  /** A cas value an item no longer has never comes back. */
  lemma {:induction false} NeverAgain(s: Slice, cs: seq<Cmd>, k: Str, c: nat)
    requires s.usecas && c <= s.counter && !Has(s, k, c)
    ensures !Has(After(s, cs), k, c)
    decreases |cs|
  {
    if cs != [] { NeverAgain(Exec(s, cs[0]).0, cs[1..], k, c); }
  }

  /**
   * An item that has the same cas value at the start and at the end of a run had the same
   * value and flags all the way through: nothing rewrote it in between.
   */
  lemma {:induction false} SameCasUnchanged(s: Slice, cs: seq<Cmd>, k: Str, i: nat)
    requires CasInv(s) && k in s.items && Has(After(s, cs), k, s.items[k].cas) && i <= |cs|
    ensures var m := After(s, cs[..i]);
      Has(m, k, s.items[k].cas) && m.items[k].val == s.items[k].val && m.items[k].flags == s.items[k].flags
    decreases |cs|
  {
    if i > 0 {
      var s1 := Exec(s, cs[0]).0;
      ExecCasInv(s, cs[0]);
      assert CasOk(s, k);
      if !Has(s1, k, s.items[k].cas) { NeverAgain(s1, cs[1..], k, s.items[k].cas); }
      SameCasUnchanged(s1, cs[1..], k, i - 1);
      assert cs[..i][1..] == cs[1..][..i - 1];
    }
  }

  /**
   * An update carrying the token read from an item is carried out exactly when the item
   * is still there, has not expired and has not been rewritten since.
   */
  lemma TokenGuards(s: Slice, cs: seq<Cmd>, k: Str, f: nat, x: nat, v: Str, now: nat, i: nat)
    requires CasInv(s) && k in s.items && i <= |cs|
    ensures var t := After(s, cs);
      var token := s.items[k].cas;
      var answer := Exec(t, Cmd(Replace(k, f, x, v), Some(token), now, [])).1;
      && (answer == Stored <==> Live(t, k, now) && Has(t, k, token))
      && (answer == Stored ==> var m := After(s, cs[..i]);
            k in m.items && m.items[k].val == s.items[k].val && m.items[k].flags == s.items[k].flags)
      && (answer == Exists <==> Live(t, k, now) && !Has(t, k, token))
      && (answer == NotFound <==> !Live(t, k, now))
  {
    CasInvOverRuns(s, cs);
    if Has(After(s, cs), k, s.items[k].cas) { SameCasUnchanged(s, cs, k, i); }
  }

  // ----- what the commands mean -----

  ghost predicate ExpiryOk(s: Slice, k: Str) {
    k in s.items ==> s.items[k].exptime == 0 || s.items[k].exptime > MAXDELTATIME
  }

  /**
   * Stored expiry times are absolute, so an arithmetic command keeps the expiry time as it
   * keeps the flags, and stores the decimal of the sum modulo 2^64 or of the difference,
   * at least 0; a second one reads that number back.
   */
  lemma ArithmeticMeans(s: Slice, k: Str, delta: nat, up: bool, token: Option<nat>, now: nat, behind: Str)
    requires Live(s, k, now) && ExpiryOk(s, k)
    requires token.None? || token.value == CasField(s.usecas, s.items[k], behind)
    ensures var op := if up then Incr(k, delta) else Decr(k, delta);
      var (s', a) := Exec(s, Cmd(op, token, now, behind));
      match Number(s.items[k])
      case None => a == NonNumeric && s' == s
      case Some(n) =>
        && a == Stored && s'.items.Keys == s.items.Keys
        && s'.items[k].flags == s.items[k].flags && s'.items[k].exptime == s.items[k].exptime
        && StrToUll(s'.items[k].val) == Some(if up then (n + delta) % TWO_64 else if delta > n then 0 else n - delta)
        && forall j :: j in s.items && j != k ==> s'.items[j] == s.items[j]
  {
    match Number(s.items[k])
    case None =>
    case Some(n) => DecimalReadBack(if up then Plus(n, delta) else Minus(n, delta));
  }

  ghost predicate AllAbsolute(s: Slice) {
    forall k {:trigger ExpiryOk(s, k)} :: ExpiryOk(s, k)
  }

  /** A touch whose sum wraps around to a time that reads as relative. */
  predicate WrapsSmall(s: Slice, c: Cmd) {
    c.op.Touch? && Live(s, c.op.key, c.now) && 0 < c.op.exptime <= MAXDELTATIME
    && 0 < (c.op.exptime + c.now) % TWO_32 <= MAXDELTATIME
  }

  /**
   * Once the clock is past the largest relative time, a command keeps the stored expiry
   * times absolute, except a touch whose 32-bit sum wraps around to a small one.
   */
  lemma ExpiryKept(s: Slice, c: Cmd)
    requires c.now >= MAXDELTATIME && AllAbsolute(s)
    ensures AllAbsolute(Exec(s, c).0) <==> !WrapsSmall(s, c)
  {
    var s' := Exec(s, c).0;
    assert ExpiryOk(s, c.op.key);
    if WrapsSmall(s, c) {
      assert !ExpiryOk(s', c.op.key);
    } else {
      forall k ensures ExpiryOk(s', k) { assert ExpiryOk(s, k); }
    }
  }

  /** In the last second of 32 bits an expiry two seconds away is stored as 1, which is long past. */
  lemma TouchWraps() returns (s: Slice, c: Cmd)
    ensures c.now == TWO_32 - 1 && c.op == Touch([1], 2) && AllAbsolute(s)
    ensures var s' := Exec(s, c).0;
      c.op.key in s'.items && s'.items[c.op.key].exptime == 1 && Expired(s'.items[c.op.key], c.now) && !AllAbsolute(s')
  {
    s := Slice(map[[1] := Entry(0, 0, [], 0)], 0, false);
    c := Cmd(Touch([1], 2), None, TWO_32 - 1, []);
    forall k ensures ExpiryOk(s, k) { }
    ExpiryKept(s, c);
  }
}
