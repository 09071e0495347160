/** The cache of certificate revocation lists: which of the cached and the supplied list is enforced
    and kept. Lists are compared by CRL number (section 5.2.3 of RFC 5280) through a byte key. */
module Revocation {
  import opened Wrappers
  import opened Bytes

  // ------------------------------------------------------------ the ordering key

  /** Big-endian bytes without leading zeros; zero is one zero byte. */
  function Digits(n: nat): (r: seq<Byte>)
    ensures r != []
  {
    if n < 256 then [n] else Digits(n / 256) + [n % 256]
  }

  const MAX_DIGITS := 20

  predicate Short(n: nat) {
    |Digits(n)| <= MAX_DIGITS
  }

  /** The number's byte length, then its bytes. */
  function Key(n: nat): seq<Byte>
    requires Short(n)
  {
    [|Digits(n)|] + Digits(n)
  }

  lemma {:induction false} LongerIsLarger(a: nat, b: nat)
    requires a <= b
    ensures |Digits(a)| <= |Digits(b)|
  {
    if a >= 256 {
      LongerIsLarger(a / 256, b / 256);
    }
  }

  lemma {:induction false} LessOnLastByte(x: seq<Byte>, y: seq<Byte>, p: Byte, q: Byte)
    requires |x| == |y|
    ensures Less(x + [p], y + [q]) <==> Less(x, y) || (x == y && p < q)
  {
    var u, v := x + [p], y + [q];
    if x != [] {
      assert u[1..] == x[1..] + [p] && v[1..] == y[1..] + [q];
      LessOnLastByte(x[1..], y[1..], p, q);
      assert x == [x[0]] + x[1..] && y == [y[0]] + y[1..];
    }
  }

  lemma {:induction false} SameLengthOrder(a: nat, b: nat)
    requires |Digits(a)| == |Digits(b)|
    ensures Less(Digits(a), Digits(b)) <==> a < b
  {
    if a >= 256 {
      SameLengthOrder(a / 256, b / 256);
      LessOnLastByte(Digits(a / 256), Digits(b / 256), a % 256, b % 256);
      if Digits(a / 256) == Digits(b / 256) {
        LessIsTotal(Digits(a / 256), Digits(b / 256));
        SameLengthOrder(b / 256, a / 256);
      }
    }
  }

  /** Comparing keys byte by byte compares the numbers. */
  lemma KeyOrder(a: nat, b: nat)
    requires Short(a) && Short(b)
    ensures Less(Key(a), Key(b)) <==> a < b
    ensures Key(a) == Key(b) <==> a == b
  {
    var x, y := Digits(a), Digits(b);
    assert Key(a)[1..] == x && Key(b)[1..] == y;
    if |x| == |y| {
      SameLengthOrder(a, b);
      SameLengthOrder(b, a);
      LessIsTotal(x, y);
    } else if a <= b {
      LongerIsLarger(a, b);
    } else {
      LongerIsLarger(b, a);
    }
  }

  // ------------------------------------------------------------ the lists

  /** `Malformed` stands for bytes that do not parse, are too long or break the profile. A list names
      the issuer whose key signed it. */
  datatype Crl = Malformed | Crl(signer: nat, number: nat, revoked: set<nat>, lastUpdate: int, nextUpdate: Option<int>)

  datatype Refusal = Invalid | Revoked | Stale

  predicate Authentic(c: Crl, issuer: nat) {
    c.Crl? && c.signer == issuer && Short(c.number)
  }

  /** A list speaks for the current time from its issue until before its next update. */
  predicate Current(c: Crl, now: int)
    requires c.Crl?
  {
    c.lastUpdate <= now && c.nextUpdate.Some? && now < c.nextUpdate.value && c.lastUpdate < c.nextUpdate.value
  }

  /** What enforcing one list says about a leaf; a known revocation stands even when the list is stale. */
  function Verdict(c: Crl, leaf: nat, now: int): Option<Refusal>
    requires c.Crl?
  {
    if leaf in c.revoked then Some(Revoked) else if !Current(c, now) then Some(Stale) else None
  }

  method ValidateCrl(c: Crl, issuer: nat, leaf: nat, now: int, enforce: bool) returns (r: Result<seq<Byte>, Refusal>)
    ensures !Authentic(c, issuer) ==> r == Err(Invalid)
    ensures Authentic(c, issuer) && !enforce ==> r == Ok(Key(c.number))
    ensures Authentic(c, issuer) && enforce ==>
      match Verdict(c, leaf, now) case Some(e) => r == Err(e) case None => r == Ok(Key(c.number))
  {
    if c.Malformed? || c.signer != issuer {
      return Err(Invalid);
    }
    var number := Digits(c.number);
    if |number| > MAX_DIGITS {
      return Err(Invalid);
    }
    var ordered := [|number|] + number;
    if enforce {
      if leaf in c.revoked {
        return Err(Revoked);
      }
      if c.lastUpdate > now || c.nextUpdate.None? || c.nextUpdate.value <= now || c.nextUpdate.value <= c.lastUpdate {
        return Err(Stale);
      }
    }
    r := Ok(ordered);
  }

  function Cached(files: map<nat, Crl>, issuer: nat): Option<Crl> {
    if issuer in files then Some(files[issuer]) else None
  }

  /** Absent lists number below every present one. */
  function Number(c: Option<Crl>): int {
    if c.Some? && c.value.Crl? then c.value.number else -1
  }

  predicate Usable(c: Option<Crl>, issuer: nat) {
    c.Some? ==> Authentic(c.value, issuer)
  }

  datatype Call = Call(issuer: nat, leaf: nat, supplied: Option<Crl>, now: int)

  predicate Accepts(files: map<nat, Crl>, c: Call) {
    Usable(Cached(files, c.issuer), c.issuer) && Usable(c.supplied, c.issuer)
  }

  /** The list that decides: the supplied one when its number is larger, else the cached one. */
  function Chosen(files: map<nat, Crl>, c: Call): Option<Crl> {
    if Number(c.supplied) > Number(Cached(files, c.issuer)) then c.supplied else Cached(files, c.issuer)
  }

  function After(files: map<nat, Crl>, c: Call): map<nat, Crl> {
    if Accepts(files, c) && Chosen(files, c).Some? then files[c.issuer := Chosen(files, c).value] else files
  }

  /** The options of keys order as the numbers do, an absent key first. */
  predicate KeyLess(a: Option<seq<Byte>>, b: Option<seq<Byte>>) {
    b.Some? && (a.None? || Less(a.value, b.value))
  }

  class CrlCache {
    var files: map<nat, Crl>

    constructor ()
      ensures files == map[]
    {
      files := map[];
    }

    /** Validate both lists, keep the newer one, then enforce it. A refusal by the enforced list comes
        after the newer list was kept. */
    method CheckRevocations(c: Call) returns (r: Option<Refusal>)
      modifies this
      ensures files == After(old(files), c)
      ensures !Accepts(old(files), c) ==> r == Some(Invalid)
      ensures Accepts(old(files), c) ==>
        r == match Chosen(old(files), c) case Some(l) => Verdict(l, c.leaf, c.now) case None => None
    {
      var cached := Cached(files, c.issuer);
      var before: Option<seq<Byte>>, incoming: Option<seq<Byte>> := None, None;
      if cached.Some? {
        var v := ValidateCrl(cached.value, c.issuer, c.leaf, c.now, false);
        if v.Err? { return Some(v.error); }
        before := Some(v.value);
      }
      if c.supplied.Some? {
        var v := ValidateCrl(c.supplied.value, c.issuer, c.leaf, c.now, false);
        if v.Err? { return Some(v.error); }
        incoming := Some(v.value);
      }
      if cached.Some? && c.supplied.Some? {
        KeyOrder(cached.value.number, c.supplied.value.number);
        LessIsTotal(before.value, incoming.value);
      }
      var selected :=
        if before.Some? && incoming.Some? && (incoming == before || KeyLess(incoming, before)) then cached
        else if incoming.Some? then c.supplied
        else cached;
      assert selected == Chosen(files, c);
      if selected.Some? {
        if selected == c.supplied && KeyLess(before, incoming) {
          files := files[c.issuer := selected.value];
        }
        var v := ValidateCrl(selected.value, c.issuer, c.leaf, c.now, true);
        return if v.Err? then Some(v.error) else None;
      }
      r := None;
    }
  }

  // ------------------------------------------------------------ runs

  /** Every file holds an authentic list of its issuer. */
  ghost predicate Sound(files: map<nat, Crl>) {
    forall i :: i in files ==> Authentic(files[i], i)
  }

  ghost function Run(files: map<nat, Crl>, calls: seq<Call>): map<nat, Crl> {
    if calls == [] then files else After(Run(files, calls[..|calls| - 1]), calls[|calls| - 1])
  }

  lemma AfterKeeps(files: map<nat, Crl>, c: Call, issuer: nat)
    requires Sound(files)
    ensures Sound(After(files, c))
    ensures Number(Cached(files, issuer)) <= Number(Cached(After(files, c), issuer))
    ensures Usable(c.supplied, c.issuer) ==> Number(c.supplied) <= Number(Cached(After(files, c), c.issuer))
  {
  }

  /** Over any run the cached number of an issuer never falls. */
  lemma {:induction false} NumbersNeverFall(files: map<nat, Crl>, calls: seq<Call>, k: nat, issuer: nat)
    requires Sound(files) && k <= |calls|
    ensures Sound(Run(files, calls))
    ensures Number(Cached(Run(files, calls[..k]), issuer)) <= Number(Cached(Run(files, calls), issuer))
  {
    if k == |calls| {
      assert calls[..k] == calls;
      if k > 0 {
        NumbersNeverFall(files, calls[..k - 1], 0, issuer);
        AfterKeeps(Run(files, calls[..k - 1]), calls[k - 1], issuer);
      }
    } else {
      var front := calls[..|calls| - 1];
      NumbersNeverFall(files, front, k, issuer);
      assert front[..k] == calls[..k];
      AfterKeeps(Run(files, front), calls[|calls| - 1], issuer);
    }
  }

  /** Whatever was validly supplied earlier for an issuer, the list enforced now is at least as new: a
      replayed older list neither replaces nor outvotes it. */
  lemma OlderListsAreNotEnforced(files: map<nat, Crl>, calls: seq<Call>, j: nat, c: Call)
    requires Sound(files) && j < |calls| && calls[j].issuer == c.issuer && Usable(calls[j].supplied, c.issuer)
    requires Accepts(Run(files, calls), c)
    ensures Number(Chosen(Run(files, calls), c)) >= Number(calls[j].supplied)
    ensures Number(Chosen(Run(files, calls), c)) >= Number(c.supplied)
    ensures Number(Cached(Run(files, calls + [c]), c.issuer)) == Number(Chosen(Run(files, calls), c))
  {
    var upto := calls[..j + 1];
    assert upto[..j] == calls[..j];
    NumbersNeverFall(files, calls[..j], 0, c.issuer);
    AfterKeeps(Run(files, calls[..j]), calls[j], c.issuer);
    NumbersNeverFall(files, calls, j + 1, c.issuer);
    var all := calls + [c];
    assert all[..|all| - 1] == calls;
  }

  /** Starting from an empty cache only the supplied list can be refused as invalid. */
  lemma OnlySuppliedIsInvalid(calls: seq<Call>, c: Call)
    ensures Accepts(Run(map[], calls), c) <==> Usable(c.supplied, c.issuer)
  {
    NumbersNeverFall(map[], calls, |calls|, c.issuer);
  }
}
