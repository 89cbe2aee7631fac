/** The pool walk that hands out loopback addresses, over addresses as integers. */
module AddressPools {
  import opened Wrappers

  datatype Family = V4 | V6

  datatype PoolError = NoPrefixLength | BadPrefixLength | OutsidePool | Exhausted

  /** A network: its first address and its prefix length. */
  datatype Pool = Pool(family: Family, base: nat, prefix: nat)

  function Bits(f: Family): nat {
    match f
    case V4 => 32
    case V6 => 128
  }

  function Pow2(k: nat): (r: nat)
    ensures r >= 1
  {
    if k == 0 then 1 else 2 * Pow2(k - 1)
  }

  const IPV4_SPACE: nat := 0x1_0000_0000

  ghost predicate ValidPool(p: Pool) {
    p.prefix <= Bits(p.family) && p.base % Size(p) == 0 && p.base + Size(p) <= Pow2(Bits(p.family))
  }

  /** Number of addresses of a pool. */
  function Size(p: Pool): (r: nat)
    requires p.prefix <= Bits(p.family)
    ensures r >= 1
  {
    Pow2(Bits(p.family) - p.prefix)
  }

  function Stride(p: Pool, length: nat): (r: nat)
    requires length <= Bits(p.family)
    ensures r >= 1
  {
    Pow2(Bits(p.family) - length)
  }

  /** Host-length allocation from a pool larger than two leaves out its first and last address. */
  predicate SkipsEnds(p: Pool, length: nat)
    requires p.prefix <= Bits(p.family)
  {
    length == Bits(p.family) && Size(p) > 2
  }

  function Start(p: Pool, length: nat): nat
    requires p.prefix <= Bits(p.family)
  {
    p.base + if SkipsEnds(p, length) then 1 else 0
  }

  function Available(p: Pool, length: nat): (r: nat)
    requires p.prefix <= length <= Bits(p.family)
    ensures r >= 1
  {
    PowersDivide(Bits(p.family) - p.prefix, Bits(p.family) - length);
    var n := Size(p) / Stride(p, length);
    if SkipsEnds(p, length) then n - 2 else n
  }

  lemma {:induction false} PowersDivide(j: nat, k: nat)
    requires k <= j
    ensures Pow2(j) == Pow2(j - k) * Pow2(k)
    ensures Pow2(j) / Pow2(k) == Pow2(j - k) >= 1
  {
    if k > 0 {
      PowersDivide(j - 1, k - 1);
      assert Pow2(j) == 2 * (Pow2(j - k) * Pow2(k - 1)) == Pow2(j - k) * Pow2(k);
    }
    Quotient(Pow2(j - k), Pow2(k));
  }

  lemma {:induction false} Quotient(a: nat, b: nat)
    requires b >= 1
    ensures (a * b) / b == a
  {
    var q := (a * b) / b;
    assert a * b == q * b + (a * b) % b;
    assert (a - q) * b == (a * b) % b < b;
    assert a - q <= 0 by { if q < a { MulMonotone(1, a - q, b); } }
    assert a - q >= 0;
  }

  function Slot(p: Pool, length: nat, k: nat): nat
    requires p.prefix <= length <= Bits(p.family)
  {
    Start(p, length) + k * Stride(p, length)
  }

  lemma {:induction false} MulMonotone(a: nat, b: nat, m: nat)
    requires a <= b
    ensures a * m <= b * m
  {
    assert b * m == a * m + (b - a) * m;
  }

  /** Every slot lies in the pool, and never on an end that is skipped. */
  lemma {:induction false} SlotInside(p: Pool, length: nat, k: nat)
    requires ValidPool(p) && p.prefix <= length <= Bits(p.family) && k < Available(p, length)
    ensures p.base <= Slot(p, length, k) < p.base + Size(p)
    ensures SkipsEnds(p, length) ==> p.base < Slot(p, length, k) < p.base + Size(p) - 1
  {
    PowersDivide(Bits(p.family) - p.prefix, Bits(p.family) - length);
    var n, m := Size(p) / Stride(p, length), Stride(p, length);
    assert Size(p) == n * m;
    MulMonotone(k + 1, n, m);
    assert (k + 1) * m == k * m + m;
  }

  lemma {:induction false} SlotsIncrease(p: Pool, length: nat, j: nat, k: nat)
    requires p.prefix <= length <= Bits(p.family) && j < k
    ensures Slot(p, length, j) + Stride(p, length) <= Slot(p, length, k)
  {
    MulMonotone(j + 1, k, Stride(p, length));
    assert (j + 1) * Stride(p, length) == j * Stride(p, length) + Stride(p, length);
  }

  /** The unreserved slots among the first k, in order. */
  function FreeUpTo(p: Pool, length: nat, reserved: set<nat>, k: nat): seq<nat>
    requires p.prefix <= length <= Bits(p.family)
  {
    if k == 0 then []
    else FreeUpTo(p, length, reserved, k - 1)
         + if Slot(p, length, k - 1) in reserved then [] else [Slot(p, length, k - 1)]
  }

  /** Everything the pool could still give. */
  function FreeSlots(p: Pool, length: nat, reserved: set<nat>): seq<nat>
    requires p.prefix <= length <= Bits(p.family)
  {
    FreeUpTo(p, length, reserved, Available(p, length))
  }

  /** The free slots are exactly the unreserved ones, each once, in ascending order. */
  lemma {:induction false} FreeAre(p: Pool, length: nat, reserved: set<nat>, k: nat)
    requires p.prefix <= length <= Bits(p.family)
    ensures var free := FreeUpTo(p, length, reserved, k);
            && (forall a :: a in free <==> a !in reserved && exists j :: 0 <= j < k && a == Slot(p, length, j))
            && (forall i, j :: 0 <= i < j < |free| ==> free[i] < free[j])
            && (forall i :: 0 <= i < |free| ==> free[i] < Slot(p, length, k))
  {
    FreeAscending(p, length, reserved, k);
    forall a ensures a in FreeUpTo(p, length, reserved, k) <==> a !in reserved && exists j :: 0 <= j < k && a == Slot(p, length, j) {
      FreeMember(p, length, reserved, k, a);
    }
  }

  lemma {:induction false} FreeMember(p: Pool, length: nat, reserved: set<nat>, k: nat, a: nat)
    requires p.prefix <= length <= Bits(p.family)
    ensures a in FreeUpTo(p, length, reserved, k) <==> a !in reserved && exists j :: 0 <= j < k && a == Slot(p, length, j)
  {
    if k > 0 {
      FreeMember(p, length, reserved, k - 1, a);
      if j :| 0 <= j < k && a == Slot(p, length, j) {
        assert j == k - 1 || 0 <= j < k - 1;
      }
    }
  }

  ghost predicate ClimbsTo(s: seq<nat>, bound: nat) {
    (forall i, j :: 0 <= i < j < |s| ==> s[i] < s[j]) && forall i :: 0 <= i < |s| ==> s[i] < bound
  }

  lemma {:induction false} FreeAscending(p: Pool, length: nat, reserved: set<nat>, k: nat)
    requires p.prefix <= length <= Bits(p.family)
    ensures ClimbsTo(FreeUpTo(p, length, reserved, k), Slot(p, length, k))
  {
    if k > 0 {
      FreeAscending(p, length, reserved, k - 1);
      SlotsIncrease(p, length, k - 1, k);
      AscendsOn(FreeUpTo(p, length, reserved, k - 1), Slot(p, length, k - 1), Slot(p, length, k));
    }
  }

  lemma {:induction false} AscendsOn(s: seq<nat>, last: nat, bound: nat)
    requires ClimbsTo(s, last) && last < bound
    ensures ClimbsTo(s, bound) && ClimbsTo(s + [last], bound) && s + [] == s
  {
    assert forall i :: 0 <= i < |s| ==> (s + [last])[i] == s[i];
  }

  ghost predicate IsSlot(p: Pool, length: nat, a: nat)
    requires p.prefix <= length <= Bits(p.family)
  {
    exists k :: 0 <= k < Available(p, length) && a == Slot(p, length, k)
  }

  /** What every successful walk guarantees, said without the walk. */
  lemma {:induction false} AllocationIsGood(p: Pool, length: nat, reserved: set<nat>, count: nat)
    requires ValidPool(p) && p.prefix <= length <= Bits(p.family) && count <= |FreeSlots(p, length, reserved)|
    ensures var got := FreeSlots(p, length, reserved)[..count];
            && (forall i, j :: 0 <= i < j < |got| ==> got[i] < got[j])
            && (forall a :: a in got ==> a !in reserved && p.base <= a < p.base + Size(p))
            && (SkipsEnds(p, length) ==> forall a :: a in got ==> a != p.base && a != p.base + Size(p) - 1)
            && (forall a: nat, b: nat :: b in got && a < b && a !in reserved && IsSlot(p, length, a) ==> a in got)
  {
    var free := FreeSlots(p, length, reserved);
    FreeAscending(p, length, reserved, Available(p, length));
    var got := free[..count];
    forall a | a in got
      ensures a !in reserved && p.base <= a < p.base + Size(p)
      ensures SkipsEnds(p, length) ==> a != p.base && a != p.base + Size(p) - 1
    {
      assert a in free;
      FreeInside(p, length, reserved, a);
    }
    forall a: nat, b: nat | b in got && a < b && a !in reserved && IsSlot(p, length, a) ensures a in got {
      FreeMember(p, length, reserved, Available(p, length), a);
      EarlierTaken(free, count, a, b);
    }
  }

  lemma {:induction false} FreeInside(p: Pool, length: nat, reserved: set<nat>, a: nat)
    requires ValidPool(p) && p.prefix <= length <= Bits(p.family) && a in FreeSlots(p, length, reserved)
    ensures a !in reserved && p.base <= a < p.base + Size(p)
    ensures SkipsEnds(p, length) ==> a != p.base && a != p.base + Size(p) - 1
  {
    FreeMember(p, length, reserved, Available(p, length), a);
    var k :| 0 <= k < Available(p, length) && a == Slot(p, length, k);
    SlotInside(p, length, k);
  }

  lemma {:induction false} EarlierTaken(free: seq<nat>, count: nat, a: nat, b: nat)
    requires (forall i, j :: 0 <= i < j < |free| ==> free[i] < free[j]) && count <= |free|
    requires a in free && b in free[..count] && a < b
    ensures a in free[..count]
  {
    var i :| 0 <= i < |free| && free[i] == a;
    var j :| 0 <= j < count && free[j] == b;
    assert i < j;
    assert free[..count][i] == a;
  }

  lemma {:induction false} FreePrefix(p: Pool, length: nat, reserved: set<nat>, j: nat, k: nat)
    requires p.prefix <= length <= Bits(p.family) && j <= k
    ensures FreeUpTo(p, length, reserved, j) <= FreeUpTo(p, length, reserved, k)
    decreases k - j
  {
    if j < k { FreePrefix(p, length, reserved, j, k - 1); }
  }

  /** Python reads a bare integer below 2**32 as an IPv4 address, which no IPv6 network contains. */
  predicate ReadAsIpv4(a: nat) {
    a < IPV4_SPACE
  }

  /** The "allocated outside pool" refusal: reachable, for an IPv6 pool that starts in the first 2**32 addresses. */
  predicate StartsInIpv4Space(p: Pool, length: nat)
    requires p.prefix <= Bits(p.family)
  {
    p.family.V6? && ReadAsIpv4(Start(p, length))
  }

  lemma {:induction false} Ipv4Space()
    ensures Pow2(32) == IPV4_SPACE
  {
    assert Pow2(8) == 256;
    PowersDivide(16, 8);
    PowersDivide(32, 16);
  }

  /** `ip_address(value) in network`. */
  predicate Contains(p: Pool, value: nat)
    requires p.prefix <= Bits(p.family)
  {
    p.family == (if ReadAsIpv4(value) then V4 else V6) && p.base <= value < p.base + Size(p)
  }

  /** Membership of the walked addresses: all of them, unless the very first one is already read as IPv4. */
  lemma {:induction false} SlotContained(p: Pool, length: nat, k: nat)
    requires ValidPool(p) && p.prefix <= length <= Bits(p.family) && k < Available(p, length)
    ensures !StartsInIpv4Space(p, length) ==> Contains(p, Slot(p, length, k))
    ensures StartsInIpv4Space(p, length) && k == 0 ==> !Contains(p, Slot(p, length, k))
  {
    Ipv4Space();
    SlotInside(p, length, k);
    assert Slot(p, length, 0) == Start(p, length);
    if k > 0 { SlotsIncrease(p, length, 0, k); }
  }

  /** The outcome of a request for `count` addresses. */
  function Allocation(p: Pool, length: Option<nat>, count: nat, reserved: set<nat>): Result<seq<nat>, PoolError>
    requires p.prefix <= Bits(p.family)
  {
    if length.None? then Err(NoPrefixLength)
    else if length.value < p.prefix || length.value > Bits(p.family) then Err(BadPrefixLength)
    else if count > 0 && StartsInIpv4Space(p, length.value) then Err(OutsidePool)
    else if |FreeSlots(p, length.value, reserved)| < count then Err(Exhausted)
    else Ok(FreeSlots(p, length.value, reserved)[..count])
  }

  /** The walk of `_allocate_pool_addresses` gives the first `count` free slots, or refuses, and exactly when. */
  method AllocatePool(p: Pool, length: Option<nat>, count: nat, reserved: set<nat>) returns (r: Result<seq<nat>, PoolError>)
    requires ValidPool(p)
    ensures r == Allocation(p, length, count, reserved)
  {
    if length.None? { return Err(NoPrefixLength); }
    var n := length.value;
    if n < p.prefix || n > Bits(p.family) { return Err(BadPrefixLength); }
    var available := Available(p, n);
    var addresses: seq<nat> := [];
    var offset := 0;
    while |addresses| < count
      invariant 0 <= offset <= available && |addresses| <= count && addresses == FreeUpTo(p, n, reserved, offset)
      invariant offset > 0 ==> !StartsInIpv4Space(p, n)
      decreases available - offset
    {
      FreePrefix(p, n, reserved, offset, available);
      if offset >= available { return Err(Exhausted); }
      var address := Slot(p, n, offset);
      SlotContained(p, n, offset);
      offset := offset + 1;
      if !Contains(p, address) { return Err(OutsidePool); }
      if address !in reserved { addresses := addresses + [address]; }
    }
    FreePrefix(p, n, reserved, offset, available);
    assert addresses == FreeSlots(p, n, reserved)[..count];
    r := Ok(addresses);
  }

  /** The refusal can be met although the pool has room: `::/120` with 128-bit addresses. */
  lemma {:induction false} OutsidePoolIsReachable()
    ensures var p := Pool(V6, 0, 120);
            && ValidPool(p)
            && Allocation(p, Some(128), 1, {}) == Err(OutsidePool)
            && |FreeSlots(p, 128, {})| > 0
  {
    var p := Pool(V6, 0, 120);
    assert Size(p) == 256 by { assert Pow2(8) == 256; }
    PowersDivide(128, 8);
    FreeAre(p, 128, {}, Available(p, 128));
    assert IsSlot(p, 128, Slot(p, 128, 0));
  }
}
