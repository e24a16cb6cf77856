/** The delay budget of latency-based forwarding: what each hop computes from the packet's
    contract, and what that adds up to along a path. */
module LbfDelay {
  import opened LbfModel

  const DMAX_BESTEFFORT: nat := 10000
  const LQB_BESTEFFORT: nat := 64000
  /** Nanoseconds in the unit of the budgets, a tenth of a millisecond. */
  const UNIT: nat := 100000

  type u16 = x: nat | x < 0x1_0000

  function U16(x: int): u16 { x % 0x1_0000 }

  function U64(x: int): nat { x % 0x1_0000_0000_0000_0000 }

  /** `ntohs` and `htons` on a little-endian machine. */
  function Swap(x: u16): u16 { x % 256 * 256 + x / 256 }

  lemma Quotient(x: int, d: int, q: int, r: int)
    requires d > 0 && x == q * d + r && 0 <= r < d
    ensures x / d == q && x % d == r
  {
    var q', r' := x / d, x % d;
    assert x == q' * d + r' && (q - q') * d == r' - r && (q' - q) * d == r - r';
    if q > q' {
      Times(1, q - q', d);
    } else if q < q' {
      Times(1, q' - q, d);
    }
  }

  lemma Times(a: int, b: int, d: int)
    requires a <= b && d >= 0
    ensures a * d <= b * d && d * a <= d * b
  {
  }

  lemma SwapBytes(hi: nat, lo: nat)
    requires hi < 256 && lo < 256
    ensures Swap(hi * 256 + lo) == lo * 256 + hi
  {
    Quotient(hi * 256 + lo, 256, hi, lo);
  }

  lemma SwapTwice(x: u16)
    ensures Swap(Swap(x)) == x
  {
    SwapBytes(x / 256, x % 256);
    SwapBytes(x % 256, x / 256);
  }

  /** The contract in the packet, its fields in network byte order as the code reads them. */
  datatype Contract = Contract(minDelay: u16, maxDelay: u16, experienced: u16, todelay: u16, tohops: u16) {
    /** Decoded, in budget units; the product is kept in 16 bits. */
    function Min(): u16 { U16(Swap(minDelay) * 10) }

    function Max(): u16 { U16(Swap(maxDelay) * 10) }

    function Todelay(): u16 { U16(Swap(todelay) * 10) }

    function Experienced(): u16 { Swap(experienced) }

    function Hops(): u16 { Swap(tohops) }

    /** Experienced so far and still to come outside the queues. */
    function Total(): nat { Experienced() + Todelay() }
  }

  /** The hop's share of what is left. */
  function Share(x: nat, hops: nat): (r: nat)
    requires hops > 0
    ensures r <= x
  {
    ShareAtMost(x, hops);
    x / hops
  }

  lemma ShareAtMost(x: nat, d: nat)
    requires d > 0
    ensures 0 <= x / d <= x
  {
    var q := x / d;
    assert x == q * d + x % d;
    Times(1, d, q);
  }

  function MinDelay(e: u16, min: u16, todelay: u16, hops: u16): u16 {
    var qmin: u16 := if min > e + todelay then min - (e + todelay) else 0;
    if hops == 0 then 0 else Share(qmin, hops)
  }

  function MaxDelay(e: u16, max: u16, todelay: u16, hops: u16): u16 {
    var qmax: u16 := if max > 0 then U16(max - (e + todelay)) else 0;
    if hops == 0 then 0 else if max == 0 then DMAX_BESTEFFORT else Share(qmax, hops)
  }

  function LqMin(c: Contract): u16 { MinDelay(c.Experienced(), c.Min(), c.Todelay(), c.Hops()) }

  function LqMax(c: Contract): u16 { MaxDelay(c.Experienced(), c.Max(), c.Todelay(), c.Hops()) }

  /** The hop count, one less in the network-order word. */
  function CountDown(tohops: u16): u16 { U16(tohops - Swap(1)) }

  /** What enqueueing does with a packet: no hops left to go, over its budget, or queued
      with a slack budget and a send window. */
  datatype Verdict = NoHops | TooLate | Queued(budget: u16, tmin: nat, tmax: nat)

  function Judge(c: Contract, now: nat): Verdict {
    if c.tohops == 0 then NoHops
    else if c.Max() > 0 && c.Total() > c.Max() then TooLate
    else
      Queued(if c.Max() > 0 then U16(LqMax(c) - LqMin(c)) else LQB_BESTEFFORT,
             U64(now + LqMin(c) * UNIT), U64(now + LqMax(c) * UNIT))
  }

  /** The contract as enqueueing leaves it. */
  function Counted(c: Contract): Contract {
    if c.tohops == 0 then c else c.(tohops := CountDown(c.tohops))
  }

  /** The contract as dequeueing leaves it after `held` nanoseconds in the queue. */
  function Delayed(c: Contract, held: nat): Contract {
    c.(experienced := Swap(U16(Swap(c.experienced) + held / 1000 / 100)))
  }

  // ---------------------------------------------------------------------------
  // The hop count

  /** Counting down in network byte order is right unless the low byte is zero. */
  lemma CountDownExact(raw: u16)
    ensures Swap(CountDown(raw)) == Swap(raw) - 1 <==> Swap(raw) % 256 != 0
    ensures Swap(raw) % 256 == 0 ==> Swap(CountDown(raw)) == Swap(raw) + 255
  {
    var lo, hi := raw / 256, raw % 256;
    SwapBytes(lo, hi);
    SwapBytes(0, 1);
    Quotient(hi * 256 + lo, 256, hi, lo);
    if lo != 0 {
      Quotient(raw - 256, 0x1_0000, 0, raw - 256);
      SwapBytes(lo - 1, hi);
    } else {
      Quotient(raw - 256, 0x1_0000, -1, 255 * 256 + hi);
      SwapBytes(255, hi);
    }
  }

  /** The hop count word after `k` hops. */
  function AfterHops(raw: u16, k: nat): u16 {
    if k == 0 then raw else CountDown(AfterHops(raw, k - 1))
  }

  lemma SamePage(x: nat, y: nat)
    requires if x % 256 != 0 then y == x - 1 else y == x + 255
    ensures y / 256 == x / 256
  {
    Quotient(y, 256, x / 256, if x % 256 != 0 then x % 256 - 1 else 255);
  }

  lemma {:induction false} AfterHopsSpec(raw: u16, k: nat)
    ensures Swap(AfterHops(raw, k)) / 256 == Swap(raw) / 256
    ensures k <= Swap(raw) < 256 ==> Swap(AfterHops(raw, k)) == Swap(raw) - k
  {
    hide Swap, CountDown;
    if k > 0 {
      AfterHopsSpec(raw, k - 1);
      CountDownExact(AfterHops(raw, k - 1));
      SamePage(Swap(AfterHops(raw, k - 1)), Swap(AfterHops(raw, k)));
    }
  }

  /** The hop count ever reaches zero just when it starts below 256. */
  lemma HopsRunOut(raw: u16)
    ensures (exists k: nat :: AfterHops(raw, k) == 0) <==> Swap(raw) < 256
  {
    if Swap(raw) < 256 {
      AfterHopsSpec(raw, Swap(raw));
      SwapTwice(AfterHops(raw, Swap(raw)));
      assert AfterHops(raw, Swap(raw)) == 0;
    }
    forall k: nat | AfterHops(raw, k) == 0 ensures Swap(raw) < 256 {
      AfterHopsSpec(raw, k);
    }
  }

  // ---------------------------------------------------------------------------
  // One hop

  /** A contract with a maximum that can still be met. */
  predicate Feasible(c: Contract) {
    0 < c.Max() && c.Min() <= c.Max() && c.Total() <= c.Max()
  }

  lemma ShareMonotone(a: nat, b: nat, d: nat)
    requires a <= b && d > 0
    ensures Share(a, d) <= Share(b, d)
  {
    var x, y := a / d, b / d;
    assert a == x * d + a % d && b == y * d + b % d;
    if x > y {
      Times(y + 1, x, d);
    }
  }

  /** What is missing to the minimum. */
  function Missing(c: Contract): nat { if c.Min() > c.Total() then c.Min() - c.Total() else 0 }

  lemma U64Small(x: nat)
    requires x < 0x1_0000_0000_0000_0000
    ensures U64(x) == x
  {
  }

  lemma HopsWord(raw: u16)
    ensures Swap(raw) == 0 <==> raw == 0
  {
  }

  lemma U16Small(x: nat)
    requires x < 0x1_0000
    ensures U16(x) == x
  {
  }

  /** A feasible contract gets a window that is not empty, and is queued. */
  lemma FeasibleWindow(c: Contract, now: nat)
    requires Feasible(c) && 0 < c.Hops()
    ensures LqMin(c) <= LqMax(c) <= c.Max() - c.Total()
    ensures LqMin(c) == Share(Missing(c), c.Hops())
    ensures LqMax(c) == Share(c.Max() - c.Total(), c.Hops())
    ensures Judge(c, now).Queued? && Judge(c, now).budget == LqMax(c) - LqMin(c)
    ensures Judge(c, now).tmin == U64(now + LqMin(c) * UNIT) && Judge(c, now).tmax == U64(now + LqMax(c) * UNIT)
  {
    hide Share, U64, U16, Swap;
    U16Small(c.Max() - c.Total());
    ShareMonotone(Missing(c), c.Max() - c.Total(), c.Hops());
    U16Small(LqMax(c) - LqMin(c));
    HopsWord(c.tohops);
  }

  /** The hold in budget units. */
  function Units(held: nat): nat { held / 1000 / 100 }

  predicate Kept(c: Contract, held: nat) {
    LqMin(c) * UNIT <= held <= LqMax(c) * UNIT
  }

  lemma UnitsOf(x: nat)
    ensures Units(x * UNIT) == x
  {
  }

  lemma UnitsWithin(lo: nat, hi: nat, held: nat)
    requires lo * UNIT <= held <= hi * UNIT
    ensures lo <= Units(held) <= hi
  {
  }

  /** The packet's contract when it leaves a hop. */
  function Leave(c: Contract, held: nat): Contract {
    Delayed(Counted(c), held)
  }

  lemma ShareOne(x: nat)
    ensures Share(x, 1) == x
  {
  }

  lemma CountedOne(c: Contract)
    requires 0 < c.Hops() < 256
    ensures Counted(c).Hops() == c.Hops() - 1
  {
    CountDownExact(c.tohops);
  }

  lemma DelayedBy(c: Contract, held: nat)
    ensures Delayed(c, held).Experienced() == U16(c.Experienced() + Units(held))
  {
    hide Swap, U16;
    SwapTwice(U16(c.Experienced() + Units(held)));
  }

  /** A hop that keeps its window passes a feasible contract on; the last hop meets the
      minimum as well. */
  lemma HopKeeps(c: Contract, held: nat)
    requires Feasible(c) && 0 < c.Hops() < 256 && Kept(c, held)
    ensures var d := Leave(c, held);
            && Feasible(d) && d.Hops() == c.Hops() - 1
            && d.Min() == c.Min() && d.Max() == c.Max() && d.Total() == c.Total() + Units(held)
            && (d.Hops() == 0 ==> c.Min() <= d.Total())
  {
    hide Share, Swap, U16, U64, LqMin, LqMax, Judge;
    FeasibleWindow(c, 0);
    HopsWord(c.tohops);
    CountedOne(c);
    DelayedBy(Counted(c), held);
    ShareOne(Missing(c));
    UnitsWithin(LqMin(c), LqMax(c), held);
    U16Small(c.Experienced() + Units(held));
  }

  // ---------------------------------------------------------------------------
  // A whole path

  function Travel(c: Contract, held: seq<nat>): Contract
    decreases |held|
  {
    if held == [] then c else Travel(Leave(c, held[0]), held[1..])
  }

  /** Every hop keeps the window it computed. */
  predicate AllKept(c: Contract, held: seq<nat>)
    decreases |held|
  {
    held == [] || (Kept(c, held[0]) && AllKept(Leave(c, held[0]), held[1..]))
  }

  /** No hop discards, and every window holds a time to send. */
  ghost predicate AllQueued(c: Contract, held: seq<nat>)
    decreases |held|
  {
    held == [] ||
    ((forall now :: Judge(c, now).Queued?) && LqMin(c) <= LqMax(c) && AllQueued(Leave(c, held[0]), held[1..]))
  }

  /** On a path of any length, hops that keep their windows never discard the packet,
      and it arrives with no hops left and its total delay between minimum and maximum. */
  lemma {:induction false} PathBound(c: Contract, held: seq<nat>)
    requires Feasible(c) && |held| == c.Hops() < 256 && AllKept(c, held)
    ensures AllQueued(c, held)
    ensures var d := Travel(c, held);
            && d.Hops() == 0 && d.Total() <= c.Max() && (held != [] ==> c.Min() <= d.Total())
    decreases |held|
  {
    hide Leave, Judge, LqMin, LqMax, Kept, Missing, Contract.Min, Contract.Max, Contract.Hops, Contract.Total;
    if held != [] {
      HopKeeps(c, held[0]);
      forall now ensures Judge(c, now).Queued? {
        FeasibleWindow(c, now);
      }
      FeasibleWindow(c, 0);
      PathBound(Leave(c, held[0]), held[1..]);
    }
  }

  /** Holds that bring the total to exactly `total`: at each hop the share of what is left. */
  function Steer(c: Contract, total: nat, hops: nat): (held: seq<nat>)
    ensures |held| == hops
    decreases hops
  {
    if hops == 0 then []
    else
      var share := if c.Total() <= total then Share(total - c.Total(), hops) * UNIT else 0;
      [share] + Steer(Leave(c, share), total, hops - 1)
  }

  /** No bound in between is lost to rounding: every total between minimum and maximum
      that is not already exceeded is reached by hops that keep their windows. */
  lemma {:induction false} PathReaches(c: Contract, total: nat)
    requires Feasible(c) && 0 < c.Hops() < 256 && c.Min() <= total <= c.Max() && c.Total() <= total
    ensures AllKept(c, Steer(c, total, c.Hops())) && Travel(c, Steer(c, total, c.Hops())).Total() == total
    decreases c.Hops()
  {
    hide Leave, Judge, LqMin, LqMax, Share, Contract.Min, Contract.Max, Contract.Hops, Contract.Total;
    var left, hops := total - c.Total(), c.Hops();
    var share := Share(left, hops);
    FeasibleWindow(c, 0);
    ShareMonotone(Missing(c), left, hops);
    ShareMonotone(left, c.Max() - c.Total(), hops);
    HopKeeps(c, share * UNIT);
    var d, rest := Leave(c, share * UNIT), Steer(Leave(c, share * UNIT), total, hops - 1);
    assert Steer(c, total, hops) == [share * UNIT] + rest;
    assert ([share * UNIT] + rest)[1..] == rest;
    UnitsOf(share);
    if hops > 1 {
      PathReaches(d, total);
    } else {
      ShareOne(left);
    }
  }
}
