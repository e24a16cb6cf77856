/** The delay contract in the units of the header: minimum, maximum and delay to come in
    milliseconds, delay experienced in tenths of one, times in nanoseconds. */
module LbfUnits {
  import opened LbfDelay

  /** A header with these fields; all are sent in network byte order. */
  function Wire(lo: u16, hi: u16, e: u16, t: u16, n: u16): Contract {
    Contract(Swap(lo), Swap(hi), Swap(e), Swap(t), Swap(n))
  }

  /** What a packet gets that has to be delayed by `lo` to `hi` milliseconds, has been by `e` tenths,
      will be by `t` more on the way, and has `n` queues ahead.  Tenths are kept in 16 bits. */
  function Window(lo: u16, hi: u16, e: u16, t: u16, n: u16, now: nat): Verdict {
    var min, max, gone := lo * 10 % 0x1_0000, hi * 10 % 0x1_0000, e + t * 10 % 0x1_0000;
    if n == 0 then NoHops
    else if max > 0 && gone > max then TooLate
    else
      var first := (if min > gone then min - gone else 0) / n;
      var last := if max > 0 then (max - gone) / n else 10000;
      Queued(if max > 0 then (last - first) % 0x1_0000 else 64000,
             (now + first * 100000) % 0x1_0000_0000_0000_0000, (now + last * 100000) % 0x1_0000_0000_0000_0000)
  }

  lemma SharesAre(c: Contract)
    requires 0 < c.Hops() && (c.Max() > 0 ==> c.Total() <= c.Max())
    ensures LqMin(c) == (if c.Min() > c.Total() then c.Min() - c.Total() else 0) / c.Hops()
    ensures LqMax(c) == if c.Max() > 0 then (c.Max() - c.Total()) / c.Hops() else 10000
  {
    hide Swap, Contract.Max, Contract.Min, Contract.Hops;
    if c.Max() > 0 {
      U16Small(c.Max() - c.Total());
    }
  }

  /** Enqueueing gives every packet its window. */
  lemma JudgeIsWindow(c: Contract, now: nat)
    ensures Judge(c, now)
            == Window(Swap(c.minDelay), Swap(c.maxDelay), Swap(c.experienced), Swap(c.todelay), Swap(c.tohops), now)
  {
    hide Swap, LqMin, LqMax;
    HopsWord(c.tohops);
    if 0 < c.Hops() && (c.Max() > 0 ==> c.Total() <= c.Max()) {
      SharesAre(c);
    }
  }

  lemma SomeFields()
    ensures Swap(0) == 0 && Swap(256) == 1 && Swap(1280) == 5 && Swap(2560) == 10
  {
  }

  /** 5 to 10 milliseconds, nothing experienced, nothing to come, one hop. */
  lemma FiveToTen()
    ensures Judge(Contract(1280, 2560, 0, 0, 256), 0) == Queued(50, 5_000_000, 10_000_000)
  {
    hide Judge, Swap;
    JudgeIsWindow(Contract(1280, 2560, 0, 0, 256), 0);
    SomeFields();
  }

  /** Best effort above a minimum of 5 milliseconds. */
  lemma FiveAtLeast()
    ensures Judge(Contract(1280, 0, 0, 0, 256), 0) == Queued(64000, 5_000_000, 1_000_000_000)
  {
    hide Judge, Swap;
    JudgeIsWindow(Contract(1280, 0, 0, 0, 256), 0);
    SomeFields();
  }

  /** The earliest a hop with `n` queues ahead may send, in tenths: its share of what is missing to
      the minimum. */
  function First(lo: nat, e: nat, t: nat, n: nat): nat
    requires n > 0
  {
    (if lo * 10 > e + t * 10 then lo * 10 - (e + t * 10) else 0) / n
  }

  /** The latest: its share of what is left to the maximum. */
  function Last(hi: nat, e: nat, t: nat, n: nat): int
    requires n > 0
  {
    (hi * 10 - (e + t * 10)) / n
  }

  /** Every hop holds the packet for a time in its window; `e` goes by tenths. */
  predicate InWindows(lo: nat, hi: nat, e: nat, t: nat, held: seq<nat>)
    decreases |held|
  {
    held == [] ||
    (First(lo, e, t, |held|) * 100000 <= held[0] <= Last(hi, e, t, |held|) * 100000
     && InWindows(lo, hi, e + held[0] / 100000, t, held[1..]))
  }

  lemma UnitsAre(held: nat)
    ensures Units(held) == held / 100000
  {
  }

  /** What a header says, once decoded. */
  lemma Decoded(lo: u16, hi: u16, e: u16, t: u16, n: u16)
    requires lo * 10 < 0x1_0000 && hi * 10 < 0x1_0000 && t * 10 < 0x1_0000
    ensures var c := Wire(lo, hi, e, t, n);
            && c.Min() == lo * 10 && c.Max() == hi * 10 && c.Todelay() == t * 10
            && c.Experienced() == e && c.Hops() == n && c.Total() == e + t * 10
  {
    hide Swap;
    SwapTwice(lo);
    SwapTwice(hi);
    SwapTwice(e);
    SwapTwice(t);
    SwapTwice(n);
  }

  /** A hop writes back what it held the packet, and one hop less. */
  lemma LeaveIs(lo: u16, hi: u16, e: u16, t: u16, n: u16, held: nat)
    requires 0 < n < 256 && e + held / 100000 < 0x1_0000
    ensures Leave(Wire(lo, hi, e, t, n), held) == Wire(lo, hi, e + held / 100000, t, n - 1)
  {
    var c := Wire(lo, hi, e, t, n);
    hide Swap, CountDown;
    SwapTwice(e);
    SwapTwice(n);
    HopsWord(c.tohops);
    CountedOne(c);
    SwapTwice(CountDown(c.tohops));
    UnitsAre(held);
    U16Small(e + held / 100000);
  }

  lemma WindowIs(lo: u16, hi: u16, e: u16, t: u16, n: u16)
    requires 0 < hi && lo <= hi && hi * 10 < 0x1_0000 && t * 10 < 0x1_0000 && e + t * 10 <= hi * 10 && 0 < n
    ensures var c := Wire(lo, hi, e, t, n);
            && Feasible(c) && LqMin(c) == First(lo, e, t, n) && LqMax(c) == Last(hi, e, t, n) <= hi * 10 - (e + t * 10)
  {
    hide Judge, LqMin, LqMax;
    Decoded(lo, hi, e, t, n);
    FeasibleWindow(Wire(lo, hi, e, t, n), 0);
  }

  /** A window kept in these units is one kept. */
  lemma HopInWindow(lo: u16, hi: u16, e: u16, t: u16, n: u16, held: nat)
    requires 0 < hi && lo <= hi && hi * 10 < 0x1_0000 && t * 10 < 0x1_0000 && e + t * 10 <= hi * 10 && 0 < n < 256
    requires First(lo, e, t, n) * 100000 <= held <= Last(hi, e, t, n) * 100000
    ensures Kept(Wire(lo, hi, e, t, n), held) && e + held / 100000 + t * 10 <= hi * 10
    ensures Leave(Wire(lo, hi, e, t, n), held) == Wire(lo, hi, e + held / 100000, t, n - 1)
  {
    hide First, Last, Leave, LqMin, LqMax, Judge, Wire;
    WindowIs(lo, hi, e, t, n);
    UnitsWithin(First(lo, e, t, n), Last(hi, e, t, n), held);
    UnitsAre(held);
    LeaveIs(lo, hi, e, t, n, held);
  }

  lemma {:induction false} WindowsKept(lo: u16, hi: u16, e: u16, t: u16, held: seq<nat>)
    requires 0 < hi && lo <= hi && hi * 10 < 0x1_0000 && t * 10 < 0x1_0000 && e + t * 10 <= hi * 10
    requires |held| < 256 && InWindows(lo, hi, e, t, held)
    ensures AllKept(Wire(lo, hi, e, t, |held|), held)
    ensures exists e': u16 :: Travel(Wire(lo, hi, e, t, |held|), held) == Wire(lo, hi, e', t, 0)
    decreases |held|
  {
    hide First, Last, Leave, Kept, Wire;
    if held != [] {
      HopInWindow(lo, hi, e, t, |held|, held[0]);
      WindowsKept(lo, hi, e + held[0] / 100000, t, held[1..]);
    }
  }

  /** A packet that has to be delayed by `lo` to `hi` milliseconds, and is held at each of 1 to 255
      hops for a time in its window, arrives with a header that says so: the tenths experienced
      and the milliseconds to come lie between the two, and no queue is left. */
  lemma PathInMilliseconds(lo: u16, hi: u16, e: u16, t: u16, held: seq<nat>)
    requires 0 < hi && lo <= hi && hi * 10 < 0x1_0000 && t * 10 < 0x1_0000 && e + t * 10 <= hi * 10
    requires 0 < |held| < 256 && InWindows(lo, hi, e, t, held)
    ensures AllQueued(Wire(lo, hi, e, t, |held|), held)
    ensures var d := Travel(Wire(lo, hi, e, t, |held|), held);
            && lo * 10 <= Swap(d.experienced) + t * 10 <= hi * 10
            && Swap(d.minDelay) == lo && Swap(d.maxDelay) == hi && Swap(d.todelay) == t && d.tohops == 0
  {
    hide Swap, AllKept, AllQueued, Travel, InWindows;
    var c := Wire(lo, hi, e, t, |held|);
    WindowsKept(lo, hi, e, t, held);
    Decoded(lo, hi, e, t, |held|);
    PathBound(c, held);
    var e': u16 :| Travel(c, held) == Wire(lo, hi, e', t, 0);
    Decoded(lo, hi, e', t, 0);
    SwapTwice(lo);
    SwapTwice(hi);
    SwapTwice(t);
    SwapTwice(e');
    HopsWord(Swap(0));
    SwapTwice(0);
  }
}
