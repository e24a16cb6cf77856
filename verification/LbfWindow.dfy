/** What the hop count of a queue means for the send windows of its packets.  The scheduler
    keeps one count, that of the last packet to arrive, and lets it decide whether a late
    packet is still sent. */
module LbfWindow {
  import opened LbfModel
  import opened LbfDelay
  import opened LbfRuns

  /** What the arrival of a packet with contract `c` does to its queue. */
  function Arrival(c: Contract, now: nat, trcv: nat, skb: nat): seq<Op> {
    match Judge(c, now)
    case NoHops => []
    case TooLate => [Refuse(Counted(c).tohops)]
    case Queued(budget, tmin, tmax) => [Arrive(budget, Packet(tmin, tmax, trcv, skb), Counted(c).tohops)]
  }

  /** `p` has the window that contract `c` got when it arrived. */
  predicate HasWindow(p: Packet, c: Contract, arrived: nat) {
    Judge(c, arrived).Queued? && p.tmin == Judge(c, arrived).tmin && p.tmax == Judge(c, arrived).tmax
  }

  /** A packet sent has kept the window its contract gave it exactly if it is not late, and
      that is certain only while the last packet to arrive was on its last hop; clocks are
      taken not to wrap. */
  lemma SentInWindow(ops: seq<Op>, op: Op, p: Packet, c: Contract, arrived: nat)
    requires p in SentBy(Run(ops), HopsLeft(ops), op) && (op.SendNow? || op.TakeNext?)
    requires Feasible(c) && 0 < c.Hops() < 256 && HasWindow(p, c, arrived)
    requires arrived <= op.now && arrived + LqMax(c) * UNIT < 0x1_0000_0000_0000_0000
    ensures Kept(c, op.now - arrived) <==> op.now <= p.tmax
    ensures Kept(c, op.now - arrived) || HopsLeft(ops) != 0
  {
    hide LqMin, LqMax, Judge, U64, SentBy, Feasible;
    hide Run, HopsLeft, Share, Contract.Max, Contract.Min, Contract.Total, Contract.Hops;
    FeasibleWindow(c, arrived);
    U64Small(arrived + LqMin(c) * UNIT);
    U64Small(arrived + LqMax(c) * UNIT);
    SentDue(Run(ops), HopsLeft(ops), op, p);
  }

  // ---------------------------------------------------------------------------
  // One count for all packets

  /** At most `ms` milliseconds over `hops` hops. */
  function Within(ms: u16, hops: u16): Contract {
    Contract(0, Swap(ms), 0, 0, Swap(hops))
  }

  lemma WithinJudged(ms: u16, hops: u16, skb: nat)
    requires 0 < ms < 256 && 0 < hops < 256
    ensures var c, w := Within(ms, hops), Share(ms * 10, hops);
            && Feasible(c) && c.Hops() == hops && LqMax(c) == w
            && Arrival(c, 0, 0, skb) == [Arrive(w, Packet(0, w * UNIT, 0, skb), Counted(c).tohops)]
    ensures Counted(Within(ms, hops)).tohops == 0 <==> hops == 1
  {
    hide Share, Swap, U64, Judge, LqMin, LqMax, Within, Counted, Contract.Hops, Feasible;
    var c := Within(ms, hops);
    WithinReads(ms, hops);
    FeasibleWindow(c, 0);
    CountedOne(c);
    CountedHops(c);
    ShareAtMost(0, hops);
    NoShare(hops);
    U64Small(0);
    U64Small(LqMax(c) * UNIT);
  }

  lemma WithinReads(ms: u16, hops: u16)
    requires 0 < ms < 256 && 0 < hops < 256
    ensures var c := Within(ms, hops);
            Feasible(c) && c.Hops() == hops && c.Max() == ms * 10 && c.Total() == 0 && Missing(c) == 0
  {
    SwapTwice(ms);
    SwapTwice(hops);
    hide Swap;
    SwapZero();
  }

  lemma SwapZero()
    ensures Swap(0) == 0
  {
  }

  lemma NoShare(hops: nat)
    requires hops > 0
    ensures Share(0, hops) == 0
  {
  }

  lemma CountedHops(c: Contract)
    ensures Counted(c).tohops == 0 <==> Counted(c).Hops() == 0
  {
    HopsWord(Counted(c).tohops);
  }

  /** Two packets that arrived at the start, in order, and went into different buckets. */
  lemma TwoArrivals(b: nat, p: Packet, g: nat, b': nat, p': Packet, g': nat)
    requires b + LQB_RANGE <= b' && b % LQB_RANGE == 0 && b' % LQB_RANGE == 0
    ensures Run([Arrive(b, p, g), Arrive(b', p', g')]) == [Bucket(b, [p]), Bucket(b', [p'])]
    ensures HopsLeft([Arrive(b, p, g), Arrive(b', p', g')]) == g'
  {
    var ops := [Arrive(b, p, g), Arrive(b', p', g')];
    assert ops[..1] == [Arrive(b, p, g)] && ops[..1][..0] == [];
    assert Run(ops[..1]) == [Bucket(b, [p])];
    var bs := [Bucket(b, [p])];
    assert Place(bs, b', 0) == 1;
    assert WithBucket(bs, b') == [Bucket(b, [p]), Bucket(b', [])];
  }

  /** Two packets that arrive together, of the given milliseconds and hops. */
  function Two(ms: u16, hops: u16, ms': u16, hops': u16): seq<Op> {
    Arrival(Within(ms, hops), 0, 0, 1) + Arrival(Within(ms', hops'), 0, 0, 2)
  }

  lemma TwoRun(ms: u16, hops: u16, w: nat, ms': u16, hops': u16, w': nat)
    requires 0 < ms < 256 && 0 < hops < 256 && 0 < ms' < 256 && 0 < hops' < 256
    requires w == Share(ms * 10, hops) && w' == Share(ms' * 10, hops')
    requires w % LQB_RANGE == 0 && w' % LQB_RANGE == 0 && w + LQB_RANGE <= w'
    ensures Run(Two(ms, hops, ms', hops'))
            == [Bucket(w, [Packet(0, w * UNIT, 0, 1)]), Bucket(w', [Packet(0, w' * UNIT, 0, 2)])]
    ensures HopsLeft(Two(ms, hops, ms', hops')) == 0 <==> hops' == 1
    ensures HasWindow(Packet(0, w * UNIT, 0, 1), Within(ms, hops), 0)
  {
    hide Run, HopsLeft, Within, Share, Judge, Counted;
    WithinJudged(ms, hops, 1);
    WithinJudged(ms', hops', 2);
    var c, c' := Within(ms, hops), Within(ms', hops');
    var p, p' := Packet(0, w * UNIT, 0, 1), Packet(0, w' * UNIT, 0, 2);
    assert Two(ms, hops, ms', hops') == [Arrive(w, p, Counted(c).tohops), Arrive(w', p', Counted(c').tohops)];
    TwoArrivals(w, p, Counted(c).tohops, w', p', Counted(c').tohops);
  }

  /** A packet on its last hop is sent after its window, because a packet with hops left
      arrived behind it. */
  lemma LastHopSentLate()
    ensures var c, ops, p := Within(1, 1), Two(1, 1, 4, 2), Packet(0, 10 * UNIT, 0, 1);
            && Feasible(c) && c.Hops() == 1 && HasWindow(p, c, 0)
            && p in SentBy(Run(ops), HopsLeft(ops), SendNow(20 * UNIT)) && !Kept(c, 20 * UNIT)
  {
    hide Within, Run, HopsLeft, SentBy, DroppedBy, Feasible, Contract.Hops, Judge, LqMin, LqMax, Two;
    var ops := Two(1, 1, 4, 2);
    WithinJudged(1, 1, 1);
    TwoRun(1, 1, 10, 4, 2, 20);
    FirstDueLeaves(Run(ops), HopsLeft(ops), 0, 20 * UNIT);
    LateFate(ops, SendNow(20 * UNIT), Packet(0, 10 * UNIT, 0, 1));
  }

  /** A packet with a hop still to go is dropped for being late, because a packet on its
      last hop arrived behind it. */
  lemma MidPathDropped()
    ensures var c, ops, p := Within(4, 2), Two(4, 2, 4, 1), Packet(0, 20 * UNIT, 0, 1);
            && Feasible(c) && c.Hops() == 2 && HasWindow(p, c, 0)
            && p in DroppedBy(Run(ops), HopsLeft(ops), SendNow(30 * UNIT))
  {
    hide Within, Run, HopsLeft, SentBy, DroppedBy, Feasible, Contract.Hops, Judge, LqMin, LqMax, Two;
    var ops := Two(4, 2, 4, 1);
    WithinJudged(4, 2, 1);
    TwoRun(4, 2, 20, 4, 1, 40);
    FirstDueLeaves(Run(ops), HopsLeft(ops), 0, 30 * UNIT);
    LateFate(ops, SendNow(30 * UNIT), Packet(0, 20 * UNIT, 0, 1));
  }
}
