/** The LBF packet scheduler as a simple model: slack buckets in order, each holding
    packets by earliest send time.  The linked lists of `LbfQueue` are proved to
    behave like this. */
module LbfModel {
  import opened Options

  const LQB_RANGE: nat := 10
  const ULLONG_MAX: nat := 0xffff_ffff_ffff_ffff

  /** Send window, receive time and the packet itself. */
  datatype Packet = Packet(tmin: nat, tmax: nat, trcv: nat, skb: nat)

  /** A bucket for budgets from `start` on, and its packets. */
  datatype Bucket = Bucket(start: nat, queue: seq<Packet>)

  // ---------------------------------------------------------------------------
  // Insertion

  /** Behind everything that may be sent no later. */
  function QueueInsert(q: seq<Packet>, p: Packet): seq<Packet> {
    if q == [] then [p]
    else if p.tmin < q[0].tmin then [p] + q
    else [q[0]] + QueueInsert(q[1..], p)
  }

  /** The bucket's range as the lookup compares it: the last budget is left out. */
  predicate Covers(b: Bucket, budget: nat) {
    b.start <= budget < b.start + LQB_RANGE - 1
  }

  /** Where the lookup for `budget` stops, from position `i` on. */
  function Place(bs: seq<Bucket>, budget: nat, i: nat): (k: nat)
    requires i <= |bs|
    ensures i <= k <= |bs|
    decreases |bs| - i
  {
    if i == |bs| || Covers(bs[i], budget) || budget < bs[i].start then i
    else Place(bs, budget, i + 1)
  }

  function NewBucket(budget: nat, q: seq<Packet>): Bucket {
    Bucket(budget - budget % LQB_RANGE, q)
  }

  /** The buckets after the lookup for `budget`, a bucket created if none covers it. */
  function WithBucket(bs: seq<Bucket>, budget: nat): (r: seq<Bucket>)
    ensures Place(bs, budget, 0) < |r|
  {
    var k := Place(bs, budget, 0);
    if k < |bs| && Covers(bs[k], budget) then bs else bs[..k] + [NewBucket(budget, [])] + bs[k..]
  }

  function Enqueue(bs: seq<Bucket>, budget: nat, p: Packet): seq<Bucket> {
    var r := WithBucket(bs, budget);
    var k := Place(bs, budget, 0);
    r[k := r[k].(queue := QueueInsert(r[k].queue, p))]
  }

  /** Takes the head of bucket `i` off; the bucket stays, even when empty. */
  function RemoveHead(bs: seq<Bucket>, i: nat): seq<Bucket>
    requires i < |bs| && bs[i].queue != []
  {
    bs[i := bs[i].(queue := bs[i].queue[1..])]
  }

  // ---------------------------------------------------------------------------
  // Searches

  /** Past its window on the last hop. */
  predicate Expired(p: Packet, now: nat, hopsLeft: nat) {
    p.tmax < now && hopsLeft == 0
  }

  /** A queue without the expired packets at its head. */
  function Prune(q: seq<Packet>, now: nat, hopsLeft: nat): seq<Packet> {
    if q != [] && Expired(q[0], now, hopsLeft) then Prune(q[1..], now, hopsLeft) else q
  }

  function PruneFirst(bs: seq<Bucket>, n: nat, now: nat, hopsLeft: nat): (r: seq<Bucket>)
    requires n <= |bs|
    ensures |r| == |bs|
    ensures forall i :: 0 <= i < n ==> r[i] == bs[i].(queue := Prune(bs[i].queue, now, hopsLeft))
    ensures forall i :: n <= i < |bs| ==> r[i] == bs[i]
  {
    seq(|bs|, i requires 0 <= i < |bs| =>
      if i < n then bs[i].(queue := Prune(bs[i].queue, now, hopsLeft)) else bs[i])
  }

  /** The bucket whose head is sent earliest among the first `n`, the first such. */
  function Earliest(bs: seq<Bucket>, n: nat): (r: Option<nat>)
    requires n <= |bs|
    ensures r.Some? ==> r.value < n && bs[r.value].queue != [] && bs[r.value].queue[0].tmin < ULLONG_MAX
  {
    if n == 0 then None
    else
      var r := Earliest(bs, n - 1);
      if bs[n - 1].queue != [] && bs[n - 1].queue[0].tmin < BestTmin(bs, r) then Some(n - 1) else r
  }

  function BestTmin(bs: seq<Bucket>, r: Option<nat>): nat {
    if r.Some? && r.value < |bs| && bs[r.value].queue != [] then bs[r.value].queue[0].tmin else ULLONG_MAX
  }

  /** A queue as the immediate search leaves it: expired packets whose time to be sent
      has come are dropped from the head. */
  function PruneDue(q: seq<Packet>, now: nat, hopsLeft: nat): seq<Packet> {
    if q != [] && q[0].tmin <= now && Expired(q[0], now, hopsLeft) then PruneDue(q[1..], now, hopsLeft) else q
  }

  predicate Ready(q: seq<Packet>, now: nat) {
    q != [] && q[0].tmin <= now
  }

  /** The first bucket, from `i` on, that has something to send once pruned. */
  function FirstReady(bs: seq<Bucket>, i: nat, now: nat, hopsLeft: nat): (k: nat)
    requires i <= |bs|
    ensures i <= k <= |bs|
    decreases |bs| - i
  {
    if i == |bs| || Ready(PruneDue(bs[i].queue, now, hopsLeft), now) then i
    else FirstReady(bs, i + 1, now, hopsLeft)
  }

  function PruneDueFirst(bs: seq<Bucket>, n: nat, now: nat, hopsLeft: nat): (r: seq<Bucket>)
    requires n <= |bs|
    ensures |r| == |bs|
    ensures forall i :: 0 <= i < n ==> r[i] == bs[i].(queue := PruneDue(bs[i].queue, now, hopsLeft))
    ensures forall i :: n <= i < |bs| ==> r[i] == bs[i]
  {
    seq(|bs|, i requires 0 <= i < |bs| =>
      if i < n then bs[i].(queue := PruneDue(bs[i].queue, now, hopsLeft)) else bs[i])
  }

  /** The buckets after an immediate search that stopped at `k`. */
  function PruneDueUpTo(bs: seq<Bucket>, k: nat, now: nat, hopsLeft: nat): (r: seq<Bucket>)
    requires k <= |bs|
    ensures |r| == |bs|
    ensures forall i :: 0 <= i < |bs| && i <= k ==> r[i] == bs[i].(queue := PruneDue(bs[i].queue, now, hopsLeft))
    ensures forall i :: k < i < |bs| ==> r[i] == bs[i]
  {
    PruneDueFirst(bs, if k < |bs| then k + 1 else k, now, hopsLeft)
  }

  lemma DueNone(bs: seq<Bucket>, now: nat, hopsLeft: nat)
    ensures PruneDueFirst(bs, 0, now, hopsLeft) == bs
  {
  }

  lemma DueNext(bs: seq<Bucket>, now: nat, hopsLeft: nat, i: nat, r: seq<Bucket>)
    requires i < |bs|
    requires var was := PruneDueFirst(bs, i, now, hopsLeft);
             r == was[i := was[i].(queue := PruneDue(was[i].queue, now, hopsLeft))]
    ensures r == PruneDueFirst(bs, i + 1, now, hopsLeft)
    ensures Ready(r[i].queue, now) ==>
              FirstReady(bs, i, now, hopsLeft) == i && r == PruneDueUpTo(bs, i, now, hopsLeft)
    ensures !Ready(r[i].queue, now) ==> FirstReady(bs, i, now, hopsLeft) == FirstReady(bs, i + 1, now, hopsLeft)
  {
  }

  lemma DueEnd(bs: seq<Bucket>, now: nat, hopsLeft: nat)
    ensures FirstReady(bs, |bs|, now, hopsLeft) == |bs|
    ensures PruneDueFirst(bs, |bs|, now, hopsLeft) == PruneDueUpTo(bs, |bs|, now, hopsLeft)
  {
  }

  // ---------------------------------------------------------------------------
  // The invariant of every run

  predicate SortedByTmin(q: seq<Packet>) {
    forall i, j :: 0 <= i < j < |q| ==> q[i].tmin <= q[j].tmin
  }

  ghost predicate Ordered(bs: seq<Bucket>) {
    && (forall i, j :: 0 <= i < j < |bs| ==> bs[i].start <= bs[j].start)
    && (forall i :: 0 <= i < |bs| ==> bs[i].start % 10 == 0 && SortedByTmin(bs[i].queue))
  }

  /** Nothing but the new packet is added. */
  lemma {:induction false} QueueInsertAdds(q: seq<Packet>, p: Packet)
    ensures multiset(QueueInsert(q, p)) == multiset(q) + multiset{p}
  {
    if q != [] && !(p.tmin < q[0].tmin) {
      assert q == [q[0]] + q[1..];
      QueueInsertAdds(q[1..], p);
    }
  }

  lemma {:induction false} QueueInsertSorted(q: seq<Packet>, p: Packet)
    requires SortedByTmin(q)
    ensures SortedByTmin(QueueInsert(q, p))
  {
    if q != [] && !(p.tmin < q[0].tmin) {
      QueueInsertSorted(q[1..], p);
      QueueInsertAdds(q[1..], p);
      var r := QueueInsert(q[1..], p);
      forall j | 0 <= j < |r| ensures q[0].tmin <= r[j].tmin {
        assert r[j] in multiset(q[1..]) + multiset{p};
        if r[j] != p {
          assert r[j] in q[1..];
        }
      }
    }
  }

  /** Packets of one earliest send time, in queue order. */
  function SameTmin(q: seq<Packet>, t: nat): seq<Packet> {
    if q == [] then [] else (if q[0].tmin == t then [q[0]] else []) + SameTmin(q[1..], t)
  }

  /** Ties stay in arrival order: a new packet goes behind all packets it ties with. */
  lemma {:induction false} QueueInsertStable(q: seq<Packet>, p: Packet, t: nat)
    requires SortedByTmin(q)
    ensures SameTmin(QueueInsert(q, p), t) == SameTmin(q, t) + if p.tmin == t then [p] else []
  {
    if q == [] {
      assert SameTmin([p], t) == if p.tmin == t then [p] else [];
    } else if p.tmin < q[0].tmin {
      var r := [p] + q;
      assert r[1..] == q;
      if p.tmin == t {
        LaterHaveNone(q, t);
      }
    } else {
      QueueInsertStable(q[1..], p, t);
      var r := [q[0]] + QueueInsert(q[1..], p);
      assert r[1..] == QueueInsert(q[1..], p);
    }
  }

  lemma {:induction false} LaterHaveNone(q: seq<Packet>, t: nat)
    requires forall i :: 0 <= i < |q| ==> t < q[i].tmin
    ensures SameTmin(q, t) == []
  {
    if q != [] {
      LaterHaveNone(q[1..], t);
    }
  }

  lemma {:induction false} PlaceSpec(bs: seq<Bucket>, budget: nat, i: nat)
    requires i <= |bs|
    ensures forall j :: i <= j < Place(bs, budget, i) ==> bs[j].start + LQB_RANGE - 1 <= budget
    ensures var k := Place(bs, budget, i); k < |bs| ==> Covers(bs[k], budget) || budget < bs[k].start
    decreases |bs| - i
  {
    if !(i == |bs| || Covers(bs[i], budget) || budget < bs[i].start) {
      PlaceSpec(bs, budget, i + 1);
    }
  }

  lemma TensOrder(s: nat, budget: nat)
    requires s % LQB_RANGE == 0
    ensures s + LQB_RANGE - 1 <= budget ==> s <= budget - budget % LQB_RANGE
    ensures s <= budget < s + LQB_RANGE - 1 ==> s == budget - budget % LQB_RANGE
    ensures budget < s ==> budget - budget % LQB_RANGE <= s
    ensures (budget - budget % LQB_RANGE) % LQB_RANGE == 0
  {
  }

  /** The bucket found or made for a budget holds budgets of its range, and keeps the
      bucket order. */
  lemma WithBucketOrdered(bs: seq<Bucket>, budget: nat)
    requires Ordered(bs)
    ensures Ordered(WithBucket(bs, budget))
    ensures WithBucket(bs, budget)[Place(bs, budget, 0)].start == budget - budget % 10
  {
    PlaceSpec(bs, budget, 0);
    var k := Place(bs, budget, 0);
    if k < |bs| && Covers(bs[k], budget) {
      TensOrder(bs[k].start, budget);
    } else {
      var b := NewBucket(budget, []);
      TensOrder(0, budget);
      forall i | 0 <= i < k ensures bs[i].start <= b.start {
        TensOrder(bs[i].start, budget);
      }
      forall i | k <= i < |bs| ensures b.start <= bs[i].start {
        TensOrder(bs[k].start, budget);
      }
      InsertKeepsOrder(bs, k, b);
    }
  }

  /** A bucket for ten budgets is made only if there is none, except that budgets ending in 9 always
      get a new one: the code leaves the last budget of a range out. */
  lemma BucketMade(bs: seq<Bucket>, budget: nat)
    requires Ordered(bs)
    ensures WithBucket(bs, budget) == bs <==>
              budget % 10 != 9 && exists i :: 0 <= i < |bs| && bs[i].start == budget - budget % 10
    ensures WithBucket(bs, budget) == bs || |WithBucket(bs, budget)| == |bs| + 1
  {
    PlaceSpec(bs, budget, 0);
    var k := Place(bs, budget, 0);
    if k < |bs| && Covers(bs[k], budget) {
      TensOrder(bs[k].start, budget);
    } else {
      forall i | 0 <= i < |bs| && bs[i].start == budget - budget % 10 ensures budget % 10 == 9 {
        assert i < k;
      }
    }
  }

  lemma InsertKeepsOrder(bs: seq<Bucket>, k: nat, b: Bucket)
    requires Ordered(bs) && k <= |bs| && b.start % LQB_RANGE == 0 && SortedByTmin(b.queue)
    requires forall i :: 0 <= i < k ==> bs[i].start <= b.start
    requires forall i :: k <= i < |bs| ==> b.start <= bs[i].start
    ensures Ordered(bs[..k] + [b] + bs[k..])
  {
    var r := bs[..k] + [b] + bs[k..];
    assert forall i :: 0 <= i < |r| ==> r[i] == if i < k then bs[i] else if i == k then b else bs[i - 1];
  }

  lemma EnqueueOrdered(bs: seq<Bucket>, budget: nat, p: Packet)
    requires Ordered(bs)
    ensures Ordered(Enqueue(bs, budget, p))
  {
    WithBucketOrdered(bs, budget);
    QueueInsertSorted(WithBucket(bs, budget)[Place(bs, budget, 0)].queue, p);
  }

  // ---------------------------------------------------------------------------
  // What the searches find

  /** How many packets a prune drops: the expired run at the head. */
  function PruneCount(q: seq<Packet>, now: nat, hopsLeft: nat): (n: nat)
    ensures n <= |q|
  {
    if q != [] && Expired(q[0], now, hopsLeft) then 1 + PruneCount(q[1..], now, hopsLeft) else 0
  }

  /** A prune drops expired packets from the head, all of them, and nothing else. */
  lemma {:induction false} PruneSpec(q: seq<Packet>, now: nat, hopsLeft: nat)
    ensures var n := PruneCount(q, now, hopsLeft);
            && Prune(q, now, hopsLeft) == q[n..]
            && (forall i :: 0 <= i < n ==> Expired(q[i], now, hopsLeft))
            && (n < |q| ==> !Expired(q[n], now, hopsLeft))
  {
    if q != [] && Expired(q[0], now, hopsLeft) {
      PruneSpec(q[1..], now, hopsLeft);
      var n := PruneCount(q[1..], now, hopsLeft);
      forall i | 0 <= i < n + 1 ensures Expired(q[i], now, hopsLeft) {
        assert i > 0 ==> q[i] == q[1..][i - 1];
      }
    }
  }

  function PruneDueCount(q: seq<Packet>, now: nat, hopsLeft: nat): (n: nat)
    ensures n <= |q|
  {
    if q != [] && q[0].tmin <= now && Expired(q[0], now, hopsLeft) then 1 + PruneDueCount(q[1..], now, hopsLeft)
    else 0
  }

  lemma {:induction false} PruneDueSpec(q: seq<Packet>, now: nat, hopsLeft: nat)
    ensures var n := PruneDueCount(q, now, hopsLeft);
            && PruneDue(q, now, hopsLeft) == q[n..]
            && (forall i :: 0 <= i < n ==> Expired(q[i], now, hopsLeft))
            && (n < |q| && q[n].tmin <= now ==> !Expired(q[n], now, hopsLeft))
  {
    if q != [] && q[0].tmin <= now && Expired(q[0], now, hopsLeft) {
      PruneDueSpec(q[1..], now, hopsLeft);
      var n := PruneDueCount(q[1..], now, hopsLeft);
      forall i | 0 <= i < n + 1 ensures Expired(q[i], now, hopsLeft) {
        assert i > 0 ==> q[i] == q[1..][i - 1];
      }
    }
  }

  /** `r` is `b` without some packets from the head. */
  predicate LosesHead(b: Bucket, r: Bucket) {
    |r.queue| <= |b.queue| && r == b.(queue := b.queue[|b.queue| - |r.queue|..])
  }

  lemma SuffixesOrdered(bs: seq<Bucket>, r: seq<Bucket>)
    requires Ordered(bs) && |r| == |bs|
    requires forall i :: 0 <= i < |bs| ==> LosesHead(bs[i], r[i])
    ensures Ordered(r)
  {
    forall i | 0 <= i < |r| ensures r[i].start == bs[i].start && SortedByTmin(r[i].queue) {
      assert LosesHead(bs[i], r[i]) && SortedByTmin(bs[i].queue);
    }
  }

  lemma {:induction false} EarliestLocal(bs: seq<Bucket>, r: seq<Bucket>, n: nat)
    requires n <= |bs| && n <= |r| && forall i :: 0 <= i < n ==> r[i] == bs[i]
    ensures Earliest(r, n) == Earliest(bs, n)
  {
    if n > 0 {
      EarliestLocal(bs, r, n - 1);
    }
  }

  lemma {:induction false} EarliestSpec(bs: seq<Bucket>, n: nat)
    requires n <= |bs|
    ensures forall i :: 0 <= i < n && bs[i].queue != [] ==> BestTmin(bs, Earliest(bs, n)) <= bs[i].queue[0].tmin
  {
    if n > 0 {
      EarliestSpec(bs, n - 1);
    }
  }

  lemma SweepNone(bs: seq<Bucket>, now: nat, hopsLeft: nat)
    ensures bs == PruneFirst(bs, 0, now, hopsLeft) && Earliest(bs, 0) == None && BestTmin(bs, None) == ULLONG_MAX
  {
  }

  /** One bucket more in the search for the next packet. */
  lemma SweepStep(bs: seq<Bucket>, i: nat, now: nat, hopsLeft: nat)
    requires i < |bs|
    ensures var a, q := PruneFirst(bs, i, now, hopsLeft), Prune(bs[i].queue, now, hopsLeft);
            var r := a[i := a[i].(queue := q)];
            var best := BestTmin(a, Earliest(a, i));
            && a[i] == bs[i] && r == PruneFirst(bs, i + 1, now, hopsLeft)
            && (q != [] && q[0].tmin < best ==> Earliest(r, i + 1) == Some(i) && BestTmin(r, Some(i)) == q[0].tmin)
            && (!(q != [] && q[0].tmin < best) ==>
                  Earliest(r, i + 1) == Earliest(a, i) && BestTmin(r, Earliest(a, i)) == best)
  {
    var a, q := PruneFirst(bs, i, now, hopsLeft), Prune(bs[i].queue, now, hopsLeft);
    var r := a[i := a[i].(queue := q)];
    EarliestLocal(a, r, i);
  }

  lemma PruneFirstOrdered(bs: seq<Bucket>, now: nat, hopsLeft: nat)
    requires Ordered(bs)
    ensures Ordered(PruneFirst(bs, |bs|, now, hopsLeft))
  {
    var r := PruneFirst(bs, |bs|, now, hopsLeft);
    forall i | 0 <= i < |bs| ensures LosesHead(bs[i], r[i]) {
      PruneSpec(bs[i].queue, now, hopsLeft);
    }
    SuffixesOrdered(bs, r);
  }

  /** Of buckets in order, the earliest head is the earliest packet. */
  lemma EarliestOfAll(r: seq<Bucket>, i: nat, j: nat)
    requires Ordered(r) && i < |r| && j < |r[i].queue|
    ensures BestTmin(r, Earliest(r, |r|)) <= r[i].queue[j].tmin
  {
    EarliestSpec(r, |r|);
    assert SortedByTmin(r[i].queue);
    assert r[i].queue[0].tmin <= r[i].queue[j].tmin;
  }

  /** The search for the next packet finds one with the earliest send time of all packets
      left in all buckets, unless nothing is left that can be sent before the end of
      time; it drops expired packets only. */
  lemma NextIsEarliest(bs: seq<Bucket>, now: nat, hopsLeft: nat)
    requires Ordered(bs)
    ensures var r := PruneFirst(bs, |bs|, now, hopsLeft);
            && Ordered(r)
            && (match Earliest(r, |r|)
                case Some(k) =>
                  (now <= r[k].queue[0].tmax || hopsLeft != 0) &&
                  forall i, j :: 0 <= i < |r| && 0 <= j < |r[i].queue| ==> r[k].queue[0].tmin <= r[i].queue[j].tmin
                case None => forall i, j :: 0 <= i < |r| && 0 <= j < |r[i].queue| ==> r[i].queue[j].tmin >= ULLONG_MAX)
  {
    var r := PruneFirst(bs, |bs|, now, hopsLeft);
    PruneFirstOrdered(bs, now, hopsLeft);
    var best := Earliest(r, |r|);
    forall i, j | 0 <= i < |r| && 0 <= j < |r[i].queue| ensures BestTmin(r, best) <= r[i].queue[j].tmin {
      EarliestOfAll(r, i, j);
    }
    if best.Some? {
      PruneSpec(bs[best.value].queue, now, hopsLeft);
    }
  }

  lemma {:induction false} FirstReadySpec(bs: seq<Bucket>, i: nat, now: nat, hopsLeft: nat)
    requires i <= |bs|
    ensures var k := FirstReady(bs, i, now, hopsLeft);
            && (k < |bs| ==> Ready(PruneDue(bs[k].queue, now, hopsLeft), now))
            && (forall j :: i <= j < k ==> !Ready(PruneDue(bs[j].queue, now, hopsLeft), now))
    decreases |bs| - i
  {
    if !(i == |bs| || Ready(PruneDue(bs[i].queue, now, hopsLeft), now)) {
      FirstReadySpec(bs, i + 1, now, hopsLeft);
    }
  }

  /** The immediate search never returns a packet early, nor late on its last hop; it
      returns none only if nothing left may be sent yet, and otherwise serves the bucket
      of least slack that has a packet to send. */
  lemma NowIsDue(bs: seq<Bucket>, now: nat, hopsLeft: nat)
    requires Ordered(bs)
    ensures var k := FirstReady(bs, 0, now, hopsLeft);
            var r := PruneDueUpTo(bs, k, now, hopsLeft);
            && Ordered(r)
            && (k < |bs| ==>
                  r[k].queue != [] && r[k].queue[0].tmin <= now && (now <= r[k].queue[0].tmax || hopsLeft != 0))
            && (forall i, j :: 0 <= i < |r| && i < k && 0 <= j < |r[i].queue| ==> now < r[i].queue[j].tmin)
            && (k < |bs| ==> forall i, j ::
                  0 <= i < |r| && 0 <= j < |r[i].queue| && r[i].queue[j].tmin <= now ==> r[k].start <= r[i].start)
  {
    var k := FirstReady(bs, 0, now, hopsLeft);
    var r := PruneDueUpTo(bs, k, now, hopsLeft);
    FirstReadySpec(bs, 0, now, hopsLeft);
    NowOrdered(bs, k, now, hopsLeft);
    forall i, j | 0 <= i < |r| && i < k && 0 <= j < |r[i].queue| ensures now < r[i].queue[j].tmin {
      assert SortedByTmin(r[i].queue);
      assert !Ready(r[i].queue, now);
    }
    if k < |bs| {
      PruneDueSpec(bs[k].queue, now, hopsLeft);
      forall i, j | 0 <= i < |r| && 0 <= j < |r[i].queue| && r[i].queue[j].tmin <= now
        ensures r[k].start <= r[i].start
      {
        assert k <= i;
      }
    }
  }

  lemma NowOrdered(bs: seq<Bucket>, k: nat, now: nat, hopsLeft: nat)
    requires Ordered(bs) && k <= |bs|
    ensures Ordered(PruneDueUpTo(bs, k, now, hopsLeft))
  {
    var r := PruneDueUpTo(bs, k, now, hopsLeft);
    forall i | 0 <= i < |bs| ensures LosesHead(bs[i], r[i]) {
      PruneDueSpec(bs[i].queue, now, hopsLeft);
      assert bs[i].queue == bs[i].queue[0..];
    }
    SuffixesOrdered(bs, r);
  }
}
