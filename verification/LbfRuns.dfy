/** Whole runs of the scheduler: the order every run keeps, and where every packet that
    ever arrived has gone. */
module LbfRuns {
  import opened LbfModel

  /** A packet arrives and is queued, or arrives over its budget and is refused; one is
      sent at once; expired heads are swept; or the packet the watchdog was set for, the
      head of a chosen bucket, is dealt with.  An arrival carries the hop count it has
      left, which the scheduler notes for the whole queue. */
  datatype Op =
    | Arrive(budget: nat, packet: Packet, hopsLeft: nat)
    | Refuse(hopsLeft: nat)
    | SendNow(now: nat)
    | Sweep(now: nat)
    | TakeNext(bucket: nat, now: nat)

  function Apply(bs: seq<Bucket>, hops: nat, op: Op): seq<Bucket> {
    match op
    case Arrive(budget, p, _) => Enqueue(bs, budget, p)
    case Refuse(_) => bs
    case SendNow(now) =>
      var k := FirstReady(bs, 0, now, hops);
      var r := Searched(bs, hops, op);
      if k < |bs| && r[k].queue != [] then RemoveHead(r, k) else r
    case Sweep(now) => Searched(bs, hops, op)
    case TakeNext(i, now) => if Takes(bs, hops, i, now) then RemoveHead(bs, i) else bs
  }

  /** The watchdog's packet goes if it has expired or is due. */
  predicate Takes(bs: seq<Bucket>, hops: nat, i: nat, now: nat) {
    i < |bs| && bs[i].queue != [] && (Expired(bs[i].queue[0], now, hops) || bs[i].queue[0].tmin <= now)
  }

  /** The buckets once an operation has dropped what it drops. */
  function Searched(bs: seq<Bucket>, hops: nat, op: Op): (r: seq<Bucket>)
    ensures |r| == |bs|
  {
    match op
    case SendNow(now) => PruneDueUpTo(bs, FirstReady(bs, 0, now, hops), now, hops)
    case Sweep(now) => PruneFirst(bs, |bs|, now, hops)
    case TakeNext(i, now) =>
      if Takes(bs, hops, i, now) && Expired(bs[i].queue[0], now, hops) then RemoveHead(bs, i) else bs
    case _ => bs
  }

  /** The hop count of the queue: what the last arrival had left, refused or not. */
  function HopsLeft(ops: seq<Op>): nat {
    if ops == [] then 0
    else
      var op := ops[|ops| - 1];
      if op.Arrive? || op.Refuse? then op.hopsLeft else HopsLeft(ops[..|ops| - 1])
  }

  function Run(ops: seq<Op>): seq<Bucket> {
    if ops == [] then [] else Apply(Run(ops[..|ops| - 1]), HopsLeft(ops[..|ops| - 1]), ops[|ops| - 1])
  }

  // ---------------------------------------------------------------------------
  // The order every run keeps

  /** What arrived, in order. */
  function Arrivals(ops: seq<Op>): seq<Packet> {
    if ops == [] then []
    else Arrivals(ops[..|ops| - 1]) + if ops[|ops| - 1].Arrive? then [ops[|ops| - 1].packet] else []
  }

  /** The arrivals sent to each bucket, in order, the lists shifting as the buckets do. */
  function SentTo(ops: seq<Op>): seq<seq<Packet>> {
    if ops == [] then [] else Record(SentTo(ops[..|ops| - 1]), Run(ops[..|ops| - 1]), ops[|ops| - 1])
  }

  function Record(hs: seq<seq<Packet>>, bs: seq<Bucket>, op: Op): seq<seq<Packet>> {
    if op.Arrive? then
      var k := Place(bs, op.budget, 0);
      if k > |hs| then hs
      else if k < |hs| && k < |bs| && Covers(bs[k], op.budget) then hs[k := hs[k] + [op.packet]]
      else hs[..k] + [[op.packet]] + hs[k..]
    else hs
  }

  predicate Suffix<T(==)>(a: seq<T>, b: seq<T>) {
    |a| <= |b| && a == b[|b| - |a|..]
  }

  predicate Subsequence<T(==)>(a: seq<T>, b: seq<T>) {
    a == [] ||
    (b != [] &&
     ((a[|a| - 1] == b[|b| - 1] && Subsequence(a[..|a| - 1], b[..|b| - 1])) || Subsequence(a, b[..|b| - 1])))
  }

  /** The packets of one send time in `q` are the last such ones of `h`. */
  predicate TiesInOrder(q: seq<Packet>, h: seq<Packet>, t: nat) {
    Suffix(SameTmin(q, t), SameTmin(h, t))
  }

  ghost predicate InArrivalOrder(bs: seq<Bucket>, hs: seq<seq<Packet>>) {
    |hs| == |bs| && forall i, t :: 0 <= i < |bs| ==> TiesInOrder(bs[i].queue, hs[i], t)
  }

  predicate AllFrom(hs: seq<seq<Packet>>, all: seq<Packet>) {
    forall h :: h in hs ==> Subsequence(h, all)
  }

  lemma RemoveHeadOrdered(bs: seq<Bucket>, i: nat)
    requires Ordered(bs) && i < |bs| && bs[i].queue != []
    ensures Ordered(RemoveHead(bs, i))
  {
    assert SortedByTmin(bs[i].queue);
  }

  lemma ApplyOrdered(bs: seq<Bucket>, hops: nat, op: Op)
    requires Ordered(bs)
    ensures Ordered(Apply(bs, hops, op))
  {
    match op
    case Arrive(budget, p, _) => EnqueueOrdered(bs, budget, p);
    case SendNow(now) =>
      NowIsDue(bs, now, hops);
      var k := FirstReady(bs, 0, now, hops);
      var r := Searched(bs, hops, op);
      if k < |bs| && r[k].queue != [] {
        RemoveHeadOrdered(r, k);
      }
    case Sweep(now) => NextIsEarliest(bs, now, hops);
    case TakeNext(i, now) =>
      if Takes(bs, hops, i, now) {
        RemoveHeadOrdered(bs, i);
      }
    case Refuse(_) =>
  }

  lemma {:induction false} SameTminAppend(q: seq<Packet>, p: Packet, t: nat)
    ensures SameTmin(q + [p], t) == SameTmin(q, t) + if p.tmin == t then [p] else []
  {
    if q == [] {
      assert q + [p] == [p] && [p][1..] == [];
    } else {
      assert (q + [p])[1..] == q[1..] + [p];
      SameTminAppend(q[1..], p, t);
    }
  }

  lemma {:induction false} SameTminDrop(q: seq<Packet>, n: nat, t: nat)
    requires n <= |q|
    ensures Suffix(SameTmin(q[n..], t), SameTmin(q, t))
  {
    if n > 0 {
      SameTminDrop(q[1..], n - 1, t);
      assert q[1..][n - 1..] == q[n..];
    } else {
      assert q[n..] == q;
    }
  }

  lemma SuffixTrans<T>(a: seq<T>, b: seq<T>, c: seq<T>)
    requires Suffix(a, b) && Suffix(b, c)
    ensures Suffix(a, c)
  {
  }

  /** Taking packets from heads leaves ties in order. */
  lemma LosingKeepsTies(bs: seq<Bucket>, hs: seq<seq<Packet>>, r: seq<Bucket>)
    requires InArrivalOrder(bs, hs) && |r| == |bs|
    requires forall i :: 0 <= i < |bs| ==> LosesHead(bs[i], r[i])
    ensures InArrivalOrder(r, hs)
  {
    forall i, t | 0 <= i < |r| ensures TiesInOrder(r[i].queue, hs[i], t) {
      assert LosesHead(bs[i], r[i]) && TiesInOrder(bs[i].queue, hs[i], t);
      SameTminDrop(bs[i].queue, |bs[i].queue| - |r[i].queue|, t);
      SuffixTrans(SameTmin(r[i].queue, t), SameTmin(bs[i].queue, t), SameTmin(hs[i], t));
    }
  }

  lemma ArrivalKeepsTies(q: seq<Packet>, h: seq<Packet>, p: Packet, t: nat)
    requires SortedByTmin(q) && TiesInOrder(q, h, t)
    ensures TiesInOrder(QueueInsert(q, p), h + [p], t)
  {
    QueueInsertStable(q, p, t);
    SameTminAppend(h, p, t);
  }

  lemma ArriveKeepsTies(bs: seq<Bucket>, hs: seq<seq<Packet>>, op: Op)
    requires Ordered(bs) && InArrivalOrder(bs, hs) && op.Arrive?
    ensures InArrivalOrder(Enqueue(bs, op.budget, op.packet), Record(hs, bs, op))
  {
    var k, r, p := Place(bs, op.budget, 0), Enqueue(bs, op.budget, op.packet), op.packet;
    var made := !(k < |bs| && Covers(bs[k], op.budget));
    var q, h := if made then [] else bs[k].queue, if made then [] else hs[k];
    var hs' := Record(hs, bs, op);
    assert |r| == |hs'| && r[k].queue == QueueInsert(q, p) && hs'[k] == h + [p];
    forall i, t | 0 <= i < |r| ensures TiesInOrder(r[i].queue, hs'[i], t) {
      if i == k {
        assert made || TiesInOrder(bs[k].queue, hs[k], t);
        ArrivalKeepsTies(q, h, p, t);
      } else {
        var j := if made && i > k then i - 1 else i;
        assert r[i].queue == bs[j].queue && hs'[i] == hs[j] && TiesInOrder(bs[j].queue, hs[j], t);
      }
    }
  }

  lemma ApplyKeepsTies(bs: seq<Bucket>, hops: nat, hs: seq<seq<Packet>>, op: Op)
    requires Ordered(bs) && InArrivalOrder(bs, hs)
    ensures InArrivalOrder(Apply(bs, hops, op), Record(hs, bs, op))
  {
    if op.Arrive? {
      ArriveKeepsTies(bs, hs, op);
    } else {
      var r := Apply(bs, hops, op);
      forall i | 0 <= i < |bs| ensures LosesHead(bs[i], r[i]) {
        AppliedCut(bs, hops, op, i);
      }
      LosingKeepsTies(bs, hs, r);
    }
  }

  lemma AppliedCut(bs: seq<Bucket>, hops: nat, op: Op, i: nat)
    requires i < |bs| && !op.Arrive?
    ensures |Apply(bs, hops, op)| == |bs| && LosesHead(bs[i], Apply(bs, hops, op)[i])
  {
    SearchedCut(bs, hops, op, i);
    assert bs[i].queue == bs[i].queue[0..];
  }

  lemma RecordKeepsFrom(bs: seq<Bucket>, hs: seq<seq<Packet>>, op: Op, all: seq<Packet>)
    requires AllFrom(hs, all)
    ensures AllFrom(Record(hs, bs, op), all + if op.Arrive? then [op.packet] else [])
  {
    if op.Arrive? {
      var more, hs' := all + [op.packet], Record(hs, bs, op);
      assert more[..|more| - 1] == all;
      forall h | h in hs' ensures Subsequence(h, more) {
        if h !in hs {
          var front: seq<Packet> :| (front in hs || front == []) && h == front + [op.packet];
          assert h[..|h| - 1] == front;
        }
      }
    } else {
      assert all + [] == all;
    }
  }

  /** After any run the buckets are in order of slack and every queue in order of send
      time, and packets of one queue and one send time stand in the order they arrived:
      they are the last such ones of the arrivals sent to their bucket. */
  lemma {:induction false} RunOrdered(ops: seq<Op>)
    ensures Ordered(Run(ops))
    ensures InArrivalOrder(Run(ops), SentTo(ops)) && AllFrom(SentTo(ops), Arrivals(ops))
  {
    if ops != [] {
      var before, op := ops[..|ops| - 1], ops[|ops| - 1];
      RunOrdered(before);
      ApplyOrdered(Run(before), HopsLeft(before), op);
      ApplyKeepsTies(Run(before), HopsLeft(before), SentTo(before), op);
      RecordKeepsFrom(Run(before), SentTo(before), op, Arrivals(before));
    }
  }

  // ---------------------------------------------------------------------------
  // Conservation

  function Packets(bs: seq<Bucket>): multiset<Packet> {
    if bs == [] then multiset{} else multiset(bs[0].queue) + Packets(bs[1..])
  }

  /** What was taken from the heads of `bs` to leave `r`. */
  function Lost(bs: seq<Bucket>, r: seq<Bucket>): multiset<Packet>
    requires |bs| == |r|
  {
    if bs == [] then multiset{}
    else multiset(bs[0].queue[..Cut(bs[0], r[0])]) + Lost(bs[1..], r[1..])
  }

  function Cut(b: Bucket, r: Bucket): (n: nat)
    ensures n <= |b.queue|
  {
    if |r.queue| <= |b.queue| then |b.queue| - |r.queue| else 0
  }

  /** What an operation lets in, sends and drops. */
  function ArrivedBy(op: Op): multiset<Packet> {
    if op.Arrive? then multiset{op.packet} else multiset{}
  }

  function SentBy(bs: seq<Bucket>, hops: nat, op: Op): multiset<Packet> {
    match op
    case SendNow(now) =>
      var k := FirstReady(bs, 0, now, hops);
      var r := Searched(bs, hops, op);
      if k < |bs| && r[k].queue != [] then multiset{r[k].queue[0]} else multiset{}
    case TakeNext(i, now) =>
      if Takes(bs, hops, i, now) && !Expired(bs[i].queue[0], now, hops) then multiset{bs[i].queue[0]} else multiset{}
    case _ => multiset{}
  }

  function DroppedBy(bs: seq<Bucket>, hops: nat, op: Op): multiset<Packet> {
    Lost(bs, Searched(bs, hops, op))
  }

  function Arrived(ops: seq<Op>): multiset<Packet> {
    if ops == [] then multiset{} else Arrived(ops[..|ops| - 1]) + ArrivedBy(ops[|ops| - 1])
  }

  function Sent(ops: seq<Op>): multiset<Packet> {
    if ops == [] then multiset{}
    else Sent(ops[..|ops| - 1]) + SentBy(Run(ops[..|ops| - 1]), HopsLeft(ops[..|ops| - 1]), ops[|ops| - 1])
  }

  function Dropped(ops: seq<Op>): multiset<Packet> {
    if ops == [] then multiset{}
    else Dropped(ops[..|ops| - 1]) + DroppedBy(Run(ops[..|ops| - 1]), HopsLeft(ops[..|ops| - 1]), ops[|ops| - 1])
  }

  lemma AddToBoth<T>(a: multiset<T>, p: multiset<T>, m: multiset<T>, q: multiset<T>, n: multiset<T>)
    requires p + m == q + n
    ensures (a + p) + m == (a + q) + n
  {
    assert (a + p) + m == a + (p + m) && (a + q) + n == a + (q + n);
  }

  lemma Cancel<T>(a: multiset<T>, p: multiset<T>, q: multiset<T>)
    requires p + a == q + a
    ensures p == q
  {
    assert p == (p + a) - a && q == (q + a) - a;
  }

  /** One step of the balance. */
  lemma Balance<T>(all: multiset<T>, q: multiset<T>, s: multiset<T>, d: multiset<T>,
                   a: multiset<T>, q': multiset<T>, s': multiset<T>, d': multiset<T>)
    requires all == q + s + d && q + a == q' + s' + d'
    ensures all + a == q' + (s + s') + (d + d')
  {
    assert all + a == (q + a) + (s + d);
  }

  lemma {:induction false} PacketsInsert(bs: seq<Bucket>, k: nat, b: Bucket)
    requires k <= |bs|
    ensures Packets(bs[..k] + [b] + bs[k..]) == Packets(bs) + multiset(b.queue)
  {
    var r := bs[..k] + [b] + bs[k..];
    if k == 0 {
      assert r[1..] == bs;
    } else {
      assert r[1..] == bs[1..][..k - 1] + [b] + bs[1..][k - 1..];
      PacketsInsert(bs[1..], k - 1, b);
    }
  }

  lemma {:induction false} PacketsUpdate(bs: seq<Bucket>, k: nat, b: Bucket)
    requires k < |bs|
    ensures Packets(bs[k := b]) + multiset(bs[k].queue) == Packets(bs) + multiset(b.queue)
  {
    var r := bs[k := b];
    if k == 0 {
      assert r[1..] == bs[1..];
    } else {
      assert r[1..] == bs[1..][k - 1 := b];
      PacketsUpdate(bs[1..], k - 1, b);
      AddToBoth(multiset(bs[0].queue), Packets(r[1..]), multiset(bs[k].queue), Packets(bs[1..]), multiset(b.queue));
    }
  }

  lemma {:induction false} LostSpec(bs: seq<Bucket>, r: seq<Bucket>)
    requires |bs| == |r| && forall i :: 0 <= i < |bs| ==> LosesHead(bs[i], r[i])
    ensures Packets(bs) == Packets(r) + Lost(bs, r)
  {
    if bs != [] {
      var n := Cut(bs[0], r[0]);
      assert LosesHead(bs[0], r[0]);
      assert bs[0].queue == bs[0].queue[..n] + r[0].queue;
      LostSpec(bs[1..], r[1..]);
    }
  }

  lemma {:induction false} LostFrom(bs: seq<Bucket>, r: seq<Bucket>, p: Packet)
    requires |bs| == |r| && p in Lost(bs, r)
    ensures exists i :: 0 <= i < |bs| && p in bs[i].queue[..Cut(bs[i], r[i])]
  {
    if p !in bs[0].queue[..Cut(bs[0], r[0])] {
      LostFrom(bs[1..], r[1..], p);
      var i :| 0 <= i < |bs| - 1 && p in bs[1..][i].queue[..Cut(bs[1..][i], r[1..][i])];
      assert p in bs[i + 1].queue[..Cut(bs[i + 1], r[i + 1])];
    }
  }

  /** The operation reads the clock, the packet is past its window then, and the queue's
      hop count is used up. */
  predicate ExpiredFor(p: Packet, hops: nat, op: Op) {
    (op.SendNow? || op.Sweep? || op.TakeNext?) && Expired(p, op.now, hops)
  }

  /** A search takes from the heads of queues only, and only what has expired. */
  lemma SearchedCut(bs: seq<Bucket>, hops: nat, op: Op, i: nat)
    requires i < |bs|
    ensures LosesHead(bs[i], Searched(bs, hops, op)[i])
    ensures forall p :: p in bs[i].queue[..Cut(bs[i], Searched(bs, hops, op)[i])] ==> ExpiredFor(p, hops, op)
  {
    hide Expired, FirstReady, PruneFirst, PruneDueUpTo, RemoveHead, Takes;
    var b := bs[i];
    match op
    case SendNow(now) =>
      PruneDueSpec(b.queue, now, hops);
      var n := if i <= FirstReady(bs, 0, now, hops) then PruneDueCount(b.queue, now, hops) else 0;
      HeadCut(b, Searched(bs, hops, op)[i], n);
    case Sweep(now) =>
      PruneSpec(b.queue, now, hops);
      HeadCut(b, Searched(bs, hops, op)[i], PruneCount(b.queue, now, hops));
    case TakeNext(j, now) => TakenCut(bs, hops, j, now, i);
    case _ => HeadCut(b, b, 0);
  }

  /** A bucket without the first `n` of its queue. */
  lemma HeadCut(b: Bucket, r: Bucket, n: nat)
    requires n <= |b.queue| && r == b.(queue := b.queue[n..])
    ensures LosesHead(b, r) && Cut(b, r) == n
  {
  }

  lemma TakenCut(bs: seq<Bucket>, hops: nat, j: nat, now: nat, i: nat)
    requires i < |bs|
    ensures var r := Searched(bs, hops, TakeNext(j, now))[i];
            LosesHead(bs[i], r) && forall p :: p in bs[i].queue[..Cut(bs[i], r)] ==> Expired(p, now, hops)
  {
    hide Expired;
    var r := Searched(bs, hops, TakeNext(j, now))[i];
    assert bs[i].queue[0..] == bs[i].queue;
    HeadCut(bs[i], r, if r == bs[i] then 0 else 1);
  }

  lemma SearchedConserves(bs: seq<Bucket>, hops: nat, op: Op)
    ensures Packets(bs) == Packets(Searched(bs, hops, op)) + DroppedBy(bs, hops, op)
  {
    forall i | 0 <= i < |bs| ensures LosesHead(bs[i], Searched(bs, hops, op)[i]) {
      SearchedCut(bs, hops, op, i);
    }
    LostSpec(bs, Searched(bs, hops, op));
  }

  lemma EnqueueConserves(bs: seq<Bucket>, budget: nat, p: Packet)
    ensures Packets(Enqueue(bs, budget, p)) == Packets(bs) + multiset{p}
  {
    var r, k := WithBucket(bs, budget), Place(bs, budget, 0);
    if !(k < |bs| && Covers(bs[k], budget)) {
      PacketsInsert(bs, k, NewBucket(budget, []));
    }
    var b := r[k].(queue := QueueInsert(r[k].queue, p));
    QueueInsertAdds(r[k].queue, p);
    PacketsUpdate(r, k, b);
    Cancel(multiset(r[k].queue), Packets(Enqueue(bs, budget, p)), Packets(bs) + multiset{p});
  }

  lemma RemoveHeadConserves(bs: seq<Bucket>, i: nat)
    requires i < |bs| && bs[i].queue != []
    ensures Packets(RemoveHead(bs, i)) + multiset{bs[i].queue[0]} == Packets(bs)
  {
    var q := bs[i].queue;
    assert q == [q[0]] + q[1..];
    PacketsUpdate(bs, i, bs[i].(queue := q[1..]));
    assert multiset(q) == multiset{q[0]} + multiset(q[1..]);
    Cancel(multiset(q[1..]), Packets(RemoveHead(bs, i)) + multiset{q[0]}, Packets(bs));
  }

  lemma SendNowConserves(bs: seq<Bucket>, hops: nat, now: nat)
    ensures Packets(bs) == Packets(Apply(bs, hops, SendNow(now))) + SentBy(bs, hops, SendNow(now))
                           + DroppedBy(bs, hops, SendNow(now))
  {
    hide FirstReady, Packets, DroppedBy, PruneDueUpTo, RemoveHead;
    var k, r := FirstReady(bs, 0, now, hops), Searched(bs, hops, SendNow(now));
    SearchedConserves(bs, hops, SendNow(now));
    if k < |bs| && r[k].queue != [] {
      RemoveHeadConserves(r, k);
    }
  }

  lemma TakeNextConserves(bs: seq<Bucket>, hops: nat, i: nat, now: nat)
    ensures Packets(bs) == Packets(Apply(bs, hops, TakeNext(i, now))) + SentBy(bs, hops, TakeNext(i, now))
                           + DroppedBy(bs, hops, TakeNext(i, now))
  {
    hide Packets, DroppedBy, RemoveHead;
    SearchedConserves(bs, hops, TakeNext(i, now));
    if Takes(bs, hops, i, now) {
      RemoveHeadConserves(bs, i);
    }
  }

  lemma ApplyConserves(bs: seq<Bucket>, hops: nat, op: Op)
    ensures Packets(bs) + ArrivedBy(op) == Packets(Apply(bs, hops, op)) + SentBy(bs, hops, op) + DroppedBy(bs, hops, op)
  {
    hide Packets, DroppedBy;
    match op
    case Arrive(budget, p, _) =>
      EnqueueConserves(bs, budget, p);
      SearchedConserves(bs, hops, op);
    case SendNow(now) => SendNowConserves(bs, hops, now);
    case TakeNext(i, now) => TakeNextConserves(bs, hops, i, now);
    case _ => SearchedConserves(bs, hops, op);
  }

  /** Every packet that ever arrived is still queued, or was sent, or was dropped, and
      never two of these. */
  lemma {:induction false} RunConserves(ops: seq<Op>)
    ensures Arrived(ops) == Packets(Run(ops)) + Sent(ops) + Dropped(ops)
  {
    if ops != [] {
      var before, op := ops[..|ops| - 1], ops[|ops| - 1];
      var bs, hops := Run(before), HopsLeft(before);
      RunConserves(before);
      ApplyConserves(bs, hops, op);
      Balance(Arrived(before), Packets(bs), Sent(before), Dropped(before),
              ArrivedBy(op), Packets(Apply(bs, hops, op)), SentBy(bs, hops, op), DroppedBy(bs, hops, op));
    }
  }

  // ---------------------------------------------------------------------------
  // Late packets

  /** Only packets past their window are dropped, and only while the hop count of the last
      arrival is used up. */
  lemma DroppedExpired(bs: seq<Bucket>, hops: nat, op: Op, p: Packet)
    requires p in DroppedBy(bs, hops, op)
    ensures (op.SendNow? || op.Sweep? || op.TakeNext?) && p.tmax < op.now && hops == 0
  {
    var r := Searched(bs, hops, op);
    LostFrom(bs, r, p);
    var i :| 0 <= i < |bs| && p in bs[i].queue[..Cut(bs[i], r[i])];
    SearchedCut(bs, hops, op, i);
  }

  /** A packet sent is due, and late only while the hop count of the last arrival is not
      used up. */
  lemma SentDue(bs: seq<Bucket>, hops: nat, op: Op, p: Packet)
    requires p in SentBy(bs, hops, op)
    ensures (op.SendNow? || op.TakeNext?) && p.tmin <= op.now && (op.now <= p.tmax || hops != 0)
  {
    if op.SendNow? {
      FirstReadySpec(bs, 0, op.now, hops);
      PruneDueSpec(bs[FirstReady(bs, 0, op.now, hops)].queue, op.now, hops);
    }
  }

  predicate Leaves(bs: seq<Bucket>, hops: nat, op: Op, p: Packet) {
    p in SentBy(bs, hops, op) || p in DroppedBy(bs, hops, op)
  }

  /** A late packet that leaves the queue is sent if and only if the last arrival, whichever
      packet that was, had hops left, and dropped if and only if it had none. */
  lemma LateFate(ops: seq<Op>, op: Op, p: Packet)
    requires Leaves(Run(ops), HopsLeft(ops), op, p)
    requires (op.SendNow? || op.TakeNext? || op.Sweep?) && p.tmax < op.now
    ensures p in SentBy(Run(ops), HopsLeft(ops), op) <==> HopsLeft(ops) != 0
    ensures p in DroppedBy(Run(ops), HopsLeft(ops), op) <==> HopsLeft(ops) == 0
  {
    var bs, hops := Run(ops), HopsLeft(ops);
    if p in SentBy(bs, hops, op) {
      SentDue(bs, hops, op, p);
    }
    if p in DroppedBy(bs, hops, op) {
      DroppedExpired(bs, hops, op, p);
    }
  }

  /** The head of the first bucket with a packet due leaves with the immediate search. */
  lemma FirstDueLeaves(bs: seq<Bucket>, hops: nat, k: nat, now: nat)
    requires k < |bs| && bs[k].queue != [] && bs[k].queue[0].tmin <= now
    requires forall j :: 0 <= j < k && bs[j].queue != [] ==> now < bs[j].queue[0].tmin
    ensures Leaves(bs, hops, SendNow(now), bs[k].queue[0])
  {
    var op, p, f := SendNow(now), bs[k].queue[0], FirstReady(bs, 0, now, hops);
    FirstReadySpec(bs, 0, now, hops);
    assert forall j :: 0 <= j < k ==> PruneDue(bs[j].queue, now, hops) == bs[j].queue;
    PruneDueSpec(bs[k].queue, now, hops);
    if Expired(p, now, hops) {
      var r := Searched(bs, hops, op);
      assert p in bs[k].queue[..Cut(bs[k], r[k])];
      LostHas(bs, r, k, p);
    }
  }

  lemma {:induction false} LostHas(bs: seq<Bucket>, r: seq<Bucket>, k: nat, p: Packet)
    requires |bs| == |r| && k < |bs| && p in bs[k].queue[..Cut(bs[k], r[k])]
    ensures p in Lost(bs, r)
  {
    if k > 0 {
      LostHas(bs[1..], r[1..], k - 1, p);
    }
  }
}
