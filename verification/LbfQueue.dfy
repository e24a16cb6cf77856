/** The LBF scheduler's linked lists: the packet queue of a bucket and the list of
    buckets.  Every operation is proved to do to its list what `LbfModel` does to
    sequences. */
module LbfQueue {
  import opened LbfModel
  import opened Options

  class Pnode {
    var next: Pnode?
    /** Back-link to the bucket, on the head of its queue only. */
    var hnode: PacketQueue?
    const tmin: nat
    const tmax: nat
    const trcv: nat
    const realpkt: nat
    /** The queue this node was made for. */
    ghost const owner: PacketQueue

    constructor (p: Packet, ghost owner: PacketQueue)
      ensures this.owner == owner && Data() == p && next == null && hnode == null
    {
      this.owner := owner;
      tmin, tmax, trcv, realpkt := p.tmin, p.tmax, p.trcv, p.skb;
      next, hnode := null, null;
    }

    function Data(): Packet { Packet(tmin, tmax, trcv, realpkt) }
  }

  function Datas(ns: seq<Pnode>): (q: seq<Packet>)
    ensures |q| == |ns| && forall i :: 0 <= i < |ns| ==> q[i] == ns[i].Data()
  {
    seq(|ns|, i requires 0 <= i < |ns| => ns[i].Data())
  }

  lemma DatasRest(ns: seq<Pnode>)
    requires ns != []
    ensures Datas(ns)[1..] == Datas(ns[1..]) && Datas(ns)[0] == ns[0].Data()
  {
  }

  /** The node at a position of a queue, null past its end. */
  function NodeAt(ns: seq<Pnode>, i: nat): Pnode? {
    if i < |ns| then ns[i] else null
  }

  function Splice<T>(s: seq<T>, i: nat, x: T): (r: seq<T>)
    requires i <= |s|
    ensures |r| == |s| + 1
    ensures forall j :: 0 <= j < |r| ==> r[j] == if j < i then s[j] else if j == i then x else s[j - 1]
  {
    s[..i] + [x] + s[i..]
  }

  ghost predicate Distinct<T>(s: seq<T>) {
    forall i, j :: 0 <= i < j < |s| ==> s[i] != s[j]
  }

  lemma SpliceDistinct<T>(s: seq<T>, i: nat, x: T)
    requires i <= |s| && Distinct(s) && x !in s
    ensures Distinct(Splice(s, i, x))
  {
    var r := Splice(s, i, x);
    forall a, b | 0 <= a < b < |r| ensures r[a] != r[b] {
      if a == i {
        assert r[b] == s[b - 1];
      } else if b == i {
        assert r[a] == s[a];
      }
    }
  }

  lemma DatasSplice(ns: seq<Pnode>, i: nat, n: Pnode)
    requires i <= |ns|
    ensures Datas(Splice(ns, i, n)) == Datas(ns)[..i] + [n.Data()] + Datas(ns)[i..]
    ensures i == 0 ==> Splice(ns, i, n) == [n] + ns
  {
  }

  /** Hooking a node in behind `ns[i - 1]` leaves every other link and back-link right. */
  lemma NodesSpliced(h: PacketQueue, ns: seq<Pnode>, i: nat, my: Pnode)
    requires 0 < i <= |ns| && Distinct(ns) && my !in ns && my.owner == h && my.hnode == null
    requires forall j :: 0 <= j < |ns| ==> ns[j].owner == h
    requires forall j :: 0 <= j < |ns| ==> ns[j].hnode == if j == 0 then h else null
    requires ns[i - 1].next == my && my.next == NodeAt(ns, i)
    requires forall j :: 0 <= j < |ns| && j != i - 1 ==> ns[j].next == NodeAt(ns, j + 1)
    ensures var r := Splice(ns, i, my);
            && Distinct(r)
            && (forall j :: 0 <= j < |r| ==> r[j].owner == h)
            && (forall j :: 0 <= j < |r| ==> r[j].next == NodeAt(r, j + 1))
            && (forall j :: 0 <= j < |r| ==> r[j].hnode == if j == 0 then h else null)
  {
    var r := Splice(ns, i, my);
    SpliceDistinct(ns, i, my);
    forall j | 0 <= j < |r|
      ensures r[j].owner == h && r[j].next == NodeAt(r, j + 1) && r[j].hnode == if j == 0 then h else null
    {
      if j < i {
        assert r[j] == ns[j];
      } else if j > i {
        assert r[j] == ns[j - 1];
      }
    }
  }

  /** The queue of one bucket (`queue` of `struct lbf_hnode`). */
  class PacketQueue {
    var queue: Pnode?
    /** The nodes of the queue, in order. */
    ghost var nodes: seq<Pnode>

    constructor ()
      ensures QueueOk() && nodes == []
    {
      queue := null;
      nodes := [];
    }

    ghost predicate QueueOk()
      reads this`queue, this`nodes, nodes
    {
      && queue == NodeAt(nodes, 0)
      && Distinct(nodes)
      && (forall i :: 0 <= i < |nodes| ==> nodes[i].owner == this)
      && (forall i :: 0 <= i < |nodes| ==> nodes[i].next == NodeAt(nodes, i + 1))
      && (forall i :: 0 <= i < |nodes| ==> nodes[i].hnode == if i == 0 then this else null)
    }

    lemma QueueHead()
      requires QueueOk()
      ensures queue == NodeAt(nodes, 0)
    {
    }

    /** Inserts a packet behind all that may be sent no later. */
    method Add(p: Packet)
      requires QueueOk()
      modifies this`queue, this`nodes, nodes
      ensures QueueOk() && Datas(nodes) == QueueInsert(old(Datas(nodes)), p)
      ensures forall n :: n in nodes ==> n in old(nodes) || fresh(n)
    {
      var my := new Pnode(p, this);
      if queue == null {
        PushFirst(my);
        return;
      }
      var prev, curr;
      ghost var i;
      prev, curr, i := FindPlace(p);
      QueueInsertAt(Datas(nodes), p, i);
      DatasSplice(nodes, i, my);
      if curr != null && prev == curr {
        PushFirst(my);
      } else {
        LinkBehind(my, prev, curr, i);
      }
    }

    /** The first node sent later than `p`, null if none, and the node before it (the
        node itself at the head). */
    method FindPlace(p: Packet) returns (prev: Pnode, curr: Pnode?, ghost i: nat)
      requires QueueOk() && queue != null
      ensures i <= |nodes| && curr == NodeAt(nodes, i) && prev == nodes[if i == 0 then 0 else i - 1]
      ensures forall j :: 0 <= j < i ==> nodes[j].tmin <= p.tmin
      ensures i < |nodes| ==> p.tmin < nodes[i].tmin
    {
      prev, curr, i := queue, queue, 0;
      while curr != null && curr.tmin <= p.tmin
        invariant 0 <= i <= |nodes| && curr == NodeAt(nodes, i)
        invariant prev == nodes[if i == 0 then 0 else i - 1]
        invariant forall j :: 0 <= j < i ==> nodes[j].tmin <= p.tmin
        decreases |nodes| - i
      {
        prev, curr := curr, curr.next;
        i := i + 1;
      }
    }

    /** Makes a new node the head of the queue. */
    method PushFirst(my: Pnode)
      requires QueueOk() && my !in nodes && my.owner == this && my.next == null && my.hnode == null
      modifies this`queue, this`nodes, nodes, my
      ensures QueueOk() && nodes == [my] + old(nodes)
      ensures forall n :: n in nodes ==> n == my || n in old(nodes)
    {
      if queue != null {
        queue.hnode := null;
      }
      my.next := queue;
      queue := my;
      my.hnode := this;
      nodes := [my] + nodes;
    }

    /** Links a new node in behind `prev`, before `curr`. */
    method LinkBehind(my: Pnode, prev: Pnode, curr: Pnode?, ghost i: nat)
      requires QueueOk() && 0 < i <= |nodes| && curr == NodeAt(nodes, i) && prev == nodes[i - 1]
      requires my !in nodes && my.owner == this && my.next == null && my.hnode == null
      modifies this`nodes, nodes, my
      ensures QueueOk() && nodes == Splice(old(nodes), i, my)
      ensures forall n :: n in nodes ==> n == my || n in old(nodes)
    {
      ghost var before := nodes;
      prev.next := my;
      my.next := curr;
      NodesSpliced(this, before, i, my);
      nodes := Splice(before, i, my);
    }

    /** Takes the head off. */
    method RemoveFirst(pnode: Pnode)
      requires QueueOk() && nodes != [] && pnode == nodes[0]
      modifies this`queue, this`nodes, nodes
      ensures QueueOk() && nodes == old(nodes[1..])
    {
      if pnode.next != null {
        queue := pnode.next;
        pnode.next.hnode := this;
      } else {
        queue := null;
      }
      nodes := nodes[1..];
    }

    /** Drops expired packets from the head and gives the head that is left. */
    method Sweep(now: nat, hopsLeft: nat) returns (first: Pnode?)
      requires QueueOk()
      modifies this`queue, this`nodes, nodes
      ensures QueueOk() && Datas(nodes) == Prune(old(Datas(nodes)), now, hopsLeft)
      ensures first == NodeAt(nodes, 0) && forall n :: n in nodes ==> n in old(nodes)
    {
      hide QueueOk;
      QueueHead();
      ghost var ns, k := nodes, 0;
      first := queue;
      while first != null && first.tmax < now && hopsLeft == 0
        invariant QueueOk() && first == queue == NodeAt(nodes, 0) && 0 <= k <= |ns| && nodes == ns[k..]
        invariant Prune(Datas(nodes), now, hopsLeft) == Prune(Datas(ns), now, hopsLeft)
        decreases |nodes|
      {
        DatasRest(nodes);
        RemoveFirst(first);
        QueueHead();
        first := queue;
        k := k + 1;
      }
    }

    /** Drops expired packets that were due from the head; the head that is left, if it
        may be sent now. */
    method SweepDue(now: nat, hopsLeft: nat) returns (found: Pnode?)
      requires QueueOk()
      modifies this`queue, this`nodes, nodes
      ensures QueueOk() && Datas(nodes) == PruneDue(old(Datas(nodes)), now, hopsLeft)
      ensures found == if Ready(Datas(nodes), now) then NodeAt(nodes, 0) else null
      ensures forall n :: n in nodes ==> n in old(nodes)
    {
      hide QueueOk;
      QueueHead();
      ghost var ns, k := nodes, 0;
      var curr := queue;
      while curr != null && curr.tmin <= now && curr.tmax < now && hopsLeft == 0
        invariant QueueOk() && curr == queue == NodeAt(nodes, 0) && 0 <= k <= |ns| && nodes == ns[k..]
        invariant PruneDue(Datas(nodes), now, hopsLeft) == PruneDue(Datas(ns), now, hopsLeft)
        decreases |nodes|
      {
        DatasRest(nodes);
        RemoveFirst(curr);
        QueueHead();
        curr := queue;
        k := k + 1;
      }
      return if curr != null && curr.tmin <= now then curr else null;
    }
  }

  /** A stable insertion is determined by where the later packets begin. */
  lemma {:induction false} QueueInsertAt(q: seq<Packet>, p: Packet, k: nat)
    requires k <= |q| && (forall j :: 0 <= j < k ==> q[j].tmin <= p.tmin) && (k < |q| ==> p.tmin < q[k].tmin)
    ensures QueueInsert(q, p) == q[..k] + [p] + q[k..]
  {
    if k > 0 {
      QueueInsertAt(q[1..], p, k - 1);
      assert q == [q[0]] + q[1..];
      assert q[1..][..k - 1] == q[1..k] && q[1..][k - 1..] == q[k..];
      assert q[..k] == [q[0]] + q[1..k];
    }
  }


  // ---------------------------------------------------------------------------
  // The list of buckets

  /** A bucket in the list. */
  class Hnode {
    var nextHnode: Hnode?
    /** Never set to anything else. */
    const prevHnode: Hnode? := null
    const queue: PacketQueue
    const hnodeNum: nat
    const rangeStart: nat
    const rangeEnd: nat

    constructor (lqbudget: nat, hnodeNum: nat)
      ensures fresh(queue) && queue.QueueOk() && queue.nodes == [] && nextHnode == null
      ensures rangeStart == lqbudget - lqbudget % LQB_RANGE && rangeEnd == rangeStart + LQB_RANGE - 1
    {
      var mod := lqbudget % LQB_RANGE;
      rangeStart := lqbudget - mod;
      rangeEnd := lqbudget - mod + LQB_RANGE - 1;
      this.hnodeNum := hnodeNum;
      queue := new PacketQueue();
      nextHnode := null;
    }
  }

  function HnodeAt(hs: seq<Hnode>, i: nat): Hnode? {
    if i < |hs| then hs[i] else null
  }

  ghost predicate Linked(hs: seq<Hnode>)
    reads hs
  {
    forall i :: 0 <= i < |hs| ==> hs[i].nextHnode == HnodeAt(hs, i + 1)
  }

  ghost function Queues(hs: seq<Hnode>): set<PacketQueue> {
    set i | 0 <= i < |hs| :: hs[i].queue
  }

  /** All packets in all buckets. */
  ghost function Pnodes(hs: seq<Hnode>): set<Pnode>
    reads Queues(hs)
  {
    set i, j | 0 <= i < |hs| && 0 <= j < |hs[i].queue.nodes| :: hs[i].queue.nodes[j]
  }

  /** A bucket whose queue is in order, and what it holds. */
  ghost predicate HoldsOne(h: Hnode, b: Bucket)
    reads h.queue, h.queue.nodes
  {
    h.queue.QueueOk() && b == Bucket(h.rangeStart, Datas(h.queue.nodes)) && h.rangeEnd == h.rangeStart + LQB_RANGE - 1
  }

  ghost predicate Holds(hs: seq<Hnode>, bs: seq<Bucket>)
    reads Queues(hs), Pnodes(hs)
  {
    && |hs| == |bs|
    && (forall i, j :: 0 <= i < j < |hs| ==> hs[i].queue != hs[j].queue)
    && (forall i :: 0 <= i < |hs| ==> HoldsOne(hs[i], bs[i]))
  }

  lemma HoldsSpliced(hs: seq<Hnode>, bs: seq<Bucket>, k: nat, h: Hnode, b: Bucket)
    requires Holds(hs, bs) && k <= |hs| == |bs| && HoldsOne(h, b) && h.queue !in Queues(hs)
    ensures Holds(Splice(hs, k, h), Splice(bs, k, b))
  {
    var r, c := Splice(hs, k, h), Splice(bs, k, b);
    forall i, j | 0 <= i < j < |r| ensures r[i].queue != r[j].queue {
      if i == k {
        assert r[j].queue in Queues(hs) by { assert r[j] == hs[j - 1]; }
      } else if j == k {
        assert r[i].queue in Queues(hs) by { assert r[i] == hs[i]; }
      }
    }
    forall j | 0 <= j < |r| ensures HoldsOne(r[j], c[j]) {
      if j < k {
        assert HoldsOne(hs[j], bs[j]);
      } else if j > k {
        assert HoldsOne(hs[j - 1], bs[j - 1]);
      }
    }
  }

  lemma PnodesSpliced(hs: seq<Hnode>, k: nat, h: Hnode)
    requires k <= |hs| && h.queue.nodes == []
    ensures Pnodes(Splice(hs, k, h)) <= Pnodes(hs)
  {
    var r := Splice(hs, k, h);
    forall n | n in Pnodes(r) ensures n in Pnodes(hs) {
      var i, j :| 0 <= i < |r| && 0 <= j < |r[i].queue.nodes| && r[i].queue.nodes[j] == n;
      assert hs[if i < k then i else i - 1].queue.nodes[j] == n;
    }
  }

  /** No other bucket shares the queue or a packet of bucket `k`. */
  lemma Apart(hs: seq<Hnode>, bs: seq<Bucket>, k: nat)
    requires Holds(hs, bs) && k < |hs|
    ensures |hs| == |bs| && forall i :: 0 <= i < |hs| ==> HoldsOne(hs[i], bs[i])
    ensures forall i, j :: 0 <= i < j < |hs| ==> hs[i].queue != hs[j].queue
    ensures forall i :: 0 <= i < |hs| && i != k ==>
              hs[i].queue != hs[k].queue && forall n :: n in hs[k].queue.nodes ==> n !in hs[i].queue.nodes
  {
    forall i, n | 0 <= i < |hs| && i != k && n in hs[k].queue.nodes
      ensures n !in hs[i].queue.nodes
    {
      assert HoldsOne(hs[i], bs[i]) && HoldsOne(hs[k], bs[k]) && hs[i].queue != hs[k].queue;
      assert n.owner == hs[k].queue;
    }
  }

  lemma HoldsReplaced(hs: seq<Hnode>, bs: seq<Bucket>, k: nat, b: Bucket)
    requires |hs| == |bs| && k < |hs| && HoldsOne(hs[k], b)
    requires forall i, j :: 0 <= i < j < |hs| ==> hs[i].queue != hs[j].queue
    requires forall i :: 0 <= i < |hs| && i != k ==> HoldsOne(hs[i], bs[i])
    ensures Holds(hs, bs[k := b])
  {
  }

  class HnodeList {
    var head: Hnode?
    /** Allocated with the list and never used. */
    const tail: Hnode? := null
    var len: nat
    ghost var hnodes: seq<Hnode>
    /** The list as the model sees it. */
    ghost var contents: seq<Bucket>

    constructor ()
      ensures Valid() && contents == [] && hnodes == []
    {
      head := null;
      len := 0;
      hnodes, contents := [], [];
    }

    ghost predicate Valid()
      reads this, hnodes, Queues(hnodes), Pnodes(hnodes)
    {
      len == |hnodes| && head == HnodeAt(hnodes, 0) && Distinct(hnodes) && Linked(hnodes) && Holds(hnodes, contents)
    }

    /** What a cursor sees at position `k`. */
    lemma ValidAt(k: nat)
      requires Valid() && k <= |hnodes|
      ensures |hnodes| == |contents| && head == HnodeAt(hnodes, 0)
      ensures k < |hnodes| ==>
                hnodes[k].nextHnode == HnodeAt(hnodes, k + 1) && HoldsOne(hnodes[k], contents[k])
    {
    }

    /** The first bucket that covers the budget or lies above it, null if none, and the
        one before it (the bucket itself at the head). */
    method FindHnode(lqbudget: nat) returns (prev: Hnode?, curr: Hnode?, ghost k: nat)
      requires Valid()
      ensures Valid() && Footprint() == old(Footprint()) && |hnodes| == |contents|
      ensures k == Place(contents, lqbudget, 0) && curr == HnodeAt(hnodes, k)
      ensures prev == HnodeAt(hnodes, if k == 0 then 0 else k - 1)
      ensures prev == curr <==> k == 0
      ensures k < |hnodes| ==> (Covers(contents[k], lqbudget) <==> curr.rangeStart <= lqbudget < curr.rangeEnd)
    {
      hide Valid, Holds, HoldsOne, Linked, PacketQueue.QueueOk, Place, Covers, Distinct, Footprint;
      Opens();
      prev, curr, k := head, head, 0;
      AtOr(hnodes, 0);
      if k < |hnodes| {
        Facing(k, lqbudget);
      }
      while curr != null && !(curr.rangeStart <= lqbudget < curr.rangeEnd) && !(lqbudget < curr.rangeStart)
        invariant Valid() && Distinct(hnodes) && Footprint() == old(Footprint())
        invariant 0 <= k <= |hnodes| == |contents| && curr == HnodeAt(hnodes, k)
        invariant curr != null ==> k < |hnodes| && Faces(curr, k, lqbudget)
        invariant prev == HnodeAt(hnodes, if k == 0 then 0 else k - 1) && (prev == curr <==> k == 0)
        invariant Place(contents, lqbudget, 0) == Place(contents, lqbudget, k)
        decreases |hnodes| - k
      {
        PlaceOn(contents, lqbudget, k, curr.rangeStart, curr.rangeEnd);
        prev, curr := curr, curr.nextHnode;
        k := k + 1;
        AtOr(hnodes, k);
        AtOr(hnodes, k - 1);
        if curr != null {
          OnlyAt(hnodes, k);
          Facing(k, lqbudget);
        }
      }
      if k < |hnodes| {
        Facing(k, lqbudget);
      }
      PlaceHere(contents, lqbudget, k);
    }

    /** The cursor's bucket and the list's agree. */
    ghost predicate Faces(h: Hnode, k: nat, budget: nat)
      requires k < |contents|
      reads this`contents, this`hnodes, h
    {
      && contents[k].start == h.rangeStart && h.rangeEnd == h.rangeStart + LQB_RANGE - 1
      && (Covers(contents[k], budget) <==> h.rangeStart <= budget < h.rangeEnd)
      && (budget < contents[k].start <==> budget < h.rangeStart)
      && h.nextHnode == HnodeAt(hnodes, k + 1)
    }

    lemma Facing(k: nat, budget: nat)
      requires Valid() && k < |hnodes| == |contents|
      ensures Faces(hnodes[k], k, budget)
    {
      ValidAt(k);
    }

    lemma Opens()
      requires Valid()
      ensures len == |hnodes| == |contents| && head == HnodeAt(hnodes, 0)
      ensures Distinct(hnodes) && Linked(hnodes) && Holds(hnodes, contents)
    {
    }

    lemma Closes()
      requires len == |hnodes| && head == HnodeAt(hnodes, 0)
      requires Distinct(hnodes) && Linked(hnodes) && Holds(hnodes, contents)
      ensures Valid()
    {
    }

    /** Makes a new bucket the first. */
    method LinkFirst(h: Hnode, ghost b: Bucket)
      requires Valid() && h !in hnodes && HoldsOne(h, b) && h.queue !in Queues(hnodes)
      modifies this, h`nextHnode
      ensures Valid() && hnodes == Splice(old(hnodes), 0, h) && contents == Splice(old(contents), 0, b)
      ensures h.queue.nodes == [] ==> Pnodes(hnodes) <= old(Pnodes(hnodes))
    {
      hide *;
      Opens();
      ghost var hs, bs := hnodes, contents;
      LinksOf(hs);
      HoldsSpliced(hs, bs, 0, h, b);
      SpliceDistinct(hs, 0, h);
      FirstAt(hs, h);
      h.nextHnode := head;
      head := h;
      len := len + 1;
      hnodes, contents := Splice(hs, 0, h), Splice(bs, 0, b);
      ChainSpliced(hs, 0, h);
      if h.queue.nodes == [] {
        PnodesSpliced(hs, 0, h);
      }
      Closes();
    }

    /** Links a new bucket in behind `prev`, before `curr`. */
    method LinkBehind(h: Hnode, prev: Hnode, curr: Hnode?, ghost k: nat, ghost b: Bucket)
      requires Valid() && h !in hnodes && HoldsOne(h, b) && h.queue !in Queues(hnodes)
      requires 0 < k <= |hnodes| == |contents| && curr == HnodeAt(hnodes, k) && prev == hnodes[k - 1]
      modifies this, h`nextHnode, prev`nextHnode
      ensures Valid() && hnodes == Splice(old(hnodes), k, h) && contents == Splice(old(contents), k, b)
      ensures h.queue.nodes == [] ==> Pnodes(hnodes) <= old(Pnodes(hnodes))
    {
      hide *;
      Opens();
      ghost var hs, bs := hnodes, contents;
      LinksOf(hs);
      HoldsSpliced(hs, bs, k, h, b);
      SpliceDistinct(hs, k, h);
      StillFirst(hs, k, h);
      OnlyAt(hs, k - 1);
      prev.nextHnode := h;
      h.nextHnode := curr;
      len := len + 1;
      hnodes, contents := Splice(hs, k, h), Splice(bs, k, b);
      ChainSpliced(hs, k, h);
      if h.queue.nodes == [] {
        PnodesSpliced(hs, k, h);
      }
      Closes();
    }

    ghost function Footprint(): set<object>
      reads this, Queues(hnodes)
    {
      Objects(this, hnodes, Pnodes(hnodes))
    }

    lemma FootprintIs()
      ensures Footprint() == Objects(this, hnodes, Pnodes(hnodes))
    {
    }

    /** The bucket for a budget, created in its place if there is none. */
    method GetHnode(lqbudget: nat) returns (h: Hnode, ghost k: nat)
      requires Valid()
      modifies this, hnodes
      ensures Valid() && contents == WithBucket(old(contents), lqbudget) && |hnodes| == |contents|
      ensures k == Place(old(contents), lqbudget, 0) && k < |hnodes| && h == hnodes[k]
      ensures forall o :: o in Footprint() ==> o in old(Footprint()) || fresh(o)
    {
      hide *;
      ghost var before := Footprint();
      var prev, curr;
      prev, curr, k := FindHnode(lqbudget);
      assert Footprint() == before;
      AtOr(hnodes, k);
      if curr != null && curr.rangeStart <= lqbudget < curr.rangeEnd {
        FoundBucket(contents, lqbudget, k);
        return curr, k;
      }
      NotFoundBucket(contents, lqbudget, k);
      h := AddHnode(lqbudget, prev, curr, k);
    }

    /** A new bucket before bucket `k`. */
    method AddHnode(lqbudget: nat, prev: Hnode?, curr: Hnode?, ghost k: nat) returns (h: Hnode)
      requires Valid() && k <= |hnodes| == |contents| && curr == HnodeAt(hnodes, k)
      requires prev == HnodeAt(hnodes, if k == 0 then 0 else k - 1) && (prev == curr <==> k == 0)
      modifies this, hnodes
      ensures Valid() && hnodes == Splice(old(hnodes), k, h)
      ensures contents == Splice(old(contents), k, NewBucket(lqbudget, []))
      ensures |hnodes| == |contents| && k < |hnodes| && hnodes[k] == h
      ensures forall o :: o in Footprint() ==> o in old(Footprint()) || fresh(o)
    {
      hide *;
      ghost var before, hs := Footprint(), hnodes;
      AtOr(hs, k);
      AtOr(hs, k - 1);
      h := NewHnode(lqbudget);
      ghost var all, b := Pnodes(hnodes), NewBucket(lqbudget, []);
      FootprintIs();
      if curr == prev {
        LinkFirst(h, b);
      } else {
        LinkBehind(h, prev, curr, k, b);
      }
      SplicedAt(hs, k, h);
      Opens();
      ObjectsSpliced(this, hs, k, h, all, Pnodes(hnodes));
      FootprintIs();
      forall o | o in Footprint() ensures o in before || fresh(o) {
        if o !in before {
          assert o in {h as object, h.queue};
        }
      }
    }

    /** A bucket that is not in the list yet. */
    method NewHnode(lqbudget: nat) returns (h: Hnode)
      requires Valid()
      ensures Valid() && fresh(h) && fresh(h.queue) && h !in hnodes && h.queue !in Queues(hnodes)
      ensures h.queue.nodes == [] && HoldsOne(h, NewBucket(lqbudget, [])) && Footprint() == old(Footprint())
    {
      hide HoldsOne;
      h := new Hnode(lqbudget, len);
      NewHolds(h, lqbudget);
    }

    /** What a change to the queue of bucket `k` alone leaves in order. */
    lemma Changed(k: nat, q: seq<Packet>, hs: seq<Hnode>, bs: seq<Bucket>)
      requires hnodes == hs && |hs| == |bs| && k < |hs| && contents == bs[k := bs[k].(queue := q)]
      requires len == |hs| && head == HnodeAt(hs, 0) && Distinct(hs) && Linked(hs)
      requires forall i, j :: 0 <= i < j < |hs| ==> hs[i].queue != hs[j].queue
      requires forall i :: 0 <= i < |hs| && i != k ==> HoldsOne(hs[i], bs[i])
      requires hs[k].queue.QueueOk() && Datas(hs[k].queue.nodes) == q
      requires bs[k].start == hs[k].rangeStart && hs[k].rangeEnd == hs[k].rangeStart + LQB_RANGE - 1
      ensures Valid()
    {
      HoldsReplaced(hs, bs, k, bs[k].(queue := q));
    }

    /** Adds a packet to bucket `k`. */
    method AddTo(h: Hnode, ghost k: nat, p: Packet)
      requires Valid() && k < |hnodes| == |contents| && h == hnodes[k]
      modifies h.queue, h.queue.nodes, `contents
      ensures Valid()
      ensures contents == old(contents)[k := old(contents)[k].(queue := QueueInsert(old(contents)[k].queue, p))]
      ensures forall n :: n in h.queue.nodes ==> n in old(h.queue.nodes) || fresh(n)
    {
      hide Valid, Holds, Linked, NodeAt, Datas, QueueInsert, Prune, PruneDue;
      Opens();
      ghost var hs, bs := hnodes, contents;
      Apart(hs, bs, k);
      OneIs(hs[k], bs[k]);
      label Before:
      h.queue.Add(p);
      forall i | 0 <= i < |hs| && i != k ensures HoldsOne(hs[i], bs[i]) {
        assert old@Before(HoldsOne(hs[i], bs[i]));
      }
      contents := bs[k := bs[k].(queue := QueueInsert(bs[k].queue, p))];
      Changed(k, QueueInsert(bs[k].queue, p), hs, bs);
    }

    /** Takes the head off the queue of bucket `k`, which its back-link leads to; the bucket
        stays. */
    method RemovePnode(pnode: Pnode, ghost k: nat)
      requires Valid() && k < |hnodes| == |contents| && hnodes[k].queue.nodes != [] && pnode == hnodes[k].queue.nodes[0]
      modifies hnodes[k].queue, hnodes[k].queue.nodes, `contents
      ensures Valid() && contents == old(contents)[k := old(contents)[k].(queue := old(contents)[k].queue[1..])]
      ensures forall n :: n in hnodes[k].queue.nodes ==> n in old(hnodes[k].queue.nodes)
    {
      hide Valid, Holds, Linked, NodeAt, Datas, QueueInsert, Prune, PruneDue;
      Opens();
      ghost var hs, bs := hnodes, contents;
      Apart(hs, bs, k);
      OneIs(hs[k], bs[k]);
      label Before:
      DatasRest(hs[k].queue.nodes);
      pnode.hnode.RemoveFirst(pnode);
      forall i | 0 <= i < |hs| && i != k ensures HoldsOne(hs[i], bs[i]) {
        assert old@Before(HoldsOne(hs[i], bs[i]));
      }
      contents := bs[k := bs[k].(queue := bs[k].queue[1..])];
      Changed(k, bs[k].queue[1..], hs, bs);
    }

    /** Drops expired packets from the head of bucket `k`. */
    method SweepBucket(h: Hnode, ghost k: nat, now: nat, hopsLeft: nat) returns (first: Pnode?)
      requires Valid() && k < |hnodes| == |contents| && h == hnodes[k]
      modifies h.queue, h.queue.nodes, `contents
      ensures Valid()
      ensures contents == old(contents)[k := old(contents)[k].(queue := Prune(old(contents)[k].queue, now, hopsLeft))]
      ensures first == NodeAt(hnodes[k].queue.nodes, 0)
      ensures forall n :: n in h.queue.nodes ==> n in old(h.queue.nodes)
    {
      hide Valid, Holds, Linked, NodeAt, Datas, QueueInsert, Prune, PruneDue;
      Opens();
      ghost var hs, bs := hnodes, contents;
      Apart(hs, bs, k);
      OneIs(hs[k], bs[k]);
      label Before:
      first := h.queue.Sweep(now, hopsLeft);
      forall i | 0 <= i < |hs| && i != k ensures HoldsOne(hs[i], bs[i]) {
        assert old@Before(HoldsOne(hs[i], bs[i]));
      }
      contents := bs[k := bs[k].(queue := Prune(bs[k].queue, now, hopsLeft))];
      Changed(k, Prune(bs[k].queue, now, hopsLeft), hs, bs);
    }

    /** The same for the immediate search. */
    method SweepDueBucket(h: Hnode, ghost k: nat, now: nat, hopsLeft: nat) returns (found: Pnode?)
      requires Valid() && k < |hnodes| == |contents| && h == hnodes[k]
      modifies h.queue, h.queue.nodes, `contents
      ensures Valid()
      ensures contents
              == old(contents)[k := old(contents)[k].(queue := PruneDue(old(contents)[k].queue, now, hopsLeft))]
      ensures found == if Ready(contents[k].queue, now) then NodeAt(hnodes[k].queue.nodes, 0) else null
      ensures forall n :: n in h.queue.nodes ==> n in old(h.queue.nodes)
    {
      hide Valid, Holds, Linked, NodeAt, Datas, QueueInsert, Prune, PruneDue;
      Opens();
      ghost var hs, bs := hnodes, contents;
      Apart(hs, bs, k);
      OneIs(hs[k], bs[k]);
      label Before:
      found := h.queue.SweepDue(now, hopsLeft);
      forall i | 0 <= i < |hs| && i != k ensures HoldsOne(hs[i], bs[i]) {
        assert old@Before(HoldsOne(hs[i], bs[i]));
      }
      contents := bs[k := bs[k].(queue := PruneDue(bs[k].queue, now, hopsLeft))];
      Changed(k, PruneDue(bs[k].queue, now, hopsLeft), hs, bs);
    }

    lemma InFootprint(k: nat)
      requires k < |hnodes|
      ensures hnodes[k].queue in Footprint() && forall n :: n in hnodes[k].queue.nodes ==> n in Footprint()
    {
      assert hnodes[k].queue in Queues(hnodes);
      PnodesHave(hnodes);
    }

    /** `lbf_enqueue`'s insertion: the bucket for the budget, then its queue. */
    method Enqueue(lqbudget: nat, p: Packet)
      requires Valid()
      modifies Footprint()
      ensures Valid() && contents == LbfModel.Enqueue(old(contents), lqbudget, p)
      ensures forall o :: o in Footprint() ==> o in old(Footprint()) || fresh(o)
    {
      hide Valid, Footprint, Place, WithBucket, QueueInsert, HoldsOne, Holds, PacketQueue.QueueOk;
      MayModify();
      ghost var before := Footprint();
      var h;
      ghost var k;
      h, k := GetHnode(lqbudget);
      InFootprint(k);
      ghost var now := Footprint();
      PutInto(h, k, p);
    }

    /** `AddTo`, and that nothing but new packets joins the footprint. */
    method PutInto(h: Hnode, ghost k: nat, p: Packet)
      requires Valid() && k < |hnodes| == |contents| && h == hnodes[k]
      modifies h.queue, h.queue.nodes, `contents
      ensures Valid()
      ensures contents == old(contents)[k := old(contents)[k].(queue := QueueInsert(old(contents)[k].queue, p))]
      ensures forall o :: o in Footprint() ==> o in old(Footprint()) || fresh(o)
    {
      hide Valid, Holds, HoldsOne, PacketQueue.QueueOk, QueueInsert, Pnodes, Datas, Linked, Distinct, NodeAt, HnodeAt;
      ghost var hs, all := hnodes, Pnodes(hnodes);
      PnodesHave(hs);
      Opens();
      Apart(hs, contents, k);
      AddTo(h, k, p);
      PnodesWithin(hs, all + set n | n in h.queue.nodes);
    }

    lemma MayModify()
      ensures this in Footprint() && forall h :: h in hnodes ==> h in Footprint()
    {
    }

    /** `SweepBucket` as the search sees it. */
    method SweepOne(h: Hnode, ghost k: nat, now: nat, hopsLeft: nat) returns (first: Pnode?)
      requires Valid() && k < |hnodes| == |contents| && h == hnodes[k]
      modifies h.queue, h.queue.nodes, `contents
      ensures Valid()
      ensures contents == old(contents)[k := old(contents)[k].(queue := Prune(old(contents)[k].queue, now, hopsLeft))]
      ensures first == NodeAt(h.queue.nodes, 0) && (first != null <==> contents[k].queue != [])
      ensures first != null ==> first.tmin == contents[k].queue[0].tmin
      ensures forall n :: n in h.queue.nodes ==> n in old(h.queue.nodes)
      ensures forall j :: 0 <= j < |hnodes| && j != k ==> hnodes[j].queue.nodes == old(hnodes[j].queue.nodes)
    {
      hide Valid, Holds, HoldsOne, PacketQueue.QueueOk, Prune, Linked, Distinct;
      Opens();
      Apart(hnodes, contents, k);
      first := SweepBucket(h, k, now, hopsLeft);
      ValidAt(k);
      OneIs(h, contents[k]);
    }

    /** The best of the first `i` buckets so far. */
    ghost predicate Best(i: nat, tmin: nat, ret: Pnode?)
      reads this, Queues(hnodes)
    {
      && i <= |hnodes| == |contents|
      && tmin == BestTmin(contents, Earliest(contents, i))
      && ret == match Earliest(contents, i) case Some(k) => NodeAt(hnodes[k].queue.nodes, 0) case None => null
    }

    /** One bucket more. */
    method NextOf(h: Hnode, ghost k: nat, tmin: nat, ret: Pnode?, now: nat, hopsLeft: nat, ghost bs: seq<Bucket>)
      returns (tmin': nat, ret': Pnode?)
      requires Valid() && k < |hnodes| == |contents| == |bs| && h == hnodes[k]
      requires contents == PruneFirst(bs, k, now, hopsLeft) && Best(k, tmin, ret)
      modifies h.queue, h.queue.nodes, `contents
      ensures Valid() && contents == PruneFirst(bs, k + 1, now, hopsLeft) && Best(k + 1, tmin', ret')
      ensures forall n :: n in h.queue.nodes ==> n in old(h.queue.nodes)
      ensures forall j :: 0 <= j < |hnodes| && j != k ==> hnodes[j].queue.nodes == old(hnodes[j].queue.nodes)
    {
      hide Valid, Prune, Earliest, BestTmin, HoldsOne, PacketQueue.QueueOk, Pnodes, Datas, Linked, Distinct;
      SweepStep(bs, k, now, hopsLeft);
      var first := SweepOne(h, k, now, hopsLeft);
      tmin', ret' := tmin, ret;
      if first != null && first.tmin < tmin {
        tmin', ret' := first.tmin, first;
      }
    }

    /** The packet to be sent next of all buckets, after sweeping expired heads. */
    method SearchNext(now: nat, hopsLeft: nat) returns (ret: Pnode?)
      requires Valid()
      modifies `contents, Queues(hnodes), Pnodes(hnodes)
      ensures Valid() && |hnodes| == |contents| && contents == PruneFirst(old(contents), |hnodes|, now, hopsLeft)
      ensures ret == match Earliest(contents, |hnodes|)
                     case Some(k) => NodeAt(hnodes[k].queue.nodes, 0)
                     case None => null
      ensures Pnodes(hnodes) <= old(Pnodes(hnodes))
    {
      hide Valid, Prune, Earliest, BestTmin, HoldsOne, PacketQueue.QueueOk, Pnodes, Datas, Linked, Distinct;
      ValidAt(0);
      PnodesHave(hnodes);
      ghost var all := Pnodes(hnodes);
      ghost var bs, i := contents, 0;
      SweepNone(bs, now, hopsLeft);
      var tmin := ULLONG_MAX;
      ret := null;
      var curr := head;
      while curr != null
        invariant Valid() && 0 <= i <= |hnodes| == |contents| == |bs| && curr == HnodeAt(hnodes, i)
        invariant contents == PruneFirst(bs, i, now, hopsLeft) && Best(i, tmin, ret)
        invariant forall j, n :: 0 <= j < |hnodes| && n in hnodes[j].queue.nodes ==> n in all
        invariant forall j :: i <= j < |hnodes| ==> hnodes[j].queue.nodes == old(hnodes[j].queue.nodes)
        decreases |hnodes| - i
      {
        assert curr.queue in Queues(hnodes);
        tmin, ret := NextOf(curr, i, tmin, ret, now, hopsLeft, bs);
        ValidAt(i);
        i := i + 1;
        curr := curr.nextHnode;
      }
      PnodesWithin(hnodes, all);
    }

    /** `SweepDueBucket` as the search sees it. */
    method SweepDueOne(h: Hnode, ghost k: nat, now: nat, hopsLeft: nat) returns (found: Pnode?)
      requires Valid() && k < |hnodes| == |contents| && h == hnodes[k]
      modifies h.queue, h.queue.nodes, `contents
      ensures Valid()
      ensures contents
              == old(contents)[k := old(contents)[k].(queue := PruneDue(old(contents)[k].queue, now, hopsLeft))]
      ensures found == if Ready(contents[k].queue, now) then NodeAt(h.queue.nodes, 0) else null
      ensures found != null <==> Ready(contents[k].queue, now)
      ensures forall n :: n in h.queue.nodes ==> n in old(h.queue.nodes)
      ensures forall j :: 0 <= j < |hnodes| && j != k ==> hnodes[j].queue.nodes == old(hnodes[j].queue.nodes)
    {
      hide Valid, Holds, HoldsOne, PacketQueue.QueueOk, PruneDue, Linked, Distinct;
      Opens();
      Apart(hnodes, contents, k);
      found := SweepDueBucket(h, k, now, hopsLeft);
      ValidAt(k);
      OneIs(h, contents[k]);
    }

    /** One bucket of the immediate search. */
    method DueOf(h: Hnode, ghost k: nat, now: nat, hopsLeft: nat, ghost bs: seq<Bucket>) returns (found: Pnode?)
      requires Valid() && k < |hnodes| == |contents| == |bs| && h == hnodes[k]
      requires contents == PruneDueFirst(bs, k, now, hopsLeft)
      modifies h.queue, h.queue.nodes, `contents
      ensures Valid() && contents == PruneDueFirst(bs, k + 1, now, hopsLeft)
      ensures found != null ==>
                FirstReady(bs, k, now, hopsLeft) == k && contents == PruneDueUpTo(bs, k, now, hopsLeft)
                && found == NodeAt(h.queue.nodes, 0)
      ensures found == null ==> FirstReady(bs, k, now, hopsLeft) == FirstReady(bs, k + 1, now, hopsLeft)
      ensures forall n :: n in h.queue.nodes ==> n in old(h.queue.nodes)
      ensures forall j :: 0 <= j < |hnodes| && j != k ==> hnodes[j].queue.nodes == old(hnodes[j].queue.nodes)
    {
      hide Valid, PruneDue, PruneDueFirst, PruneDueUpTo, FirstReady, Ready, HoldsOne, PacketQueue.QueueOk, Pnodes;
      hide Datas, Linked, Distinct;
      found := SweepDueOne(h, k, now, hopsLeft);
      DueNext(bs, now, hopsLeft, k, contents);
    }

    /** A packet that may be sent now, from the first bucket that has one. */
    method SearchNow(now: nat, hopsLeft: nat) returns (ret: Pnode?)
      requires Valid()
      modifies `contents, Queues(hnodes), Pnodes(hnodes)
      ensures Valid() && |hnodes| == |contents|
      ensures var k := FirstReady(old(contents), 0, now, hopsLeft);
              && contents == PruneDueUpTo(old(contents), k, now, hopsLeft)
              && ret == if k < |hnodes| then NodeAt(hnodes[k].queue.nodes, 0) else null
      ensures Pnodes(hnodes) <= old(Pnodes(hnodes))
    {
      hide Valid, PruneDue, HoldsOne, PacketQueue.QueueOk, Pnodes, Datas, Place, Linked, Distinct, Expired;
      ValidAt(0);
      PnodesHave(hnodes);
      ghost var all := Pnodes(hnodes);
      ghost var bs, i := contents, 0;
      DueNone(bs, now, hopsLeft);
      DueEnd(bs, now, hopsLeft);
      hide PruneDueFirst, PruneDueUpTo, FirstReady, Ready;
      var curr := head;
      while curr != null
        invariant Valid() && 0 <= i <= |hnodes| == |contents| == |bs| && curr == HnodeAt(hnodes, i)
        invariant contents == PruneDueFirst(bs, i, now, hopsLeft)
        invariant FirstReady(bs, 0, now, hopsLeft) == FirstReady(bs, i, now, hopsLeft)
        invariant forall j, n :: 0 <= j < |hnodes| && n in hnodes[j].queue.nodes ==> n in all
        invariant forall j :: i <= j < |hnodes| ==> hnodes[j].queue.nodes == old(hnodes[j].queue.nodes)
        decreases |hnodes| - i
      {
        ValidAt(i);
        assert curr.queue in Queues(hnodes);
        var found := DueOf(curr, i, now, hopsLeft, bs);
        if found != null {
          PnodesWithin(hnodes, all);
          return found;
        }
        i := i + 1;
        curr := curr.nextHnode;
      }
      PnodesWithin(hnodes, all);
      return null;
    }
  }

  ghost function Objects(list: HnodeList, hs: seq<Hnode>, ns: set<Pnode>): set<object> {
    {list} + (set h: Hnode | h in hs) + Queues(hs) + ns
  }

  lemma ObjectsSpliced(list: HnodeList, hs: seq<Hnode>, k: nat, h: Hnode, ns: set<Pnode>, ns': set<Pnode>)
    requires k <= |hs| && ns' <= ns
    ensures Objects(list, Splice(hs, k, h), ns') <= Objects(list, hs, ns) + {h, h.queue}
  {
    var r := Splice(hs, k, h);
    forall x | x in r ensures x == h || x in hs {
      var i :| 0 <= i < |r| && r[i] == x;
      if i != k {
        assert x == hs[if i < k then i else i - 1];
      }
    }
    forall q | q in Queues(r) ensures q == h.queue || q in Queues(hs) {
      var i :| 0 <= i < |r| && r[i].queue == q;
      if i != k {
        assert q == hs[if i < k then i else i - 1].queue;
      }
    }
  }

  lemma PlaceOn(bs: seq<Bucket>, budget: nat, k: nat, from: nat, to: nat)
    requires k < |bs| && bs[k].start == from && to == from + LQB_RANGE - 1
    requires !(from <= budget < to) && !(budget < from)
    ensures Place(bs, budget, k) == Place(bs, budget, k + 1)
  {
  }

  lemma PlaceHere(bs: seq<Bucket>, budget: nat, k: nat)
    requires k <= |bs| && (k < |bs| ==> Covers(bs[k], budget) || budget < bs[k].start)
    ensures Place(bs, budget, k) == k
  {
  }

  lemma SplicedAt(hs: seq<Hnode>, k: nat, h: Hnode)
    requires k <= |hs|
    ensures |Splice(hs, k, h)| == |hs| + 1 && Splice(hs, k, h)[k] == h
  {
  }

  lemma OneIs(h: Hnode, b: Bucket)
    requires HoldsOne(h, b)
    ensures h.queue.QueueOk() && b == Bucket(h.rangeStart, Datas(h.queue.nodes))
    ensures h.rangeEnd == h.rangeStart + LQB_RANGE - 1
  {
  }

  lemma PnodesHave(hs: seq<Hnode>)
    ensures forall i, n :: 0 <= i < |hs| && n in hs[i].queue.nodes ==> n in Pnodes(hs)
  {
  }

  lemma PnodesWithin(hs: seq<Hnode>, all: set<Pnode>)
    requires forall i, n :: 0 <= i < |hs| && n in hs[i].queue.nodes ==> n in all
    ensures Pnodes(hs) <= all
  {
  }

  lemma AtOr(hs: seq<Hnode>, k: int)
    ensures 0 <= k < |hs| ==> HnodeAt(hs, k) == hs[k]
    ensures k >= |hs| ==> HnodeAt(hs, k) == null
  {
  }

  lemma FoundBucket(bs: seq<Bucket>, budget: nat, k: nat)
    requires k == Place(bs, budget, 0) && k < |bs| && Covers(bs[k], budget)
    ensures WithBucket(bs, budget) == bs
  {
  }

  lemma NotFoundBucket(bs: seq<Bucket>, budget: nat, k: nat)
    requires k == Place(bs, budget, 0) && !(k < |bs| && Covers(bs[k], budget))
    ensures WithBucket(bs, budget) == Splice(bs, k, NewBucket(budget, []))
  {
  }

  lemma NewHolds(h: Hnode, budget: nat)
    requires h.queue.QueueOk() && h.queue.nodes == []
    requires h.rangeStart == budget - budget % LQB_RANGE && h.rangeEnd == h.rangeStart + LQB_RANGE - 1
    ensures HoldsOne(h, NewBucket(budget, []))
  {
  }

  lemma FirstAt(hs: seq<Hnode>, h: Hnode)
    ensures HnodeAt(Splice(hs, 0, h), 0) == h
  {
  }

  lemma StillFirst(hs: seq<Hnode>, k: nat, h: Hnode)
    requires 0 < k <= |hs|
    ensures HnodeAt(Splice(hs, k, h), 0) == HnodeAt(hs, 0)
  {
  }

  lemma OnlyAt<T>(s: seq<T>, k: nat)
    requires Distinct(s) && k < |s|
    ensures forall i :: 0 <= i < |s| && i != k ==> s[i] != s[k]
  {
  }

  lemma LinksOf(hs: seq<Hnode>)
    requires Linked(hs)
    ensures forall i :: 0 <= i < |hs| ==> hs[i].nextHnode == HnodeAt(hs, i + 1)
  {
  }

  lemma ChainSpliced(hs: seq<Hnode>, k: nat, h: Hnode)
    requires k <= |hs| && Distinct(hs) && h !in hs
    requires k > 0 ==> hs[k - 1].nextHnode == h
    requires h.nextHnode == HnodeAt(hs, k)
    requires forall j :: 0 <= j < |hs| && j != k - 1 ==> hs[j].nextHnode == HnodeAt(hs, j + 1)
    ensures Linked(Splice(hs, k, h))
  {
    var r := Splice(hs, k, h);
    forall j | 0 <= j < |r| ensures r[j].nextHnode == HnodeAt(r, j + 1) {
      if j < k {
        assert r[j] == hs[j];
      } else if j > k {
        assert r[j] == hs[j - 1];
      }
    }
  }
}
