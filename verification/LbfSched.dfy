/** `lbf_enqueue` and the delay accounting of `lbf_dequeue`: the contract is rewritten in
    the packet and the packet put into the bucket list. */
module LbfSched {
  import opened LbfModel
  import opened Options
  import opened LbfDelay
  import opened LbfUnits
  import opened LbfQueue
  import LbfRuns
  import LbfWindow

  /** The contract in a packet, in network byte order. */
  class Header {
    var minDelay: u16
    var maxDelay: u16
    var experiencedDelay: u16
    var fibTodelay: u16
    var fibTohops: u16

    constructor (c: Contract)
      ensures Value() == c
    {
      minDelay, maxDelay := c.minDelay, c.maxDelay;
      experiencedDelay, fibTodelay, fibTohops := c.experienced, c.todelay, c.tohops;
    }

    ghost function Value(): Contract
      reads this
    {
      Contract(minDelay, maxDelay, experiencedDelay, fibTodelay, fibTohops)
    }

    /** The first part of `lbf_enqueue`: no delay is charged for the hop itself, and the
        budgets are worked out. */
    method Weigh() returns (total: nat, maxDelay: u16, lqmin: u16, lqmax: u16)
      modifies this`experiencedDelay, this`fibTodelay
      ensures Value() == old(Value())
      ensures total == Value().Total() && maxDelay == Value().Max()
      ensures lqmin == LqMin(Value()) && lqmax == LqMax(Value())
      ensures total == Swap(experiencedDelay) + Swap(fibTodelay) * 10 % 0x1_0000
      ensures maxDelay == Swap(this.maxDelay) * 10 % 0x1_0000
      ensures 0 < Swap(fibTohops) && (maxDelay > 0 ==> total <= maxDelay) ==>
                && lqmin == (var min := Swap(minDelay) * 10 % 0x1_0000;
                             if min > total then min - total else 0) / Swap(fibTohops)
                && lqmax == if maxDelay > 0 then (maxDelay - total) / Swap(fibTohops) else 10000
    {
      hide MinDelay, MaxDelay, Swap;
      SwapTwice(experiencedDelay);
      SwapTwice(fibTodelay);
      var hDelay: u16 := 0;
      experiencedDelay := Swap(U16(Swap(experiencedDelay) + hDelay * 10));
      fibTodelay := Swap(U16(Swap(fibTodelay) - hDelay));
      var eDelayNew, minDelay := Swap(experiencedDelay), U16(Swap(minDelay) * 10);
      maxDelay := U16(Swap(this.maxDelay) * 10);
      var todelay, tohops := U16(Swap(fibTodelay) * 10), Swap(fibTohops);
      lqmin := MinDelay(eDelayNew, minDelay, todelay, tohops);
      lqmax := MaxDelay(eDelayNew, maxDelay, todelay, tohops);
      total := (eDelayNew as int) + todelay;
      if 0 < tohops && (maxDelay > 0 ==> total <= maxDelay) {
        SharesAre(Value());
      }
    }

    /** Dequeueing adds the time in the queue to the experienced delay. */
    method AddDelay(held: nat)
      modifies this`experiencedDelay
      ensures Value().Experienced() == U16(old(Value().Experienced()) + Units(held))
      ensures Swap(experiencedDelay) == (Swap(old(experiencedDelay)) + held / 100000) % 0x1_0000
      ensures Value() == old(Value()).(experienced := Value().experienced)
    {
      UnitsAre(held);
      SwapTwice(U16(Swap(experiencedDelay) + Units(held)));
      var delay := held / 1000;
      experiencedDelay := Swap(U16(Swap(experiencedDelay) + delay / 100));
    }
  }

  class Scheduler {
    var hnodeList: HnodeList?
    /** The hop count of the last packet to arrive, in network byte order. */
    var hopsLeft: u16
    /** All that has happened so far. */
    ghost var ops: seq<LbfRuns.Op>

    constructor ()
      ensures Valid() && ops == [] && Buckets() == [] && hnodeList == null
    {
      hnodeList, hopsLeft, ops := null, 0, [];
    }

    /** The linked lists are sound, and hold what the run so far leaves. */
    ghost predicate Valid()
      reads this, hnodeList, Listed()
    {
      Linked() && Buckets() == LbfRuns.Run(ops) && hopsLeft == LbfRuns.HopsLeft(ops)
    }

    ghost predicate Linked()
      reads this, hnodeList, Listed()
    {
      hnodeList != null ==> hnodeList.Valid()
    }

    /** The objects of the bucket list. */
    ghost function Listed(): set<object>
      reads this, hnodeList, if hnodeList == null then {} else Queues(hnodeList.hnodes)
    {
      if hnodeList == null then {} else hnodeList.Footprint()
    }

    ghost function Buckets(): seq<Bucket>
      reads this, hnodeList
    {
      if hnodeList == null then [] else hnodeList.contents
    }

    /** Judges a packet by its contract, counts its hop down, and queues it by its slack
        if it can still make it; `now` is the clock. */
    method Enqueue(lbf: Header, skb: nat, trcv: nat, now: nat) returns (v: Verdict)
      requires Valid()
      modifies this, lbf`fibTohops, lbf`experiencedDelay, lbf`fibTodelay
      modifies Listed()
      ensures Valid() && v == Judge(old(lbf.Value()), now) && lbf.Value() == Counted(old(lbf.Value()))
      ensures v == Window(Swap(lbf.minDelay), Swap(lbf.maxDelay), Swap(old(lbf.experiencedDelay)),
                          Swap(old(lbf.fibTodelay)), Swap(old(lbf.fibTohops)), now)
      ensures ops == old(ops) + LbfWindow.Arrival(old(lbf.Value()), now, trcv, skb)
    {
      hide Judge, Counted, LbfModel.Enqueue, LbfRuns.Run, LbfRuns.HopsLeft, LbfRuns.Apply, HnodeList.Valid;
      hide Window, Swap;
      ghost var c, arrival := lbf.Value(), LbfWindow.Arrival(lbf.Value(), now, trcv, skb);
      JudgeIsWindow(c, now);
      ArrivalStep(ops, c, now, trcv, skb);
      v := Queue(lbf, skb, trcv, now);
      Note(arrival);
    }

    /** The run goes on. */
    ghost method Note(more: seq<LbfRuns.Op>)
      requires Linked()
      modifies this`ops
      ensures Linked() && Buckets() == old(Buckets()) && ops == old(ops) + more
    {
      ops := ops + more;
    }

    /** The arrival as it happens to the lists. */
    method Queue(lbf: Header, skb: nat, trcv: nat, now: nat) returns (v: Verdict)
      requires Linked()
      modifies this`hopsLeft, this`hnodeList, lbf`fibTohops, lbf`experiencedDelay, lbf`fibTodelay
      modifies Listed()
      ensures Linked() && v == Judge(old(lbf.Value()), now) && lbf.Value() == Counted(old(lbf.Value()))
      ensures Buckets() == if v.Queued?
                           then LbfModel.Enqueue(old(Buckets()), v.budget, LbfModel.Packet(v.tmin, v.tmax, trcv, skb))
                           else old(Buckets())
      ensures hopsLeft == if v.NoHops? then old(hopsLeft) else lbf.fibTohops
    {
      hide Judge, Counted, LbfModel.Enqueue, HnodeList.Valid;
      v := Admit(lbf, now);
      match v {
        case Queued(lqbudget, tmin, tmax) => Put(lqbudget, LbfModel.Packet(tmin, tmax, trcv, skb));
        case _ =>
      }
    }

    /** The contract is counted down and judged. */
    method Admit(lbf: Header, now: nat) returns (v: Verdict)
      modifies this`hopsLeft, lbf`fibTohops, lbf`experiencedDelay, lbf`fibTodelay
      ensures v == Judge(old(lbf.Value()), now) && lbf.Value() == Counted(old(lbf.Value()))
      ensures hopsLeft == if v.NoHops? then old(hopsLeft) else lbf.fibTohops
    {
      hide LqMin, LqMax, Swap, CountDown, U64, Contract.Total, Contract.Max;
      if lbf.fibTohops <= 0 {
        return NoHops;
      }
      var total, maxDelay, lqmin, lqmax := lbf.Weigh();
      lbf.fibTohops := CountDown(lbf.fibTohops);
      hopsLeft := lbf.fibTohops;
      var lqbudget: u16 := LQB_BESTEFFORT;
      if maxDelay > 0 {
        lqbudget := U16(lqmax - lqmin);
        if total > maxDelay {
          return TooLate;
        }
      }
      v := Queued(lqbudget, U64(now + lqmin * UNIT), U64(now + lqmax * UNIT));
    }

    /** The list is made for the first packet. */
    method Put(lqbudget: u16, p: LbfModel.Packet)
      requires Linked()
      modifies this`hnodeList, Listed()
      ensures Linked() && Buckets() == LbfModel.Enqueue(old(Buckets()), lqbudget, p)
    {
      hide LbfModel.Enqueue, HnodeList.Valid, HnodeList.Footprint;
      if hnodeList == null {
        MakeList();
      }
      NotListed();
      hnodeList.Enqueue(lqbudget, p);
    }

    /** The part of `lbf_dequeue` that sends a packet whose time has come: the immediate
        search, and the removal of what it finds. */
    method SendNow(now: nat) returns (r: Option<LbfModel.Packet>)
      requires Valid()
      modifies this`ops, Listed()
      ensures Valid() && ops == old(ops) + [LbfRuns.SendNow(now)]
      ensures LbfRuns.SentBy(old(Buckets()), hopsLeft, LbfRuns.SendNow(now))
              == if r == None then multiset{} else multiset{r.value}
    {
      hide HnodeList.Valid, LbfRuns.Run, LbfRuns.HopsLeft, LbfRuns.Apply, LbfRuns.SentBy;
      RunExtends(ops, [LbfRuns.SendNow(now)]);
      r := Send(now);
      Note([LbfRuns.SendNow(now)]);
    }

    method Send(now: nat) returns (r: Option<LbfModel.Packet>)
      requires Linked()
      modifies Listed()
      ensures Linked() && Buckets() == LbfRuns.Apply(old(Buckets()), hopsLeft, LbfRuns.SendNow(now))
      ensures LbfRuns.SentBy(old(Buckets()), hopsLeft, LbfRuns.SendNow(now))
              == if r == None then multiset{} else multiset{r.value}
    {
      hide HnodeList.Valid, HnodeList.Footprint, FirstReady, PruneDueUpTo;
      if hnodeList == null {
        NothingToSend(now, hopsLeft);
        return None;
      }
      NotListed();
      r := SendFrom(hnodeList, now);
    }

    lemma NotListed()
      requires hnodeList != null
      ensures this !in hnodeList.Footprint()
    {
    }

    method MakeList()
      requires hnodeList == null
      modifies this`hnodeList
      ensures hnodeList != null && hnodeList.Valid() && hnodeList.contents == []
      ensures forall o :: o in hnodeList.Footprint() ==> fresh(o)
    {
      hide HoldsOne;
      hnodeList := new HnodeList();
    }

    method SendFrom(list: HnodeList, now: nat) returns (r: Option<LbfModel.Packet>)
      requires list.Valid()
      modifies list.Footprint()
      ensures list.Valid() && list.contents == LbfRuns.Apply(old(list.contents), hopsLeft, LbfRuns.SendNow(now))
      ensures LbfRuns.SentBy(old(list.contents), hopsLeft, LbfRuns.SendNow(now))
              == if r == None then multiset{} else multiset{r.value}
    {
      hide HnodeList.Valid, HoldsOne, PacketQueue.QueueOk, FirstReady, PruneDueUpTo, PruneDue;
      hide LbfRuns.Apply, LbfRuns.SentBy;
      ghost var bs, k := list.contents, FirstReady(list.contents, 0, now, hopsLeft);
      var pnode := list.SearchNow(now, hopsLeft);
      Sends(bs, now, hopsLeft);
      if k < |bs| {
        list.ValidAt(k);
        OneIs(list.hnodes[k], list.contents[k]);
        list.InFootprint(k);
      }
      if pnode == null {
        return None;
      }
      r := Some(pnode.Data());
      list.RemovePnode(pnode, k);
    }
  }

  /** A run that goes on by at most one operation. */
  lemma RunExtends(ops: seq<LbfRuns.Op>, more: seq<LbfRuns.Op>)
    requires |more| <= 1
    ensures LbfRuns.Run(ops + more)
            == if more == [] then LbfRuns.Run(ops)
               else LbfRuns.Apply(LbfRuns.Run(ops), LbfRuns.HopsLeft(ops), more[0])
    ensures LbfRuns.HopsLeft(ops + more)
            == if more != [] && (more[0].Arrive? || more[0].Refuse?) then more[0].hopsLeft else LbfRuns.HopsLeft(ops)
  {
    if more == [] {
      assert ops + more == ops;
    } else {
      assert (ops + more)[..|ops|] == ops;
    }
  }

  /** What an arrival means for the run. */
  lemma ArrivalStep(ops: seq<LbfRuns.Op>, c: Contract, now: nat, trcv: nat, skb: nat)
    ensures var v, more := Judge(c, now), ops + LbfWindow.Arrival(c, now, trcv, skb);
            && LbfRuns.Run(more) == (if v.Queued? then
                  LbfModel.Enqueue(LbfRuns.Run(ops), v.budget, LbfModel.Packet(v.tmin, v.tmax, trcv, skb))
                else LbfRuns.Run(ops))
            && LbfRuns.HopsLeft(more) == (if v.NoHops? then LbfRuns.HopsLeft(ops) else Counted(c).tohops)
  {
    hide Judge, Counted, LbfModel.Enqueue, LbfRuns.Run, LbfRuns.HopsLeft;
    RunExtends(ops, LbfWindow.Arrival(c, now, trcv, skb));
  }

  /** What an immediate search is followed by. */
  lemma Sends(bs: seq<Bucket>, now: nat, hopsLeft: nat)
    ensures var op, k := LbfRuns.SendNow(now), FirstReady(bs, 0, now, hopsLeft);
            var found := PruneDueUpTo(bs, k, now, hopsLeft);
            if k < |bs| then
              && found[k].queue != []
              && LbfRuns.Apply(bs, hopsLeft, op) == found[k := found[k].(queue := found[k].queue[1..])]
              && LbfRuns.SentBy(bs, hopsLeft, op) == multiset{found[k].queue[0]}
            else LbfRuns.Apply(bs, hopsLeft, op) == found && LbfRuns.SentBy(bs, hopsLeft, op) == multiset{}
  {
    FirstReadySpec(bs, 0, now, hopsLeft);
  }

  lemma NothingToSend(now: nat, hopsLeft: nat)
    ensures LbfRuns.Apply([], hopsLeft, LbfRuns.SendNow(now)) == []
    ensures LbfRuns.SentBy([], hopsLeft, LbfRuns.SendNow(now)) == multiset{}
  {
  }
}
