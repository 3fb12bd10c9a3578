/** The global invariant of the reliable switch, and what it says about every handler. */
module CumulativeAckSafety {
  import opened Words
  import opened Rings
  import opened CumulativeAcks

  /** `load(psn)[i]` is what child i sends as PSN psn.  PSN 0 starts with the operation and the root rank, on which
      all children agree. */
  datatype Config = Config(fanIn: nat, len: nat, operation: Word, rootRank: Word, load: nat -> seq<Payload>)

  ghost predicate ValidConfig(c: Config) {
    && c.fanIn >= 1 && c.len >= 2
    && (forall q: nat {:trigger c.load(q)} :: |c.load(q)| == c.fanIn && Uniform(c.load(q), c.len))
    && (forall i :: 0 <= i < c.fanIn ==> c.load(0)[i][0] == c.operation && c.load(0)[i][1] == c.rootRank)
  }

  /** What a slot holds for psn when the children in `who` have arrived: the sum of their payloads, and for
      PSN 0 the operation and the root rank followed by the sum from word 2 on. */
  ghost function Partial(c: Config, psn: nat, who: set<nat>): (r: Payload)
    requires ValidConfig(c)
    ensures |r| == c.len
  {
    var sum := SumOf(c.load(psn), who, c.len);
    if psn == 0 then [c.operation, c.rootRank] + sum[2..] else sum
  }

  /** The result of psn: word by word the integer sum over all children modulo 2^32, except that words 0 and 1 of
      packet 0 are the operation and the root rank. */
  ghost predicate IsResult(c: Config, psn: nat, words: Payload)
    requires ValidConfig(c)
  {
    && |words| == c.len
    && forall k :: 0 <= k < c.len ==>
         words[k] == if psn == 0 && k == 0 then c.operation
                     else if psn == 0 && k == 1 then c.rootRank
                     else NatSum(c.load(psn), Ports(c.fanIn), c.len, k) % MODULUS
  }

  lemma AllAreResult(c: Config, psn: nat)
    requires ValidConfig(c)
    ensures IsResult(c, psn, Partial(c, psn, Ports(c.fanIn)))
  {
    forall k | 0 <= k < c.len
      ensures SumOf(c.load(psn), Ports(c.fanIn), c.len)[k]
           == NatSum(c.load(psn), Ports(c.fanIn), c.len, k) % MODULUS
    {
      SumIsNatSumModulo(c.load(psn), Ports(c.fanIn), c.len, k);
    }
  }

  /** Children that have delivered psn. */
  ghost function Past(s: State, psn: int): set<nat> {
    set i | 0 <= i < |s.aggEpsn| && s.aggEpsn[i] > psn
  }

  /** Children that have acknowledged psn. */
  ghost function Covered(s: State, psn: int): set<nat> {
    set i | 0 <= i < |s.latestAck| && s.latestAck[i] >= psn
  }

  /** The broadcast of psn still waits for an acknowledgement. */
  ghost predicate Held(s: State, psn: int) {
    psn < s.downEpsn && exists i :: 0 <= i < |s.latestAck| && s.latestAck[i] < psn
  }

  ghost predicate UpInv(c: Config, s: State, q: nat)
    requires ValidConfig(c) && Shaped(c.fanIn, s)
  {
    var slot := s.ups[Idx(q)];
    && slot.arrived == Past(s, q)
    && slot.degree == |Past(s, q)|
    && (if Past(s, q) == {} then !slot.buffer.used else slot.buffer == Buffer(true, q, Partial(c, q, Past(s, q))))
  }

  ghost predicate DownInv(c: Config, s: State, q: int)
    requires ValidConfig(c) && Shaped(c.fanIn, s)
  {
    var slot := s.downs[Idx(q)];
    if q >= 0 && Held(s, q) then
      && slot.arrived <= Covered(s, q)
      && slot.degree == |Covered(s, q)|
      && slot.buffer == Buffer(true, q, Partial(c, q, Ports(c.fanIn)))
    else slot == DOWN_FREE
  }

  ghost predicate EpsnInv(c: Config, s: State)
    requires Shaped(c.fanIn, s)
  {
    && (forall i :: 0 <= i < c.fanIn ==> s.downEpsn <= s.aggEpsn[i] <= s.downEpsn + N)
    && (exists i :: 0 <= i < c.fanIn && s.aggEpsn[i] == s.downEpsn)
    && s.downAck == s.downEpsn - 1
    && (forall i :: 0 <= i < c.fanIn ==> -1 <= s.latestAck[i] < s.downEpsn <= s.latestAck[i] + 1 + N)
  }

  ghost predicate Inv(c: Config, s: State) {
    && ValidConfig(c) && Shaped(c.fanIn, s) && EpsnInv(c, s)
    && (forall q: nat :: s.downEpsn <= q < s.downEpsn + N ==> UpInv(c, s, q))
    && (forall q: int :: s.downEpsn - N <= q < s.downEpsn ==> DownInv(c, s, q))
  }

  lemma InvInitially(c: Config)
    requires ValidConfig(c)
    ensures Inv(c, Init(c.fanIn))
  {
    var s := Init(c.fanIn);
    assert s.aggEpsn[0] == s.downEpsn;
    forall q: nat
      ensures UpInv(c, s, q)
    {
      assert Past(s, q) == {};
    }
  }

  // ----- Data from a child

  /** Every slot belongs to one sequence number of any window of N. */
  lemma SlotOfWindow(from: nat, psn: nat) returns (q: nat)
    ensures from <= q < from + N && Idx(q) == Idx(psn)
  {
    q := from + (psn - from) % N;
  }

  lemma DataFits(c: Config, s: State, id: nat, psn: nat)
    requires Inv(c, s) && id < c.fanIn
    ensures Fits(s.ups[Idx(psn)], c.load(psn)[id])
  {
    var q := SlotOfWindow(s.downEpsn, psn);
    assert UpInv(c, s, q);
  }

  lemma ArrivalAdds(c: Config, psn: nat, who: set<nat>, id: nat)
    requires ValidConfig(c) && id < c.fanIn && id !in who
    ensures AddArrival(psn, Partial(c, psn, who), c.load(psn)[id]) == Partial(c, psn, who + {id})
  {
    SumWithNewContributor(c.load(psn), who, c.len, id);
  }

  lemma FirstArrival(c: Config, psn: nat, id: nat)
    requires ValidConfig(c) && id < c.fanIn
    ensures c.load(psn)[id] == Partial(c, psn, {id})
  {
    SumOfOne(c.load(psn), c.len, id);
  }

  /** The state between the arrival of the next packet of child id and its completion check. */
  ghost function Absorbed(c: Config, s: State, id: nat): (r: State)
    requires ValidConfig(c) && Shaped(c.fanIn, s) && id < c.fanIn
    ensures Shaped(c.fanIn, r)
  {
    var psn := s.aggEpsn[id];
    var who := Past(s, psn) + {id};
    s.(aggEpsn := s.aggEpsn[id := psn + 1],
       ups := s.ups[Idx(psn) := UpSlot(who, |who|, Buffer(true, psn, Partial(c, psn, who)))])
  }

  lemma PastAfter(c: Config, s: State, id: nat, q: nat)
    requires ValidConfig(c) && Shaped(c.fanIn, s) && id < c.fanIn
    ensures Past(Absorbed(c, s, id), q) == Past(s, q) + if q == s.aggEpsn[id] then {id} else {}
  {
    var s' := Absorbed(c, s, id);
    forall i | 0 <= i < c.fanIn && i != id
      ensures s'.aggEpsn[i] == s.aggEpsn[i]
    {
    }
  }

  lemma AbsorbedUpInv(c: Config, s: State, id: nat, q: nat)
    requires Inv(c, s) && id < c.fanIn && s.aggEpsn[id] < s.downEpsn + N
    requires s.downEpsn <= q < s.downEpsn + N
    ensures UpInv(c, Absorbed(c, s, id), q)
  {
    PastAfter(c, s, id, q);
    assert UpInv(c, s, q);
    if Idx(q) == Idx(s.aggEpsn[id]) {
      SlotsAreDistinct(q, s.aggEpsn[id]);
    } else {
      assert Past(Absorbed(c, s, id), q) == Past(s, q);
    }
  }

  /** The next packet of child id completes its PSN. */
  ghost predicate Completes(c: Config, s: State, id: nat)
    requires Shaped(c.fanIn, s) && id < c.fanIn
  {
    forall i :: 0 <= i < c.fanIn && i != id ==> s.aggEpsn[i] > s.aggEpsn[id]
  }

  lemma CompletesIsFullDegree(c: Config, s: State, id: nat)
    requires Inv(c, s) && id < c.fanIn
    ensures Completes(c, s, id) <==> |Past(s, s.aggEpsn[id]) + {id}| == c.fanIn
    ensures Completes(c, s, id) ==> s.aggEpsn[id] == s.downEpsn && Past(s, s.aggEpsn[id]) + {id} == Ports(c.fanIn)
  {
    var who := Past(s, s.aggEpsn[id]) + {id};
    AllPorts(c.fanIn, who);
    if who == Ports(c.fanIn) {
      forall i | 0 <= i < c.fanIn && i != id
        ensures s.aggEpsn[i] > s.aggEpsn[id]
      {
        assert i in who;
      }
    }
    if Completes(c, s, id) {
      assert who == Ports(c.fanIn);
      var i :| 0 <= i < c.fanIn && s.aggEpsn[i] == s.downEpsn;
    }
  }

  /** `aggregate` up to the completion check. */
  lemma AggregateAbsorbs(c: Config, s: State, id: nat)
    requires Inv(c, s) && id < c.fanIn && s.aggEpsn[id] < s.downEpsn + N
    ensures var psn := s.aggEpsn[id];
            var slot := s.ups[Idx(psn)];
            && id !in slot.arrived
            && slot.degree == |Past(s, psn)|
            && Fits(slot, c.load(psn)[id])
            && (if slot.degree == 0 then c.load(psn)[id] else AddArrival(psn, slot.buffer.words, c.load(psn)[id]))
               == Partial(c, psn, Past(s, psn) + {id})
            && |Past(s, psn) + {id}| == slot.degree + 1
  {
    var psn := s.aggEpsn[id];
    assert UpInv(c, s, psn);
    if Past(s, psn) == {} {
      FirstArrival(c, psn, id);
      assert {} + {id} == {id};
    } else {
      ArrivalAdds(c, psn, Past(s, psn), id);
    }
  }

  lemma AbsorbedInv(c: Config, s: State, id: nat)
    requires Inv(c, s) && id < c.fanIn && s.aggEpsn[id] < s.downEpsn + N && !Completes(c, s, id)
    ensures Inv(c, Absorbed(c, s, id))
  {
    var s' := Absorbed(c, s, id);
    forall q: nat | s'.downEpsn <= q < s'.downEpsn + N
      ensures UpInv(c, s', q)
    {
      AbsorbedUpInv(c, s, id, q);
    }
    forall q: int | s'.downEpsn - N <= q < s'.downEpsn
      ensures DownInv(c, s', q)
    {
      assert DownInv(c, s, q);
      assert Covered(s', q) == Covered(s, q);
    }
    var i :| 0 <= i < c.fanIn && i != id && s.aggEpsn[i] <= s.aggEpsn[id];
    var m :| 0 <= m < c.fanIn && s.aggEpsn[m] == s.downEpsn;
    assert s'.aggEpsn[if m == id then i else m] == s'.downEpsn;
  }

  /** After the last child's packet: the aggregation slot is free again, the result is held. */
  ghost function Completed(c: Config, s: State, id: nat): (r: State)
    requires ValidConfig(c) && Shaped(c.fanIn, s) && id < c.fanIn
    ensures Shaped(c.fanIn, r)
  {
    var d := s.downEpsn;
    var a := Absorbed(c, s, id);
    a.(downEpsn := d + 1, downAck := d, ups := a.ups[Idx(d) := UP_FREE],
       downs := a.downs[Idx(d) := DOWN_FREE.(buffer := Buffer(true, d, Partial(c, d, Ports(c.fanIn))))])
  }

  lemma ReleaseStops(ups: seq<UpSlot>, d: nat)
    requires |ups| == N && ups[Idx(d)].buffer.used && ups[Idx(d)].buffer.psn == d
    requires d > 0 ==> !(ups[Idx(d - 1)].buffer.used && ups[Idx(d - 1)].buffer.psn == d - 1)
    ensures ReleaseUp(ups, d) == ups[Idx(d) := UP_FREE]
  {
    assert Idx(d - 1) != Idx(d);
  }

  lemma OneRingOn(d: int)
    ensures Idx(d + N) == Idx(d)
  {
  }

  lemma Neighbours(d: int)
    ensures Idx(d - 1 + N) == Idx(d - 1) != Idx(d)
    ensures Idx(d - N) == Idx(d) == Idx(d + N)
  {
    OneRingOn(d - 1);
    OneRingOn(d);
    OneRingOn(d - N);
    if Idx(d - 1) == Idx(d) {
      SlotsAreDistinct(d - 1, d);
    }
  }

  /** The slot below the oldest unfinished PSN does not hold that PSN's predecessor any more. */
  lemma PredecessorReleased(c: Config, s: State)
    requires Inv(c, s) && s.downEpsn > 0
    ensures var slot := s.ups[Idx(s.downEpsn - 1)];
            !(slot.buffer.used && slot.buffer.psn == s.downEpsn - 1)
  {
    Neighbours(s.downEpsn);
    assert UpInv(c, s, s.downEpsn - 1 + N);
  }

  /** The downward walk frees the completed slot and stops at the very next one. */
  lemma ReleaseFreesOne(c: Config, s: State, id: nat)
    requires Inv(c, s) && id < c.fanIn && Completes(c, s, id)
    ensures ReleaseUp(Absorbed(c, s, id).ups, s.downEpsn) == Absorbed(c, s, id).ups[Idx(s.downEpsn) := UP_FREE]
  {
    var d := s.downEpsn;
    CompletesIsFullDegree(c, s, id);
    if d > 0 {
      PredecessorReleased(c, s);
      Neighbours(d);
    }
    ReleaseStops(Absorbed(c, s, id).ups, d);
  }

  lemma OtherSlot(d: int, q: int)
    requires d < q < d + N || q < d < q + N
    ensures Idx(q) != Idx(d)
  {
  }

  lemma CompletedUpInv(c: Config, s: State, id: nat, q: nat)
    requires Inv(c, s) && id < c.fanIn && Completes(c, s, id)
    requires s.downEpsn + 1 <= q < s.downEpsn + 1 + N
    ensures UpInv(c, Completed(c, s, id), q)
  {
    var d := s.downEpsn;
    assert s.aggEpsn[id] == d by { CompletesIsFullDegree(c, s, id); }
    if q < d + N {
      AbsorbedUpInv(c, s, id, q);
      OtherSlot(d, q);
      assert Past(Completed(c, s, id), q) == Past(Absorbed(c, s, id), q);
    } else {
      Neighbours(d);
      assert Past(Completed(c, s, id), q) == {};
    }
  }

  lemma CompletedDownInv(c: Config, s: State, id: nat, q: int)
    requires Inv(c, s) && id < c.fanIn && Completes(c, s, id)
    requires s.downEpsn + 1 - N <= q < s.downEpsn + 1
    ensures DownInv(c, Completed(c, s, id), q)
  {
    var d := s.downEpsn;
    var s' := Completed(c, s, id);
    assert Covered(s', q) == Covered(s, q);
    if q == d {
      assert Covered(s', q) == {};
      assert s'.latestAck[0] < q;
    } else {
      assert DownInv(c, s, q);
      OtherSlot(d, q);
    }
  }

  lemma CompletedInv(c: Config, s: State, id: nat)
    requires Inv(c, s) && id < c.fanIn && Completes(c, s, id) && !Held(s, s.downEpsn - N)
    ensures Inv(c, Completed(c, s, id))
  {
    var s' := Completed(c, s, id);
    CompletesIsFullDegree(c, s, id);
    forall q: nat | s'.downEpsn <= q < s'.downEpsn + N
      ensures UpInv(c, s', q)
    {
      CompletedUpInv(c, s, id, q);
    }
    forall q: int | s'.downEpsn - N <= q < s'.downEpsn
      ensures DownInv(c, s', q)
    {
      CompletedDownInv(c, s, id, q);
    }
    assert s'.aggEpsn[id] == s'.downEpsn;
  }

  /** The whole effect of a data packet, and exactly when each C assertion fires: the ring check when the
      child is a full ring ahead of the slowest child, the broadcast check when completing PSN d while some
      child has not acknowledged d - N.  `assert(psn == down_epsn)` never fires. */
  ghost function DataOutcome(c: Config, s: State, id: nat, psn: nat): Outcome
    requires ValidConfig(c) && Shaped(c.fanIn, s) && id < c.fanIn
  {
    if psn < s.aggEpsn[id] then Went(s, [Ack(id, s.aggEpsn[id] - 1)])
    else if psn > s.aggEpsn[id] then Went(s, [Nak(id, s.aggEpsn[id])])
    else if psn == s.downEpsn + N then RingOverrun
    else if !Completes(c, s, id) then Went(Absorbed(c, s, id), [Ack(id, psn)])
    else if Held(s, psn - N) then ResultUnfreed
    else Went(Completed(c, s, id), [Ack(id, psn)] + ToAll(c.fanIn, psn, Partial(c, psn, Ports(c.fanIn))))
  }

  lemma RingCheck(c: Config, s: State, id: nat)
    requires Inv(c, s) && id < c.fanIn && s.aggEpsn[id] == s.downEpsn + N
    ensures id in s.ups[Idx(s.aggEpsn[id])].arrived
  {
    assert UpInv(c, s, s.downEpsn);
  }

  lemma BroadcastCheck(c: Config, s: State)
    requires Inv(c, s)
    ensures s.downs[Idx(s.downEpsn)].buffer.used <==> Held(s, s.downEpsn - N)
    ensures !Held(s, s.downEpsn - N) ==> s.downs[Idx(s.downEpsn)] == DOWN_FREE
  {
    assert DownInv(c, s, s.downEpsn - N);
    assert Idx(s.downEpsn - N) == Idx(s.downEpsn);
  }

  lemma DataStep(c: Config, s: State, id: nat, psn: nat)
    requires Inv(c, s) && id < c.fanIn
    ensures Fits(s.ups[Idx(psn)], c.load(psn)[id])
    ensures OnData(c.fanIn, s, id, psn, c.load(psn)[id]) == DataOutcome(c, s, id, psn)
  {
    DataFits(c, s, id, psn);
    if psn == s.aggEpsn[id] {
      if psn == s.downEpsn + N {
        RingCheck(c, s, id);
      } else {
        NextDataStep(c, s, id);
      }
    }
  }

  /** Child id's next packet noted as arrived, before it is added. */
  ghost function Noted(s: State, id: nat): (r: State)
    requires id < |s.aggEpsn| && |s.ups| == N
    ensures |r.ups| == N && |r.aggEpsn| == |s.aggEpsn|
  {
    var k := Idx(s.aggEpsn[id]);
    s.(aggEpsn := s.aggEpsn[id := s.aggEpsn[id] + 1], ups := s.ups[k := s.ups[k].(arrived := s.ups[k].arrived + {id})])
  }

  /** The same with the packet added: what `aggregate` makes of it before the completion check. */
  lemma NotedIsAbsorbed(c: Config, s: State, id: nat, slot: UpSlot)
    requires Inv(c, s) && id < c.fanIn && s.aggEpsn[id] < s.downEpsn + N
    requires slot == UpSlot(Past(s, s.aggEpsn[id]) + {id}, |Past(s, s.aggEpsn[id]) + {id}|,
                            Buffer(true, s.aggEpsn[id], Partial(c, s.aggEpsn[id], Past(s, s.aggEpsn[id]) + {id})))
    ensures Noted(s, id).(ups := Noted(s, id).ups[Idx(s.aggEpsn[id]) := slot]) == Absorbed(c, s, id)
  {
    var k := Idx(s.aggEpsn[id]);
    assert Noted(s, id).ups[k := slot] == s.ups[k := slot];
  }

  /** `aggregate`, once what it makes of the slot is known. */
  lemma AggregateCases(fanIn: nat, s: State, psn: nat, data: Payload, a: State)
    requires Shaped(fanIn, s) && Shaped(fanIn, a) && Fits(s.ups[Idx(psn)], data)
    requires var slot := s.ups[Idx(psn)];
             var words := if slot.degree == 0 then data else AddArrival(psn, slot.buffer.words, data);
             a == s.(ups := s.ups[Idx(psn) := slot.(degree := slot.degree + 1, buffer := Buffer(true, psn, words))])
    ensures Aggregate(fanIn, s, psn, data) ==
            if a.ups[Idx(psn)].degree < fanIn || a.ups[Idx(psn)].degree > fanIn then Went(a, [])
            else if a.downs[Idx(psn)].buffer.used then ResultUnfreed
            else match Cache(fanIn, a, psn, a.ups[Idx(psn)].buffer.words)
                 case Went(s2, sent) => Went(DownAck(s2, psn), sent)
                 case stuck => stuck
  {
  }

  /** Child id's next packet, added to the slot that waits for it. */
  lemma NotedIsAdded(c: Config, s: State, id: nat)
    requires Inv(c, s) && id < c.fanIn && s.aggEpsn[id] < s.downEpsn + N
    ensures var psn := s.aggEpsn[id];
            var n, data := Noted(s, id), c.load(psn)[id];
            var slot := n.ups[Idx(psn)];
            && Fits(slot, data)
            && var words := if slot.degree == 0 then data else AddArrival(psn, slot.buffer.words, data);
               Absorbed(c, s, id)
               == n.(ups := n.ups[Idx(psn) := slot.(degree := slot.degree + 1, buffer := Buffer(true, psn, words))])
  {
    hide Partial, UpInv, DownInv, EpsnInv;
    AggregateAbsorbs(c, s, id);
    ArrivedSlot(c, s, id);
    NotedIsAbsorbed(c, s, id, Absorbed(c, s, id).ups[Idx(s.aggEpsn[id])]);
  }

  lemma AggregateStep(c: Config, s: State, id: nat)
    requires Inv(c, s) && id < c.fanIn && s.aggEpsn[id] < s.downEpsn + N
    ensures var psn := s.aggEpsn[id];
            && Fits(Noted(s, id).ups[Idx(psn)], c.load(psn)[id])
            && Aggregate(c.fanIn, Noted(s, id), psn, c.load(psn)[id]) ==
               if !Completes(c, s, id) then Went(Absorbed(c, s, id), [])
               else if Held(s, psn - N) then ResultUnfreed
               else Went(Completed(c, s, id), ToAll(c.fanIn, psn, Partial(c, psn, Ports(c.fanIn))))
  {
    hide Aggregate, Noted, Cache, DownAck, UpInv, DownInv, EpsnInv, Completed, Completes, Partial, Held;
    var psn := s.aggEpsn[id];
    NotedIsAdded(c, s, id);
    AggregateCases(c.fanIn, Noted(s, id), psn, c.load(psn)[id], Absorbed(c, s, id));
    CompletesIsFullDegree(c, s, id);
    if Completes(c, s, id) {
      BroadcastCheck(c, s);
      if !Held(s, psn - N) {
        CompletionStep(c, s, id);
      }
    }
  }

  lemma NextDataStep(c: Config, s: State, id: nat)
    requires Inv(c, s) && id < c.fanIn && s.aggEpsn[id] < s.downEpsn + N
    ensures Fits(s.ups[Idx(s.aggEpsn[id])], c.load(s.aggEpsn[id])[id])
    ensures OnData(c.fanIn, s, id, s.aggEpsn[id], c.load(s.aggEpsn[id])[id]) == DataOutcome(c, s, id, s.aggEpsn[id])
  {
    AggregateAbsorbs(c, s, id);
    AggregateStep(c, s, id);
  }

  lemma ArrivedSlot(c: Config, s: State, id: nat)
    requires Inv(c, s) && id < c.fanIn && s.aggEpsn[id] < s.downEpsn + N
    ensures s.ups[Idx(s.aggEpsn[id])].arrived == Past(s, s.aggEpsn[id])
  {
    assert UpInv(c, s, s.aggEpsn[id]);
  }

  lemma CompletionStep(c: Config, s: State, id: nat)
    requires Inv(c, s) && id < c.fanIn && Completes(c, s, id) && !Held(s, s.downEpsn - N)
    ensures var a := Absorbed(c, s, id);
            var words := Partial(c, s.downEpsn, Ports(c.fanIn));
            match Cache(c.fanIn, a, s.downEpsn, words)
            case Went(s2, sent) =>
              DownAck(s2, s.downEpsn) == Completed(c, s, id) && sent == ToAll(c.fanIn, s.downEpsn, words)
            case _ => false
  {
    BroadcastCheck(c, s);
    ReleaseFreesOne(c, s, id);
  }

  /** A data packet keeps the invariant unless it stops the switch. */
  lemma DataKeepsInv(c: Config, s: State, id: nat, psn: nat)
    requires Inv(c, s) && id < c.fanIn && DataOutcome(c, s, id, psn).Went?
    ensures Inv(c, DataOutcome(c, s, id, psn).state)
  {
    if psn == s.aggEpsn[id] {
      if Completes(c, s, id) {
        CompletesIsFullDegree(c, s, id);
        CompletedInv(c, s, id);
      } else {
        AbsorbedInv(c, s, id);
      }
    }
  }

  // ----- Acknowledgements from the children

  /** The walk credits each slot it passes once and leaves the others alone. */
  lemma {:induction false} AckWalkAt(fanIn: nat, downs: seq<DownSlot>, psn: int, stop: int, q: int)
    requires |downs| == N && stop < psn <= stop + N && psn - N < q <= psn
    ensures AckWalk(fanIn, downs, psn, stop)[Idx(q)] == if q > stop then Credit(fanIn, downs[Idx(q)]) else downs[Idx(q)]
    decreases psn - stop
  {
    var downs' := downs[Idx(psn) := Credit(fanIn, downs[Idx(psn)])];
    if q < psn {
      OtherSlot(psn, q);
      if psn - 1 > stop {
        AckWalkAt(fanIn, downs', psn - 1, stop, q);
      }
    } else if psn - 1 > stop {
      Neighbours(psn);
      AckWalkAt(fanIn, downs', psn - 1, stop, psn - N);
    }
  }

  /** Every slot of the window, whatever the position of the walk in it. */
  lemma AckWalkInWindow(fanIn: nat, downs: seq<DownSlot>, psn: int, stop: int, d: int, q: int)
    requires |downs| == N && d - N - 1 <= stop < psn < d && d - N <= q < d
    ensures AckWalk(fanIn, downs, psn, stop)[Idx(q)]
         == if stop < q <= psn then Credit(fanIn, downs[Idx(q)]) else downs[Idx(q)]
  {
    if q <= psn {
      AckWalkAt(fanIn, downs, psn, stop, q);
    } else {
      Neighbours(q);
      AckWalkAt(fanIn, downs, psn, stop, q - N);
    }
  }

  lemma CoveredAfter(s: State, id: nat, psn: int, q: int)
    requires id < |s.latestAck| && s.latestAck[id] <= psn
    ensures Covered(s.(latestAck := s.latestAck[id := psn]), q)
         == Covered(s, q) + if s.latestAck[id] < q <= psn then {id} else {}
  {
    var s' := s.(latestAck := s.latestAck[id := psn]);
    forall i | 0 <= i < |s.latestAck| && i != id
      ensures s'.latestAck[i] == s.latestAck[i]
    {
    }
  }

  lemma HeldIsUncovered(c: Config, s: State, q: int)
    requires ValidConfig(c) && Shaped(c.fanIn, s) && q < s.downEpsn
    ensures Held(s, q) <==> Covered(s, q) != Ports(c.fanIn)
    ensures Held(s, q) <==> |Covered(s, q)| < c.fanIn
  {
    AllPorts(c.fanIn, Covered(s, q));
    if Covered(s, q) != Ports(c.fanIn) {
      var i :| i in Ports(c.fanIn) && i !in Covered(s, q);
      assert s.latestAck[i] < q;
    } else {
      forall i | 0 <= i < c.fanIn
        ensures s.latestAck[i] >= q
      {
        assert i in Covered(s, q);
      }
    }
  }

  /** A credited slot counts one child more and is free once all children are counted. */
  lemma CreditKeepsInv(c: Config, s: State, id: nat, psn: int, q: int, marked: bool)
    requires Inv(c, s) && id < c.fanIn && s.downEpsn - N <= q < s.downEpsn
    requires s.latestAck[id] < q <= psn < s.downEpsn
    ensures var s' := s.(latestAck := s.latestAck[id := psn],
                         downs := s.downs[Idx(q) :=
                                    Credit(c.fanIn, if marked then Mark(s.downs[Idx(q)], id) else s.downs[Idx(q)])]);
            DownInv(c, s', q)
  {
    var slot := s.downs[Idx(q)];
    var slot' := Credit(c.fanIn, if marked then Mark(slot, id) else slot);
    var s' := s.(latestAck := s.latestAck[id := psn], downs := s.downs[Idx(q) := slot']);
    assert DownInv(c, s, q);
    assert Held(s, q);
    assert id !in Covered(s, q);
    CoveredAfter(s, id, psn, q);
    assert Covered(s', q) == Covered(s, q) + {id};
    HeldIsUncovered(c, s', q);
    AllPorts(c.fanIn, Covered(s', q));
  }

  /** DownInv looks at one slot and the acknowledgements only. */
  lemma DownInvSameSlot(c: Config, s: State, t: State, q: int)
    requires ValidConfig(c) && Shaped(c.fanIn, s) && Shaped(c.fanIn, t) && DownInv(c, s, q)
    requires t.downs[Idx(q)] == s.downs[Idx(q)] && t.latestAck == s.latestAck && t.downEpsn == s.downEpsn
    ensures DownInv(c, t, q)
  {
    assert Covered(t, q) == Covered(s, q);
  }

  lemma UncreditedKeepsInv(c: Config, s: State, t: State, id: nat, psn: int, q: int)
    requires Inv(c, s) && id < c.fanIn && s.downEpsn - N <= q < s.downEpsn && Shaped(c.fanIn, t)
    requires s.latestAck[id] < psn && !(s.latestAck[id] < q <= psn)
    requires t.downs[Idx(q)] == s.downs[Idx(q)] && t.latestAck == s.latestAck[id := psn] && t.downEpsn == s.downEpsn
    ensures DownInv(c, t, q)
  {
    assert DownInv(c, s, q);
    CoveredAfter(s, id, psn, q);
    assert Covered(t, q) == Covered(s, q);
    if q >= 0 {
      HeldIsUncovered(c, s, q);
      HeldIsUncovered(c, t, q);
    }
  }

  /** What a cumulative acknowledgement must do: the slots between the last and the new one are credited,
      the others are not touched. */
  ghost predicate CreditedBy(c: Config, s: State, t: State, id: nat, psn: int, marks: int -> bool)
    requires Shaped(c.fanIn, s) && Shaped(c.fanIn, t) && id < c.fanIn
  {
    && t == s.(downs := t.downs, latestAck := s.latestAck[id := psn])
    && forall q :: s.downEpsn - N <= q < s.downEpsn ==>
         t.downs[Idx(q)] == if s.latestAck[id] < q <= psn
                            then Credit(c.fanIn, if marks(q) then Mark(s.downs[Idx(q)], id) else s.downs[Idx(q)])
                            else s.downs[Idx(q)]
  }

  lemma CreditedKeepsInv(c: Config, s: State, t: State, id: nat, psn: int, marks: int -> bool)
    requires Inv(c, s) && Shaped(c.fanIn, t) && id < c.fanIn
    requires s.latestAck[id] < psn < s.downEpsn && CreditedBy(c, s, t, id, psn, marks)
    ensures Inv(c, t)
  {
    forall q: int | t.downEpsn - N <= q < t.downEpsn
      ensures DownInv(c, t, q)
    {
      if s.latestAck[id] < q <= psn {
        CreditKeepsInv(c, s, id, psn, q, marks(q));
        var s' := s.(latestAck := s.latestAck[id := psn],
                     downs := s.downs[Idx(q) :=
                                Credit(c.fanIn, if marks(q) then Mark(s.downs[Idx(q)], id) else s.downs[Idx(q)])]);
        DownInvSameSlot(c, s', t, q);
      } else {
        UncreditedKeepsInv(c, s, t, id, psn, q);
      }
    }
    forall q: nat | t.downEpsn <= q < t.downEpsn + N
      ensures UpInv(c, t, q)
    {
      assert UpInv(c, s, q);
      assert Past(t, q) == Past(s, q);
    }
    var m :| 0 <= m < c.fanIn && s.aggEpsn[m] == s.downEpsn;
    assert t.aggEpsn[m] == t.downEpsn;
  }

  /** A cumulative acknowledgement for psn: exactly the slots the child had not acknowledged yet are
      credited, and nothing else happens. */
  lemma AckStep(c: Config, s: State, id: nat, psn: int)
    requires Inv(c, s) && id < c.fanIn && -1 <= psn < s.downEpsn
    ensures var o := OnAck(c.fanIn, s, id, psn);
            && o.Went? && o.sent == [] && Shaped(c.fanIn, o.state) && Inv(c, o.state)
            && (psn <= s.latestAck[id] ==> o.state == s)
            && (psn > s.latestAck[id] ==> CreditedBy(c, s, o.state, id, psn, q => q == psn))
  {
    if psn > s.latestAck[id] {
      var k := Idx(psn);
      assert DownInv(c, s, psn);
      assert Held(s, psn);
      var downs := s.downs[k := Mark(s.downs[k], id)];
      var t := OnAck(c.fanIn, s, id, psn).state;
      forall q: int | s.downEpsn - N <= q < s.downEpsn
        ensures t.downs[Idx(q)] == if s.latestAck[id] < q <= psn
                                   then Credit(c.fanIn, if q == psn then Mark(s.downs[Idx(q)], id) else s.downs[Idx(q)])
                                   else s.downs[Idx(q)]
      {
        AckWalkInWindow(c.fanIn, downs, psn, s.latestAck[id], s.downEpsn, q);
        if q != psn {
          OtherSlot(psn, q);
        }
      }
      CreditedKeepsInv(c, s, t, id, psn, q => q == psn);
    }
  }

  // ----- Negative acknowledgements and resending

  ghost predicate Creditable(downs: seq<DownSlot>, id: nat, tmp: int, stop: int)
    requires |downs| == N
  {
    forall q :: stop < q <= tmp ==> id !in downs[Idx(q)].arrived && downs[Idx(q)].buffer.psn == q
  }

  /** The marking walk ends, having credited and marked each slot it passes once. */
  lemma {:induction false} NakWalkAt(fanIn: nat, downs: seq<DownSlot>, id: nat, tmp: int, stop: int, q: int)
    requires |downs| == N && stop < tmp <= stop + N && tmp - N < q <= tmp && Creditable(downs, id, tmp, stop)
    ensures var w := NakWalk(fanIn, downs, id, tmp, stop);
            && w.Walked?
            && w.downs[Idx(q)] == if q > stop then Credit(fanIn, Mark(downs[Idx(q)], id)) else downs[Idx(q)]
    decreases tmp - stop
  {
    assert id !in downs[Idx(tmp)].arrived && downs[Idx(tmp)].buffer.psn == tmp;
    var downs' := downs[Idx(tmp) := Credit(fanIn, Mark(downs[Idx(tmp)], id))];
    if tmp - 1 > stop {
      forall p | stop < p <= tmp - 1
        ensures id !in downs'[Idx(p)].arrived && downs'[Idx(p)].buffer.psn == p
      {
        OtherSlot(tmp, p);
      }
      Neighbours(tmp);
      NakWalkAt(fanIn, downs', id, tmp - 1, stop, if q < tmp then q else tmp - N);
    }
    if q < tmp {
      OtherSlot(tmp, q);
    }
  }

  lemma NakWalkInWindow(fanIn: nat, downs: seq<DownSlot>, id: nat, tmp: int, stop: int, d: int, q: int)
    requires |downs| == N && d - N - 1 <= stop < tmp < d && d - N <= q < d && Creditable(downs, id, tmp, stop)
    ensures var w := NakWalk(fanIn, downs, id, tmp, stop);
            && w.Walked?
            && w.downs[Idx(q)] == if stop < q <= tmp then Credit(fanIn, Mark(downs[Idx(q)], id)) else downs[Idx(q)]
  {
    if q <= tmp {
      NakWalkAt(fanIn, downs, id, tmp, stop, q);
    } else {
      Neighbours(q);
      NakWalkAt(fanIn, downs, id, tmp, stop, q - N);
    }
  }

  lemma UnacknowledgedIsCreditable(c: Config, s: State, id: nat, tmp: int)
    requires Inv(c, s) && id < c.fanIn && tmp < s.downEpsn
    ensures Creditable(s.downs, id, tmp, s.latestAck[id])
  {
    forall q | s.latestAck[id] < q <= tmp
      ensures id !in s.downs[Idx(q)].arrived && s.downs[Idx(q)].buffer.psn == q
    {
      assert DownInv(c, s, q);
      assert Held(s, q);
    }
  }

  /** The state after the walk of a negative acknowledgement that expects e. */
  ghost function AfterNak(c: Config, s: State, id: nat, e: nat): (r: State)
    requires Shaped(c.fanIn, s) && id < c.fanIn
    ensures Shaped(c.fanIn, r)
  {
    if e - 1 > s.latestAck[id] then
      var w := NakWalk(c.fanIn, s.downs, id, e - 1, s.latestAck[id]);
      s.(downs := if w.Walked? then w.downs else s.downs, latestAck := s.latestAck[id := e - 1])
    else s
  }

  /** The retry loop of the walk is never entered, and the walk credits what the NAK acknowledges. */
  lemma NakWalkEnds(c: Config, s: State, id: nat, e: nat)
    requires Inv(c, s) && id < c.fanIn && e <= s.downEpsn
    ensures Inv(c, AfterNak(c, s, id, e))
    ensures e - 1 > s.latestAck[id] ==>
              && NakWalk(c.fanIn, s.downs, id, e - 1, s.latestAck[id]).Walked?
              && CreditedBy(c, s, AfterNak(c, s, id, e), id, e - 1, q => true)
  {
    if e - 1 > s.latestAck[id] {
      UnacknowledgedIsCreditable(c, s, id, e - 1);
      var t := AfterNak(c, s, id, e);
      forall q: int | s.downEpsn - N <= q < s.downEpsn
        ensures NakWalk(c.fanIn, s.downs, id, e - 1, s.latestAck[id]).Walked?
        ensures t.downs[Idx(q)] == if s.latestAck[id] < q <= e - 1
                                   then Credit(c.fanIn, Mark(s.downs[Idx(q)], id)) else s.downs[Idx(q)]
      {
        NakWalkInWindow(c.fanIn, s.downs, id, e - 1, s.latestAck[id], s.downEpsn, q);
      }
      assert DownInv(c, s, s.downEpsn - 1);
      assert CreditedBy(c, s, t, id, e - 1, q => true);
      CreditedKeepsInv(c, s, t, id, e - 1, q => true);
    }
  }

  /** `count` results in order, starting with that of q, addressed to one child and numbered from `name` on. */
  ghost function Resent(c: Config, id: nat, name: nat, q: nat, count: nat): seq<Packet>
    requires ValidConfig(c)
    decreases count
  {
    if count == 0 then []
    else [Data(id, name, Partial(c, q, Ports(c.fanIn)))] + Resent(c, id, name + 1, q + 1, count - 1)
  }

  lemma {:induction false} ResentAt(c: Config, id: nat, name: nat, q: nat, count: nat, k: nat)
    requires ValidConfig(c) && k < count
    ensures |Resent(c, id, name, q, count)| == count
    ensures Resent(c, id, name, q, count)[k] == Data(id, name + k, Partial(c, q + k, Ports(c.fanIn)))
    decreases count
  {
    if count > 1 {
      ResentAt(c, id, name + 1, q + 1, count - 1, if k == 0 then 0 else k - 1);
    }
  }

  /** Fewer than a full ring of results is unacknowledged by the child. */
  ghost predicate RoomFor(s: State, id: nat)
    requires id < |s.latestAck|
  {
    s.latestAck[id] >= s.downEpsn - N
  }

  lemma UnacknowledgedIsHeld(c: Config, s: State, id: nat, q: nat)
    requires Inv(c, s) && id < c.fanIn && s.latestAck[id] < q < s.downEpsn
    ensures s.downs[Idx(q)].buffer == Buffer(true, q, Partial(c, q, Ports(c.fanIn)))
  {
    assert DownInv(c, s, q);
    assert Held(s, q);
  }

  /** With room in the ring the slot after the newest result stops the resending. */
  lemma NewestStops(c: Config, s: State, id: nat)
    requires Inv(c, s) && id < c.fanIn && RoomFor(s, id)
    ensures var buffer := s.downs[Idx(s.downEpsn)].buffer;
            !(buffer.used && buffer.psn > s.latestAck[id])
  {
    Neighbours(s.downEpsn);
    assert DownInv(c, s, s.downEpsn - N);
  }

  /** Resending from the slot of an unacknowledged result, under whatever number: the held results in order up
      to the newest, if the ring has room for the child. */
  lemma {:induction false} ReThreadResends(c: Config, s: State, id: nat, name: nat, q: nat, rounds: nat)
    requires Inv(c, s) && id < c.fanIn && s.latestAck[id] < q <= s.downEpsn && RoomFor(s, id)
    requires Idx(name) == Idx(q) && rounds > s.downEpsn - q
    ensures ReThread(s, id, name, rounds) == (Resent(c, id, name, q, s.downEpsn - q), true)
    decreases s.downEpsn - q
  {
    if q < s.downEpsn {
      UnacknowledgedIsHeld(c, s, id, q);
      ReThreadResends(c, s, id, name + 1, q + 1, rounds - 1);
    } else {
      NewestStops(c, s, id);
    }
  }

  /** The slot of the ring holds something the child has not acknowledged. */
  predicate Unfinished(slot: DownSlot, acked: int) {
    slot.buffer.used && slot.buffer.psn > acked
  }

  /** Without room every slot of the ring is unfinished for the child. */
  lemma FullRing(c: Config, s: State, id: nat)
    requires Inv(c, s) && id < c.fanIn && !RoomFor(s, id)
    ensures forall k :: 0 <= k < N ==> Unfinished(s.downs[k], s.latestAck[id])
  {
    forall k: nat | k < N
      ensures Unfinished(s.downs[k], s.latestAck[id])
    {
      var q := RingMate(s, k);
      UnacknowledgedIsHeld(c, s, id, q);
    }
  }

  /** Of the numbers whose results the ring has room for, the one that chooses the same slot as e. */
  function RingMate(s: State, e: nat): (q: int)
    ensures s.downEpsn - N <= q < s.downEpsn && Idx(q) == Idx(e)
    ensures s.downEpsn - N <= e < s.downEpsn ==> q == e
  {
    var d := s.downEpsn - 1;
    var q := d - (d - e) % N;
    assert q == e + N * ((d - e) / N);
    q
  }

  lemma {:induction false} NoSlotStops(s: State, id: nat, psn: nat, rounds: nat)
    requires |s.downs| == N && id < |s.latestAck|
    requires forall k :: 0 <= k < N ==> Unfinished(s.downs[k], s.latestAck[id])
    ensures !ReThread(s, id, psn, rounds).1
    decreases rounds
  {
    if rounds > 0 {
      NoSlotStops(s, id, psn + 1, rounds - 1);
    }
  }

  /** When a whole ring is outstanding for the child, no number of rounds ends the resending loop. */
  lemma SpinningIsForEver(c: Config, s: State, id: nat, psn: nat, rounds: nat)
    requires Inv(c, s) && id < c.fanIn && !RoomFor(s, id)
    ensures !ReThread(s, id, psn, rounds).1
  {
    FullRing(c, s, id);
    NoSlotStops(s, id, psn, rounds);
  }

  lemma SameAfterWalk(c: Config, s: State, id: nat, e: nat)
    requires Inv(c, s) && id < c.fanIn && e <= s.downEpsn
    ensures var t := AfterNak(c, s, id, e);
            var (sent, stops) := ReThread(t, id, e, N);
            OnNak(c.fanIn, s, id, e) == if stops then Went(t, sent) else Spins
  {
    NakWalkEnds(c, s, id, e);
    if e - 1 <= s.latestAck[id] {
      assert s.latestAck[id := s.latestAck[id]] == s.latestAck;
    }
  }

  /** A child that has acknowledged everything before e and asks for e gets exactly e, ..., down_epsn - 1,
      in order.  The resending loop ends if and only if not the whole ring is outstanding for the child;
      with a full ring it finds its own first slot again and never stops. */
  lemma NakStep(c: Config, s: State, id: nat, e: nat)
    requires Inv(c, s) && id < c.fanIn && s.latestAck[id] < e <= s.downEpsn
    ensures var o := OnNak(c.fanIn, s, id, e);
            && (o.Went? <==> RoomFor(AfterNak(c, s, id, e), id))
            && (o.Went? ==> && o.state == AfterNak(c, s, id, e) && Inv(c, o.state)
                            && o.sent == Resent(c, id, e, e, s.downEpsn - e))
            && (!o.Went? ==> o == Spins && e == s.downEpsn - N)
  {
    var t := AfterNak(c, s, id, e);
    NakWalkEnds(c, s, id, e);
    SameAfterWalk(c, s, id, e);
    assert t.latestAck[id] == e - 1 && t.downEpsn == s.downEpsn;
    if RoomFor(t, id) {
      ReThreadResends(c, t, id, e, e, N);
    } else {
      SpinningIsForEver(c, t, id, e, N);
    }
  }

  /** The switch does nothing but resend for a child that asks for something it has acknowledged. */
  lemma StaleNakResends(c: Config, s: State, id: nat, e: nat)
    requires Inv(c, s) && id < c.fanIn && e <= s.latestAck[id]
    ensures var (sent, stops) := ReThread(s, id, e, N);
            OnNak(c.fanIn, s, id, e) == if stops then Went(s, sent) else Spins
  {
    SameAfterWalk(c, s, id, e);
  }

  lemma AcknowledgedStops(c: Config, s: State, id: nat, e: nat)
    requires Inv(c, s) && id < c.fanIn && RingMate(s, e) <= s.latestAck[id]
    ensures ReThread(s, id, e, N) == ([], true)
  {
    assert DownInv(c, s, RingMate(s, e));
  }

  /** A negative acknowledgement for something already acknowledged is answered with silence exactly when the
      child has acknowledged the result that is in the slot it names, as it always has if the request is not a
      ring old.  Otherwise that result and all newer ones go out under numbers whole rings too small, or the
      loop never ends. */
  lemma StaleNakStep(c: Config, s: State, id: nat, e: nat)
    requires Inv(c, s) && id < c.fanIn && e <= s.latestAck[id]
    ensures var q := RingMate(s, e);
            var o := OnNak(c.fanIn, s, id, e);
            && (e >= s.downEpsn - N ==> q <= s.latestAck[id])
            && (o == Went(s, []) <==> q <= s.latestAck[id])
            && (q > s.latestAck[id] && RoomFor(s, id) ==>
                  q >= e + N && o == Went(s, Resent(c, id, e, q, s.downEpsn - q)))
            && (q > s.latestAck[id] && !RoomFor(s, id) ==> o == Spins)
  {
    var q := RingMate(s, e);
    StaleNakResends(c, s, id, e);
    if q <= s.latestAck[id] {
      AcknowledgedStops(c, s, id, e);
    } else if RoomFor(s, id) {
      if q < e + N {
        SlotsAreDistinct(e, q);
      }
      ReThreadResends(c, s, id, e, q, N);
      ResentAt(c, id, e, q, s.downEpsn - q, 0);
    } else {
      SpinningIsForEver(c, s, id, e, N);
    }
  }

  // ----- Runs

  datatype Event = DataIn(id: nat, psn: nat) | AckIn(id: nat, psn: nat) | NakIn(id: nat, psn: nat)

  /** Children acknowledge only what was broadcast and ask for nothing beyond the next result.  Data,
      acknowledgements and requests may come in any order, late, repeated or not at all. */
  ghost predicate Honest(c: Config, s: State, e: Event)
    requires Shaped(c.fanIn, s)
  {
    && e.id < c.fanIn
    && match e
       case DataIn(_, _) => true
       case AckIn(_, psn) => psn < s.downEpsn
       case NakIn(_, psn) => psn <= s.downEpsn
  }

  ghost function Handle(c: Config, s: State, e: Event): Outcome
    requires Inv(c, s) && Honest(c, s, e)
  {
    match e
    case DataIn(id, psn) => DataFits(c, s, id, psn); OnData(c.fanIn, s, id, psn, c.load(psn)[id])
    case AckIn(id, psn) => OnAck(c.fanIn, s, id, psn)
    case NakIn(id, psn) => OnNak(c.fanIn, s, id, psn)
  }

  lemma HandleKeepsInv(c: Config, s: State, e: Event)
    requires Inv(c, s) && Honest(c, s, e) && Handle(c, s, e).Went?
    ensures Inv(c, Handle(c, s, e).state)
  {
    match e
    case DataIn(id, psn) => DataStep(c, s, id, psn); DataKeepsInv(c, s, id, psn);
    case AckIn(id, psn) => AckStep(c, s, id, psn);
    case NakIn(id, psn) =>
      if psn > s.latestAck[id] {
        NakStep(c, s, id, psn);
      } else {
        StaleNakStep(c, s, id, psn);
      }
  }

  /** Exactly when the three assertions of the data path fire. */
  lemma AssertionsFireIff(c: Config, s: State, id: nat, psn: nat)
    requires Inv(c, s) && id < c.fanIn
    ensures var o := Handle(c, s, DataIn(id, psn));
            && (o.RingOverrun? <==> psn == s.aggEpsn[id] == s.downEpsn + N)
            && (o.ResultUnfreed? <==> psn == s.aggEpsn[id] && Completes(c, s, id) && Held(s, psn - N))
            && !o.OutOfOrder? && !o.Spins?
  {
    DataStep(c, s, id, psn);
    if psn == s.aggEpsn[id] && Completes(c, s, id) {
      CompletesIsFullDegree(c, s, id);
    }
  }

  /** What a data packet makes the switch send is the complete sum, to every child in turn. */
  lemma BroadcastIsSum(c: Config, s: State, id: nat, psn: nat, k: nat)
    requires Inv(c, s) && id < c.fanIn && DataOutcome(c, s, id, psn).Went?
    requires k < |DataOutcome(c, s, id, psn).sent| && DataOutcome(c, s, id, psn).sent[k].Data?
    ensures DataOutcome(c, s, id, psn).sent[k] == Data(k - 1, s.downEpsn, Partial(c, s.downEpsn, Ports(c.fanIn)))
    ensures DataOutcome(c, s, id, psn).state.downEpsn == s.downEpsn + 1
  {
    if psn == s.aggEpsn[id] {
      CompletesIsFullDegree(c, s, id);
    }
  }

  /** A request that came so late that its slot holds a newer result, one the child still lacks. */
  ghost predicate Outdated(s: State, e: Event)
    requires e.id < |s.latestAck|
  {
    e.NakIn? && e.psn <= s.latestAck[e.id] < RingMate(s, e.psn)
  }

  /** By how much the results that answer a request are newer than the numbers they go out under. */
  ghost function Lag(s: State, e: Event): (lag: nat)
    requires e.id < |s.latestAck|
    ensures lag > 0 <==> Outdated(s, e)
  {
    if Outdated(s, e) then RingMate(s, e.psn) - e.psn else 0
  }

  lemma NakSends(c: Config, s: State, id: nat, psn: nat)
    requires Inv(c, s) && Honest(c, s, NakIn(id, psn)) && OnNak(c.fanIn, s, id, psn).Went?
    ensures var o, q := OnNak(c.fanIn, s, id, psn), psn + Lag(s, NakIn(id, psn));
            && o.state.downEpsn == s.downEpsn && q <= s.downEpsn
            && (Outdated(s, NakIn(id, psn)) ==> q >= psn + N)
            && (o.sent == [] || o.sent == Resent(c, id, psn, q, s.downEpsn - q))
  {
    hide OnNak, UpInv, DownInv, EpsnInv;
    if psn > s.latestAck[id] {
      NakStep(c, s, id, psn);
    } else {
      StaleNakStep(c, s, id, psn);
    }
  }

  lemma {:induction false} LengthOfResent(c: Config, id: nat, name: nat, q: nat, count: nat)
    requires ValidConfig(c)
    ensures |Resent(c, id, name, q, count)| == count
    decreases count
  {
    if count > 0 {
      LengthOfResent(c, id, name + 1, q + 1, count - 1);
    }
  }

  lemma ResentElement(c: Config, id: nat, name: nat, q: nat, d: nat, sent: seq<Packet>, k: nat)
    requires ValidConfig(c) && q <= d && k < |sent| && (sent == [] || sent == Resent(c, id, name, q, d - q))
    ensures q + k < d && sent[k] == Data(id, name + k, Partial(c, q + k, Ports(c.fanIn)))
  {
    LengthOfResent(c, id, name, q, d - q);
    ResentAt(c, id, name, q, d - q, k);
  }

  lemma ResentAreSums(c: Config, s: State, id: nat, psn: nat, k: nat)
    requires Inv(c, s) && Honest(c, s, NakIn(id, psn)) && OnNak(c.fanIn, s, id, psn).Went?
    requires k < |OnNak(c.fanIn, s, id, psn).sent|
    ensures var q := psn + k + Lag(s, NakIn(id, psn));
            && q < s.downEpsn == OnNak(c.fanIn, s, id, psn).state.downEpsn
            && OnNak(c.fanIn, s, id, psn).sent[k] == Data(id, psn + k, Partial(c, q, Ports(c.fanIn)))
            && (Outdated(s, NakIn(id, psn)) ==> q >= psn + k + N)
  {
    hide OnNak, UpInv, DownInv, EpsnInv;
    NakSends(c, s, id, psn);
    ResentElement(c, id, psn, psn + Lag(s, NakIn(id, psn)), s.downEpsn, OnNak(c.fanIn, s, id, psn).sent, k);
  }

  /** Every data packet sent, broadcast or resent, carries the complete sum for its own number, unless it
      answers an outdated request: then it carries the sum that is as much newer as the slot's result is
      newer than the one asked for, whole rings. */
  lemma SentDataAreSums(c: Config, s: State, e: Event, k: nat)
    requires Inv(c, s) && Honest(c, s, e) && Handle(c, s, e).Went?
    requires k < |Handle(c, s, e).sent| && Handle(c, s, e).sent[k].Data?
    ensures var m, t := Handle(c, s, e).sent[k], Handle(c, s, e).state;
            && 0 <= m.psn && m.psn + Lag(s, e) < t.downEpsn
            && IsResult(c, m.psn + Lag(s, e), m.words)
            && (Outdated(s, e) ==> Lag(s, e) >= N)
  {
    hide OnData, OnAck, OnNak, DataOutcome, UpInv, DownInv, EpsnInv, CreditedBy, Partial, IsResult;
    match e
    case DataIn(id, psn) =>
      AllAreResult(c, s.downEpsn);
      DataStep(c, s, id, psn);
      BroadcastIsSum(c, s, id, psn, k);
    case AckIn(id, psn) => AckStep(c, s, id, psn);
    case NakIn(id, psn) =>
      ResentAreSums(c, s, id, psn, k);
      AllAreResult(c, psn + k + Lag(s, e));
  }

  /** Every data packet that goes through is answered first of all, to its own child: if it is ahead, negatively with
      the number expected, and otherwise with the last number the child has delivered.  No other event is answered that
      way. */
  lemma DataIsAnswered(c: Config, s: State, e: Event)
    requires Inv(c, s) && Honest(c, s, e) && Handle(c, s, e).Went?
    ensures var t, sent := Handle(c, s, e).state, Handle(c, s, e).sent;
            var id := e.id;
            && Shaped(c.fanIn, t)
            && t.aggEpsn == s.aggEpsn[id := s.aggEpsn[id] + if e.DataIn? && e.psn == s.aggEpsn[id] then 1 else 0]
            && (e.DataIn? ==>
                  sent != [] && sent[0] == if e.psn > t.aggEpsn[id] then Nak(id, t.aggEpsn[id])
                                           else Ack(id, t.aggEpsn[id] - 1))
            && forall k :: (if e.DataIn? then 1 else 0) <= k < |sent| ==> sent[k].Data?
  {
    hide OnData, OnAck, OnNak, UpInv, DownInv, EpsnInv, Partial, Held, Completes, Past;
    match e
    case DataIn(id, psn) => DataStep(c, s, id, psn);
    case AckIn(id, psn) => AckStep(c, s, id, psn);
    case NakIn(id, psn) =>
      SameAfterWalk(c, s, id, psn);
      assert s.aggEpsn[id := s.aggEpsn[id]] == s.aggEpsn;
      forall k | 0 <= k < |OnNak(c.fanIn, s, id, psn).sent|
        ensures OnNak(c.fanIn, s, id, psn).sent[k].Data?
      {
        ResentAreSums(c, s, id, psn, k);
      }
  }

  /** A broadcast slot is in use exactly while some child has not acknowledged its result. */
  lemma InUseIffHeld(c: Config, s: State, q: nat)
    requires Inv(c, s) && s.downEpsn - N <= q < s.downEpsn
    ensures s.downs[Idx(q)].buffer.used <==> Held(s, q)
    ensures Held(s, q) ==> s.downs[Idx(q)].buffer.psn == q && s.downs[Idx(q)].degree == |Covered(s, q)| < c.fanIn
  {
    assert DownInv(c, s, q);
    HeldIsUncovered(c, s, q);
  }

  /** So the step that frees the slot of q is exactly the one in which the last child comes to cover q. */
  lemma FreedWhenLastChildCovers(c: Config, s: State, e: Event, q: nat)
    requires Inv(c, s) && Honest(c, s, e) && Handle(c, s, e).Went?
    requires Handle(c, s, e).state.downEpsn - N <= q < s.downEpsn
    ensures var t := Handle(c, s, e).state;
            && Shaped(c.fanIn, t) && s.downEpsn <= t.downEpsn
            && (s.downs[Idx(q)].buffer.used && !t.downs[Idx(q)].buffer.used
                <==> Covered(s, q) != Ports(c.fanIn) && Covered(t, q) == Ports(c.fanIn))
            && (!s.downs[Idx(q)].buffer.used ==> !t.downs[Idx(q)].buffer.used)
            && Covered(s, q) <= Covered(t, q)
  {
    var t := Handle(c, s, e).state;
    HandleKeepsInv(c, s, e);
    HandleAdvances(c, s, e);
    InUseIffHeld(c, s, q);
    InUseIffHeld(c, t, q);
    HeldIsUncovered(c, s, q);
    HeldIsUncovered(c, t, q);
    assert Covered(s, q) <= Covered(t, q);
    if Covered(s, q) == Ports(c.fanIn) {
      AllPorts(c.fanIn, Covered(t, q));
    }
  }

  lemma HandleAdvances(c: Config, s: State, e: Event)
    requires Inv(c, s) && Honest(c, s, e) && Handle(c, s, e).Went?
    ensures var t := Handle(c, s, e).state;
            && Shaped(c.fanIn, t) && s.downEpsn <= t.downEpsn
            && forall i :: 0 <= i < c.fanIn ==> s.latestAck[i] <= t.latestAck[i] && s.aggEpsn[i] <= t.aggEpsn[i]
  {
    match e
    case DataIn(id, psn) => DataStep(c, s, id, psn);
    case AckIn(id, psn) => AckStep(c, s, id, psn);
    case NakIn(id, psn) => SameAfterWalk(c, s, id, psn);
  }
}
