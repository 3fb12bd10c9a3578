/** A host that has finished its part of an operation may begin the next while others are still at it: its control
    packet then changes what the whole switch takes the operation to be.
 */
module EarlyControl {
  import opened Words
  import opened Rings
  import opened Rules
  import opened SwitchMain
  import opened OutputStreams
  import opened OutputStreamSafety
  import opened StreamAlignment
  import opened StreamSkew

  /** A control packet of some operation of host i. */
  predicate HostControl(conns: seq<Connection>, i: nat, f: Frame)
    requires i < |conns|
  {
    && Proper(f) && IsControl(f)
    && match PrimitiveOf(f.code)
       case AllReduce => ParamOf(f.destRank) == -1
       case Reduce => 0 <= ParamOf(f.destRank) < |conns|
       case Broadcast => ParamOf(f.destRank) == conns[i].peerId
       case Null => false
  }

  /** An operation the control packet may belong to. */
  function Announced(i: nat, f: Frame): Op {
    match PrimitiveOf(f.code)
    case Reduce => ReduceOp(if ParamOf(f.destRank) < 0 then 0 else ParamOf(f.destRank), [])
    case Broadcast => BroadcastOp(i, [])
    case _ => AllReduceOp([])
  }

  lemma AnnouncedIs(conns: seq<Connection>, i: nat, f: Frame)
    requires i < |conns| && HostControl(conns, i, f)
    ensures ValidOp(|conns|, Announced(i, f)) && Participates(Announced(i, f), i)
    ensures PrimitiveOfOp(Announced(i, f)) == PrimitiveOf(f.code)
    ensures ParamOfOp(conns, Announced(i, f)) == ParamOf(f.destRank)
  {
  }

  predicate SameOperation(conns: seq<Connection>, op: Op, f: Frame)
    requires ValidOp(|conns|, op)
  {
    PrimitiveOf(f.code) == PrimitiveOfOp(op) && ParamOf(f.destRank) == ParamOfOp(conns, op)
  }

  /** All have begun an aggregation, host i has had all its packets accepted, and somebody has not. */
  ghost predicate MidOperation(conns: seq<Connection>, x: World, i: nat) {
    && Inv(conns, x) && Aggregates(x.op) && i < |conns| && x.done[i] == Count(x.op) > x.complete
    && forall j :: 0 <= j < |conns| ==> x.started[j] && x.ctx.aggEpsn[j] < PSN_SPACE
  }

  /** Then host i's next control packet arrives. */
  ghost function Early(conns: seq<Connection>, x: World, i: nat, f: Frame): (y: World)
    requires ValidWiring(conns) && WellFormed(conns, x) && i < |conns| && Proper(f)
    ensures WellFormed(conns, y)
  {
    x.(ctx := Handle(conns, TableOf(conns), x.ctx, i, f))
  }

  /** The switch as it would be without that control packet. */
  ghost function Without(conns: seq<Connection>, y: World, i: nat): World
    requires WellFormed(conns, y) && i < |conns| && y.ctx.aggEpsn[i] > 0
  {
    y.(ctx := Untouched(conns, y.op, y.ctx, i))
  }

  function Untouched(conns: seq<Connection>, op: Op, s: Ctx, i: nat): Ctx
    requires ValidOp(|conns|, op) && i < |s.aggEpsn| && s.aggEpsn[i] > 0
  {
    s.(aggEpsn := s.aggEpsn[i := s.aggEpsn[i] - 1], operation := PrimitiveOfOp(op), rootRank := ParamOfOp(conns, op))
  }

  /** Since that control packet everything has gone as it would have without it. */
  ghost predicate GoesOn(conns: seq<Connection>, y: World, i: nat, announced: Op) {
    && WellFormed(conns, y) && i < |conns| && y.ctx.aggEpsn[i] > 0 && Inv(conns, Without(conns, y, i))
    && Aggregates(y.op) && y.done[i] == Count(y.op)
    && (forall j :: 0 <= j < |conns| ==> y.started[j])
    && ValidOp(|conns|, announced)
    && y.ctx.operation == PrimitiveOfOp(announced) && y.ctx.rootRank == ParamOfOp(conns, announced)
  }

  lemma EarlyGoesOn(conns: seq<Connection>, x: World, i: nat, f: Frame)
    requires MidOperation(conns, x, i) && HostControl(conns, i, f)
    ensures GoesOn(conns, Early(conns, x, i, f), i, Announced(i, f))
    ensures var y := Early(conns, x, i, f);
            && y == x.(ctx := y.ctx) && forall j :: 0 <= j < |conns| && j != i ==> y.ctx.aggEpsn[j] == x.ctx.aggEpsn[j]
  {
    hide Handle, SlotsInv;
    var y, announced := Early(conns, x, i, f), Announced(i, f);
    AnnouncedIs(conns, i, f);
    ControlIsRecorded(conns, x.ctx, announced, i, f);
    assert x.started[i] && Informed(conns, x);
    var u := Without(conns, y, i);
    assert u.ctx.aggEpsn == x.ctx.aggEpsn;
    assert SameButReplies(u.ctx, x.ctx);
    RepliesKeepInv(conns, x, u.ctx);
  }

  lemma GoingOnIsRight(conns: seq<Connection>, y: World, i: nat, announced: Op)
    requires GoesOn(conns, y, i, announced)
    ensures StreamsRight(conns, y)
  {
    hide SlotsInv, Informed;
    var u := Without(conns, y, i);
    forall c | 0 <= c < |conns|
      ensures HasSent(y.ctx, c, OwedNow(conns, y, c))
    {
      assert HasSent(u.ctx, c, OwedNow(conns, u, c));
    }
  }

  // ----- One packet

  predicate SameReceivers(conns: seq<Connection>, op: Op, other: Op) {
    forall c :: 0 <= c < |conns| ==> (Receives(conns, op, c) <==> Receives(conns, other, c))
  }

  lemma ReceiversDecide(conns: seq<Connection>, op: Op, other: Op, s: Ctx, t: Ctx, send: bool, data: Payload)
    requires |s.sendPsn| == |s.out| == |conns| && |t.sendPsn| == |t.out| == |conns|
    requires Delivers(conns, other, s, t, send, data)
    requires send ==> SameReceivers(conns, op, other)
    ensures Delivers(conns, op, s, t, send, data)
  {
    forall c, owed | 0 <= c < |conns| && HasSent(s, c, owed)
      ensures HasSent(t, c, owed + OutputStreamSafety.OneIf(send && Receives(conns, op, c), data))
    {
    }
  }

  /** What the switch makes of the next packet of another host, its announced operation being an aggregation. */
  lemma NextHandled(conns: seq<Connection>, y: World, i: nat, announced: Op, j: nat, f: Frame)
    requires GoesOn(conns, y, i, announced) && Aggregates(announced) && j < |conns| && ValidWiring(conns)
    requires Proper(f) && !HasImm(f) && InSequence(y, j, f)
    ensures var slot := Contributed(y.ctx.slots[Idx(f.psn)], j, f.data);
            var full := slot.degree == |conns|;
            var t := Handle(conns, TableOf(conns), y.ctx, j, f);
            && t == y.ctx.(aggEpsn := y.ctx.aggEpsn[j := y.ctx.aggEpsn[j] + 1], sendPsn := t.sendPsn, out := t.out,
                           replies := t.replies,
                           slots := y.ctx.slots[Idx(f.psn) := if full then slot.(degree := 0, arrived := {}) else slot])
            && Delivers(conns, announced, y.ctx, t, full, slot.buffer[..|f.data|])
  {
    hide Handle, Aggregate, Merged, Intended, Lookup, Inv;
    var rule := RuleFor(conns, announced, j);
    var s := Replied(Advance(y.ctx, j), SwitchMain.Ack(rule.ackConn, f.psn));
    var slot := Contributed(y.ctx.slots[Idx(f.psn)], j, f.data);
    NextPacketIsAggregated(conns, y.ctx, announced, j, f);
    AggregateEffect(conns, s, announced, j, f.psn, f.data, slot);
    SameSent(conns, announced, y.ctx, s, Handle(conns, TableOf(conns), y.ctx, j, f), slot.degree == |conns|,
             slot.buffer[..|f.data|]);
  }

  /** The switch without the control packet, having counted and acknowledged a packet of host j. */
  ghost function CountedWithout(conns: seq<Connection>, y: World, i: nat, j: nat, t: Ctx): Ctx
    requires WellFormed(conns, y) && i < |conns| && j < |conns| && y.ctx.aggEpsn[i] > 0
  {
    var s := Without(conns, y, i).ctx;
    s.(aggEpsn := s.aggEpsn[j := s.aggEpsn[j] + 1], replies := t.replies)
  }

  lemma StillDue(conns: seq<Connection>, lead: nat, y: World, i: nat, announced: Op, j: nat, f: Frame, t: Ctx)
    requires GoesOn(conns, y, i, announced) && Fits(|conns|, lead, y.op) && ValidWiring(conns)
    requires Enabled(conns, lead, y, Event.Packet(j, f)) && InSequence(y, j, f)
    ensures j != i
    ensures Accepting(conns, Without(conns, y, i), j, CountedWithout(conns, y, i, j, t), f.psn, f.data)
  {
    hide SlotsInv, HasSent;
    var u := Without(conns, y, i);
    assert Progress(u, j);
    assert Informed(conns, u) && u.started[j];
    var k :| 0 <= k < |u.done| && Participates(u.op, k) && u.done[k] == u.complete;
  }

  /** The slots afterwards, and the packet's own slot fills up when its number is complete. */
  lemma NextSlots(conns: seq<Connection>, lead: nat, y: World, i: nat, announced: Op, j: nat, f: Frame, t: Ctx)
    requires GoesOn(conns, y, i, announced) && Aggregates(announced) && Fits(|conns|, lead, y.op)
    requires ValidWiring(conns) && Enabled(conns, lead, y, Event.Packet(j, f)) && InSequence(y, j, f)
    requires Shaped(|conns|, t) && t.aggEpsn[i] > 0 && t == Handle(conns, TableOf(conns), y.ctx, j, f)
    ensures var slot := Contributed(y.ctx.slots[Idx(f.psn)], j, f.data);
            var after := Accepted(Without(conns, y, i), j, Untouched(conns, y.op, t, i));
            && WellFormed(conns, after) && SlotsInv(conns, after)
            && (slot.degree == |conns| <==> after.complete == y.complete + 1)
            && (slot.degree == |conns| ==> slot.buffer[..|f.data|] == Result(|conns|, y.op, y.complete))
  {
    hide Handle, Merged, SlotsHold, Informed, HasSent, Delivers;
    var u := Without(conns, y, i);
    NextHandled(conns, y, i, announced, j, f);
    StillDue(conns, lead, y, i, announced, j, f, t);
    AcceptedSlots(conns, u, j, CountedWithout(conns, y, i, j, t), f.psn, f.data,
                  Contributed(u.ctx.slots[Idx(f.psn)], j, f.data), Untouched(conns, y.op, t, i));
    AcceptedSlotsInv(conns, u, j, Untouched(conns, y.op, t, i));
  }

  lemma SameDelivery(conns: seq<Connection>, op: Op, s: Ctx, t: Ctx, s': Ctx, t': Ctx, send: bool, data: Payload)
    requires |s.sendPsn| == |s.out| == |conns| && |t.sendPsn| == |t.out| == |conns|
    requires Delivers(conns, op, s, t, send, data)
    requires s'.sendPsn == s.sendPsn && s'.out == s.out && t'.sendPsn == t.sendPsn && t'.out == t.out
    ensures Delivers(conns, op, s', t', send, data)
  {
    forall c, owed | 0 <= c < |conns| && HasSent(s', c, owed)
      ensures HasSent(t', c, owed + OutputStreamSafety.OneIf(send && Receives(conns, op, c), data))
    {
      assert HasSent(s, c, owed);
    }
  }

  /** What is sent, as far as it is not to the wrong receivers. */
  lemma NextDelivers(conns: seq<Connection>, y: World, i: nat, announced: Op, j: nat, f: Frame, t: Ctx,
                     send: bool)
    requires GoesOn(conns, y, i, announced) && Aggregates(announced) && j < |conns| && j != i && ValidWiring(conns)
    requires Proper(f) && !HasImm(f) && InSequence(y, j, f)
    requires Shaped(|conns|, t) && t.aggEpsn[i] > 0 && t == Handle(conns, TableOf(conns), y.ctx, j, f)
    requires send <==> Contributed(y.ctx.slots[Idx(f.psn)], j, f.data).degree == |conns|
    requires send ==> SameReceivers(conns, y.op, announced)
    ensures var slot := Contributed(y.ctx.slots[Idx(f.psn)], j, f.data);
            var s, t' := CountedWithout(conns, y, i, j, t), Untouched(conns, y.op, t, i);
            && t' == s.(slots := t'.slots, sendPsn := t'.sendPsn, out := t'.out)
            && Delivers(conns, y.op, s, t', send, slot.buffer[..|f.data|])
  {
    hide Handle, Merged, Inv, Delivers, Receives;
    var data := Contributed(y.ctx.slots[Idx(f.psn)], j, f.data).buffer[..|f.data|];
    NextHandled(conns, y, i, announced, j, f);
    ReceiversDecide(conns, y.op, announced, y.ctx, t, send, data);
    var t' := Untouched(conns, y.op, t, i);
    SameDelivery(conns, y.op, y.ctx, t, CountedWithout(conns, y, i, j, t), t', send, data);
  }

  /** As long as nothing is sent, or it is sent to the right receivers, the books stay right. */
  lemma NextKeepsBooks(conns: seq<Connection>, lead: nat, y: World, i: nat, announced: Op, j: nat, f: Frame, t: Ctx)
    requires GoesOn(conns, y, i, announced) && Aggregates(announced) && Fits(|conns|, lead, y.op)
    requires ValidWiring(conns) && Enabled(conns, lead, y, Event.Packet(j, f)) && InSequence(y, j, f)
    requires Waiting(y.op, y.done[j := y.done[j] + 1], y.complete) || SameReceivers(conns, y.op, announced)
    requires Shaped(|conns|, t) && t.aggEpsn[i] > 0 && t == Handle(conns, TableOf(conns), y.ctx, j, f)
    ensures Inv(conns, Accepted(Without(conns, y, i), j, Untouched(conns, y.op, t, i)))
  {
    hide Handle, Merged, SlotsInv, Informed, HasSent, Delivers, Result, SameReceivers, Progress, Within, Waiting;
    var u, t' := Without(conns, y, i), Untouched(conns, y.op, t, i);
    var slot := Contributed(y.ctx.slots[Idx(f.psn)], j, f.data);
    StillDue(conns, lead, y, i, announced, j, f, t);
    NextSlots(conns, lead, y, i, announced, j, f, t);
    NextDelivers(conns, y, i, announced, j, f, t, slot.degree == |conns|);
    AcceptingKeepsInv(conns, u, j, CountedWithout(conns, y, i, j, t), f.psn, f.data, t', Accepted(u, j, t'),
                      slot.buffer[..|f.data|]);
  }

  lemma NextGoesOn(conns: seq<Connection>, lead: nat, y: World, i: nat, announced: Op, j: nat, f: Frame)
    requires GoesOn(conns, y, i, announced) && Aggregates(announced) && Fits(|conns|, lead, y.op)
    requires ValidWiring(conns) && Enabled(conns, lead, y, Event.Packet(j, f)) && InSequence(y, j, f)
    requires Waiting(y.op, y.done[j := y.done[j] + 1], y.complete) || SameReceivers(conns, y.op, announced)
    ensures GoesOn(conns, Apply(conns, y, Event.Packet(j, f)), i, announced)
  {
    hide Handle, Merged, Delivers, Inv, SameReceivers, Waiting;
    var t := Handle(conns, TableOf(conns), y.ctx, j, f);
    NextPacketIsAccepted(conns, lead, y, j, f);
    NextHandled(conns, y, i, announced, j, f);
    NextKeepsBooks(conns, lead, y, i, announced, j, f, t);
    assert Without(conns, Accepted(y, j, t), i) == Accepted(Without(conns, y, i), j, Untouched(conns, y.op, t, i));
  }

  // ----- Runs up to the end of the operation

  /** Packets out of sequence change nothing but the acknowledgements. */
  lemma NoiseGoesOn(conns: seq<Connection>, lead: nat, y: World, i: nat, announced: Op, j: nat, f: Frame)
    requires GoesOn(conns, y, i, announced) && ValidWiring(conns)
    requires Enabled(conns, lead, y, Event.Packet(j, f)) && !InSequence(y, j, f)
    ensures GoesOn(conns, Apply(conns, y, Event.Packet(j, f)), i, announced)
  {
    hide Handle, SlotsInv, Informed, HasSent;
    var t := Handle(conns, TableOf(conns), y.ctx, j, f);
    OutOfSequenceChangesNothing(conns, y.ctx, j, f);
    RepliesKeepInv(conns, Without(conns, y, i), Untouched(conns, y.op, t, i));
  }

  lemma {:induction false} RunGoesOn(conns: seq<Connection>, lead: nat, y: World, i: nat, announced: Op,
                                     es: seq<Event>)
    requires GoesOn(conns, y, i, announced) && ValidWiring(conns) && Fits(|conns|, lead, y.op)
    requires Aggregates(announced) && SameReceivers(conns, y.op, announced)
    requires Legal(conns, lead, y, es) && OneOperation(es)
    ensures GoesOn(conns, Run(conns, lead, y, es), i, announced)
    decreases |es|
  {
    hide Inv, Handle, Receives;
    if es != [] {
      assert es[0] in es && Enabled(conns, lead, y, es[0]);
      OnlyPackets(conns, lead, y, i, announced, es[0]);
      StepGoesOn(conns, lead, y, i, announced, es[0]);
      RunGoesOn(conns, lead, Apply(conns, y, es[0]), i, announced, es[1..]);
    }
  }

  lemma OnlyPackets(conns: seq<Connection>, lead: nat, y: World, i: nat, announced: Op, e: Event)
    requires GoesOn(conns, y, i, announced) && ValidWiring(conns) && Enabled(conns, lead, y, e) && !e.Next?
    ensures e.Packet?
  {
    hide Inv;
  }

  lemma StepGoesOn(conns: seq<Connection>, lead: nat, y: World, i: nat, announced: Op, e: Event)
    requires GoesOn(conns, y, i, announced) && ValidWiring(conns) && Fits(|conns|, lead, y.op)
    requires Aggregates(announced) && SameReceivers(conns, y.op, announced)
    requires e.Packet? && Enabled(conns, lead, y, e)
    ensures Apply(conns, y, e).op == y.op && GoesOn(conns, Apply(conns, y, e), i, announced)
  {
    hide Inv, Handle, Receives, Waiting;
    if InSequence(y, e.conn, e.f) {
      NextGoesOn(conns, lead, y, i, announced, e.conn, e.f);
    } else {
      NoiseGoesOn(conns, lead, y, i, announced, e.conn, e.f);
    }
  }

  // ----- Another operation announced

  /** Another aggregation has other receivers. */
  lemma OtherReceiver(conns: seq<Connection>, op: Op, other: Op) returns (c: nat)
    requires ValidWiring(conns) && |conns| >= 2 && ValidOp(|conns|, op) && ValidOp(|conns|, other)
    requires Aggregates(op) && Aggregates(other)
    requires PrimitiveOfOp(op) != PrimitiveOfOp(other) || ParamOfOp(conns, op) != ParamOfOp(conns, other)
    ensures c < |conns| && (Receives(conns, op, c) <==> !Receives(conns, other, c))
  {
    var reduce := if op.ReduceOp? then op else other;
    c := SomeReceiver(conns, reduce);
    if !(op.ReduceOp? && other.ReduceOp?) {
      assert IsHost(conns, 0) && IsHost(conns, 1);
      c := if c == 0 then 1 else 0;
    }
  }

  /** A packet of a host that is not the sender of the Broadcast the switch believes to be going on finds no rule. */
  lemma NoRuleForOthers(conns: seq<Connection>, s: Ctx, i: nat, j: nat, f: Frame)
    requires ValidWiring(conns) && Shaped(|conns|, s) && i < |conns| && j < |conns| && i != j && Proper(f) && !HasImm(f)
    requires s.operation == Broadcast && s.rootRank == conns[i].peerId
    ensures Handle(conns, TableOf(conns), s, j, f) == s
  {
    hide OnData;
    assert IsHost(conns, i) && IsHost(conns, j);
    LookupFindsIntended(conns, |conns|, j, Broadcast, conns[i].peerId);
  }

  /** Host j still owes its packet of the oldest incomplete number. */
  ghost predicate Owing(conns: seq<Connection>, y: World, i: nat, announced: Op, j: nat) {
    && ValidWiring(conns) && WellFormed(conns, y) && Aggregates(y.op) && ValidOp(|conns|, announced)
    && i < |conns| && j < |conns| && i != j && y.started[j] && y.done[j] == y.complete < Count(y.op)
    && y.ctx.aggEpsn[j] < PSN_SPACE
    && y.ctx.operation == PrimitiveOfOp(announced) && y.ctx.rootRank == ParamOfOp(conns, announced)
    && if Aggregates(announced) then GoesOn(conns, y, i, announced)
       else announced.sender == i && forall c :: 0 <= c < |conns| ==> HasSent(y.ctx, c, OwedNow(conns, y, c))
  }

  lemma OwingMaySend(conns: seq<Connection>, lead: nat, y: World, i: nat, announced: Op, j: nat)
    requires Owing(conns, y, i, announced, j) && lead > 0
    ensures Enabled(conns, lead, y, Event.Packet(j, NextFrame(conns, y, j)))
    ensures InSequence(y, j, NextFrame(conns, y, j))
  {
    hide Inv, HasSent;
  }

  /** The last packet of a number, another aggregation having been announced: the result goes to others. */
  lemma SentToOthers(conns: seq<Connection>, lead: nat, y: World, i: nat, announced: Op, j: nat, c: nat)
    requires Owing(conns, y, i, announced, j) && Aggregates(announced) && Fits(|conns|, lead, y.op) && lead > 0
    requires !Waiting(y.op, y.done[j := y.done[j] + 1], y.complete)
    requires c < |conns| && (Receives(conns, y.op, c) <==> !Receives(conns, announced, c))
    ensures !StreamsRight(conns, Apply(conns, y, Event.Packet(j, NextFrame(conns, y, j))))
  {
    hide Handle, Merged, SlotsHold, Informed, Enabled;
    var f := NextFrame(conns, y, j);
    OwingMaySend(conns, lead, y, i, announced, j);
    FullIsSent(conns, lead, y, i, announced, j, f);
    var t := Handle(conns, TableOf(conns), y.ctx, j, f);
    var data := Contributed(y.ctx.slots[Idx(f.psn)], j, f.data).buffer[..|f.data|];
    var owed := OwedNow(conns, y, c);
    assert HasSent(Without(conns, y, i).ctx, c, OwedNow(conns, Without(conns, y, i), c));
    assert HasSent(y.ctx, c, owed);
    assert HasSent(t, c, owed + OutputStreamSafety.OneIf(Receives(conns, announced, c), data));
    NextPacketIsAccepted(conns, lead, y, j, f);
    OwesOneMore(conns, y, Accepted(y, j, t), c);
  }

  /** Everybody's packet being there, the slot fills up and is sent, as announced. */
  lemma FullIsSent(conns: seq<Connection>, lead: nat, y: World, i: nat, announced: Op, j: nat, f: Frame)
    requires GoesOn(conns, y, i, announced) && Aggregates(announced) && Fits(|conns|, lead, y.op)
    requires ValidWiring(conns) && Enabled(conns, lead, y, Event.Packet(j, f)) && InSequence(y, j, f)
    requires !Waiting(y.op, y.done[j := y.done[j] + 1], y.complete)
    ensures var slot := Contributed(y.ctx.slots[Idx(f.psn)], j, f.data);
            Delivers(conns, announced, y.ctx, Handle(conns, TableOf(conns), y.ctx, j, f), true, slot.buffer[..|f.data|])
  {
    hide Handle, Merged, SlotsInv, Informed, HasSent, Delivers, Result;
    NextHandled(conns, y, i, announced, j, f);
    NextSlots(conns, lead, y, i, announced, j, f, Handle(conns, TableOf(conns), y.ctx, j, f));
  }

  lemma OwesOneMore(conns: seq<Connection>, y: World, z: World, c: nat)
    requires WellFormed(conns, y) && WellFormed(conns, z) && z.op == y.op && z.past == y.past && c < |conns|
    requires y.complete < Count(y.op) && z.complete == y.complete + 1
    ensures |OwedNow(conns, z, c)| == |OwedNow(conns, y, c)| + if Receives(conns, y.op, c) then 1 else 0
    ensures forall ctx: Ctx, owed :: |ctx.sendPsn| == |ctx.out| && c < |ctx.out| && HasSent(ctx, c, owed) ==>
              |Payloads(ctx.out[c])| == |owed|
  {
    OwedNext(conns, y.op, c, y.complete);
  }

  /** The same if a Broadcast has been announced: the packet is dropped. */
  lemma Dropped(conns: seq<Connection>, lead: nat, y: World, i: nat, announced: Op, j: nat)
    requires Owing(conns, y, i, announced, j) && !Aggregates(announced) && lead > 0
    ensures var z := Apply(conns, y, Event.Packet(j, NextFrame(conns, y, j)));
            && z == Accepted(y, j, y.ctx)
            && (z.complete == y.complete + 1 ==> !StreamsRight(conns, z))
  {
    hide Handle, HasSent, Receives;
    var f := NextFrame(conns, y, j);
    OwingMaySend(conns, lead, y, i, announced, j);
    NoRuleForOthers(conns, y.ctx, i, j, f);
    NextPacketIsAccepted(conns, lead, y, j, f);
    var z := Accepted(y, j, y.ctx);
    if z.complete == y.complete + 1 {
      var c := SomeReceiver(conns, y.op);
      OwesOneMore(conns, y, z, c);
      assert HasSent(y.ctx, c, OwedNow(conns, y, c));
    }
  }

  /** Somebody from p on has not handed over the oldest incomplete packet. */
  predicate Left(x: World, p: nat) {
    exists j :: p <= j < |x.done| && x.done[j] == x.complete
  }

  /** From x to y the hosts below p that owed it have handed it over, and if these were all, it has gone wrong. */
  ghost predicate HandedOver(conns: seq<Connection>, x: World, y: World, i: nat, announced: Op, p: nat) {
    && WellFormed(conns, x) && WellFormed(conns, y) && p <= |conns|
    && if Left(x, p) then
         && y == x.(ctx := y.ctx, done := y.done)
         && (forall j :: 0 <= j < |conns| ==>
               y.done[j] == x.done[j] + if j < p && x.done[j] == x.complete then 1 else 0)
         && (forall j :: p <= j < |conns| && x.done[j] == x.complete ==> Owing(conns, y, i, announced, j))
       else !StreamsRight(conns, y)
  }

  lemma StillOwing(conns: seq<Connection>, y: World, z: World, i: nat, announced: Op, p: nat, q: nat)
    requires Owing(conns, y, i, announced, p) && Owing(conns, y, i, announced, q) && p != q && WellFormed(conns, z)
    requires z == Accepted(y, p, z.ctx) && z.complete == y.complete && z.ctx.aggEpsn[q] == y.ctx.aggEpsn[q]
    requires z.ctx.operation == y.ctx.operation && z.ctx.rootRank == y.ctx.rootRank
    requires if Aggregates(announced) then GoesOn(conns, z, i, announced) else z.ctx == y.ctx
    ensures Owing(conns, z, i, announced, q)
  {
    hide Inv, HasSent, Owed;
    if !Aggregates(announced) {
      forall c | 0 <= c < |conns|
        ensures HasSent(z.ctx, c, OwedNow(conns, z, c))
      {
        assert HasSent(y.ctx, c, OwedNow(conns, y, c));
      }
    }
  }

  lemma Waits(y: World, p: nat, q: nat)
    requires p < |y.done| && q < |y.done| && p != q && Aggregates(y.op) && y.done[q] == y.complete
    ensures Waiting(y.op, y.done[p := y.done[p] + 1], y.complete)
  {
    assert y.done[p := y.done[p] + 1][q] == y.complete && Participates(y.op, q);
  }

  /** Host p hands over its packet, and host q goes on owing its own. */
  lemma HandedOverBefore(conns: seq<Connection>, lead: nat, y: World, i: nat, announced: Op, p: nat, q: nat)
    requires Owing(conns, y, i, announced, p) && Owing(conns, y, i, announced, q) && p != q
    requires Fits(|conns|, lead, y.op) && lead > 0
    ensures Enabled(conns, lead, y, Event.Packet(p, NextFrame(conns, y, p)))
    ensures var z := Apply(conns, y, Event.Packet(p, NextFrame(conns, y, p)));
            && z == y.(ctx := z.ctx, done := y.done[p := y.done[p] + 1]) && Owing(conns, z, i, announced, q)
  {
    hide Handle, Inv, HasSent, Receives, Merged, Delivers, Waiting, Untouched;
    var f := NextFrame(conns, y, p);
    OwingMaySend(conns, lead, y, i, announced, p);
    NextPacketIsAccepted(conns, lead, y, p, f);
    Waits(y, p, q);
    if Aggregates(announced) {
      NextHandled(conns, y, i, announced, p, f);
      NextGoesOn(conns, lead, y, i, announced, p, f);
    } else {
      Dropped(conns, lead, y, i, announced, p);
    }
    StillOwing(conns, y, Apply(conns, y, Event.Packet(p, f)), i, announced, p, q);
  }

  /** The last one does. */
  lemma HandedOverLast(conns: seq<Connection>, lead: nat, y: World, i: nat, announced: Op, p: nat)
    requires Owing(conns, y, i, announced, p) && Fits(|conns|, lead, y.op) && lead > 0
    requires !Waiting(y.op, y.done[p := y.done[p] + 1], y.complete)
    requires PrimitiveOfOp(y.op) != PrimitiveOfOp(announced) || ParamOfOp(conns, y.op) != ParamOfOp(conns, announced)
    ensures Enabled(conns, lead, y, Event.Packet(p, NextFrame(conns, y, p)))
    ensures !StreamsRight(conns, Apply(conns, y, Event.Packet(p, NextFrame(conns, y, p))))
  {
    hide Handle, Inv, HasSent, Receives;
    OwingMaySend(conns, lead, y, i, announced, p);
    if Aggregates(announced) {
      var c := OtherReceiver(conns, y.op, announced);
      SentToOthers(conns, lead, y, i, announced, p, c);
    } else {
      Dropped(conns, lead, y, i, announced, p);
    }
  }

  lemma HandOver(conns: seq<Connection>, lead: nat, x: World, y: World, i: nat, announced: Op, p: nat)
    returns (z: World)
    requires HandedOver(conns, x, y, i, announced, p) && p < |conns| && Left(x, p) && x.done[p] == x.complete
    requires Fits(|conns|, lead, x.op) && lead > 0
    requires forall j :: 0 <= j < |conns| ==> x.done[j] >= x.complete
    requires Owing(conns, y, i, announced, p)
    requires PrimitiveOfOp(x.op) != PrimitiveOfOp(announced)
          || ParamOfOp(conns, x.op) != ParamOfOp(conns, announced)
    ensures y.done[p] < Count(y.op) && Enabled(conns, lead, y, Event.Packet(p, NextFrame(conns, y, p)))
    ensures z == Apply(conns, y, Event.Packet(p, NextFrame(conns, y, p)))
    ensures HandedOver(conns, x, z, i, announced, p + 1)
  {
    hide Apply, Enabled, GoesOn, HasSent, StreamsRight;
    z := Apply(conns, y, Event.Packet(p, NextFrame(conns, y, p)));
    if Left(x, p + 1) {
      forall q | p + 1 <= q < |conns| && x.done[q] == x.complete
        ensures z == y.(ctx := z.ctx, done := y.done[p := y.done[p] + 1]) && Owing(conns, z, i, announced, q)
        ensures Enabled(conns, lead, y, Event.Packet(p, NextFrame(conns, y, p)))
      {
        HandedOverBefore(conns, lead, y, i, announced, p, q);
      }
    } else {
      HandedOverLast(conns, lead, y, i, announced, p);
    }
  }

  lemma {:induction false} ReachHandedOver(conns: seq<Connection>, lead: nat, x: World, i: nat, announced: Op, p: nat)
    returns (es: seq<Event>, y: World)
    requires HandedOver(conns, x, x, i, announced, 0) && Left(x, 0) && p <= |conns|
    requires ValidWiring(conns) && Fits(|conns|, lead, x.op) && lead > 0
    requires forall j :: 0 <= j < |conns| ==> x.done[j] >= x.complete
    requires ValidOp(|conns|, announced)
          && (PrimitiveOfOp(x.op) != PrimitiveOfOp(announced) || ParamOfOp(conns, x.op) != ParamOfOp(conns, announced))
    ensures WellFormed(conns, y) && Leads(conns, lead, x, es, y) && OneOperation(es)
    ensures HandedOver(conns, x, y, i, announced, p)
  {
    hide Enabled, Apply, Owing, StreamsRight, Legal, Run;
    if p == 0 {
      NoEvents(conns, lead, x);
      return [], x;
    }
    var fs, z := ReachHandedOver(conns, lead, x, i, announced, p - 1);
    if !Left(x, p - 1) || x.done[p - 1] != x.complete {
      return fs, z;
    }
    y := HandOver(conns, lead, x, z, i, announced, p - 1);
    Then(conns, lead, x, fs, z, Event.Packet(p - 1, NextFrame(conns, z, p - 1)));
    es := fs + [Event.Packet(p - 1, NextFrame(conns, z, p - 1))];
  }

  lemma EarlyIsOwed(conns: seq<Connection>, x: World, i: nat, f: Frame)
    requires MidOperation(conns, x, i) && HostControl(conns, i, f)
    ensures var y := Early(conns, x, i, f);
            && HandedOver(conns, y, y, i, Announced(i, f), 0) && Left(y, 0)
            && forall j :: 0 <= j < |conns| ==> y.done[j] >= y.complete
  {
    hide Handle, SlotsInv, HasSent;
    var y, announced := Early(conns, x, i, f), Announced(i, f);
    EarlyGoesOn(conns, x, i, f);
    GoingOnIsRight(conns, y, i, announced);
    forall j | 0 <= j < |conns| && y.done[j] == y.complete
      ensures Owing(conns, y, i, announced, j)
    {
    }
  }

  /** If host i announces another operation, everybody else's next packet is enough to spoil the present one. */
  lemma EarlyControlSpoils(conns: seq<Connection>, lead: nat, x: World, i: nat, f: Frame) returns (es: seq<Event>)
    requires MidOperation(conns, x, i) && HostControl(conns, i, f) && Fits(|conns|, lead, x.op) && lead > 0
    requires !SameOperation(conns, x.op, f)
    ensures var y := Early(conns, x, i, f);
            Legal(conns, lead, y, es) && OneOperation(es) && !StreamsRight(conns, Run(conns, lead, y, es))
  {
    hide SlotsInv, Informed, HasSent, Handle, Owing, StreamsRight, Legal, Run;
    EarlyIsOwed(conns, x, i, f);
    AnnouncedIs(conns, i, f);
    var z;
    es, z := ReachHandedOver(conns, lead, Early(conns, x, i, f), i, Announced(i, f), |conns|);
  }

  /** A host begins its next operation while others are still at the present one: that is harmless, whatever packets
      come until they have finished, if and only if its control packet announces what is going on anyway. */
  lemma EarlyControlIsHarmlessIff(conns: seq<Connection>, lead: nat, x: World, i: nat, f: Frame)
    requires MidOperation(conns, x, i) && HostControl(conns, i, f) && Fits(|conns|, lead, x.op) && lead > 0
    ensures AlwaysRight(conns, lead, Early(conns, x, i, f)) <==> SameOperation(conns, x.op, f)
  {
    hide SlotsInv, Informed, HasSent, Handle, GoesOn, StreamsRight, Legal, Run;
    var y, announced := Early(conns, x, i, f), Announced(i, f);
    AnnouncedIs(conns, i, f);
    if SameOperation(conns, x.op, f) {
      EarlyGoesOn(conns, x, i, f);
      forall es | Legal(conns, lead, y, es) && OneOperation(es)
        ensures StreamsRight(conns, Run(conns, lead, y, es))
      {
        RunGoesOn(conns, lead, y, i, announced, es);
        GoingOnIsRight(conns, Run(conns, lead, y, es), i, announced);
      }
    } else {
      var es := EarlyControlSpoils(conns, lead, x, i, f);
    }
  }

  // ----- From a fresh switch

  /** A fresh switch and a Reduce of one packet, of which one host's contribution has arrived. */
  lemma OneContributed(conns: seq<Connection>, lead: nat, op: Op, i: nat) returns (es: seq<Event>, x: World)
    requires ValidWiring(conns) && |conns| >= 2 && i < |conns| && lead > 0
    requires ValidOp(|conns|, op) && Aggregates(op) && Count(op) == 1
    ensures Leads(conns, lead, Start(conns), es, x) && MidOperation(conns, x, i) && x.op == op
  {
    hide Handle, SlotsInv, HasSent, Legal, Run, Informed;
    var start := Start(conns);
    InvInitially(conns);
    var begun := Begin(start, op);
    AlignedKeepsInv(conns, lead, start, op);
    OneEvent(conns, lead, start, Event.Next(op));
    var fs, y := ReachControlled(conns, lead, begun, |conns|);
    ControlledIsReady(conns, start, op, y);
    Both(conns, lead, start, [Event.Next(op)], begun, fs, y);
    RunKeepsInv(conns, lead, begun, fs);
    var e := Event.Packet(i, NextFrame(conns, y, i));
    x := FirstContribution(conns, lead, y, i);
    Then(conns, lead, start, [Event.Next(op)] + fs, y, e);
    es := [Event.Next(op)] + fs + [e];
  }

  lemma FirstContribution(conns: seq<Connection>, lead: nat, y: World, i: nat) returns (x: World)
    requires Ready(conns, y) && Inv(conns, y) && i < |conns| && lead > 0 && Count(y.op) == 1
    ensures Enabled(conns, lead, y, Event.Packet(i, NextFrame(conns, y, i)))
    ensures x == Apply(conns, y, Event.Packet(i, NextFrame(conns, y, i))) && MidOperation(conns, x, i) && x.op == y.op
  {
    hide Handle, Apply, SlotsInv, HasSent, Informed;
    var g: nat := if i == 0 then 1 else 0;
    NextFrameEnabled(conns, lead, y, i, g);
    NextPacketKeepsInv(conns, lead, y, i, NextFrame(conns, y, i));
    x := LooseStep(conns, y, i, g);
  }

  /** After one packet of a Reduce its sender goes on to something else, and the root does not get the result. */
  lemma FirstReduceIsSpoilt(conns: seq<Connection>, lead: nat, op: Op, i: nat, f: Frame)
    returns (before: seq<Event>, x: World, after: seq<Event>)
    requires ValidWiring(conns) && |conns| >= 2 && i < |conns| && lead > 0
    requires ValidOp(|conns|, op) && op.ReduceOp? && Count(op) == 1 && conns[i].peerId != op.root
    requires HostControl(conns, i, f) && !SameOperation(conns, op, f)
    ensures Leads(conns, lead, Start(conns), before, x) && MidOperation(conns, x, i) && x.op == op
    ensures var y := Early(conns, x, i, f);
            Legal(conns, lead, y, after) && OneOperation(after) && !StreamsRight(conns, Run(conns, lead, y, after))
  {
    before, x := OneContributed(conns, lead, op, i);
    after := EarlyControlSpoils(conns, lead, x, i, f);
  }
}
