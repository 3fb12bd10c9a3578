/** How far one connection may run ahead of the others: an aggregation that lets a connection get a whole ring ahead
    adds that connection's packet to the sum of another number.
 */
module StreamSkew {
  import opened Words
  import opened Rings
  import opened Rules
  import opened SwitchMain
  import opened OutputStreams
  import opened OutputStreamSafety
  import opened StreamAlignment

  /** In the middle of an aggregation nothing is complete and nothing has been sent, whatever the slots hold. */
  ghost predicate Loose(conns: seq<Connection>, x: World) {
    && ValidWiring(conns) && WellFormed(conns, x) && Aggregates(x.op) && x.complete == 0
    && x.ctx.operation == PrimitiveOfOp(x.op) && x.ctx.rootRank == ParamOfOp(conns, x.op)
    && (forall i :: 0 <= i < |conns| ==> x.started[i] && x.ctx.aggEpsn[i] == x.base[i] + 1 + x.done[i])
    && (forall c :: 0 <= c < |conns| ==> HasSent(x.ctx, c, OwedByAll(conns, x.past, c)))
  }

  /** Connection h's next packet. */
  function NextFrame(conns: seq<Connection>, x: World, h: nat): Frame
    requires WellFormed(conns, x) && h < |conns| && x.done[h] < Count(x.op)
  {
    var data := Script(|conns|, x.op, h, x.done[h]);
    Frame(OpcodeAt(x.done[h]), x.ctx.aggEpsn[h], 0, 0, 4 * |data|, data)
  }

  /** Connection h may send, and connection g has not sent anything yet. */
  ghost predicate MaySend(conns: seq<Connection>, x: World, h: nat, g: nat) {
    && Loose(conns, x) && h < |conns| && g < |conns| && g != h && x.done[g] == 0
    && x.done[h] < Count(x.op) && x.ctx.aggEpsn[h] < PSN_SPACE
  }

  lemma NextFrameEnabled(conns: seq<Connection>, lead: nat, x: World, h: nat, g: nat)
    requires MaySend(conns, x, h, g) && x.done[h] < lead
    ensures Enabled(conns, lead, x, Packet(h, NextFrame(conns, x, h))) && InSequence(x, h, NextFrame(conns, x, h))
  {
  }

  /** What the switch makes of it: one more contribution to whatever slot the number chooses, which is sent when that
      was the last one missing. */
  lemma NextFrameHandled(conns: seq<Connection>, x: World, h: nat, g: nat)
    requires MaySend(conns, x, h, g)
    ensures var f := NextFrame(conns, x, h);
            var slot := Contributed(x.ctx.slots[Idx(f.psn)], h, f.data);
            var full := slot.degree == |conns|;
            var t := Handle(conns, TableOf(conns), x.ctx, h, f);
            && t == x.ctx.(aggEpsn := x.ctx.aggEpsn[h := x.ctx.aggEpsn[h] + 1], sendPsn := t.sendPsn, out := t.out,
                           slots := x.ctx.slots[Idx(f.psn) := if full then slot.(degree := 0, arrived := {}) else slot],
                           replies := x.ctx.replies + [SwitchMain.Ack(h, f.psn)])
            && Delivers(conns, x.op, x.ctx, t, full, slot.buffer[..|f.data|])
  {
    hide Handle, Aggregate, Merged, Intended, Lookup, Delivers;
    assert IsData(NextFrame(conns, x, h)) && !HasImm(NextFrame(conns, x, h));
    var f := NextFrame(conns, x, h);
    var rule := RuleFor(conns, x.op, h);
    var s := Replied(Advance(x.ctx, h), SwitchMain.Ack(rule.ackConn, f.psn));
    NextPacketIsAggregated(conns, x.ctx, x.op, h, f);
    AggregateEffect(conns, s, x.op, h, f.psn, f.data, Contributed(s.slots[Idx(f.psn)], h, f.data));
    ParticipantFindsRule(conns, x.op, h);
    FoundRuleAnswersHost(conns, h, x.ctx.operation, x.ctx.rootRank);
    SameSent(conns, x.op, x.ctx, s, Handle(conns, TableOf(conns), x.ctx, h, f),
             Contributed(s.slots[Idx(f.psn)], h, f.data).degree == |conns|,
             Contributed(s.slots[Idx(f.psn)], h, f.data).buffer[..|f.data|]);
  }

  /** While somebody has not sent anything, nothing is complete. */
  lemma StillWaiting(conns: seq<Connection>, x: World, h: nat, g: nat)
    requires MaySend(conns, x, h, g)
    ensures Apply(conns, x, Packet(h, NextFrame(conns, x, h)))
         == x.(ctx := Handle(conns, TableOf(conns), x.ctx, h, NextFrame(conns, x, h)),
               done := x.done[h := x.done[h] + 1])
  {
    hide Handle;
    assert x.done[h := x.done[h] + 1][g] == 0 && Participates(x.op, g);
  }

  /** The packet goes into a slot that lacks more than it: nothing is sent. */
  lemma LooseStep(conns: seq<Connection>, x: World, h: nat, g: nat) returns (y: World)
    requires MaySend(conns, x, h, g) && x.ctx.slots[Idx(x.ctx.aggEpsn[h])].degree + 1 != |conns|
    ensures y == Apply(conns, x, Packet(h, NextFrame(conns, x, h)))
    ensures Loose(conns, y) && y == x.(ctx := y.ctx, done := x.done[h := x.done[h] + 1])
    ensures y.ctx.aggEpsn == x.ctx.aggEpsn[h := x.ctx.aggEpsn[h] + 1]
    ensures y.ctx.replies == x.ctx.replies + [SwitchMain.Ack(h, x.ctx.aggEpsn[h])]
    ensures var k := Idx(x.ctx.aggEpsn[h]);
            && y.ctx.slots[k].degree == x.ctx.slots[k].degree + 1
            && forall s :: 0 <= s < N && s != k ==> y.ctx.slots[s] == x.ctx.slots[s]
  {
    hide Handle, Merged;
    y := Apply(conns, x, Packet(h, NextFrame(conns, x, h)));
    StillWaiting(conns, x, h, g);
    NextFrameHandled(conns, x, h, g);
    forall c | 0 <= c < |conns|
      ensures HasSent(y.ctx, c, OwedByAll(conns, y.past, c))
    {
      var owed := OwedByAll(conns, x.past, c);
      assert HasSent(x.ctx, c, owed);
      assert owed + [] == owed;
    }
  }

  /** The packet fills its slot, although nothing is complete: a result is sent that nobody is owed. */
  lemma SpoiltStep(conns: seq<Connection>, x: World, h: nat, g: nat) returns (y: World)
    requires MaySend(conns, x, h, g) && x.ctx.slots[Idx(x.ctx.aggEpsn[h])].degree + 1 == |conns|
    ensures y == Apply(conns, x, Packet(h, NextFrame(conns, x, h))) && !StreamsRight(conns, y)
  {
    hide Handle, Merged;
    var f := NextFrame(conns, x, h);
    var slot := Contributed(x.ctx.slots[Idx(f.psn)], h, f.data);
    y := Apply(conns, x, Packet(h, f));
    StillWaiting(conns, x, h, g);
    NextFrameHandled(conns, x, h, g);
    var c := SomeReceiver(conns, x.op);
    var owed := OwedByAll(conns, x.past, c);
    assert HasSent(x.ctx, c, owed);
    assert HasSent(y.ctx, c, owed + [slot.buffer[..|f.data|]]);
    assert OwedNow(conns, y, c) == owed + Owed(conns, x.op, c, 0) == owed;
    assert |Payloads(y.ctx.out[c])| == |owed| + 1;
  }

  // ----- One connection a whole ring ahead

  /** All control packets and nothing else have arrived, and the connections' first packets choose the same slot. */
  ghost predicate Ready(conns: seq<Connection>, x: World) {
    && Loose(conns, x) && |conns| >= 2 && Idle(x.ctx.slots)
    && forall i :: 0 <= i < |conns| ==>
         x.done[i] == 0 && Idx(x.ctx.aggEpsn[i]) == Idx(x.ctx.aggEpsn[0]) && x.ctx.aggEpsn[i] + N < PSN_SPACE
  }

  /** From x to y connection f has sent m packets, and nobody else any. */
  ghost predicate Ahead(conns: seq<Connection>, x: World, y: World, f: nat, m: nat) {
    && Ready(conns, x) && Loose(conns, y) && f < |conns| && m <= N
    && y == x.(ctx := y.ctx, done := x.done[f := m])
    && y.ctx.aggEpsn == x.ctx.aggEpsn[f := x.ctx.aggEpsn[f] + m]
    && Filled(y.ctx.slots, x.ctx.aggEpsn[f], m)
  }

  /** Of the slots of a ring of numbers from b on those from b + m on are empty, and the first is not. */
  predicate Filled(slots: seq<Slot>, b: nat, m: nat)
    requires |slots| == N
  {
    && (forall q :: b + m <= q < b + N ==> slots[Idx(q)].degree == 0)
    && (m > 0 ==> slots[Idx(b)].degree == 1)
  }

  lemma OneMoreFilled(slots: seq<Slot>, b: nat, m: nat, slots': seq<Slot>)
    requires |slots| == |slots'| == N && Filled(slots, b, m) && m < N
    requires slots'[Idx(b + m)].degree == slots[Idx(b + m)].degree + 1
    requires forall s :: 0 <= s < N && s != Idx(b + m) ==> slots'[s] == slots[s]
    ensures Filled(slots', b, m + 1)
  {
    forall q | b + m + 1 <= q < b + N
      ensures slots'[Idx(q)].degree == 0
    {
      if Idx(q) == Idx(b + m) {
        SlotsAreDistinct(q, b + m);
      }
    }
    if m > 0 && Idx(b) == Idx(b + m) {
      SlotsAreDistinct(b, b + m);
    }
  }

  lemma AheadInitially(conns: seq<Connection>, x: World, f: nat)
    requires Ready(conns, x) && f < |conns|
    ensures Ahead(conns, x, x, f, 0)
  {
    assert x.done[f := 0] == x.done;
  }

  lemma AheadMaySend(conns: seq<Connection>, x: World, y: World, f: nat, g: nat, m: nat)
    requires Ahead(conns, x, y, f, m) && g < |conns| && g != f && m < Count(x.op)
    ensures MaySend(conns, y, f, g) && y.ctx.aggEpsn[f] == x.ctx.aggEpsn[f] + m && y.done[f] == m
  {
    hide HasSent, Filled;
  }

  lemma AheadNext(conns: seq<Connection>, x: World, y: World, f: nat, m: nat, z: World)
    requires Ahead(conns, x, y, f, m) && m < N && Loose(conns, z)
    requires z == y.(ctx := z.ctx, done := y.done[f := m + 1])
    requires z.ctx.aggEpsn == y.ctx.aggEpsn[f := x.ctx.aggEpsn[f] + m + 1]
    requires Filled(z.ctx.slots, x.ctx.aggEpsn[f], m + 1)
    ensures Ahead(conns, x, z, f, m + 1)
  {
    hide HasSent, Filled, Idle, Idx;
    assert x.done[f := m][f := m + 1] == x.done[f := m + 1];
  }

  lemma AheadStep(conns: seq<Connection>, x: World, y: World, f: nat, g: nat, m: nat) returns (z: World)
    requires Ahead(conns, x, y, f, m) && g < |conns| && g != f && m < N && m < Count(x.op)
    ensures MaySend(conns, y, f, g) && z == Apply(conns, y, Packet(f, NextFrame(conns, y, f)))
    ensures Ahead(conns, x, z, f, m + 1)
    ensures z.ctx.replies == y.ctx.replies + [SwitchMain.Ack(f, x.ctx.aggEpsn[f] + m)]
  {
    hide HasSent, Idx, Filled, Apply;
    AheadMaySend(conns, x, y, f, g, m);
    FirstUnfilled(y.ctx.slots, x.ctx.aggEpsn[f], m);
    z := LooseStep(conns, y, f, g);
    OneMoreFilled(y.ctx.slots, x.ctx.aggEpsn[f], m, z.ctx.slots);
    AheadNext(conns, x, y, f, m, z);
  }

  lemma FirstUnfilled(slots: seq<Slot>, b: nat, m: nat)
    requires |slots| == N && Filled(slots, b, m) && m < N
    ensures slots[Idx(b + m)].degree == 0
  {
  }

  /** Connections before p other than f and g. */
  function Others(p: nat, f: nat, g: nat): int {
    p - (if f < p then 1 else 0) - (if g < p then 1 else 0)
  }

  /** Connection f has sent a ring of packets and one more, g none, and the others before p one each.  As soon as the
      slot of packet 0 has filled up that way, a result has been sent that nobody is owed. */
  ghost predicate Overtaken(conns: seq<Connection>, x: World, y: World, f: nat, g: nat, p: nat) {
    && Ready(conns, x) && WellFormed(conns, y) && f < |conns| && g < |conns| && f != g && p <= |conns|
    && if Others(p, f, g) + 2 < |conns| then
         && Loose(conns, y) && y == x.(ctx := y.ctx, done := y.done)
         && (forall i :: 0 <= i < |conns| ==>
               && y.done[i] == (if i == f then N + 1 else if i < p && i != g then 1 else 0)
               && y.ctx.aggEpsn[i] == x.ctx.aggEpsn[i] + y.done[i])
         && y.ctx.slots[Idx(x.ctx.aggEpsn[0])].degree == Others(p, f, g) + 2
       else !StreamsRight(conns, y)
  }

  lemma OvertakeStep(conns: seq<Connection>, x: World, y: World, f: nat, g: nat) returns (z: World)
    requires Ahead(conns, x, y, f, N) && g < |conns| && g != f && N < Count(x.op)
    ensures MaySend(conns, y, f, g) && z == Apply(conns, y, Packet(f, NextFrame(conns, y, f)))
    ensures WellFormed(conns, z) && Overtaken(conns, x, z, f, g, 0)
  {
    hide HasSent, StreamsRight, Apply, NextFrame, Idle, Idx;
    RingIsRound(x.ctx.aggEpsn[f]);
    if |conns| == 2 {
      z := SpoiltStep(conns, y, f, g);
    } else {
      z := LooseStep(conns, y, f, g);
    }
  }

  lemma RingIsRound(p: nat)
    ensures Idx(p + N) == Idx(p)
  {
  }

  /** Connection p is passed over, or sends its packet 0. */
  predicate PassedOver(n: nat, f: nat, g: nat, p: nat) {
    p == f || p == g || Others(p, f, g) + 2 >= n
  }

  lemma OvertakenStep(conns: seq<Connection>, x: World, y: World, f: nat, g: nat, p: nat) returns (z: World)
    requires Overtaken(conns, x, y, f, g, p) && p < |conns| && 0 < Count(x.op)
    ensures WellFormed(conns, y) && WellFormed(conns, z)
    ensures if PassedOver(|conns|, f, g, p) then z == y
            else MaySend(conns, y, p, g) && y.done[p] == 0
                 && z == Apply(conns, y, Packet(p, NextFrame(conns, y, p)))
    ensures Overtaken(conns, x, z, f, g, p + 1)
  {
    hide HasSent, StreamsRight, Apply, NextFrame, Idle, Idx;
    if PassedOver(|conns|, f, g, p) {
      z := y;
    } else if Others(p, f, g) + 3 == |conns| {
      z := SpoiltStep(conns, y, p, g);
    } else {
      z := LooseStep(conns, y, p, g);
    }
  }

  lemma {:induction false} ReachAhead(conns: seq<Connection>, lead: nat, x: World, f: nat, g: nat, m: nat)
    returns (es: seq<Event>, y: World)
    requires Ready(conns, x) && f < |conns| && g < |conns| && f != g && m <= N && m <= lead && m <= Count(x.op)
    ensures WellFormed(conns, y) && Leads(conns, lead, x, es, y) && Ahead(conns, x, y, f, m) && OneOperation(es)
  {
    hide Enabled, Apply, HasSent;
    if m == 0 {
      NoEvents(conns, lead, x);
      AheadInitially(conns, x, f);
      return [], x;
    }
    var fs, z := ReachAhead(conns, lead, x, f, g, m - 1);
    y := AheadStep(conns, x, z, f, g, m - 1);
    NextFrameEnabled(conns, lead, z, f, g);
    Then(conns, lead, x, fs, z, Packet(f, NextFrame(conns, z, f)));
    es := fs + [Packet(f, NextFrame(conns, z, f))];
  }

  lemma ReachFirstOvertaken(conns: seq<Connection>, lead: nat, x: World, f: nat, g: nat)
    returns (es: seq<Event>, y: World)
    requires Ready(conns, x) && f < |conns| && g < |conns| && f != g && N < lead && N < Count(x.op)
    ensures WellFormed(conns, y) && Leads(conns, lead, x, es, y) && Overtaken(conns, x, y, f, g, 0) && OneOperation(es)
  {
    hide Enabled, Apply, HasSent, Overtaken, Filled, Legal, Run;
    var fs, z := ReachAhead(conns, lead, x, f, g, N);
    y := OvertakeStep(conns, x, z, f, g);
    NextFrameEnabled(conns, lead, z, f, g);
    Then(conns, lead, x, fs, z, Packet(f, NextFrame(conns, z, f)));
    es := fs + [Packet(f, NextFrame(conns, z, f))];
  }

  lemma {:induction false} ReachOvertaken(conns: seq<Connection>, lead: nat, x: World, f: nat, g: nat, p: nat)
    returns (es: seq<Event>, y: World)
    requires Ready(conns, x) && f < |conns| && g < |conns| && f != g && p <= |conns| && N < lead && N < Count(x.op)
    ensures WellFormed(conns, y) && Leads(conns, lead, x, es, y) && Overtaken(conns, x, y, f, g, p) && OneOperation(es)
  {
    hide Enabled, Apply, HasSent, Overtaken, Others, Idle, Legal, Run;
    if p == 0 {
      es, y := ReachFirstOvertaken(conns, lead, x, f, g);
      return;
    }
    var fs, z := ReachOvertaken(conns, lead, x, f, g, p - 1);
    y := OvertakenStep(conns, x, z, f, g, p - 1);
    if PassedOver(|conns|, f, g, p - 1) {
      return fs, y;
    }
    NextFrameEnabled(conns, lead, z, p - 1, g);
    Then(conns, lead, x, fs, z, Packet(p - 1, NextFrame(conns, z, p - 1)));
    es := fs + [Packet(p - 1, NextFrame(conns, z, p - 1))];
  }

  /** At the end a slot has filled up without anything being complete. */
  lemma OvertakenIsWrong(conns: seq<Connection>, x: World, y: World, f: nat, g: nat)
    requires Overtaken(conns, x, y, f, g, |conns|)
    ensures !StreamsRight(conns, y)
  {
  }

  // ----- From the beginning of the operation

  /** The operation has begun and everybody's control packet has arrived. */
  lemma ControlledIsReady(conns: seq<Connection>, x: World, op: Op, y: World)
    requires Inv(conns, x) && Finished(x) && ValidOp(|conns|, op) && Aggregates(op) && |conns| >= 2
    requires Aligned(x.ctx.aggEpsn) && forall i :: 0 <= i < |conns| ==> x.ctx.aggEpsn[i] + 1 + N < PSN_SPACE
    requires WellFormed(conns, Begin(x, op)) && WellFormed(conns, y)
    requires Controlled(conns, Begin(x, op), y, |conns|)
    ensures Ready(conns, y)
  {
    FinishedLeavesNothing(conns, x);
    NextSlotsAgree(x.ctx.aggEpsn);
    forall c | 0 <= c < |conns|
      ensures HasSent(y.ctx, c, OwedByAll(conns, y.past, c))
    {
      assert HasSent(x.ctx, c, OwedNow(conns, x, c));
      NextOwesTheSame(conns, x, Begin(x, op), op, c);
    }
  }

  lemma OvertakingRun(conns: seq<Connection>, lead: nat, x: World, op: Op) returns (es: seq<Event>)
    requires Inv(conns, x) && Finished(x) && ValidOp(|conns|, op) && Aggregates(op) && |conns| >= 2
    requires Aligned(x.ctx.aggEpsn) && forall i :: 0 <= i < |conns| ==> x.ctx.aggEpsn[i] + 1 + N < PSN_SPACE
    requires lead > N && Count(op) > N
    ensures WellFormed(conns, Begin(x, op)) && Legal(conns, lead, Begin(x, op), es) && OneOperation(es)
    ensures !StreamsRight(conns, Run(conns, lead, Begin(x, op), es))
  {
    hide Enabled, Apply, SlotsInv, Informed, Within, HasSent, StreamsRight;
    var begun := Begin(x, op);
    var es1, y := ReachControlled(conns, lead, begun, |conns|);
    ControlledIsReady(conns, x, op, y);
    var es2, z := ReachOvertaken(conns, lead, y, 1, 0, |conns|);
    OvertakenIsWrong(conns, y, z, 1, 0);
    Both(conns, lead, begun, es1, y, es2, z);
    es := es1 + es2;
  }

  lemma {:induction false} Both(conns: seq<Connection>, lead: nat, x: World, es: seq<Event>, y: World, fs: seq<Event>,
                                z: World)
    requires ValidWiring(conns) && WellFormed(conns, x) && WellFormed(conns, y)
    requires Leads(conns, lead, x, es, y) && Leads(conns, lead, y, fs, z)
    ensures Leads(conns, lead, x, es + fs, z)
    decreases |es|
  {
    hide Enabled, Handle, Accepted, CompleteAfter, IsData;
    if es == [] {
      assert es + fs == fs;
    } else {
      assert Leads(conns, lead, Apply(conns, x, es[0]), es[1..], y);
      Both(conns, lead, Apply(conns, x, es[0]), es[1..], y, fs, z);
      assert (es + fs)[1..] == es[1..] + fs;
    }
  }

  // ----- Exactly when an aggregation is right

  /** Whatever happens up to the end of the operation, the streams stay right. */
  ghost predicate AlwaysRight(conns: seq<Connection>, lead: nat, x: World)
    requires ValidWiring(conns) && WellFormed(conns, x)
  {
    forall es :: Legal(conns, lead, x, es) && OneOperation(es) ==> StreamsRight(conns, Run(conns, lead, x, es))
  }

  lemma InvIsRight(conns: seq<Connection>, x: World)
    requires Inv(conns, x)
    ensures StreamsRight(conns, x)
  {
  }

  /** An aggregation is right in every run if and only if the connections' input numbers choose the same slot when it
      begins, and the ring is enough: no connection may get a whole ring ahead of another, or there are no more
      packets than slots, or there is only one connection. */
  lemma AggregationIsRightIff(conns: seq<Connection>, lead: nat, x: World, op: Op)
    requires Inv(conns, x) && Finished(x) && ValidOp(|conns|, op) && Aggregates(op) && Count(op) > 0 && lead > 0
    requires forall i :: 0 <= i < |conns| ==> x.ctx.aggEpsn[i] + 1 + N < PSN_SPACE
    ensures WellFormed(conns, Begin(x, op))
    ensures AlwaysRight(conns, lead, Begin(x, op)) <==> Aligned(x.ctx.aggEpsn) && Fits(|conns|, lead, op)
  {
    hide Enabled, Apply, SlotsInv, Informed, Within, HasSent, StreamsRight, Finished;
    if !Aligned(x.ctx.aggEpsn) {
      FinishedLeavesNothing(conns, x);
      var es := MisalignedGoesWrong(conns, lead, x, op);
    } else if !Fits(|conns|, lead, op) {
      var es := OvertakingRun(conns, lead, x, op);
    } else {
      AlignedKeepsInv(conns, lead, x, op);
      forall es | Legal(conns, lead, Begin(x, op), es) && OneOperation(es)
        ensures StreamsRight(conns, Run(conns, lead, Begin(x, op), es))
      {
        RunKeepsInv(conns, lead, Begin(x, op), es);
        InvIsRight(conns, Run(conns, lead, Begin(x, op), es));
      }
    }
  }

  lemma AlignedKeepsInv(conns: seq<Connection>, lead: nat, x: World, op: Op)
    requires Inv(conns, x) && Finished(x) && ValidOp(|conns|, op) && Aggregates(op) && Aligned(x.ctx.aggEpsn)
    ensures Inv(conns, Begin(x, op))
  {
    NextKeepsInv(conns, lead, x, op);
    assert Begin(x, op) == Apply(conns, x, Next(op));
  }

  /** If nothing holds the connections back, it is the number of packets alone that decides. */
  lemma UnboundedIsRightIff(conns: seq<Connection>, lead: nat, x: World, op: Op)
    requires Inv(conns, x) && Finished(x) && ValidOp(|conns|, op) && Aggregates(op) && Count(op) > 0
    requires lead >= Count(op) && |conns| >= 2 && Aligned(x.ctx.aggEpsn)
    requires forall i :: 0 <= i < |conns| ==> x.ctx.aggEpsn[i] + 1 + N < PSN_SPACE
    ensures WellFormed(conns, Begin(x, op))
    ensures AlwaysRight(conns, lead, Begin(x, op)) <==> Count(op) <= N
  {
    AggregationIsRightIff(conns, lead, x, op);
  }

  /** After a Broadcast both the Broadcast's length and the aggregation's matter. */
  lemma RightAfterBroadcastIff(conns: seq<Connection>, lead: nat, x: World, d: nat, op: Op)
    requires Inv(conns, x) && Finished(x) && x.op.BroadcastOp? && |conns| >= 2 && lead > 0
    requires forall i :: 0 <= i < |conns| ==> x.base[i] == d
    requires ValidOp(|conns|, op) && Aggregates(op) && Count(op) > 0
    requires forall i :: 0 <= i < |conns| ==> x.ctx.aggEpsn[i] + 1 + N < PSN_SPACE
    ensures WellFormed(conns, Begin(x, op))
    ensures AlwaysRight(conns, lead, Begin(x, op)) <==>
            (Count(x.op) + 1) % SWITCH_ARRAY_LENGTH == 0 && (lead <= N || Count(op) <= N)
  {
    AlignedAfterBroadcastIff(conns, x, d);
    AggregationIsRightIff(conns, lead, x, op);
  }
}
