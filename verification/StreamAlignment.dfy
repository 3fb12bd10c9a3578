/** When the input numbers of the connections do not choose the same slots, an aggregation goes wrong; and a
    Broadcast, for which only the sender uses up input numbers, brings that about. */
module StreamAlignment {
  import opened Words
  import opened Rings
  import opened Rules
  import opened SwitchMain
  import opened OutputStreams
  import opened OutputStreamSafety

  /** Operation `op` is begun after the present one, whether or not the input numbers agree. */
  ghost function Begin(x: World, op: Op): World {
    var n := |x.done|;
    World(x.ctx, x.past + [x.op], op, x.ctx.aggEpsn, seq(n, i => false), seq(n, i => 0), 0)
  }

  /** Every connection has been sent exactly what it is owed. */
  ghost predicate StreamsRight(conns: seq<Connection>, x: World)
    requires WellFormed(conns, x)
  {
    x.complete <= Count(x.op) && forall c :: 0 <= c < |conns| ==> HasSent(x.ctx, c, OwedNow(conns, x, c))
  }

  /** The run stays within the present operation. */
  predicate OneOperation(es: seq<Event>) {
    forall e :: e in es ==> !e.Next?
  }

  // ----- A run in which each connection delivers its control packet and its first data packet

  ghost predicate Leads(conns: seq<Connection>, lead: nat, x: World, es: seq<Event>, y: World)
    requires ValidWiring(conns) && WellFormed(conns, x)
  {
    Legal(conns, lead, x, es) && Run(conns, lead, x, es) == y
  }

  lemma OneEvent(conns: seq<Connection>, lead: nat, x: World, e: Event)
    requires ValidWiring(conns) && WellFormed(conns, x) && Enabled(conns, lead, x, e)
    ensures Leads(conns, lead, x, [e], Apply(conns, x, e))
  {
    assert [e][1..] == [];
    assert Legal(conns, lead, Apply(conns, x, e), []);
  }

  lemma {:induction false} Then(conns: seq<Connection>, lead: nat, x: World, es: seq<Event>, y: World, e: Event)
    requires ValidWiring(conns) && WellFormed(conns, x) && WellFormed(conns, y)
    requires Leads(conns, lead, x, es, y) && Enabled(conns, lead, y, e)
    ensures Leads(conns, lead, x, es + [e], Apply(conns, y, e))
    decreases |es|
  {
    hide Enabled, Handle, Accepted, CompleteAfter;
    if es == [] {
      OneEvent(conns, lead, x, e);
      assert es + [e] == [e];
    } else {
      assert Leads(conns, lead, Apply(conns, x, es[0]), es[1..], y);
      Then(conns, lead, Apply(conns, x, es[0]), es[1..], y, e);
      assert (es + [e])[1..] == es[1..] + [e];
    }
  }

  /** The first k connections have delivered their control packets. */
  ghost predicate Controlled(conns: seq<Connection>, x: World, y: World, k: nat)
    requires WellFormed(conns, x) && WellFormed(conns, y) && Aggregates(x.op)
  {
    && y == x.(ctx := y.ctx, started := y.started)
    && (forall i :: 0 <= i < |conns| ==>
          (y.started[i] <==> i < k) && y.ctx.aggEpsn[i] == x.ctx.aggEpsn[i] + if i < k then 1 else 0)
    && y.ctx.out == x.ctx.out && y.ctx.sendPsn == x.ctx.sendPsn && y.ctx.slots == x.ctx.slots
    && (k > 0 ==> y.ctx.operation == PrimitiveOfOp(x.op) && y.ctx.rootRank == ParamOfOp(conns, x.op))
  }

  function ControlFrame(op: Op, psn: nat): Frame
    requires Aggregates(op)
  {
    Frame(SEND_ONLY_WITH_IMM, psn, if op.AllReduceOp? then DEST_RANK_ALL else op.root,
          if op.AllReduceOp? then 0 else 1, 4, [0])
  }

  lemma ControlStep(conns: seq<Connection>, lead: nat, x: World, z: World, k: nat) returns (y: World, e: Event)
    requires ValidWiring(conns) && WellFormed(conns, x) && WellFormed(conns, z) && Aggregates(x.op)
    requires k < |conns| && Controlled(conns, x, z, k)
    ensures Enabled(conns, lead, z, e) && y == Apply(conns, z, e) && Controlled(conns, x, y, k + 1) && e.Control?
  {
    var f := ControlFrame(x.op, z.ctx.aggEpsn[k]);
    e := Control(k, f);
    y := Apply(conns, z, e);
    ControlIsRecorded(conns, z.ctx, x.op, k, f);
  }

  lemma {:induction false} ReachControlled(conns: seq<Connection>, lead: nat, x: World, k: nat)
    returns (es: seq<Event>, y: World)
    requires ValidWiring(conns) && WellFormed(conns, x) && Aggregates(x.op) && k <= |conns|
    requires forall i :: 0 <= i < |conns| ==> !x.started[i]
    ensures WellFormed(conns, y) && Leads(conns, lead, x, es, y) && Controlled(conns, x, y, k)
    ensures forall e :: e in es ==> e.Control?
  {
    if k == 0 {
      assert Legal(conns, lead, x, []);
      return [], x;
    }
    var fs, z := ReachControlled(conns, lead, x, k - 1);
    var e;
    y, e := ControlStep(conns, lead, x, z, k - 1);
    Then(conns, lead, x, fs, z, e);
    es := fs + [e];
  }

  /** Connections below k whose first data packet chooses slot s. */
  function Hits(epsn: seq<nat>, k: nat, s: nat): (h: nat)
    requires k <= |epsn|
    ensures h <= k
  {
    if k == 0 then 0 else Hits(epsn, k - 1, s) + if Idx(epsn[k - 1] + 1) == s then 1 else 0
  }

  lemma {:induction false} AllHitIsAligned(epsn: seq<nat>, k: nat, s: nat)
    requires k <= |epsn| && Hits(epsn, k, s) == k
    ensures forall i :: 0 <= i < k ==> Idx(epsn[i] + 1) == s
  {
    if k > 0 {
      AllHitIsAligned(epsn, k - 1, s);
    }
  }

  lemma MisalignedNeverFills(epsn: seq<nat>, k: nat, s: nat)
    requires k <= |epsn| && !Aligned(epsn)
    ensures Hits(epsn, k, s) < |epsn|
  {
    var i, j :| 0 <= i < |epsn| && 0 <= j < |epsn| && Idx(epsn[i]) != Idx(epsn[j]);
    NextSlotsAgreeIff(epsn[i], epsn[j]);
    if Hits(epsn, k, s) == |epsn| {
      AllHitIsAligned(epsn, |epsn|, s);
    }
  }

  /** The first k connections have also delivered their first data packet, and no slot has filled up. */
  ghost predicate Delivered(conns: seq<Connection>, x: World, y: World, k: nat)
    requires WellFormed(conns, x) && WellFormed(conns, y) && Aggregates(x.op)
  {
    && y == x.(ctx := y.ctx, started := y.started, done := y.done, complete := if k < |conns| then 0 else 1)
    && (forall i :: 0 <= i < |conns| ==>
          y.started[i] && y.done[i] == (if i < k then 1 else 0) && y.ctx.aggEpsn[i] == x.ctx.aggEpsn[i] + 1 + y.done[i])
    && y.ctx.out == x.ctx.out && y.ctx.sendPsn == x.ctx.sendPsn
    && y.ctx.operation == PrimitiveOfOp(x.op) && y.ctx.rootRank == ParamOfOp(conns, x.op)
    && k <= |conns|
    && (forall s :: 0 <= s < SWITCH_ARRAY_LENGTH ==> y.ctx.slots[s].degree == Hits(x.ctx.aggEpsn, k, s))
  }

  function DataFrame(conns: seq<Connection>, x: World, k: nat): Frame
    requires WellFormed(conns, x) && Aggregates(x.op) && Count(x.op) > 0 && k < |conns|
  {
    var data := Script(|conns|, x.op, k, 0);
    Frame(SEND_ONLY, x.ctx.aggEpsn[k] + 1, 0, 0, 4 * |data|, data)
  }

  /** A contribution that does not fill its slot sends nothing. */
  lemma UnfilledSlot(conns: seq<Connection>, s: Ctx, rule: Rule, i: nat, psn: nat, data: Payload)
    requires Shaped(|conns|, s) && |data| <= BUFFER_WORDS && s.operation != Broadcast
    requires s.slots[Idx(psn)].degree + 1 < |conns|
    ensures Aggregate(conns, s, rule, i, psn, data) == WithSlot(s, Idx(psn), Contributed(s.slots[Idx(psn)], i, data))
  {
  }

  lemma DataFrameEnabled(conns: seq<Connection>, lead: nat, x: World, z: World, k: nat)
    requires ValidWiring(conns) && WellFormed(conns, x) && WellFormed(conns, z) && Aggregates(x.op)
    requires Count(x.op) > 0 && x.complete == 0 && lead >= 1
    requires k < |conns| && x.ctx.aggEpsn[k] + 1 < PSN_SPACE && Delivered(conns, x, z, k)
    ensures Enabled(conns, lead, z, Packet(k, DataFrame(conns, x, k))) && InSequence(z, k, DataFrame(conns, x, k))
  {
  }

  lemma DeliveredNext(conns: seq<Connection>, x: World, z: World, k: nat, t: Ctx, y: World)
    requires WellFormed(conns, x) && WellFormed(conns, z) && Aggregates(x.op) && Count(x.op) > 0 && x.complete == 0
    requires k < |conns| && Delivered(conns, x, z, k) && WellFormed(conns, y) && y == Accepted(z, k, t)
    requires var slot := Idx(x.ctx.aggEpsn[k] + 1);
             && t == z.ctx.(aggEpsn := z.ctx.aggEpsn[k := z.ctx.aggEpsn[k] + 1], replies := t.replies, slots := t.slots)
             && t.slots == z.ctx.slots[slot := Contributed(z.ctx.slots[slot], k, Script(|conns|, x.op, k, 0))]
    ensures Delivered(conns, x, y, k + 1)
  {
    if k + 1 < |conns| {
      assert y.done[k + 1] == 0 && Participates(x.op, k + 1);
    }
  }

  lemma DataHandled(conns: seq<Connection>, x: World, z: World, k: nat)
    requires ValidWiring(conns) && WellFormed(conns, x) && WellFormed(conns, z) && Aggregates(x.op)
    requires Count(x.op) > 0 && x.complete == 0 && !Aligned(x.ctx.aggEpsn) && k < |conns| && Delivered(conns, x, z, k)
    ensures var f, slot := DataFrame(conns, x, k), Idx(x.ctx.aggEpsn[k] + 1);
            var t := Handle(conns, TableOf(conns), z.ctx, k, f);
            && t == z.ctx.(aggEpsn := z.ctx.aggEpsn[k := z.ctx.aggEpsn[k] + 1], replies := t.replies, slots := t.slots)
            && t.slots == z.ctx.slots[slot := Contributed(z.ctx.slots[slot], k, Script(|conns|, x.op, k, 0))]
  {
    hide Handle, Aggregate, Contributed;
    var f := DataFrame(conns, x, k);
    var rule := RuleFor(conns, x.op, k);
    NextPacketIsAggregated(conns, z.ctx, x.op, k, f);
    MisalignedNeverFills(x.ctx.aggEpsn, k + 1, Idx(f.psn));
    UnfilledSlot(conns, Replied(Advance(z.ctx, k), Ack(rule.ackConn, f.psn)), rule, k, f.psn, f.data);
  }

  lemma DataStep(conns: seq<Connection>, lead: nat, x: World, z: World, k: nat) returns (y: World)
    requires ValidWiring(conns) && WellFormed(conns, x) && WellFormed(conns, z) && Aggregates(x.op)
    requires Count(x.op) > 0 && x.complete == 0 && !Aligned(x.ctx.aggEpsn) && lead >= 1
    requires k < |conns| && x.ctx.aggEpsn[k] + 1 < PSN_SPACE && Delivered(conns, x, z, k)
    ensures Enabled(conns, lead, z, Packet(k, DataFrame(conns, x, k)))
    ensures y == Apply(conns, z, Packet(k, DataFrame(conns, x, k))) && Delivered(conns, x, y, k + 1)
  {
    hide Handle, Aggregate, Contributed, Delivered, Accepted, Enabled;
    var f := DataFrame(conns, x, k);
    DataFrameEnabled(conns, lead, x, z, k);
    NextPacketIsAccepted(conns, lead, z, k, f);
    DataHandled(conns, x, z, k);
    y := Apply(conns, z, Packet(k, f));
    DeliveredNext(conns, x, z, k, Handle(conns, TableOf(conns), z.ctx, k, f), y);
  }

  lemma {:induction false} ReachDelivered(conns: seq<Connection>, lead: nat, x: World, k: nat)
    returns (es: seq<Event>, y: World)
    requires ValidWiring(conns) && WellFormed(conns, x) && Aggregates(x.op) && k <= |conns| && lead >= 1
    requires Count(x.op) > 0 && x.complete == 0 && !Aligned(x.ctx.aggEpsn) && Idle(x.ctx.slots)
    requires forall i :: 0 <= i < |conns| ==> !x.started[i] && x.done[i] == 0 && x.ctx.aggEpsn[i] + 1 < PSN_SPACE
    ensures WellFormed(conns, y) && Leads(conns, lead, x, es, y) && Delivered(conns, x, y, k) && OneOperation(es)
  {
    hide Enabled, Apply;
    if k == 0 {
      es, y := ReachControlled(conns, lead, x, |conns|);
      return;
    }
    var fs, z := ReachDelivered(conns, lead, x, k - 1);
    y := DataStep(conns, lead, x, z, k - 1);
    Then(conns, lead, x, fs, z, Packet(k - 1, DataFrame(conns, x, k - 1)));
    es := fs + [Packet(k - 1, DataFrame(conns, x, k - 1))];
  }

  lemma SomeReceiver(conns: seq<Connection>, op: Op) returns (c: nat)
    requires ValidWiring(conns) && ValidOp(|conns|, op) && Aggregates(op)
    ensures c < |conns| && Receives(conns, op, c)
  {
    match op
    case AllReduceOp(_) => c := 0;
    case ReduceOp(root, _) =>
      RootIsConnId(conns, |conns|, root);
      c := ConnForRank(conns, root);
  }

  lemma OwedButNotSent(conns: seq<Connection>, x: World, op: Op, y: World)
    requires Inv(conns, x) && Finished(x) && ValidOp(|conns|, op) && Aggregates(op) && Count(op) > 0
    requires WellFormed(conns, Begin(x, op)) && WellFormed(conns, y) && Delivered(conns, Begin(x, op), y, |conns|)
    ensures !StreamsRight(conns, y)
  {
    hide SlotsInv, Result, Total;
    var c := SomeReceiver(conns, op);
    assert HasSent(x.ctx, c, OwedNow(conns, x, c));
    assert (x.past + [x.op])[..|x.past|] == x.past;
    FinishedLeavesNothing(conns, x);
    assert OwedNow(conns, y, c) == OwedNow(conns, x, c) + [Result(|conns|, op, 0)];
    assert |Payloads(y.ctx.out[c])| == |OwedNow(conns, x, c)|;
  }

  /** Packet 0 of everybody has arrived, and its result has not been sent. */
  lemma MisalignedGoesWrong(conns: seq<Connection>, lead: nat, x: World, op: Op) returns (es: seq<Event>)
    requires Inv(conns, x) && Finished(x) && ValidOp(|conns|, op) && Aggregates(op) && Count(op) > 0
    requires forall i :: 0 <= i < |conns| ==> x.ctx.aggEpsn[i] + 1 < PSN_SPACE
    requires !Aligned(x.ctx.aggEpsn) && Idle(x.ctx.slots) && lead >= 1
    ensures WellFormed(conns, Begin(x, op)) && Legal(conns, lead, Begin(x, op), es) && OneOperation(es)
    ensures !StreamsRight(conns, Run(conns, lead, Begin(x, op), es))
  {
    hide Legal, Run, SlotsInv, Delivered, StreamsRight;
    var y;
    es, y := ReachDelivered(conns, lead, Begin(x, op), |conns|);
    OwedButNotSent(conns, x, op, y);
  }

  /** A Broadcast leaves input numbers aligned only if it and its control packet take a whole number of
      rings: its sender has used up that many numbers, and nobody else any. */
  lemma AlignedAfterBroadcastIff(conns: seq<Connection>, x: World, d: nat)
    requires Inv(conns, x) && Finished(x) && x.op.BroadcastOp? && |conns| >= 2
    requires forall i :: 0 <= i < |conns| ==> x.base[i] == d
    ensures Aligned(x.ctx.aggEpsn) <==> (Count(x.op) + 1) % SWITCH_ARRAY_LENGTH == 0
  {
    var s, total := x.op.sender, Count(x.op) + 1;
    forall i | 0 <= i < |conns|
      ensures x.ctx.aggEpsn[i] == d + if i == s then total else 0
    {
      assert Progress(x, i);
      assert Participates(x.op, i) <==> i == s;
    }
    var other: nat := if s == 0 then 1 else 0;
    assert Idx(x.ctx.aggEpsn[other]) == Idx(d);
    WholeRings(d, total);
    if Idx(d + total) == Idx(d) {
      assert Aligned(x.ctx.aggEpsn);
    } else {
      assert Idx(x.ctx.aggEpsn[s]) != Idx(x.ctx.aggEpsn[other]);
    }
  }

  lemma WholeRings(d: nat, total: nat)
    ensures Idx(d + total) == Idx(d) <==> total % SWITCH_ARRAY_LENGTH == 0
  {
  }

  // ----- From a fresh switch to a wrong stream

  function BroadcastControl(conns: seq<Connection>, sender: nat): Frame
    requires ValidWiring(conns) && sender < |conns|
  {
    Frame(SEND_ONLY_WITH_IMM, 0, conns[sender].peerId, 2, 4, [0])
  }

  lemma NextStep(conns: seq<Connection>, lead: nat, op: Op) returns (y: World)
    requires ValidWiring(conns) && ValidOp(|conns|, op) && op.BroadcastOp?
    ensures Enabled(conns, lead, Start(conns), Next(op)) && y == Apply(conns, Start(conns), Next(op))
    ensures Inv(conns, y) && y.op == op
    ensures forall i :: 0 <= i < |conns| ==>
              y.base[i] == 0 && y.ctx.aggEpsn[i] == 0 && !y.started[i] && y.done[i] == 0
    ensures y.complete == 0
  {
    InvInitially(conns);
    y := Apply(conns, Start(conns), Next(op));
    NextKeepsInv(conns, lead, Start(conns), op);
  }

  lemma BroadcastStarts(conns: seq<Connection>, lead: nat, x: World) returns (y: World)
    requires Inv(conns, x) && x.op.BroadcastOp? && !x.started[x.op.sender] && x.ctx.aggEpsn[x.op.sender] == 0
    ensures var e := Control(x.op.sender, BroadcastControl(conns, x.op.sender));
            Enabled(conns, lead, x, e) && y == Apply(conns, x, e)
    ensures Inv(conns, y) && y == x.(ctx := y.ctx, started := x.started[x.op.sender := true])
  {
    var e := Control(x.op.sender, BroadcastControl(conns, x.op.sender));
    RankOfHost(conns, |conns|, x.op.sender);
    y := Apply(conns, x, e);
    ControlKeepsInv(conns, lead, x, x.op.sender, e.f);
  }

  lemma BroadcastSends(conns: seq<Connection>, lead: nat, x: World, sender: nat, data: Payload)
    returns (y: World, e: Event)
    requires Inv(conns, x) && x.op == BroadcastOp(sender, [data]) && x.started[sender]
    requires |data| <= BUFFER_WORDS && lead >= 1
    requires x.base[sender] == 0 && x.done[sender] == x.complete == 0
    ensures Enabled(conns, lead, x, e) && y == Apply(conns, x, e)
    ensures Inv(conns, y) && y.op == x.op && y.base == x.base && y.started == x.started
    ensures Finished(y)
  {
    assert Progress(x, sender);
    e := Packet(sender, Frame(SEND_ONLY, 1, 0, 0, 4 * |data|, data));
    y := Apply(conns, x, e);
    NextPacketKeepsInv(conns, lead, x, sender, e.f);
  }

  /** A fresh switch, and a Broadcast of one packet. */
  lemma BroadcastRun(conns: seq<Connection>, lead: nat, sender: nat, data: Payload) returns (es: seq<Event>, y: World)
    requires ValidWiring(conns) && sender < |conns| && |data| <= BUFFER_WORDS && lead >= 1
    ensures Leads(conns, lead, Start(conns), es, y) && Inv(conns, y) && Finished(y)
    ensures y.op == BroadcastOp(sender, [data])
    ensures forall i :: 0 <= i < |conns| ==> y.base[i] == 0 && y.ctx.aggEpsn[i] <= 2
  {
    hide Enabled, Apply, SlotsInv, HasSent, Informed;
    var op := BroadcastOp(sender, [data]);
    var x1 := NextStep(conns, lead, op);
    var x2 := BroadcastStarts(conns, lead, x1);
    var e;
    y, e := BroadcastSends(conns, lead, x2, sender, data);
    var control := Control(sender, BroadcastControl(conns, sender));
    NoEvents(conns, lead, Start(conns));
    Then(conns, lead, Start(conns), [], Start(conns), Next(op));
    Then(conns, lead, Start(conns), [] + [Next(op)], x1, control);
    Then(conns, lead, Start(conns), [] + [Next(op)] + [control], x2, e);
    forall i | 0 <= i < |conns|
      ensures y.base[i] == 0 && y.ctx.aggEpsn[i] <= 2
    {
      assert Progress(y, i);
      if i != sender {
        assert !Participates(y.op, i);
      }
    }
    es := [] + [Next(op)] + [control] + [e];
  }

  lemma NoEvents(conns: seq<Connection>, lead: nat, x: World)
    requires ValidWiring(conns) && WellFormed(conns, x)
    ensures Leads(conns, lead, x, [], x)
  {
  }

  /** With two connections or more: after that Broadcast every aggregation goes wrong in some run. */
  lemma FirstAggregationGoesWrong(conns: seq<Connection>, lead: nat, sender: nat, data: Payload, op: Op)
    returns (before: seq<Event>, x: World, after: seq<Event>)
    requires ValidWiring(conns) && |conns| >= 2 && sender < |conns| && |data| <= BUFFER_WORDS
    requires ValidOp(|conns|, op) && Aggregates(op) && Count(op) > 0 && lead >= 1
    ensures Leads(conns, lead, Start(conns), before, x) && Finished(x)
    ensures WellFormed(conns, Begin(x, op)) && Legal(conns, lead, Begin(x, op), after) && OneOperation(after)
    ensures !StreamsRight(conns, Run(conns, lead, Begin(x, op), after))
  {
    before, x := BroadcastRun(conns, lead, sender, data);
    AlignedAfterBroadcastIff(conns, x, 0);
    FinishedLeavesNothing(conns, x);
    after := MisalignedGoesWrong(conns, lead, x, op);
  }
}
