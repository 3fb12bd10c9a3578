/** Proof that the output streams carry exactly what is owed to each connection. */
module OutputStreamSafety {
  import opened Words
  import opened Rings
  import opened Rules
  import opened SwitchMain
  import opened OutputStreams

  // ----- Slots in turn

  /** Slot k is for data packet j once m packets are complete; packet 0 has number b. */
  predicate IsTurnOf(b: nat, m: nat, k: nat, j: nat) {
    m <= j < m + SWITCH_ARRAY_LENGTH && Idx(b + j) == k
  }

  lemma SomeTurn(b: nat, m: nat, k: nat) returns (j: nat)
    requires k < SWITCH_ARRAY_LENGTH
    ensures IsTurnOf(b, m, k, j)
  {
    j := m + (k - b - m) % SWITCH_ARRAY_LENGTH;
  }

  ghost function Round(b: nat, m: nat, k: nat): (j: nat)
    requires k < SWITCH_ARRAY_LENGTH
    ensures IsTurnOf(b, m, k, j)
  {
    assert exists j: nat :: IsTurnOf(b, m, k, j) by {
      var j := SomeTurn(b, m, k);
    }
    var j: nat :| IsTurnOf(b, m, k, j);
    j
  }

  lemma RoundIsUnique(b: nat, m: nat, j: nat)
    requires m <= j < m + SWITCH_ARRAY_LENGTH
    ensures Round(b, m, Idx(b + j)) == j
  {
    SlotsAreDistinct(b + Round(b, m, Idx(b + j)), b + j);
  }

  lemma NextRound(b: nat, m: nat, k: nat)
    requires k < SWITCH_ARRAY_LENGTH
    ensures Round(b, m + 1, k) == if k == Idx(b + m) then m + SWITCH_ARRAY_LENGTH else Round(b, m, k)
  {
    if k == Idx(b + m) {
      assert Idx(b + m + SWITCH_ARRAY_LENGTH) == k;
      RoundIsUnique(b, m + 1, m + SWITCH_ARRAY_LENGTH);
    } else {
      RoundIsUnique(b, m + 1, Round(b, m, k));
    }
  }

  lemma {:induction false} SlotsShift(a: nat, b: nat, d: nat)
    requires Idx(a) == Idx(b)
    ensures Idx(a + d) == Idx(b + d)
  {
    hide Idx;
    if d > 0 {
      SlotsShift(a, b, d - 1);
      NextSlotsAgreeIff(a + (d - 1), b + (d - 1));
    }
  }

  // ----- What a slot holds

  function Contributors(done: seq<nat>, j: nat): set<nat> {
    set i | 0 <= i < |done| && done[i] > j
  }

  lemma NextContributors(done: seq<nat>, i: nat, j: nat)
    requires i < |done|
    ensures Contributors(done[i := done[i] + 1], j) == Contributors(done, j) + if j == done[i] then {i} else {}
  {
    var done' := done[i := done[i] + 1];
    assert forall k :: 0 <= k < |done| && k != i ==> done'[k] == done[k];
  }

  lemma FullIsAll(done: seq<nat>, j: nat)
    ensures |Contributors(done, j)| == |done| <==> forall i :: 0 <= i < |done| ==> done[i] > j
    ensures |Contributors(done, j)| == |done| ==> Contributors(done, j) == Ports(|done|)
  {
    var who := Contributors(done, j);
    AllPorts(|done|, who);
    if forall i :: 0 <= i < |done| ==> done[i] > j {
      assert who == Ports(|done|);
    }
    if who == Ports(|done|) {
      forall i | 0 <= i < |done|
        ensures done[i] > j
      {
        assert i in who;
      }
    }
  }

  /** The slot for packet j: its contributors and, if there are any, the sum of their packets. */
  ghost predicate SlotHolds(n: nat, op: Op, done: seq<nat>, j: nat, slot: Slot)
    requires ValidOp(n, op) && Aggregates(op) && |slot.buffer| == BUFFER_WORDS
  {
    var who := Contributors(done, j);
    && slot.arrived == who && slot.degree == |who|
    && (who != {} ==> j < Count(op) && slot.buffer[..Len(op, j)] == SumOf(op.load[j], who, Len(op, j)))
  }

  ghost predicate SlotsHold(n: nat, op: Op, b: nat, m: nat, done: seq<nat>, slots: seq<Slot>)
    requires ValidOp(n, op) && Aggregates(op)
  {
    && |slots| == SWITCH_ARRAY_LENGTH
    && forall k :: 0 <= k < SWITCH_ARRAY_LENGTH ==>
         |slots[k].buffer| == BUFFER_WORDS && SlotHolds(n, op, done, Round(b, m, k), slots[k])
  }

  predicate Idle(slots: seq<Slot>) {
    forall k :: 0 <= k < |slots| ==> slots[k].degree == 0 && slots[k].arrived == {}
  }

  /** Every participant has m packets accepted or more, and none is more than a ring ahead. */
  predicate Within(op: Op, done: seq<nat>, m: nat) {
    && (forall i :: 0 <= i < |done| && Participates(op, i) ==>
          m <= done[i] <= m + SWITCH_ARRAY_LENGTH && done[i] <= Count(op))
    && (exists i :: 0 <= i < |done| && Participates(op, i) && done[i] == m)
  }

  lemma MergedIsSum(load: seq<Payload>, who: set<nat>, len: nat, i: nat, slot: Slot)
    requires Uniform(load, len) && i < |load| && i !in who && len <= BUFFER_WORDS && |slot.buffer| == BUFFER_WORDS
    requires slot.degree == |who| && (who != {} ==> slot.buffer[..len] == SumOf(load, who, len))
    ensures Merged(slot, load[i])[..len] == SumOf(load, who + {i}, len)
  {
    if who == {} {
      SumOfOne(load, len, i);
      assert {} + {i} == {i};
    } else {
      SumWithNewContributor(load, who, len, i);
    }
  }

  /** Packet done[i] of connection i goes into the slot that is waiting for it. */
  lemma SlotWithContribution(n: nat, op: Op, done: seq<nat>, slot: Slot, i: nat)
    requires ValidOp(n, op) && Aggregates(op) && |done| == n && i < n && |slot.buffer| == BUFFER_WORDS
    requires done[i] < Count(op) && SlotHolds(n, op, done, done[i], slot)
    ensures SlotHolds(n, op, done[i := done[i] + 1], done[i], Contributed(slot, i, op.load[done[i]][i]))
  {
    var j := done[i];
    var who := Contributors(done, j);
    NextContributors(done, i, j);
    assert i !in who;
    MergedIsSum(op.load[j], who, Len(op, j), i, slot);
  }

  lemma OtherSlotsKeep(n: nat, op: Op, done: seq<nat>, i: nat, j: nat, slot: Slot)
    requires ValidOp(n, op) && Aggregates(op) && |done| == n && i < n && |slot.buffer| == BUFFER_WORDS
    requires SlotHolds(n, op, done, j, slot) && j != done[i]
    ensures SlotHolds(n, op, done[i := done[i] + 1], j, slot)
  {
    NextContributors(done, i, j);
  }

  /** The slot for the packet accepted fills up exactly when it is the oldest incomplete packet and nobody is
      left at it. */
  lemma FullMeansComplete(op: Op, done: seq<nat>, m: nat, i: nat)
    requires Aggregates(op) && Within(op, done, m) && i < |done|
    ensures var done' := done[i := done[i] + 1];
            && (|Contributors(done', done[i])| == |done| <==> !Waiting(op, done', m))
            && (!Waiting(op, done', m) ==> done[i] == m)
  {
    var j, done' := done[i], done[i := done[i] + 1];
    FullIsAll(done', j);
    var k :| 0 <= k < |done| && Participates(op, k) && done[k] == m;
    if k != i {
      assert done'[k] == m && Participates(op, k);
    } else {
      assert j == m;
      if !Waiting(op, done', m) {
        forall h | 0 <= h < |done|
          ensures done'[h] > m
        {
          assert Participates(op, h);
        }
      }
    }
  }

  lemma WithinAfter(op: Op, done: seq<nat>, m: nat, i: nat)
    requires Within(op, done, m) && i < |done| && Participates(op, i)
    requires done[i] < Count(op) && done[i] < m + SWITCH_ARRAY_LENGTH
    ensures var done' := done[i := done[i] + 1]; Within(op, done', CompleteAfter(op, done', m))
  {
    var done' := done[i := done[i] + 1];
    if Waiting(op, done', m) {
      var k :| 0 <= k < |done| && Participates(op, k) && done'[k] <= m;
      assert done'[k] == m;
    } else {
      var k :| 0 <= k < |done| && Participates(op, k) && done[k] == m;
      assert done'[k] > m;
      assert done'[i] == m + 1;
    }
  }

  /** What becomes of a slot the packet does not go into. */
  lemma OtherSlotAfter(n: nat, op: Op, b: nat, m: nat, m': nat, done: seq<nat>, slots: seq<Slot>, i: nat, k: nat)
    requires ValidOp(n, op) && Aggregates(op) && SlotsHold(n, op, b, m, done, slots) && |done| == n && i < n
    requires m <= done[i] < m + SWITCH_ARRAY_LENGTH && k < SWITCH_ARRAY_LENGTH && k != Idx(b + done[i])
    requires m' == m || (m' == m + 1 && done[i] == m)
    ensures SlotHolds(n, op, done[i := done[i] + 1], Round(b, m', k), slots[k])
  {
    NextRound(b, m, k);
    OtherSlotsKeep(n, op, done, i, Round(b, m, k), slots[k]);
  }

  /** The slot the packet goes into fills up when nobody is left at the oldest incomplete packet. */
  lemma OwnSlotFills(n: nat, op: Op, m: nat, done: seq<nat>, before: Slot, i: nat, slot: Slot)
    requires ValidOp(n, op) && Aggregates(op) && |done| == n && i < n && |before.buffer| == BUFFER_WORDS
    requires Within(op, done, m) && done[i] < Count(op) && SlotHolds(n, op, done, done[i], before)
    requires slot == Contributed(before, i, op.load[done[i]][i])
    ensures SlotHolds(n, op, done[i := done[i] + 1], done[i], slot)
    ensures slot.degree == n <==> !Waiting(op, done[i := done[i] + 1], m)
    ensures slot.degree == n ==> done[i] == m && slot.buffer[..|op.load[m][i]|] == Result(n, op, m)
  {
    var j, done' := done[i], done[i := done[i] + 1];
    SlotWithContribution(n, op, done, before, i);
    FullMeansComplete(op, done, m, i);
    FullIsAll(done', j);
    assert i in Contributors(done', j);
  }

  /** A slot that has filled up is cleared, and waits for the packet one ring further on. */
  lemma OwnSlotAfter(n: nat, op: Op, b: nat, m: nat, done: seq<nat>, i: nat, slot: Slot)
    requires ValidOp(n, op) && Aggregates(op) && |done| == n && i < n && |slot.buffer| == BUFFER_WORDS
    requires Within(op, done, m) && done[i] < m + SWITCH_ARRAY_LENGTH
    requires SlotHolds(n, op, done[i := done[i] + 1], done[i], slot)
    requires slot.degree == n <==> !Waiting(op, done[i := done[i] + 1], m)
    requires slot.degree == n ==> done[i] == m
    ensures var done' := done[i := done[i] + 1];
            SlotHolds(n, op, done', Round(b, CompleteAfter(op, done', m), Idx(b + done[i])),
                      if slot.degree == n then slot.(degree := 0, arrived := {}) else slot)
  {
    RoundIsUnique(b, m, done[i]);
    if slot.degree == n {
      NextRound(b, m, Idx(b + m));
      assert Contributors(done[i := done[i] + 1], m + SWITCH_ARRAY_LENGTH) == {};
    }
  }

  /** The slot chosen by the packet's own number takes it, and is sent when nobody is left at the oldest
      incomplete packet. */
  lemma SlotsTaken(n: nat, op: Op, b: nat, m: nat, done: seq<nat>, slots: seq<Slot>, i: nat,
                   psn: nat, data: Payload, slot: Slot, slots': seq<Slot>)
    requires ValidOp(n, op) && Aggregates(op) && SlotsHold(n, op, b, m, done, slots) && |done| == n && i < n
    requires Within(op, done, m) && done[i] < m + SWITCH_ARRAY_LENGTH && done[i] < Count(op)
    requires Idx(psn) == Idx(b + done[i]) && data == Script(n, op, i, done[i])
    requires slot == Contributed(slots[Idx(psn)], i, data)
    requires slots' == slots[Idx(psn) := if slot.degree == n then slot.(degree := 0, arrived := {}) else slot]
    ensures var done' := done[i := done[i] + 1];
            && SlotsHold(n, op, b, CompleteAfter(op, done', m), done', slots')
            && (slot.degree == n <==> CompleteAfter(op, done', m) == m + 1)
            && (slot.degree == n ==> slot.buffer[..|data|] == Result(n, op, m))
  {
    var done' := done[i := done[i] + 1];
    var m' := CompleteAfter(op, done', m);
    RoundIsUnique(b, m, done[i]);
    OwnSlotFills(n, op, m, done, slots[Idx(psn)], i, slot);
    OwnSlotAfter(n, op, b, m, done, i, slot);
    forall k | 0 <= k < SWITCH_ARRAY_LENGTH
      ensures |slots'[k].buffer| == BUFFER_WORDS && SlotHolds(n, op, done', Round(b, m', k), slots'[k])
    {
      if k != Idx(psn) {
        OtherSlotAfter(n, op, b, m, m', done, slots, i, k);
      }
    }
  }

  lemma IdleHoldsNothing(n: nat, op: Op, b: nat, done: seq<nat>, slots: seq<Slot>)
    requires ValidOp(n, op) && Aggregates(op) && |slots| == SWITCH_ARRAY_LENGTH && Idle(slots)
    requires forall k :: 0 <= k < SWITCH_ARRAY_LENGTH ==> |slots[k].buffer| == BUFFER_WORDS
    requires forall i :: 0 <= i < |done| ==> done[i] == 0
    ensures SlotsHold(n, op, b, 0, done, slots)
  {
    forall j: nat
      ensures Contributors(done, j) == {}
    {
    }
  }

  lemma FinishedIsIdle(n: nat, op: Op, b: nat, done: seq<nat>, slots: seq<Slot>)
    requires ValidOp(n, op) && Aggregates(op) && SlotsHold(n, op, b, Count(op), done, slots)
    requires forall i :: 0 <= i < |done| ==> done[i] == Count(op)
    ensures Idle(slots)
  {
    forall k | 0 <= k < |slots|
      ensures slots[k].degree == 0 && slots[k].arrived == {}
    {
      assert SlotHolds(n, op, done, Round(b, Count(op), k), slots[k]);
      assert Contributors(done, Round(b, Count(op), k)) == {};
    }
  }

  // ----- Sending

  /** The packets sent on a connection are numbered from 0, and `next` is the number that comes next. */
  predicate Numbered(sent: seq<Sent>, next: nat) {
    |sent| == next && forall k :: 0 <= k < |sent| ==> sent[k].psn == k
  }

  function Payloads(sent: seq<Sent>): (r: seq<Payload>)
    ensures |r| == |sent| && forall k :: 0 <= k < |sent| ==> r[k] == sent[k].data
  {
    seq(|sent|, k requires 0 <= k < |sent| => sent[k].data)
  }

  /** Connection c has been sent exactly `owed`. */
  predicate HasSent(s: Ctx, c: nat, owed: seq<Payload>)
    requires |s.sendPsn| == |s.out| && c < |s.out|
  {
    Numbered(s.out[c], s.sendPsn[c]) && Payloads(s.out[c]) == owed
  }

  function OneIf(b: bool, data: Payload): seq<Payload> {
    if b then [data] else []
  }

  /** From s to t, each receiver of the operation has been sent `data` if `send` holds, and nothing else has
      been sent. */
  ghost predicate Delivers(conns: seq<Connection>, op: Op, s: Ctx, t: Ctx, send: bool, data: Payload)
    requires |s.sendPsn| == |s.out| == |conns| && |t.sendPsn| == |t.out| == |conns|
  {
    forall c, owed :: 0 <= c < |conns| && HasSent(s, c, owed) ==>
      HasSent(t, c, owed + OneIf(send && Receives(conns, op, c), data))
  }

  lemma SendToSends(s: Ctx, c: int, data: Payload, d: nat, owed: seq<Payload>)
    requires |s.sendPsn| == |s.out| && d < |s.out| && HasSent(s, d, owed)
    ensures HasSent(SendTo(s, c, data), d, owed + OneIf(d == c, data))
  {
    if c == d {
      var before := s.out[d];
      assert Payloads(before + [Sent(s.sendPsn[d], data)]) == Payloads(before) + [data];
    } else {
      assert SendTo(s, c, data).out[d] == s.out[d];
      assert owed + [] == owed;
    }
  }

  predicate NoRepeats(outs: seq<int>) {
    forall a, b :: 0 <= a < b < |outs| ==> outs[a] != outs[b]
  }

  lemma {:induction false} SendAllSends(s: Ctx, outs: seq<int>, data: Payload, d: nat, owed: seq<Payload>)
    requires |s.sendPsn| == |s.out| && d < |s.out| && HasSent(s, d, owed) && NoRepeats(outs)
    ensures HasSent(SendAll(s, outs, data), d, owed + OneIf(d in outs, data))
  {
    if outs == [] {
      assert owed + [] == owed;
    } else {
      var front, last := outs[..|outs| - 1], outs[|outs| - 1];
      SendAllSends(s, front, data, d, owed);
      var owed' := owed + OneIf(d in front, data);
      SendToSends(SendAll(s, front, data), last, data, d, owed');
      assert outs == front + [last];
      assert owed' + OneIf(d == last, data) == owed + OneIf(d in outs, data);
    }
  }

  lemma {:induction false} OthersAreOthers(n: nat, conn: nat)
    ensures NoRepeats(Others(n, conn))
    ensures forall x :: x in Others(n, conn) <==> 0 <= x < n && x != conn
  {
    if n > 0 {
      OthersAreOthers(n - 1, conn);
      var front := Others(n - 1, conn);
      forall a | 0 <= a < |front|
        ensures front[a] < n - 1
      {
        assert front[a] in front;
      }
    }
  }

  lemma {:induction false} HostConnsDoNotRepeat(conns: seq<Connection>)
    requires IdsAreIndices(conns)
    ensures NoRepeats(HostConns(conns))
  {
    if conns != [] {
      var front := conns[..|conns| - 1];
      HostConnsDoNotRepeat(front);
      HostConnsAre(front, |front|);
    }
  }

  /** All connections being hosts, AllReduce results go to each of them once. */
  lemma HostConnsAreAll(conns: seq<Connection>, c: nat)
    requires ValidWiring(conns) && c < |conns|
    ensures NoRepeats(HostConns(conns)) && c in HostConns(conns)
  {
    HostConnsDoNotRepeat(conns);
    HostConnsAre(conns, c);
  }

  lemma TargetIsRoot(conns: seq<Connection>, root: nat, c: nat)
    requires ValidWiring(conns) && root < |conns| && c < |conns|
    ensures Target(conns, root) == c <==> conns[c].peerId == root
  {
    SwitchAgreesWithController(conns, |conns|, root);
    assert IsHost(conns, c);
    RankOfHost(conns, |conns|, c);
    RootIsConnId(conns, |conns|, root);
  }

  /** The rule meant for a participant of an operation. */
  function RuleFor(conns: seq<Connection>, op: Op, i: nat): Rule
    requires ValidOp(|conns|, op) && i < |conns| && Participates(op, i)
  {
    Intended(conns, |conns|, i, PrimitiveOfOp(op), ParamOfOp(conns, op)).value
  }

  /** The result of an aggregation goes to the connections that receive it. */
  lemma ResultIsSent(conns: seq<Connection>, s: Ctx, op: Op, i: nat, data: Payload, c: nat, owed: seq<Payload>)
    requires ValidWiring(conns) && ValidOp(|conns|, op) && Aggregates(op) && i < |conns|
    requires |s.sendPsn| == |s.out| == |conns| && c < |conns| && HasSent(s, c, owed)
    requires s.operation == PrimitiveOfOp(op) && s.rootRank == ParamOfOp(conns, op)
    ensures HasSent(SendResult(conns, s, RuleFor(conns, op, i), data), c,
                    owed + OneIf(Receives(conns, op, c), data))
  {
    match op
    case AllReduceOp(_) =>
      HostConnsAreAll(conns, c);
      SendAllSends(s, HostConns(conns), data, c, owed);
    case ReduceOp(root, _) =>
      TargetIsRoot(conns, root, c);
      SendToSends(s, Target(conns, root), data, c, owed);
  }

  // ----- The invariant

  ghost predicate Progress(x: World, i: nat)
    requires |x.ctx.aggEpsn| == |x.base| == |x.started| == |x.done| && i < |x.done|
  {
    && x.ctx.aggEpsn[i] == x.base[i] + (if x.started[i] then 1 else 0) + x.done[i]
    && x.base[i] >= -1
    && (x.started[i] ==> Participates(x.op, i))
    && (!x.started[i] ==> x.done[i] == 0)
  }

  /** Once one participant has started, the switch knows what the operation is. */
  ghost predicate Informed(conns: seq<Connection>, x: World)
    requires WellFormed(conns, x)
  {
    (exists i :: 0 <= i < |x.started| && x.started[i]) ==>
      x.ctx.operation == PrimitiveOfOp(x.op) && x.ctx.rootRank == ParamOfOp(conns, x.op)
  }

  ghost predicate SlotsInv(conns: seq<Connection>, x: World)
    requires WellFormed(conns, x)
  {
    if Aggregates(x.op) then
      && |conns| > 0 && x.base[0] >= -1
      && (forall i :: 0 <= i < |conns| ==> x.base[i] >= -1 && Idx(x.base[i] + 1) == Idx(x.base[0] + 1))
      && SlotsHold(|conns|, x.op, x.base[0] + 1, x.complete, x.done, x.ctx.slots)
    else Idle(x.ctx.slots)
  }

  ghost function OwedNow(conns: seq<Connection>, x: World, c: nat): seq<Payload>
    requires WellFormed(conns, x) && c < |conns| && x.complete <= Count(x.op)
  {
    OwedByAll(conns, x.past, c) + Owed(conns, x.op, c, x.complete)
  }

  ghost predicate Inv(conns: seq<Connection>, x: World) {
    && ValidWiring(conns) && WellFormed(conns, x)
    && (forall i :: 0 <= i < |conns| ==> Progress(x, i))
    && Within(x.op, x.done, x.complete) && x.complete <= Count(x.op)
    && Informed(conns, x) && SlotsInv(conns, x)
    && forall c :: 0 <= c < |conns| ==> HasSent(x.ctx, c, OwedNow(conns, x, c))
  }

  lemma InvInitially(conns: seq<Connection>)
    requires ValidWiring(conns)
    ensures Inv(conns, Start(conns))
  {
    var x := Start(conns);
    IdleHoldsNothing(|conns|, x.op, 0, x.done, x.ctx.slots);
    assert x.done[0] == 0 && Participates(x.op, 0);
    forall c | 0 <= c < |conns|
      ensures HasSent(x.ctx, c, OwedNow(conns, x, c))
    {
      assert OwedByAll(conns, x.past, c) == [] && Owed(conns, x.op, c, 0) == [];
    }
  }

  // ----- What the handler does

  lemma ParticipantFindsRule(conns: seq<Connection>, op: Op, i: nat)
    requires ValidWiring(conns) && ValidOp(|conns|, op) && i < |conns| && Participates(op, i)
    ensures Lookup(TableOf(conns), KeyOf(conns[i], PrimitiveOfOp(op), ParamOfOp(conns, op)))
         == Some(RuleFor(conns, op, i))
  {
    assert IsHost(conns, i);
    LookupFindsIntended(conns, |conns|, i, PrimitiveOfOp(op), ParamOfOp(conns, op));
  }

  /** All that matters of the handler's state besides the acknowledgements it has sent. */
  predicate SameButReplies(s: Ctx, t: Ctx) {
    s == t.(replies := s.replies)
  }

  lemma OutOfSequenceChangesNothing(conns: seq<Connection>, s: Ctx, i: nat, f: Frame)
    requires ValidWiring(conns) && Shaped(|conns|, s) && i < |conns| && Proper(f) && !HasImm(f)
    requires IsSend(f) ==> f.psn != s.aggEpsn[i]
    ensures SameButReplies(Handle(conns, TableOf(conns), s, i, f), s)
  {
  }

  lemma NextPacketIsAggregated(conns: seq<Connection>, s: Ctx, op: Op, i: nat, f: Frame)
    requires ValidWiring(conns) && Shaped(|conns|, s) && i < |conns| && Proper(f) && !HasImm(f)
    requires IsData(f) && f.psn == s.aggEpsn[i]
    requires ValidOp(|conns|, op) && Participates(op, i)
    requires s.operation == PrimitiveOfOp(op) && s.rootRank == ParamOfOp(conns, op)
    ensures Handle(conns, TableOf(conns), s, i, f)
         == Aggregate(conns, Replied(Advance(s, i), Ack(RuleFor(conns, op, i).ackConn, f.psn)), RuleFor(conns, op, i),
                      i, f.psn, f.data)
  {
    ParticipantFindsRule(conns, op, i);
  }

  lemma ControlIsRecorded(conns: seq<Connection>, s: Ctx, op: Op, i: nat, f: Frame)
    requires ValidWiring(conns) && Shaped(|conns|, s) && i < |conns| && Proper(f) && IsControl(f)
    requires ValidOp(|conns|, op) && Participates(op, i)
    requires PrimitiveOf(f.code) == PrimitiveOfOp(op) && ParamOf(f.destRank) == ParamOfOp(conns, op)
    ensures Handle(conns, TableOf(conns), s, i, f)
         == Replied(Advance(s.(operation := PrimitiveOfOp(op), rootRank := ParamOfOp(conns, op)), i),
                    Ack(RuleFor(conns, op, i).ackConn, f.psn))
  {
    ParticipantFindsRule(conns, op, i);
  }

  // ----- Steps keep the invariant

  /** Steps that complete no packet and send nothing. */
  lemma SameSending(conns: seq<Connection>, x: World, y: World)
    requires WellFormed(conns, x) && WellFormed(conns, y) && x.complete <= Count(x.op)
    requires x.ctx.out == y.ctx.out && x.ctx.sendPsn == y.ctx.sendPsn
    requires x.past == y.past && x.op == y.op && x.complete == y.complete
    requires forall c :: 0 <= c < |conns| ==> HasSent(x.ctx, c, OwedNow(conns, x, c))
    ensures forall c :: 0 <= c < |conns| ==> HasSent(y.ctx, c, OwedNow(conns, y, c))
  {
    forall c | 0 <= c < |conns|
      ensures HasSent(y.ctx, c, OwedNow(conns, y, c))
    {
      assert HasSent(x.ctx, c, OwedNow(conns, x, c));
    }
  }

  lemma StartingKeepsInv(conns: seq<Connection>, x: World, i: nat, ctx: Ctx)
    requires Inv(conns, x) && i < |conns| && Participates(x.op, i) && !x.started[i]
    requires ctx == x.ctx.(operation := PrimitiveOfOp(x.op), rootRank := ParamOfOp(conns, x.op),
                           aggEpsn := x.ctx.aggEpsn[i := x.ctx.aggEpsn[i] + 1], replies := ctx.replies)
    ensures Inv(conns, x.(ctx := ctx, started := x.started[i := true]))
  {
    var y := x.(ctx := ctx, started := x.started[i := true]);
    forall k | 0 <= k < |conns|
      ensures Progress(y, k)
    {
      assert Progress(x, k);
    }
    SameSending(conns, x, y);
  }

  lemma ControlKeepsInv(conns: seq<Connection>, lead: nat, x: World, i: nat, f: Frame)
    requires Inv(conns, x) && Enabled(conns, lead, x, Control(i, f))
    ensures Inv(conns, Apply(conns, x, Control(i, f)))
  {
    ControlIsRecorded(conns, x.ctx, x.op, i, f);
    StartingKeepsInv(conns, x, i, Handle(conns, TableOf(conns), x.ctx, i, f));
  }

  lemma RepliesKeepInv(conns: seq<Connection>, x: World, ctx: Ctx)
    requires Inv(conns, x) && SameButReplies(ctx, x.ctx)
    ensures Inv(conns, x.(ctx := ctx))
  {
    var y := x.(ctx := ctx);
    forall k | 0 <= k < |conns|
      ensures Progress(y, k)
    {
      assert Progress(x, k);
    }
    SameSending(conns, x, y);
  }

  lemma NoiseKeepsInv(conns: seq<Connection>, lead: nat, x: World, i: nat, f: Frame)
    requires Inv(conns, x) && Enabled(conns, lead, x, Packet(i, f)) && !InSequence(x, i, f)
    ensures Inv(conns, Apply(conns, x, Packet(i, f)))
  {
    OutOfSequenceChangesNothing(conns, x.ctx, i, f);
    RepliesKeepInv(conns, x, Handle(conns, TableOf(conns), x.ctx, i, f));
  }

  /** The result of packet m, if it goes to c, is what c is owed next. */
  lemma OwedNext(conns: seq<Connection>, op: Op, c: nat, m: nat)
    requires ValidOp(|conns|, op) && c < |conns| && m < Count(op)
    ensures Owed(conns, op, c, m + 1) == Owed(conns, op, c, m) + OneIf(Receives(conns, op, c), Result(|conns|, op, m))
  {
    hide Result;
  }

  /** Accepting a packet: each connection has been sent what it is owed afterwards. */
  lemma AcceptingSends(conns: seq<Connection>, x: World, s: Ctx, y: World, data: Payload)
    requires Inv(conns, x) && WellFormed(conns, y) && y.past == x.past && y.op == x.op && x.complete < Count(x.op)
    requires s.out == x.ctx.out && s.sendPsn == x.ctx.sendPsn
    requires y.complete == x.complete || (y.complete == x.complete + 1 && data == Result(|conns|, x.op, x.complete))
    requires Delivers(conns, x.op, s, y.ctx, y.complete == x.complete + 1, data)
    ensures forall c :: 0 <= c < |conns| ==> HasSent(y.ctx, c, OwedNow(conns, y, c))
  {
    forall c | 0 <= c < |conns|
      ensures HasSent(y.ctx, c, OwedNow(conns, y, c))
    {
      var owed := OwedNow(conns, x, c);
      assert HasSent(x.ctx, c, owed);
      assert HasSent(s, c, owed);
      OwedNext(conns, x.op, c, x.complete);
      assert OwedNow(conns, y, c) == owed + OneIf(y.complete == x.complete + 1 && Receives(conns, x.op, c), data);
    }
  }

  /** Aggregation, case by case of whether the slot fills up. */
  lemma AggregateEffect(conns: seq<Connection>, s: Ctx, op: Op, i: nat, psn: nat, data: Payload, slot: Slot)
    requires ValidWiring(conns) && ValidOp(|conns|, op) && Aggregates(op) && i < |conns|
    requires Shaped(|conns|, s) && |data| <= BUFFER_WORDS
    requires s.operation == PrimitiveOfOp(op) && s.rootRank == ParamOfOp(conns, op)
    requires slot == Contributed(s.slots[Idx(psn)], i, data)
    ensures var full := slot.degree == |conns|;
            var t := Aggregate(conns, s, RuleFor(conns, op, i), i, psn, data);
            && t == s.(slots := s.slots[Idx(psn) := if full then slot.(degree := 0, arrived := {}) else slot],
                       sendPsn := t.sendPsn, out := t.out)
            && Delivers(conns, op, s, t, full, slot.buffer[..|data|])
  {
    var full := slot.degree == |conns|;
    var rule := RuleFor(conns, op, i);
    var t := Aggregate(conns, s, rule, i, psn, data);
    forall c, owed | 0 <= c < |conns| && HasSent(s, c, owed)
      ensures HasSent(t, c, owed + OneIf(full && Receives(conns, op, c), slot.buffer[..|data|]))
    {
      if full {
        ResultIsSent(conns, s, op, i, slot.buffer[..|data|], c, owed);
      } else {
        assert owed + [] == owed;
      }
    }
  }

  lemma BroadcastEffect(conns: seq<Connection>, s: Ctx, op: Op, rule: Rule, psn: nat, data: Payload)
    requires ValidOp(|conns|, op) && op.BroadcastOp? && s.operation == Broadcast
    requires Shaped(|conns|, s) && |data| <= BUFFER_WORDS
    ensures var t := Aggregate(conns, s, rule, op.sender, psn, data);
            && t == s.(sendPsn := t.sendPsn, out := t.out)
            && Delivers(conns, op, s, t, true, data)
  {
    OthersAreOthers(|conns|, op.sender);
    forall c, owed | 0 <= c < |conns| && HasSent(s, c, owed)
      ensures HasSent(Aggregate(conns, s, rule, op.sender, psn, data), c, owed + OneIf(Receives(conns, op, c), data))
    {
      SendAllSends(s, Others(|conns|, op.sender), data, c, owed);
    }
  }

  lemma ProgressAfter(x: World, y: World, i: nat)
    requires |x.ctx.aggEpsn| == |x.base| == |x.started| == |x.done| && i < |x.done| && x.started[i]
    requires y.base == x.base && y.started == x.started && y.op == x.op && y.done == x.done[i := x.done[i] + 1]
    requires y.ctx.aggEpsn == x.ctx.aggEpsn[i := x.ctx.aggEpsn[i] + 1]
    requires forall k :: 0 <= k < |x.done| ==> Progress(x, k)
    ensures forall k :: 0 <= k < |x.done| ==> Progress(y, k)
  {
    forall k | 0 <= k < |x.done|
      ensures Progress(y, k)
    {
      assert Progress(x, k);
    }
  }

  /** The state after connection i's next packet has been accepted. */
  function Accepted(x: World, i: nat, ctx: Ctx): World
    requires i < |x.done|
  {
    var done := x.done[i := x.done[i] + 1];
    x.(ctx := ctx, done := done, complete := CompleteAfter(x.op, done, x.complete))
  }

  /** The present operation takes connection i's next packet; `s` is the switch with the packet counted and
      acknowledged. */
  ghost predicate Accepting(conns: seq<Connection>, x: World, i: nat, s: Ctx, psn: nat, data: Payload)
    requires WellFormed(conns, x)
  {
    && i < |conns| && x.started[i] && Participates(x.op, i)
    && x.complete <= x.done[i] < x.complete + SWITCH_ARRAY_LENGTH && x.done[i] < Count(x.op)
    && s == x.ctx.(aggEpsn := x.ctx.aggEpsn[i := x.ctx.aggEpsn[i] + 1], replies := s.replies)
    && psn == x.base[i] + 1 + x.done[i] && data == Script(|conns|, x.op, i, x.done[i])
    && s.operation == PrimitiveOfOp(x.op) && s.rootRank == ParamOfOp(conns, x.op)
  }

  lemma NextPacketIsDue(conns: seq<Connection>, lead: nat, x: World, i: nat, f: Frame)
    requires Inv(conns, x) && Enabled(conns, lead, x, Packet(i, f)) && InSequence(x, i, f)
    requires Fits(|conns|, lead, x.op)
    ensures ValidOp(|conns|, x.op) && i < |conns| && Participates(x.op, i)
    ensures Accepting(conns, x, i, Replied(Advance(x.ctx, i), Ack(RuleFor(conns, x.op, i).ackConn, f.psn)), f.psn,
                      f.data)
  {
    assert Progress(x, i);
    assert x.started[i];
    var k :| 0 <= k < |x.done| && Participates(x.op, k) && x.done[k] == x.complete;
    if x.op.BroadcastOp? || |conns| == 1 {
      assert k == i;
    }
  }

  lemma AcceptingKeepsInv(conns: seq<Connection>, x: World, i: nat, s: Ctx, psn: nat, data: Payload, t: Ctx, y: World,
                          result: Payload)
    requires Inv(conns, x) && Accepting(conns, x, i, s, psn, data)
    requires Shaped(|conns|, t) && t == s.(slots := t.slots, sendPsn := t.sendPsn, out := t.out)
    requires y == Accepted(x, i, t) && SlotsInv(conns, y)
    requires y.complete == x.complete + 1 ==> result == Result(|conns|, x.op, x.complete)
    requires Delivers(conns, x.op, s, t, y.complete == x.complete + 1, result)
    ensures Inv(conns, y)
  {
    WithinAfter(x.op, x.done, x.complete, i);
    ProgressAfter(x, y, i);
    AcceptingSends(conns, x, s, y, result);
  }

  lemma SlotOfPacket(conns: seq<Connection>, x: World, i: nat, psn: nat)
    requires WellFormed(conns, x) && Aggregates(x.op) && SlotsInv(conns, x) && i < |conns|
    requires psn == x.base[i] + 1 + x.done[i]
    ensures Idx(psn) == Idx(x.base[0] + 1 + x.done[i])
  {
    SlotsShift(x.base[i] + 1, x.base[0] + 1, x.done[i]);
  }

  lemma AcceptedSlots(conns: seq<Connection>, x: World, i: nat, s: Ctx, psn: nat, data: Payload, slot: Slot, t: Ctx)
    requires WellFormed(conns, x) && Aggregates(x.op) && SlotsInv(conns, x) && Within(x.op, x.done, x.complete)
    requires Accepting(conns, x, i, s, psn, data) && slot == Contributed(x.ctx.slots[Idx(psn)], i, data)
    requires Shaped(|conns|, t)
    requires t.slots
          == x.ctx.slots[Idx(psn) := if slot.degree == |conns| then slot.(degree := 0, arrived := {}) else slot]
    ensures var done, m := x.done[i := x.done[i] + 1], x.complete;
            && SlotsHold(|conns|, x.op, x.base[0] + 1, CompleteAfter(x.op, done, m), done, t.slots)
            && (slot.degree == |conns| <==> CompleteAfter(x.op, done, m) == m + 1)
            && (slot.degree == |conns| ==> slot.buffer[..|data|] == Result(|conns|, x.op, m))
  {
    hide SlotsHold, Contributed, CompleteAfter, Result;
    SlotOfPacket(conns, x, i, psn);
    SlotsTaken(|conns|, x.op, x.base[0] + 1, x.complete, x.done, x.ctx.slots, i, psn, data, slot, t.slots);
  }

  lemma AcceptedSlotsInv(conns: seq<Connection>, x: World, i: nat, t: Ctx)
    requires WellFormed(conns, x) && Aggregates(x.op) && SlotsInv(conns, x) && i < |conns| && Shaped(|conns|, t)
    requires var done := x.done[i := x.done[i] + 1];
             SlotsHold(|conns|, x.op, x.base[0] + 1, CompleteAfter(x.op, done, x.complete), done, t.slots)
    ensures WellFormed(conns, Accepted(x, i, t)) && SlotsInv(conns, Accepted(x, i, t))
  {
  }

  lemma AggregationKeepsInv(conns: seq<Connection>, x: World, i: nat, s: Ctx, psn: nat, data: Payload, t: Ctx)
    requires Inv(conns, x) && Accepting(conns, x, i, s, psn, data) && Aggregates(x.op)
    requires t == Aggregate(conns, s, RuleFor(conns, x.op, i), i, psn, data)
    ensures Inv(conns, Accepted(x, i, t))
  {
    hide Aggregate, SlotsHold, Intended, Informed, Within;
    var slot := Contributed(x.ctx.slots[Idx(psn)], i, data);
    AggregateEffect(conns, s, x.op, i, psn, data, slot);
    AcceptedSlots(conns, x, i, s, psn, data, slot, t);
    AcceptedSlotsInv(conns, x, i, t);
    AcceptingKeepsInv(conns, x, i, s, psn, data, t, Accepted(x, i, t), slot.buffer[..|data|]);
  }

  lemma BroadcastKeepsInv(conns: seq<Connection>, x: World, i: nat, s: Ctx, psn: nat, data: Payload, t: Ctx)
    requires Inv(conns, x) && Accepting(conns, x, i, s, psn, data) && !Aggregates(x.op)
    requires t == Aggregate(conns, s, RuleFor(conns, x.op, i), i, psn, data)
    ensures Inv(conns, Accepted(x, i, t))
  {
    BroadcastEffect(conns, s, x.op, RuleFor(conns, x.op, i), psn, data);
    assert Accepted(x, i, t).done[i] == x.complete + 1;
    AcceptingKeepsInv(conns, x, i, s, psn, data, t, Accepted(x, i, t), data);
  }

  lemma AcceptedPacketKeepsInv(conns: seq<Connection>, x: World, i: nat, s: Ctx, psn: nat, data: Payload, t: Ctx)
    requires Inv(conns, x) && Accepting(conns, x, i, s, psn, data)
    requires t == Aggregate(conns, s, RuleFor(conns, x.op, i), i, psn, data)
    ensures Inv(conns, Accepted(x, i, t))
  {
    if Aggregates(x.op) {
      AggregationKeepsInv(conns, x, i, s, psn, data, t);
    } else {
      BroadcastKeepsInv(conns, x, i, s, psn, data, t);
    }
  }

  lemma NextPacketIsAccepted(conns: seq<Connection>, lead: nat, x: World, i: nat, f: Frame)
    requires ValidWiring(conns) && WellFormed(conns, x) && Enabled(conns, lead, x, Packet(i, f)) && InSequence(x, i, f)
    ensures Apply(conns, x, Packet(i, f)) == Accepted(x, i, Handle(conns, TableOf(conns), x.ctx, i, f))
  {
  }

  lemma NextPacketKeepsInv(conns: seq<Connection>, lead: nat, x: World, i: nat, f: Frame)
    requires Inv(conns, x) && Enabled(conns, lead, x, Packet(i, f)) && InSequence(x, i, f)
    requires Fits(|conns|, lead, x.op)
    ensures Inv(conns, Apply(conns, x, Packet(i, f)))
  {
    NextPacketIsDue(conns, lead, x, i, f);
    NextPacketIsAggregated(conns, x.ctx, x.op, i, f);
    NextPacketIsAccepted(conns, lead, x, i, f);
    AcceptedPacketKeepsInv(conns, x, i, Replied(Advance(x.ctx, i), Ack(RuleFor(conns, x.op, i).ackConn, f.psn)), f.psn,
                           f.data, Handle(conns, TableOf(conns), x.ctx, i, f));
  }

  /** A finished operation has sent everything and leaves all slots empty. */
  lemma FinishedLeavesNothing(conns: seq<Connection>, x: World)
    requires Inv(conns, x) && Finished(x)
    ensures Idle(x.ctx.slots) && x.complete == Count(x.op)
  {
    var i :| 0 <= i < |conns| && Participates(x.op, i) && x.done[i] == x.complete;
    if Aggregates(x.op) {
      FinishedIsIdle(|conns|, x.op, x.base[0] + 1, x.done, x.ctx.slots);
    }
  }

  lemma NextKeepsInv(conns: seq<Connection>, lead: nat, x: World, op: Op)
    requires Inv(conns, x) && Enabled(conns, lead, x, Next(op))
    ensures Inv(conns, Apply(conns, x, Next(op)))
  {
    var n := |conns|;
    var y := Apply(conns, x, Next(op));
    FinishedLeavesNothing(conns, x);
    if Aggregates(op) {
      NextSlotsAgree(x.ctx.aggEpsn);
      IdleHoldsNothing(n, op, y.base[0] + 1, y.done, y.ctx.slots);
      assert y.done[0] == 0;
    } else {
      assert y.done[op.sender] == 0;
    }
    forall c | 0 <= c < n
      ensures HasSent(y.ctx, c, OwedNow(conns, y, c))
    {
      assert HasSent(x.ctx, c, OwedNow(conns, x, c));
      NextOwesTheSame(conns, x, y, op, c);
    }
  }

  /** When an operation is finished and the next begins, nothing more is owed. */
  lemma NextOwesTheSame(conns: seq<Connection>, x: World, y: World, op: Op, c: nat)
    requires WellFormed(conns, x) && WellFormed(conns, y) && c < |conns| && x.complete == Count(x.op)
    requires y.past == x.past + [x.op] && y.op == op && y.complete == 0
    ensures OwedNow(conns, y, c) == OwedNow(conns, x, c) == OwedByAll(conns, x.past + [x.op], c)
  {
    hide Result;
    assert (x.past + [x.op])[..|x.past|] == x.past;
    assert Owed(conns, op, c, 0) == [];
  }

  lemma NextSlotsAgree(epsn: seq<nat>)
    requires Aligned(epsn)
    ensures forall i, k :: 0 <= i < |epsn| && 0 <= k < |epsn| ==> Idx(epsn[i] + 1) == Idx(epsn[k] + 1)
  {
    forall i, k | 0 <= i < |epsn| && 0 <= k < |epsn|
      ensures Idx(epsn[i] + 1) == Idx(epsn[k] + 1)
    {
      SlotsShift(epsn[i], epsn[k], 1);
    }
  }

  lemma StepKeepsInv(conns: seq<Connection>, lead: nat, x: World, e: Event)
    requires Inv(conns, x) && Enabled(conns, lead, x, e) && Fits(|conns|, lead, x.op)
    ensures Inv(conns, Apply(conns, x, e))
  {
    match e
    case Control(i, f) => ControlKeepsInv(conns, lead, x, i, f);
    case Packet(i, f) =>
      if !InSequence(x, i, f) {
        NoiseKeepsInv(conns, lead, x, i, f);
      } else {
        NextPacketKeepsInv(conns, lead, x, i, f);
      }
    case Next(op) => NextKeepsInv(conns, lead, x, op);
  }

  lemma {:induction false} RunKeepsInv(conns: seq<Connection>, lead: nat, x: World, es: seq<Event>)
    requires Inv(conns, x) && Legal(conns, lead, x, es) && AllFit(|conns|, lead, x.op, es)
    ensures Inv(conns, Run(conns, lead, x, es))
    decreases |es|
  {
    if es != [] {
      StepKeepsInv(conns, lead, x, es[0]);
      RunKeepsInv(conns, lead, Apply(conns, x, es[0]), es[1..]);
    }
  }

  /** After any run, each connection has been sent packets 0, 1, 2, ... without gap or repeat, and their
      payloads are in order the results addressed to it: all those of the finished operations, and of the
      present one those of the packets that every participant has delivered.  With `lead` as large as one
      likes, connections may be any number of packets apart in operations of at most a ring of packets. */
  lemma StreamsCarryResults(conns: seq<Connection>, lead: nat, es: seq<Event>, c: nat)
    requires ValidWiring(conns) && Legal(conns, lead, Start(conns), es) && c < |conns|
    requires AllFit(|conns|, lead, Start(conns).op, es)
    ensures var x := Run(conns, lead, Start(conns), es);
            && Within(x.op, x.done, x.complete) && x.complete <= Count(x.op)
            && Numbered(x.ctx.out[c], x.ctx.sendPsn[c])
            && Payloads(x.ctx.out[c]) == OwedByAll(conns, x.past, c) + Owed(conns, x.op, c, x.complete)
  {
    InvInitially(conns);
    RunKeepsInv(conns, lead, Start(conns), es);
    var x := Run(conns, lead, Start(conns), es);
    assert HasSent(x.ctx, c, OwedNow(conns, x, c));
  }

  /** Between operations nothing is missing and nothing is left over. */
  lemma StreamsOfFinishedRun(conns: seq<Connection>, lead: nat, es: seq<Event>, c: nat)
    requires ValidWiring(conns) && Legal(conns, lead, Start(conns), es) && c < |conns|
    requires AllFit(|conns|, lead, Start(conns).op, es) && Finished(Run(conns, lead, Start(conns), es))
    ensures var x := Run(conns, lead, Start(conns), es);
            && Idle(x.ctx.slots)
            && Payloads(x.ctx.out[c]) == OwedByAll(conns, x.past + [x.op], c)
  {
    hide SlotsInv, Informed, Result;
    InvInitially(conns);
    RunKeepsInv(conns, lead, Start(conns), es);
    var x := Run(conns, lead, Start(conns), es);
    FinishedLeavesNothing(conns, x);
    assert HasSent(x.ctx, c, OwedNow(conns, x, c));
    assert (x.past + [x.op])[..|x.past|] == x.past;
  }

  // ----- Acknowledgements

  /** The answer to a data packet of connection i, and the number expected after it. */
  ghost predicate Answered(s: Ctx, t: Ctx, i: nat, psn: nat)
    requires i < |s.aggEpsn|
  {
    var e: int := s.aggEpsn[i];
    && t.aggEpsn == s.aggEpsn[i := if psn == e then psn + 1 else s.aggEpsn[i]]
    && t.replies == s.replies + [if psn > e then Nak(i, e) else Ack(i, if psn == e then psn else e - 1)]
  }

  lemma OnDataAnswers(conns: seq<Connection>, s: Ctx, rule: Rule, i: nat, f: Frame)
    requires Shaped(|conns|, s) && i < |conns| && Proper(f) && rule.ackConn == i
    ensures Answered(s, OnData(conns, s, rule, i, f), i, f.psn)
  {
  }

  /** The rule a host finds, if any, sends acknowledgements back to the host. */
  lemma FoundRuleAnswersHost(conns: seq<Connection>, i: nat, primitive: Primitive, param: int)
    requires ValidWiring(conns) && i < |conns|
    ensures var found := Lookup(TableOf(conns), KeyOf(conns[i], primitive, param));
            found.Some? ==> found.value.ackConn == i
  {
    assert IsHost(conns, i);
    LookupFindsIntended(conns, |conns|, i, primitive, param);
  }

  /** A data packet of a participant is answered on its own connection: a negative acknowledgement of the
      number expected, if and only if the packet is ahead of it, and otherwise a positive one of the last
      packet accepted, which is the packet itself if it was next in sequence. */
  lemma DataIsAnswered(conns: seq<Connection>, s: Ctx, op: Op, i: nat, f: Frame)
    requires ValidWiring(conns) && Shaped(|conns|, s) && i < |conns| && Proper(f) && IsData(f)
    requires ValidOp(|conns|, op) && Participates(op, i)
    requires s.operation == PrimitiveOfOp(op) && s.rootRank == ParamOfOp(conns, op)
    ensures Answered(s, Handle(conns, TableOf(conns), s, i, f), i, f.psn)
  {
    ParticipantFindsRule(conns, op, i);
    FoundRuleAnswersHost(conns, i, s.operation, s.rootRank);
    OnDataAnswers(conns, s, RuleFor(conns, op, i), i, f);
  }

  /** Counting and acknowledging sends no data. */
  lemma SameSent(conns: seq<Connection>, op: Op, s: Ctx, s': Ctx, t: Ctx, send: bool, data: Payload)
    requires |s.sendPsn| == |s.out| == |conns| && |t.sendPsn| == |t.out| == |conns|
    requires s'.out == s.out && s'.sendPsn == s.sendPsn && Delivers(conns, op, s', t, send, data)
    ensures Delivers(conns, op, s, t, send, data)
  {
    forall c, owed | 0 <= c < |conns| && HasSent(s, c, owed)
      ensures HasSent(t, c, owed + OneIf(send && Receives(conns, op, c), data))
    {
      assert HasSent(s', c, owed);
    }
  }

  /** What becomes of a participant's packet that carries the number expected, by its opcode.  Data without immediate
      data is counted, acknowledged, and goes into its slot, which is sent to the receivers when that fills it up, or
      is passed on at once in a Broadcast.  Anything else is dropped without a trace. */
  lemma AcceptedByOpcode(conns: seq<Connection>, s: Ctx, op: Op, i: nat, f: Frame)
    requires ValidWiring(conns) && Shaped(|conns|, s) && i < |conns| && Proper(f) && f.psn == s.aggEpsn[i]
    requires ValidOp(|conns|, op) && Participates(op, i) && f.opcode !in {0x03, 0x05}
    requires s.operation == PrimitiveOfOp(op) && s.rootRank == ParamOfOp(conns, op)
    ensures var t := Handle(conns, TableOf(conns), s, i, f);
            var slot := Contributed(s.slots[Idx(f.psn)], i, f.data);
            var full := slot.degree == |conns|;
            if f.opcode in {0x00, 0x01, 0x02, 0x04} then
              && t.aggEpsn == s.aggEpsn[i := s.aggEpsn[i] + 1] && t.replies == s.replies + [Ack(i, f.psn)]
              && t.operation == s.operation && t.rootRank == s.rootRank
              && if Aggregates(op) then
                   && t.slots == s.slots[Idx(f.psn) := if full then slot.(degree := 0, arrived := {}) else slot]
                   && Delivers(conns, op, s, t, full, slot.buffer[..|f.data|])
                 else t.slots == s.slots && Delivers(conns, op, s, t, true, f.data)
            else t == s
  {
    hide Handle, Aggregate, Intended, Merged, Delivers, Idx, Lookup;
    if f.opcode in {0x00, 0x01, 0x02, 0x04} {
      AckGoesBack(conns, op, i);
      NextPacketIsAggregated(conns, s, op, i, f);
      NextPacketSends(conns, s, op, i, f);
    } else {
      OtherOpcodesAreDropped(conns, s, i, f);
    }
  }

  lemma OtherOpcodesAreDropped(conns: seq<Connection>, s: Ctx, i: nat, f: Frame)
    requires ValidWiring(conns) && Shaped(|conns|, s) && i < |conns| && Proper(f)
    requires f.opcode !in {0x00, 0x01, 0x02, 0x03, 0x04, 0x05}
    ensures Handle(conns, TableOf(conns), s, i, f) == s
  {
  }

  lemma AckGoesBack(conns: seq<Connection>, op: Op, i: nat)
    requires ValidWiring(conns) && ValidOp(|conns|, op) && i < |conns| && Participates(op, i)
    ensures RuleFor(conns, op, i).ackConn == i
  {
    ParticipantFindsRule(conns, op, i);
    FoundRuleAnswersHost(conns, i, PrimitiveOfOp(op), ParamOfOp(conns, op));
  }

  /** A packet with immediate data first of all says what is going on, whatever its number.  If the switch then has a
      rule for it, one of at most four bytes under opcode 0x05 is a control packet, counted and acknowledged whatever
      its number; any other is data. */
  lemma ImmediateData(conns: seq<Connection>, s: Ctx, i: nat, f: Frame)
    requires ValidWiring(conns) && Shaped(|conns|, s) && i < |conns| && Proper(f) && f.opcode in {0x03, 0x05}
    ensures var t := Handle(conns, TableOf(conns), s, i, f);
            && t.operation == (if f.code == 0 then AllReduce else if f.code == 1 then Reduce
                               else if f.code == 2 then Broadcast else Null)
            && t.rootRank == (if f.destRank == 0xFFFF then -1 else f.destRank)
            && (Lookup(TableOf(conns), KeyOf(conns[i], t.operation, t.rootRank)).Some? ==>
                  if f.opcode == 0x05 && f.payloadLen <= 4 then
                    t == s.(operation := t.operation, rootRank := t.rootRank,
                            aggEpsn := s.aggEpsn[i := s.aggEpsn[i] + 1], replies := s.replies + [Ack(i, f.psn)])
                  else Answered(s, t, i, f.psn))
  {
    hide Aggregate, Lookup;
    var s1 := WithMetadata(s, f);
    FoundRuleAnswersHost(conns, i, s1.operation, s1.rootRank);
    var found := Lookup(TableOf(conns), KeyOf(conns[i], s1.operation, s1.rootRank));
    if found.Some? && !(f.opcode == 0x05 && f.payloadLen <= 4) {
      OnDataAnswers(conns, s1, found.value, i, f);
    }
  }

  lemma NextPacketSends(conns: seq<Connection>, s: Ctx, op: Op, i: nat, f: Frame)
    requires ValidWiring(conns) && Shaped(|conns|, s) && i < |conns| && Proper(f)
    requires ValidOp(|conns|, op) && Participates(op, i)
    requires s.operation == PrimitiveOfOp(op) && s.rootRank == ParamOfOp(conns, op)
    ensures var rule := RuleFor(conns, op, i);
            var slot := Contributed(s.slots[Idx(f.psn)], i, f.data);
            var full := slot.degree == |conns|;
            var t := Aggregate(conns, Replied(Advance(s, i), Ack(rule.ackConn, f.psn)), rule, i, f.psn, f.data);
            if Aggregates(op) then
              && t.slots == s.slots[Idx(f.psn) := if full then slot.(degree := 0, arrived := {}) else slot]
              && Delivers(conns, op, s, t, full, slot.buffer[..|f.data|])
            else t.slots == s.slots && Delivers(conns, op, s, t, true, f.data)
  {
    hide Aggregate, Intended, Merged, Delivers;
    var rule := RuleFor(conns, op, i);
    var counted := Replied(Advance(s, i), Ack(rule.ackConn, f.psn));
    var t := Aggregate(conns, counted, rule, i, f.psn, f.data);
    var slot := Contributed(s.slots[Idx(f.psn)], i, f.data);
    if Aggregates(op) {
      AggregateEffect(conns, counted, op, i, f.psn, f.data, slot);
      SameSent(conns, op, s, counted, t, slot.degree == |conns|, slot.buffer[..|f.data|]);
    } else {
      BroadcastEffect(conns, counted, op, rule, f.psn, f.data);
      SameSent(conns, op, s, counted, t, true, f.data);
    }
  }

  /** Acknowledgements name packets that have been accepted; negative ones do not ask for more than the next. */
  ghost predicate Truthful(s: Ctx) {
    forall k :: 0 <= k < |s.replies| ==>
      && 0 <= s.replies[k].conn < |s.aggEpsn|
      && s.replies[k].psn + (if s.replies[k].Ack? then 1 else 0) <= s.aggEpsn[s.replies[k].conn]
  }

  lemma AnsweredIsTruthful(s: Ctx, t: Ctx, i: nat, psn: nat)
    requires i < |s.aggEpsn| && Answered(s, t, i, psn) && Truthful(s)
    ensures Truthful(t)
  {
  }

  lemma PacketKeepsTruthful(conns: seq<Connection>, s: Ctx, i: nat, f: Frame)
    requires ValidWiring(conns) && Shaped(|conns|, s) && i < |conns| && Proper(f) && !HasImm(f) && Truthful(s)
    ensures Truthful(Handle(conns, TableOf(conns), s, i, f))
  {
    var found := Lookup(TableOf(conns), KeyOf(conns[i], s.operation, s.rootRank));
    FoundRuleAnswersHost(conns, i, s.operation, s.rootRank);
    if found.Some? && IsSend(f) {
      OnDataAnswers(conns, s, found.value, i, f);
      AnsweredIsTruthful(s, OnData(conns, s, found.value, i, f), i, f.psn);
    }
  }

  lemma ControlKeepsTruthful(conns: seq<Connection>, s: Ctx, op: Op, i: nat, f: Frame)
    requires ValidWiring(conns) && Shaped(|conns|, s) && i < |conns| && Proper(f) && IsControl(f) && Truthful(s)
    requires ValidOp(|conns|, op) && Participates(op, i) && f.psn == s.aggEpsn[i]
    requires PrimitiveOf(f.code) == PrimitiveOfOp(op) && ParamOf(f.destRank) == ParamOfOp(conns, op)
    ensures Truthful(Handle(conns, TableOf(conns), s, i, f))
  {
    hide Handle, Lookup, Intended, TableOf, Truthful;
    ControlIsRecorded(conns, s, op, i, f);
    FoundRuleAnswersHost(conns, i, PrimitiveOfOp(op), ParamOfOp(conns, op));
    ParticipantFindsRule(conns, op, i);
    AnsweredIsTruthful(s, Handle(conns, TableOf(conns), s, i, f), i, f.psn);
  }

  lemma StepKeepsTruthful(conns: seq<Connection>, lead: nat, x: World, e: Event)
    requires ValidWiring(conns) && WellFormed(conns, x) && Enabled(conns, lead, x, e) && Truthful(x.ctx)
    ensures Truthful(Apply(conns, x, e).ctx)
  {
    match e
    case Control(i, f) => ControlKeepsTruthful(conns, x.ctx, x.op, i, f);
    case Packet(i, f) => PacketKeepsTruthful(conns, x.ctx, i, f);
    case Next(_) =>
  }

  lemma {:induction false} RunKeepsTruthful(conns: seq<Connection>, lead: nat, x: World, es: seq<Event>)
    requires ValidWiring(conns) && WellFormed(conns, x) && Legal(conns, lead, x, es) && Truthful(x.ctx)
    ensures Truthful(Run(conns, lead, x, es).ctx)
    decreases |es|
  {
    if es != [] {
      StepKeepsTruthful(conns, lead, x, es[0]);
      RunKeepsTruthful(conns, lead, Apply(conns, x, es[0]), es[1..]);
    }
  }

  /** After any run every acknowledgement ever sent names a packet its connection has delivered. */
  lemma AcknowledgedIsAccepted(conns: seq<Connection>, lead: nat, es: seq<Event>)
    requires ValidWiring(conns) && Legal(conns, lead, Start(conns), es)
    ensures Truthful(Run(conns, lead, Start(conns), es).ctx)
  {
    RunKeepsTruthful(conns, lead, Start(conns), es);
  }
}
