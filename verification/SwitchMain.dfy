/** The packet handler of the refactored root switch (`switch_main.c`), one packet at a time: metadata from
    control packets, the go-back-N receiver of each connection, aggregation, and the three ways a result
    leaves the switch, each connection numbered by its own counter.
 */
module SwitchMain {
  import opened Words
  import opened Rings
  import opened Rules

  const SWITCH_ARRAY_LENGTH: nat := N
  const BUFFER_WORDS: nat := 1024

  const SEND_FIRST: nat := 0x00
  const SEND_MIDDLE: nat := 0x01
  const SEND_LAST: nat := 0x02
  const SEND_LAST_WITH_IMM: nat := 0x03
  const SEND_ONLY: nat := 0x04
  const SEND_ONLY_WITH_IMM: nat := 0x05
  const ACKNOWLEDGE: nat := 0x11

  const DEST_RANK_ALL: nat := 0xFFFF

  /** A received packet; `destRank` and `code` are those of its immediate data, if the opcode has any. */
  datatype Frame = Frame(opcode: nat, psn: nat, destRank: nat, code: nat, payloadLen: nat, data: Payload)

  predicate Proper(f: Frame) {
    |f.data| == f.payloadLen / 4 && |f.data| <= BUFFER_WORDS
  }

  predicate HasImm(f: Frame) {
    f.opcode == SEND_ONLY_WITH_IMM || f.opcode == SEND_LAST_WITH_IMM
  }

  predicate IsControl(f: Frame) {
    f.opcode == SEND_ONLY_WITH_IMM && f.payloadLen <= 4
  }

  predicate IsSend(f: Frame) {
    f.opcode in {SEND_FIRST, SEND_MIDDLE, SEND_LAST, SEND_LAST_WITH_IMM, SEND_ONLY, SEND_ONLY_WITH_IMM}
  }

  function PrimitiveOf(code: nat): Primitive {
    if code == 0 then AllReduce else if code == 1 then Reduce else if code == 2 then Broadcast else Null
  }

  function ParamOf(destRank: nat): int {
    if destRank == DEST_RANK_ALL then -1 else destRank
  }

  datatype Slot = Slot(degree: nat, arrived: set<nat>, buffer: Payload)

  datatype Sent = Sent(psn: nat, data: Payload)

  datatype Reply = Ack(conn: int, psn: int) | Nak(conn: int, psn: int)

  /** `out[c]` are the data packets sent on connection c so far, `replies` all acknowledgements sent. */
  datatype Ctx = Ctx(operation: Primitive, rootRank: int, aggEpsn: seq<nat>, sendPsn: seq<nat>,
                     slots: seq<Slot>, out: seq<seq<Sent>>, replies: seq<Reply>)

  predicate Shaped(n: nat, s: Ctx) {
    && |s.aggEpsn| == |s.sendPsn| == |s.out| == n
    && |s.slots| == SWITCH_ARRAY_LENGTH
    && forall k :: 0 <= k < SWITCH_ARRAY_LENGTH ==> |s.slots[k].buffer| == BUFFER_WORDS
  }

  function Init(n: nat): (s: Ctx)
    ensures Shaped(n, s)
  {
    Ctx(AllReduce, -1, seq(n, i => 0), seq(n, i => 0), seq(SWITCH_ARRAY_LENGTH, k => Slot(0, {}, Zero(BUFFER_WORDS))),
        seq(n, i => []), [])
  }

  // ----- Sending

  /** Sends on connection c under its next number; a connection the switch does not have is skipped. */
  function SendTo(s: Ctx, c: int, data: Payload): (s': Ctx)
    requires |s.sendPsn| == |s.out|
    ensures |s'.sendPsn| == |s'.out| == |s.out|
  {
    if 0 <= c < |s.out| then
      s.(sendPsn := s.sendPsn[c := s.sendPsn[c] + 1], out := s.out[c := s.out[c] + [Sent(s.sendPsn[c], data)]])
    else s
  }

  function SendAll(s: Ctx, outs: seq<int>, data: Payload): (s': Ctx)
    requires |s.sendPsn| == |s.out|
    ensures |s'.sendPsn| == |s'.out| == |s.out|
    ensures s' == s.(sendPsn := s'.sendPsn, out := s'.out)
  {
    if outs == [] then s
    else SendTo(SendAll(s, outs[..|outs| - 1], data), outs[|outs| - 1], data)
  }

  /** All connections up to n but one. */
  function Others(n: nat, conn: nat): seq<int> {
    if n == 0 then [] else Others(n - 1, conn) + if n - 1 == conn then [] else [n - 1]
  }

  // ----- Aggregation

  /** The first contribution is copied over the front of the buffer, later ones are added to it. */
  function Merged(slot: Slot, data: Payload): (r: Payload)
    requires |slot.buffer| == BUFFER_WORDS && |data| <= BUFFER_WORDS
    ensures |r| == BUFFER_WORDS
    ensures r[|data|..] == slot.buffer[|data|..]
    ensures r[..|data|] == if slot.degree == 0 then data else AddPayload(slot.buffer[..|data|], data)
  {
    (if slot.degree == 0 then data else AddPayload(slot.buffer[..|data|], data)) + slot.buffer[|data|..]
  }

  function WithSlot(s: Ctx, k: nat, slot: Slot): Ctx
    requires k < |s.slots|
  {
    s.(slots := s.slots[k := slot])
  }

  function Contributed(slot: Slot, conn: nat, data: Payload): Slot
    requires |slot.buffer| == BUFFER_WORDS && |data| <= BUFFER_WORDS
  {
    Slot(slot.degree + 1, slot.arrived + {conn}, Merged(slot, data))
  }

  function Target(conns: seq<Connection>, rootRank: int): int {
    if 0 <= rootRank < MAX_RANKS then RankMap(conns)[rootRank] else -1
  }

  /** What leaves the switch when a slot has filled up. */
  function SendResult(conns: seq<Connection>, s: Ctx, rule: Rule, data: Payload): (s': Ctx)
    requires |s.sendPsn| == |s.out|
    ensures |s'.sendPsn| == |s'.out| == |s.out|
    ensures s' == s.(sendPsn := s'.sendPsn, out := s'.out)
  {
    match s.operation
    case AllReduce => SendAll(s, rule.outConns, data)
    case Reduce => SendTo(s, Target(conns, s.rootRank), data)
    case _ => s
  }

  function Aggregate(conns: seq<Connection>, s: Ctx, rule: Rule, conn: nat, psn: nat, data: Payload): (s': Ctx)
    requires Shaped(|conns|, s) && |data| <= BUFFER_WORDS
    ensures Shaped(|conns|, s')
    ensures s' == s.(sendPsn := s'.sendPsn, slots := s'.slots, out := s'.out)
  {
    if s.operation == Broadcast then SendAll(s, Others(|conns|, conn), data)
    else
      var slot := Contributed(s.slots[Idx(psn)], conn, data);
      if slot.degree == |conns| && (s.operation == AllReduce || s.operation == Reduce) then
        var sent := SendResult(conns, s, rule, slot.buffer[..|data|]);
        WithSlot(sent, Idx(psn), slot.(degree := 0, arrived := {}))
      else
        WithSlot(s, Idx(psn), slot)
  }

  // ----- One packet

  function Advance(s: Ctx, conn: nat): Ctx
    requires conn < |s.aggEpsn|
  {
    s.(aggEpsn := s.aggEpsn[conn := s.aggEpsn[conn] + 1])
  }

  function Replied(s: Ctx, reply: Reply): Ctx {
    s.(replies := s.replies + [reply])
  }

  function WithMetadata(s: Ctx, f: Frame): Ctx {
    if HasImm(f) then s.(operation := PrimitiveOf(f.code), rootRank := ParamOf(f.destRank)) else s
  }

  /** A data packet of a connection whose rule has been found. */
  function OnData(conns: seq<Connection>, s: Ctx, rule: Rule, conn: nat, f: Frame): (s': Ctx)
    requires Shaped(|conns|, s) && conn < |conns| && Proper(f)
    ensures Shaped(|conns|, s')
  {
    if f.psn < s.aggEpsn[conn] then Replied(s, Ack(rule.ackConn, s.aggEpsn[conn] - 1))
    else if f.psn > s.aggEpsn[conn] then Replied(s, Nak(rule.ackConn, s.aggEpsn[conn]))
    else Aggregate(conns, Replied(Advance(s, conn), Ack(rule.ackConn, f.psn)), rule, conn, f.psn, f.data)
  }

  function Handle(conns: seq<Connection>, table: seq<Rule>, s: Ctx, conn: nat, f: Frame): (s': Ctx)
    requires Shaped(|conns|, s) && conn < |conns| && Proper(f)
    ensures Shaped(|conns|, s')
  {
    var s1 := WithMetadata(s, f);
    var found := Lookup(table, KeyOf(conns[conn], s1.operation, s1.rootRank));
    if found.None? then s1
    else if IsControl(f) then Replied(Advance(s1, conn), Ack(found.value.ackConn, f.psn))
    else if IsSend(f) then OnData(conns, s1, found.value, conn, f)
    else s1
  }
}
