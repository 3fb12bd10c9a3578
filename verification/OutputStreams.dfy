/** What every connection of the refactored root switch is sent over a whole run of AllReduce, Reduce and
    Broadcast operations: data packets numbered 0, 1, 2, ..., carrying in order exactly the results
    addressed to that connection.

    A run feeds packets of all connections to the packet handler in any order.  Packets that are not next
    in sequence are arbitrary, so retransmissions, gaps and acknowledgements are all covered.
 */
module OutputStreams {
  import opened Words
  import opened Rings
  import opened Rules
  import opened SwitchMain

  const PSN_SPACE: nat := 0x100_0000

  // ----- Operations and what they owe each connection

  /** `load[j][i]` is data packet j of connection i; `root` is a rank, `sender` a connection. */
  datatype Op =
    | AllReduceOp(load: seq<seq<Payload>>)
    | ReduceOp(root: nat, load: seq<seq<Payload>>)
    | BroadcastOp(sender: nat, packets: seq<Payload>)

  predicate Aggregates(op: Op) {
    !op.BroadcastOp?
  }

  function Count(op: Op): nat {
    if op.BroadcastOp? then |op.packets| else |op.load|
  }

  function Len(op: Op, j: nat): nat
    requires Aggregates(op) && j < Count(op)
  {
    if op.load[j] == [] then 0 else |op.load[j][0]|
  }

  predicate ValidOp(n: nat, op: Op) {
    if op.BroadcastOp? then
      op.sender < n && forall j :: 0 <= j < |op.packets| ==> |op.packets[j]| <= BUFFER_WORDS
    else
      && (op.ReduceOp? ==> op.root < n)
      && forall j :: 0 <= j < |op.load| ==>
           |op.load[j]| == n && Uniform(op.load[j], Len(op, j)) && Len(op, j) <= BUFFER_WORDS
  }

  predicate Participates(op: Op, i: nat) {
    Aggregates(op) || i == op.sender
  }

  /** Data packet j of connection i. */
  function Script(n: nat, op: Op, i: nat, j: nat): (p: Payload)
    requires ValidOp(n, op) && i < n && j < Count(op)
    ensures |p| <= BUFFER_WORDS
  {
    if Aggregates(op) then op.load[j][i] else op.packets[j]
  }

  /** The result of packet j: the sum over all connections, or the sender's packet itself. */
  function Result(n: nat, op: Op, j: nat): Payload
    requires ValidOp(n, op) && j < Count(op)
  {
    if Aggregates(op) then Total(op.load[j], Len(op, j)) else op.packets[j]
  }

  predicate Receives(conns: seq<Connection>, op: Op, c: nat)
    requires c < |conns|
  {
    match op
    case AllReduceOp(_) => true
    case ReduceOp(root, _) => conns[c].peerId == root
    case BroadcastOp(sender, _) => c != sender
  }

  /** The first m results as far as they are addressed to connection c. */
  function Owed(conns: seq<Connection>, op: Op, c: nat, m: nat): seq<Payload>
    requires ValidOp(|conns|, op) && c < |conns| && m <= Count(op)
  {
    if Receives(conns, op, c) then seq(m, j requires 0 <= j < m => Result(|conns|, op, j)) else []
  }

  ghost predicate ValidOps(n: nat, ops: seq<Op>) {
    forall k :: 0 <= k < |ops| ==> ValidOp(n, ops[k])
  }

  ghost function OwedByAll(conns: seq<Connection>, ops: seq<Op>, c: nat): seq<Payload>
    requires ValidOps(|conns|, ops) && c < |conns|
  {
    if ops == [] then []
    else
      var last := |ops| - 1;
      OwedByAll(conns, ops[..last], c) + Owed(conns, ops[last], c, Count(ops[last]))
  }

  function PrimitiveOfOp(op: Op): Primitive {
    match op
    case AllReduceOp(_) => AllReduce
    case ReduceOp(_, _) => Reduce
    case BroadcastOp(_, _) => Broadcast
  }

  function ParamOfOp(conns: seq<Connection>, op: Op): int
    requires ValidOp(|conns|, op)
  {
    match op
    case AllReduceOp(_) => -1
    case ReduceOp(root, _) => root
    case BroadcastOp(sender, _) => conns[sender].peerId
  }

  // ----- Runs

  /** A switch all of whose connections are hosts, few enough for the rule table. */
  ghost predicate ValidWiring(conns: seq<Connection>) {
    && 1 <= |conns| <= 9 && WellWired(conns, |conns|)
    && forall c :: 0 <= c < |conns| ==> !conns[c].isSwitch
  }

  ghost function TableOf(conns: seq<Connection>): seq<Rule>
    requires ValidWiring(conns)
  {
    Table(conns, |conns|)
  }

  /** The switch in the middle of operation `op`, after the finished operations `past`.  `base[i]` is the
      number of connection i's first packet of the operation, `started[i]` says that its control packet has
      arrived, `done[i]` counts its data packets accepted, and `complete` the results sent. */
  datatype World = World(ctx: Ctx, past: seq<Op>, op: Op, base: seq<int>, started: seq<bool>, done: seq<nat>,
                         complete: nat)

  datatype Event = Control(conn: nat, f: Frame) | Packet(conn: nat, f: Frame) | Next(op: Op)

  ghost predicate WellFormed(conns: seq<Connection>, x: World) {
    var n := |conns|;
    && Shaped(n, x.ctx) && ValidOps(n, x.past) && ValidOp(n, x.op)
    && |x.base| == |x.started| == |x.done| == n
  }

  /** A switch that has just been set up, as if after an AllReduce of no packets. */
  ghost function Start(conns: seq<Connection>): World
    requires ValidWiring(conns)
  {
    var n := |conns|;
    World(SwitchMain.Init(n), [], AllReduceOp([]), seq(n, i => -1), seq(n, i => true), seq(n, i => 0), 0)
  }

  predicate Finished(x: World)
    requires |x.started| == |x.done|
  {
    forall i :: 0 <= i < |x.done| && Participates(x.op, i) ==> x.started[i] && x.done[i] == Count(x.op)
  }

  /** The slots chosen by the connections' next numbers agree. */
  predicate Aligned(epsn: seq<nat>) {
    forall i, k :: 0 <= i < |epsn| && 0 <= k < |epsn| ==> Idx(epsn[i]) == Idx(epsn[k])
  }

  /** A data packet without immediate data: SEND First, Middle, Last or Only of the reliable connection. */
  predicate IsData(f: Frame) {
    f.opcode in {0x00, 0x01, 0x02, 0x04}
  }

  /** With a path MTU of 1024 bytes a message of 4096 bytes travels as four packets, whose opcodes say which of the
      four they are. */
  const PACKETS: nat := 4

  function OpcodeAt(j: nat): nat {
    if j % PACKETS == 0 then 0x00 else if j % PACKETS == PACKETS - 1 then 0x02 else 0x01
  }

  /** Packet f is the next of connection i. */
  predicate InSequence(x: World, i: nat, f: Frame)
    requires i < |x.ctx.aggEpsn|
  {
    IsData(f) && f.psn == x.ctx.aggEpsn[i]
  }

  /** The event makes sense for a switch of n connections. */
  predicate Sensible(n: nat, e: Event) {
    match e
    case Control(i, f) => i < n && Proper(f)
    case Packet(i, f) => i < n && Proper(f)
    case Next(op) => ValidOp(n, op)
  }

  /** What the hosts and the network are relied on for: a participant sends one control packet, which arrives
      once and in sequence, and then its data; a data packet that is next in sequence is what the operation
      says, and less than `lead` packets ahead of the slowest connection.  Packets out of sequence may be
      anything but control packets. */
  ghost predicate Enabled(conns: seq<Connection>, lead: nat, x: World, e: Event): (b: bool)
    requires ValidWiring(conns) && WellFormed(conns, x)
    ensures b ==> Sensible(|conns|, e)
  {
    var n := |conns|;
    match e
    case Control(i, f) =>
      && i < n && Participates(x.op, i) && !x.started[i] && Proper(f) && IsControl(f) && f.psn == x.ctx.aggEpsn[i]
      && PrimitiveOf(f.code) == PrimitiveOfOp(x.op) && ParamOf(f.destRank) == ParamOfOp(conns, x.op)
    case Packet(i, f) =>
      && i < n && Proper(f) && !HasImm(f) && f.psn < PSN_SPACE
      && (InSequence(x, i, f) ==>
            && Participates(x.op, i) && x.started[i] && x.done[i] < Count(x.op)
            && x.done[i] < x.complete + lead
            && f.data == Script(n, x.op, i, x.done[i]))
    case Next(op) =>
      ValidOp(n, op) && Finished(x) && (Aggregates(op) ==> Aligned(x.ctx.aggEpsn))
  }

  /** The ring is enough for the operation: nobody can be a whole ring ahead of anybody else, because none is
      allowed to, or there are too few packets, or there is nobody else. */
  predicate Fits(n: nat, lead: nat, op: Op) {
    lead <= SWITCH_ARRAY_LENGTH || Count(op) <= SWITCH_ARRAY_LENGTH || op.BroadcastOp? || n == 1
  }

  /** So it is for the present operation and for all that begin. */
  ghost predicate AllFit(n: nat, lead: nat, op: Op, es: seq<Event>) {
    Fits(n, lead, op) && forall e :: e in es && e.Next? ==> Fits(n, lead, e.op)
  }

  /** Some participant has not had more than m packets accepted. */
  predicate Waiting(op: Op, done: seq<nat>, m: nat) {
    exists i :: 0 <= i < |done| && Participates(op, i) && done[i] <= m
  }

  /** Packet m is complete, too, once nobody is left at it. */
  function CompleteAfter(op: Op, done: seq<nat>, m: nat): nat {
    if Waiting(op, done, m) then m else m + 1
  }

  ghost function Apply(conns: seq<Connection>, x: World, e: Event): (y: World)
    requires ValidWiring(conns) && WellFormed(conns, x) && Sensible(|conns|, e)
    ensures WellFormed(conns, y)
  {
    var n := |conns|;
    match e
    case Control(i, f) => x.(ctx := Handle(conns, TableOf(conns), x.ctx, i, f), started := x.started[i := true])
    case Packet(i, f) =>
      var ctx := Handle(conns, TableOf(conns), x.ctx, i, f);
      if InSequence(x, i, f) then
        var done := x.done[i := x.done[i] + 1];
        x.(ctx := ctx, done := done, complete := CompleteAfter(x.op, done, x.complete))
      else x.(ctx := ctx)
    case Next(op) =>
      World(x.ctx, x.past + [x.op], op, x.ctx.aggEpsn, seq(n, i => false), seq(n, i => 0), 0)
  }

  ghost predicate Legal(conns: seq<Connection>, lead: nat, x: World, es: seq<Event>)
    requires ValidWiring(conns) && WellFormed(conns, x)
    decreases |es|
  {
    es == [] || (Enabled(conns, lead, x, es[0]) && Legal(conns, lead, Apply(conns, x, es[0]), es[1..]))
  }

  ghost function Run(conns: seq<Connection>, lead: nat, x: World, es: seq<Event>): (y: World)
    requires ValidWiring(conns) && WellFormed(conns, x) && Legal(conns, lead, x, es)
    ensures WellFormed(conns, y)
    decreases |es|
  {
    if es == [] then x else Run(conns, lead, Apply(conns, x, es[0]), es[1..])
  }
}
