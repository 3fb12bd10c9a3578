/** Hosts, lossy per-port FIFO channels and the root switch as one transition system.

    The hosts run `inccl_allreduce_write`: write work requests of four packets each,
    two requests in the window, advanced by polled completions.  Between host and
    switch sits the network card: it sends and resends any unacknowledged packet,
    accepts results in PSN order only, writes them where the packet's address says,
    and acknowledges them; the switch reflects those acknowledgements, which is what
    completes the host's own writes.

    Packets carry 24-bit PSNs.  Channels annotate each packet with the unbounded
    sequence number it was made from; neither the switch nor the card ever reads it.
 */
module RootProtocol {
  import opened Words
  import opened RootSlots
  import opened WireNumbers

  const PACKETS: nat := 4        // packets of PAYLOAD_LEN bytes in a message of MESSAGE_SIZE bytes
  const WINDOW: nat := 2         // messages in the host's window of 8192 bytes
  const PAYLOAD_LEN: nat := 1024

  /** What never changes during a collective: who takes part, what each host sends and where it wants the
      results, and whether negative acknowledgements of the cards get through to the switch; `load(q)[i]` is
      host i's payload for sequence number q. */
  datatype Config = Config(fanIn: nat, messages: nat, load: nat -> seq<Payload>, base: nat -> nat, rkey: nat -> nat,
                           negatives: bool)

  ghost predicate ValidConfig(c: Config) {
    && c.fanIn >= 1
    && forall q: nat {:trigger c.load(q)} :: |c.load(q)| == c.fanIn && Uniform(c.load(q), PAYLOAD_WORDS)
  }

  /** A write of several packets: RDMA WRITE First, Middle and Last. */
  function OpcodeOf(q: nat): int {
    if q % PACKETS == 0 then 0x06 else if q % PACKETS == PACKETS - 1 then 0x08 else 0x07
  }

  /** Where packet q of the result belongs in host i's receive buffer. */
  function Addr(c: Config, i: nat, q: nat): nat {
    c.base(i) + q * PAYLOAD_LEN
  }

  function RethOf(c: Config, i: nat, q: nat): Reth {
    Reth(Addr(c, i, q - q % PACKETS), c.rkey(i), PACKETS * PAYLOAD_LEN)
  }

  datatype UpMsg = UpData(seqno: nat) | UpAck(seqno: nat) | UpNak(seqno: nat)

  datatype DownMsg = DownMsg(seqno: nat, out: Output)

  /** A host with its network card: completions polled, PSNs acknowledged, PSNs received in order,
      address of the next write, receive buffer, and the destination array filled on completions. */
  datatype Host = Host(polled: nat, acked: nat, rcv: nat, cursor: nat, mem: map<nat, Payload>, dst: map<nat, Payload>)

  /** `got` and `owner` are history: which sequence numbers arrived from each port, and which one
      each slot was last cleared for. */
  datatype System = System(slots: seq<Slot>, hosts: seq<Host>, up: seq<seq<UpMsg>>, down: seq<seq<DownMsg>>,
                           got: seq<set<nat>>, owner: seq<nat>)

  datatype Event =
    | Send(port: nat, seqno: nat)
    | Arrive(port: nat)
    | Deliver(port: nat)
    | Refuse(port: nat)
    | Poll(port: nat)
    | DropUp(port: nat, k: nat)
    | DropDown(port: nat, k: nat)

  ghost predicate Shaped(c: Config, s: System) {
    && WellFormed(c.fanIn, s.slots) && |s.owner| == N
    && |s.hosts| == |s.up| == |s.down| == |s.got| == c.fanIn
  }

  ghost function Init(c: Config): System {
    System(seq(N, k => EmptySlot(c.fanIn)),
           seq(c.fanIn, i => Host(0, 0, 0, 0, map[], map[])),
           seq(c.fanIn, i => []), seq(c.fanIn, i => []), seq(c.fanIn, i => {}),
           seq(N, k => k))
  }

  /** First sequence number the host has not posted: two messages beyond the polled ones. */
  function Limit(c: Config, h: Host): nat {
    PACKETS * if h.polled + WINDOW < c.messages then h.polled + WINDOW else c.messages
  }

  ghost predicate Done(c: Config, got: seq<set<nat>>, q: nat)
    requires |got| == c.fanIn
  {
    forall i :: 0 <= i < c.fanIn ==> q in got[i]
  }

  /** The opcode of a negative acknowledgement is that of a positive one. */
  ghost function Parse(c: Config, i: nat, m: UpMsg): (p: Packet)
    requires ValidConfig(c) && i < c.fanIn
    ensures Acceptable(p)
  {
    match m
    case UpData(q) => Packet(OpcodeOf(q), Wire(q), RethOf(c, i, q), c.load(q)[i])
    case UpAck(q) => Packet(ACKNOWLEDGE, Wire(q), NO_RETH, [])
    case UpNak(q) => Packet(ACKNOWLEDGE, Wire(q), NO_RETH, [])
  }

  function Route(outs: seq<Output>, q: nat, i: nat): seq<DownMsg> {
    if outs == [] then []
    else
      var last := |outs| - 1;
      Route(outs[..last], q, i) + if outs[last].port == i then [DownMsg(q, outs[last])] else []
  }

  /** The switch takes the oldest packet of one port and queues what it sends. */
  ghost function ArriveAt(c: Config, s: System, i: nat): System
    requires ValidConfig(c) && Shaped(c, s) && i < c.fanIn && s.up[i] != []
  {
    var (slots', outs) := Step(c.fanIn, s.slots, i, Parse(c, i, s.up[i][0]));
    AfterStep(c, s, i, slots', outs)
  }

  ghost function AfterStep(c: Config, s: System, i: nat, slots': seq<Slot>, outs: seq<Output>): System
    requires ValidConfig(c) && Shaped(c, s) && i < c.fanIn && s.up[i] != []
  {
    var m := s.up[i][0];
    var got' := if m.UpData? then s.got[i := s.got[i] + {m.seqno}] else s.got;
    var completes := m.UpData? && Done(c, got', m.seqno) && !Done(c, s.got, m.seqno);
    System(slots', s.hosts, s.up[i := s.up[i][1..]],
           seq(c.fanIn, j requires 0 <= j < c.fanIn => s.down[j] + Route(outs, m.seqno, j)),
           got',
           if completes then s.owner[Idx(m.seqno + WINDOW_SIZE) := m.seqno + WINDOW_SIZE] else s.owner)
  }

  /** The network card takes a packet: new state, and the acknowledgement it sends, if any.  A result
      ahead of the expected PSN is dropped; the card may say so (`Refuse`), but does not go on saying so, and
      what it says may be lost. */
  function Receive(c: Config, h: Host, out: Output): (Host, seq<UpMsg>) {
    if out.Ack? then
      var d := Ahead(out.psn, h.acked);
      if h.acked + d < Limit(c, h) then (h.(acked := h.acked + d + 1), []) else (h, [])
    else
      var d := Ahead(out.psn, h.rcv);
      if d == 0 then
        var at := if out.AddressedData? then out.reth.va else h.cursor;
        (h.(rcv := h.rcv + 1, cursor := at + PAYLOAD_LEN, mem := h.mem[at := out.data]), [UpAck(h.rcv)])
      else if d >= HALF_SPACE && h.rcv > 0 then (h, [UpAck(h.rcv - 1)])
      else (h, [])
  }

  ghost function DeliverAt(c: Config, s: System, i: nat): System
    requires Shaped(c, s) && i < c.fanIn && s.down[i] != []
  {
    var (h, reply) := Receive(c, s.hosts[i], s.down[i][0].out);
    s.(hosts := s.hosts[i := h], down := s.down[i := s.down[i][1..]], up := s.up[i := s.up[i] + reply])
  }

  /** A result ahead of the expected PSN. */
  predicate IsGap(h: Host, out: Output) {
    !out.Ack? && 0 < Ahead(out.psn, h.rcv) < HALF_SPACE
  }

  /** The card drops the result and asks for the one it expects. */
  ghost function RefuseAt(c: Config, s: System, i: nat): System
    requires Shaped(c, s) && i < c.fanIn && s.down[i] != []
  {
    s.(down := s.down[i := s.down[i][1..]], up := s.up[i := s.up[i] + [UpNak(s.hosts[i].rcv)]])
  }

  function Load(h: Host, at: nat): Payload {
    if at in h.mem then h.mem[at] else []
  }

  /** One completion: copy the message's chunk of the receive buffer to the destination; this also
      lets the next message be posted. */
  ghost function PollOne(c: Config, i: nat, h: Host): Host {
    var q := PACKETS * h.polled;
    h.(polled := h.polled + 1,
       dst := h.dst[q := Load(h, Addr(c, i, q))][q + 1 := Load(h, Addr(c, i, q + 1))]
                   [q + 2 := Load(h, Addr(c, i, q + 2))][q + 3 := Load(h, Addr(c, i, q + 3))])
  }

  ghost predicate Enabled(c: Config, s: System, e: Event)
    requires Shaped(c, s)
  {
    && e.port < c.fanIn
    && match e
       case Send(i, q) => s.hosts[i].acked <= q < Limit(c, s.hosts[i])
       case Arrive(i) => s.up[i] != []
       case Deliver(i) => s.down[i] != []
       case Refuse(i) => c.negatives && s.down[i] != [] && IsGap(s.hosts[i], s.down[i][0].out)
       case Poll(i) => s.hosts[i].polled < c.messages && PACKETS * (s.hosts[i].polled + 1) <= s.hosts[i].acked
       case DropUp(i, k) => k < |s.up[i]|
       case DropDown(i, k) => k < |s.down[i]|
  }

  function Remove<T>(xs: seq<T>, k: nat): seq<T>
    requires k < |xs|
  {
    xs[..k] + xs[k + 1..]
  }

  ghost function Apply(c: Config, s: System, e: Event): (s': System)
    requires ValidConfig(c) && Shaped(c, s) && Enabled(c, s, e)
    ensures Shaped(c, s')
  {
    var i := e.port;
    match e
    case Send(_, q) => s.(up := s.up[i := s.up[i] + [UpData(q)]])
    case Arrive(_) => ArriveAt(c, s, i)
    case Deliver(_) => DeliverAt(c, s, i)
    case Refuse(_) => RefuseAt(c, s, i)
    case Poll(_) => s.(hosts := s.hosts[i := PollOne(c, i, s.hosts[i])])
    case DropUp(_, k) => s.(up := s.up[i := Remove(s.up[i], k)])
    case DropDown(_, k) => s.(down := s.down[i := Remove(s.down[i], k)])
  }

  // ----- Invariant

  ghost function Contributors(c: Config, got: seq<set<nat>>, q: nat): set<nat>
    requires |got| == c.fanIn
  {
    set i | 0 <= i < c.fanIn && q in got[i]
  }

  /** A slot holds exactly what the sequence number it belongs to calls for. */
  ghost predicate SlotInv(c: Config, got: seq<set<nat>>, slot: Slot, o: nat)
    requires ValidConfig(c) && |got| == c.fanIn && |slot.reths| == c.fanIn
  {
    && slot.arrived == Contributors(c, got, o) + (if Done(c, got, o) then {c.fanIn} else {})
    && slot.sum == SumOf(c.load(o), Contributors(c, got, o), PAYLOAD_WORDS)
    && forall i :: 0 <= i < c.fanIn && o in got[i] && CarriesAddress(OpcodeOf(o)) ==> slot.reths[i] == RethOf(c, i, o)
  }

  ghost predicate SlotsInv(c: Config, got: seq<set<nat>>, slots: seq<Slot>, owner: seq<nat>)
    requires ValidConfig(c) && |got| == c.fanIn && WellFormed(c.fanIn, slots) && |owner| == N
  {
    forall k :: 0 <= k < N ==> SlotInv(c, got, slots[k], owner[k])
  }

  ghost predicate OwnerInv(c: Config, got: seq<set<nat>>, owner: seq<nat>)
    requires |got| == c.fanIn && |owner| == N
  {
    && (forall k :: 0 <= k < N ==> Idx(owner[k]) == k)
    && (forall k :: 0 <= k < N && owner[k] >= N ==> Done(c, got, owner[k] - WINDOW_SIZE))
    && (forall q: nat :: Done(c, got, q) ==> owner[Idx(q + WINDOW_SIZE)] >= q + WINDOW_SIZE)
  }

  ghost function TotalOf(c: Config, q: nat): Payload
    requires ValidConfig(c)
  {
    Total(c.load(q), PAYLOAD_WORDS)
  }

  /** The packet that carries the global sum for q to host i. */
  ghost function ResultOf(c: Config, i: nat, q: nat): Output
    requires ValidConfig(c)
  {
    if CarriesAddress(OpcodeOf(q))
    then AddressedData(i, Wire(q), OpcodeOf(q), RethOf(c, i, q), TotalOf(c, q))
    else Data(i, Wire(q), OpcodeOf(q), TotalOf(c, q))
  }

  ghost predicate HostInv(c: Config, got: seq<set<nat>>, i: nat, h: Host)
    requires ValidConfig(c) && |got| == c.fanIn && i < c.fanIn
  {
    && h.polled <= c.messages
    && PACKETS * h.polled <= h.acked <= h.rcv
    && (h.rcv % PACKETS != 0 ==> h.cursor == Addr(c, i, h.rcv))
    && (forall q :: 0 <= q < h.rcv ==> Done(c, got, q))
    && (forall q :: 0 <= q < h.rcv ==> Addr(c, i, q) in h.mem && h.mem[Addr(c, i, q)] == TotalOf(c, q))
    && (forall q :: 0 <= q < PACKETS * h.polled ==> q in h.dst && h.dst[q] == TotalOf(c, q))
    && (forall x :: x in got[i] ==> x < Limit(c, h))
  }

  /** Packets of one kind are sent in an order that never falls back a whole window. */
  predicate UpOrder(a: UpMsg, b: UpMsg) {
    && (a.UpData? && b.UpData? ==> a.seqno < b.seqno + WINDOW_SIZE)
    && (a.UpAck? && b.UpAck? ==> a.seqno <= b.seqno)
  }

  predicate DownOrder(a: DownMsg, b: DownMsg) {
    && (!a.out.Ack? && !b.out.Ack? ==> a.seqno < b.seqno + WINDOW_SIZE)
    && (a.out.Ack? && b.out.Ack? ==> a.seqno <= b.seqno)
  }

  /** Reflected acknowledgements are older than those still on their way to the switch. */
  predicate AckOrder(a: DownMsg, b: UpMsg) {
    a.out.Ack? && b.UpAck? ==> a.seqno <= b.seqno
  }

  ghost predicate UpInv(c: Config, got: seq<set<nat>>, i: nat, h: Host, m: UpMsg)
    requires |got| == c.fanIn && i < c.fanIn
  {
    match m
    case UpData(q) => q < Limit(c, h) && forall x :: x in got[i] ==> x < q + WINDOW_SIZE
    case UpAck(a) => h.acked <= a + 1 <= h.rcv
    case UpNak(_) => false
  }

  ghost predicate DownInv(c: Config, got: seq<set<nat>>, i: nat, h: Host, m: DownMsg)
    requires ValidConfig(c) && |got| == c.fanIn && i < c.fanIn
  {
    if m.out.Ack? then
      m.out == Ack(i, Wire(m.seqno)) && h.acked <= m.seqno + 1 <= h.rcv
    else
      Done(c, got, m.seqno) && m.out == ResultOf(c, i, m.seqno) && h.rcv <= m.seqno + WINDOW_SIZE
  }

  ghost predicate ChannelInv(c: Config, got: seq<set<nat>>, i: nat, h: Host, up: seq<UpMsg>, down: seq<DownMsg>)
    requires ValidConfig(c) && |got| == c.fanIn && i < c.fanIn
  {
    && (forall k :: 0 <= k < |up| ==> UpInv(c, got, i, h, up[k]))
    && (forall k :: 0 <= k < |down| ==> DownInv(c, got, i, h, down[k]))
    && (forall k, l :: 0 <= k < l < |up| ==> UpOrder(up[k], up[l]))
    && (forall k, l :: 0 <= k < l < |down| ==> DownOrder(down[k], down[l]))
    && (forall k, l :: 0 <= k < |down| && 0 <= l < |up| ==> AckOrder(down[k], up[l]))
  }

  ghost predicate PortInv(c: Config, got: seq<set<nat>>, i: nat, h: Host, up: seq<UpMsg>, down: seq<DownMsg>)
    requires ValidConfig(c) && |got| == c.fanIn && i < c.fanIn
  {
    HostInv(c, got, i, h) && ChannelInv(c, got, i, h, up, down)
  }

  ghost predicate Inv(c: Config, s: System) {
    && ValidConfig(c) && Shaped(c, s)
    && SlotsInv(c, s.got, s.slots, s.owner)
    && OwnerInv(c, s.got, s.owner)
    && (forall i :: 0 <= i < c.fanIn ==> PortInv(c, s.got, i, s.hosts[i], s.up[i], s.down[i]))
  }

  lemma InvInitially(c: Config)
    requires ValidConfig(c)
    ensures Inv(c, Init(c))
  {
    var s := Init(c);
    forall k | 0 <= k < N
      ensures SlotInv(c, s.got, s.slots[k], s.owner[k])
    {
      SumOfNobody(c.load(k), PAYLOAD_WORDS);
      assert Contributors(c, s.got, k) == {};
      assert k !in s.got[0];
    }
    forall q: nat
      ensures !Done(c, s.got, q)
    {
      assert q !in s.got[0];
    }
  }

  // ----- Arrivals

  lemma SlotsRepeatEveryN(a: nat, b: nat)
    requires Idx(a) == Idx(b)
    ensures a < b + N && b < a + N ==> a == b
  {
  }

  /** An arriving packet always finds its slot cleared for it and not yet for a later one. */
  lemma SlotIsOwned(c: Config, got: seq<set<nat>>, owner: seq<nat>, i: nat, h: Host, q: nat)
    requires ValidConfig(c) && |got| == c.fanIn && |owner| == N && i < c.fanIn
    requires OwnerInv(c, got, owner) && HostInv(c, got, i, h) && UpInv(c, got, i, h, UpData(q))
    ensures owner[Idx(q)] == q
  {
    var o := owner[Idx(q)];
    if q >= N {
      assert Done(c, got, q - WINDOW_SIZE);
      assert o >= q;
    }
    if o >= N {
      assert Done(c, got, o - WINDOW_SIZE);
      assert o - WINDOW_SIZE in got[i];
      assert o - WINDOW_SIZE < q + WINDOW_SIZE;
    }
    SlotsRepeatEveryN(o, q);
  }

  /** History after port i's packet q arrived. */
  ghost function Recorded(got: seq<set<nat>>, i: nat, q: nat): seq<set<nat>>
    requires i < |got|
  {
    got[i := got[i] + {q}]
  }

  lemma OtherSlotsKept(c: Config, got: seq<set<nat>>, i: nat, q: nat, slot: Slot, o: nat)
    requires ValidConfig(c) && |got| == c.fanIn && i < c.fanIn && |slot.reths| == c.fanIn
    requires SlotInv(c, got, slot, o) && o != q
    ensures SlotInv(c, Recorded(got, i, q), slot, o)
  {
    var got' := Recorded(got, i, q);
    assert forall j :: 0 <= j < c.fanIn ==> (o in got'[j] <==> o in got[j]);
    assert Contributors(c, got', o) == Contributors(c, got, o);
    assert Done(c, got', o) <==> Done(c, got, o);
  }

  lemma FirstTransmission(c: Config, got: seq<set<nat>>, i: nat, q: nat, slot: Slot)
    requires ValidConfig(c) && |got| == c.fanIn && i < c.fanIn
    requires |slot.reths| == c.fanIn && |slot.sum| == PAYLOAD_WORDS
    requires SlotInv(c, got, slot, q) && q !in got[i]
    ensures var slot' := Absorb(slot, i, Parse(c, i, UpData(q)));
            var got' := Recorded(got, i, q);
            && (Ports(c.fanIn) <= slot'.arrived <==> Done(c, got', q))
            && SlotInv(c, got', if Done(c, got', q) then slot'.(arrived := slot'.arrived + {c.fanIn}) else slot', q)
  {
    var slot' := Absorb(slot, i, Parse(c, i, UpData(q)));
    var got' := Recorded(got, i, q);
    var who := Contributors(c, got, q);
    assert !Done(c, got, q);
    assert Contributors(c, got', q) == who + {i};
    assert slot'.arrived == who + {i};
    SumWithNewContributor(c.load(q), who, PAYLOAD_WORDS, i);
    if Ports(c.fanIn) <= slot'.arrived {
      forall j | 0 <= j < c.fanIn
        ensures q in got'[j]
      {
        assert j in slot'.arrived;
      }
    } else {
      var j :| j in Ports(c.fanIn) && j !in slot'.arrived;
      assert q !in got'[j];
    }
  }

  /** A finished slot answers with the global sum. */
  lemma FinishedSlotHoldsTotal(c: Config, got: seq<set<nat>>, i: nat, q: nat, slot: Slot)
    requires ValidConfig(c) && |got| == c.fanIn && i < c.fanIn && |slot.reths| == c.fanIn
    requires SlotInv(c, got, slot, q) && Done(c, got, q)
    ensures RootSlots.Result(slot, i, Parse(c, i, UpData(q))) == ResultOf(c, i, q)
  {
    SumDependsOnMembers(c.load(q), Contributors(c, got, q), Ports(c.fanIn), PAYLOAD_WORDS);
  }

  lemma {:induction false} BroadcastReachesEveryPort(c: Config, got: seq<set<nat>>, q: nat, slot: Slot, n: nat, i: nat,
                                                     j: nat)
    requires ValidConfig(c) && |got| == c.fanIn && n <= c.fanIn && i < c.fanIn && j < c.fanIn && |slot.reths| == c.fanIn
    requires SlotInv(c, got, slot, q) && Done(c, got, q)
    ensures Route(Broadcast(slot, n, Parse(c, i, UpData(q))), q, j)
         == if j < n then [DownMsg(q, ResultOf(c, j, q))] else []
  {
    hide SlotInv, Done, ResultOf, Route, Parse;
    var pkt := Parse(c, i, UpData(q));
    if n == 0 {
      RouteNothing(q, j);
    } else {
      BroadcastReachesEveryPort(c, got, q, slot, n - 1, i, j);
      FinishedSlotHoldsTotal(c, got, n - 1, q, slot);
      ParsedAlike(c, i, n - 1, q, slot);
      RouteNext(Broadcast(slot, n - 1, pkt), ResultOf(c, n - 1, q), q, j);
      PortOfResult(c, n - 1, q);
    }
  }

  lemma RouteNothing(q: nat, j: nat)
    ensures Route([], q, j) == []
  {
  }

  lemma RouteNext(outs: seq<Output>, out: Output, q: nat, j: nat)
    ensures Route(outs + [out], q, j) == Route(outs, q, j) + if out.port == j then [DownMsg(q, out)] else []
  {
    assert (outs + [out])[..|outs|] == outs;
  }

  /** What a result looks like does not depend on whose packet of that number it answers. */
  lemma ParsedAlike(c: Config, i: nat, k: nat, q: nat, slot: Slot)
    requires ValidConfig(c) && i < c.fanIn && k < c.fanIn && k < |slot.reths|
    ensures RootSlots.Result(slot, k, Parse(c, i, UpData(q))) == RootSlots.Result(slot, k, Parse(c, k, UpData(q)))
  {
  }

  lemma PortOfResult(c: Config, i: nat, q: nat)
    requires ValidConfig(c)
    ensures ResultOf(c, i, q).port == i
  {
  }

  /** Who is sent a result when port i's packet q arrives: everybody when it completes q, only the
      sender when q was already complete, nobody otherwise. */
  ghost predicate Answered(c: Config, got: seq<set<nat>>, i: nat, q: nat, j: nat)
    requires |got| == c.fanIn && i < c.fanIn
  {
    if q in got[i] then j == i && Done(c, got, q) else Done(c, Recorded(got, i, q), q)
  }

  /** Nobody has contributed to q + W before q is complete. */
  lemma NextWindowUntouched(c: Config, s: System, i: nat, q: nat)
    requires Inv(c, s) && i < c.fanIn && q !in s.got[i]
    ensures Contributors(c, Recorded(s.got, i, q), q + WINDOW_SIZE) == {}
  {
    forall j | 0 <= j < c.fanIn
      ensures q + WINDOW_SIZE !in s.got[j]
    {
      var h := s.hosts[j];
      assert PortInv(c, s.got, j, h, s.up[j], s.down[j]);
      assert !Done(c, s.got, q);
      assert h.rcv <= q;
    }
  }

  /** A retransmission changes no sum and is answered exactly when the sum is complete. */
  lemma RetransmissionArrives(c: Config, got: seq<set<nat>>, slots: seq<Slot>, owner: seq<nat>, i: nat, q: nat)
    requires ValidConfig(c) && |got| == c.fanIn && WellFormed(c.fanIn, slots) && |owner| == N && i < c.fanIn
    requires SlotsInv(c, got, slots, owner) && owner[Idx(q)] == q && q in got[i]
    ensures var (slots', outs) := Step(c.fanIn, slots, i, Parse(c, i, UpData(q)));
            && SlotsInv(c, got, slots', owner)
            && outs == if Done(c, got, q) then [ResultOf(c, i, q)] else []
  {
    WireSlot(q);
    assert SlotInv(c, got, slots[Idx(q)], q);
    assert i in Contributors(c, got, q);
    if Done(c, got, q) {
      FinishedSlotHoldsTotal(c, got, i, q, slots[Idx(q)]);
    }
  }

  /** The slot of a wire PSN is the slot of the sequence number, also one window ahead: the ring size
      divides the PSN space. */
  lemma WireSlot(q: nat)
    ensures Idx(Wire(q)) == Idx(q)
    ensures Idx(Wire(q) + WINDOW_SIZE) == Idx(q + WINDOW_SIZE)
    ensures Idx(q + WINDOW_SIZE) != Idx(q)
  {
    var k := q / PSN_SPACE;
    AddMultiple(Wire(q), N, 0x10_0000 * k);
    AddMultiple(Wire(q) + WINDOW_SIZE, N, 0x10_0000 * k);
  }

  ghost function OwnerAfter(c: Config, got: seq<set<nat>>, owner: seq<nat>, i: nat, q: nat): (r: seq<nat>)
    requires |got| == c.fanIn && |owner| == N && i < c.fanIn
    ensures |r| == N
  {
    if Done(c, Recorded(got, i, q), q) && !Done(c, got, q)
    then owner[Idx(q + WINDOW_SIZE) := q + WINDOW_SIZE] else owner
  }

  /** The slots after a first transmission; its own slot, and on completion the one a window ahead. */
  ghost function SlotsAfterFirst(c: Config, got: seq<set<nat>>, slots: seq<Slot>, i: nat, q: nat): (r: seq<Slot>)
    requires ValidConfig(c) && |got| == c.fanIn && WellFormed(c.fanIn, slots) && i < c.fanIn
    ensures WellFormed(c.fanIn, r)
  {
    var slot' := Absorb(slots[Idx(q)], i, Parse(c, i, UpData(q)));
    if Done(c, Recorded(got, i, q), q)
    then slots[Idx(q) := slot'.(arrived := slot'.arrived + {c.fanIn})][Idx(q + WINDOW_SIZE) := EmptySlot(c.fanIn)]
    else slots[Idx(q) := slot']
  }

  lemma FirstStep(c: Config, got: seq<set<nat>>, slots: seq<Slot>, i: nat, q: nat)
    requires ValidConfig(c) && |got| == c.fanIn && WellFormed(c.fanIn, slots) && i < c.fanIn
    requires SlotInv(c, got, slots[Idx(q)], q) && q !in got[i]
    ensures var (slots', outs) := Step(c.fanIn, slots, i, Parse(c, i, UpData(q)));
            && slots' == SlotsAfterFirst(c, got, slots, i, q)
            && outs == if Done(c, Recorded(got, i, q), q)
                       then Broadcast(slots'[Idx(q)], c.fanIn, Parse(c, i, UpData(q))) else []
  {
    WireSlot(q);
    assert !Done(c, got, q);
    FirstTransmission(c, got, i, q, slots[Idx(q)]);
  }

  lemma SlotsAfterFirstInv(c: Config, got: seq<set<nat>>, slots: seq<Slot>, owner: seq<nat>, i: nat, q: nat)
    requires ValidConfig(c) && |got| == c.fanIn && WellFormed(c.fanIn, slots) && |owner| == N && i < c.fanIn
    requires SlotsInv(c, got, slots, owner) && owner[Idx(q)] == q && q !in got[i]
    requires forall k :: 0 <= k < N ==> Idx(owner[k]) == k
    requires Contributors(c, Recorded(got, i, q), q + WINDOW_SIZE) == {}
    ensures SlotsInv(c, Recorded(got, i, q), SlotsAfterFirst(c, got, slots, i, q), OwnerAfter(c, got, owner, i, q))
  {
    assert !Done(c, got, q);
    FirstTransmission(c, got, i, q, slots[Idx(q)]);
    EmptySlotInv(c, Recorded(got, i, q), q + WINDOW_SIZE);
    forall k | 0 <= k < N && k != Idx(q)
      ensures SlotInv(c, Recorded(got, i, q), slots[k], owner[k])
    {
      OtherSlotsKept(c, got, i, q, slots[k], owner[k]);
    }
  }

  /** Completing q sends every port its result for q; otherwise nothing is sent. */
  lemma AnswersAfterFirst(c: Config, got: seq<set<nat>>, slots: seq<Slot>, i: nat, q: nat, j: nat)
    requires ValidConfig(c) && |got| == c.fanIn && WellFormed(c.fanIn, slots) && i < c.fanIn && j < c.fanIn
    requires SlotInv(c, got, slots[Idx(q)], q) && q !in got[i]
    ensures Route(Step(c.fanIn, slots, i, Parse(c, i, UpData(q))).1, q, j)
         == if Done(c, Recorded(got, i, q), q) then [DownMsg(q, ResultOf(c, j, q))] else []
  {
    FirstStep(c, got, slots, i, q);
    if Done(c, Recorded(got, i, q), q) {
      FirstTransmission(c, got, i, q, slots[Idx(q)]);
      assert Idx(q) != Idx(q + WINDOW_SIZE) by { WireSlot(q); }
      BroadcastReachesEveryPort(c, Recorded(got, i, q), q, SlotsAfterFirst(c, got, slots, i, q)[Idx(q)], c.fanIn, i, j);
    }
  }

  lemma EmptySlotInv(c: Config, got: seq<set<nat>>, o: nat)
    requires ValidConfig(c) && |got| == c.fanIn && Contributors(c, got, o) == {}
    ensures SlotInv(c, got, EmptySlot(c.fanIn), o)
  {
    SumOfNobody(c.load(o), PAYLOAD_WORDS);
    forall j | 0 <= j < c.fanIn
      ensures o !in got[j]
    {
      assert o in got[j] <==> j in Contributors(c, got, o);
    }
    assert o !in got[0];
  }

  lemma OwnersAfterArrival(c: Config, got: seq<set<nat>>, owner: seq<nat>, i: nat, q: nat)
    requires |got| == c.fanIn && |owner| == N && i < c.fanIn
    requires OwnerInv(c, got, owner) && (forall x :: x in got[i] ==> x < q + WINDOW_SIZE)
    ensures OwnerInv(c, Recorded(got, i, q), OwnerAfter(c, got, owner, i, q))
  {
    var got' := Recorded(got, i, q);
    var owner' := OwnerAfter(c, got, owner, i, q);
    DoneGrows(c, got, i, q);
    forall x: nat | Done(c, got', x)
      ensures owner'[Idx(x + WINDOW_SIZE)] >= x + WINDOW_SIZE
    {
      if Idx(x + WINDOW_SIZE) == Idx(q + WINDOW_SIZE) {
        assert x in got'[i];
        assert x < q + WINDOW_SIZE;
        assert x <= q;
      }
      if x != q {
        assert Done(c, got, x);
      }
    }
  }

  /** History only grows, and only at q. */
  lemma DoneGrows(c: Config, got: seq<set<nat>>, i: nat, q: nat)
    requires |got| == c.fanIn && i < c.fanIn
    ensures forall x: nat :: Done(c, got, x) ==> Done(c, Recorded(got, i, q), x)
    ensures forall x: nat :: x != q && Done(c, Recorded(got, i, q), x) ==> Done(c, got, x)
  {
    var got' := Recorded(got, i, q);
    forall x: nat | Done(c, got, x)
      ensures Done(c, got', x)
    {
    }
    forall x: nat | x != q && Done(c, got', x)
      ensures Done(c, got, x)
    {
      forall j | 0 <= j < c.fanIn
        ensures x in got[j]
      {
        assert x in got'[j];
      }
    }
  }

  // ----- Each event keeps the invariant of the port it touches

  lemma OtherPortKept(c: Config, got: seq<set<nat>>, i: nat, q: nat, j: nat, h: Host, up: seq<UpMsg>,
                      down: seq<DownMsg>)
    requires ValidConfig(c) && |got| == c.fanIn && i < c.fanIn && j < c.fanIn && i != j
    requires PortInv(c, got, j, h, up, down)
    ensures PortInv(c, Recorded(got, i, q), j, h, up, down)
  {
    var got' := Recorded(got, i, q);
    DoneGrows(c, got, i, q);
    forall k | 0 <= k < |up|
      ensures UpInv(c, got', j, h, up[k])
    {
      assert UpInv(c, got, j, h, up[k]);
    }
    forall k | 0 <= k < |down|
      ensures DownInv(c, got', j, h, down[k])
    {
      assert DownInv(c, got, j, h, down[k]);
    }
  }

  /** The packet leaves the channel and enters the history. */
  lemma DataLeavesChannel(c: Config, got: seq<set<nat>>, i: nat, h: Host, up: seq<UpMsg>, down: seq<DownMsg>)
    requires ValidConfig(c) && |got| == c.fanIn && i < c.fanIn
    requires PortInv(c, got, i, h, up, down) && up != [] && up[0].UpData?
    ensures PortInv(c, Recorded(got, i, up[0].seqno), i, h, up[1..], down)
  {
    var q := up[0].seqno;
    var got' := Recorded(got, i, q);
    DoneGrows(c, got, i, q);
    assert UpInv(c, got, i, h, up[0]);
    forall k | 0 <= k < |up[1..]|
      ensures UpInv(c, got', i, h, up[1..][k])
    {
      assert UpInv(c, got, i, h, up[k + 1]);
      assert UpOrder(up[0], up[k + 1]);
    }
    forall k | 0 <= k < |down|
      ensures DownInv(c, got', i, h, down[k])
    {
      assert DownInv(c, got, i, h, down[k]);
    }
  }

  /** Whatever is complete is less than a window past a packet still in flight. */
  predicate Recent(xs: seq<DownMsg>, rcv: nat, q: nat) {
    rcv <= q + WINDOW_SIZE
    && forall k :: 0 <= k < |xs| && !xs[k].out.Ack? ==> xs[k].seqno < q + WINDOW_SIZE
  }

  lemma CompleteIsRecent(c: Config, got: seq<set<nat>>, i: nat, q: nat, j: nat, h: Host, up: seq<UpMsg>,
                      down: seq<DownMsg>)
    requires ValidConfig(c) && |got| == c.fanIn && i < c.fanIn && j < c.fanIn
    requires PortInv(c, got, j, h, up, down)
    requires forall x :: x in got[i] ==> x < q + WINDOW_SIZE
    ensures Recent(down, h.rcv, q)
  {
    if h.rcv > 0 {
      assert Done(c, got, h.rcv - 1);
      assert h.rcv - 1 in got[i];
    }
    forall k | 0 <= k < |down| && !down[k].out.Ack?
      ensures down[k].seqno < q + WINDOW_SIZE
    {
      assert DownInv(c, got, j, h, down[k]);
      assert down[k].seqno in got[i];
    }
  }

  lemma ResultQueued(c: Config, got: seq<set<nat>>, j: nat, h: Host, up: seq<UpMsg>, down: seq<DownMsg>, q: nat)
    requires ValidConfig(c) && |got| == c.fanIn && j < c.fanIn
    requires PortInv(c, got, j, h, up, down) && Done(c, got, q) && Recent(down, h.rcv, q)
    ensures PortInv(c, got, j, h, up, down + [DownMsg(q, ResultOf(c, j, q))])
  {
    var down' := down + [DownMsg(q, ResultOf(c, j, q))];
    forall k, l | 0 <= k < l < |down'|
      ensures DownOrder(down'[k], down'[l])
    {
      if l < |down| {
        assert DownOrder(down[k], down[l]);
      }
    }
    assert forall k, l :: 0 <= k < |down| && 0 <= l < |up| ==> AckOrder(down[k], up[l]);
  }

  lemma AckReflected(c: Config, got: seq<set<nat>>, i: nat, h: Host, up: seq<UpMsg>, down: seq<DownMsg>)
    requires ValidConfig(c) && |got| == c.fanIn && i < c.fanIn
    requires PortInv(c, got, i, h, up, down) && up != [] && up[0].UpAck?
    ensures PortInv(c, got, i, h, up[1..], down + [DownMsg(up[0].seqno, Ack(i, Wire(up[0].seqno)))])
  {
    var a := up[0].seqno;
    var up', down' := up[1..], down + [DownMsg(a, Ack(i, Wire(a)))];
    assert UpInv(c, got, i, h, up[0]);
    forall k, l | 0 <= k < l < |down'|
      ensures DownOrder(down'[k], down'[l])
    {
      if l < |down| {
        assert DownOrder(down[k], down[l]);
      } else {
        assert AckOrder(down[k], up[0]);
      }
    }
    forall k, l | 0 <= k < |down'| && 0 <= l < |up'|
      ensures AckOrder(down'[k], up'[l])
    {
      if k < |down| {
        assert AckOrder(down[k], up[l + 1]);
      } else {
        assert UpOrder(up[0], up[l + 1]);
      }
    }
  }

  lemma DataSent(c: Config, got: seq<set<nat>>, i: nat, h: Host, up: seq<UpMsg>, down: seq<DownMsg>, q: nat)
    requires ValidConfig(c) && |got| == c.fanIn && i < c.fanIn
    requires PortInv(c, got, i, h, up, down) && h.acked <= q < Limit(c, h)
    ensures PortInv(c, got, i, h, up + [UpData(q)], down)
  {
    var up' := up + [UpData(q)];
    forall k, l | 0 <= k < l < |up'|
      ensures UpOrder(up'[k], up'[l])
    {
      if l < |up| {
        assert UpOrder(up[k], up[l]);
      } else {
        assert UpInv(c, got, i, h, up[k]);
      }
    }
    forall k, l | 0 <= k < |down| && 0 <= l < |up'|
      ensures AckOrder(down[k], up'[l])
    {
      if l < |up| {
        assert AckOrder(down[k], up[l]);
      }
    }
  }

  lemma AckSent(c: Config, got: seq<set<nat>>, i: nat, h: Host, up: seq<UpMsg>, down: seq<DownMsg>)
    requires ValidConfig(c) && |got| == c.fanIn && i < c.fanIn
    requires PortInv(c, got, i, h, up, down) && h.rcv > 0
    ensures PortInv(c, got, i, h, up + [UpAck(h.rcv - 1)], down)
  {
    var up' := up + [UpAck(h.rcv - 1)];
    forall k, l | 0 <= k < l < |up'|
      ensures UpOrder(up'[k], up'[l])
    {
      if l < |up| {
        assert UpOrder(up[k], up[l]);
      } else {
        assert UpInv(c, got, i, h, up[k]);
      }
    }
    forall k, l | 0 <= k < |down| && 0 <= l < |up'|
      ensures AckOrder(down[k], up'[l])
    {
      if l < |up| {
        assert AckOrder(down[k], up[l]);
      } else {
        assert DownInv(c, got, i, h, down[k]);
      }
    }
  }

  /** The host is never more than one window ahead of what it has had acknowledged. */
  lemma WithinWindow(c: Config, got: seq<set<nat>>, i: nat, h: Host)
    requires ValidConfig(c) && |got| == c.fanIn && i < c.fanIn && HostInv(c, got, i, h)
    ensures h.rcv <= Limit(c, h) <= h.acked + WINDOW_SIZE
    ensures forall x: nat :: Done(c, got, x) ==> x < Limit(c, h)
  {
    assert Limit(c, h) <= PACKETS * (h.polled + WINDOW) == PACKETS * h.polled + WINDOW_SIZE;
    forall x: nat | Done(c, got, x)
      ensures x < Limit(c, h)
    {
      assert x in got[i];
    }
    if h.rcv > 0 {
      assert Done(c, got, h.rcv - 1);
    }
  }

  lemma ReceiveAck(c: Config, got: seq<set<nat>>, i: nat, h: Host, a: nat)
    requires ValidConfig(c) && |got| == c.fanIn && i < c.fanIn && HostInv(c, got, i, h)
    requires h.acked <= a + 1 <= h.rcv
    ensures Receive(c, h, Ack(i, Wire(a))) == (h.(acked := a + 1), [])
    ensures HostInv(c, got, i, h.(acked := a + 1))
  {
    WithinWindow(c, got, i, h);
    AheadIsExact(a, h.acked);
  }

  lemma AckDelivered(c: Config, got: seq<set<nat>>, i: nat, h: Host, up: seq<UpMsg>, down: seq<DownMsg>)
    requires ValidConfig(c) && |got| == c.fanIn && i < c.fanIn
    requires PortInv(c, got, i, h, up, down) && down != [] && down[0].out.Ack?
    ensures var (h', reply) := Receive(c, h, down[0].out);
            reply == [] && PortInv(c, got, i, h', up, down[1..])
  {
    var a := down[0].seqno;
    assert DownInv(c, got, i, h, down[0]);
    ReceiveAck(c, got, i, h, a);
    var h' := h.(acked := a + 1);
    forall k | 0 <= k < |up|
      ensures UpInv(c, got, i, h', up[k])
    {
      assert UpInv(c, got, i, h, up[k]);
      assert AckOrder(down[0], up[k]);
    }
    forall k | 0 <= k < |down[1..]|
      ensures DownInv(c, got, i, h', down[1..][k])
    {
      assert DownInv(c, got, i, h, down[k + 1]);
      assert DownOrder(down[0], down[k + 1]);
    }
  }

  /** The card accepts a result exactly when it is the next one, seen through 24 bits. */
  lemma ReceiveResult(c: Config, got: seq<set<nat>>, i: nat, h: Host, x: nat)
    requires ValidConfig(c) && |got| == c.fanIn && i < c.fanIn && HostInv(c, got, i, h)
    requires Done(c, got, x) && h.rcv <= x + WINDOW_SIZE
    ensures Receive(c, h, ResultOf(c, i, x)) ==
            if x == h.rcv then
              (h.(rcv := x + 1, cursor := Addr(c, i, x + 1), mem := h.mem[Addr(c, i, x) := TotalOf(c, x)]), [UpAck(x)])
            else if x < h.rcv then (h, [UpAck(h.rcv - 1)])
            else (h, [])
  {
    WithinWindow(c, got, i, h);
    AheadIsExact(x, h.rcv);
  }

  lemma AcceptedResultKeepsHost(c: Config, got: seq<set<nat>>, i: nat, h: Host)
    requires ValidConfig(c) && |got| == c.fanIn && i < c.fanIn && HostInv(c, got, i, h)
    requires Done(c, got, h.rcv)
    ensures HostInv(c, got, i, h.(rcv := h.rcv + 1, cursor := Addr(c, i, h.rcv + 1),
                                  mem := h.mem[Addr(c, i, h.rcv) := TotalOf(c, h.rcv)]))
  {
  }

  lemma ResultAccepted(c: Config, got: seq<set<nat>>, i: nat, h: Host, h': Host, up: seq<UpMsg>, down: seq<DownMsg>)
    requires ValidConfig(c) && |got| == c.fanIn && i < c.fanIn
    requires PortInv(c, got, i, h, up, down) && HostInv(c, got, i, h')
    requires down != [] && !down[0].out.Ack? && down[0].seqno == h.rcv
    requires h'.rcv == h.rcv + 1 && h'.acked == h.acked && h'.polled == h.polled
    ensures PortInv(c, got, i, h', up, down[1..])
  {
    forall k | 0 <= k < |up|
      ensures UpInv(c, got, i, h', up[k])
    {
      assert UpInv(c, got, i, h, up[k]);
    }
    forall k | 0 <= k < |down[1..]|
      ensures DownInv(c, got, i, h', down[1..][k])
    {
      assert DownInv(c, got, i, h, down[k + 1]);
      assert DownOrder(down[0], down[k + 1]);
    }
  }

  lemma DownTailKept(c: Config, got: seq<set<nat>>, i: nat, h: Host, up: seq<UpMsg>, down: seq<DownMsg>)
    requires ValidConfig(c) && |got| == c.fanIn && i < c.fanIn
    requires PortInv(c, got, i, h, up, down) && down != []
    ensures PortInv(c, got, i, h, up, down[1..])
  {
  }

  lemma ResultDelivered(c: Config, got: seq<set<nat>>, i: nat, h: Host, up: seq<UpMsg>, down: seq<DownMsg>)
    requires ValidConfig(c) && |got| == c.fanIn && i < c.fanIn
    requires PortInv(c, got, i, h, up, down) && down != [] && !down[0].out.Ack?
    ensures var (h', reply) := Receive(c, h, down[0].out);
            PortInv(c, got, i, h', up + reply, down[1..])
  {
    var x := down[0].seqno;
    assert DownInv(c, got, i, h, down[0]);
    ReceiveResult(c, got, i, h, x);
    if x == h.rcv {
      AcceptedResultKeepsHost(c, got, i, h);
      var h' := Receive(c, h, down[0].out).0;
      ResultAccepted(c, got, i, h, h', up, down);
      AckSent(c, got, i, h', up, down[1..]);
    } else {
      DownTailKept(c, got, i, h, up, down);
      if x < h.rcv {
        AckSent(c, got, i, h, up, down[1..]);
      } else {
        assert up + [] == up;
      }
    }
  }

  lemma Polled(c: Config, got: seq<set<nat>>, i: nat, h: Host, up: seq<UpMsg>, down: seq<DownMsg>)
    requires ValidConfig(c) && |got| == c.fanIn && i < c.fanIn
    requires PortInv(c, got, i, h, up, down)
    requires h.polled < c.messages && PACKETS * (h.polled + 1) <= h.acked
    ensures PortInv(c, got, i, PollOne(c, i, h), up, down)
  {
    var h' := PollOne(c, i, h);
    PolledHost(c, got, i, h);
    forall k | 0 <= k < |up|
      ensures UpInv(c, got, i, h', up[k])
    {
      assert UpInv(c, got, i, h, up[k]);
    }
    forall k | 0 <= k < |down|
      ensures DownInv(c, got, i, h', down[k])
    {
      assert DownInv(c, got, i, h, down[k]);
    }
  }

  lemma PolledHost(c: Config, got: seq<set<nat>>, i: nat, h: Host)
    requires ValidConfig(c) && |got| == c.fanIn && i < c.fanIn && HostInv(c, got, i, h)
    requires h.polled < c.messages && PACKETS * (h.polled + 1) <= h.acked
    ensures HostInv(c, got, i, PollOne(c, i, h))
  {
    forall q | 0 <= q < PACKETS * (h.polled + 1)
      ensures Load(h, Addr(c, i, q)) == TotalOf(c, q)
    {
    }
  }

  lemma UpLoss(c: Config, got: seq<set<nat>>, i: nat, h: Host, up: seq<UpMsg>, down: seq<DownMsg>, k: nat)
    requires ValidConfig(c) && |got| == c.fanIn && i < c.fanIn && k < |up|
    requires PortInv(c, got, i, h, up, down)
    ensures PortInv(c, got, i, h, Remove(up, k), down)
  {
  }

  lemma DownLoss(c: Config, got: seq<set<nat>>, i: nat, h: Host, up: seq<UpMsg>, down: seq<DownMsg>, k: nat)
    requires ValidConfig(c) && |got| == c.fanIn && i < c.fanIn && k < |down|
    requires PortInv(c, got, i, h, up, down)
    ensures PortInv(c, got, i, h, up, Remove(down, k))
  {
  }

  // ----- Steps and runs

  ghost function Answer(c: Config, got: seq<set<nat>>, i: nat, q: nat, j: nat): seq<DownMsg>
    requires ValidConfig(c) && |got| == c.fanIn && i < c.fanIn
  {
    if Answered(c, got, i, q, j) then [DownMsg(q, ResultOf(c, j, q))] else []
  }

  lemma RetransmissionStep(c: Config, got: seq<set<nat>>, slots: seq<Slot>, owner: seq<nat>, i: nat, q: nat)
    requires ValidConfig(c) && |got| == c.fanIn && WellFormed(c.fanIn, slots) && |owner| == N && i < c.fanIn
    requires SlotsInv(c, got, slots, owner) && owner[Idx(q)] == q && q in got[i]
    ensures SlotsInv(c, Recorded(got, i, q), Step(c.fanIn, slots, i, Parse(c, i, UpData(q))).0,
                     OwnerAfter(c, got, owner, i, q))
    ensures forall j :: 0 <= j < c.fanIn ==>
              Route(Step(c.fanIn, slots, i, Parse(c, i, UpData(q))).1, q, j) == Answer(c, got, i, q, j)
  {
    RetransmissionArrives(c, got, slots, owner, i, q);
    RetransmissionAnswer(c, got, owner, i, q, Step(c.fanIn, slots, i, Parse(c, i, UpData(q))).1);
  }

  lemma RetransmissionAnswer(c: Config, got: seq<set<nat>>, owner: seq<nat>, i: nat, q: nat, outs: seq<Output>)
    requires ValidConfig(c) && |got| == c.fanIn && |owner| == N && i < c.fanIn && q in got[i]
    requires outs == if Done(c, got, q) then [ResultOf(c, i, q)] else []
    ensures Recorded(got, i, q) == got && OwnerAfter(c, got, owner, i, q) == owner
    ensures forall j :: 0 <= j < c.fanIn ==> Route(outs, q, j) == Answer(c, got, i, q, j)
  {
    assert got[i] + {q} == got[i];
    RouteOne(ResultOf(c, i, q), q);
  }

  lemma FirstTransmissionStep(c: Config, got: seq<set<nat>>, slots: seq<Slot>, owner: seq<nat>, i: nat, q: nat)
    requires ValidConfig(c) && |got| == c.fanIn && WellFormed(c.fanIn, slots) && |owner| == N && i < c.fanIn
    requires SlotsInv(c, got, slots, owner) && owner[Idx(q)] == q && q !in got[i]
    requires forall k :: 0 <= k < N ==> Idx(owner[k]) == k
    requires Contributors(c, Recorded(got, i, q), q + WINDOW_SIZE) == {}
    ensures SlotsInv(c, Recorded(got, i, q), Step(c.fanIn, slots, i, Parse(c, i, UpData(q))).0,
                     OwnerAfter(c, got, owner, i, q))
    ensures forall j :: 0 <= j < c.fanIn ==>
              Route(Step(c.fanIn, slots, i, Parse(c, i, UpData(q))).1, q, j) == Answer(c, got, i, q, j)
  {
    FirstStep(c, got, slots, i, q);
    SlotsAfterFirstInv(c, got, slots, owner, i, q);
    forall j | 0 <= j < c.fanIn
      ensures Route(Step(c.fanIn, slots, i, Parse(c, i, UpData(q))).1, q, j) == Answer(c, got, i, q, j)
    {
      AnswersAfterFirst(c, got, slots, i, q, j);
    }
  }

  lemma DataStep(c: Config, s: System, i: nat)
    requires Inv(c, s) && i < c.fanIn && s.up[i] != [] && s.up[i][0].UpData?
    ensures var q := s.up[i][0].seqno;
            var (slots', outs) := Step(c.fanIn, s.slots, i, Parse(c, i, UpData(q)));
            && SlotsInv(c, Recorded(s.got, i, q), slots', OwnerAfter(c, s.got, s.owner, i, q))
            && OwnerInv(c, Recorded(s.got, i, q), OwnerAfter(c, s.got, s.owner, i, q))
            && forall j :: 0 <= j < c.fanIn ==> Route(outs, q, j) == Answer(c, s.got, i, q, j)
  {
    var q := s.up[i][0].seqno;
    assert PortInv(c, s.got, i, s.hosts[i], s.up[i], s.down[i]);
    assert UpInv(c, s.got, i, s.hosts[i], s.up[i][0]);
    SlotIsOwned(c, s.got, s.owner, i, s.hosts[i], q);
    OwnersAfterArrival(c, s.got, s.owner, i, q);
    if q in s.got[i] {
      RetransmissionStep(c, s.got, s.slots, s.owner, i, q);
    } else {
      NextWindowUntouched(c, s, i, q);
      FirstTransmissionStep(c, s.got, s.slots, s.owner, i, q);
    }
  }

  lemma DataArrives(c: Config, s: System, i: nat)
    requires Inv(c, s) && i < c.fanIn && s.up[i] != [] && s.up[i][0].UpData?
    ensures var q := s.up[i][0].seqno;
            var s' := ArriveAt(c, s, i);
            && SlotsInv(c, s'.got, s'.slots, s'.owner)
            && OwnerInv(c, s'.got, s'.owner)
            && s'.got == Recorded(s.got, i, q)
            && s'.hosts == s.hosts && s'.up == s.up[i := s.up[i][1..]]
            && forall j :: 0 <= j < c.fanIn ==> s'.down[j] == s.down[j] + Answer(c, s.got, i, q, j)
  {
    var (slots', outs) := Step(c.fanIn, s.slots, i, Parse(c, i, s.up[i][0]));
    DataStep(c, s, i);
    DataStepTaken(c, s, i, slots', outs);
  }

  lemma DataStepTaken(c: Config, s: System, i: nat, slots': seq<Slot>, outs: seq<Output>)
    requires ValidConfig(c) && Shaped(c, s) && i < c.fanIn && s.up[i] != [] && s.up[i][0].UpData?
    requires forall j :: 0 <= j < c.fanIn ==>
               Route(outs, s.up[i][0].seqno, j) == Answer(c, s.got, i, s.up[i][0].seqno, j)
    ensures var q := s.up[i][0].seqno;
            var s' := AfterStep(c, s, i, slots', outs);
            && s'.slots == slots'
            && s'.owner == OwnerAfter(c, s.got, s.owner, i, q)
            && s'.got == Recorded(s.got, i, q)
            && s'.hosts == s.hosts && s'.up == s.up[i := s.up[i][1..]]
            && forall j :: 0 <= j < c.fanIn ==> s'.down[j] == s.down[j] + Answer(c, s.got, i, q, j)
  {
  }

  lemma RouteOne(o: Output, q: nat)
    ensures forall j: nat :: Route([o], q, j) == if o.port == j then [DownMsg(q, o)] else []
  {
    assert [o][..0] == [];
  }

  lemma ArriveKeepsInv(c: Config, s: System, i: nat)
    requires Inv(c, s) && i < c.fanIn && s.up[i] != []
    ensures Inv(c, ArriveAt(c, s, i))
  {
    var m := s.up[i][0];
    var s' := ArriveAt(c, s, i);
    assert PortInv(c, s.got, i, s.hosts[i], s.up[i], s.down[i]);
    assert UpInv(c, s.got, i, s.hosts[i], m);
    if m.UpData? {
      DataArrives(c, s, i);
      forall j | 0 <= j < c.fanIn
        ensures PortInv(c, s'.got, j, s'.hosts[j], s'.up[j], s'.down[j])
      {
        DataArrivesAtPort(c, s, i, j);
      }
    } else {
      AckArrives(c, s, i);
    }
  }

  lemma AckArrives(c: Config, s: System, i: nat)
    requires Inv(c, s) && i < c.fanIn && s.up[i] != [] && s.up[i][0].UpAck?
    ensures Inv(c, ArriveAt(c, s, i))
  {
    var a := s.up[i][0].seqno;
    var s' := ArriveAt(c, s, i);
    RouteOne(Ack(i, Wire(a)), a);
    forall j | 0 <= j < c.fanIn
      ensures PortInv(c, s'.got, j, s'.hosts[j], s'.up[j], s'.down[j])
    {
      assert PortInv(c, s.got, j, s.hosts[j], s.up[j], s.down[j]);
      if j == i {
        AckReflected(c, s.got, i, s.hosts[i], s.up[i], s.down[i]);
      } else {
        assert s'.down[j] == s.down[j];
      }
    }
  }

  lemma DataArrivesAtPort(c: Config, s: System, i: nat, j: nat)
    requires Inv(c, s) && i < c.fanIn && j < c.fanIn && s.up[i] != [] && s.up[i][0].UpData?
    ensures var s' := ArriveAt(c, s, i);
            PortInv(c, s'.got, j, s'.hosts[j], s'.up[j], s'.down[j])
  {
    var q := s.up[i][0].seqno;
    var s' := ArriveAt(c, s, i);
    DataArrives(c, s, i);
    assert PortInv(c, s.got, i, s.hosts[i], s.up[i], s.down[i]);
    assert UpInv(c, s.got, i, s.hosts[i], s.up[i][0]);
    assert PortInv(c, s.got, j, s.hosts[j], s.up[j], s.down[j]);
    if j == i {
      DataLeavesChannel(c, s.got, i, s.hosts[i], s.up[i], s.down[i]);
    } else {
      OtherPortKept(c, s.got, i, q, j, s.hosts[j], s.up[j], s.down[j]);
    }
    if Answered(c, s.got, i, q, j) {
      CompleteIsRecent(c, s.got, i, q, j, s.hosts[j], s.up[j], s.down[j]);
      AnsweredIsDone(c, s.got, i, q, j);
      ResultQueued(c, s'.got, j, s.hosts[j], s'.up[j], s.down[j], q);
    } else {
      assert s.down[j] + [] == s.down[j];
    }
  }

  lemma AnsweredIsDone(c: Config, got: seq<set<nat>>, i: nat, q: nat, j: nat)
    requires |got| == c.fanIn && i < c.fanIn && Answered(c, got, i, q, j)
    ensures Done(c, Recorded(got, i, q), q)
  {
    DoneGrows(c, got, i, q);
  }

  lemma DeliverKeepsInv(c: Config, s: System, i: nat)
    requires Inv(c, s) && i < c.fanIn && s.down[i] != []
    ensures Inv(c, DeliverAt(c, s, i))
  {
    var s' := DeliverAt(c, s, i);
    forall j | 0 <= j < c.fanIn
      ensures PortInv(c, s'.got, j, s'.hosts[j], s'.up[j], s'.down[j])
    {
      assert PortInv(c, s.got, j, s.hosts[j], s.up[j], s.down[j]);
      if j == i {
        if s.down[i][0].out.Ack? {
          AckDelivered(c, s.got, i, s.hosts[i], s.up[i], s.down[i]);
          assert s.up[i] + [] == s.up[i];
        } else {
          ResultDelivered(c, s.got, i, s.hosts[i], s.up[i], s.down[i]);
        }
      }
    }
  }

  /** Every step of hosts, switch and channels keeps the invariant, except that a card refuses a result. */
  lemma StepKeepsInv(c: Config, s: System, e: Event)
    requires Inv(c, s) && Enabled(c, s, e) && !e.Refuse?
    ensures Inv(c, Apply(c, s, e))
  {
    var i := e.port;
    match e
    case Arrive(_) => ArriveKeepsInv(c, s, i);
    case Deliver(_) => DeliverKeepsInv(c, s, i);
    case _ => LocalStepKeepsInv(c, s, e);
  }

  lemma LocalStepKeepsInv(c: Config, s: System, e: Event)
    requires Inv(c, s) && Enabled(c, s, e) && !e.Arrive? && !e.Deliver? && !e.Refuse?
    ensures Inv(c, Apply(c, s, e))
  {
    var i := e.port;
    var s' := Apply(c, s, e);
    assert PortInv(c, s.got, i, s.hosts[i], s.up[i], s.down[i]);
    assert PortInv(c, s.got, i, s'.hosts[i], s'.up[i], s'.down[i]) by {
      match e
      case Send(_, q) => DataSent(c, s.got, i, s.hosts[i], s.up[i], s.down[i], q);
      case Poll(_) => Polled(c, s.got, i, s.hosts[i], s.up[i], s.down[i]);
      case DropUp(_, k) => UpLoss(c, s.got, i, s.hosts[i], s.up[i], s.down[i], k);
      case DropDown(_, k) => DownLoss(c, s.got, i, s.hosts[i], s.up[i], s.down[i], k);
    }
    forall j | 0 <= j < c.fanIn
      ensures PortInv(c, s'.got, j, s'.hosts[j], s'.up[j], s'.down[j])
    {
      assert PortInv(c, s.got, j, s.hosts[j], s.up[j], s.down[j]);
    }
  }

  /** The events can happen, one after the other, from s. */
  ghost predicate Legal(c: Config, s: System, es: seq<Event>)
    requires ValidConfig(c) && Shaped(c, s)
    decreases |es|
  {
    es == [] || (Enabled(c, s, es[0]) && Legal(c, Apply(c, s, es[0]), es[1..]))
  }

  ghost function Run(c: Config, s: System, es: seq<Event>): (r: System)
    requires ValidConfig(c) && Shaped(c, s) && Legal(c, s, es)
    ensures Shaped(c, r)
    decreases |es|
  {
    if es == [] then s else Run(c, Apply(c, s, es[0]), es[1..])
  }

  lemma {:induction false} RunKeepsInv(c: Config, s: System, es: seq<Event>)
    requires Inv(c, s) && Legal(c, s, es) && !c.negatives
    ensures Inv(c, Run(c, s, es))
    decreases |es|
  {
    if es != [] {
      StepKeepsInv(c, s, es[0]);
      RunKeepsInv(c, Apply(c, s, es[0]), es[1..]);
    }
  }
}
