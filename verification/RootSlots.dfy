/** The slot logic of the root switch in `non_termination_switch.c`.

    A ring of 2 * WINDOW_SIZE slots holds partial sums; an arrival bitmap per slot
    separates first transmissions from retransmissions; completing a PSN clears the
    slot one window ahead.  `Step` is the specification of one pass through the root
    branches of `pipeline`; `RootSwitch` does the same work in place on the arrays.
 */
module RootSlots {
  import opened Words

  const WINDOW_SIZE: nat := 8
  const N: nat := 16           // 2 * WINDOW_SIZE slots
  const PAYLOAD_WORDS: nat := 256

  function Idx(psn: nat): (s: nat)
    ensures s < N
  {
    psn % N
  }

  // Opcodes of the reliable connection service that the switch classifies.
  const WRITE_FIRST := 0x06
  const WRITE_MIDDLE := 0x07
  const WRITE_LAST := 0x08
  const WRITE_ONLY := 0x0A
  const ACKNOWLEDGE := 0x11

  predicate IsPlainData(opcode: int) {
    opcode in {0x00, 0x01, 0x02, 0x04, WRITE_MIDDLE, WRITE_LAST}
  }

  /** A write's first packet carries the address the result is to be written to. */
  predicate CarriesAddress(opcode: int) {
    opcode in {WRITE_FIRST, WRITE_ONLY}
  }

  datatype Reth = Reth(va: nat, rkey: nat, len: nat)

  const NO_RETH := Reth(0, 0, 0)

  /** A packet from a child as the parser sees it; payload words are in host order. */
  datatype Packet = Packet(opcode: int, psn: nat, reth: Reth, data: Payload)

  datatype Output =
    | Data(port: nat, psn: nat, opcode: int, data: Payload)
    | AddressedData(port: nat, psn: nat, opcode: int, reth: Reth, data: Payload)
    | Ack(port: nat, psn: nat)

  /** `arrived` is the bitmap; element fanIn is the bit of the (absent) parent, set on completion. */
  datatype Slot = Slot(sum: Payload, arrived: set<nat>, degree: nat, reths: seq<Reth>)

  function EmptySlot(fanIn: nat): Slot {
    Slot(Zero(PAYLOAD_WORDS), {}, 0, seq(fanIn, i => NO_RETH))
  }

  predicate WellFormed(fanIn: nat, slots: seq<Slot>) {
    && |slots| == N
    && forall s :: 0 <= s < N ==> |slots[s].sum| == PAYLOAD_WORDS && |slots[s].reths| == fanIn
  }

  /** What the handler demands: a known opcode, and a full payload on data (it asserts the length). */
  predicate Acceptable(pkt: Packet) {
    || pkt.opcode == ACKNOWLEDGE
    || ((IsPlainData(pkt.opcode) || CarriesAddress(pkt.opcode)) && |pkt.data| == PAYLOAD_WORDS)
  }

  function Result(slot: Slot, port: nat, pkt: Packet): Output
    requires port < |slot.reths|
  {
    if CarriesAddress(pkt.opcode)
    then AddressedData(port, pkt.psn, pkt.opcode, slot.reths[port], slot.sum)
    else Data(port, pkt.psn, pkt.opcode, slot.sum)
  }

  function Broadcast(slot: Slot, n: nat, pkt: Packet): (r: seq<Output>)
    requires n <= |slot.reths|
    ensures |r| == n
    ensures forall i :: 0 <= i < n ==> r[i] == Result(slot, i, pkt)
  {
    if n == 0 then [] else Broadcast(slot, n - 1, pkt) + [Result(slot, n - 1, pkt)]
  }

  function Absorb(slot: Slot, port: nat, pkt: Packet): Slot
    requires port < |slot.reths| && |pkt.data| == |slot.sum|
  {
    Slot(AddPayload(slot.sum, pkt.data), slot.arrived + {port}, slot.degree + 1,
         if CarriesAddress(pkt.opcode) then slot.reths[port := pkt.reth] else slot.reths)
  }

  /** One pass of the root switch over one packet: new slots and the packets sent. */
  function Step(fanIn: nat, slots: seq<Slot>, port: nat, pkt: Packet): (r: (seq<Slot>, seq<Output>))
    requires WellFormed(fanIn, slots) && port < fanIn && Acceptable(pkt)
    ensures WellFormed(fanIn, r.0)
  {
    if pkt.opcode == ACKNOWLEDGE then
      (slots, [Ack(port, pkt.psn)])  // acknowledgements are reflected
    else
      var s := Idx(pkt.psn);
      var slot := slots[s];
      if port in slot.arrived then
        (slots[s := slot.(degree := slot.degree + 1)],
         if fanIn in slot.arrived then [Result(slot, port, pkt)] else [])
      else
        var slot' := Absorb(slot, port, pkt);
        if Ports(fanIn) <= slot'.arrived then
          var done := slot'.(arrived := slot'.arrived + {fanIn});
          (slots[s := done][Idx(pkt.psn + WINDOW_SIZE) := EmptySlot(fanIn)],
           Broadcast(done, fanIn, pkt))
        else
          (slots[s := slot'], [])
  }

  /** The switch itself: global arrays updated in place. */
  class RootSwitch {
    const fanIn: nat
    const aggregator: array2<Word>
    const arrivalState: array<set<nat>>
    const degree: array<nat>
    const rethKeeper: array2<Reth>

    ghost predicate Valid()
    {
      && aggregator.Length0 == N && aggregator.Length1 == PAYLOAD_WORDS
      && arrivalState.Length == N
      && degree.Length == N
      && rethKeeper.Length0 == N && rethKeeper.Length1 == fanIn
      && aggregator as object != rethKeeper as object
    }

    ghost function SlotAt(s: nat): (r: Slot)
      requires Valid() && s < N
      reads aggregator, arrivalState, degree, rethKeeper
      ensures |r.sum| == PAYLOAD_WORDS && |r.reths| == fanIn
    {
      Slot(seq(PAYLOAD_WORDS, k requires 0 <= k < PAYLOAD_WORDS reads aggregator => aggregator[s, k]),
           arrivalState[s], degree[s],
           seq(fanIn, i requires 0 <= i < fanIn reads rethKeeper => rethKeeper[s, i]))
    }

    ghost function Slots(): (r: seq<Slot>)
      requires Valid()
      reads aggregator, arrivalState, degree, rethKeeper
      ensures WellFormed(fanIn, r)
      ensures forall s :: 0 <= s < N ==> r[s] == SlotAt(s)
    {
      seq(N, s requires 0 <= s < N reads aggregator, arrivalState, degree, rethKeeper => SlotAt(s))
    }

    /** Writing within row s changes slot s only. */
    twostate lemma OnlySlotChanged(s: nat)
      requires Valid() && s < N
      requires forall t :: 0 <= t < N && t != s ==>
                 && arrivalState[t] == old(arrivalState[t])
                 && degree[t] == old(degree[t])
                 && (forall k :: 0 <= k < PAYLOAD_WORDS ==> aggregator[t, k] == old(aggregator[t, k]))
                 && (forall i :: 0 <= i < fanIn ==> rethKeeper[t, i] == old(rethKeeper[t, i]))
      ensures Slots() == old(Slots())[s := SlotAt(s)]
    {
      forall t | 0 <= t < N && t != s
        ensures SlotAt(t) == old(SlotAt(t))
      {
        assert SlotAt(t).sum == old(SlotAt(t)).sum;
        assert SlotAt(t).reths == old(SlotAt(t)).reths;
      }
    }

    /** All zero, as after the memsets of `init_topology`. */
    constructor (n: nat)
      ensures Valid() && fanIn == n
      ensures Slots() == seq(N, s => EmptySlot(n))
      ensures fresh(aggregator) && fresh(arrivalState) && fresh(degree) && fresh(rethKeeper)
    {
      fanIn := n;
      aggregator := new Word[N, PAYLOAD_WORDS]((s, k) => 0);
      arrivalState := new set<nat>[N](s => {});
      degree := new nat[N](s => 0);
      rethKeeper := new Reth[N, n]((s, i) => NO_RETH);
      new;
      forall s | 0 <= s < N
        ensures SlotAt(s) == EmptySlot(n)
      {
        assert SlotAt(s).sum == EmptySlot(n).sum;
        assert SlotAt(s).reths == EmptySlot(n).reths;
      }
    }

    /** `clear_state_data`: zero everything the slot of a PSN holds, and nothing else. */
    method ClearStateData(psn: nat)
      requires Valid()
      modifies aggregator, arrivalState, degree, rethKeeper
      ensures Slots() == old(Slots())[Idx(psn) := EmptySlot(fanIn)]
    {
      var s := Idx(psn);
      arrivalState[s] := {};
      degree[s] := 0;
      forall i | 0 <= i < fanIn {
        rethKeeper[s, i] := NO_RETH;
      }
      forall k | 0 <= k < PAYLOAD_WORDS {
        aggregator[s, k] := 0;
      }
      assert SlotAt(s) == EmptySlot(fanIn);
      OnlySlotChanged(s);
    }

    /** The summing loop over one slot. */
    method AddIn(s: nat, data: Payload)
      requires Valid() && s < N && |data| == PAYLOAD_WORDS
      modifies aggregator
      ensures SlotAt(s) == old(SlotAt(s)).(sum := AddPayload(old(SlotAt(s)).sum, data))
      ensures forall t, k :: 0 <= t < N && t != s && 0 <= k < PAYLOAD_WORDS
                ==> aggregator[t, k] == old(aggregator[t, k])
    {
      for i := 0 to PAYLOAD_WORDS
        invariant forall k :: 0 <= k < i ==> aggregator[s, k] == AddWord(old(aggregator[s, k]), data[k])
        invariant forall k :: i <= k < PAYLOAD_WORDS ==> aggregator[s, k] == old(aggregator[s, k])
        invariant forall t, k :: 0 <= t < N && t != s && 0 <= k < PAYLOAD_WORDS
                    ==> aggregator[t, k] == old(aggregator[t, k])
      {
        aggregator[s, i] := (aggregator[s, i] + data[i]) % MODULUS;
      }
    }

    /** The packet sent to one port from a slot. */
    method Send(s: nat, port: nat, pkt: Packet) returns (o: Output)
      requires Valid() && s < N && port < fanIn
      ensures o == Result(SlotAt(s), port, pkt)
    {
      var data := seq(PAYLOAD_WORDS, k requires 0 <= k < PAYLOAD_WORDS reads aggregator => aggregator[s, k]);
      if CarriesAddress(pkt.opcode) {
        o := AddressedData(port, pkt.psn, pkt.opcode, rethKeeper[s, port], data);
      } else {
        o := Data(port, pkt.psn, pkt.opcode, data);
      }
    }

    /** The broadcast loop: the slot's result to every child, in port order. */
    method SendAll(s: nat, pkt: Packet) returns (sent: seq<Output>)
      requires Valid() && s < N
      ensures sent == Broadcast(SlotAt(s), fanIn, pkt)
    {
      sent := [];
      for i := 0 to fanIn
        invariant sent == Broadcast(SlotAt(s), i, pkt)
      {
        var o := Send(s, i, pkt);
        sent := sent + [o];
      }
    }

    /** The last child's packet: mark the slot finished, clear the one a window ahead, broadcast. */
    method Complete(s: nat, pkt: Packet) returns (sent: seq<Output>)
      requires Valid() && s == Idx(pkt.psn)
      modifies aggregator, arrivalState, degree, rethKeeper
      ensures var done := old(SlotAt(s)).(arrived := old(SlotAt(s)).arrived + {fanIn});
              && Slots() == old(Slots())[s := done][Idx(pkt.psn + WINDOW_SIZE) := EmptySlot(fanIn)]
              && sent == Broadcast(done, fanIn, pkt)
    {
      arrivalState[s] := arrivalState[s] + {fanIn};
      OnlySlotChanged(s);
      assert SlotAt(s) == old(SlotAt(s)).(arrived := old(SlotAt(s)).arrived + {fanIn});
      ClearStateData(pkt.psn + WINDOW_SIZE);
      sent := SendAll(s, pkt);
    }

    /** The root branches of `pipeline`. */
    method Pipeline(port: nat, pkt: Packet) returns (sent: seq<Output>)
      requires Valid() && port < fanIn && Acceptable(pkt)
      modifies aggregator, arrivalState, degree, rethKeeper
      ensures (Slots(), sent) == Step(fanIn, old(Slots()), port, pkt)
    {
      if pkt.opcode == ACKNOWLEDGE {
        return [Ack(port, pkt.psn)];
      }
      var s := Idx(pkt.psn);
      ghost var before := Slots();
      degree[s] := degree[s] + 1;
      if port in arrivalState[s] {
        OnlySlotChanged(s);
        assert SlotAt(s) == before[s].(degree := before[s].degree + 1);
        if fanIn in arrivalState[s] {
          var o := Send(s, port, pkt);
          return [o];
        }
        return [];
      }
      arrivalState[s] := arrivalState[s] + {port};
      if CarriesAddress(pkt.opcode) {
        rethKeeper[s, port] := pkt.reth;
      }
      AddIn(s, pkt.data);
      assert SlotAt(s) == Absorb(before[s], port, pkt);
      OnlySlotChanged(s);
      if Ports(fanIn) <= arrivalState[s] {
        sent := Complete(s, pkt);
        ghost var slot := Absorb(before[s], port, pkt);
        ghost var done := slot.(arrived := slot.arrived + {fanIn});
        assert before[s := slot][s := done] == before[s := done];
      } else {
        sent := [];
      }
    }
  }
}
