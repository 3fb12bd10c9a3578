/** The refactored switch's context (`switch_context_t`) with its fields updated in place, proved equal to the
    packet handler of module SwitchMain.
 */
module SwitchContext {
  import opened Words
  import opened Rings
  import opened Rules
  import opened SwitchMain

  lemma OneMore(s: Ctx, outs: seq<int>, c: int, data: Payload)
    requires |s.sendPsn| == |s.out|
    ensures SendAll(s, outs + [c], data) == SendTo(SendAll(s, outs, data), c, data)
  {
    assert (outs + [c])[..|outs|] == outs;
  }

  /** Sending does not look at the slots. */
  lemma {:induction false} SendAllWithSlot(s: Ctx, outs: seq<int>, data: Payload, k: nat, slot: Slot)
    requires |s.sendPsn| == |s.out| && k < |s.slots|
    ensures SendAll(WithSlot(s, k, slot), outs, data) == WithSlot(SendAll(s, outs, data), k, slot)
  {
    if outs != [] {
      SendAllWithSlot(s, outs[..|outs| - 1], data, k, slot);
    }
  }

  /** A slot may be cleared before or after its contents have been sent. */
  lemma SendThenClear(conns: seq<Connection>, s: Ctx, rule: Rule, data: Payload, k: nat, slot: Slot, cleared: Slot)
    requires |s.sendPsn| == |s.out| && k < |s.slots|
    ensures WithSlot(SendResult(conns, WithSlot(s, k, slot), rule, data), k, cleared)
         == WithSlot(SendResult(conns, s, rule, data), k, cleared)
  {
    SendAllWithSlot(s, rule.outConns, data, k, slot);
    assert s.slots[k := slot][k := cleared] == s.slots[k := cleared];
  }

  class Context {
    const conns: seq<Connection>
    const routingTable: RuleTable
    const rankToConn: array<int>
    var operationType: Primitive
    var rootRank: int
    const aggEpsn: array<nat>
    const sendPsn: array<nat>
    const degree: array<nat>
    const arrival: array<set<nat>>
    const buffer: array2<Word>
    /** What has been handed to pcap, connection by connection, and all acknowledgements. */
    const out: array<seq<Sent>>
    var replies: seq<Reply>

    ghost predicate Shape() {
      && aggEpsn.Length == sendPsn.Length == out.Length == |conns|
      && degree.Length == arrival.Length == buffer.Length0 == SWITCH_ARRAY_LENGTH
      && buffer.Length1 == BUFFER_WORDS
      && aggEpsn != sendPsn && aggEpsn != degree && sendPsn != degree
    }

    /** The rule table and the map from ranks to connections are as loaded. */
    ghost predicate Valid()
      reads routingTable, rankToConn
    {
      Shape() && routingTable.Valid() && rankToConn.Length == MAX_RANKS && rankToConn[..] == RankMap(conns)
    }

    ghost function SlotAt(k: nat): (r: Slot)
      requires Shape() && k < SWITCH_ARRAY_LENGTH
      reads degree, arrival, buffer
      ensures |r.buffer| == BUFFER_WORDS
    {
      Slot(degree[k], arrival[k], seq(BUFFER_WORDS, w requires 0 <= w < BUFFER_WORDS reads buffer => buffer[k, w]))
    }

    ghost function Slots(): (r: seq<Slot>)
      requires Shape()
      reads degree, arrival, buffer
      ensures |r| == SWITCH_ARRAY_LENGTH && forall k :: 0 <= k < SWITCH_ARRAY_LENGTH ==> r[k] == SlotAt(k)
    {
      seq(SWITCH_ARRAY_LENGTH, k requires 0 <= k < SWITCH_ARRAY_LENGTH reads degree, arrival, buffer => SlotAt(k))
    }

    ghost function State(): (s: Ctx)
      requires Shape()
      reads this, aggEpsn, sendPsn, degree, arrival, buffer, out
      ensures Shaped(|conns|, s)
    {
      Ctx(operationType, rootRank, aggEpsn[..], sendPsn[..], Slots(), out[..], replies)
    }

    /** Writing within slot k changes no other slot. */
    twostate lemma OnlySlotChanged(k: nat)
      requires Shape() && k < SWITCH_ARRAY_LENGTH
      requires forall j :: 0 <= j < SWITCH_ARRAY_LENGTH && j != k ==>
                 && degree[j] == old(degree[j]) && arrival[j] == old(arrival[j])
                 && forall w :: 0 <= w < BUFFER_WORDS ==> buffer[j, w] == old(buffer[j, w])
      ensures Slots() == old(Slots())[k := SlotAt(k)]
    {
      forall j | 0 <= j < SWITCH_ARRAY_LENGTH && j != k
        ensures SlotAt(j) == old(SlotAt(j))
      {
        assert SlotAt(j).buffer == old(SlotAt(j)).buffer;
      }
    }

    lemma AllIdle()
      requires Shape()
      requires forall k :: 0 <= k < SWITCH_ARRAY_LENGTH ==> degree[k] == 0 && arrival[k] == {}
      requires forall k, w :: 0 <= k < SWITCH_ARRAY_LENGTH && 0 <= w < BUFFER_WORDS ==> buffer[k, w] == 0
      ensures Slots() == SwitchMain.Init(|conns|).slots
    {
      forall k | 0 <= k < SWITCH_ARRAY_LENGTH
        ensures SlotAt(k) == Slot(0, {}, Zero(BUFFER_WORDS))
      {
        assert SlotAt(k).buffer == Zero(BUFFER_WORDS);
      }
    }

    lemma NothingDone()
      requires Shape() && operationType == AllReduce && rootRank == -1 && replies == []
      requires forall c :: 0 <= c < |conns| ==> aggEpsn[c] == 0 && sendPsn[c] == 0 && out[c] == []
      requires forall k :: 0 <= k < SWITCH_ARRAY_LENGTH ==> degree[k] == 0 && arrival[k] == {}
      requires forall k, w :: 0 <= k < SWITCH_ARRAY_LENGTH && 0 <= w < BUFFER_WORDS ==> buffer[k, w] == 0
      ensures State() == SwitchMain.Init(|conns|)
    {
      AllIdle();
    }

    /** A fresh switch, before the controller has sent it anything but its connections. */
    constructor (config: seq<Connection>)
      ensures Shape() && State() == SwitchMain.Init(|conns|)
      ensures conns == if |config| <= 10 then config else config[..10]
      ensures routingTable.Valid() && routingTable.Contents() == []
      ensures rankToConn.Length == MAX_RANKS && rankToConn[..] == seq(MAX_RANKS, r => -1)
      ensures fresh(routingTable) && fresh(routingTable.rules) && fresh(rankToConn)
    {
      var n := if |config| <= MAX_CONNECTIONS_NUM then |config| else MAX_CONNECTIONS_NUM;
      conns := config[..n];
      routingTable := new RuleTable();
      rankToConn := new int[MAX_RANKS](_ => -1);
      operationType := AllReduce;
      rootRank := -1;
      aggEpsn := new nat[n](_ => 0);
      sendPsn := new nat[n](_ => 0);
      degree := new nat[SWITCH_ARRAY_LENGTH](_ => 0);
      arrival := new set<nat>[SWITCH_ARRAY_LENGTH](_ => {});
      buffer := new Word[SWITCH_ARRAY_LENGTH, BUFFER_WORDS]((k, w) => 0);
      out := new seq<Sent>[n](_ => []);
      replies := [];
      new;
      NothingDone();
    }

    /** Loads rules and ranks, as they come from the controller. */
    method LoadConfig(config: seq<Connection>, rules: seq<Rule>)
      requires Shape() && routingTable.Valid() && routingTable.Contents() == []
      requires rankToConn.Length == MAX_RANKS && rankToConn[..] == seq(MAX_RANKS, r => -1)
      requires conns == if |config| <= MAX_CONNECTIONS_NUM then config else config[..MAX_CONNECTIONS_NUM]
      modifies routingTable, routingTable.rules, rankToConn
      ensures Valid() && routingTable.Contents() == LoadedAll(AtMost(rules, 100))
    {
      var table := new Connection[MAX_CONNECTIONS_NUM](_ => Connection(0, false, -1, 0, 0));
      var fanIn := ParseConnections(config, table, rankToConn);
      assert config[..fanIn] == conns;
      assert routingTable.count == 0;
      routingTable.ParseRules(rules);
    }

    /** `send_psn[c]++` and the packet itself. */
    method SendPacket(c: nat, data: Payload)
      requires Shape() && c < |conns|
      modifies sendPsn, out
      ensures State() == SendTo(old(State()), c, data)
    {
      var psn := sendPsn[c];
      sendPsn[c] := psn + 1;
      out[c] := out[c] + [Sent(psn, data)];
    }

    /** To all connections of a rule; the position of each is looked up first. */
    method CacheAndBroadcast(outs: seq<int>, data: Payload)
      requires Shape()
      modifies sendPsn, out
      ensures State() == SendAll(old(State()), outs, data)
    {
      for i := 0 to |outs|
        invariant State() == SendAll(old(State()), outs[..i], data)
      {
        var connId := -1;
        for j := 0 to |conns|
          invariant connId == -1 && !(0 <= outs[i] < j)
        {
          if outs[i] == j {
            connId := j;
            break;
          }
        }
        assert outs[..i + 1] == outs[..i] + [outs[i]];
        OneMore(old(State()), outs[..i], outs[i], data);
        if connId < 0 {
          continue;
        }
        SendPacket(connId, data);
      }
      assert outs[..|outs|] == outs;
    }

    /** To all connections but the sender's. */
    method HandleBroadcast(conn: nat, data: Payload)
      requires Shape()
      modifies sendPsn, out
      ensures State() == SendAll(old(State()), Others(|conns|, conn), data)
    {
      for i := 0 to |conns|
        invariant State() == SendAll(old(State()), Others(i, conn), data)
      {
        if i == conn {
          assert Others(i + 1, conn) == Others(i, conn);
          continue;
        }
        OneMore(old(State()), Others(i, conn), i, data);
        SendPacket(i, data);
      }
    }

    /** Copies the first contribution, adds the others word by word. */
    method MergeIn(k: nat, data: Payload)
      requires Shape() && k < SWITCH_ARRAY_LENGTH && |data| <= BUFFER_WORDS
      modifies buffer
      ensures SlotAt(k) == old(SlotAt(k)).(buffer := Merged(old(SlotAt(k)), data))
      ensures forall j, w :: 0 <= j < SWITCH_ARRAY_LENGTH && j != k && 0 <= w < BUFFER_WORDS ==>
                buffer[j, w] == old(buffer[j, w])
    {
      ghost var before := SlotAt(k);
      for i := 0 to |data|
        invariant forall w :: 0 <= w < i ==>
                    buffer[k, w] == if degree[k] == 0 then data[w] else AddWord(before.buffer[w], data[w])
        invariant forall w :: i <= w < BUFFER_WORDS ==> buffer[k, w] == before.buffer[w]
        invariant forall j, w :: 0 <= j < SWITCH_ARRAY_LENGTH && j != k && 0 <= w < BUFFER_WORDS ==>
                    buffer[j, w] == old(buffer[j, w])
      {
        if degree[k] == 0 {
          buffer[k, i] := data[i];
        } else {
          buffer[k, i] := (buffer[k, i] + data[i]) % MODULUS;
        }
      }
      assert SlotAt(k).buffer == Merged(before, data);
    }

    method ClearSlot(k: nat)
      requires Shape() && k < SWITCH_ARRAY_LENGTH
      modifies degree, arrival
      ensures Slots() == old(Slots())[k := old(SlotAt(k)).(degree := 0, arrived := {})]
      ensures State() == WithSlot(old(State()), k, old(SlotAt(k)).(degree := 0, arrived := {}))
    {
      degree[k] := 0;
      arrival[k] := {};
      OnlySlotChanged(k);
      assert SlotAt(k).buffer == old(SlotAt(k)).buffer;
    }

    method Contribute(conn: nat, k: nat, data: Payload) returns (full: bool)
      requires Shape() && k < SWITCH_ARRAY_LENGTH && |data| <= BUFFER_WORDS
      modifies degree, arrival, buffer
      ensures State() == WithSlot(old(State()), k, Contributed(old(SlotAt(k)), conn, data))
      ensures full == (Contributed(old(SlotAt(k)), conn, data).degree == |conns|)
    {
      MergeIn(k, data);
      arrival[k] := arrival[k] + {conn};
      degree[k] := degree[k] + 1;
      full := degree[k] == |conns|;
      OnlySlotChanged(k);
      assert SlotAt(k).buffer == Merged(old(SlotAt(k)), data);
    }

    method ReadSlot(k: nat, len: nat) returns (data: Payload)
      requires Shape() && k < SWITCH_ARRAY_LENGTH && len <= BUFFER_WORDS
      ensures data == SlotAt(k).buffer[..len]
    {
      data := seq(len, w requires 0 <= w < len reads buffer => buffer[k, w]);
    }

    method SendReduced(k: nat, data: Payload, rule: Rule)
      requires Valid()
      modifies sendPsn, out
      ensures Valid() && State() == SendResult(conns, old(State()), rule, data)
    {
      if operationType == AllReduce {
        CacheAndBroadcast(rule.outConns, data);
      } else if operationType == Reduce {
        var target := if 0 <= rootRank < MAX_RANKS then rankToConn[rootRank] else -1;
        if 0 <= target < |conns| {
          SendPacket(target, data);
        }
      }
    }

    method AggregateData(rule: Rule, conn: nat, psn: nat, data: Payload)
      requires Valid() && |data| <= BUFFER_WORDS
      modifies sendPsn, out, degree, arrival, buffer
      ensures Valid() && State() == Aggregate(conns, old(State()), rule, conn, psn, data)
    {
      if operationType == Broadcast {
        HandleBroadcast(conn, data);
        return;
      }
      var k := Idx(psn);
      ghost var slot := Contributed(SlotAt(k), conn, data);
      var full := Contribute(conn, k, data);
      if full && (operationType == AllReduce || operationType == Reduce) {
        assert SlotAt(k) == State().slots[k] == slot;
        var result := ReadSlot(k, |data|);
        SendThenClear(conns, old(State()), rule, result, k, slot, slot.(degree := 0, arrived := {}));
        SendReduced(k, result, rule);
        ClearSlot(k);
      }
    }

    method SetMetadata(f: Frame)
      requires Shape()
      modifies this`operationType, this`rootRank
      ensures State() == WithMetadata(old(State()), f)
    {
      if f.opcode == SEND_ONLY_WITH_IMM || f.opcode == SEND_LAST_WITH_IMM {
        operationType := PrimitiveOf(f.code);
        rootRank := ParamOf(f.destRank);
      }
    }

    /** `forwarding` of an acknowledgement, to the rule's own connection. */
    method Forward(reply: Reply)
      requires Shape()
      modifies this`replies
      ensures State() == Replied(old(State()), reply)
    {
      replies := replies + [reply];
    }

    method CountPacket(conn: nat)
      requires Shape() && conn < |conns|
      modifies aggEpsn
      ensures State() == Advance(old(State()), conn)
    {
      aggEpsn[conn] := aggEpsn[conn] + 1;
    }

    /** Behind, ahead, or next in sequence. */
    method ReceiveData(rule: Rule, conn: nat, f: Frame)
      requires Valid() && conn < |conns| && Proper(f)
      modifies this`replies, aggEpsn, sendPsn, out, degree, arrival, buffer
      ensures Valid() && State() == OnData(conns, old(State()), rule, conn, f)
    {
      if f.psn < aggEpsn[conn] {
        Forward(Ack(rule.ackConn, aggEpsn[conn] - 1));
      } else if f.psn > aggEpsn[conn] {
        Forward(Nak(rule.ackConn, aggEpsn[conn]));
      } else {
        CountPacket(conn);
        Forward(Ack(rule.ackConn, f.psn));
        AggregateData(rule, conn, f.psn, f.data);
      }
    }

    method PacketHandler(conn: nat, f: Frame)
      requires Valid() && conn < |conns| && Proper(f)
      modifies this`operationType, this`rootRank, this`replies, aggEpsn, sendPsn, out, degree, arrival, buffer
      ensures Valid() && State() == Handle(conns, routingTable.Contents(), old(State()), conn, f)
    {
      var isControl := f.opcode == SEND_ONLY_WITH_IMM && f.payloadLen <= 4;
      SetMetadata(f);
      var found := routingTable.LookupRule(conns[conn].peerIp, conns[conn].myIp, operationType, rootRank);
      if found.None? {
        return;
      }
      if isControl {
        CountPacket(conn);
        Forward(Ack(found.value.ackConn, f.psn));
      } else if IsSend(f) {
        ReceiveData(found.value, conn, f);
      }
    }
  }
}
