/** What every run of hosts, lossy channels and root switch guarantees. */
module RootSafety {
  import opened Words
  import opened RootSlots
  import opened WireNumbers
  import opened RootProtocol

  /** Every result on its way to a host, first broadcast or answer to a retransmission, is the integer
      sum of all hosts' payloads for its sequence number, each counted once, modulo 2^32. */
  lemma EveryResultIsTheGlobalSum(c: Config, es: seq<Event>, i: nat, k: nat, w: nat)
    requires ValidConfig(c) && !c.negatives && Legal(c, Init(c), es)
    requires i < c.fanIn && k < |Run(c, Init(c), es).down[i]|
    requires !Run(c, Init(c), es).down[i][k].out.Ack? && w < PAYLOAD_WORDS
    ensures var m := Run(c, Init(c), es).down[i][k];
            && m.out.psn == Wire(m.seqno) && m.out.port == i
            && |m.out.data| == PAYLOAD_WORDS
            && m.out.data[w] == NatSum(c.load(m.seqno), Ports(c.fanIn), PAYLOAD_WORDS, w) % MODULUS
  {
    InvInitially(c);
    RunKeepsInv(c, Init(c), es);
    var s := Run(c, Init(c), es);
    assert PortInv(c, s.got, i, s.hosts[i], s.up[i], s.down[i]);
    assert DownInv(c, s.got, i, s.hosts[i], s.down[i][k]);
    SumIsNatSumModulo(c.load(s.down[i][k].seqno), Ports(c.fanIn), PAYLOAD_WORDS, w);
  }

  /** Each of the 256 words is the integer sum of that word of all hosts' packets q, modulo 2^32. */
  ghost predicate IsGlobalSum(c: Config, q: nat, words: Payload)
    requires ValidConfig(c)
  {
    && |words| == PAYLOAD_WORDS
    && forall w :: 0 <= w < PAYLOAD_WORDS ==>
         words[w] == NatSum(c.load(q), Ports(c.fanIn), PAYLOAD_WORDS, w) % MODULUS
  }

  lemma TotalIsGlobalSum(c: Config, q: nat)
    requires ValidConfig(c)
    ensures IsGlobalSum(c, q, TotalOf(c, q))
  {
    forall w | 0 <= w < PAYLOAD_WORDS
      ensures TotalOf(c, q)[w] == NatSum(c.load(q), Ports(c.fanIn), PAYLOAD_WORDS, w) % MODULUS
    {
      SumIsNatSumModulo(c.load(q), Ports(c.fanIn), PAYLOAD_WORDS, w);
    }
  }

  /** Packet q of the result is in the receive buffer, 1024 bytes for each packet before it from the address the host
      asked for, and in the destination. */
  ghost predicate HasResult(c: Config, i: nat, h: Host, q: nat)
    requires ValidConfig(c)
  {
    var at := c.base(i) + q * 1024;
    && at in h.mem && IsGlobalSum(c, q, h.mem[at])
    && q in h.dst && IsGlobalSum(c, q, h.dst[q])
  }

  lemma HoldsResult(c: Config, i: nat, h: Host, q: nat)
    requires ValidConfig(c)
    requires Addr(c, i, q) in h.mem && h.mem[Addr(c, i, q)] == TotalOf(c, q) && q in h.dst && h.dst[q] == TotalOf(c, q)
    ensures HasResult(c, i, h, q)
  {
    hide IsGlobalSum, TotalOf;
    TotalIsGlobalSum(c, q);
  }

  /** Completion implies result: once a write is polled, every packet of its chunk of the receive
      buffer holds the global sum, at the address the host asked for, and so does the destination. */
  lemma CompletionImpliesResult(c: Config, es: seq<Event>, i: nat, q: nat)
    requires ValidConfig(c) && !c.negatives && Legal(c, Init(c), es) && i < c.fanIn
    requires q < PACKETS * Run(c, Init(c), es).hosts[i].polled
    ensures HasResult(c, i, Run(c, Init(c), es).hosts[i], q)
  {
    InvInitially(c);
    RunKeepsInv(c, Init(c), es);
    var s := Run(c, Init(c), es);
    hide HasResult, ChannelInv;
    assert PortInv(c, s.got, i, s.hosts[i], s.up[i], s.down[i]);
    HoldsResult(c, i, s.hosts[i], q);
  }

  /** The arrival of packet q from port i completes q. */
  ghost predicate Completes(c: Config, s: System, i: nat, q: nat)
    requires Shaped(c, s)
  {
    && i < c.fanIn && s.up[i] != [] && s.up[i][0] == UpData(q)
    && !Done(c, s.got, q) && Done(c, Recorded(s.got, i, q), q)
  }

  /** When q completes and the slot of q + W is cleared, every host already holds the result of q - W,
      and nobody has sent q + W yet: nothing live is erased. */
  lemma ClearingErasesNothingLive(c: Config, s: System, i: nat, q: nat, j: nat)
    requires Inv(c, s) && Completes(c, s, i, q) && j < c.fanIn
    ensures q >= WINDOW_SIZE ==> s.hosts[j].rcv > q - WINDOW_SIZE
    ensures q >= WINDOW_SIZE ==> var at := Addr(c, j, q - WINDOW_SIZE);
                                 at in s.hosts[j].mem && s.hosts[j].mem[at] == TotalOf(c, q - WINDOW_SIZE)
    ensures q + WINDOW_SIZE !in s.got[j]
    ensures UpData(q + WINDOW_SIZE) !in s.up[j]
  {
    var h := s.hosts[j];
    assert PortInv(c, s.got, j, h, s.up[j], s.down[j]);
    assert h.rcv <= q;
    if j == i {
      assert UpInv(c, s.got, i, h, s.up[i][0]);
    } else {
      assert q in Recorded(s.got, i, q)[j];
    }
    assert q < Limit(c, h);
    forall k | 0 <= k < |s.up[j]|
      ensures s.up[j][k] != UpData(q + WINDOW_SIZE)
    {
      assert UpInv(c, s.got, j, h, s.up[j][k]);
    }
  }

  /** Nothing for q - W or older is on its way to the switch, or ever will be, once port j's packet q
      has arrived. */
  lemma OldPacketsNeverReturn(c: Config, s: System, es: seq<Event>, j: nat, q: nat, k: nat)
    requires Inv(c, s) && !c.negatives && Legal(c, s, es) && j < c.fanIn && q in s.got[j]
    requires k < |Run(c, s, es).up[j]| && Run(c, s, es).up[j][k].UpData?
    ensures Run(c, s, es).up[j][k].seqno + WINDOW_SIZE > q
  {
    RunKeepsInv(c, s, es);
    HistoryOnlyGrows(c, s, es, j);
    var s' := Run(c, s, es);
    assert PortInv(c, s'.got, j, s'.hosts[j], s'.up[j], s'.down[j]);
    assert UpInv(c, s'.got, j, s'.hosts[j], s'.up[j][k]);
  }

  lemma {:induction false} HistoryOnlyGrows(c: Config, s: System, es: seq<Event>, j: nat)
    requires ValidConfig(c) && Shaped(c, s) && Legal(c, s, es) && j < c.fanIn
    ensures s.got[j] <= Run(c, s, es).got[j]
    decreases |es|
  {
    if es != [] {
      HistoryGrowsByStep(c, s, es[0], j);
      HistoryOnlyGrows(c, Apply(c, s, es[0]), es[1..], j);
    }
  }

  lemma HistoryGrowsByStep(c: Config, s: System, e: Event, j: nat)
    requires ValidConfig(c) && Shaped(c, s) && Enabled(c, s, e) && j < c.fanIn
    ensures s.got[j] <= Apply(c, s, e).got[j]
  {
  }

  /** Slot reuse is safe, over whole runs: at the step that completes q and clears the slot of q + W,
      no packet for that slot's previous number is in flight, and none arrives later. */
  lemma SlotReuseIsSafe(c: Config, before: seq<Event>, after: seq<Event>, i: nat, q: nat, j: nat, k: nat)
    requires ValidConfig(c) && !c.negatives && Legal(c, Init(c), before)
    requires Completes(c, Run(c, Init(c), before), i, q) && j < c.fanIn
    requires Legal(c, ArriveAt(c, Run(c, Init(c), before), i), after)
    requires var later := Run(c, ArriveAt(c, Run(c, Init(c), before), i), after);
             k < |later.up[j]| && later.up[j][k].UpData?
    ensures var s := Run(c, Init(c), before);
            var later := Run(c, ArriveAt(c, s, i), after);
            && (q >= WINDOW_SIZE ==> s.hosts[j].rcv > q - WINDOW_SIZE)
            && UpData(q + WINDOW_SIZE) !in s.up[j] && q + WINDOW_SIZE !in s.got[j]
            && later.up[j][k].seqno + WINDOW_SIZE > q
  {
    InvInitially(c);
    RunKeepsInv(c, Init(c), before);
    var s := Run(c, Init(c), before);
    ClearingErasesNothingLive(c, s, i, q, j);
    StepKeepsInv(c, s, Arrive(i));
    assert ArriveAt(c, s, i).got == Recorded(s.got, i, q);
    OldPacketsNeverReturn(c, ArriveAt(c, s, i), after, j, q, k);
  }
}
