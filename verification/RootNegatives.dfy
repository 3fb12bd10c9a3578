/** What becomes of completion-implies-result when a card answers a gap with a negative acknowledgement: the switch
    does not look at the syndrome and reflects it as a positive one, for the very packet that is missing.
 */
module RootNegatives {
  import opened Words
  import opened RootSlots
  import opened WireNumbers
  import opened RootProtocol
  import opened RootSafety
  import opened RootProgress

  /** Every packet of every write that has been polled has its result in place. */
  ghost predicate CompletionsHold(c: Config, s: System)
    requires ValidConfig(c) && Shaped(c, s)
  {
    forall i: nat, q: nat :: 0 <= i < c.fanIn && 0 <= q < PACKETS * s.hosts[i].polled ==> HasResult(c, i, s.hosts[i], q)
  }

  ghost predicate Reaches(c: Config, s: System, es: seq<Event>, t: System)
    requires ValidConfig(c) && Shaped(c, s)
  {
    Legal(c, s, es) && Run(c, s, es) == t
  }

  lemma OneEvent(c: Config, s: System, e: Event)
    requires ValidConfig(c) && Shaped(c, s) && Enabled(c, s, e)
    ensures Reaches(c, s, [e], Apply(c, s, e))
  {
    assert [e][1..] == [];
    assert Legal(c, Apply(c, s, e), []);
  }

  lemma {:induction false} AndThen(c: Config, s: System, es: seq<Event>, t: System, e: Event)
    requires ValidConfig(c) && Shaped(c, s) && Shaped(c, t) && Reaches(c, s, es, t) && Enabled(c, t, e)
    ensures Reaches(c, s, es + [e], Apply(c, t, e))
    decreases |es|
  {
    hide ArriveAt, DeliverAt, PollOne;
    if es == [] {
      OneEvent(c, s, e);
      assert es + [e] == [e];
    } else {
      assert Reaches(c, Apply(c, s, es[0]), es[1..], t);
      AndThen(c, Apply(c, s, es[0]), es[1..], t, e);
      assert (es + [e])[1..] == es[1..] + [e];
    }
  }

  // ----- A run in which a write completes without its result

  /** The results below p on their way to host j. */
  ghost function Results(c: Config, j: nat, p: nat): (r: seq<DownMsg>)
    requires ValidConfig(c)
    ensures |r| == p && forall q :: 0 <= q < p ==> r[q] == DownMsg(q, ResultOf(c, j, q))
  {
    seq(p, q requires 0 <= q < p => DownMsg(q, ResultOf(c, j, q)))
  }

  /** All hosts have sent the packets below p, and the first n of them p too; nothing has been delivered. */
  ghost predicate SentUpTo(c: Config, s: System, p: nat, n: nat) {
    && Inv(c, s) && s.hosts == Init(c).hosts
    && forall i :: 0 <= i < c.fanIn ==>
         && s.up[i] == [] && s.down[i] == Results(c, i, p)
         && forall x: nat :: x in s.got[i] <==> x < p || (x == p && i < n)
  }

  lemma SendStep(c: Config, s: System, p: nat, n: nat) returns (t: System, u: System)
    requires c.messages >= 2 && SentUpTo(c, s, p, n) && n < c.fanIn && p < PACKETS * WINDOW
    ensures Enabled(c, s, Send(n, p)) && t == Apply(c, s, Send(n, p)) && Enabled(c, t, Arrive(n))
    ensures u == Apply(c, t, Arrive(n))
    ensures if n + 1 < c.fanIn then SentUpTo(c, u, p, n + 1) else SentUpTo(c, u, p + 1, 0)
  {
    hide ArriveAt, SlotsInv, OwnerInv, PortInv;
    t := Apply(c, s, Send(n, p));
    StepKeepsInv(c, s, Send(n, p));
    u := Apply(c, t, Arrive(n));
    StepKeepsInv(c, t, Arrive(n));
    DataArrives(c, t, n);
    SentArrived(c, s, p, n, u);
  }

  lemma SentArrived(c: Config, s: System, p: nat, n: nat, u: System)
    requires SentUpTo(c, s, p, n) && n < c.fanIn && Inv(c, u)
    requires u.got == Recorded(s.got, n, p) && u.hosts == s.hosts && u.up == s.up
    requires forall j :: 0 <= j < c.fanIn ==> u.down[j] == s.down[j] + Answer(c, s.got, n, p, j)
    ensures if n + 1 < c.fanIn then SentUpTo(c, u, p, n + 1) else SentUpTo(c, u, p + 1, 0)
  {
    hide SlotsInv, OwnerInv, PortInv, Done;
    CompleteWithLast(c, s.got, p, n);
  }

  lemma CompleteWithLast(c: Config, got: seq<set<nat>>, p: nat, n: nat)
    requires |got| == c.fanIn && n < c.fanIn
    requires forall i, x: nat :: 0 <= i < c.fanIn ==> (x in got[i] <==> x < p || (x == p && i < n))
    ensures forall j :: Answered(c, got, n, p, j) <==> n + 1 == c.fanIn
  {
    if n + 1 < c.fanIn {
      assert p !in Recorded(got, n, p)[n + 1];
    }
  }

  lemma {:induction false} SendAllUpTo(c: Config, p: nat, n: nat) returns (es: seq<Event>, t: System)
    requires ValidConfig(c) && c.messages >= 2
    requires n < c.fanIn && p <= PACKETS * WINDOW && (n > 0 ==> p < PACKETS * WINDOW)
    ensures Reaches(c, Init(c), es, t) && SentUpTo(c, t, p, n)
    decreases p, n
  {
    hide Apply, Enabled, Inv;
    if p == 0 && n == 0 {
      InvInitially(c);
      assert Legal(c, Init(c), []);
      return [], Init(c);
    }
    var p', n' := if n > 0 then p else p - 1, if n > 0 then n - 1 else c.fanIn - 1;
    var fs, s := SendAllUpTo(c, p', n');
    var s1;
    s1, t := SendStep(c, s, p', n');
    AndThen(c, Init(c), fs, s, Send(n', p'));
    AndThen(c, Init(c), fs + [Send(n', p')], s1, Arrive(n'));
    es := fs + [Send(n', p')] + [Arrive(n')];
  }

  /** Host 0 has taken the results below x of five, and its acknowledgements have been lost. */
  ghost predicate Taken(c: Config, s: System, x: nat) {
    && Inv(c, s) && c.messages >= 2 && x <= 5
    && s.up[0] == [] && s.down[0] == Results(c, 0, 5)[x..]
    && var h := s.hosts[0];
       h.polled == h.acked == 0 && h.rcv == x && forall y: nat :: y >= x ==> Addr(c, 0, y) !in h.mem
  }

  lemma TakeStep(c: Config, s: System, x: nat) returns (t: System, u: System)
    requires Taken(c, s, x) && x < 5
    ensures Enabled(c, s, Deliver(0)) && t == Apply(c, s, Deliver(0)) && Enabled(c, t, DropUp(0, 0))
    ensures u == Apply(c, t, DropUp(0, 0)) && Taken(c, u, x + 1)
  {
    hide SlotsInv, OwnerInv;
    assert PortInv(c, s.got, 0, s.hosts[0], s.up[0], s.down[0]);
    assert s.down[0][0] == DownMsg(x, ResultOf(c, 0, x));
    assert RootProtocol.DownInv(c, s.got, 0, s.hosts[0], s.down[0][0]);
    ReceiveResult(c, s.got, 0, s.hosts[0], x);
    t := Apply(c, s, Deliver(0));
    StepKeepsInv(c, s, Deliver(0));
    u := Apply(c, t, DropUp(0, 0));
    StepKeepsInv(c, t, DropUp(0, 0));
    assert u.down[0] == Results(c, 0, 5)[x + 1..];
  }

  lemma {:induction false} TakeUpTo(c: Config, x: nat) returns (es: seq<Event>, t: System)
    requires ValidConfig(c) && c.messages >= 2 && x <= 3
    ensures Reaches(c, Init(c), es, t) && Taken(c, t, x)
  {
    hide Apply, Enabled, Inv;
    if x == 0 {
      es, t := SendAllUpTo(c, 5, 0);
      return;
    }
    var fs, s := TakeUpTo(c, x - 1);
    var s1;
    s1, t := TakeStep(c, s, x - 1);
    AndThen(c, Init(c), fs, s, Deliver(0));
    AndThen(c, Init(c), fs + [Deliver(0)], s1, DropUp(0, 0));
    es := fs + [Deliver(0)] + [DropUp(0, 0)];
  }

  /** Result 3 is lost, result 4 refused. */
  lemma RefusedStep(c: Config, s: System) returns (t: System, u: System)
    requires Taken(c, s, 3) && c.negatives
    ensures Enabled(c, s, DropDown(0, 0)) && t == Apply(c, s, DropDown(0, 0)) && Enabled(c, t, Refuse(0))
    ensures u == Apply(c, t, Refuse(0)) && u.hosts[0] == s.hosts[0] && u.up[0] == [UpNak(3)] && u.down[0] == []
  {
    hide SlotsInv, OwnerInv, PortInv;
    t := Apply(c, s, DropDown(0, 0));
    assert t.down[0] == [DownMsg(4, ResultOf(c, 0, 4))];
    AheadIsExact(4, 3);
    u := Apply(c, t, Refuse(0));
  }

  /** The refusal comes back as an acknowledgement of packet 3, which completes the first write. */
  lemma ReflectedStep(c: Config, s: System) returns (t: System, u: System, v: System)
    requires ValidConfig(c) && Shaped(c, s) && c.messages >= 2
    requires s.up[0] == [UpNak(3)] && s.down[0] == [] && s.hosts[0].polled == s.hosts[0].acked == 0
    ensures Enabled(c, s, Arrive(0)) && t == Apply(c, s, Arrive(0)) && Enabled(c, t, Deliver(0))
    ensures u == Apply(c, t, Deliver(0)) && Enabled(c, u, Poll(0)) && v == Apply(c, u, Poll(0))
    ensures v.hosts[0].polled == 1 && v.hosts[0].mem == s.hosts[0].mem
  {
    hide Step;
    t := Apply(c, s, Arrive(0));
    ReflectedBack(c, s, 0);
    AheadIsExact(3, 0);
    u := Apply(c, t, Deliver(0));
    v := Apply(c, u, Poll(0));
  }

  /** Results 0, 1, 2 arrive, 3 is lost, 4 arrives: the card asks for 3, the switch reflects that as an
      acknowledgement of 3, and the host polls its first write as complete without the result of packet 3. */
  lemma NegativeRun(c: Config) returns (es: seq<Event>, t: System)
    requires ValidConfig(c) && c.negatives && c.messages >= 2
    ensures Reaches(c, Init(c), es, t) && t.hosts[0].polled == 1 && Addr(c, 0, 3) !in t.hosts[0].mem
  {
    hide Apply, Enabled, Inv;
    var es0, s0 := TakeUpTo(c, 3);
    var s1, s2 := RefusedStep(c, s0);
    var s3, s4, s5 := ReflectedStep(c, s2);
    AndThen(c, Init(c), es0, s0, DropDown(0, 0));
    AndThen(c, Init(c), es0 + [DropDown(0, 0)], s1, Refuse(0));
    AndThen(c, Init(c), es0 + [DropDown(0, 0)] + [Refuse(0)], s2, Arrive(0));
    AndThen(c, Init(c), es0 + [DropDown(0, 0)] + [Refuse(0)] + [Arrive(0)], s3, Deliver(0));
    AndThen(c, Init(c), es0 + [DropDown(0, 0)] + [Refuse(0)] + [Arrive(0)] + [Deliver(0)], s4, Poll(0));
    return es0 + [DropDown(0, 0)] + [Refuse(0)] + [Arrive(0)] + [Deliver(0)] + [Poll(0)], s5;
  }

  // ----- With a single write there is nothing after it that could reveal a gap at its end

  ghost predicate HostOne(c: Config, got: seq<set<nat>>, i: nat, h: Host)
    requires ValidConfig(c) && |got| == c.fanIn && i < c.fanIn
  {
    && h.polled <= c.messages && PACKETS * h.polled <= h.acked
    && (h.acked <= h.rcv || h.acked < PACKETS)
    && (h.rcv % PACKETS != 0 ==> h.cursor == Addr(c, i, h.rcv))
    && (forall q :: 0 <= q < h.rcv ==> Done(c, got, q))
    && (forall q :: 0 <= q < h.rcv ==> Addr(c, i, q) in h.mem && h.mem[Addr(c, i, q)] == TotalOf(c, q))
    && (forall q :: 0 <= q < PACKETS * h.polled ==> q in h.dst && h.dst[q] == TotalOf(c, q))
    && (forall x :: x in got[i] ==> x < PACKETS)
  }

  /** A refusal never names the last packet. */
  ghost predicate UpOne(h: Host, m: UpMsg) {
    match m
    case UpData(q) => q < PACKETS
    case UpAck(a) => a + 1 <= h.rcv
    case UpNak(a) => a + 1 < PACKETS
  }

  ghost predicate DownOne(c: Config, got: seq<set<nat>>, i: nat, h: Host, m: DownMsg)
    requires ValidConfig(c) && |got| == c.fanIn && i < c.fanIn
  {
    if m.out.Ack? then m.out == Ack(i, Wire(m.seqno)) && (m.seqno + 1 <= h.rcv || m.seqno + 1 < PACKETS)
    else Done(c, got, m.seqno) && m.out == ResultOf(c, i, m.seqno)
  }

  ghost predicate PortOne(c: Config, got: seq<set<nat>>, i: nat, h: Host, up: seq<UpMsg>, down: seq<DownMsg>)
    requires ValidConfig(c) && |got| == c.fanIn && i < c.fanIn
  {
    && HostOne(c, got, i, h)
    && (forall k :: 0 <= k < |up| ==> UpOne(h, up[k]))
    && (forall k :: 0 <= k < |down| ==> DownOne(c, got, i, h, down[k]))
  }

  ghost predicate InvOne(c: Config, s: System) {
    && ValidConfig(c) && c.messages <= 1 && Shaped(c, s)
    && SlotsInv(c, s.got, s.slots, s.owner) && OwnerInv(c, s.got, s.owner)
    && (forall i :: 0 <= i < c.fanIn ==> PortOne(c, s.got, i, s.hosts[i], s.up[i], s.down[i]))
  }

  lemma InvOneInitially(c: Config)
    requires ValidConfig(c) && c.messages <= 1
    ensures InvOne(c, Init(c))
  {
    InvInitially(c);
  }

  lemma RcvAtMostFour(c: Config, got: seq<set<nat>>, i: nat, h: Host)
    requires ValidConfig(c) && |got| == c.fanIn && i < c.fanIn && HostOne(c, got, i, h)
    ensures h.rcv <= PACKETS && h.acked <= PACKETS
  {
    if h.rcv > 0 {
      assert Done(c, got, h.rcv - 1);
      assert h.rcv - 1 in got[i];
    }
  }

  lemma DoneBelowFour(c: Config, got: seq<set<nat>>, i: nat, h: Host, x: nat)
    requires ValidConfig(c) && |got| == c.fanIn && i < c.fanIn && HostOne(c, got, i, h) && Done(c, got, x)
    ensures x < PACKETS
  {
    assert x in got[i];
  }

  lemma OwnSlotOne(c: Config, got: seq<set<nat>>, owner: seq<nat>, i: nat, h: Host, q: nat)
    requires ValidConfig(c) && |got| == c.fanIn && |owner| == N && i < c.fanIn && q < PACKETS
    requires OwnerInv(c, got, owner) && HostOne(c, got, i, h)
    ensures owner[Idx(q)] == q
  {
    var o := owner[Idx(q)];
    if o >= N {
      DoneBelowFour(c, got, i, h, o - WINDOW_SIZE);
    }
    SlotsRepeatEveryN(o, q);
  }

  lemma DataStepOne(c: Config, s: System, i: nat)
    requires InvOne(c, s) && i < c.fanIn && s.up[i] != [] && s.up[i][0].UpData?
    ensures var q := s.up[i][0].seqno;
            var (slots', outs) := Step(c.fanIn, s.slots, i, Parse(c, i, UpData(q)));
            && SlotsInv(c, Recorded(s.got, i, q), slots', OwnerAfter(c, s.got, s.owner, i, q))
            && OwnerInv(c, Recorded(s.got, i, q), OwnerAfter(c, s.got, s.owner, i, q))
            && forall j :: 0 <= j < c.fanIn ==> Route(outs, q, j) == Answer(c, s.got, i, q, j)
  {
    hide Step, Parse;
    var q := s.up[i][0].seqno;
    assert PortOne(c, s.got, i, s.hosts[i], s.up[i], s.down[i]);
    assert UpOne(s.hosts[i], s.up[i][0]);
    OwnSlotOne(c, s.got, s.owner, i, s.hosts[i], q);
    OwnersAfterArrival(c, s.got, s.owner, i, q);
    if q in s.got[i] {
      RetransmissionStep(c, s.got, s.slots, s.owner, i, q);
    } else {
      forall j | 0 <= j < c.fanIn
        ensures q + WINDOW_SIZE !in s.got[j]
      {
        assert PortOne(c, s.got, j, s.hosts[j], s.up[j], s.down[j]);
      }
      assert Contributors(c, Recorded(s.got, i, q), q + WINDOW_SIZE) == {};
      FirstTransmissionStep(c, s.got, s.slots, s.owner, i, q);
    }
  }

  /** What a port keeps when packet q of port i is recorded and answered. */
  lemma RecordedOne(c: Config, got: seq<set<nat>>, i: nat, q: nat, j: nat, h: Host, up: seq<UpMsg>, down: seq<DownMsg>)
    requires ValidConfig(c) && |got| == c.fanIn && i < c.fanIn && j < c.fanIn && q < PACKETS
    requires PortOne(c, got, j, h, up, down)
    ensures PortOne(c, Recorded(got, i, q), j, h, up, down + Answer(c, got, i, q, j))
  {
    var got' := Recorded(got, i, q);
    DoneGrows(c, got, i, q);
    assert HostOne(c, got', j, h);
    forall k | 0 <= k < |down + Answer(c, got, i, q, j)|
      ensures DownOne(c, got', j, h, (down + Answer(c, got, i, q, j))[k])
    {
      if k < |down| {
        assert DownOne(c, got, j, h, down[k]);
      } else {
        AnsweredIsDone(c, got, i, q, j);
      }
    }
  }

  lemma ArriveKeepsOne(c: Config, s: System, i: nat)
    requires InvOne(c, s) && i < c.fanIn && s.up[i] != []
    ensures InvOne(c, ArriveAt(c, s, i))
  {
    hide Step, Parse, SlotsInv, OwnerInv, HostOne, DownOne;
    var m := s.up[i][0];
    var t := ArriveAt(c, s, i);
    assert PortOne(c, s.got, i, s.hosts[i], s.up[i], s.down[i]);
    assert UpOne(s.hosts[i], m);
    if m.UpData? {
      DataStepOne(c, s, i);
      ArrivedOne(c, s, i);
    } else {
      ReflectedOne(c, s, i);
    }
  }

  lemma ArrivedOne(c: Config, s: System, i: nat)
    requires InvOne(c, s) && i < c.fanIn && s.up[i] != [] && s.up[i][0].UpData? && s.up[i][0].seqno < PACKETS
    requires var q := s.up[i][0].seqno;
             var (slots', outs) := Step(c.fanIn, s.slots, i, Parse(c, i, UpData(q)));
             && SlotsInv(c, Recorded(s.got, i, q), slots', OwnerAfter(c, s.got, s.owner, i, q))
             && OwnerInv(c, Recorded(s.got, i, q), OwnerAfter(c, s.got, s.owner, i, q))
             && forall j :: 0 <= j < c.fanIn ==> Route(outs, q, j) == Answer(c, s.got, i, q, j)
    ensures InvOne(c, ArriveAt(c, s, i))
  {
    hide Step, Parse, SlotsInv, OwnerInv, HostOne, DownOne, UpOne;
    var q := s.up[i][0].seqno;
    var (slots', outs) := Step(c.fanIn, s.slots, i, Parse(c, i, s.up[i][0]));
    var t := ArriveAt(c, s, i);
    DataStepTaken(c, s, i, slots', outs);
    forall j | 0 <= j < c.fanIn
      ensures PortOne(c, t.got, j, t.hosts[j], t.up[j], t.down[j])
    {
      assert PortOne(c, s.got, j, s.hosts[j], s.up[j], s.down[j]);
      RecordedOne(c, s.got, i, q, j, s.hosts[j], s.up[j], s.down[j]);
    }
  }

  lemma ReflectedOne(c: Config, s: System, i: nat)
    requires InvOne(c, s) && i < c.fanIn && s.up[i] != [] && !s.up[i][0].UpData?
    ensures InvOne(c, ArriveAt(c, s, i))
  {
    hide SlotsInv, OwnerInv, HostOne;
    var t := ArriveAt(c, s, i);
    ReflectedBack(c, s, i);
    assert UpOne(s.hosts[i], s.up[i][0]);
    forall j | 0 <= j < c.fanIn
      ensures PortOne(c, t.got, j, t.hosts[j], t.up[j], t.down[j])
    {
      assert PortOne(c, s.got, j, s.hosts[j], s.up[j], s.down[j]);
    }
  }

  /** A reflected acknowledgement, of whatever origin, never brings the mark to the end of the write before the
      results are there. */
  lemma AckTakenOne(c: Config, got: seq<set<nat>>, i: nat, h: Host, a: nat)
    requires ValidConfig(c) && c.messages <= 1 && |got| == c.fanIn && i < c.fanIn && HostOne(c, got, i, h)
    requires a + 1 <= h.rcv || a + 1 < PACKETS
    ensures var (h', reply) := Receive(c, h, Ack(i, Wire(a)));
            HostOne(c, got, i, h') && h'.rcv == h.rcv && reply == []
  {
    RcvAtMostFour(c, got, i, h);
    AheadIsExact(a, h.acked);
  }

  lemma NextResultOne(c: Config, got: seq<set<nat>>, i: nat, h: Host)
    requires ValidConfig(c) && |got| == c.fanIn && i < c.fanIn && HostOne(c, got, i, h) && Done(c, got, h.rcv)
    ensures HostOne(c, got, i, h.(rcv := h.rcv + 1, cursor := Addr(c, i, h.rcv + 1),
                                  mem := h.mem[Addr(c, i, h.rcv) := TotalOf(c, h.rcv)]))
  {
  }

  lemma ResultTakenOne(c: Config, got: seq<set<nat>>, i: nat, h: Host, x: nat)
    requires ValidConfig(c) && c.messages <= 1 && |got| == c.fanIn && i < c.fanIn && HostOne(c, got, i, h)
    requires Done(c, got, x)
    ensures var (h', reply) := Receive(c, h, ResultOf(c, i, x));
            && HostOne(c, got, i, h') && h'.rcv >= h.rcv && (forall k :: 0 <= k < |reply| ==> UpOne(h', reply[k]))
    ensures IsGap(h, ResultOf(c, i, x)) ==> h.rcv + 1 < PACKETS
  {
    RcvAtMostFour(c, got, i, h);
    DoneBelowFour(c, got, i, h, x);
    AheadIsExact(x, h.rcv);
    if x == h.rcv {
      NextResultOne(c, got, i, h);
    }
  }

  /** The oldest packet for the host is taken, whatever it is answered with. */
  lemma TakenOne(c: Config, got: seq<set<nat>>, i: nat, h: Host, h': Host, up: seq<UpMsg>, down: seq<DownMsg>,
                 reply: seq<UpMsg>)
    requires ValidConfig(c) && |got| == c.fanIn && i < c.fanIn && PortOne(c, got, i, h, up, down) && down != []
    requires HostOne(c, got, i, h') && h'.rcv >= h.rcv && forall k :: 0 <= k < |reply| ==> UpOne(h', reply[k])
    ensures PortOne(c, got, i, h', up + reply, down[1..])
  {
    forall k | 0 <= k < |up + reply|
      ensures UpOne(h', (up + reply)[k])
    {
      if k < |up| {
        assert UpOne(h, up[k]);
      }
    }
    forall k | 0 <= k < |down[1..]|
      ensures DownOne(c, got, i, h', down[1..][k])
    {
      assert DownOne(c, got, i, h, down[k + 1]);
    }
  }

  lemma PolledOne(c: Config, got: seq<set<nat>>, i: nat, h: Host)
    requires ValidConfig(c) && c.messages <= 1 && |got| == c.fanIn && i < c.fanIn && HostOne(c, got, i, h)
    requires h.polled < c.messages && PACKETS * (h.polled + 1) <= h.acked
    ensures HostOne(c, got, i, PollOne(c, i, h))
  {
    forall q | 0 <= q < PACKETS
      ensures Load(h, Addr(c, i, q)) == TotalOf(c, q)
    {
    }
  }

  lemma DeliverOne(c: Config, got: seq<set<nat>>, i: nat, h: Host, up: seq<UpMsg>, down: seq<DownMsg>)
    requires ValidConfig(c) && c.messages <= 1 && |got| == c.fanIn && i < c.fanIn
    requires PortOne(c, got, i, h, up, down) && down != []
    ensures var (h', reply) := Receive(c, h, down[0].out);
            PortOne(c, got, i, h', up + reply, down[1..])
  {
    hide HostOne, Receive;
    var m := down[0];
    assert DownOne(c, got, i, h, m);
    if m.out.Ack? {
      AckTakenOne(c, got, i, h, m.seqno);
    } else {
      ResultTakenOne(c, got, i, h, m.seqno);
    }
    var (h', reply) := Receive(c, h, m.out);
    TakenOne(c, got, i, h, h', up, down, reply);
  }

  /** What a step of its own does to a port. */
  lemma PortStepOne(c: Config, s: System, e: Event)
    requires InvOne(c, s) && Enabled(c, s, e) && !e.Arrive?
    ensures var i, t := e.port, Apply(c, s, e);
            PortOne(c, s.got, i, t.hosts[i], t.up[i], t.down[i])
  {
    hide SlotsInv, OwnerInv, HostOne, Receive;
    var i := e.port;
    var h, up, down := s.hosts[i], s.up[i], s.down[i];
    assert PortOne(c, s.got, i, h, up, down);
    match e
    case Deliver(_) => DeliverOne(c, s.got, i, h, up, down);
    case Refuse(_) =>
      assert DownOne(c, s.got, i, h, down[0]);
      ResultTakenOne(c, s.got, i, h, down[0].seqno);
      TakenOne(c, s.got, i, h, h, up, down, [UpNak(h.rcv)]);
    case Poll(_) => PolledOne(c, s.got, i, h);
    case _ =>
  }

  lemma StepKeepsOne(c: Config, s: System, e: Event)
    requires InvOne(c, s) && Enabled(c, s, e)
    ensures InvOne(c, Apply(c, s, e))
  {
    hide SlotsInv, OwnerInv, PortOne;
    var t := Apply(c, s, e);
    if e.Arrive? {
      ArriveKeepsOne(c, s, e.port);
    } else {
      PortStepOne(c, s, e);
      forall j | 0 <= j < c.fanIn
        ensures PortOne(c, t.got, j, t.hosts[j], t.up[j], t.down[j])
      {
        assert PortOne(c, s.got, j, s.hosts[j], s.up[j], s.down[j]);
      }
    }
  }

  lemma {:induction false} RunKeepsOne(c: Config, s: System, es: seq<Event>)
    requires InvOne(c, s) && Legal(c, s, es)
    ensures InvOne(c, Run(c, s, es))
    decreases |es|
  {
    hide ArriveAt, DeliverAt, PollOne, SlotsInv, OwnerInv, PortOne;
    if es != [] {
      StepKeepsOne(c, s, es[0]);
      RunKeepsOne(c, Apply(c, s, es[0]), es[1..]);
    }
  }

  /** One write at most: whatever gets through, a write that was polled has its results. */
  lemma OneWriteIsSafe(c: Config, es: seq<Event>)
    requires ValidConfig(c) && c.messages <= 1 && Legal(c, Init(c), es)
    ensures CompletionsHold(c, Run(c, Init(c), es))
  {
    InvOneInitially(c);
    RunKeepsOne(c, Init(c), es);
    var s := Run(c, Init(c), es);
    hide HasResult;
    forall i: nat, q: nat | 0 <= i < c.fanIn && 0 <= q < PACKETS * s.hosts[i].polled
      ensures HasResult(c, i, s.hosts[i], q)
    {
      assert PortOne(c, s.got, i, s.hosts[i], s.up[i], s.down[i]);
      HoldsResult(c, i, s.hosts[i], q);
    }
  }

  // ----- Exactly when reflection is safe

  /** In every run the writes that were polled have their results, if and only if no negative acknowledgement gets
      through to the switch, or there is only one write. */
  lemma ReflectionIsSafeIff(c: Config)
    requires ValidConfig(c)
    ensures (forall es :: Legal(c, Init(c), es) ==> CompletionsHold(c, Run(c, Init(c), es)))
       <==> !c.negatives || c.messages <= 1
  {
    if !c.negatives {
      forall es | Legal(c, Init(c), es)
        ensures CompletionsHold(c, Run(c, Init(c), es))
      {
        forall i: nat, q: nat | 0 <= i < c.fanIn && 0 <= q < PACKETS * Run(c, Init(c), es).hosts[i].polled
          ensures HasResult(c, i, Run(c, Init(c), es).hosts[i], q)
        {
          CompletionImpliesResult(c, es, i, q);
        }
      }
    } else if c.messages <= 1 {
      forall es | Legal(c, Init(c), es)
        ensures CompletionsHold(c, Run(c, Init(c), es))
      {
        OneWriteIsSafe(c, es);
      }
    } else {
      var es, t := NegativeRun(c);
      assert !HasResult(c, 0, t.hosts[0], 3);
      assert !CompletionsHold(c, Run(c, Init(c), es));
    }
  }
}
