/** No reachable state of the root protocol is stuck: whatever was lost so far, a run without further
    loss exists that brings every host every result. */
module RootProgress {
  import opened Words
  import opened RootSlots
  import opened WireNumbers
  import opened RootProtocol

  predicate LossFree(es: seq<Event>) {
    forall k :: 0 <= k < |es| ==> !es[k].DropUp? && !es[k].DropDown?
  }

  /** t follows from s by a legal run without loss. */
  ghost predicate Leads(c: Config, s: System, es: seq<Event>, t: System)
    requires ValidConfig(c) && Shaped(c, s)
  {
    LossFree(es) && Legal(c, s, es) && Run(c, s, es) == t
  }

  lemma {:induction false} LeadsOn(c: Config, s: System, es: seq<Event>, t: System, fs: seq<Event>, u: System)
    requires ValidConfig(c) && Shaped(c, s) && Leads(c, s, es, t) && Leads(c, t, fs, u)
    ensures Leads(c, s, es + fs, u)
    decreases |es|
  {
    hide ArriveAt, DeliverAt, PollOne, Enabled;
    if es == [] {
      assert es + fs == fs;
    } else {
      var s1 := Apply(c, s, es[0]);
      assert Leads(c, s1, es[1..], t);
      LeadsOn(c, s1, es[1..], t, fs, u);
      assert (es + fs)[1..] == es[1..] + fs;
    }
  }

  lemma OneStep(c: Config, s: System, e: Event)
    requires ValidConfig(c) && Shaped(c, s) && Enabled(c, s, e) && !e.DropUp? && !e.DropDown?
    ensures Leads(c, s, [e], Apply(c, s, e))
  {
    assert [e][1..] == [];
    assert Legal(c, Apply(c, s, e), []);
  }

  /** Nothing is ever taken back. */
  ghost predicate Grows(c: Config, s: System, t: System)
    requires Shaped(c, s) && Shaped(c, t)
  {
    forall j :: 0 <= j < c.fanIn ==>
      && s.hosts[j].polled <= t.hosts[j].polled
      && s.hosts[j].rcv <= t.hosts[j].rcv
      && s.got[j] <= t.got[j]
  }

  /** All channels are empty. */
  ghost predicate Quiet(c: Config, s: System)
    requires Shaped(c, s)
  {
    forall j :: 0 <= j < c.fanIn ==> s.up[j] == [] && s.down[j] == []
  }

  lemma DeliveryGrows(c: Config, s: System, i: nat)
    requires Shaped(c, s) && i < c.fanIn && s.down[i] != []
    ensures Grows(c, s, DeliverAt(c, s, i))
  {
  }

  lemma ArrivalGrows(c: Config, s: System, i: nat)
    requires ValidConfig(c) && Shaped(c, s) && i < c.fanIn && s.up[i] != []
    ensures Grows(c, s, ArriveAt(c, s, i))
  {
  }

  lemma StepGrows(c: Config, s: System, e: Event)
    requires ValidConfig(c) && Shaped(c, s) && Enabled(c, s, e)
    ensures Grows(c, s, Apply(c, s, e))
  {
    match e
    case Deliver(i) => DeliveryGrows(c, s, i);
    case Arrive(i) => ArrivalGrows(c, s, i);
    case _ =>
  }

  // ----- Draining

  /** How many messages of the channels satisfy p. */
  ghost function Tally<T(!new)>(chs: seq<seq<T>>, p: T -> bool): nat {
    if chs == [] then 0 else Tally(chs[..|chs| - 1], p) + Count(chs[|chs| - 1], p)
  }

  ghost function Count<T(!new)>(ch: seq<T>, p: T -> bool): nat {
    if ch == [] then 0 else (if p(ch[0]) then 1 else 0) + Count(ch[1..], p)
  }

  lemma {:induction false} TallyUpdate<T(!new)>(chs: seq<seq<T>>, p: T -> bool, i: nat, ch: seq<T>)
    requires i < |chs|
    ensures Tally(chs[i := ch], p) + Count(chs[i], p) == Tally(chs, p) + Count(ch, p)
  {
    var last := |chs| - 1;
    if i == last {
      assert chs[i := ch][..last] == chs[..last];
    } else {
      TallyUpdate(chs[..last], p, i, ch);
      assert chs[i := ch][..last] == chs[..last][i := ch];
    }
  }

  lemma {:induction false} CountAppend<T(!new)>(xs: seq<T>, p: T -> bool, x: T)
    ensures Count(xs + [x], p) == Count(xs, p) + if p(x) then 1 else 0
  {
    if xs == [] {
      assert [x][1..] == [];
    } else {
      CountAppend(xs[1..], p, x);
      assert (xs + [x])[1..] == xs[1..] + [x];
    }
  }

  predicate IsData(m: UpMsg) { m.UpData? }

  predicate IsAck(m: UpMsg) { m.UpAck? }

  predicate IsResult(m: DownMsg) { !m.out.Ack? }

  predicate IsReflected(m: DownMsg) { m.out.Ack? }

  /** Consuming a packet removes one of its kind; what it causes is of a later kind in this order. */
  ghost predicate Less(t: System, s: System) {
    || Tally(t.up, IsData) < Tally(s.up, IsData)
    || (&& Tally(t.up, IsData) == Tally(s.up, IsData)
        && (|| Tally(t.down, IsResult) < Tally(s.down, IsResult)
            || (&& Tally(t.down, IsResult) == Tally(s.down, IsResult)
                && (|| Tally(t.up, IsAck) < Tally(s.up, IsAck)
                    || (&& Tally(t.up, IsAck) == Tally(s.up, IsAck)
                        && Tally(t.down, IsReflected) < Tally(s.down, IsReflected))))))
  }

  /** An acknowledgement becomes a reflected one, and nothing else changes. */
  lemma ReflectedBack(c: Config, s: System, i: nat)
    requires ValidConfig(c) && Shaped(c, s) && i < c.fanIn && s.up[i] != [] && !s.up[i][0].UpData?
    ensures var t := ArriveAt(c, s, i);
            var a := s.up[i][0].seqno;
            && t.hosts == s.hosts && t.got == s.got && t.up == s.up[i := s.up[i][1..]]
            && t.down == s.down[i := s.down[i] + [DownMsg(a, Ack(i, Wire(a)))]]
  {
    var t := ArriveAt(c, s, i);
    var a := s.up[i][0].seqno;
    RouteOne(Ack(i, Wire(a)), a);
    var down := s.down[i := s.down[i] + [DownMsg(a, Ack(i, Wire(a)))]];
    forall j | 0 <= j < c.fanIn
      ensures t.down[j] == down[j]
    {
    }
  }

  lemma ReflectionMoves(c: Config, s: System, i: nat)
    requires ValidConfig(c) && Shaped(c, s) && i < c.fanIn && s.up[i] != [] && !s.up[i][0].UpData?
    ensures var t := ArriveAt(c, s, i);
            && t.up == s.up[i := s.up[i][1..]] && Tally(t.down, IsResult) == Tally(s.down, IsResult)
  {
    var a := s.up[i][0].seqno;
    var m := DownMsg(a, Ack(i, Wire(a)));
    ReflectedBack(c, s, i);
    TallyUpdate(s.down, IsResult, i, s.down[i] + [m]);
    CountAppend(s.down[i], IsResult, m);
  }

  lemma ArrivalIsLess(c: Config, s: System, i: nat)
    requires ValidConfig(c) && Shaped(c, s) && i < c.fanIn && s.up[i] != [] && !s.up[i][0].UpNak?
    ensures Less(ArriveAt(c, s, i), s)
  {
    TallyUpdate(s.up, IsData, i, s.up[i][1..]);
    TallyUpdate(s.up, IsAck, i, s.up[i][1..]);
    if s.up[i][0].UpAck? {
      ReflectionMoves(c, s, i);
    }
  }

  lemma ReplyIsAck(c: Config, h: Host, out: Output)
    ensures var reply := Receive(c, h, out).1;
            if reply == [] then true else reply == [reply[0]] && reply[0].UpAck? && !out.Ack?
  {
  }

  lemma DeliveryIsLess(c: Config, s: System, i: nat)
    requires Shaped(c, s) && i < c.fanIn && s.down[i] != []
    ensures Less(DeliverAt(c, s, i), s)
  {
    var reply := Receive(c, s.hosts[i], s.down[i][0].out).1;
    ReplyIsAck(c, s.hosts[i], s.down[i][0].out);
    TallyUpdate(s.down, IsResult, i, s.down[i][1..]);
    TallyUpdate(s.down, IsReflected, i, s.down[i][1..]);
    TallyUpdate(s.up, IsData, i, s.up[i] + reply);
    TallyUpdate(s.up, IsAck, i, s.up[i] + reply);
    if reply == [] {
      assert s.up[i] + reply == s.up[i];
    } else {
      CountAppend(s.up[i], IsData, reply[0]);
      CountAppend(s.up[i], IsAck, reply[0]);
    }
  }

  /** The oldest packet of some channel is delivered. */
  lemma DrainStep(c: Config, s: System, i: nat) returns (e: Event, t: System)
    requires Inv(c, s) && i < c.fanIn && (s.up[i] != [] || s.down[i] != [])
    ensures Leads(c, s, [e], t) && Inv(c, t) && Grows(c, s, t) && Less(t, s)
  {
    hide SlotsInv, OwnerInv, ArriveAt, DeliverAt, Less, Grows;
    e := if s.up[i] != [] then Arrive(i) else Deliver(i);
    t := Apply(c, s, e);
    StepKeepsInv(c, s, e);
    StepGrows(c, s, e);
    OneStep(c, s, e);
    if s.up[i] != [] {
      assert PortInv(c, s.got, i, s.hosts[i], s.up[i], s.down[i]);
      assert UpInv(c, s.got, i, s.hosts[i], s.up[i][0]);
      ArrivalIsLess(c, s, i);
    } else {
      DeliveryIsLess(c, s, i);
    }
  }

  /** Delivering whatever is in flight empties the channels. */
  lemma {:induction false} Drain(c: Config, s: System) returns (es: seq<Event>, t: System)
    requires Inv(c, s)
    ensures Leads(c, s, es, t) && Inv(c, t) && Grows(c, s, t) && Quiet(c, t)
    decreases Tally(s.up, IsData), Tally(s.down, IsResult), Tally(s.up, IsAck), Tally(s.down, IsReflected)
  {
    hide Tally, Count, SlotsInv, OwnerInv, PortInv;
    if Quiet(c, s) {
      return [], s;
    }
    var i :| 0 <= i < c.fanIn && (s.up[i] != [] || s.down[i] != []);
    var e, s1 := DrainStep(c, s, i);
    var fs, u := Drain(c, s1);
    LeadsOn(c, s, [e], s1, fs, u);
    return [e] + fs, u;
  }

  // ----- One host resends one packet

  /** s and t differ at most in host j and its channels. */
  ghost predicate OnlyPort(c: Config, s: System, t: System, j: nat)
    requires Shaped(c, s) && Shaped(c, t)
  {
    && s.got == t.got
    && forall k :: 0 <= k < c.fanIn && k != j ==>
         s.hosts[k] == t.hosts[k] && s.up[k] == t.up[k] && s.down[k] == t.down[k]
  }

  lemma SentAlone(c: Config, s: System, j: nat, q: nat)
    requires ValidConfig(c) && Shaped(c, s) && Quiet(c, s) && Enabled(c, s, Send(j, q))
    ensures var t := Apply(c, s, Send(j, q));
            && OnlyPort(c, s, t, j) && t.hosts == s.hosts && t.up[j] == [UpData(q)] && t.down[j] == []
  {
  }

  lemma OnlyPortTwice(c: Config, s: System, t: System, u: System, j: nat)
    requires Shaped(c, s) && Shaped(c, t) && Shaped(c, u) && OnlyPort(c, s, t, j) && OnlyPort(c, t, u, j)
    ensures OnlyPort(c, s, u, j)
  {
  }

  /** A retransmission of a completed packet only fetches its result. */
  lemma ResentArrives(c: Config, s: System, j: nat, q: nat)
    requires Inv(c, s) && j < c.fanIn && s.up[j] == [UpData(q)] && s.down[j] == []
    requires q in s.got[j] && Done(c, s.got, q)
    ensures var t := ArriveAt(c, s, j);
            && OnlyPort(c, s, t, j) && t.hosts[j] == s.hosts[j]
            && t.up[j] == [] && t.down[j] == [DownMsg(q, ResultOf(c, j, q))]
  {
    hide SlotsInv, OwnerInv, PortInv, ArriveAt;
    DataArrives(c, s, j);
    assert s.got[j] + {q} == s.got[j];
  }

  lemma ResultTaken(c: Config, s: System, j: nat, q: nat)
    requires Inv(c, s) && j < c.fanIn && s.up[j] == [] && s.down[j] == [DownMsg(q, ResultOf(c, j, q))]
    requires q <= s.hosts[j].rcv
    ensures var t := DeliverAt(c, s, j);
            && OnlyPort(c, s, t, j) && t.up[j] == [UpAck(t.hosts[j].rcv - 1)] && t.down[j] == []
            && t.hosts[j].rcv == (if q == s.hosts[j].rcv then q + 1 else s.hosts[j].rcv)
            && t.hosts[j].rcv > 0 && t.hosts[j].polled == s.hosts[j].polled
  {
    assert PortInv(c, s.got, j, s.hosts[j], s.up[j], s.down[j]);
    assert DownInv(c, s.got, j, s.hosts[j], s.down[j][0]);
    ReceiveResult(c, s.got, j, s.hosts[j], q);
  }

  lemma AckBackAtSwitch(c: Config, s: System, j: nat)
    requires ValidConfig(c) && Shaped(c, s) && j < c.fanIn && s.hosts[j].rcv > 0
    requires s.up[j] == [UpAck(s.hosts[j].rcv - 1)] && s.down[j] == []
    ensures var t := ArriveAt(c, s, j);
            var a := s.hosts[j].rcv - 1;
            && OnlyPort(c, s, t, j) && t.hosts[j] == s.hosts[j]
            && t.up[j] == [] && t.down[j] == [DownMsg(a, Ack(j, Wire(a)))]
  {
    ReflectedBack(c, s, j);
  }

  lemma AckBackAtHost(c: Config, s: System, j: nat)
    requires Inv(c, s) && j < c.fanIn && s.hosts[j].rcv > 0 && s.up[j] == []
    requires s.down[j] == [DownMsg(s.hosts[j].rcv - 1, Ack(j, Wire(s.hosts[j].rcv - 1)))]
    ensures var t := DeliverAt(c, s, j);
            && OnlyPort(c, s, t, j) && t.hosts[j] == s.hosts[j].(acked := s.hosts[j].rcv)
            && t.up[j] == [] && t.down[j] == []
  {
    assert PortInv(c, s.got, j, s.hosts[j], s.up[j], s.down[j]);
    ReceiveAck(c, s.got, j, s.hosts[j], s.hosts[j].rcv - 1);
  }

  /** One more event at the end of a run. */
  lemma Then(c: Config, s: System, es: seq<Event>, t: System, e: Event)
    requires Inv(c, s) && Inv(c, t) && Leads(c, s, es, t) && Enabled(c, t, e)
    requires !e.DropUp? && !e.DropDown? && !e.Refuse?
    ensures Leads(c, s, es + [e], Apply(c, t, e)) && Inv(c, Apply(c, t, e))
  {
    OneStep(c, t, e);
    StepKeepsInv(c, t, e);
    LeadsOn(c, s, es, t, [e], Apply(c, t, e));
  }

  /** Resending q when it is complete: the result comes back, is accepted if it is the next one, and its
      acknowledgement is reflected. */
  lemma Resend(c: Config, s: System, j: nat, q: nat) returns (es: seq<Event>, t: System)
    requires Inv(c, s) && Quiet(c, s) && j < c.fanIn
    requires q in s.got[j] && Done(c, s.got, q)
    requires s.hosts[j].acked <= q <= s.hosts[j].rcv && q < Limit(c, s.hosts[j])
    ensures Leads(c, s, es, t) && Inv(c, t) && OnlyPort(c, s, t, j) && Quiet(c, t)
    ensures t.hosts[j].rcv == t.hosts[j].acked
    ensures t.hosts[j].rcv == if q == s.hosts[j].rcv then q + 1 else s.hosts[j].rcv
    ensures t.hosts[j].polled == s.hosts[j].polled
  {
    hide SlotsInv, OwnerInv, PortInv, ArriveAt, DeliverAt;
    var fs, s3 := FetchResult(c, s, j, q);
    var s4 := ArriveAt(c, s3, j);
    AckBackAtSwitch(c, s3, j);
    Then(c, s, fs, s3, Arrive(j));
    OnlyPortTwice(c, s, s3, s4, j);
    AckBackAtHost(c, s4, j);
    Then(c, s, fs + [Arrive(j)], s4, Deliver(j));
    OnlyPortTwice(c, s, s4, DeliverAt(c, s4, j), j);
    return fs + [Arrive(j)] + [Deliver(j)], DeliverAt(c, s4, j);
  }

  lemma FetchResult(c: Config, s: System, j: nat, q: nat) returns (es: seq<Event>, t: System)
    requires Inv(c, s) && Quiet(c, s) && j < c.fanIn
    requires q in s.got[j] && Done(c, s.got, q)
    requires s.hosts[j].acked <= q <= s.hosts[j].rcv && q < Limit(c, s.hosts[j])
    ensures Leads(c, s, es, t) && Inv(c, t) && OnlyPort(c, s, t, j)
    ensures t.hosts[j].rcv > 0 && t.up[j] == [UpAck(t.hosts[j].rcv - 1)] && t.down[j] == []
    ensures t.hosts[j].rcv == if q == s.hosts[j].rcv then q + 1 else s.hosts[j].rcv
    ensures t.hosts[j].polled == s.hosts[j].polled
  {
    hide SlotsInv, OwnerInv, PortInv, ArriveAt, DeliverAt;
    Then(c, s, [], s, Send(j, q));
    var s1 := Apply(c, s, Send(j, q));
    SentAlone(c, s, j, q);
    ResentArrives(c, s1, j, q);
    Then(c, s, [] + [Send(j, q)], s1, Arrive(j));
    var s2 := ArriveAt(c, s1, j);
    OnlyPortTwice(c, s, s1, s2, j);
    ResultTaken(c, s2, j, q);
    Then(c, s, [] + [Send(j, q)] + [Arrive(j)], s2, Deliver(j));
    OnlyPortTwice(c, s, s2, DeliverAt(c, s2, j), j);
    return [] + [Send(j, q)] + [Arrive(j)] + [Deliver(j)], DeliverAt(c, s2, j);
  }

  // ----- Catching up

  /** Every completion there is gets polled. */
  lemma {:induction false} PollAll(c: Config, s: System, j: nat) returns (es: seq<Event>, t: System)
    requires Inv(c, s) && Quiet(c, s) && j < c.fanIn && s.hosts[j].acked == s.hosts[j].rcv
    ensures Leads(c, s, es, t) && Inv(c, t) && Quiet(c, t) && OnlyPort(c, s, t, j)
    ensures t.hosts[j].rcv == t.hosts[j].acked == s.hosts[j].rcv
    ensures t.hosts[j].polled == t.hosts[j].rcv / PACKETS >= s.hosts[j].polled
    decreases s.hosts[j].rcv - PACKETS * s.hosts[j].polled
  {
    var h := s.hosts[j];
    assert PortInv(c, s.got, j, h, s.up[j], s.down[j]);
    if h.acked < PACKETS * (h.polled + 1) {
      return [], s;
    }
    WithinWindow(c, s.got, j, h);
    assert h.polled < c.messages;
    Then(c, s, [], s, Poll(j));
    var s1 := Apply(c, s, Poll(j));
    var fs, u := PollAll(c, s1, j);
    LeadsOn(c, s, [] + [Poll(j)], s1, fs, u);
    return [] + [Poll(j)] + fs, u;
  }

  /** A host that was never told its results arrived asks again for the last one. */
  lemma CatchUp(c: Config, s: System, j: nat) returns (es: seq<Event>, t: System)
    requires Inv(c, s) && Quiet(c, s) && j < c.fanIn
    ensures Leads(c, s, es, t) && Inv(c, t) && Quiet(c, t) && OnlyPort(c, s, t, j)
    ensures t.hosts[j].rcv == t.hosts[j].acked == s.hosts[j].rcv
    ensures t.hosts[j].polled == t.hosts[j].rcv / PACKETS >= s.hosts[j].polled
  {
    var h := s.hosts[j];
    assert PortInv(c, s.got, j, h, s.up[j], s.down[j]);
    if h.acked < h.rcv {
      WithinWindow(c, s.got, j, h);
      assert Done(c, s.got, h.rcv - 1);
      var fs, s1 := Resend(c, s, j, h.rcv - 1);
      var gs, u := PollAll(c, s1, j);
      LeadsOn(c, s, fs, s1, gs, u);
      return fs + gs, u;
    } else {
      es, t := PollAll(c, s, j);
    }
  }

  ghost predicate CaughtUp(c: Config, s: System, n: nat)
    requires Shaped(c, s) && n <= c.fanIn
  {
    forall j :: 0 <= j < n ==> s.hosts[j].acked == s.hosts[j].rcv && s.hosts[j].polled == s.hosts[j].rcv / PACKETS
  }

  lemma OneMoreCaughtUp(c: Config, s: System, s1: System, u: System, n: nat)
    requires Shaped(c, s) && Shaped(c, s1) && Shaped(c, u) && n < c.fanIn
    requires Grows(c, s, s1) && CaughtUp(c, s1, n) && s1.got == s.got && OnlyPort(c, s1, u, n)
    requires forall j :: 0 <= j < c.fanIn ==> s1.hosts[j].rcv == s.hosts[j].rcv
    requires u.hosts[n].rcv == u.hosts[n].acked == s1.hosts[n].rcv
    requires u.hosts[n].polled == u.hosts[n].rcv / PACKETS >= s1.hosts[n].polled
    ensures Grows(c, s, u) && CaughtUp(c, u, n + 1) && u.got == s.got
    ensures forall j :: 0 <= j < c.fanIn ==> u.hosts[j].rcv == s.hosts[j].rcv
  {
  }

  lemma {:induction false} CatchUpAll(c: Config, s: System, n: nat) returns (es: seq<Event>, t: System)
    requires Inv(c, s) && Quiet(c, s) && n <= c.fanIn
    ensures Leads(c, s, es, t) && Inv(c, t) && Quiet(c, t) && Grows(c, s, t) && CaughtUp(c, t, n)
    ensures t.got == s.got
    ensures forall j :: 0 <= j < c.fanIn ==> t.hosts[j].rcv == s.hosts[j].rcv
  {
    if n == 0 {
      return [], s;
    }
    var fs, s1 := CatchUpAll(c, s, n - 1);
    var gs, u := CatchUp(c, s1, n - 1);
    OneMoreCaughtUp(c, s, s1, u, n - 1);
    LeadsOn(c, s, fs, s1, gs, u);
    return fs + gs, u;
  }

  /** A caught-up host has posted the next packet it needs. */
  lemma NextIsPosted(c: Config, h: Host)
    requires h.polled == h.rcv / PACKETS && h.rcv < PACKETS * c.messages
    ensures h.rcv < Limit(c, h)
  {
  }

  // ----- The oldest unfinished sequence number

  ghost predicate CanContribute(c: Config, s: System, j: nat, p: nat)
    requires Shaped(c, s) && j < c.fanIn
  {
    s.up[j] == [] && (p in s.got[j] || s.hosts[j].acked <= p < Limit(c, s.hosts[j]))
  }

  /** Host j sends p unless the switch has it from j already. */
  lemma Contribute(c: Config, s: System, j: nat, p: nat) returns (es: seq<Event>, t: System)
    requires Inv(c, s) && j < c.fanIn && CanContribute(c, s, j, p)
    ensures Leads(c, s, es, t) && Inv(c, t) && t.hosts == s.hosts && t.up == s.up
    ensures p in t.got[j] && forall k :: 0 <= k < c.fanIn ==> s.got[k] <= t.got[k]
  {
    if p in s.got[j] {
      return [], s;
    }
    Then(c, s, [], s, Send(j, p));
    var s1 := Apply(c, s, Send(j, p));
    DataArrives(c, s1, j);
    Then(c, s, [] + [Send(j, p)], s1, Arrive(j));
    return [] + [Send(j, p)] + [Arrive(j)], ArriveAt(c, s1, j);
  }

  lemma CanStillContribute(c: Config, s: System, t: System, j: nat, p: nat)
    requires Shaped(c, s) && Shaped(c, t) && j < c.fanIn && CanContribute(c, s, j, p)
    requires t.hosts == s.hosts && t.up == s.up && s.got[j] <= t.got[j]
    ensures CanContribute(c, t, j, p)
  {
  }

  /** From s to t nothing has changed but that packets have been contributed, p by the first n hosts. */
  ghost predicate Contributed(c: Config, s: System, t: System, n: nat, p: nat)
    requires Shaped(c, s) && Shaped(c, t) && n <= c.fanIn
  {
    && t.hosts == s.hosts && t.up == s.up
    && (forall j :: 0 <= j < n ==> p in t.got[j])
    && (forall k :: 0 <= k < c.fanIn ==> s.got[k] <= t.got[k])
  }

  lemma OneMoreContributed(c: Config, s: System, s1: System, t: System, n: nat, p: nat)
    requires Shaped(c, s) && Shaped(c, s1) && Shaped(c, t) && n < c.fanIn && Contributed(c, s, s1, n, p)
    requires t.hosts == s1.hosts && t.up == s1.up && p in t.got[n]
    requires forall k :: 0 <= k < c.fanIn ==> s1.got[k] <= t.got[k]
    ensures Contributed(c, s, t, n + 1, p)
  {
  }

  lemma {:induction false} ContributeAll(c: Config, s: System, n: nat, p: nat) returns (es: seq<Event>, t: System)
    requires Inv(c, s) && n <= c.fanIn
    requires forall j :: 0 <= j < c.fanIn ==> CanContribute(c, s, j, p)
    ensures Leads(c, s, es, t) && Inv(c, t) && Contributed(c, s, t, n, p)
  {
    if n == 0 {
      return [], s;
    }
    var fs, s1 := ContributeAll(c, s, n - 1, p);
    CanStillContribute(c, s, s1, n - 1, p);
    var gs, u := Contribute(c, s1, n - 1, p);
    OneMoreContributed(c, s, s1, u, n - 1, p);
    LeadsOn(c, s, fs, s1, gs, u);
    return fs + gs, u;
  }

  predicate CanFetch(c: Config, h: Host, p: nat) {
    h.rcv >= p && (h.rcv == p ==> p < Limit(c, h))
  }

  lemma Fetch(c: Config, s: System, j: nat, p: nat) returns (es: seq<Event>, t: System)
    requires Inv(c, s) && Quiet(c, s) && j < c.fanIn && Done(c, s.got, p) && CanFetch(c, s.hosts[j], p)
    ensures Leads(c, s, es, t) && Inv(c, t) && Quiet(c, t) && OnlyPort(c, s, t, j) && t.hosts[j].rcv > p
  {
    if s.hosts[j].rcv > p {
      return [], s;
    }
    assert PortInv(c, s.got, j, s.hosts[j], s.up[j], s.down[j]);
    es, t := Resend(c, s, j, p);
  }

  lemma OneMoreFetched(c: Config, s: System, s1: System, u: System, n: nat, p: nat)
    requires Shaped(c, s) && Shaped(c, s1) && Shaped(c, u) && n < c.fanIn && OnlyPort(c, s1, u, n)
    requires s1.got == s.got && u.hosts[n].rcv > p
    requires forall j :: 0 <= j < n ==> s1.hosts[j].rcv > p
    requires forall j :: n <= j < c.fanIn ==> s1.hosts[j] == s.hosts[j]
    ensures u.got == s.got && (forall j :: 0 <= j < n + 1 ==> u.hosts[j].rcv > p)
    ensures forall j :: n + 1 <= j < c.fanIn ==> u.hosts[j] == s.hosts[j]
  {
  }

  lemma {:induction false} FetchAll(c: Config, s: System, n: nat, p: nat) returns (es: seq<Event>, t: System)
    requires Inv(c, s) && Quiet(c, s) && n <= c.fanIn && Done(c, s.got, p)
    requires forall j :: 0 <= j < c.fanIn ==> CanFetch(c, s.hosts[j], p)
    ensures Leads(c, s, es, t) && Inv(c, t) && Quiet(c, t) && t.got == s.got
    ensures forall j :: 0 <= j < n ==> t.hosts[j].rcv > p
    ensures forall j :: n <= j < c.fanIn ==> t.hosts[j] == s.hosts[j]
  {
    if n == 0 {
      return [], s;
    }
    var fs, s1 := FetchAll(c, s, n - 1, p);
    assert CanFetch(c, s.hosts[n - 1], p);
    var gs, u := Fetch(c, s1, n - 1, p);
    OneMoreFetched(c, s, s1, u, n - 1, p);
    LeadsOn(c, s, fs, s1, gs, u);
    return fs + gs, u;
  }

  ghost predicate AllHave(c: Config, s: System, p: nat)
    requires Shaped(c, s)
  {
    forall j :: 0 <= j < c.fanIn ==> s.hosts[j].rcv >= p
  }

  /** Every host catches up, sends p if the switch lacks it, and fetches the result if it lacks that. */
  lemma BringResult(c: Config, s: System, p: nat) returns (es: seq<Event>, t: System)
    requires Inv(c, s) && AllHave(c, s, p) && p < PACKETS * c.messages
    ensures Leads(c, s, es, t) && Inv(c, t) && AllHave(c, t, p + 1)
  {
    var es0, s0 := Drain(c, s);
    var es1, s1 := CatchUpAll(c, s0, c.fanIn);
    LeadsOn(c, s, es0, s0, es1, s1);
    forall j | 0 <= j < c.fanIn
      ensures CanContribute(c, s1, j, p) && CanFetch(c, s1.hosts[j], p)
    {
      CanSend(c, s1, j, p);
    }
    var es2, s2 := ContributeAll(c, s1, c.fanIn, p);
    LeadsOn(c, s, es0 + es1, s1, es2, s2);
    assert Done(c, s2.got, p);
    var es3, s3 := Drain(c, s2);
    LeadsOn(c, s, es0 + es1 + es2, s2, es3, s3);
    assert Done(c, s3.got, p);
    forall j | 0 <= j < c.fanIn
      ensures CanFetch(c, s3.hosts[j], p)
    {
      assert CanFetch(c, s1.hosts[j], p);
    }
    var es4, s4 := FetchAll(c, s3, c.fanIn, p);
    LeadsOn(c, s, es0 + es1 + es2 + es3, s3, es4, s4);
    return es0 + es1 + es2 + es3 + es4, s4;
  }

  lemma CanSend(c: Config, s: System, j: nat, p: nat)
    requires Inv(c, s) && j < c.fanIn && CaughtUp(c, s, c.fanIn) && s.hosts[j].rcv >= p && p < PACKETS * c.messages
    ensures p in s.got[j] || s.hosts[j].acked <= p < Limit(c, s.hosts[j])
    ensures s.hosts[j].rcv == p ==> p < Limit(c, s.hosts[j])
  {
    var h := s.hosts[j];
    assert PortInv(c, s.got, j, h, s.up[j], s.down[j]);
    if h.rcv > p {
      assert Done(c, s.got, p);
    } else {
      NextIsPosted(c, h);
    }
  }

  lemma {:induction false} BringAll(c: Config, s: System, p: nat) returns (es: seq<Event>, t: System)
    requires Inv(c, s) && AllHave(c, s, p) && p <= PACKETS * c.messages
    ensures Leads(c, s, es, t) && Inv(c, t) && AllHave(c, t, PACKETS * c.messages)
    decreases PACKETS * c.messages - p
  {
    if p == PACKETS * c.messages {
      return [], s;
    }
    var fs, s1 := BringResult(c, s, p);
    var gs, u := BringAll(c, s1, p + 1);
    LeadsOn(c, s, fs, s1, gs, u);
    return fs + gs, u;
  }

  /** Progress: whatever happened so far, if every host holds the results before p and p was posted at
      all, a run without loss brings every host the result of p. */
  lemma OldestResultCanArrive(c: Config, past: seq<Event>, p: nat)
    requires ValidConfig(c) && !c.negatives && Legal(c, Init(c), past)
    requires AllHave(c, Run(c, Init(c), past), p) && p < PACKETS * c.messages
    ensures exists es :: LossFree(es) && Legal(c, Run(c, Init(c), past), es)
                      && AllHave(c, Run(c, Run(c, Init(c), past), es), p + 1)
  {
    InvInitially(c);
    RunKeepsInv(c, Init(c), past);
    var es, t := BringResult(c, Run(c, Init(c), past), p);
  }

  /** The collective has ended at host j: every message was polled and its result is in place. */
  ghost predicate Finished(c: Config, s: System, j: nat)
    requires ValidConfig(c) && Shaped(c, s) && j < c.fanIn
  {
    && s.hosts[j].polled == c.messages
    && forall q :: 0 <= q < PACKETS * c.messages ==> q in s.hosts[j].dst && s.hosts[j].dst[q] == TotalOf(c, q)
  }

  /** Every reachable state can be finished: there is a run without further loss after which every host's
      destination holds every global sum. */
  lemma CollectiveCanFinish(c: Config, past: seq<Event>)
    requires ValidConfig(c) && !c.negatives && Legal(c, Init(c), past)
    ensures exists es :: LossFree(es) && Legal(c, Run(c, Init(c), past), es)
                      && forall j :: 0 <= j < c.fanIn ==> Finished(c, Run(c, Run(c, Init(c), past), es), j)
  {
    InvInitially(c);
    RunKeepsInv(c, Init(c), past);
    var es, t := Finish(c, Run(c, Init(c), past));
  }

  lemma Finish(c: Config, s: System) returns (es: seq<Event>, t: System)
    requires Inv(c, s)
    ensures Leads(c, s, es, t) && forall j :: 0 <= j < c.fanIn ==> Finished(c, t, j)
  {
    var es0, s0 := BringAll(c, s, 0);
    var es1, s1 := Drain(c, s0);
    LeadsOn(c, s, es0, s0, es1, s1);
    var es2, s2 := CatchUpAll(c, s1, c.fanIn);
    LeadsOn(c, s, es0 + es1, s1, es2, s2);
    forall j | 0 <= j < c.fanIn
      ensures Finished(c, s2, j)
    {
      assert PortInv(c, s2.got, j, s2.hosts[j], s2.up[j], s2.down[j]);
      WithinWindow(c, s2.got, j, s2.hosts[j]);
    }
    return es0 + es1 + es2, s2;
  }
}
