/** Reduce: the senders other than the root are acknowledged on arrival and so run as far ahead of the root as they
    like.  Up to the size of the ring that does no harm; beyond it some run spoils the results.
 */
module ReduceRuns {
  import opened Words
  import opened Rings
  import opened Rules
  import opened SwitchMain
  import opened OutputStreams
  import opened OutputStreamSafety
  import opened StreamAlignment
  import opened StreamSkew
  import opened EndToEnd
  import HostApi

  // ----- Runs of switch, cards and loops, step by step

  lemma NoSteps(conns: seq<Connection>, srcs: seq<seq<Word>>, kind: Kind, w: Collective)
    requires Sized(conns, srcs, w)
    ensures Runs(conns, srcs, kind, w, [], w)
  {
  }

  lemma OneStep(conns: seq<Connection>, srcs: seq<seq<Word>>, kind: Kind, w: Collective, s: Step)
    requires Sized(conns, srcs, w) && Possible(conns, srcs, kind, w, s)
    ensures Runs(conns, srcs, kind, w, [s], Take(conns, srcs, kind, w, s))
  {
    assert [s][1..] == [];
    NoSteps(conns, srcs, kind, Take(conns, srcs, kind, w, s));
  }

  lemma {:induction false} AndThen(conns: seq<Connection>, srcs: seq<seq<Word>>, kind: Kind, w: Collective,
                                   ss: seq<Step>, v: Collective, s: Step)
    requires Sized(conns, srcs, w) && Runs(conns, srcs, kind, w, ss, v)
    requires Sized(conns, srcs, v) && Possible(conns, srcs, kind, v, s)
    ensures Runs(conns, srcs, kind, w, ss + [s], Take(conns, srcs, kind, v, s))
    decreases |ss|
  {
    hide Possible, Take;
    if ss == [] {
      OneStep(conns, srcs, kind, w, s);
      assert ss + [s] == [s];
    } else {
      AndThen(conns, srcs, kind, Take(conns, srcs, kind, w, ss[0]), ss[1..], v, s);
      assert (ss + [s])[1..] == ss[1..] + [s];
    }
  }

  function Wired(es: seq<Event>): (ss: seq<Step>)
    ensures |ss| == |es|
  {
    seq(|es|, k requires 0 <= k < |es| => Wire(es[k]))
  }

  /** Control packets pass through cards and loops as they are. */
  lemma {:induction false} ControlsRun(conns: seq<Connection>, srcs: seq<seq<Word>>, kind: Kind, w: Collective,
                                       es: seq<Event>, y: World)
    requires Sized(conns, srcs, w) && Leads(conns, N, w.x, es, y) && forall e :: e in es ==> e.Control?
    ensures Runs(conns, srcs, kind, w, Wired(es), w.(x := y))
    decreases |es|
  {
    hide Enabled, Apply;
    if es != [] {
      var v := Take(conns, srcs, kind, w, Wire(es[0]));
      ControlsRun(conns, srcs, kind, v, es[1..], y);
      assert Wired(es)[1..] == Wired(es[1..]);
    }
  }

  // ----- A sender within its window runs a ring ahead

  function Dones(c: nat): (cs: seq<HostApi.Completion>)
    ensures |cs| == c
  {
    seq(c, m requires 0 <= m < c => SendDoneOf(m))
  }

  lemma {:induction false} CountDones(c: nat)
    ensures HostApi.SendCount(Dones(c)) == c && HostApi.RecvCount(Dones(c)) == 0
  {
    if c > 0 {
      CountDones(c - 1);
      assert Dones(c)[..c - 1] == Dones(c - 1);
    }
  }

  /** The hosts' loops are in a Reduce to `root` of arrays of length len. */
  ghost predicate Reducing(conns: seq<Connection>, srcs: seq<seq<Word>>, len: nat, root: nat, w: Collective) {
    && Sized(conns, srcs, w) && ValidKind(|conns|, ToRoot(root)) && w.x.op == OpOf(srcs, len, ToRoot(root))
    && forall i :: 0 <= i < |conns| ==> |srcs[i]| == len
  }

  /** A card sends the next packet, if it belongs to a message that has been posted. */
  lemma CardSends(conns: seq<Connection>, srcs: seq<seq<Word>>, len: nat, root: nat, w: Collective, h: nat, g: nat)
    requires Reducing(conns, srcs, len, root, w) && MaySend(conns, w.x, h, g)
    requires w.x.done[h] < PACKETS * |PostedNow(conns, srcs, ToRoot(root), w, h)|
    ensures Possible(conns, srcs, ToRoot(root), w, Wire(Event.Packet(h, NextFrame(conns, w.x, h))))
  {
    hide PostedNow, PacketOf, HasSent;
    PostedIsScript(conns, srcs, len, root, w, h, w.x.done[h]);
  }

  lemma PostedIsScript(conns: seq<Connection>, srcs: seq<seq<Word>>, len: nat, root: nat, w: Collective, h: nat, j: nat)
    requires Reducing(conns, srcs, len, root, w) && h < |conns|
    requires j < PACKETS * |PostedNow(conns, srcs, ToRoot(root), w, h)|
    ensures j < Count(w.x.op)
    ensures PacketOf(PostedNow(conns, srcs, ToRoot(root), w, h), j) == Script(|conns|, w.x.op, h, j)
  {
    PostedPackets(srcs[h], |PostedNow(conns, srcs, ToRoot(root), w, h)|, j);
  }

  /** Sender f has sent m packets and looked at the completions of all full messages among them; the other loops have
      not looked at anything. */
  ghost predicate Racing(conns: seq<Connection>, srcs: seq<seq<Word>>, len: nat, root: nat, w: Collective,
                         v: Collective, f: nat, m: nat) {
    && Reducing(conns, srcs, len, root, w) && Reducing(conns, srcs, len, root, v) && Ahead(conns, w.x, v.x, f, m)
    && conns[f].peerId != root
    && forall i :: 0 <= i < |conns| ==> v.seen[i] == if i == f then Dones(m / PACKETS) else []
  }

  lemma RacerHasPosted(conns: seq<Connection>, srcs: seq<seq<Word>>, len: nat, root: nat, w: Collective, v: Collective,
                       f: nat, m: nat)
    requires Racing(conns, srcs, len, root, w, v, f, m) && m < PacketCount(len)
    ensures m < PACKETS * |PostedNow(conns, srcs, ToRoot(root), v, f)|
  {
    hide HasSent, Filled, Idle, Loose;
    assert m / PACKETS < HostApi.MessageNum(len);
    CountDones(m / PACKETS);
  }

  /** The packet that ends a message is acknowledged, and so the send completes. */
  lemma RacerPolls(conns: seq<Connection>, srcs: seq<seq<Word>>, len: nat, root: nat, w: Collective, v: Collective,
                   f: nat, m: nat) returns (u: Collective)
    requires Reducing(conns, srcs, len, root, w) && Reducing(conns, srcs, len, root, v)
    requires Ahead(conns, w.x, v.x, f, m + 1) && conns[f].peerId != root && (m + 1) % PACKETS == 0
    requires forall i :: 0 <= i < |conns| ==> v.seen[i] == if i == f then Dones(m / PACKETS) else []
    requires SwitchMain.Ack(f, w.x.ctx.aggEpsn[f] + m) in v.x.ctx.replies
    ensures Possible(conns, srcs, ToRoot(root), v, Polled(f, SendDoneOf(m / PACKETS)))
    ensures u == Take(conns, srcs, ToRoot(root), v, Polled(f, SendDoneOf(m / PACKETS)))
    ensures Racing(conns, srcs, len, root, w, u, f, m + 1)
  {
    hide HasSent, Filled, Idle;
    assert w.x.ctx.aggEpsn[f] + m >= v.x.base[f] + PACKETS * (m / PACKETS + 1);
    u := Take(conns, srcs, ToRoot(root), v, Polled(f, SendDoneOf(m / PACKETS)));
    assert Dones(m / PACKETS) + [SendDoneOf(m / PACKETS)] == Dones(m / PACKETS + 1);
  }

  lemma RaceStep(conns: seq<Connection>, srcs: seq<seq<Word>>, len: nat, root: nat, w: Collective, v: Collective,
                 f: nat, g: nat, m: nat) returns (u: Collective)
    requires Racing(conns, srcs, len, root, w, v, f, m) && g < |conns| && g != f && m < N && m < PacketCount(len)
    ensures MaySend(conns, v.x, f, g)
    ensures var e := Event.Packet(f, NextFrame(conns, v.x, f));
            && Possible(conns, srcs, ToRoot(root), v, Wire(e)) && u == Take(conns, srcs, ToRoot(root), v, Wire(e))
    ensures Reducing(conns, srcs, len, root, u) && Ahead(conns, w.x, u.x, f, m + 1) && u.seen == v.seen
    ensures SwitchMain.Ack(f, w.x.ctx.aggEpsn[f] + m) in u.x.ctx.replies
  {
    hide Apply, HasSent, Filled, Idle, OpOf, Possible, Loose, Ready;
    var z := AheadStep(conns, w.x, v.x, f, g, m);
    RacerHasPosted(conns, srcs, len, root, w, v, f, m);
    CardSends(conns, srcs, len, root, v, f, g);
    u := Take(conns, srcs, ToRoot(root), v, Wire(Event.Packet(f, NextFrame(conns, v.x, f))));
  }

  lemma {:induction false} ReachRacing(conns: seq<Connection>, srcs: seq<seq<Word>>, len: nat, root: nat, w: Collective,
                                       f: nat, g: nat, m: nat) returns (ss: seq<Step>, v: Collective)
    requires Reducing(conns, srcs, len, root, w) && Ready(conns, w.x) && f < |conns| && g < |conns| && f != g
    requires conns[f].peerId != root && m <= N && m <= PacketCount(len)
    requires forall i :: 0 <= i < |conns| ==> w.seen[i] == []
    ensures Runs(conns, srcs, ToRoot(root), w, ss, v) && Racing(conns, srcs, len, root, w, v, f, m)
  {
    hide Runs, Possible, Take, Ahead, Ready, HasSent;
    if m == 0 {
      NoSteps(conns, srcs, ToRoot(root), w);
      AheadInitially(conns, w.x, f);
      return [], w;
    }
    var fs, u := ReachRacing(conns, srcs, len, root, w, f, g, m - 1);
    v := RaceStep(conns, srcs, len, root, w, u, f, g, m - 1);
    AndThen(conns, srcs, ToRoot(root), w, fs, u, Wire(Event.Packet(f, NextFrame(conns, u.x, f))));
    ss := fs + [Wire(Event.Packet(f, NextFrame(conns, u.x, f)))];
    if m % PACKETS == 0 {
      var t := RacerPolls(conns, srcs, len, root, w, v, f, m - 1);
      AndThen(conns, srcs, ToRoot(root), w, ss, v, Polled(f, SendDoneOf((m - 1) / PACKETS)));
      return ss + [Polled(f, SendDoneOf((m - 1) / PACKETS))], t;
    }
  }

  // ----- The slot of packet 0 fills up

  /** Sender f is a ring ahead and has overtaken; of the others those before p, except the root, have sent a packet. */
  ghost predicate Passed(conns: seq<Connection>, srcs: seq<seq<Word>>, len: nat, root: nat, x: World, v: Collective,
                         f: nat, g: nat, p: nat) {
    && Reducing(conns, srcs, len, root, v) && Overtaken(conns, x, v.x, f, g, p)
    && forall i :: 0 <= i < |conns| && i != f ==> v.seen[i] == []
  }

  lemma PassStep(conns: seq<Connection>, srcs: seq<seq<Word>>, len: nat, root: nat, x: World, v: Collective,
                 f: nat, g: nat, p: nat) returns (u: Collective)
    requires Passed(conns, srcs, len, root, x, v, f, g, p) && p < |conns| && 0 < PacketCount(len)
    requires !PassedOver(|conns|, f, g, p)
    ensures MaySend(conns, v.x, p, g)
    ensures var e := Event.Packet(p, NextFrame(conns, v.x, p));
            && Possible(conns, srcs, ToRoot(root), v, Wire(e)) && u == Take(conns, srcs, ToRoot(root), v, Wire(e))
    ensures Passed(conns, srcs, len, root, x, u, f, g, p + 1)
  {
    hide Apply, HasSent, OpOf, Possible, Overtaken, Ready;
    assert x.op == v.x.op by { SameOperation(conns, x, v.x, f, g, p); }
    var z := OvertakenStep(conns, x, v.x, f, g, p);
    CardSends(conns, srcs, len, root, v, p, g);
    u := Take(conns, srcs, ToRoot(root), v, Wire(Event.Packet(p, NextFrame(conns, v.x, p))));
    StillWaiting(conns, v.x, p, g);
  }

  lemma SameOperation(conns: seq<Connection>, x: World, y: World, f: nat, g: nat, p: nat)
    requires Overtaken(conns, x, y, f, g, p) && !PassedOver(|conns|, f, g, p)
    ensures x.op == y.op
  {
  }

  lemma FirstPass(conns: seq<Connection>, srcs: seq<seq<Word>>, len: nat, root: nat, w: Collective, v: Collective,
                  f: nat, g: nat) returns (u: Collective)
    requires Racing(conns, srcs, len, root, w, v, f, N) && g < |conns| && g != f && N < PacketCount(len)
    ensures MaySend(conns, v.x, f, g)
    ensures var e := Event.Packet(f, NextFrame(conns, v.x, f));
            && Possible(conns, srcs, ToRoot(root), v, Wire(e)) && u == Take(conns, srcs, ToRoot(root), v, Wire(e))
    ensures Passed(conns, srcs, len, root, w.x, u, f, g, 0)
  {
    hide Apply, HasSent, OpOf, Possible, Overtaken, Ready, Filled;
    var z := OvertakeStep(conns, w.x, v.x, f, g);
    AheadMaySend(conns, w.x, v.x, f, g, N);
    RacerHasPosted(conns, srcs, len, root, w, v, f, N);
    CardSends(conns, srcs, len, root, v, f, g);
    u := Take(conns, srcs, ToRoot(root), v, Wire(Event.Packet(f, NextFrame(conns, v.x, f))));
    StillWaiting(conns, v.x, f, g);
  }

  lemma {:induction false} ReachPassed(conns: seq<Connection>, srcs: seq<seq<Word>>, len: nat, root: nat, w: Collective,
                                       f: nat, g: nat, p: nat) returns (ss: seq<Step>, v: Collective)
    requires Reducing(conns, srcs, len, root, w) && Ready(conns, w.x) && f < |conns| && g < |conns| && f != g
    requires conns[f].peerId != root && N < PacketCount(len) && p <= |conns|
    requires forall i :: 0 <= i < |conns| ==> w.seen[i] == []
    ensures Runs(conns, srcs, ToRoot(root), w, ss, v) && Passed(conns, srcs, len, root, w.x, v, f, g, p)
  {
    hide Runs, Possible, Take, Ahead, Ready, HasSent, Overtaken;
    if p == 0 {
      var fs, u := ReachRacing(conns, srcs, len, root, w, f, g, N);
      v := FirstPass(conns, srcs, len, root, w, u, f, g);
      AndThen(conns, srcs, ToRoot(root), w, fs, u, Wire(Event.Packet(f, NextFrame(conns, u.x, f))));
      return fs + [Wire(Event.Packet(f, NextFrame(conns, u.x, f)))], v;
    }
    var fs, u := ReachPassed(conns, srcs, len, root, w, f, g, p - 1);
    if PassedOver(|conns|, f, g, p - 1) {
      var z := OvertakenStep(conns, w.x, u.x, f, g, p - 1);
      return fs, u;
    }
    v := PassStep(conns, srcs, len, root, w.x, u, f, g, p - 1);
    AndThen(conns, srcs, ToRoot(root), w, fs, u, Wire(Event.Packet(p - 1, NextFrame(conns, u.x, p - 1))));
    ss := fs + [Wire(Event.Packet(p - 1, NextFrame(conns, u.x, p - 1)))];
  }

  // ----- From the beginning of the Reduce

  lemma {:induction false} RunsOn(conns: seq<Connection>, srcs: seq<seq<Word>>, kind: Kind, w: Collective,
                                  ss: seq<Step>, v: Collective, ts: seq<Step>, u: Collective)
    requires Sized(conns, srcs, w) && Runs(conns, srcs, kind, w, ss, v)
    requires Sized(conns, srcs, v) && Runs(conns, srcs, kind, v, ts, u)
    ensures Runs(conns, srcs, kind, w, ss + ts, u)
    decreases |ss|
  {
    hide Possible, Take;
    if ss == [] {
      assert ss + ts == ts;
    } else {
      RunsOn(conns, srcs, kind, Take(conns, srcs, kind, w, ss[0]), ss[1..], v, ts, u);
      assert (ss + ts)[1..] == ss[1..] + ts;
    }
  }

  lemma RootConn(conns: seq<Connection>, root: nat) returns (g: nat, f: nat)
    requires ValidWiring(conns) && root < |conns| && |conns| >= 2
    ensures g < |conns| && f < |conns| && f != g && conns[f].peerId != root
  {
    RootIsConnId(conns, |conns|, root);
    g := ConnForRank(conns, root);
    f := if g == 0 then 1 else 0;
    TargetIsRoot(conns, root, f);
    TargetIsRoot(conns, root, g);
    SwitchAgreesWithController(conns, |conns|, root);
  }

  /** All loops run, every sender within its window, and yet a sender that has had 75 messages acknowledged puts the
      first packet of the next into the slot where packet 0 still waits for the root's. */
  lemma OvertakingReduce(conns: seq<Connection>, x: World, srcs: seq<seq<Word>>, len: nat, root: nat, w: Collective)
    returns (ss: seq<Step>, v: Collective)
    requires Begins(conns, x, srcs, len, ToRoot(root), w) && Sized(conns, srcs, w)
    requires |conns| >= 2 && N < PacketCount(len)
    requires forall i :: 0 <= i < |conns| ==> x.ctx.aggEpsn[i] + 1 + N < PSN_SPACE
    ensures Runs(conns, srcs, ToRoot(root), w, ss, v) && Sized(conns, srcs, v) && !StreamsRight(conns, v.x)
  {
    hide Apply, SlotsInv, Informed, Within, HasSent, Runs, StreamsRight, Ready, Overtaken;
    var op := OpOf(srcs, len, ToRoot(root));
    assert w.x == Begin(x, op) by { BeginsAnew(conns, x, srcs, len, root, w); }
    var es, y := ReachControlled(conns, N, w.x, |conns|);
    ControlsRun(conns, srcs, ToRoot(root), w, es, y);
    ControlledIsReady(conns, x, op, y);
    var g, f := RootConn(conns, root);
    var u := w.(x := y);
    var ts;
    ts, v := ReachPassed(conns, srcs, len, root, u, f, g, |conns|);
    OvertakenIsWrong(conns, y, v.x, f, g);
    RunsOn(conns, srcs, ToRoot(root), w, Wired(es), u, ts, v);
    ss := Wired(es) + ts;
  }

  lemma BeginsAnew(conns: seq<Connection>, x: World, srcs: seq<seq<Word>>, len: nat, root: nat, w: Collective)
    requires Begins(conns, x, srcs, len, ToRoot(root), w)
    ensures w.x == Begin(x, OpOf(srcs, len, ToRoot(root)))
  {
  }

  /** Whatever switch, cards and loops do, the streams stay right. */
  ghost predicate AlwaysRightTogether(conns: seq<Connection>, srcs: seq<seq<Word>>, kind: Kind, w: Collective)
    requires Sized(conns, srcs, w)
  {
    forall ss, v :: Sized(conns, srcs, v) && Runs(conns, srcs, kind, w, ss, v) ==> StreamsRight(conns, v.x)
  }

  /** A Reduce whose hosts all run their loops is right in every run if and only if the arrays are at most 75 messages
      long, as many as the ring has room for, or there is only one host. */
  lemma ReduceIsRightIff(conns: seq<Connection>, x: World, srcs: seq<seq<Word>>, len: nat, root: nat, w: Collective)
    requires Begins(conns, x, srcs, len, ToRoot(root), w) && Sized(conns, srcs, w)
    requires forall i :: 0 <= i < |conns| ==> x.ctx.aggEpsn[i] + 1 + N < PSN_SPACE
    ensures AlwaysRightTogether(conns, srcs, ToRoot(root), w) <==> len <= 75 * HostApi.PAYLOAD_COUNT || |conns| == 1
  {
    hide Runs, StreamsRight, Begins, Inv;
    if len <= 75 * HostApi.PAYLOAD_COUNT || |conns| == 1 {
      forall ss, v | Sized(conns, srcs, v) && Runs(conns, srcs, ToRoot(root), w, ss, v)
        ensures StreamsRight(conns, v.x)
      {
        BeginsTogether(conns, x, srcs, len, ToRoot(root), w);
        RunKeepsTogether(conns, srcs, len, ToRoot(root), w, ss, v);
        InvIsRight(conns, v.x);
      }
    } else {
      var ss, v := OvertakingReduce(conns, x, srcs, len, root, w);
    }
  }

  /** An AllReduce is right in every run, whatever its length. */
  lemma AllReduceIsRight(conns: seq<Connection>, x: World, srcs: seq<seq<Word>>, len: nat, w: Collective)
    requires Begins(conns, x, srcs, len, ToAll, w) && Sized(conns, srcs, w)
    ensures AlwaysRightTogether(conns, srcs, ToAll, w)
  {
    hide Runs, StreamsRight, Begins, Inv;
    forall ss, v | Sized(conns, srcs, v) && Runs(conns, srcs, ToAll, w, ss, v)
      ensures StreamsRight(conns, v.x)
    {
      BeginsTogether(conns, x, srcs, len, ToAll, w);
      RunKeepsTogether(conns, srcs, len, ToAll, w, ss, v);
      InvIsRight(conns, v.x);
    }
  }

  /** The very first operation of a fresh switch is a Reduce of more than 75 messages, and goes wrong. */
  lemma FirstReduceGoesWrong(conns: seq<Connection>, srcs: seq<seq<Word>>, len: nat, root: nat)
    returns (w: Collective, ss: seq<Step>, v: Collective)
    requires ValidWiring(conns) && |conns| >= 2 && |srcs| == |conns| && root < |conns|
    requires SameLength(srcs, len) && len > 75 * HostApi.PAYLOAD_COUNT
    ensures Begins(conns, Start(conns), srcs, len, ToRoot(root), w) && Sized(conns, srcs, w)
    ensures Runs(conns, srcs, ToRoot(root), w, ss, v) && Sized(conns, srcs, v) && !StreamsRight(conns, v.x)
  {
    hide Runs, StreamsRight, SlotsInv, Informed, HasSent;
    InvInitially(conns);
    w := Collective(Apply(conns, Start(conns), Next(OpOf(srcs, len, ToRoot(root)))), seq(|conns|, i => []));
    ss, v := OvertakingReduce(conns, Start(conns), srcs, len, root, w);
  }
}
