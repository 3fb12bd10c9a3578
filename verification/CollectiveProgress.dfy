/** The refactored switch with cards and loops does not get stuck: whatever has happened, the operation can be finished,
    so that everybody who awaits results has them.
 */
module CollectiveProgress {
  import opened Words
  import opened Rings
  import opened Rules
  import opened SwitchMain
  import opened OutputStreams
  import opened OutputStreamSafety
  import opened StreamAlignment
  import opened EndToEnd
  import HostApi
  import ReduceRuns

  /** The operation is going on, and its packets' numbers are below 2^24. */
  ghost predicate GoingOn(conns: seq<Connection>, srcs: seq<seq<Word>>, len: nat, kind: Kind, w: Collective) {
    && Together(conns, srcs, len, kind, w) && RingSuffices(|conns|, len, kind)
    && forall i :: 0 <= i < |conns| ==> w.x.base[i] + 1 + PacketCount(len) < PSN_SPACE
  }

  /** All packets have been accepted, and the loops that await results have looked at all of them. */
  ghost predicate AllDone(conns: seq<Connection>, len: nat, kind: Kind, w: Collective)
    requires |w.x.started| == |w.x.done| == |w.seen| == |conns|
  {
    forall i :: 0 <= i < |conns| ==>
      && w.x.started[i] && w.x.done[i] == PacketCount(len)
      && (AwaitsResults(conns, kind, i) ==> HostApi.RecvCount(w.seen[i]) == HostApi.MessageNum(len))
  }

  // ----- How much there is left to do

  function Left(a: nat, b: nat): nat {
    if a < b then b - a else 0
  }

  /** What a host has left to do: its control packet, packets, postings and receives. */
  function HostWork(src: seq<Word>, awaits: bool, started: bool, done: nat, seen: seq<HostApi.Completion>): nat {
    (if started then 0 else 1) + Left(done, PacketCount(|src|))
    + Left(|PostedBy(src, awaits, seen)|, HostApi.MessageNum(|src|))
    + if awaits then Left(HostApi.RecvCount(seen), HostApi.MessageNum(|src|)) else 0
  }

  ghost function WorkOf(conns: seq<Connection>, srcs: seq<seq<Word>>, kind: Kind, w: Collective, i: nat): nat
    requires Sized(conns, srcs, w) && i < |conns|
  {
    HostWork(srcs[i], AwaitsResults(conns, kind, i), w.x.started[i], w.x.done[i], w.seen[i])
  }

  ghost function Work(conns: seq<Connection>, srcs: seq<seq<Word>>, kind: Kind, w: Collective, k: nat): nat
    requires Sized(conns, srcs, w) && k <= |conns|
  {
    if k == 0 then 0 else Work(conns, srcs, kind, w, k - 1) + WorkOf(conns, srcs, kind, w, k - 1)
  }

  lemma {:induction false} LessWork(conns: seq<Connection>, srcs: seq<seq<Word>>, kind: Kind, w: Collective,
                                    v: Collective, i: nat, k: nat)
    requires Sized(conns, srcs, w) && Sized(conns, srcs, v) && i < |conns| && k <= |conns|
    requires WorkOf(conns, srcs, kind, v, i) < WorkOf(conns, srcs, kind, w, i)
    requires forall h :: 0 <= h < |conns| && h != i ==>
               v.x.started[h] == w.x.started[h] && v.x.done[h] == w.x.done[h] && v.seen[h] == w.seen[h]
    ensures Work(conns, srcs, kind, v, k) <= Work(conns, srcs, kind, w, k)
    ensures i < k ==> Work(conns, srcs, kind, v, k) < Work(conns, srcs, kind, w, k)
  {
    hide HostWork, ValidWiring;
    if k > 0 {
      LessWork(conns, srcs, kind, w, v, i, k - 1);
    }
  }

  // ----- One step

  /** A step, after which things go on with less to do. */
  ghost predicate Advances(conns: seq<Connection>, srcs: seq<seq<Word>>, len: nat, kind: Kind, w: Collective, s: Step,
                           v: Collective, i: nat) {
    && GoingOn(conns, srcs, len, kind, w) && GoingOn(conns, srcs, len, kind, v) && i < |conns|
    && Sized(conns, srcs, w) && Possible(conns, srcs, kind, w, s) && v == Take(conns, srcs, kind, w, s)
    && (forall h :: 0 <= h < |conns| && h != i ==>
          v.x.started[h] == w.x.started[h] && v.x.done[h] == w.x.done[h] && v.seen[h] == w.seen[h])
  }

  lemma StepGoesOn(conns: seq<Connection>, srcs: seq<seq<Word>>, len: nat, kind: Kind, w: Collective, s: Step)
    requires GoingOn(conns, srcs, len, kind, w) && Possible(conns, srcs, kind, w, s)
    ensures Sized(conns, srcs, Take(conns, srcs, kind, w, s))
    ensures GoingOn(conns, srcs, len, kind, Take(conns, srcs, kind, w, s))
  {
    hide Inv, Handle, FromCard, Enabled;
    TakeKeepsTogether(conns, srcs, len, kind, w, s);
  }

  /** Host i's control packet arrives. */
  lemma Starts(conns: seq<Connection>, srcs: seq<seq<Word>>, len: nat, kind: Kind, w: Collective, i: nat)
    returns (s: Step, v: Collective)
    requires GoingOn(conns, srcs, len, kind, w) && i < |conns| && !w.x.started[i]
    ensures Advances(conns, srcs, len, kind, w, s, v, i)
    ensures WorkOf(conns, srcs, kind, v, i) < WorkOf(conns, srcs, kind, w, i)
  {
    hide SlotsInv, HasSent, Within, Informed, Handle, PostedBy;
    s := Wire(Control(i, ControlFrame(w.x.op, w.x.ctx.aggEpsn[i])));
    assert Progress(w.x, i);
    v := Take(conns, srcs, kind, w, s);
    StepGoesOn(conns, srcs, len, kind, w, s);
  }

  /** The card of host i sends the next packet. */
  lemma Sends(conns: seq<Connection>, srcs: seq<seq<Word>>, len: nat, kind: Kind, w: Collective, i: nat)
    returns (s: Step, v: Collective)
    requires GoingOn(conns, srcs, len, kind, w) && i < |conns| && w.x.started[i] && w.x.done[i] < PacketCount(len)
    requires w.x.done[i] < PACKETS * |PostedBy(srcs[i], AwaitsResults(conns, kind, i), w.seen[i])|
    ensures Advances(conns, srcs, len, kind, w, s, v, i)
    ensures WorkOf(conns, srcs, kind, v, i) < WorkOf(conns, srcs, kind, w, i)
  {
    hide SlotsInv, HasSent, Within, Informed, Handle, PostedBy, PacketOf;
    var j, posted := w.x.done[i], PostedNow(conns, srcs, kind, w, i);
    var data := PacketOf(posted, j);
    var f := Frame(OpcodeAt(j), w.x.ctx.aggEpsn[i], 0, 0, 4 * |data|, data);
    assert Progress(w.x, i);
    s := Wire(Event.Packet(i, f));
    v := Take(conns, srcs, kind, w, s);
    StepGoesOn(conns, srcs, len, kind, w, s);
  }

  // ----- Completions that have not been looked at

  /** The requests that receives, or sends, have completed. */
  function Requests(seen: seq<HostApi.Completion>, receives: bool): (r: set<nat>)
    ensures |r| <= if receives then HostApi.RecvCount(seen) else HostApi.SendCount(seen)
    ensures forall c :: c in seen && receives && c.Recv? ==> c.idx in r
    ensures forall c :: c in seen && !receives && c.SendDone? ==> c.id in r
  {
    if seen == [] then {}
    else
      var last := seen[|seen| - 1];
      assert forall c :: c in seen ==> c == last || c in seen[..|seen| - 1];
      var front := Requests(seen[..|seen| - 1], receives);
      if receives && last.Recv? then front + {last.idx}
      else if !receives && last.SendDone? then front + {last.id}
      else front
  }

  lemma Another(who: set<nat>, n: nat) returns (m: nat)
    requires |who| < n
    ensures m < n && m !in who
  {
    var known := who * Ports(n);
    assert who == known + (who - known);
    AllPorts(n, known);
    assert known != Ports(n);
    m :| m in Ports(n) && m !in known;
  }

  // ----- A receive

  lemma ResultHasArrived(conns: seq<Connection>, srcs: seq<seq<Word>>, len: nat, kind: Kind, w: Collective, i: nat,
                         m: nat)
    requires Together(conns, srcs, len, kind, w) && i < |conns| && AwaitsResults(conns, kind, i)
    requires PACKETS * (m + 1) <= w.x.complete
    ensures var stream, from := Payloads(w.x.ctx.out[i]), |OwedByAll(conns, w.x.past, i)|;
            from + PACKETS * (m + 1) <= |stream| && Reassembled(stream, from, m) == ResultMessage(srcs, m)
  {
    hide SlotsInv, Informed, Within, HasSent, Progress, ResultMessage, ResultsSeen, Owed, OwedByAll;
    StreamNow(conns, w.x, i);
    StreamTail(conns, OwedByAll(conns, w.x.past, i), srcs, len, kind, w.x.complete, i, Payloads(w.x.ctx.out[i]));
    StreamMessage(conns, OwedByAll(conns, w.x.past, i), srcs, len, kind, w.x.complete, i, Payloads(w.x.ctx.out[i]), m);
  }

  lemma OneMoreReceive(src: seq<Word>, seen: seq<HostApi.Completion>, m: nat, data: Payload, started: bool, done: nat)
    requires HostApi.RecvCount(seen) < HostApi.MessageNum(|src|)
    ensures HostWork(src, true, started, done, seen + [HostApi.Recv(m, data)])
          < HostWork(src, true, started, done, seen)
  {
    assert (seen + [HostApi.Recv(m, data)])[..|seen|] == seen;
  }

  lemma MayLookAt(conns: seq<Connection>, srcs: seq<seq<Word>>, len: nat, kind: Kind, w: Collective, i: nat, m: nat)
    requires Together(conns, srcs, len, kind, w) && i < |conns| && AwaitsResults(conns, kind, i)
    requires PACKETS * (m + 1) <= w.x.complete && m !in Requests(w.seen[i], true)
    ensures Possible(conns, srcs, kind, w, Polled(i, HostApi.Recv(m, ResultMessage(srcs, m))))
    ensures m < HostApi.MessageNum(len)
  {
    hide SlotsInv, HasSent, Within, Informed, ResultMessage, Reassembled, OwedByAll, ResultsSeen, Progress;
    ResultHasArrived(conns, srcs, len, kind, w, i, m);
    assert forall k :: 0 <= k < |w.seen[i]| ==> w.seen[i][k] in w.seen[i];
  }

  /** A loop that awaits results looks at one that has been sent. */
  lemma LooksAt(conns: seq<Connection>, srcs: seq<seq<Word>>, len: nat, kind: Kind, w: Collective, i: nat)
    returns (s: Step, v: Collective)
    requires GoingOn(conns, srcs, len, kind, w) && i < |conns| && AwaitsResults(conns, kind, i)
    requires HostApi.RecvCount(w.seen[i]) < w.x.complete / PACKETS
    ensures Advances(conns, srcs, len, kind, w, s, v, i)
    ensures WorkOf(conns, srcs, kind, v, i) < WorkOf(conns, srcs, kind, w, i)
  {
    hide SlotsInv, HasSent, Informed, Within, Progress, ResultsSeen, ResultMessage, HostWork, OpOf, Possible;
    var m := Another(Requests(w.seen[i], true), w.x.complete / PACKETS);
    MayLookAt(conns, srcs, len, kind, w, i, m);
    s := Polled(i, HostApi.Recv(m, ResultMessage(srcs, m)));
    v := Take(conns, srcs, kind, w, s);
    StepGoesOn(conns, srcs, len, kind, w, s);
    CompleteWithin(conns, srcs, len, kind, w);
    OneMoreReceive(srcs[i], w.seen[i], m, ResultMessage(srcs, m), w.x.started[i], w.x.done[i]);
  }

  lemma CompleteWithin(conns: seq<Connection>, srcs: seq<seq<Word>>, len: nat, kind: Kind, w: Collective)
    requires Together(conns, srcs, len, kind, w)
    ensures w.x.complete <= PACKETS * HostApi.MessageNum(len)
  {
    hide SlotsInv, HasSent, Informed, ResultsSeen;
  }

  // ----- A send completion of a Reduce's sender

  /** The card sends a packet again that the switch has accepted; the switch says how far it has got. */
  lemma AsksAgain(conns: seq<Connection>, srcs: seq<seq<Word>>, len: nat, kind: Kind, w: Collective, i: nat, j: nat)
    returns (s: Step, v: Collective)
    requires GoingOn(conns, srcs, len, kind, w) && i < |conns| && w.x.started[i] && j < w.x.done[i] <= PacketCount(len)
    requires j < PACKETS * |PostedBy(srcs[i], AwaitsResults(conns, kind, i), w.seen[i])|
    ensures Advances(conns, srcs, len, kind, w, s, v, i)
    ensures v == w.(x := v.x) && v.x == w.x.(ctx := v.x.ctx)
    ensures SwitchMain.Ack(i, w.x.base[i] + w.x.done[i]) in v.x.ctx.replies
  {
    hide SlotsInv, HasSent, Within, Handle, PostedBy, PacketOf, HostWork, OpOf;
    assert Progress(w.x, i) && Informed(conns, w.x);
    var data := PacketOf(PostedNow(conns, srcs, kind, w, i), j);
    var f := Frame(OpcodeAt(j), w.x.base[i] + 1 + j, 0, 0, 4 * |data|, data);
    s := Wire(Event.Packet(i, f));
    v := Take(conns, srcs, kind, w, s);
    DataIsAnswered(conns, w.x.ctx, w.x.op, i, f);
    StepGoesOn(conns, srcs, len, kind, w, s);
  }

  lemma OneMoreSend(src: seq<Word>, seen: seq<HostApi.Completion>, m: nat, started: bool, done: nat)
    requires |PostedBy(src, false, seen)| < HostApi.MessageNum(|src|)
    ensures HostWork(src, false, started, done, seen + [SendDoneOf(m)]) < HostWork(src, false, started, done, seen)
    ensures HostApi.SendCount(seen) + HostApi.WINDOW == |PostedBy(src, false, seen)|
  {
    assert (seen + [SendDoneOf(m)])[..|seen|] == seen;
  }

  /** All posted messages having been accepted, the send of one completes, and the next is posted. */
  lemma Completes(conns: seq<Connection>, srcs: seq<seq<Word>>, len: nat, kind: Kind, w: Collective, i: nat)
    returns (s: Step, v: Collective)
    requires GoingOn(conns, srcs, len, kind, w) && i < |conns| && !AwaitsResults(conns, kind, i)
    requires PACKETS * |PostedBy(srcs[i], false, w.seen[i])| <= w.x.done[i] < PacketCount(len)
    requires SwitchMain.Ack(i, w.x.base[i] + w.x.done[i]) in w.x.ctx.replies
    ensures Advances(conns, srcs, len, kind, w, s, v, i)
    ensures WorkOf(conns, srcs, kind, v, i) < WorkOf(conns, srcs, kind, w, i)
  {
    hide SlotsInv, HasSent, Informed, Within, Progress, ResultsSeen, HostWork, OpOf, PostedBy;
    var posted := |PostedBy(srcs[i], false, w.seen[i])|;
    OneMoreSend(srcs[i], w.seen[i], 0, w.x.started[i], w.x.done[i]);
    var m := Another(Requests(w.seen[i], false), posted);
    OneMoreSend(srcs[i], w.seen[i], m, w.x.started[i], w.x.done[i]);
    s := Polled(i, SendDoneOf(m));
    assert Acknowledged(conns, w, i, m);
    v := Take(conns, srcs, kind, w, s);
    StepGoesOn(conns, srcs, len, kind, w, s);
  }

  // ----- There is always something to do

  /** The run from w to v leaves less to do. */
  ghost predicate Shortens(conns: seq<Connection>, srcs: seq<seq<Word>>, len: nat, kind: Kind, w: Collective,
                           ss: seq<Step>, v: Collective) {
    && GoingOn(conns, srcs, len, kind, w) && GoingOn(conns, srcs, len, kind, v)
    && Sized(conns, srcs, w) && Runs(conns, srcs, kind, w, ss, v)
    && Work(conns, srcs, kind, v, |conns|) < Work(conns, srcs, kind, w, |conns|)
  }

  lemma ByOne(conns: seq<Connection>, srcs: seq<seq<Word>>, len: nat, kind: Kind, w: Collective, s: Step,
              v: Collective, i: nat)
    requires Advances(conns, srcs, len, kind, w, s, v, i)
    requires WorkOf(conns, srcs, kind, v, i) < WorkOf(conns, srcs, kind, w, i)
    ensures Shortens(conns, srcs, len, kind, w, [s], v)
  {
    hide WorkOf, Work, Inv, Possible, Take;
    ReduceRuns.OneStep(conns, srcs, kind, w, s);
    LessWork(conns, srcs, kind, w, v, i, |conns|);
  }

  lemma ByTwo(conns: seq<Connection>, srcs: seq<seq<Word>>, len: nat, kind: Kind, w: Collective, s: Step, u: Collective,
              t: Step, v: Collective, i: nat)
    requires Advances(conns, srcs, len, kind, w, s, u, i) && Advances(conns, srcs, len, kind, u, t, v, i)
    requires WorkOf(conns, srcs, kind, v, i) < WorkOf(conns, srcs, kind, w, i)
    ensures Shortens(conns, srcs, len, kind, w, [s] + [t], v)
  {
    hide WorkOf, Work, Inv, Possible, Take;
    ReduceRuns.OneStep(conns, srcs, kind, w, s);
    ReduceRuns.AndThen(conns, srcs, kind, w, [s], u, t);
    LessWork(conns, srcs, kind, w, v, i, |conns|);
  }

  /** A sender of a Reduce whose posted messages have all been accepted. */
  lemma SenderGoesOn(conns: seq<Connection>, srcs: seq<seq<Word>>, len: nat, kind: Kind, w: Collective, i: nat)
    returns (ss: seq<Step>, v: Collective)
    requires GoingOn(conns, srcs, len, kind, w) && i < |conns| && !AwaitsResults(conns, kind, i) && w.x.started[i]
    requires PACKETS * |PostedBy(srcs[i], false, w.seen[i])| <= w.x.done[i] < PacketCount(len)
    ensures Shortens(conns, srcs, len, kind, w, ss, v)
  {
    hide Inv, PostedBy, HostWork, Possible, Take;
    var posted := |PostedBy(srcs[i], false, w.seen[i])|;
    assert posted > 0 by { OneMorePosted(srcs[i], w.seen[i]); }
    var s, u := AsksAgain(conns, srcs, len, kind, w, i, PACKETS * posted - 1);
    var t;
    t, v := Completes(conns, srcs, len, kind, u, i);
    ByTwo(conns, srcs, len, kind, w, s, u, t, v, i);
    ss := [s] + [t];
  }

  lemma OneMorePosted(src: seq<Word>, seen: seq<HostApi.Completion>)
    requires HostApi.MessageNum(|src|) > 0
    ensures |PostedBy(src, false, seen)| > 0
  {
  }

  /** The loops that await results have looked at all that are complete, and have posted what comes next. */
  lemma NextIsPosted(src: seq<Word>, seen: seq<HostApi.Completion>, complete: nat)
    requires HostApi.RecvCount(seen) == complete / PACKETS && complete < PacketCount(|src|)
    ensures complete < PACKETS * |PostedBy(src, true, seen)|
  {
  }

  /** Somebody is at the oldest incomplete packet, or everybody has finished. */
  lemma SomebodyIsLast(conns: seq<Connection>, srcs: seq<seq<Word>>, len: nat, kind: Kind, w: Collective)
    returns (i: nat)
    requires Together(conns, srcs, len, kind, w)
    ensures i < |conns| && w.x.done[i] == w.x.complete <= PacketCount(len)
    ensures w.x.complete == PacketCount(len) ==> forall h :: 0 <= h < |conns| ==> w.x.done[h] == PacketCount(len)
  {
    hide SlotsInv, HasSent, Informed, Progress, ResultsSeen;
    i :| 0 <= i < |w.x.done| && Participates(w.x.op, i) && w.x.done[i] == w.x.complete;
    assert forall h :: 0 <= h < |conns| ==> Participates(w.x.op, h);
  }

  /** The host that is last delivers its next packet, or posts the next message. */
  lemma LastGoesOn(conns: seq<Connection>, srcs: seq<seq<Word>>, len: nat, kind: Kind, w: Collective, i: nat)
    returns (ss: seq<Step>, v: Collective)
    requires GoingOn(conns, srcs, len, kind, w) && i < |conns| && w.x.started[i]
    requires w.x.done[i] == w.x.complete < PacketCount(len)
    requires AwaitsResults(conns, kind, i) ==> HostApi.RecvCount(w.seen[i]) == w.x.complete / PACKETS
    ensures Shortens(conns, srcs, len, kind, w, ss, v)
  {
    hide SlotsInv, HasSent, Informed, Within, Progress, ResultsSeen, PostedBy, HostWork, Possible, Take, Shortens;
    if w.x.done[i] < PACKETS * |PostedBy(srcs[i], AwaitsResults(conns, kind, i), w.seen[i])| {
      var s;
      s, v := Sends(conns, srcs, len, kind, w, i);
      ByOne(conns, srcs, len, kind, w, s, v, i);
      ss := [s];
    } else {
      if AwaitsResults(conns, kind, i) {
        NextIsPosted(srcs[i], w.seen[i], w.x.complete);
      }
      ss, v := SenderGoesOn(conns, srcs, len, kind, w, i);
    }
  }

  lemma SomethingToDo(conns: seq<Connection>, srcs: seq<seq<Word>>, len: nat, kind: Kind, w: Collective)
    returns (ss: seq<Step>, v: Collective)
    requires GoingOn(conns, srcs, len, kind, w) && Sized(conns, srcs, w) && !AllDone(conns, len, kind, w)
    ensures Shortens(conns, srcs, len, kind, w, ss, v)
  {
    hide Inv, Possible, Take, Shortens, Advances, WorkOf;
    if i :| 0 <= i < |conns| && !w.x.started[i] {
      var s;
      s, v := Starts(conns, srcs, len, kind, w, i);
      ByOne(conns, srcs, len, kind, w, s, v, i);
      return [s], v;
    }
    if i :| 0 <= i < |conns| && AwaitsResults(conns, kind, i)
            && HostApi.RecvCount(w.seen[i]) < w.x.complete / PACKETS {
      var s;
      s, v := LooksAt(conns, srcs, len, kind, w, i);
      ByOne(conns, srcs, len, kind, w, s, v, i);
      return [s], v;
    }
    forall i | 0 <= i < |conns| && AwaitsResults(conns, kind, i)
      ensures HostApi.RecvCount(w.seen[i]) == w.x.complete / PACKETS
    {
      ReceivesAreComplete(srcs, len, w.x.complete, w.seen[i]);
    }
    var last := SomebodyIsLast(conns, srcs, len, kind, w);
    ss, v := LastGoesOn(conns, srcs, len, kind, w, last);
  }

  lemma {:induction false} Finish(conns: seq<Connection>, srcs: seq<seq<Word>>, len: nat, kind: Kind, w: Collective)
    returns (ss: seq<Step>, v: Collective)
    requires GoingOn(conns, srcs, len, kind, w) && Sized(conns, srcs, w)
    ensures Sized(conns, srcs, v) && Runs(conns, srcs, kind, w, ss, v)
    ensures GoingOn(conns, srcs, len, kind, v) && AllDone(conns, len, kind, v)
    decreases Work(conns, srcs, kind, w, |conns|)
  {
    hide SlotsInv, HasSent, Informed, Within, Progress, ResultsSeen, Runs, AllDone, Work;
    if AllDone(conns, len, kind, w) {
      ReduceRuns.NoSteps(conns, srcs, kind, w);
      return [], w;
    }
    var fs, u := SomethingToDo(conns, srcs, len, kind, w);
    var gs;
    gs, v := Finish(conns, srcs, len, kind, u);
    ReduceRuns.RunsOn(conns, srcs, kind, w, fs, u, gs, v);
    ss := fs + gs;
  }

  // ----- From the beginning of the operation

  /** Whatever has happened since the operation began: finitely many further packets and polls, all of them handled,
      let every host send everything and every loop that awaits results look at all of them, which are the sums. */
  lemma CollectiveCanFinish(conns: seq<Connection>, x: World, srcs: seq<seq<Word>>, len: nat, kind: Kind, w: Collective,
                            past: seq<Step>, v: Collective) returns (ss: seq<Step>, u: Collective)
    requires Begins(conns, x, srcs, len, kind, w) && Runs(conns, srcs, kind, w, past, v)
    requires RingSuffices(|conns|, len, kind) && Sized(conns, srcs, v)
    requires forall i :: 0 <= i < |conns| ==> x.ctx.aggEpsn[i] + 1 + PacketCount(len) < PSN_SPACE
    ensures Runs(conns, srcs, kind, v, ss, u) && Sized(conns, srcs, u) && AllDone(conns, len, kind, u)
    ensures forall i :: 0 <= i < |conns| && AwaitsResults(conns, kind, i) ==> HasSums(srcs, len, u.seen[i])
  {
    hide Runs, AllDone, Inv, HasSums;
    BeginsTogether(conns, x, srcs, len, kind, w);
    RunKeepsTogether(conns, srcs, len, kind, w, past, v);
    RunKeepsBase(conns, srcs, kind, w, past, v);
    ss, u := Finish(conns, srcs, len, kind, v);
    forall i | 0 <= i < |conns| && AwaitsResults(conns, kind, i)
      ensures HasSums(srcs, len, u.seen[i])
    {
      AllReceivedAreSums(conns, srcs, len, kind, u, i);
    }
  }

  /** What has been received, copied into a destination as long as the sources, fills it with the sums. */
  ghost predicate HasSums(srcs: seq<seq<Word>>, len: nat, seen: seq<HostApi.Completion>) {
    && SameLength(srcs, len)
    && (forall m :: m in HostApi.Received(seen) ==> |HostApi.Received(seen)[m]| == HostApi.PAYLOAD_COUNT)
    && forall dst: seq<Word>, k: nat :: |dst| == len && k < len ==>
         HostApi.CopiedOut(dst, HostApi.Received(seen))[k] == WordSum(srcs, k) % MODULUS
  }

  lemma AllReceivedAreSums(conns: seq<Connection>, srcs: seq<seq<Word>>, len: nat, kind: Kind, u: Collective, i: nat)
    requires Together(conns, srcs, len, kind, u) && AllDone(conns, len, kind, u)
    requires i < |conns| && AwaitsResults(conns, kind, i)
    ensures HasSums(srcs, len, u.seen[i])
  {
    hide Inv, WordSum;
    HostApi.ReceivedAre(u.seen[i], HostApi.MessageNum(len));
    forall dst: seq<Word>, k: nat | |dst| == len && k < len
      ensures HostApi.CopiedOut(dst, HostApi.Received(u.seen[i]))[k] == WordSum(srcs, k) % MODULUS
    {
      ResultsAreCopied(srcs, len, u.x.complete, u.seen[i], dst, k);
    }
  }

  lemma {:induction false} RunKeepsBase(conns: seq<Connection>, srcs: seq<seq<Word>>, kind: Kind, w: Collective,
                                        ss: seq<Step>, v: Collective)
    requires Sized(conns, srcs, w) && Runs(conns, srcs, kind, w, ss, v)
    ensures v.x.base == w.x.base
    decreases |ss|
  {
    hide Handle, FromCard, Enabled;
    if ss != [] {
      RunKeepsBase(conns, srcs, kind, Take(conns, srcs, kind, w, ss[0]), ss[1..], v);
    }
  }
}
