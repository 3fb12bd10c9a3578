/** The reliable switch together with its children: children accept results in order and acknowledge no more than they
    have, packets get lost, and whatever has happened the collective can be finished, if the children's window is
    smaller than the ring.
 */
module CumulativeAckProgress {
  import opened Words
  import opened Rings
  import opened CumulativeAcks
  import opened CumulativeAckSafety
  import opened CumulativeAckRuns

  /** `have[i]` is the newest result child i has; it has all older ones, too. */
  datatype Collective = Collective(s: State, have: seq<int>)

  /** The packets sent on an event, of which those at the places in `lost` do not arrive. */
  datatype Step = Step(e: Event, lost: set<nat>)

  function Received(have: seq<int>, p: Packet): (r: seq<int>)
    ensures |r| == |have|
  {
    if p.Data? && p.child < |have| && p.psn == have[p.child] + 1 then have[p.child := p.psn] else have
  }

  function ReceivedAll(have: seq<int>, sent: seq<Packet>, lost: set<nat>): (r: seq<int>)
    ensures |r| == |have|
    decreases |sent|
  {
    if sent == [] then have
    else
      var last := |sent| - 1;
      var r := ReceivedAll(have, sent[..last], lost);
      if last in lost then r else Received(r, sent[last])
  }

  /** Each child has what it has acknowledged, and nobody more than the switch has sent. */
  ghost predicate Sound(c: Config, w: nat, v: Collective) {
    && Inv(c, v.s) && Skew(c, v.s, w) && |v.have| == c.fanIn
    && forall i :: 0 <= i < c.fanIn ==> v.s.latestAck[i] <= v.have[i] < v.s.downEpsn
  }

  /** A child sends data no further than its window, acknowledges what it has, and asks for what it has not. */
  ghost predicate Loyal(c: Config, w: nat, v: Collective, e: Event): (b: bool)
    requires Sound(c, w, v)
    ensures b ==> Possible(c, ByAcks(w), v.s, e)
  {
    && e.id < c.fanIn
    && match e
       case DataIn(id, psn) => psn <= v.s.latestAck[id] + w
       case AckIn(id, psn) => psn <= v.have[id]
       case NakIn(id, psn) => psn <= v.have[id] + 1
  }

  ghost predicate Handled(c: Config, w: nat, v: Collective, e: Event)
    requires Sound(c, w, v)
  {
    Loyal(c, w, v, e) && Handle(c, v.s, e).Went?
  }

  ghost function After(c: Config, w: nat, v: Collective, step: Step): Collective
    requires Sound(c, w, v) && Handled(c, w, v, step.e)
  {
    var o := Handle(c, v.s, step.e);
    Collective(o.state, ReceivedAll(v.have, o.sent, step.lost))
  }

  ghost function Start(c: Config): Collective {
    Collective(Init(c.fanIn), seq(c.fanIn, i => -1))
  }

  lemma StartIsSound(c: Config, w: nat)
    requires ValidConfig(c)
    ensures Sound(c, w, Start(c))
  {
    InvInitially(c);
  }

  lemma {:induction false} ReceivedWithin(have: seq<int>, sent: seq<Packet>, lost: set<nat>, d: int)
    requires forall i :: 0 <= i < |have| ==> have[i] < d
    requires forall k :: 0 <= k < |sent| && sent[k].Data? ==> sent[k].psn < d
    ensures forall i :: 0 <= i < |have| ==> have[i] <= ReceivedAll(have, sent, lost)[i] < d
    decreases |sent|
  {
    if sent != [] {
      ReceivedWithin(have, sent[..|sent| - 1], lost, d);
    }
  }

  lemma StepKeepsSound(c: Config, w: nat, v: Collective, step: Step)
    requires Sound(c, w, v) && Handled(c, w, v, step.e)
    ensures Sound(c, w, After(c, w, v, step))
  {
    hide OnData, OnAck, OnNak, DataOutcome, UpInv, DownInv;
    var e, o := step.e, Handle(c, v.s, step.e);
    HandleKeepsInv(c, v.s, e);
    StepKeepsSkew(c, w, v.s, e);
    HandleAdvances(c, v.s, e);
    forall k | 0 <= k < |o.sent| && o.sent[k].Data?
      ensures o.sent[k].psn < o.state.downEpsn
    {
      SentDataAreSums(c, v.s, e, k);
    }
    ReceivedWithin(v.have, o.sent, step.lost, o.state.downEpsn);
    AcknowledgesHad(c, w, v, e);
  }

  lemma AcknowledgesHad(c: Config, w: nat, v: Collective, e: Event)
    requires Sound(c, w, v) && Handled(c, w, v, e)
    ensures var t := Handle(c, v.s, e).state;
            |t.latestAck| == c.fanIn && forall i :: 0 <= i < c.fanIn ==> t.latestAck[i] <= v.have[i]
  {
    match e
    case DataIn(id, psn) => DataStep(c, v.s, id, psn);
    case AckIn(id, psn) => AckStep(c, v.s, id, psn);
    case NakIn(id, psn) => SameAfterWalk(c, v.s, id, psn);
  }

  ghost predicate Goes(c: Config, w: nat, v: Collective, steps: seq<Step>, u: Collective)
    requires Sound(c, w, v)
    decreases |steps|
  {
    if steps == [] then v == u
    else
      && Handled(c, w, v, steps[0].e)
      && (StepKeepsSound(c, w, v, steps[0]); Goes(c, w, After(c, w, v, steps[0]), steps[1..], u))
  }

  lemma {:induction false} RunKeepsSound(c: Config, w: nat, v: Collective, steps: seq<Step>, u: Collective)
    requires Sound(c, w, v) && Goes(c, w, v, steps, u)
    ensures Sound(c, w, u)
    decreases |steps|
  {
    hide Handled, After, Sound;
    if steps != [] {
      StepKeepsSound(c, w, v, steps[0]);
      RunKeepsSound(c, w, After(c, w, v, steps[0]), steps[1..], u);
    }
  }

  lemma OneStep(c: Config, w: nat, v: Collective, e: Event) returns (steps: seq<Step>, u: Collective)
    requires Sound(c, w, v) && Handled(c, w, v, e)
    ensures Goes(c, w, v, steps, u) && LossFree(steps) && Sound(c, w, u) && u == After(c, w, v, Step(e, {}))
  {
    hide Handle;
    steps, u := [Step(e, {})], After(c, w, v, Step(e, {}));
    StepKeepsSound(c, w, v, Step(e, {}));
    assert Goes(c, w, u, [], u) && steps[1..] == [];
  }

  lemma {:induction false} Then(c: Config, w: nat, v: Collective, steps: seq<Step>, u: Collective, more: seq<Step>,
                                z: Collective)
    requires Sound(c, w, v) && Goes(c, w, v, steps, u) && Sound(c, w, u) && Goes(c, w, u, more, z)
    ensures Goes(c, w, v, steps + more, z)
    decreases |steps|
  {
    hide Handled, After, Sound;
    if steps == [] {
      assert steps + more == more;
    } else {
      StepKeepsSound(c, w, v, steps[0]);
      Then(c, w, After(c, w, v, steps[0]), steps[1..], u, more, z);
      assert (steps + more)[1..] == steps[1..] + more;
    }
  }

  predicate LossFree(steps: seq<Step>) {
    forall step :: step in steps ==> step.lost == {}
  }

  // ----- A child gets what it lacks

  lemma {:induction false} ResentArrive(c: Config, have: seq<int>, id: nat, e: nat, count: nat, k: nat)
    requires ValidConfig(c) && id < |have| && have[id] == e - 1 && k <= count
    ensures |Resent(c, id, e, e, count)| == count
    ensures ReceivedAll(have, Resent(c, id, e, e, count)[..k], {}) == have[id := e - 1 + k]
  {
    var sent := Resent(c, id, e, e, count);
    LengthOfResent(c, id, e, e, count);
    if k > 0 {
      ResentArrive(c, have, id, e, count, k - 1);
      ResentAt(c, id, e, e, count, k - 1);
      assert sent[..k][..k - 1] == sent[..k - 1];
    }
  }

  /** With a window smaller than the ring a request for what comes next is always answered, with all the child
      lacks. */
  lemma AskedIsSent(c: Config, w: nat, v: Collective, id: nat, e: nat)
    requires Sound(c, w, v) && w < N && id < c.fanIn && e == v.have[id] + 1
    ensures var t := v.s.(latestAck := v.s.latestAck[id := e - 1], downs := AfterNak(c, v.s, id, e).downs);
            Handle(c, v.s, NakIn(id, e)) == Went(t, Resent(c, id, e, e, v.s.downEpsn - e))
  {
    hide OnNak, UpInv, DownInv;
    NakStep(c, v.s, id, e);
  }

  lemma AskAgain(c: Config, w: nat, v: Collective, id: nat) returns (steps: seq<Step>, u: Collective)
    requires Sound(c, w, v) && w < N && id < c.fanIn && v.have[id] < v.s.downEpsn - 1
    ensures Goes(c, w, v, steps, u) && LossFree(steps) && Sound(c, w, u)
    ensures u.s.downEpsn == v.s.downEpsn && u.s.aggEpsn == v.s.aggEpsn
    ensures u.s.latestAck == v.s.latestAck[id := v.have[id]] && u.have == v.have[id := v.s.downEpsn - 1]
  {
    hide Handle, UpInv, DownInv, Skew;
    var e: nat, count := v.have[id] + 1, v.s.downEpsn - 1 - v.have[id];
    AskedIsSent(c, w, v, id, e);
    steps, u := OneStep(c, w, v, NakIn(id, e));
    ResentArrive(c, v.have, id, e, count, count);
    var sent := Resent(c, id, e, e, count);
    assert sent[..count] == sent;
  }

  lemma AcknowledgeAll(c: Config, w: nat, v: Collective, id: nat) returns (steps: seq<Step>, u: Collective)
    requires Sound(c, w, v) && id < c.fanIn && v.have[id] == v.s.downEpsn - 1
    ensures Goes(c, w, v, steps, u) && LossFree(steps) && Sound(c, w, u)
    ensures u.s.downEpsn == v.s.downEpsn && u.s.aggEpsn == v.s.aggEpsn
    ensures u.s.latestAck == v.s.latestAck[id := v.s.downEpsn - 1] && u.have == v.have
  {
    hide OnAck, UpInv, DownInv;
    if v.s.latestAck[id] == v.s.downEpsn - 1 {
      return [], v;
    }
    AckStep(c, v.s, id, v.s.downEpsn - 1);
    steps, u := OneStep(c, w, v, AckIn(id, v.s.downEpsn - 1));
  }

  /** The first k children have all results and have acknowledged them. */
  ghost predicate CaughtUp(c: Config, w: nat, v: Collective, k: nat) {
    Sound(c, w, v) && forall i :: 0 <= i < k && i < c.fanIn ==> v.s.latestAck[i] == v.have[i] == v.s.downEpsn - 1
  }

  lemma CatchUp(c: Config, w: nat, v: Collective, id: nat) returns (steps: seq<Step>, u: Collective)
    requires CaughtUp(c, w, v, id) && w < N && id < c.fanIn
    ensures Goes(c, w, v, steps, u) && LossFree(steps) && CaughtUp(c, w, u, id + 1) && u.s.downEpsn == v.s.downEpsn
  {
    hide UpInv, DownInv, EpsnInv, Skew, Goes;
    if v.have[id] == v.s.downEpsn - 1 {
      steps, u := AcknowledgeAll(c, w, v, id);
    } else {
      var asking, z := AskAgain(c, w, v, id);
      var acking;
      acking, u := AcknowledgeAll(c, w, z, id);
      Then(c, w, v, asking, z, acking, u);
      steps := asking + acking;
    }
  }

  lemma {:induction false} AllCatchUp(c: Config, w: nat, v: Collective, k: nat)
    returns (steps: seq<Step>, u: Collective)
    requires Sound(c, w, v) && w < N && k <= c.fanIn
    ensures Goes(c, w, v, steps, u) && LossFree(steps) && CaughtUp(c, w, u, k) && u.s.downEpsn == v.s.downEpsn
  {
    hide Inv, Skew;
    if k == 0 {
      return [], v;
    }
    var before, z := AllCatchUp(c, w, v, k - 1);
    var more;
    more, u := CatchUp(c, w, z, k - 1);
    Then(c, w, v, before, z, more, u);
    steps := before + more;
  }

  // ----- The oldest number completes

  /** Child i has yet to send packet q. */
  predicate Lacks(v: Collective, k: nat, q: nat) {
    exists i :: k <= i < |v.s.aggEpsn| && v.s.aggEpsn[i] == q
  }

  /** From v to u the children below k that were at the oldest number have sent it; if these were all, everybody has
      its result. */
  ghost predicate Swept(c: Config, w: nat, v: Collective, u: Collective, k: nat) {
    var q := v.s.downEpsn;
    && CaughtUp(c, w, v, c.fanIn) && Sound(c, w, u) && k <= c.fanIn
    && u.s.latestAck == v.s.latestAck
    && (forall i :: 0 <= i < c.fanIn ==>
          u.s.aggEpsn[i] == v.s.aggEpsn[i] + if i < k && v.s.aggEpsn[i] == q then 1 else 0)
    && if Lacks(v, k, q) then u.s.downEpsn == q && u.have == v.have
       else u.s.downEpsn == q + 1 && forall i :: 0 <= i < c.fanIn ==> u.have[i] == q
  }

  lemma ReceivedLast(have: seq<int>, sent: seq<Packet>, k: nat)
    requires 0 < k <= |sent|
    ensures ReceivedAll(have, sent[..k], {}) == Received(ReceivedAll(have, sent[..k - 1], {}), sent[k - 1])
  {
    assert sent[..k][..k - 1] == sent[..k - 1];
  }

  lemma {:induction false} BroadcastArrives(have: seq<int>, n: nat, q: nat, words: Payload, k: nat)
    requires |have| == n && k <= n && forall i :: 0 <= i < n ==> have[i] == q - 1
    ensures var r := ReceivedAll(have, ToAll(n, q, words)[..k], {});
            forall i :: 0 <= i < n ==> r[i] == if i < k then q else q - 1
  {
    var sent := ToAll(n, q, words);
    if k == 0 {
      assert sent[..0] == [];
    } else {
      BroadcastArrives(have, n, q, words, k - 1);
      assert sent[k - 1] == Data(k - 1, q, words);
      ReceivedLast(have, sent, k);
    }
  }

  lemma {:induction false} AckFirst(have: seq<int>, ack: Packet, sent: seq<Packet>)
    requires !ack.Data?
    ensures ReceivedAll(have, [ack] + sent, {}) == ReceivedAll(have, sent, {})
    decreases |sent|
  {
    if sent == [] {
      assert [ack] + sent == [ack] && [ack][..0] == [];
    } else {
      AckFirst(have, ack, sent[..|sent| - 1]);
      assert ([ack] + sent)[..|sent|] == [ack] + sent[..|sent| - 1];
    }
  }

  /** A packet of the oldest number that is not the last one is absorbed. */
  lemma SweptOn(c: Config, w: nat, v: Collective, u: Collective, k: nat) returns (steps: seq<Step>, z: Collective)
    requires Swept(c, w, v, u, k) && k < c.fanIn && w >= 1 && v.s.aggEpsn[k] == v.s.downEpsn
    requires Lacks(v, k + 1, v.s.downEpsn)
    ensures Goes(c, w, u, steps, z) && LossFree(steps) && Swept(c, w, v, z, k + 1)
  {
    hide UpInv, DownInv, OnData, ReceivedAll, Partial;
    var q := v.s.downEpsn;
    assert Lacks(v, k, q);
    DataStep(c, u.s, k, q);
    var i :| k + 1 <= i < c.fanIn && v.s.aggEpsn[i] == q;
    assert u.s.aggEpsn[i] == q && !Completes(c, u.s, k);
    steps, z := OneStep(c, w, u, DataIn(k, q));
    AckIsNothing(u.have, CumulativeAcks.Ack(k, q), {});
  }

  lemma AckIsNothing(have: seq<int>, ack: Packet, lost: set<nat>)
    requires !ack.Data?
    ensures ReceivedAll(have, [ack], lost) == have
  {
    assert [ack][..0] == [];
  }

  /** The last one completes it, the slot being free of the result a ring before. */
  lemma LastCompletes(c: Config, w: nat, v: Collective, u: Collective, k: nat)
    requires Swept(c, w, v, u, k) && k < c.fanIn && v.s.aggEpsn[k] == v.s.downEpsn
    requires !Lacks(v, k + 1, v.s.downEpsn)
    ensures var q := v.s.downEpsn;
            && u.s.downEpsn == q && u.have == v.have
            && Handle(c, u.s, DataIn(k, q))
               == Went(Completed(c, u.s, k),
                       [CumulativeAcks.Ack(k, q)] + ToAll(c.fanIn, q, Partial(c, q, Ports(c.fanIn))))
  {
    hide UpInv, DownInv, OnData, Partial;
    var q := v.s.downEpsn;
    assert Lacks(v, k, q);
    DataStep(c, u.s, k, q);
    assert Completes(c, u.s, k) && !Held(u.s, q - N);
  }

  lemma AnswerArrives(c: Config, have: seq<int>, k: nat, q: nat)
    requires ValidConfig(c) && |have| == c.fanIn && forall i :: 0 <= i < c.fanIn ==> have[i] == q - 1
    ensures var sent := [CumulativeAcks.Ack(k, q)] + ToAll(c.fanIn, q, Partial(c, q, Ports(c.fanIn)));
            forall i :: 0 <= i < c.fanIn ==> ReceivedAll(have, sent, {})[i] == q
  {
    var all := ToAll(c.fanIn, q, Partial(c, q, Ports(c.fanIn)));
    AckFirst(have, CumulativeAcks.Ack(k, q), all);
    BroadcastArrives(have, c.fanIn, q, Partial(c, q, Ports(c.fanIn)), c.fanIn);
    assert all[..c.fanIn] == all;
  }

  lemma SweptLast(c: Config, w: nat, v: Collective, u: Collective, k: nat) returns (steps: seq<Step>, z: Collective)
    requires Swept(c, w, v, u, k) && k < c.fanIn && w >= 1 && v.s.aggEpsn[k] == v.s.downEpsn
    requires !Lacks(v, k + 1, v.s.downEpsn)
    ensures Goes(c, w, u, steps, z) && LossFree(steps) && Swept(c, w, v, z, k + 1)
  {
    hide UpInv, DownInv, Handle, ReceivedAll, Partial, ToAll, Goes, Skew;
    LastCompletes(c, w, v, u, k);
    steps, z := OneStep(c, w, u, DataIn(k, v.s.downEpsn));
    AnswerArrives(c, u.have, k, v.s.downEpsn);
  }

  lemma {:induction false} Sweep(c: Config, w: nat, v: Collective, k: nat) returns (steps: seq<Step>, u: Collective)
    requires CaughtUp(c, w, v, c.fanIn) && w >= 1 && k <= c.fanIn
    ensures Goes(c, w, v, steps, u) && LossFree(steps) && Swept(c, w, v, u, k)
  {
    hide UpInv, DownInv, Skew, Goes;
    if k == 0 {
      NothingSwept(c, w, v);
      return [], v;
    }
    var before, z := Sweep(c, w, v, k - 1);
    if v.s.aggEpsn[k - 1] != v.s.downEpsn {
      return before, z;
    }
    var more;
    if Lacks(v, k, v.s.downEpsn) {
      more, u := SweptOn(c, w, v, z, k - 1);
    } else {
      more, u := SweptLast(c, w, v, z, k - 1);
    }
    Then(c, w, v, before, z, more, u);
    steps := before + more;
  }

  lemma NothingSwept(c: Config, w: nat, v: Collective)
    requires CaughtUp(c, w, v, c.fanIn)
    ensures Goes(c, w, v, [], v) && Swept(c, w, v, v, 0)
  {
    assert Lacks(v, 0, v.s.downEpsn);
  }

  // ----- The whole collective

  /** Every child has sent its first p packets, and has received and acknowledged their results. */
  ghost predicate Finished(c: Config, v: Collective, p: nat) {
    && |v.s.aggEpsn| == |v.s.latestAck| == |v.have| == c.fanIn && v.s.downEpsn >= p
    && forall i :: 0 <= i < c.fanIn ==> v.s.aggEpsn[i] >= p && v.s.latestAck[i] >= p - 1 && v.have[i] >= p - 1
  }

  lemma {:induction false} Finish(c: Config, w: nat, v: Collective, p: nat) returns (steps: seq<Step>, u: Collective)
    requires Sound(c, w, v) && 1 <= w < N
    ensures Goes(c, w, v, steps, u) && LossFree(steps) && Finished(c, u, p)
    decreases p - v.s.downEpsn
  {
    hide UpInv, DownInv, Skew, Goes;
    steps, u := AllCatchUp(c, w, v, c.fanIn);
    if v.s.downEpsn < p {
      var sweep, z := Sweep(c, w, u, c.fanIn);
      Then(c, w, v, steps, u, sweep, z);
      var rest;
      rest, u := Finish(c, w, z, p);
      Then(c, w, v, steps + sweep, z, rest, u);
      steps := steps + sweep + rest;
    }
  }

  ghost predicate CanFinish(c: Config, w: nat, v: Collective, p: nat)
    requires Sound(c, w, v)
  {
    exists steps, u :: Goes(c, w, v, steps, u) && LossFree(steps) && Finished(c, u, p)
  }

  // ----- A window as large as the ring

  /** All results of a ring have gone out and none has arrived. */
  ghost predicate Starved(c: Config, w: nat, v: Collective) {
    && Sound(c, w, v) && v.s.downEpsn == N
    && forall i :: 0 <= i < c.fanIn ==> v.s.latestAck[i] == v.have[i] == -1
  }

  /** No child can ever be answered again. */
  lemma StaysStarved(c: Config, w: nat, v: Collective, step: Step)
    requires Starved(c, w, v) && Handled(c, w, v, step.e)
    ensures Starved(c, w, After(c, w, v, step))
  {
    hide UpInv, DownInv, OnData, OnAck, OnNak, ReceivedAll;
    StepKeepsSound(c, w, v, step);
    match step.e
    case DataIn(id, psn) =>
      DataStep(c, v.s, id, psn);
      assert v.s.latestAck[0] < 0;
      if psn == v.s.aggEpsn[id] {
        CompletesIsFullDegree(c, v.s, id);
      }
      AckIsNothing(v.have, DataOutcome(c, v.s, id, psn).sent[0], step.lost);
    case AckIn(id, psn) =>
    case NakIn(id, psn) =>
      NakStep(c, v.s, id, psn);
  }

  lemma {:induction false} StarvedForEver(c: Config, w: nat, v: Collective, steps: seq<Step>, u: Collective)
    requires Starved(c, w, v) && Goes(c, w, v, steps, u)
    ensures Starved(c, w, u)
    decreases |steps|
  {
    hide Handled, After, Sound;
    if steps != [] {
      StaysStarved(c, w, v, steps[0]);
      StarvedForEver(c, w, After(c, w, v, steps[0]), steps[1..], u);
    }
  }

  lemma {:induction false} AllLost(have: seq<int>, sent: seq<Packet>, lost: set<nat>)
    requires forall k: nat :: k < |sent| ==> k in lost
    ensures ReceivedAll(have, sent, lost) == have
    decreases |sent|
  {
    if sent != [] {
      AllLost(have, sent[..|sent| - 1], lost);
    }
  }

  /** A run of data packets, nothing sent on which arrives. */
  lemma {:induction false} LosingRun(c: Config, w: nat, v: Collective, es: seq<Event>, t: State)
    returns (steps: seq<Step>)
    requires Sound(c, w, v) && Runs(c, ByAcks(w), v.s, es, t) && forall e :: e in es ==> e.DataIn?
    ensures Goes(c, w, v, steps, v.(s := t))
    decreases |es|
  {
    hide Inv, Skew, Handle;
    if es == [] {
      return [];
    }
    assert es[0] in es;
    var sent := Handle(c, v.s, es[0]).sent;
    var step := Step(es[0], Ports(|sent|));
    StepKeepsSound(c, w, v, step);
    AllLost(v.have, sent, step.lost);
    var more := LosingRun(c, w, After(c, w, v, step), es[1..], t);
    steps := [step] + more;
    assert steps[1..] == more;
  }

  lemma StarvingRun(c: Config, w: nat) returns (steps: seq<Step>, v: Collective)
    requires ValidConfig(c) && w >= N
    ensures Sound(c, w, Start(c)) && Goes(c, w, Start(c), steps, v) && Starved(c, w, v)
  {
    hide Inv, Goes, Runs;
    StartIsSound(c, w);
    StartsLevel(c);
    var es, t := LevelUp(c, ByAcks(w), Init(c.fanIn), -1, 0, N, 0);
    steps := LosingRun(c, w, Start(c), es, t);
    v := Start(c).(s := t);
    RunKeepsSound(c, w, Start(c), steps, v);
  }

  /** After any run, with whatever losses, the first p packets of all children can be finished without further loss. */
  ghost predicate CanAlwaysFinish(c: Config, w: nat)
    requires Sound(c, w, Start(c))
  {
    forall steps, v :: Goes(c, w, Start(c), steps, v) ==> Sound(c, w, v) && forall p: nat :: CanFinish(c, w, v, p)
  }

  /** Whatever has been lost, finitely many packets, each handled to the end, bring every child every result, for any
      number of packets, if and only if the children's window is smaller than the ring. */
  lemma CanAlwaysFinishIff(c: Config, w: nat)
    requires ValidConfig(c) && w >= 1
    ensures Sound(c, w, Start(c)) && (CanAlwaysFinish(c, w) <==> w < N)
  {
    hide Sound, Goes;
    StartIsSound(c, w);
    if w < N {
      forall steps, v | Goes(c, w, Start(c), steps, v)
        ensures Sound(c, w, v) && forall p: nat :: CanFinish(c, w, v, p)
      {
        RunKeepsSound(c, w, Start(c), steps, v);
        forall p: nat
          ensures CanFinish(c, w, v, p)
        {
          var more, u := Finish(c, w, v, p);
        }
      }
    } else {
      var steps, v := StarvingRun(c, w);
      StarvedCannotFinish(c, w, v);
    }
  }

  lemma StarvedCannotFinish(c: Config, w: nat, v: Collective)
    requires Starved(c, w, v)
    ensures !CanFinish(c, w, v, N + 1)
  {
    hide Goes, Skew, Inv;
    forall steps, u | Goes(c, w, v, steps, u)
      ensures !Finished(c, u, N + 1)
    {
      StarvedForEver(c, w, v, steps, u);
    }
  }
}
