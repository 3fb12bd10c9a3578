/** Runs of the reliable switch: what children must wait for before they send, so that no assertion fires and no
    loop of the switch goes on for ever, and runs in which they do not.
 */
module CumulativeAckRuns {
  import opened Words
  import opened Rings
  import opened CumulativeAcks
  import opened CumulativeAckSafety

  /** What a child waits for before it sends psn: nothing; the result of psn - w, which is the window of the
      hosts; or, in addition, that the switch has the child's own acknowledgement of that result. */
  datatype Discipline = Free | ByResults(w: nat) | ByAcks(w: nat)

  ghost predicate Allowed(d: Discipline, s: State, e: Event)
    requires e.id < |s.latestAck|
  {
    e.DataIn? ==>
      match d
      case Free => true
      case ByResults(w) => e.psn < s.downEpsn + w
      case ByAcks(w) => e.psn <= s.latestAck[e.id] + w
  }

  ghost predicate Possible(c: Config, d: Discipline, s: State, e: Event)
    requires Shaped(c.fanIn, s)
  {
    Honest(c, s, e) && Allowed(d, s, e)
  }

  /** A run of handled events from s to t. */
  ghost predicate Runs(c: Config, d: Discipline, s: State, es: seq<Event>, t: State)
    requires Inv(c, s)
    decreases |es|
  {
    if es == [] then s == t
    else
      && Possible(c, d, s, es[0]) && Handle(c, s, es[0]).Went?
      && (HandleKeepsInv(c, s, es[0]); Runs(c, d, Handle(c, s, es[0]).state, es[1..], t))
  }

  /** In every reachable state the oldest unfinished PSN is the slowest child's, everything before it is
      acknowledged upward, and each live slot counts and sums exactly the children past it. */
  lemma {:induction false} ReachableStates(c: Config, d: Discipline, s: State, es: seq<Event>, t: State)
    requires Inv(c, s) && Runs(c, d, s, es, t)
    ensures Inv(c, t)
    ensures (forall i :: 0 <= i < c.fanIn ==> t.downEpsn <= t.aggEpsn[i]) && t.downEpsn in t.aggEpsn
    ensures t.downAck == t.downEpsn - 1
    ensures forall q: nat :: t.downEpsn <= q < t.downEpsn + N ==>
              && t.ups[Idx(q)].degree == |Past(t, q)|
              && (Past(t, q) != {} ==> t.ups[Idx(q)].buffer.words == Partial(c, q, Past(t, q)))
    decreases |es|
  {
    if es == [] {
      forall q: nat | t.downEpsn <= q < t.downEpsn + N
        ensures t.ups[Idx(q)].degree == |Past(t, q)|
        ensures Past(t, q) != {} ==> t.ups[Idx(q)].buffer.words == Partial(c, q, Past(t, q))
      {
        assert UpInv(c, t, q);
      }
    } else {
      HandleKeepsInv(c, s, es[0]);
      ReachableStates(c, d, Handle(c, s, es[0]).state, es[1..], t);
    }
  }

  /** After a run from the start to t, event e has outcome o. */
  ghost predicate Ends(c: Config, d: Discipline, es: seq<Event>, t: State, e: Event, o: Outcome) {
    && Inv(c, Init(c.fanIn)) && Runs(c, d, Init(c.fanIn), es, t)
    && Inv(c, t) && Possible(c, d, t, e) && Handle(c, t, e) == o
  }

  /** Over every run: each data packet ever sent, broadcast or resent, carries the sum of all children's data for
      its number, unless it answers an outdated request, which is more than a ring old. */
  lemma EveryDataPacketIsASum(c: Config, es: seq<Event>, t: State, e: Event, o: Outcome, k: nat)
    requires Ends(c, Free, es, t, e, o) && o.Went? && k < |o.sent| && o.sent[k].Data?
    ensures 0 <= o.sent[k].psn && IsResult(c, o.sent[k].psn + Lag(t, e), o.sent[k].words)
    ensures Lag(t, e) > 0 <==> Outdated(t, e)
    ensures Outdated(t, e) ==> e.psn < t.downEpsn - N && Lag(t, e) % N == 0
  {
    hide Handle, Runs;
    SentDataAreSums(c, t, e, k);
    if Outdated(t, e) {
      LagIsWholeRings(t, e);
    }
  }

  lemma LagIsWholeRings(s: State, e: Event)
    requires e.id < |s.latestAck| && Outdated(s, e) && s.latestAck[e.id] < s.downEpsn
    ensures e.psn < s.downEpsn - N && Lag(s, e) % N == 0
  {
    var q := RingMate(s, e.psn);
    assert (q - e.psn) % N == 0 by {
      assert q % N == e.psn % N;
    }
  }

  // ----- A window over results

  /** Within a window of at most the ring the assertions at lines 583 and 1009 never fire, and the one at line 809
      fires exactly when the packet completes its number while some child's acknowledgement of the number a
      ring before has not come in. */
  lemma WithinResultWindow(c: Config, w: nat, es: seq<Event>, t: State, e: Event, o: Outcome)
    requires Ends(c, ByResults(w), es, t, e, o) && w <= N
    ensures !o.RingOverrun? && !o.OutOfOrder?
    ensures o.ResultUnfreed? <==>
              && e.DataIn? && e.psn == t.aggEpsn[e.id] && Completes(c, t, e.id)
              && exists j :: 0 <= j < c.fanIn && t.latestAck[j] < e.psn - N
  {
    match e
    case DataIn(id, psn) =>
      AssertionsFireIff(c, t, id, psn);
      if psn == t.aggEpsn[id] && Completes(c, t, id) {
        CompletesIsFullDegree(c, t, id);
      }
    case AckIn(id, psn) => AckStep(c, t, id, psn);
    case NakIn(id, psn) => SameAfterWalk(c, t, id, psn);
  }

  // ----- A window over own acknowledgements

  /** No child is further ahead of its own acknowledgements than its window. */
  ghost predicate Skew(c: Config, s: State, w: nat)
    requires Shaped(c.fanIn, s)
  {
    forall i :: 0 <= i < c.fanIn ==> s.aggEpsn[i] <= s.latestAck[i] + 1 + w
  }

  lemma StepKeepsSkew(c: Config, w: nat, s: State, e: Event)
    requires Inv(c, s) && Skew(c, s, w) && Possible(c, ByAcks(w), s, e) && Handle(c, s, e).Went?
    ensures Shaped(c.fanIn, Handle(c, s, e).state) && Skew(c, Handle(c, s, e).state, w)
  {
    hide OnData, OnAck, OnNak, UpInv, DownInv, Partial, Held;
    HandleAdvances(c, s, e);
    match e
    case DataIn(id, psn) => DataStep(c, s, id, psn);
    case AckIn(id, psn) => AckStep(c, s, id, psn);
    case NakIn(id, psn) => SameAfterWalk(c, s, id, psn);
  }

  lemma {:induction false} RunKeepsSkew(c: Config, w: nat, s: State, es: seq<Event>, t: State)
    requires Inv(c, s) && Skew(c, s, w) && Runs(c, ByAcks(w), s, es, t)
    ensures Inv(c, t) && Skew(c, t, w)
    decreases |es|
  {
    if es != [] {
      HandleKeepsInv(c, s, es[0]);
      StepKeepsSkew(c, w, s, es[0]);
      RunKeepsSkew(c, w, Handle(c, s, es[0]).state, es[1..], t);
    }
  }

  /** Own acknowledgements are enough: with a window of at most the ring no assertion fires, whatever becomes of
      everybody's acknowledgements; with a smaller one no loop goes on for ever either. */
  lemma WithinAckWindow(c: Config, w: nat, es: seq<Event>, t: State, e: Event, o: Outcome)
    requires Ends(c, ByAcks(w), es, t, e, o) && w <= N
    ensures o.Went? || o.Spins?
    ensures w < N ==> o.Went?
  {
    RunKeepsSkew(c, w, Init(c.fanIn), es, t);
    match e
    case DataIn(id, psn) =>
      AssertionsFireIff(c, t, id, psn);
      if psn == t.aggEpsn[id] && Completes(c, t, id) {
        CompletesIsFullDegree(c, t, id);
      }
    case AckIn(id, psn) => AckStep(c, t, id, psn);
    case NakIn(id, psn) =>
      SameAfterWalk(c, t, id, psn);
      if w < N {
        assert RoomFor(t, id);
        RoomEndsResending(c, t, id, psn);
      }
  }

  lemma RoomEndsResending(c: Config, s: State, id: nat, e: nat)
    requires Inv(c, s) && id < c.fanIn && RoomFor(s, id) && e <= s.downEpsn
    ensures OnNak(c.fanIn, s, id, e).Went?
  {
    if e > s.latestAck[id] {
      NakStep(c, s, id, e);
    } else {
      StaleNakStep(c, s, id, e);
    }
  }

  // ----- Building runs

  lemma NoEvents(c: Config, d: Discipline, s: State)
    requires Inv(c, s)
    ensures Runs(c, d, s, [], s)
  {
  }

  lemma {:induction false} OneMore(c: Config, d: Discipline, s: State, es: seq<Event>, t: State, e: Event)
    requires Inv(c, s) && Runs(c, d, s, es, t) && Inv(c, t) && Possible(c, d, t, e) && Handle(c, t, e).Went?
    ensures Runs(c, d, s, es + [e], Handle(c, t, e).state)
    decreases |es|
  {
    hide Handle;
    if es == [] {
      assert [] + [e] == [e] && [e][1..] == [];
      HandleKeepsInv(c, t, e);
      assert Runs(c, d, Handle(c, t, e).state, [], Handle(c, t, e).state);
    } else {
      HandleKeepsInv(c, s, es[0]);
      OneMore(c, d, Handle(c, s, es[0]).state, es[1..], t, e);
      assert (es + [e])[1..] == es[1..] + [e];
    }
  }

  /** All children have delivered everything below q, the first k of them q as well, and all have acknowledged a. */
  ghost predicate Level(c: Config, s: State, a: int, q: nat, k: nat) {
    && Inv(c, s) && k < c.fanIn && s.downEpsn == q
    && (forall i :: 0 <= i < c.fanIn ==> s.aggEpsn[i] == (if i < k then q + 1 else q) && s.latestAck[i] == a)
  }

  lemma LevelCompletes(c: Config, s: State, a: int, q: nat, k: nat)
    requires Level(c, s, a, q, k)
    ensures Completes(c, s, k) <==> k + 1 == c.fanIn
    ensures Held(s, q - N) <==> a < q - N
  {
    if k + 1 < c.fanIn {
      assert s.aggEpsn[k + 1] == q;
    }
    assert s.latestAck[0] == a;
  }

  lemma LevelStep(c: Config, s: State, a: int, q: nat, k: nat) returns (t: State)
    requires Level(c, s, a, q, k) && (k + 1 == c.fanIn ==> q <= a + N)
    ensures Handle(c, s, DataIn(k, q)).Went? && t == Handle(c, s, DataIn(k, q)).state
    ensures if k + 1 < c.fanIn then Level(c, t, a, q, k + 1) else Level(c, t, a, q + 1, 0)
  {
    LevelCompletes(c, s, a, q, k);
    DataStep(c, s, k, q);
    HandleKeepsInv(c, s, DataIn(k, q));
    t := Handle(c, s, DataIn(k, q)).state;
  }

  predicate Permits(d: Discipline, a: int, q: nat) {
    match d
    case Free => true
    case ByResults(w) => w >= 1
    case ByAcks(w) => q <= a + w
  }

  /** The children send in step, everybody waiting for each result. */
  lemma {:induction false} LevelUp(c: Config, d: Discipline, s: State, a: int, q: nat, p: nat, k: nat)
    returns (es: seq<Event>, t: State)
    requires Level(c, s, a, q, 0) && q <= p <= a + N + 1 && k < c.fanIn
    requires forall x: nat :: q <= x < (if k > 0 then p + 1 else p) ==> Permits(d, a, x)
    ensures Inv(c, s) && Runs(c, d, s, es, t) && Level(c, t, a, p, k)
    ensures forall e :: e in es ==> e.DataIn?
    decreases p, k
  {
    hide Handle, Inv, Runs;
    if p == q && k == 0 {
      NoEvents(c, d, s);
      return [], s;
    }
    var p', k' := if k > 0 then p else p - 1, if k > 0 then k - 1 else c.fanIn - 1;
    var fs, z := LevelUp(c, d, s, a, q, p', k');
    assert Permits(d, a, p');
    t := LevelStep(c, z, a, p', k');
    OneMore(c, d, s, fs, z, DataIn(k', p'));
    es := fs + [DataIn(k', p')];
  }

  lemma StartsLevel(c: Config)
    requires ValidConfig(c)
    ensures Level(c, Init(c.fanIn), -1, 0, 0)
  {
    InvInitially(c);
  }

  /** Everybody waits for every result, and no acknowledgement reaches the switch: the packet that completes
      number N finds the slot of result 0 still held. */
  lemma UnfreedRun(c: Config, d: Discipline) returns (es: seq<Event>, t: State, e: Event)
    requires ValidConfig(c) && forall q: nat :: q <= N ==> Permits(d, -1, q)
    ensures Ends(c, d, es, t, e, ResultUnfreed)
  {
    StartsLevel(c);
    var last := c.fanIn - 1;
    es, t := LevelUp(c, d, Init(c.fanIn), -1, 0, N, last);
    e := DataIn(last, N);
    assert Permits(d, -1, N);
    LevelCompletes(c, t, -1, N, last);
    DataStep(c, t, last, N);
  }

  /** A child that has lost all N results asks for the first: the switch resends them for ever. */
  lemma SpinningRun(c: Config, d: Discipline) returns (es: seq<Event>, t: State, e: Event)
    requires ValidConfig(c) && forall q: nat :: q < N ==> Permits(d, -1, q)
    ensures Ends(c, d, es, t, e, Spins) && e == NakIn(0, 0)
  {
    StartsLevel(c);
    es, t := LevelUp(c, d, Init(c.fanIn), -1, 0, N, 0);
    e := NakIn(0, 0);
    NakStep(c, t, 0, 0);
  }

  /** Child 0 alone has sent q packets. */
  ghost predicate Alone(c: Config, s: State, q: nat) {
    && Inv(c, s) && s.downEpsn == 0 && c.fanIn >= 2
    && forall i :: 0 <= i < c.fanIn ==> s.aggEpsn[i] == if i == 0 then q else 0
  }

  lemma AloneStep(c: Config, s: State, q: nat) returns (t: State)
    requires Alone(c, s, q) && q < N
    ensures Handle(c, s, DataIn(0, q)).Went? && t == Handle(c, s, DataIn(0, q)).state && Alone(c, t, q + 1)
  {
    hide OnData;
    assert s.aggEpsn[1] == 0;
    DataStep(c, s, 0, q);
    HandleKeepsInv(c, s, DataIn(0, q));
    t := Handle(c, s, DataIn(0, q)).state;
  }

  lemma {:induction false} ReachAlone(c: Config, w: nat, q: nat) returns (es: seq<Event>, t: State)
    requires ValidConfig(c) && c.fanIn >= 2 && q <= w && q <= N
    ensures Inv(c, Init(c.fanIn)) && Runs(c, ByResults(w), Init(c.fanIn), es, t) && Alone(c, t, q)
  {
    hide Handle, Inv, Runs;
    InvInitially(c);
    if q == 0 {
      NoEvents(c, ByResults(w), Init(c.fanIn));
      return [], Init(c.fanIn);
    }
    var fs, z := ReachAlone(c, w, q - 1);
    t := AloneStep(c, z, q - 1);
    OneMore(c, ByResults(w), Init(c.fanIn), fs, z, DataIn(0, q - 1));
    es := fs + [DataIn(0, q - 1)];
  }

  lemma OverrunRun(c: Config, w: nat) returns (es: seq<Event>, t: State, e: Event)
    requires ValidConfig(c) && c.fanIn >= 2 && w > N
    ensures Ends(c, ByResults(w), es, t, e, RingOverrun)
  {
    es, t := ReachAlone(c, w, N);
    e := DataIn(0, N);
    DataStep(c, t, 0, N);
  }

  /** Of children that are level the first k have acknowledged everything. */
  ghost predicate AckedUpTo(c: Config, s: State, a: int, q: nat, k: nat) {
    && Inv(c, s) && k <= c.fanIn && s.downEpsn == q
    && (forall i :: 0 <= i < c.fanIn ==> s.aggEpsn[i] == q && s.latestAck[i] == if i < k then q - 1 else a)
  }

  lemma AckedStep(c: Config, s: State, a: int, q: nat, k: nat) returns (t: State)
    requires AckedUpTo(c, s, a, q, k) && k < c.fanIn && q > 0 && a < q - 1
    ensures Honest(c, s, AckIn(k, q - 1)) && Handle(c, s, AckIn(k, q - 1)).Went?
    ensures t == Handle(c, s, AckIn(k, q - 1)).state && AckedUpTo(c, t, a, q, k + 1)
  {
    hide OnAck;
    AckStep(c, s, k, q - 1);
    t := Handle(c, s, AckIn(k, q - 1)).state;
  }

  lemma {:induction false} AckAll(c: Config, s: State, a: int, q: nat, k: nat) returns (es: seq<Event>, t: State)
    requires Level(c, s, a, q, 0) && k <= c.fanIn && q > 0 && a < q - 1
    ensures Inv(c, s) && Runs(c, Free, s, es, t) && AckedUpTo(c, t, a, q, k)
  {
    hide Handle, Inv, Runs;
    if k == 0 {
      NoEvents(c, Free, s);
      return [], s;
    }
    var fs, z := AckAll(c, s, a, q, k - 1);
    t := AckedStep(c, z, a, q, k - 1);
    OneMore(c, Free, s, fs, z, AckIn(k - 1, q - 1));
    es := fs + [AckIn(k - 1, q - 1)];
  }

  lemma {:induction false} RunsOn(c: Config, d: Discipline, s: State, es: seq<Event>, t: State, fs: seq<Event>,
                                  u: State)
    requires Inv(c, s) && Runs(c, d, s, es, t) && Inv(c, t) && Runs(c, d, t, fs, u)
    ensures Runs(c, d, s, es + fs, u)
    decreases |es|
  {
    hide Handle;
    if es == [] {
      assert es + fs == fs;
    } else {
      HandleKeepsInv(c, s, es[0]);
      RunsOn(c, d, Handle(c, s, es[0]).state, es[1..], t, fs, u);
      assert (es + fs)[1..] == es[1..] + fs;
    }
  }

  lemma OutdatedStep(c: Config, s: State)
    requires Level(c, s, N - 1, N + 1, 0)
    ensures Handle(c, s, NakIn(0, 0)) == Went(s, [Data(0, 0, Partial(c, N, Ports(c.fanIn)))])
  {
    hide OnNak;
    StaleNakStep(c, s, 0, 0);
    assert RingMate(s, 0) == N;
    assert Resent(c, 0, 1, N + 1, 0) == [];
  }

  /** All children have everything up to N - 1, result N has gone out, and an old request for 0 arrives: result N
      is resent as number 0. */
  lemma OutdatedRun(c: Config) returns (es: seq<Event>, t: State)
    requires ValidConfig(c)
    ensures Ends(c, Free, es, t, NakIn(0, 0), Went(t, [Data(0, 0, Partial(c, N, Ports(c.fanIn)))]))
  {
    hide Handle;
    StartsLevel(c);
    var es1, s1 := LevelUp(c, Free, Init(c.fanIn), -1, 0, N, 0);
    var es2, s2 := AckAll(c, s1, -1, N, c.fanIn);
    var es3, s3 := LevelUp(c, Free, s2, N - 1, N, N + 1, 0);
    RunsOn(c, Free, Init(c.fanIn), es1, s1, es2, s2);
    RunsOn(c, Free, Init(c.fanIn), es1 + es2, s2, es3, s3);
    OutdatedStep(c, s3);
    return es1 + es2 + es3, s3;
  }

  // ----- Exactly which windows are safe

  /** With two children or more, no child ever overruns the ring if and only if the window over results is at most
      the ring. */
  lemma NoOverrunIff(c: Config, w: nat)
    requires ValidConfig(c) && c.fanIn >= 2
    ensures (forall es, t, e :: !Ends(c, ByResults(w), es, t, e, RingOverrun)) <==> w <= N
  {
    if w <= N {
      forall es, t, e
        ensures !Ends(c, ByResults(w), es, t, e, RingOverrun)
      {
        if Ends(c, ByResults(w), es, t, e, RingOverrun) {
          WithinResultWindow(c, w, es, t, e, RingOverrun);
        }
      }
    } else {
      var es, t, e := OverrunRun(c, w);
    }
  }

  /** No window over results keeps the assertion at line 809 from firing, not even one of a single packet. */
  lemma ResultWindowIsNotEnough(c: Config, w: nat)
    requires ValidConfig(c) && w >= 1
    ensures exists es, t, e :: Ends(c, ByResults(w), es, t, e, ResultUnfreed)
  {
    var es, t, e := UnfreedRun(c, ByResults(w));
  }

  /** No assertion ever fires if and only if the window over own acknowledgements is at most the ring. */
  lemma NoAssertionFiresIff(c: Config, w: nat)
    requires ValidConfig(c)
    ensures (forall es, t, e, o :: Ends(c, ByAcks(w), es, t, e, o) ==> o.Went? || o.Spins?) <==> w <= N
  {
    if w <= N {
      forall es, t, e, o | Ends(c, ByAcks(w), es, t, e, o)
        ensures o.Went? || o.Spins?
      {
        WithinAckWindow(c, w, es, t, e, o);
      }
    } else {
      var es, t, e := UnfreedRun(c, ByAcks(w));
      assert !ResultUnfreed.Went? && !ResultUnfreed.Spins?;
    }
  }

  /** The switch handles every packet to the end, in every run, if and only if that window is smaller than the
      ring. */
  lemma NeverStuckIff(c: Config, w: nat)
    requires ValidConfig(c)
    ensures (forall es, t, e, o :: Ends(c, ByAcks(w), es, t, e, o) ==> o.Went?) <==> w < N
  {
    if w < N {
      forall es, t, e, o | Ends(c, ByAcks(w), es, t, e, o)
        ensures o.Went?
      {
        WithinAckWindow(c, w, es, t, e, o);
      }
    } else {
      var es, t, e := SpinningRun(c, ByAcks(w));
      assert !Spins.Went?;
    }
  }
}
