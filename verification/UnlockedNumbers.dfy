/** The counters `send_psn` of the refactored switch, which number what each connection is sent and which no lock
    protects.  On top of the interleaving of `LockedSlots`, taking a number is split into reading the counter and
    writing it back, and the packet is sent later still.
 */
module UnlockedNumbers {
  import opened Words
  import opened Rings
  import opened LockedSlots

  /** What a thread that is about to send to a connection has of its number. */
  datatype Held = Nothing | Read(number: nat) | Taken(number: nat)

  /** A packet sent: its number, and the PSN whose result it carries. */
  datatype Out = Out(number: nat, psn: nat, data: Payload)

  datatype Numbering = Numbering(s: State, sendPsn: seq<nat>, held: seq<Held>, out: seq<seq<Out>>)

  datatype Act = Locked(e: Event) | ReadCounter(thread: nat) | WriteCounter(thread: nat)

  predicate WellFormed(c: Config, t: Numbering) {
    Shaped(c, t.s) && |t.sendPsn| == |t.held| == |t.out| == c.fanIn
  }

  ghost function Start(c: Config): (t: Numbering)
    ensures WellFormed(c, t)
  {
    Numbering(Init(c), seq(c.fanIn, i => 0), seq(c.fanIn, i => Nothing), seq(c.fanIn, i => []))
  }

  /** Thread i is about to send a result to the connection it has come to. */
  predicate Serves(c: Config, s: State, i: nat)
    requires Shaped(c, s)
  {
    i < c.fanIn && s.pcs[i].Sending? && s.pcs[i].k < c.fanIn && Receives(c, s.pcs[i].k)
  }

  /** Event e sends something. */
  predicate Sends(c: Config, s: State, e: Event)
    requires Shaped(c, s)
  {
    e.SendOne? && Serves(c, s, e.thread)
  }

  ghost predicate CanAct(c: Config, t: Numbering, a: Act)
    requires WellFormed(c, t)
  {
    match a
    case Locked(e) => Enabled(c, t.s, e) && (Sends(c, t.s, e) ==> t.held[e.thread].Taken?)
    case ReadCounter(i) => Serves(c, t.s, i) && t.held[i].Nothing?
    case WriteCounter(i) => Serves(c, t.s, i) && t.held[i].Read?
  }

  ghost function Do(c: Config, t: Numbering, a: Act): (t': Numbering)
    requires ValidConfig(c) && WellFormed(c, t) && CanAct(c, t, a)
    ensures WellFormed(c, t')
  {
    match a
    case Locked(e) =>
      if Sends(c, t.s, e) then
        var i := e.thread;
        var q, k := t.s.pcs[i].psn, t.s.pcs[i].k;
        Numbering(Apply(c, t.s, e), t.sendPsn, t.held[i := Nothing],
                  t.out[k := t.out[k] + [Out(t.held[i].number, q, Outgoing(c, t.s.slots[Idx(q)]))]])
      else t.(s := Apply(c, t.s, e))
    case ReadCounter(i) => t.(held := t.held[i := Read(t.sendPsn[t.s.pcs[i].k])])
    case WriteCounter(i) =>
      t.(sendPsn := t.sendPsn[t.s.pcs[i].k := t.held[i].number + 1], held := t.held[i := Taken(t.held[i].number)])
  }

  /** Thread i is completing q and has not served connection k yet. */
  predicate Owes(c: Config, s: State, i: nat, q: nat, k: nat)
    requires Shaped(c, s) && i < c.fanIn
  {
    Completer(c, s, i, q) && (s.pcs[i].Sending? ==> s.pcs[i].k <= k)
  }

  ghost predicate Outstanding(c: Config, s: State, q: nat, k: nat)
    requires Shaped(c, s)
  {
    exists i :: 0 <= i < c.fanIn && Owes(c, s, i, q, k)
  }

  /** Connection k receives results, and is not owed that of q any more. */
  ghost predicate Settled(c: Config, s: State, q: nat, k: nat)
    requires Shaped(c, s)
  {
    Receives(c, k) && Full(s, q) && !Outstanding(c, s, q, k)
  }

  /** Connection k, if it receives results, has been sent exactly those that are complete and not owed to it, each
      under its own number. */
  ghost predicate OutInv(c: Config, t: Numbering, k: nat)
    requires ValidConfig(c) && WellFormed(c, t) && k < c.fanIn
  {
    && (forall x :: 0 <= x < |t.out[k]| ==> t.out[k][x] == Out(x, x, Total(c.load(x), c.len)))
    && (forall q: nat :: q < |t.out[k]| <==> Settled(c, t.s, q, k))
  }

  /** The number a thread holds is the next of the connection it serves. */
  ghost predicate HeldInv(c: Config, t: Numbering, i: nat)
    requires WellFormed(c, t) && i < c.fanIn
  {
    t.held[i] != Nothing ==> Serves(c, t.s, i) && t.held[i].number == |t.out[t.s.pcs[i].k]|
  }

  ghost predicate TakenFor(c: Config, t: Numbering, i: nat, k: nat)
    requires WellFormed(c, t)
  {
    Serves(c, t.s, i) && t.s.pcs[i].k == k && t.held[i].Taken?
  }

  /** A counter is one ahead of what has been sent exactly while a number is taken. */
  ghost predicate CounterInv(c: Config, t: Numbering, k: nat)
    requires WellFormed(c, t) && k < c.fanIn
  {
    t.sendPsn[k] == |t.out[k]| + if exists i: nat :: TakenFor(c, t, i, k) then 1 else 0
  }

  ghost predicate NumberInv(c: Config, t: Numbering) {
    && ValidConfig(c) && WellFormed(c, t) && Inv(c, t.s)
    && (forall k :: 0 <= k < c.fanIn ==> OutInv(c, t, k) && CounterInv(c, t, k))
    && (forall i :: 0 <= i < c.fanIn ==> HeldInv(c, t, i))
  }

  lemma StartKeepsNumbers(c: Config)
    requires ValidConfig(c)
    ensures NumberInv(c, Start(c))
  {
    InvInitially(c);
    var t := Start(c);
    assert t.s.next[0] == 0;
    forall q: nat
      ensures !Full(t.s, q)
    {
    }
  }

  /** A thread that serves is the only one that does, and serves the result that comes next for the connection. */
  lemma ServedNext(c: Config, t: Numbering, i: nat)
    requires NumberInv(c, t) && Serves(c, t.s, i)
    ensures |t.out[t.s.pcs[i].k]| == t.s.pcs[i].psn
    ensures forall j: nat :: Serves(c, t.s, j) ==> j == i
    ensures Outgoing(c, t.s.slots[Idx(t.s.pcs[i].psn)]) == Total(c.load(t.s.pcs[i].psn), c.len)
    ensures Full(t.s, t.s.pcs[i].psn) && t.s.next[i] == t.s.pcs[i].psn + 1
  {
    var q, k := t.s.pcs[i].psn, t.s.pcs[i].k;
    assert ThreadInv(c, t.s, i);
    assert Completer(c, t.s, i, q);
    CompletedSlotHoldsTotal(c, t.s, i, q);
    forall j: nat | Serves(c, t.s, j)
      ensures j == i
    {
      OneCompleterAtAll(c, t.s, i, q, j, t.s.pcs[j].psn);
    }
    assert OutInv(c, t, k);
    assert Owes(c, t.s, i, q, k);
    assert !Settled(c, t.s, q, k);
    if q > 0 {
      NothingOwedBefore(c, t.s, i, q, q - 1, k);
      assert Settled(c, t.s, q - 1, k);
    }
  }

  lemma NothingOwedBefore(c: Config, s: State, i: nat, q: nat, x: nat, k: nat)
    requires Inv(c, s) && i < c.fanIn && Completer(c, s, i, q) && x < q
    ensures Full(s, x) && !Outstanding(c, s, x, k)
  {
    assert ThreadInv(c, s, i);
    if j :| 0 <= j < c.fanIn && Owes(c, s, j, x, k) {
      OneCompleterAtAll(c, s, i, q, j, x);
    }
  }

  // ----- Steps

  lemma ReadKeepsNumbers(c: Config, t: Numbering, i: nat)
    requires NumberInv(c, t) && CanAct(c, t, ReadCounter(i))
    ensures NumberInv(c, Do(c, t, ReadCounter(i)))
  {
    hide Inv, Settled;
    var t' := Do(c, t, ReadCounter(i));
    ServedNext(c, t, i);
    assert forall j: nat, k: nat :: !TakenFor(c, t, j, k) && !TakenFor(c, t', j, k);
    forall k | 0 <= k < c.fanIn
      ensures OutInv(c, t', k) && CounterInv(c, t', k)
    {
      assert OutInv(c, t, k) && CounterInv(c, t, k);
    }
    assert CounterInv(c, t, t.s.pcs[i].k);
    forall j | 0 <= j < c.fanIn
      ensures HeldInv(c, t', j)
    {
      assert HeldInv(c, t, j);
    }
  }

  lemma SameTaken(c: Config, t: Numbering, u: Numbering, k: nat)
    requires WellFormed(c, t) && WellFormed(c, u) && k < c.fanIn
    requires forall i: nat :: TakenFor(c, t, i, k) <==> TakenFor(c, u, i, k)
    ensures (exists i: nat :: TakenFor(c, t, i, k)) <==> (exists i: nat :: TakenFor(c, u, i, k))
  {
  }

  lemma WriteKeepsNumbers(c: Config, t: Numbering, i: nat)
    requires NumberInv(c, t) && CanAct(c, t, WriteCounter(i))
    ensures NumberInv(c, Do(c, t, WriteCounter(i)))
  {
    hide Inv, Settled;
    var t' := Do(c, t, WriteCounter(i));
    ServedNext(c, t, i);
    assert HeldInv(c, t, i);
    forall k | 0 <= k < c.fanIn
      ensures OutInv(c, t', k) && CounterInv(c, t', k)
    {
      assert OutInv(c, t, k) && CounterInv(c, t, k);
      if k == t.s.pcs[i].k {
        assert TakenFor(c, t', i, k);
      } else {
        SameTaken(c, t, t', k);
      }
    }
    forall j | 0 <= j < c.fanIn
      ensures HeldInv(c, t', j)
    {
      assert HeldInv(c, t, j);
    }
  }

  /** Serving connection k settles what is owed to it and to nobody else. */
  lemma SendSettles(c: Config, s: State, i: nat, q: nat, k: nat)
    requires Inv(c, s) && Serves(c, s, i)
    ensures var s', psn, served := Apply(c, s, SendOne(i)), s.pcs[i].psn, s.pcs[i].k;
            Settled(c, s', q, k) <==> Settled(c, s, q, k) || (q == psn && k == served)
  {
    var s', psn, served := Apply(c, s, SendOne(i)), s.pcs[i].psn, s.pcs[i].k;
    assert Completer(c, s, i, psn);
    assert ThreadInv(c, s, i);
    SameHistory(c, s, s');
    if Outstanding(c, s', q, k) {
      var j :| 0 <= j < c.fanIn && Owes(c, s', j, q, k);
      assert Owes(c, s, j, q, k);
      if q == psn {
        OneCompleterAtAll(c, s, i, psn, j, q);
      }
    }
    if Outstanding(c, s, q, k) && !(q == psn && k == served) {
      var j :| 0 <= j < c.fanIn && Owes(c, s, j, q, k);
      OneCompleterAtAll(c, s, i, psn, j, q);
      assert Owes(c, s', j, q, k);
    }
  }

  lemma SendKeepsOut(c: Config, t: Numbering, i: nat, k: nat)
    requires NumberInv(c, t) && Serves(c, t.s, i) && CanAct(c, t, Locked(SendOne(i))) && k < c.fanIn
    ensures OutInv(c, Do(c, t, Locked(SendOne(i))), k)
  {
    hide Inv, Settled;
    var t' := Do(c, t, Locked(SendOne(i)));
    var psn, served := t.s.pcs[i].psn, t.s.pcs[i].k;
    ServedNext(c, t, i);
    assert HeldInv(c, t, i);
    assert OutInv(c, t, k);
    forall q: nat
      ensures q < |t'.out[k]| <==> Settled(c, t'.s, q, k)
    {
      SendSettles(c, t.s, i, q, k);
    }
  }

  lemma SendKeepsNumbers(c: Config, t: Numbering, i: nat)
    requires NumberInv(c, t) && RingSuffices(c) && Serves(c, t.s, i) && CanAct(c, t, Locked(SendOne(i)))
    ensures NumberInv(c, Do(c, t, Locked(SendOne(i))))
  {
    hide Inv, OutInv;
    var t' := Do(c, t, Locked(SendOne(i)));
    StepKeepsInv(c, t.s, SendOne(i));
    ServedNext(c, t, i);
    forall k | 0 <= k < c.fanIn
      ensures OutInv(c, t', k) && CounterInv(c, t', k)
    {
      SendKeepsOut(c, t, i, k);
      assert CounterInv(c, t, k);
      forall j: nat
        ensures !TakenFor(c, t', j, k)
      {
        assert TakenFor(c, t', j, k) ==> Serves(c, t.s, j);
      }
      if k == t.s.pcs[i].k {
        assert TakenFor(c, t, i, k);
      }
    }
    forall j | 0 <= j < c.fanIn
      ensures HeldInv(c, t', j)
    {
      assert HeldInv(c, t, j);
    }
  }

  /** A step that sends nothing changes nothing about what is settled. */
  lemma OtherStepOwes(c: Config, s: State, e: Event, q: nat, k: nat)
    requires Inv(c, s) && RingSuffices(c) && Enabled(c, s, e) && !Sends(c, s, e) && k < c.fanIn
    ensures var s' := Apply(c, s, e);
            Settled(c, s', q, k) <==> Settled(c, s, q, k)
  {
    match e
    case Aggregate(i) => AggregateOwes(c, s, i, q, k);
    case Decide(i) => SameOwed(c, s, Apply(c, s, e), i, q, k);
    case SendOne(i) => SameOwed(c, s, Apply(c, s, e), i, q, k);
    case Clear(i) => SameOwed(c, s, Apply(c, s, e), i, q, k);
  }

  lemma SameOwed(c: Config, s: State, t: State, i: nat, q: nat, k: nat)
    requires Shaped(c, s) && Shaped(c, t) && i < c.fanIn && s.next == t.next
    requires forall j :: 0 <= j < c.fanIn && j != i ==> t.pcs[j] == s.pcs[j]
    requires Receives(c, k) ==> (Owes(c, t, i, q, k) <==> Owes(c, s, i, q, k))
    ensures Settled(c, t, q, k) <==> Settled(c, s, q, k)
  {
    SameHistory(c, s, t);
    forall j | 0 <= j < c.fanIn && Receives(c, k)
      ensures Owes(c, t, j, q, k) <==> Owes(c, s, j, q, k)
    {
    }
  }

  /** What a contribution makes full, its thread has to complete, and nothing else changes. */
  lemma AggregateFills(c: Config, s: State, i: nat, q: nat)
    requires Inv(c, s) && RingSuffices(c) && Enabled(c, s, Aggregate(i))
    ensures var s', p := Apply(c, s, Aggregate(i)), s.next[i];
            && !Full(s, p) && (q != p ==> (Full(s', q) <==> Full(s, q)))
            && Completer(c, s', i, q) == (q == p && Full(s', q)) && !Completer(c, s, i, q)
  {
    hide ObserverInv, ThreadInv;
    SlotIsOurs(c, s, i);
    NewObserver(c, s, i);
    AddedSlot(c, s, i);
    ContributorsAfter(c, s, i, q);
  }

  /** A contribution that makes q full makes its thread owe q to everybody. */
  lemma AggregateOwes(c: Config, s: State, i: nat, q: nat, k: nat)
    requires Inv(c, s) && RingSuffices(c) && Enabled(c, s, Aggregate(i)) && k < c.fanIn
    ensures var s' := Apply(c, s, Aggregate(i));
            Settled(c, s', q, k) <==> Settled(c, s, q, k)
  {
    hide SlotInv, ThreadInv, ObserverInv, Full, Completer;
    var s' := Apply(c, s, Aggregate(i));
    AggregateFills(c, s, i, q);
    if q == s.next[i] && Full(s', q) {
      assert Owes(c, s', i, q, k);
    } else {
      forall j | 0 <= j < c.fanIn
        ensures Owes(c, s', j, q, k) <==> Owes(c, s, j, q, k)
      {
        SamePc(c, s, s', j, q);
      }
    }
  }

  lemma SamePc(c: Config, s: State, t: State, j: nat, q: nat)
    requires Shaped(c, s) && Shaped(c, t) && j < c.fanIn
    ensures s.pcs[j] == t.pcs[j] ==> (Completer(c, s, j, q) <==> Completer(c, t, j, q))
  {
  }

  /** Whoever holds a number keeps it, and nobody gets one. */
  lemma HeldKept(c: Config, t: Numbering, e: Event, i: nat, k: nat)
    requires NumberInv(c, t) && CanAct(c, t, Locked(e)) && !Sends(c, t.s, e)
    ensures var t' := Do(c, t, Locked(e));
            && (i < c.fanIn ==> HeldInv(c, t', i))
            && (TakenFor(c, t, i, k) <==> TakenFor(c, t', i, k))
  {
    hide Inv, OutInv, CounterInv;
    if i < c.fanIn {
      assert HeldInv(c, t, i);
    }
  }

  lemma LockedStepKeepsNumbers(c: Config, t: Numbering, e: Event)
    requires NumberInv(c, t) && RingSuffices(c) && CanAct(c, t, Locked(e)) && !Sends(c, t.s, e)
    ensures NumberInv(c, Do(c, t, Locked(e)))
  {
    hide Inv, Settled, HeldInv, TakenFor;
    var t' := Do(c, t, Locked(e));
    StepKeepsInv(c, t.s, e);
    forall i | 0 <= i < c.fanIn
      ensures HeldInv(c, t', i)
    {
      HeldKept(c, t, e, i, 0);
    }
    forall k: nat | k < c.fanIn
      ensures OutInv(c, t', k) && CounterInv(c, t', k)
    {
      assert OutInv(c, t, k) && CounterInv(c, t, k);
      forall i: nat
        ensures TakenFor(c, t, i, k) <==> TakenFor(c, t', i, k)
      {
        HeldKept(c, t, e, i, k);
      }
      SameTaken(c, t, t', k);
      forall q: nat
        ensures q < |t'.out[k]| <==> Settled(c, t'.s, q, k)
      {
        OtherStepOwes(c, t.s, e, q, k);
      }
    }
  }

  lemma ActKeepsNumbers(c: Config, t: Numbering, a: Act)
    requires NumberInv(c, t) && RingSuffices(c) && CanAct(c, t, a)
    ensures NumberInv(c, Do(c, t, a))
  {
    match a
    case ReadCounter(i) => ReadKeepsNumbers(c, t, i);
    case WriteCounter(i) => WriteKeepsNumbers(c, t, i);
    case Locked(e) =>
      if Sends(c, t.s, e) {
        SendKeepsNumbers(c, t, e.thread);
      } else {
        LockedStepKeepsNumbers(c, t, e);
      }
  }

  // ----- Runs

  ghost predicate Acts(c: Config, t: Numbering, acts: seq<Act>, u: Numbering)
    requires ValidConfig(c) && WellFormed(c, t)
    decreases |acts|
  {
    if acts == [] then t == u
    else CanAct(c, t, acts[0]) && Acts(c, Do(c, t, acts[0]), acts[1..], u)
  }

  lemma {:induction false} RunKeepsNumbers(c: Config, t: Numbering, acts: seq<Act>, u: Numbering)
    requires NumberInv(c, t) && RingSuffices(c) && Acts(c, t, acts, u)
    ensures NumberInv(c, u)
    decreases |acts|
  {
    if acts != [] {
      ActKeepsNumbers(c, t, acts[0]);
      RunKeepsNumbers(c, Do(c, t, acts[0]), acts[1..], u);
    }
  }

  /** Although the counters are read and written without a lock, in every interleaving each connection is sent
      packets 0, 1, 2, ..., without gap or repeat, and packet x carries the global sum for x.  It has been sent exactly
      if the connection receives results, all hosts have contributed to x, and no thread has still to serve the
      connection with it. */
  lemma NumbersNeedNoLock(c: Config, acts: seq<Act>, u: Numbering, k: nat)
    requires ValidConfig(c) && RingSuffices(c) && Acts(c, Start(c), acts, u) && k < c.fanIn
    ensures WellFormed(c, u)
    ensures forall x :: 0 <= x < |u.out[k]| ==> u.out[k][x] == Out(x, x, Total(c.load(x), c.len))
    ensures forall x: nat :: x < |u.out[k]| <==> Settled(c, u.s, x, k)
  {
    StartKeepsNumbers(c);
    RunKeepsNumbers(c, Start(c), acts, u);
    assert OutInv(c, u, k);
  }
}
