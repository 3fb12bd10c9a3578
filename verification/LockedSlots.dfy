/** AllReduce and Reduce in the refactored switch (`switch_main.c`) with one thread per connection, interleaved at
    the granularity of the per-slot lock.

    A thread handles its packets one at a time.  For each it enters the slot's critical section once to add
    its data and remember the degree it saw; the thread that saw the full degree then sends the sum, all without
    the lock, and enters the critical section again to clear the slot.  In an AllReduce it first copies the sum to
    the broadcast buffer and sends that connection by connection; in a Reduce it sends the sum itself to the root.
 */
module LockedSlots {
  import opened Words
  import opened Rings

  datatype Operation = AllReduce | Reduce(root: nat)

  /** `load(q)[i]` is host i's packet q, of `count` packets; a host that receives results has at most `window`
      packets without one.  The others, the senders of a Reduce, are not held back. */
  datatype Config = Config(fanIn: nat, len: nat, window: nat, op: Operation, count: nat, load: nat -> seq<Payload>)

  predicate Receives(c: Config, k: nat) {
    c.op.Reduce? ==> k == c.op.root
  }

  /** The ring is large enough for the operation. */
  predicate RingSuffices(c: Config) {
    c.count <= N || (c.op.AllReduce? && c.window < N)
  }

  ghost predicate ValidConfig(c: Config) {
    && c.fanIn >= 1 && c.window >= 1 && (c.op.Reduce? ==> c.op.root < c.fanIn)
    && forall q: nat {:trigger c.load(q)} :: |c.load(q)| == c.fanIn && Uniform(c.load(q), c.len)
  }

  /** What a thread does next: take a packet, act on the degree it saw, send to connection k or pass it over, or
      clear. */
  datatype Pc = Ready | Observed(psn: nat, degree: nat) | Sending(psn: nat, k: nat)

  datatype Slot = Slot(degree: nat, arrived: set<nat>, sum: Payload, bcast: Payload)

  /** `owner` and `observers` are history: the PSN each slot is in use for, and which thread saw the full
      degree of which PSN. */
  datatype State = State(pcs: seq<Pc>, next: seq<nat>, slots: seq<Slot>, sent: seq<map<nat, Payload>>,
                         owner: seq<nat>, observers: set<(nat, nat)>)

  datatype Event = Aggregate(thread: nat) | Decide(thread: nat) | SendOne(thread: nat) | Clear(thread: nat)

  predicate Shaped(c: Config, s: State) {
    && |s.pcs| == |s.next| == |s.sent| == c.fanIn
    && |s.slots| == |s.owner| == N
  }

  ghost function Init(c: Config): (s: State)
    ensures Shaped(c, s)
  {
    State(seq(c.fanIn, i => Ready), seq(c.fanIn, i => 0), seq(N, k => Slot(0, {}, [], [])),
          seq(c.fanIn, i => map[]), seq(N, k => k), {})
  }

  /** Host i may send its next packet. */
  predicate WindowOpen(c: Config, s: State, i: nat)
    requires Shaped(c, s) && i < c.fanIn
  {
    && s.next[i] < c.count
    && (Receives(c, i) ==> s.next[i] < c.window || s.next[i] - c.window in s.sent[i])
  }

  ghost predicate Enabled(c: Config, s: State, e: Event)
    requires Shaped(c, s)
  {
    && e.thread < c.fanIn
    && var pc := s.pcs[e.thread];
       match e
       case Aggregate(i) => pc.Ready? && WindowOpen(c, s, i) && AddFits(c, s, i)
       case Decide(_) => pc.Observed?
       case SendOne(_) => pc.Sending? && pc.k < c.fanIn
       case Clear(_) => pc.Sending? && pc.k == c.fanIn
  }

  /** The buffer is long enough for the addition; always so when the slot is the packet's own. */
  ghost predicate AddFits(c: Config, s: State, i: nat)
    requires Shaped(c, s) && i < c.fanIn
  {
    var slot := s.slots[Idx(s.next[i])];
    slot.degree == 0 || |slot.sum| == c.len
  }

  function Added(slot: Slot, i: nat, data: Payload): Slot
    requires slot.degree == 0 || |slot.sum| == |data|
  {
    Slot(slot.degree + 1, slot.arrived + {i}, if slot.degree == 0 then data else AddPayload(slot.sum, data), slot.bcast)
  }

  /** What is sent of a slot that is complete. */
  function Outgoing(c: Config, slot: Slot): Payload {
    if c.op.AllReduce? then slot.bcast else slot.sum
  }

  ghost function Apply(c: Config, s: State, e: Event): (s': State)
    requires ValidConfig(c) && Shaped(c, s) && Enabled(c, s, e)
    ensures Shaped(c, s')
  {
    var i := e.thread;
    match e
    case Aggregate(_) =>
      var q := s.next[i];
      var slot := Added(s.slots[Idx(q)], i, c.load(q)[i]);
      s.(pcs := s.pcs[i := Observed(q, slot.degree)], next := s.next[i := q + 1],
         slots := s.slots[Idx(q) := slot],
         observers := if slot.degree == c.fanIn then s.observers + {(i, q)} else s.observers)
    case Decide(_) =>
      var q := s.pcs[i].psn;
      if s.pcs[i].degree == c.fanIn then
        var slot := s.slots[Idx(q)];
        s.(pcs := s.pcs[i := Sending(q, 0)],
           slots := s.slots[Idx(q) := if c.op.AllReduce? then slot.(bcast := slot.sum) else slot])
      else s.(pcs := s.pcs[i := Ready])
    case SendOne(_) =>
      var q: nat, k: nat := s.pcs[i].psn, s.pcs[i].k;
      var m: map<nat, Payload> := s.sent[k][q := Outgoing(c, s.slots[Idx(q)])];
      s.(pcs := s.pcs[i := Sending(q, k + 1)], sent := if Receives(c, k) then s.sent[k := m] else s.sent)
    case Clear(_) =>
      var q := s.pcs[i].psn;
      s.(pcs := s.pcs[i := Ready], slots := s.slots[Idx(q) := s.slots[Idx(q)].(degree := 0, arrived := {})],
         owner := s.owner[Idx(q) := q + N])
  }

  /** Threads that have added their packet q. */
  ghost function Contributors(s: State, q: nat): set<nat> {
    set i | 0 <= i < |s.next| && s.next[i] > q
  }

  ghost predicate Full(s: State, q: nat) {
    forall i :: 0 <= i < |s.next| ==> s.next[i] > q
  }

  /** Thread i saw the full degree of q and has not yet cleared the slot. */
  predicate Completer(c: Config, s: State, i: nat, q: nat)
    requires Shaped(c, s) && i < c.fanIn
  {
    var pc := s.pcs[i];
    !pc.Ready? && pc.psn == q && (pc.Observed? ==> pc.degree == c.fanIn)
  }

  ghost predicate SlotInv(c: Config, s: State, k: nat)
    requires ValidConfig(c) && Shaped(c, s) && k < N
  {
    var o := s.owner[k];
    && Idx(o) == k
    && s.slots[k].arrived == Contributors(s, o)
    && s.slots[k].degree == |Contributors(s, o)|
    && (Contributors(s, o) != {} ==> s.slots[k].sum == SumOf(c.load(o), Contributors(s, o), c.len))
    && (forall i :: 0 <= i < c.fanIn ==> s.next[i] <= o + N)
    && (o >= N ==> Full(s, o - N))
    && (Full(s, o) ==> exists d :: 0 <= d < c.fanIn && Completer(c, s, d, o))
  }

  ghost predicate ThreadInv(c: Config, s: State, i: nat)
    requires ValidConfig(c) && Shaped(c, s) && i < c.fanIn
  {
    var pc := s.pcs[i];
    && (!pc.Ready? ==> pc.psn + 1 == s.next[i])
    && (!pc.Ready? && Completer(c, s, i, pc.psn) ==>
          Full(s, pc.psn) && s.owner[Idx(pc.psn)] == pc.psn && (i, pc.psn) in s.observers)
    && (pc.Sending? && c.op.AllReduce? ==> s.slots[Idx(pc.psn)].bcast == Total(c.load(pc.psn), c.len))
    && (forall q :: q in s.sent[i] ==> Full(s, q) && s.sent[i][q] == Total(c.load(q), c.len))
  }

  /** At most one thread ever sees the full degree of q, and one does once all have contributed. */
  ghost predicate ObserverInv(c: Config, s: State)
    requires Shaped(c, s)
  {
    && (forall i, j, q :: (i, q) in s.observers && (j, q) in s.observers ==> i == j)
    && (forall i, q :: (i, q) in s.observers ==> i < c.fanIn && Full(s, q))
    && (forall q: nat :: Full(s, q) ==> exists i :: (i, q) in s.observers)
  }

  ghost predicate Inv(c: Config, s: State) {
    && ValidConfig(c) && Shaped(c, s) && ObserverInv(c, s)
    && (forall k :: 0 <= k < N ==> SlotInv(c, s, k))
    && (forall i :: 0 <= i < c.fanIn ==> ThreadInv(c, s, i))
  }

  lemma InvInitially(c: Config)
    requires ValidConfig(c)
    ensures Inv(c, Init(c))
  {
    var s := Init(c);
    assert s.next[0] == 0;
    forall q: nat
      ensures !Full(s, q) && Contributors(s, q) == {}
    {
    }
  }

  lemma SlotsRepeat(a: nat, b: nat)
    requires Idx(a) == Idx(b)
    ensures a < b ==> a + N <= b
  {
  }

  /** If the ring is large enough a packet always finds its slot cleared of the previous round: the thread that
      completed that round can no longer be busy with it. */
  lemma SlotIsOurs(c: Config, s: State, i: nat)
    requires Inv(c, s) && RingSuffices(c) && i < c.fanIn && s.pcs[i].Ready? && WindowOpen(c, s, i)
    ensures s.owner[Idx(s.next[i])] == s.next[i]
  {
    var p := s.next[i];
    var o := s.owner[Idx(p)];
    assert SlotInv(c, s, Idx(p));
    SlotsRepeat(o, p);
    SlotsRepeat(p, o);
    if o < p {
      assert ThreadInv(c, s, i);
      PreviousRoundBusy(c, s, i);
    }
  }

  /** While a full slot is not cleared, the thread that completed it has taken no further packet. */
  lemma CompleterHasJustContributed(c: Config, s: State, o: nat) returns (d: nat)
    requires Inv(c, s) && s.owner[Idx(o)] == o && Full(s, o)
    ensures d < c.fanIn && s.next[d] == o + 1
  {
    assert SlotInv(c, s, Idx(o));
    d :| 0 <= d < c.fanIn && Completer(c, s, d, o);
    assert ThreadInv(c, s, d);
  }

  lemma PreviousRoundBusy(c: Config, s: State, i: nat)
    requires Inv(c, s) && i < c.fanIn && WindowOpen(c, s, i)
    requires s.owner[Idx(s.next[i])] < s.next[i] && N <= s.next[i]
    ensures !RingSuffices(c)
  {
    var p := s.next[i];
    var o := s.owner[Idx(p)];
    assert SlotInv(c, s, Idx(p));
    SlotsRepeat(o, p);
    assert o == p - N;
    if Receives(c, i) && c.window <= p {
      assert ThreadInv(c, s, i);
      assert Full(s, p - c.window);
      if c.window < N {
        var d := CompleterHasJustContributed(c, s, o);
      }
    }
  }

  // ----- Steps keep the invariant

  lemma FullIsAll(c: Config, s: State, q: nat)
    requires Shaped(c, s)
    ensures Full(s, q) <==> Contributors(s, q) == Ports(c.fanIn)
    ensures Full(s, q) <==> |Contributors(s, q)| == c.fanIn
  {
    var who := Contributors(s, q);
    AllPorts(c.fanIn, who);
    if who == Ports(c.fanIn) {
      forall i | 0 <= i < c.fanIn
        ensures s.next[i] > q
      {
        assert i in who;
      }
    }
  }

  lemma NextContributors(c: Config, s: State, i: nat, q: nat)
    requires Shaped(c, s) && i < c.fanIn
    ensures Contributors(s.(next := s.next[i := s.next[i] + 1]), q)
         == Contributors(s, q) + if q == s.next[i] then {i} else {}
    ensures Full(s.(next := s.next[i := s.next[i] + 1]), q) ==> q == s.next[i] || Full(s, q)
    ensures Full(s, q) ==> Full(s.(next := s.next[i := s.next[i] + 1]), q)
  {
    var s' := s.(next := s.next[i := s.next[i] + 1]);
    assert forall j :: 0 <= j < c.fanIn && j != i ==> s'.next[j] == s.next[j];
    if Full(s', q) && q != s.next[i] {
      forall j | 0 <= j < c.fanIn
        ensures s.next[j] > q
      {
        assert s'.next[j] > q;
      }
    }
  }

  /** The critical section: the slot's own new contents. */
  lemma AddedSlot(c: Config, s: State, i: nat)
    requires Inv(c, s) && Enabled(c, s, Aggregate(i)) && s.owner[Idx(s.next[i])] == s.next[i]
    ensures var q := s.next[i];
            var who := Contributors(s, q) + {i};
            var slot := Added(s.slots[Idx(q)], i, c.load(q)[i]);
            && i !in Contributors(s, q)
            && slot.arrived == who && slot.degree == |who| && slot.sum == SumOf(c.load(q), who, c.len)
  {
    var q := s.next[i];
    var who := Contributors(s, q);
    assert SlotInv(c, s, Idx(q));
    if who == {} {
      SumOfOne(c.load(q), c.len, i);
      assert {} + {i} == {i};
    } else {
      SumWithNewContributor(c.load(q), who, c.len, i);
    }
  }

  /** Who has contributed after thread i's critical section. */
  lemma ContributorsAfter(c: Config, s: State, i: nat, x: nat)
    requires Inv(c, s) && Enabled(c, s, Aggregate(i))
    ensures var s' := Apply(c, s, Aggregate(i));
            && Contributors(s', x) == Contributors(s, x) + (if x == s.next[i] then {i} else {})
            && (Full(s, x) ==> Full(s', x))
            && (Full(s', x) && x != s.next[i] ==> Full(s, x))
            && (Full(s', x) <==> |Contributors(s', x)| == c.fanIn)
  {
    var s' := Apply(c, s, Aggregate(i));
    NextContributors(c, s, i, x);
    assert Contributors(s', x) == Contributors(s.(next := s.next[i := s.next[i] + 1]), x);
    assert Full(s', x) == Full(s.(next := s.next[i := s.next[i] + 1]), x);
    FullIsAll(c, s', x);
  }

  lemma AggregateKeepsOwnSlot(c: Config, s: State, i: nat)
    requires Inv(c, s) && Enabled(c, s, Aggregate(i)) && s.owner[Idx(s.next[i])] == s.next[i]
    ensures SlotInv(c, Apply(c, s, Aggregate(i)), Idx(s.next[i]))
  {
    var q := s.next[i];
    var s' := Apply(c, s, Aggregate(i));
    assert SlotInv(c, s, Idx(q));
    AddedSlot(c, s, i);
    ContributorsAfter(c, s, i, q);
    if q >= N {
      ContributorsAfter(c, s, i, q - N);
    }
    if Full(s', q) {
      assert Completer(c, s', i, q);
    }
  }

  lemma AggregateKeepsOtherSlot(c: Config, s: State, i: nat, k: nat)
    requires Inv(c, s) && Enabled(c, s, Aggregate(i)) && s.owner[Idx(s.next[i])] == s.next[i]
    requires k < N && k != Idx(s.next[i])
    ensures SlotInv(c, Apply(c, s, Aggregate(i)), k)
  {
    hide ThreadInv, ObserverInv, AddFits, Contributors;
    var s' := Apply(c, s, Aggregate(i));
    var o := s.owner[k];
    assert SlotInv(c, s, k);
    OtherRoundKept(c, s, i, o);
    assert s.next[i] != o + N;
    CompletersStay(c, s, s', i, o);
  }

  lemma OtherRoundKept(c: Config, s: State, i: nat, o: nat)
    requires Inv(c, s) && Enabled(c, s, Aggregate(i)) && o != s.next[i]
    ensures var s' := Apply(c, s, Aggregate(i));
            && Contributors(s', o) == Contributors(s, o) && (Full(s', o) <==> Full(s, o))
            && (o >= N && Full(s, o - N) ==> Full(s', o - N))
  {
    hide Apply, Inv, Full, Contributors;
    ContributorsAfter(c, s, i, o);
    if o >= N {
      ContributorsAfter(c, s, i, o - N);
    }
  }

  lemma AggregateKeepsThread(c: Config, s: State, i: nat, j: nat)
    requires Inv(c, s) && Enabled(c, s, Aggregate(i)) && s.owner[Idx(s.next[i])] == s.next[i] && j < c.fanIn
    ensures ThreadInv(c, Apply(c, s, Aggregate(i)), j)
  {
    var q := s.next[i];
    var s' := Apply(c, s, Aggregate(i));
    assert ThreadInv(c, s, j);
    AddedSlot(c, s, i);
    ContributorsAfter(c, s, i, q);
    forall x: nat | Full(s, x)
      ensures Full(s', x)
    {
      ContributorsAfter(c, s, i, x);
    }
  }

  /** Whether thread i's packet fills its slot, and what that does to the set of observers. */
  lemma NewObserver(c: Config, s: State, i: nat)
    requires Inv(c, s) && Enabled(c, s, Aggregate(i)) && s.owner[Idx(s.next[i])] == s.next[i]
    ensures var q := s.next[i];
            var s' := Apply(c, s, Aggregate(i));
            && !Full(s, q)
            && s'.observers == s.observers + if Full(s', q) then {(i, q)} else {}
  {
    AddedSlot(c, s, i);
    ContributorsAfter(c, s, i, s.next[i]);
  }

  lemma AggregateKeepsObservers(c: Config, s: State, i: nat)
    requires Inv(c, s) && Enabled(c, s, Aggregate(i)) && s.owner[Idx(s.next[i])] == s.next[i]
    ensures ObserverInv(c, Apply(c, s, Aggregate(i)))
  {
    var q := s.next[i];
    var s' := Apply(c, s, Aggregate(i));
    NewObserver(c, s, i);
    forall x: nat | Full(s', x)
      ensures exists j :: (j, x) in s'.observers
    {
      ContributorsAfter(c, s, i, x);
      if x == q {
        assert (i, q) in s'.observers;
      } else {
        var j :| (j, x) in s.observers;
        assert (j, x) in s'.observers;
      }
    }
    forall j, x | (j, x) in s'.observers
      ensures j < c.fanIn && Full(s', x)
    {
      ContributorsAfter(c, s, i, x);
    }
  }

  /** Two threads are never both between seeing the full degree of q and clearing its slot. */
  lemma OneCompleter(c: Config, s: State, i: nat, j: nat, q: nat)
    requires Inv(c, s) && i < c.fanIn && j < c.fanIn && Completer(c, s, i, q) && Completer(c, s, j, q)
    ensures i == j && s.owner[Idx(q)] == q && Full(s, q)
  {
    assert ThreadInv(c, s, i);
    assert ThreadInv(c, s, j);
  }

  /** At any time at most one thread is completing anything: whoever completes q has not contributed to a later
      number yet, so no later one is full. */
  lemma OneCompleterAtAll(c: Config, s: State, i: nat, q: nat, j: nat, r: nat)
    requires Inv(c, s) && i < c.fanIn && j < c.fanIn && Completer(c, s, i, q) && Completer(c, s, j, r)
    ensures i == j && q == r
  {
    assert ThreadInv(c, s, i);
    assert ThreadInv(c, s, j);
    assert s.next[i] > r && s.next[j] > q;
    OneCompleter(c, s, i, j, q);
  }

  /** From the full observation to the clearing the slot holds the global sum. */
  lemma CompletedSlotHoldsTotal(c: Config, s: State, i: nat, q: nat)
    requires Inv(c, s) && i < c.fanIn && Completer(c, s, i, q)
    ensures s.slots[Idx(q)].sum == Total(c.load(q), c.len) && s.slots[Idx(q)].degree == c.fanIn
    ensures s.pcs[i].Sending? ==> Outgoing(c, s.slots[Idx(q)]) == Total(c.load(q), c.len)
  {
    assert ThreadInv(c, s, i);
    assert SlotInv(c, s, Idx(q));
    FullIsAll(c, s, q);
    assert 0 in Ports(c.fanIn);
  }

  lemma DecideKeepsInv(c: Config, s: State, i: nat)
    requires Inv(c, s) && Enabled(c, s, Decide(i))
    ensures Inv(c, Apply(c, s, Decide(i)))
  {
    var s' := Apply(c, s, Decide(i));
    var q := s.pcs[i].psn;
    assert ThreadInv(c, s, i);
    SameHistory(c, s, s');
    if s.pcs[i].degree == c.fanIn {
      CompletedSlotHoldsTotal(c, s, i, q);
    }
    forall k | 0 <= k < N
      ensures SlotInv(c, s', k)
    {
      assert SlotInv(c, s, k);
      CompletersStay(c, s, s', i, s.owner[k]);
    }
    forall j | 0 <= j < c.fanIn
      ensures ThreadInv(c, s', j)
    {
      assert ThreadInv(c, s, j);
      if j != i && s.pcs[j].Sending? && Completer(c, s, i, q) && Idx(s.pcs[j].psn) == Idx(q) {
        OneCompleter(c, s, i, j, q);
      }
    }
  }

  /** Steps that add no packet leave the contributors as they are. */
  lemma SameHistory(c: Config, s: State, t: State)
    requires Shaped(c, s) && Shaped(c, t) && s.next == t.next
    ensures forall q: nat :: Contributors(s, q) == Contributors(t, q)
    ensures forall q: nat :: Full(s, q) == Full(t, q)
  {
  }

  /** If thread i's step neither starts nor ends a completion of o, o has its completer as before. */
  lemma CompletersStay(c: Config, s: State, t: State, i: nat, o: nat)
    requires Shaped(c, s) && Shaped(c, t) && i < c.fanIn && (Completer(c, s, i, o) ==> Completer(c, t, i, o))
    requires forall j :: 0 <= j < c.fanIn && j != i ==> t.pcs[j] == s.pcs[j]
    ensures (exists d :: 0 <= d < c.fanIn && Completer(c, s, d, o)) ==>
              exists d :: 0 <= d < c.fanIn && Completer(c, t, d, o)
  {
    if d :| 0 <= d < c.fanIn && Completer(c, s, d, o) {
      assert Completer(c, t, d, o);
    }
  }

  lemma SendKeepsInv(c: Config, s: State, i: nat)
    requires Inv(c, s) && Enabled(c, s, SendOne(i))
    ensures Inv(c, Apply(c, s, SendOne(i)))
  {
    var s' := Apply(c, s, SendOne(i));
    assert ThreadInv(c, s, i);
    SameHistory(c, s, s');
    CompletedSlotHoldsTotal(c, s, i, s.pcs[i].psn);
    forall k | 0 <= k < N
      ensures SlotInv(c, s', k)
    {
      assert SlotInv(c, s, k);
      CompletersStay(c, s, s', i, s.owner[k]);
    }
    forall j | 0 <= j < c.fanIn
      ensures ThreadInv(c, s', j)
    {
      assert ThreadInv(c, s, j);
    }
  }

  lemma ClearKeepsInv(c: Config, s: State, i: nat)
    requires Inv(c, s) && Enabled(c, s, Clear(i))
    ensures Inv(c, Apply(c, s, Clear(i)))
  {
    var s' := Apply(c, s, Clear(i));
    var q := s.pcs[i].psn;
    assert ThreadInv(c, s, i);
    SameHistory(c, s, s');
    forall k | 0 <= k < N
      ensures SlotInv(c, s', k)
    {
      assert SlotInv(c, s, k);
      if k == Idx(q) {
        assert Contributors(s', q + N) == {};
        assert s.next[0] <= q + N;
      } else {
        CompletersStay(c, s, s', i, s.owner[k]);
      }
    }
    forall j | 0 <= j < c.fanIn
      ensures ThreadInv(c, s', j)
    {
      assert ThreadInv(c, s, j);
      if j != i && !s.pcs[j].Ready? && Completer(c, s, j, s.pcs[j].psn) && Idx(s.pcs[j].psn) == Idx(q) {
        OneCompleter(c, s, i, j, q);
      }
    }
  }

  lemma StepKeepsInv(c: Config, s: State, e: Event)
    requires Inv(c, s) && RingSuffices(c) && Enabled(c, s, e)
    ensures Inv(c, Apply(c, s, e))
  {
    match e
    case Aggregate(i) =>
      SlotIsOurs(c, s, i);
      AggregateKeepsObservers(c, s, i);
      forall k | 0 <= k < N
        ensures SlotInv(c, Apply(c, s, e), k)
      {
        if k == Idx(s.next[i]) {
          AggregateKeepsOwnSlot(c, s, i);
        } else {
          AggregateKeepsOtherSlot(c, s, i, k);
        }
      }
      forall j | 0 <= j < c.fanIn
        ensures ThreadInv(c, Apply(c, s, e), j)
      {
        AggregateKeepsThread(c, s, i, j);
      }
    case Decide(i) => DecideKeepsInv(c, s, i);
    case SendOne(i) => SendKeepsInv(c, s, i);
    case Clear(i) => ClearKeepsInv(c, s, i);
  }

  // ----- Runs

  ghost predicate Legal(c: Config, s: State, es: seq<Event>)
    requires ValidConfig(c) && Shaped(c, s)
    decreases |es|
  {
    es == [] || (Enabled(c, s, es[0]) && Legal(c, Apply(c, s, es[0]), es[1..]))
  }

  ghost function Run(c: Config, s: State, es: seq<Event>): (t: State)
    requires ValidConfig(c) && Shaped(c, s) && Legal(c, s, es)
    ensures Shaped(c, t)
    decreases |es|
  {
    if es == [] then s else Run(c, Apply(c, s, es[0]), es[1..])
  }

  lemma {:induction false} RunKeepsInv(c: Config, s: State, es: seq<Event>)
    requires Inv(c, s) && RingSuffices(c) && Legal(c, s, es)
    ensures Inv(c, Run(c, s, es))
    decreases |es|
  {
    if es != [] {
      StepKeepsInv(c, s, es[0]);
      RunKeepsInv(c, Apply(c, s, es[0]), es[1..]);
    }
  }

  /** The length condition on the critical section never holds a thread up. */
  lemma AddNeverBlocks(c: Config, es: seq<Event>, i: nat)
    requires ValidConfig(c) && RingSuffices(c) && Legal(c, Init(c), es) && i < c.fanIn
    requires Run(c, Init(c), es).pcs[i].Ready? && WindowOpen(c, Run(c, Init(c), es), i)
    ensures Enabled(c, Run(c, Init(c), es), Aggregate(i))
  {
    InvInitially(c);
    RunKeepsInv(c, Init(c), es);
    var s := Run(c, Init(c), es);
    SlotIsOurs(c, s, i);
    assert SlotInv(c, s, Idx(s.next[i]));
  }

  /** Exactly one thread per PSN sees the full degree: nobody before all have contributed, one thread and no
      other from then on. */
  lemma ExactlyOneObserver(c: Config, es: seq<Event>, q: nat)
    requires ValidConfig(c) && RingSuffices(c) && Legal(c, Init(c), es)
    ensures var s := Run(c, Init(c), es);
            && (Full(s, q) <==> exists i :: (i, q) in s.observers)
            && (forall i, j :: (i, q) in s.observers && (j, q) in s.observers ==> i == j)
  {
    InvInitially(c);
    RunKeepsInv(c, Init(c), es);
  }

  /** While thread d completes q, no step of another thread changes anything in the slot, and the slot holds
      the global sum. */
  lemma CompletionIsUndisturbed(c: Config, es: seq<Event>, e: Event, d: nat, q: nat)
    requires ValidConfig(c) && RingSuffices(c) && Legal(c, Init(c), es)
    requires d < c.fanIn && Completer(c, Run(c, Init(c), es), d, q)
    requires Enabled(c, Run(c, Init(c), es), e) && e.thread != d
    ensures var s := Run(c, Init(c), es);
            && Apply(c, s, e).slots[Idx(q)] == s.slots[Idx(q)]
            && s.slots[Idx(q)].sum == Total(c.load(q), c.len)
            && Completer(c, Apply(c, s, e), d, q)
  {
    InvInitially(c);
    RunKeepsInv(c, Init(c), es);
    var s := Run(c, Init(c), es);
    var i := e.thread;
    CompletedSlotHoldsTotal(c, s, d, q);
    OneCompleter(c, s, d, d, q);
    assert ThreadInv(c, s, i);
    if e.Aggregate? {
      SlotIsOurs(c, s, i);
      assert s.next[i] > q;
    } else if Completer(c, s, i, s.pcs[i].psn) && Idx(s.pcs[i].psn) == Idx(q) {
      OneCompleter(c, s, i, d, q);
    }
  }

  /** Every result any connection was sent is the global sum of its PSN. */
  lemma SentResultsAreTotals(c: Config, es: seq<Event>, i: nat, q: nat)
    requires ValidConfig(c) && RingSuffices(c) && Legal(c, Init(c), es) && i < c.fanIn
    requires q in Run(c, Init(c), es).sent[i]
    ensures Run(c, Init(c), es).sent[i][q] == Total(c.load(q), c.len)
  {
    InvInitially(c);
    RunKeepsInv(c, Init(c), es);
    assert ThreadInv(c, Run(c, Init(c), es), i);
  }

  // ----- The condition is sharp

  /** No completer's slot has been written to by the next round. */
  ghost predicate Safe(c: Config, s: State)
    requires Shaped(c, s)
  {
    forall d, q: nat :: 0 <= d < c.fanIn && Completer(c, s, d, q) ==> s.slots[Idx(q)].degree == c.fanIn
  }

  ghost predicate Leads(c: Config, s: State, es: seq<Event>, t: State)
    requires ValidConfig(c) && Shaped(c, s)
  {
    Legal(c, s, es) && Run(c, s, es) == t
  }

  lemma {:induction false} Then(c: Config, s: State, es: seq<Event>, t: State, e: Event)
    requires ValidConfig(c) && Shaped(c, s) && Leads(c, s, es, t) && Enabled(c, t, e)
    ensures Leads(c, s, es + [e], Apply(c, t, e))
    decreases |es|
  {
    if es == [] {
      assert [] + [e] == [e] && [e][1..] == [];
      assert Legal(c, Apply(c, t, e), []);
    } else {
      assert Leads(c, Apply(c, s, es[0]), es[1..], t);
      Then(c, Apply(c, s, es[0]), es[1..], t, e);
      assert (es + [e])[1..] == es[1..] + [e];
    }
  }

  /** The threads below n but d have added and dropped packet 0. */
  ghost predicate FirstRound(c: Config, s: State, n: nat, d: nat)
    requires Shaped(c, s)
  {
    && (forall i :: 0 <= i < c.fanIn ==> s.pcs[i].Ready? && s.next[i] == if i < n && i != d then 1 else 0)
    && s.slots[0].degree == (if d < n then n - 1 else n)
    && (s.slots[0].degree > 0 ==> |s.slots[0].sum| == c.len)
    && (forall k :: 0 < k < N ==> s.slots[k].degree == 0)
  }

  lemma FirstRoundStep(c: Config, s: State, i: nat, d: nat) returns (t: State)
    requires ValidConfig(c) && c.count > 0 && Shaped(c, s) && i < c.fanIn && d < c.fanIn && i != d
    requires FirstRound(c, s, i, d)
    ensures Enabled(c, s, Aggregate(i)) && t == Apply(c, s, Aggregate(i))
    ensures Enabled(c, t, Decide(i)) && FirstRound(c, Apply(c, t, Decide(i)), i + 1, d)
  {
    t := Apply(c, s, Aggregate(i));
  }

  lemma {:induction false} ReachFirstRound(c: Config, n: nat, d: nat) returns (es: seq<Event>, t: State)
    requires ValidConfig(c) && c.count > 0 && n <= c.fanIn && d < c.fanIn
    ensures Leads(c, Init(c), es, t) && FirstRound(c, t, n, d)
  {
    hide Enabled, Apply;
    if n == 0 {
      return [], Init(c);
    }
    es, t := ReachFirstRound(c, n - 1, d);
    if n - 1 == d {
      return;
    }
    var t1 := FirstRoundStep(c, t, n - 1, d);
    Then(c, Init(c), es, t, Aggregate(n - 1));
    Then(c, Init(c), es + [Aggregate(n - 1)], t1, Decide(n - 1));
    return es + [Aggregate(n - 1)] + [Decide(n - 1)], Apply(c, t1, Decide(n - 1));
  }

  /** Thread d is sending packet 0 and has served host h, if h receives results at all; h is q packets on. */
  ghost predicate Overtaken(c: Config, s: State, d: nat, h: nat, q: nat)
    requires Shaped(c, s)
  {
    && d < c.fanIn && h < c.fanIn && d != h
    && s.pcs[d].Sending? && s.pcs[d].psn == 0 && s.pcs[h].Ready? && (Receives(c, h) ==> 0 in s.sent[h])
    && s.next[h] == q && s.slots[0].degree == c.fanIn && |s.slots[0].sum| == c.len
    && (forall k :: q <= k < N ==> s.slots[k].degree == 0)
  }

  /** Host 0 is served first; a sender of a Reduce is not served at all. */
  predicate Overtakes(c: Config, d: nat, h: nat) {
    d < c.fanIn && h < c.fanIn && d != h && c.count > 0 && (Receives(c, h) ==> h == 0)
  }

  lemma ReachSending(c: Config, d: nat, h: nat) returns (es: seq<Event>, t: State)
    requires ValidConfig(c) && Overtakes(c, d, h)
    ensures Leads(c, Init(c), es, t) && Overtaken(c, t, d, h, 1)
  {
    var fs, s := ReachFirstRound(c, c.fanIn, d);
    Then(c, Init(c), fs, s, Aggregate(d));
    var s1 := Apply(c, s, Aggregate(d));
    Then(c, Init(c), fs + [Aggregate(d)], s1, Decide(d));
    var s2 := Apply(c, s1, Decide(d));
    Then(c, Init(c), fs + [Aggregate(d)] + [Decide(d)], s2, SendOne(d));
    return fs + [Aggregate(d)] + [Decide(d)] + [SendOne(d)], Apply(c, s2, SendOne(d));
  }

  lemma {:induction false} ReachOvertaking(c: Config, d: nat, h: nat, q: nat) returns (es: seq<Event>, t: State)
    requires ValidConfig(c) && Overtakes(c, d, h) && (Receives(c, h) ==> c.window >= N) && c.count >= N && 1 <= q <= N
    ensures Leads(c, Init(c), es, t) && Overtaken(c, t, d, h, q)
  {
    if q == 1 {
      es, t := ReachSending(c, d, h);
      return;
    }
    var fs, s := ReachOvertaking(c, d, h, q - 1);
    Then(c, Init(c), fs, s, Aggregate(h));
    var s1 := Apply(c, s, Aggregate(h));
    Then(c, Init(c), fs + [Aggregate(h)], s1, Decide(h));
    return fs + [Aggregate(h)] + [Decide(h)], Apply(c, s1, Decide(h));
  }

  /** With more packets than slots, a window as large as the ring, or in a Reduce no window at all, lets a host run a
      whole round ahead of the thread that completes it, and add its packet N to the sum that is still being sent for
      packet 0. */
  lemma OvertakenCompletion(c: Config) returns (es: seq<Event>, t: State, d: nat)
    requires ValidConfig(c) && c.fanIn >= 2 && !RingSuffices(c)
    ensures Leads(c, Init(c), es, t) && d < c.fanIn && Completer(c, t, d, 0)
    ensures t.slots[Idx(0)].degree == c.fanIn + 1
  {
    var h := if c.op == Reduce(0) then 1 else 0;
    d := 1 - h;
    var fs, s := ReachOvertaking(c, d, h, N);
    Then(c, Init(c), fs, s, Aggregate(h));
    es, t := fs + [Aggregate(h)], Apply(c, s, Aggregate(h));
  }

  lemma SafeWhenRingSuffices(c: Config, es: seq<Event>)
    requires ValidConfig(c) && RingSuffices(c) && Legal(c, Init(c), es)
    ensures Safe(c, Run(c, Init(c), es))
  {
    InvInitially(c);
    RunKeepsInv(c, Init(c), es);
    var s := Run(c, Init(c), es);
    forall d, q: nat | 0 <= d < c.fanIn && Completer(c, s, d, q)
      ensures s.slots[Idx(q)].degree == c.fanIn
    {
      CompletedSlotHoldsTotal(c, s, d, q);
    }
  }

  /** With two or more connections, completion is safe in every run if and only if there are no more packets than
      slots, or it is an AllReduce and the hosts' window is smaller than the ring. */
  lemma SafeIffRingSuffices(c: Config)
    requires ValidConfig(c) && c.fanIn >= 2
    ensures (forall es :: Legal(c, Init(c), es) ==> Safe(c, Run(c, Init(c), es))) <==>
            c.count <= N || (c.op.AllReduce? && c.window < N)
  {
    if RingSuffices(c) {
      forall es | Legal(c, Init(c), es)
        ensures Safe(c, Run(c, Init(c), es))
      {
        SafeWhenRingSuffices(c, es);
      }
    } else {
      var es, t, d := OvertakenCompletion(c);
      assert Legal(c, Init(c), es) && !Safe(c, Run(c, Init(c), es));
    }
  }
}
