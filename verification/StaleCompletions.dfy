/** Send completions that an earlier operation has left in the completion queue, and what they do to a sender of a
    Reduce, which counts them as its own.

    The queue is first in, first out; one poll takes at most as many completions as the operation has messages, and
    no message completes before it has been posted.
 */
module StaleCompletions {
  import opened Words
  import opened HostApi

  const CONTROL_ID: nat := 0xFFFF_FFFF

  /** The messages of the present operation whose completions have been seen. */
  function OwnIds(cs: seq<Completion>): set<nat> {
    if cs == [] then {}
    else
      var last := cs[|cs| - 1];
      OwnIds(cs[..|cs| - 1]) + if last.SendDone? && last.own then {last.id} else {}
  }

  predicate Stale(cs: seq<Completion>) {
    forall k :: 0 <= k < |cs| ==> cs[k].SendDone? && !cs[k].own
  }

  /** What the queue delivers over an operation of m messages when `ahead` is in it beforehand. */
  function Queue(ahead: seq<Completion>, m: nat): (r: seq<Completion>)
    ensures |r| == |ahead| + m
  {
    ahead + seq(m, i requires 0 <= i < m => SendDone(true, i))
  }

  /** The polls of a Reduce sender may return this. */
  ghost predicate Delivered(polls: seq<Poll>, queue: seq<Completion>, m: nat) {
    && Flat(polls) <= queue
    && forall p :: 0 <= p < |polls| ==>
         && polls[p].Batch? && |polls[p].completions| <= m
         && forall c :: c in polls[p].completions && c.SendDone? && c.own ==>
              c.id < SendNum(m, SendCount(Flat(polls[..p])))
  }

  /** Of a queue with stale completions ahead, the first k: all are counted, and the own ones come last. */
  lemma {:induction false} PrefixCounts(ahead: seq<Completion>, m: nat, k: nat)
    requires Stale(ahead) && k <= |ahead| + m
    ensures SendCount(Queue(ahead, m)[..k]) == k
    ensures OwnIds(Queue(ahead, m)[..k]) == Ports(if k <= |ahead| then 0 else k - |ahead|)
  {
    if k > 0 {
      PrefixCounts(ahead, m, k - 1);
      assert Queue(ahead, m)[..k][..k - 1] == Queue(ahead, m)[..k - 1];
    }
  }

  lemma FewerPorts(a: nat, b: nat)
    ensures Ports(a) == Ports(b) <==> a == b
  {
    PortsCount(a);
    PortsCount(b);
  }

  /** When the loop ends, all messages have been completed if and only if everything that was ahead of them has been
      counted on top: the last poll must have brought all the rest of the queue. */
  lemma CompleteIffDrained(ahead: seq<Completion>, m: nat, polls: seq<Poll>, p: nat)
    requires Stale(ahead) && Delivered(polls, Queue(ahead, m), m) && EndsAt(polls, p, m)
    ensures OwnIds(Flat(polls[..p])) == Ports(m) <==> m == 0 || Flat(polls[..p]) == Queue(ahead, m)
  {
    FlatPrefixes(polls, p);
    var seen := Flat(polls[..p]);
    assert seen <= Queue(ahead, m) && seen == Queue(ahead, m)[..|seen|];
    PrefixCounts(ahead, m, |seen|);
    FewerPorts(if |seen| <= |ahead| then 0 else |seen| - |ahead|, m);
  }

  // ----- A run that ends too early

  function OneByOne(queue: seq<Completion>, m: nat): (polls: seq<Poll>)
    requires m <= |queue|
    ensures |polls| == m
  {
    seq(m, i requires 0 <= i < m => Batch([queue[i]]))
  }

  lemma {:induction false} FlatOneByOne(queue: seq<Completion>, m: nat, k: nat)
    requires k <= m <= |queue|
    ensures Flat(OneByOne(queue, m)[..k]) == queue[..k]
  {
    if k > 0 {
      FlatOneByOne(queue, m, k - 1);
      var polls := OneByOne(queue, m);
      assert polls[..k][..k - 1] == polls[..k - 1];
      assert queue[..k] == queue[..k - 1] + [queue[k - 1]];
    }
  }

  /** After k polls, one by one. */
  lemma CountOneByOne(ahead: seq<Completion>, m: nat, k: nat)
    requires Stale(ahead) && k <= m
    ensures var seen := Flat(OneByOne(Queue(ahead, m), m)[..k]);
            && seen == Queue(ahead, m)[..k] && SendCount(seen) == k
            && OwnIds(seen) == Ports(if k <= |ahead| then 0 else k - |ahead|)
  {
    FlatOneByOne(Queue(ahead, m), m, k);
    PrefixCounts(ahead, m, k);
  }

  lemma OneByOneDelivered(ahead: seq<Completion>, m: nat)
    requires Stale(ahead)
    ensures Delivered(OneByOne(Queue(ahead, m), m), Queue(ahead, m), m)
  {
    hide Flat, SendCount, OwnIds;
    var polls := OneByOne(Queue(ahead, m), m);
    CountOneByOne(ahead, m, m);
    assert polls[..m] == polls;
    forall p: nat | p < |polls|
      ensures forall c :: c in polls[p].completions && c.SendDone? && c.own ==>
                c.id < SendNum(m, SendCount(Flat(polls[..p])))
    {
      CountOneByOne(ahead, m, p);
    }
  }

  /** Polled one by one the completions end the loop when the last messages are still under way. */
  lemma EarlyRun(ahead: seq<Completion>, m: nat) returns (polls: seq<Poll>)
    requires Stale(ahead) && m > 0 && ahead != []
    ensures Delivered(polls, Queue(ahead, m), m) && EndsAt(polls, m, m)
    ensures OwnIds(Flat(polls[..m])) == Ports(if m <= |ahead| then 0 else m - |ahead|) != Ports(m)
  {
    hide Flat, SendCount, OwnIds, Delivered;
    polls := OneByOne(Queue(ahead, m), m);
    OneByOneDelivered(ahead, m);
    forall k: nat | k <= m
      ensures SendCount(Flat(polls[..k])) == k
    {
      CountOneByOne(ahead, m, k);
    }
    CountOneByOne(ahead, m, m);
    FewerPorts(if m <= |ahead| then 0 else m - |ahead|, m);
  }

  /** However the queue is polled, all messages of the operation have been completed when the loop ends. */
  ghost predicate AlwaysComplete(ahead: seq<Completion>, m: nat) {
    forall polls, p :: Delivered(polls, Queue(ahead, m), m) && EndsAt(polls, p, m) ==>
      OwnIds(Flat(polls[..p])) == Ports(m)
  }

  /** Whatever the batches, all messages of a Reduce have been completed when its sender returns, if and only if
      nothing of an earlier operation was in the queue. */
  lemma AllCompletedIffNothingStale(ahead: seq<Completion>, m: nat)
    requires Stale(ahead)
    ensures AlwaysComplete(ahead, m) <==> ahead == [] || m == 0
  {
    if ahead == [] || m == 0 {
      forall polls, p | Delivered(polls, Queue(ahead, m), m) && EndsAt(polls, p, m)
        ensures OwnIds(Flat(polls[..p])) == Ports(m)
      {
        CompleteIffDrained(ahead, m, polls, p);
        if m > 0 {
          CountAtMostLength(Flat(polls[..p]));
          FlatPrefixes(polls, p);
        }
      }
    } else {
      var polls := EarlyRun(ahead, m);
    }
  }

  // ----- Where they come from

  /** An AllReduce of m messages has left the loop when it had seen `seen` of all its completions: what it leaves is
      the send completions it has not looked at. */
  lemma AllReduceLeaves(all: seq<Completion>, seen: seq<Completion>, m: nat)
    requires ProperReceives(all, m) && (forall k :: 0 <= k < |all| ==> !all[k].Failed?)
    requires seen <= all && RecvCount(seen) == m && SendCount(all) == m
    ensures forall k :: |seen| <= k < |all| ==> all[k].SendDone?
    ensures |all| - |seen| == m - SendCount(seen)
  {
    var rest := all[|seen|..];
    assert all == seen + rest;
    CountsAdd(seen, rest);
    ReceivedAre(all, m);
    AllPorts(m, Received(all).Keys);
    assert |Received(all).Keys| == |Received(all)|;
    CountAtMostLength(rest);
    forall k | |seen| <= k < |all|
      ensures all[k].SendDone?
    {
      assert all[k] == rest[k - |seen|];
    }
  }

  function Aged(cs: seq<Completion>): (r: seq<Completion>)
    requires forall k :: 0 <= k < |cs| ==> cs[k].SendDone?
    ensures |r| == |cs| && Stale(r)
  {
    seq(|cs|, k requires 0 <= k < |cs| => SendDone(false, cs[k].id))
  }

  /** The control message of the next operation waits for one completion, whichever comes, and so leaves its own in
      the queue if there is an older one. */
  function AfterControl(left: seq<Completion>): (r: seq<Completion>)
    requires Stale(left)
    ensures |r| == |left| && Stale(r)
  {
    (left + [SendDone(false, CONTROL_ID)])[1..]
  }

  /** A Reduce of r messages after an AllReduce of m: all its messages have been completed when its sender returns, in
      every run, if and only if the AllReduce had looked at all its send completions before it returned. */
  lemma ReduceAfterAllReduce(all: seq<Completion>, seen: seq<Completion>, m: nat, r: nat)
    requires ProperReceives(all, m) && (forall k :: 0 <= k < |all| ==> !all[k].Failed?)
    requires seen <= all && RecvCount(seen) == m && SendCount(all) == m
    ensures forall k :: 0 <= k < |all[|seen|..]| ==> all[|seen|..][k].SendDone?
    ensures AlwaysComplete(AfterControl(Aged(all[|seen|..])), r) <==> SendCount(seen) == m || r == 0
  {
    AllReduceLeaves(all, seen, m);
    AllCompletedIffNothingStale(AfterControl(Aged(all[|seen|..])), r);
  }

  /** Such an AllReduce: its receives come first, and it returns without having looked at any send completion. */
  lemma AllReduceMayLeaveAll(m: nat, data: Payload) returns (all: seq<Completion>, seen: seq<Completion>)
    requires |data| == PAYLOAD_COUNT
    ensures ProperReceives(all, m) && (forall k :: 0 <= k < |all| ==> !all[k].Failed?)
    ensures seen <= all && RecvCount(seen) == m && SendCount(all) == m && SendCount(seen) == 0
  {
    seen := seq(m, i requires 0 <= i < m => Recv(i, data));
    var sends := seq(m, i requires 0 <= i < m => SendDone(true, i));
    all := seen + sends;
    CountsAdd(seen, sends);
    CountAtMostLength(seen);
    CountAtMostLength(sends);
    AllReceives(seen);
    PrefixCounts([], m, m);
    assert Queue([], m)[..m] == sends;
  }

  lemma {:induction false} AllReceives(cs: seq<Completion>)
    requires forall k :: 0 <= k < |cs| ==> cs[k].Recv?
    ensures RecvCount(cs) == |cs|
  {
    if cs != [] {
      AllReceives(cs[..|cs| - 1]);
    }
  }
}
