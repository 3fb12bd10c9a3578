/** The host side (`api.c`): cutting an array into messages, the sliding window over the completion queue, and
    putting the received messages back together.

    The verbs library is a list of posted work requests and a script of what polling the completion queue
    returns; words are in host order, the conversions to and from network order cancelling out.
 */
module HostApi {
  import opened Words

  const WINDOW_SIZE: nat := 8192
  const MESSAGE_SIZE: nat := 4096
  const PAYLOAD_COUNT: nat := 1024
  const WINDOW: nat := WINDOW_SIZE / MESSAGE_SIZE

  function MessageNum(len: nat): nat {
    (len + PAYLOAD_COUNT - 1) / PAYLOAD_COUNT
  }

  /** Message i of an array, padded with zeros. */
  function Chunk(src: seq<Word>, i: nat): (p: Payload)
    ensures |p| == PAYLOAD_COUNT
  {
    var at := i * PAYLOAD_COUNT;
    seq<Word>(PAYLOAD_COUNT, j requires 0 <= j < PAYLOAD_COUNT => if at + j < |src| then src[at + j] else 0)
  }

  datatype Posted = Message(idx: nat, data: Payload)

  /** The first k messages of an array. */
  function Messages(src: seq<Word>, k: nat): (r: seq<Posted>)
    ensures |r| == k
  {
    seq(k, i requires 0 <= i < k => Message(i, Chunk(src, i)))
  }

  function Min(a: nat, b: nat): nat {
    if a <= b then a else b
  }

  /** Messages sent once r results have come back: two more than that, as far as there are any. */
  function SendNum(messageNum: nat, r: nat): (n: nat)
    ensures n <= messageNum && n <= r + 2
    ensures n < messageNum ==> n == r + 2
  {
    Min(messageNum, WINDOW + r)
  }

  /** A send completion is `own` if its message belongs to the present operation, and otherwise left over from
      an earlier one that did not drain the queue. */
  datatype Completion = Recv(idx: nat, data: Payload) | SendDone(own: bool, id: nat) | Failed

  /** One call of `ibv_poll_cq`: some completions, or an error. */
  datatype Poll = Batch(completions: seq<Completion>) | PollError

  datatype Status = Done | Aborted | Waiting

  // ----- What a sequence of completions amounts to

  function RecvCount(cs: seq<Completion>): nat {
    if cs == [] then 0
    else RecvCount(cs[..|cs| - 1]) + if cs[|cs| - 1].Recv? then 1 else 0
  }

  function SendCount(cs: seq<Completion>): nat {
    if cs == [] then 0
    else SendCount(cs[..|cs| - 1]) + if cs[|cs| - 1].SendDone? then 1 else 0
  }

  /** The received messages, by work request. */
  function Received(cs: seq<Completion>): map<nat, Payload> {
    if cs == [] then map[]
    else
      var last := cs[|cs| - 1];
      var rest := Received(cs[..|cs| - 1]);
      if last.Recv? then rest[last.idx := last.data] else rest
  }

  function Flat(polls: seq<Poll>): seq<Completion> {
    if polls == [] then []
    else Flat(polls[..|polls| - 1]) + if polls[|polls| - 1].Batch? then polls[|polls| - 1].completions else []
  }

  /** Each posted receive completes at most once, with a whole message. */
  ghost predicate ProperReceives(cs: seq<Completion>, messageNum: nat) {
    && (forall k :: 0 <= k < |cs| && cs[k].Recv? ==> cs[k].idx < messageNum && |cs[k].data| == PAYLOAD_COUNT)
    && (forall a, b :: 0 <= a < b < |cs| && cs[a].Recv? && cs[b].Recv? ==> cs[a].idx != cs[b].idx)
  }

  /** The destination after the received messages have been copied out. */
  function CopiedOut(dst: seq<Word>, got: map<nat, Payload>): (r: seq<Word>)
    requires forall i :: i in got ==> |got[i]| == PAYLOAD_COUNT
    ensures |r| == |dst|
  {
    seq(|dst|, k requires 0 <= k < |dst| =>
      if k / PAYLOAD_COUNT in got then got[k / PAYLOAD_COUNT][k % PAYLOAD_COUNT] else dst[k])
  }

  lemma CopiedOutAt(dst: seq<Word>, got: map<nat, Payload>, k: nat)
    requires k < |dst| && forall i :: i in got ==> |got[i]| == PAYLOAD_COUNT
    ensures CopiedOut(dst, got)[k]
         == if k / PAYLOAD_COUNT in got then got[k / PAYLOAD_COUNT][k % PAYLOAD_COUNT] else dst[k]
  {
  }

  lemma {:induction false} ReceivedAre(cs: seq<Completion>, messageNum: nat)
    requires ProperReceives(cs, messageNum)
    ensures forall i :: i in Received(cs) ==> i < messageNum && |Received(cs)[i]| == PAYLOAD_COUNT
    ensures forall i :: i in Received(cs) ==> exists k :: 0 <= k < |cs| && cs[k].Recv? && cs[k].idx == i
    ensures |Received(cs)| == RecvCount(cs)
  {
    if cs != [] {
      var front, last := cs[..|cs| - 1], cs[|cs| - 1];
      ReceivedAre(front, messageNum);
      if last.Recv? {
        var got := Received(front);
        assert last.idx !in got;
        assert got[last.idx := last.data].Keys == got.Keys + {last.idx};
      }
    }
  }

  lemma {:induction false} CountsAdd(a: seq<Completion>, b: seq<Completion>)
    ensures RecvCount(a + b) == RecvCount(a) + RecvCount(b)
    ensures SendCount(a + b) == SendCount(a) + SendCount(b)
  {
    if b == [] {
      assert a + b == a;
    } else {
      CountsAdd(a, b[..|b| - 1]);
      assert (a + b)[..|a + b| - 1] == a + b[..|b| - 1];
    }
  }

  lemma {:induction false} CountAtMostLength(cs: seq<Completion>)
    ensures RecvCount(cs) + SendCount(cs) <= |cs|
    ensures (forall k :: 0 <= k < |cs| ==> !cs[k].Failed?) ==> RecvCount(cs) + SendCount(cs) == |cs|
    ensures RecvCount(cs) == 0 <==> forall k :: 0 <= k < |cs| ==> !cs[k].Recv?
  {
    if cs != [] {
      CountAtMostLength(cs[..|cs| - 1]);
    }
  }

  /** Whoever has looked at some of the completions has seen no more receives than there are requests. */
  lemma PrefixReceives(all: seq<Completion>, seen: seq<Completion>, messageNum: nat)
    requires ProperReceives(all, messageNum) && seen <= all
    ensures RecvCount(seen) <= RecvCount(all) <= messageNum
  {
    assert all == seen + all[|seen|..];
    CountsAdd(seen, all[|seen|..]);
    ReceivedAre(all, messageNum);
    AllPorts(messageNum, Received(all).Keys);
    assert |Received(all).Keys| == |Received(all)|;
  }

  /** If each message has the right contents, so has what is kept of it. */
  lemma {:induction false} ReceivedMatch(cs: seq<Completion>, expected: nat -> Payload)
    requires forall k :: 0 <= k < |cs| && cs[k].Recv? ==> cs[k].data == expected(cs[k].idx)
    ensures forall i :: i in Received(cs) ==> Received(cs)[i] == expected(i)
  {
    if cs != [] {
      ReceivedMatch(cs[..|cs| - 1], expected);
    }
  }

  /** As many messages as there are requests: every request has been answered. */
  lemma AllReceived(cs: seq<Completion>, messageNum: nat)
    requires ProperReceives(cs, messageNum) && RecvCount(cs) == messageNum
    ensures forall i :: 0 <= i < messageNum ==> i in Received(cs)
  {
    ReceivedAre(cs, messageNum);
    var keys := Received(cs).Keys;
    assert keys <= Ports(messageNum);
    AllPorts(messageNum, keys);
    assert |keys| == |Received(cs)|;
    forall i: nat | i < messageNum
      ensures i in Received(cs)
    {
      assert i in Ports(messageNum);
    }
  }

  /** No poll fails, and no completion does. */
  ghost predicate Sound(polls: seq<Poll>) {
    && (forall p :: 0 <= p < |polls| ==> polls[p].Batch?)
    && (forall k :: 0 <= k < |Flat(polls)| ==> !Flat(polls)[k].Failed?)
  }

  lemma {:induction false} FlatPrefixes(polls: seq<Poll>, p: nat)
    requires p <= |polls|
    ensures Flat(polls[..p]) <= Flat(polls)
  {
    if p == |polls| {
      assert polls[..p] == polls;
    } else {
      FlatPrefixes(polls[..|polls| - 1], p);
      assert polls[..|polls| - 1][..p] == polls[..p];
    }
  }

  lemma FlatPrefix(polls: seq<Poll>, p: nat)
    requires p < |polls|
    ensures Flat(polls[..p + 1]) == Flat(polls[..p]) + if polls[p].Batch? then polls[p].completions else []
    ensures Flat(polls[..p + 1]) <= Flat(polls) && Flat(polls[..p]) <= Flat(polls)
  {
    assert polls[..p + 1][..p] == polls[..p];
    FlatPrefixes(polls, p);
    FlatPrefixes(polls, p + 1);
  }

  /** One more completion of a batch. */
  lemma NextSeen(before: seq<Completion>, batch: seq<Completion>, i: nat, all: seq<Completion>, messageNum: nat)
    requires i < |batch| && before + batch <= all && ProperReceives(all, messageNum)
    ensures var seen := before + batch[..i];
            var seen' := seen + [batch[i]];
            && seen' == before + batch[..i + 1] && seen' <= all && all[|seen|] == batch[i]
            && ProperReceives(seen', messageNum)
            && (batch[i].Recv? ==> batch[i].idx < messageNum && |batch[i].data| == PAYLOAD_COUNT)
            && RecvCount(seen') == RecvCount(seen) + (if batch[i].Recv? then 1 else 0)
            && Received(seen')
            == if batch[i].Recv? then Received(seen)[batch[i].idx := batch[i].data] else Received(seen)
  {
    var seen := before + batch[..i];
    var seen' := seen + [batch[i]];
    assert seen' == before + batch[..i + 1];
    assert forall k :: 0 <= k < |seen'| ==> seen'[k] == all[k];
    assert seen'[..|seen|] == seen;
  }

  lemma NextSend(before: seq<Completion>, batch: seq<Completion>, i: nat, all: seq<Completion>)
    requires i < |batch| && before + batch <= all
    ensures var seen := before + batch[..i];
            var seen' := seen + [batch[i]];
            && seen' == before + batch[..i + 1] && seen' <= all && seen <= all && all[|seen|] == batch[i]
            && SendCount(seen') == SendCount(seen) + (if batch[i].SendDone? then 1 else 0)
  {
    var seen := before + batch[..i];
    var seen' := seen + [batch[i]];
    assert seen' == before + batch[..i + 1];
    assert forall k :: 0 <= k < |seen'| ==> seen'[k] == all[k];
    assert seen'[..|seen|] == seen;
  }

  // ----- Send completions

  /** The loop of a Reduce sender tests its bound once a poll: it ends after the first poll by which as many send
      completions have been counted as there are messages. */
  ghost predicate EndsAt(polls: seq<Poll>, p: nat, messageNum: nat) {
    GoesOnUntil(polls, p, messageNum) && SendCount(Flat(polls[..p])) >= messageNum
  }

  ghost predicate GoesOnUntil(polls: seq<Poll>, p: nat, messageNum: nat) {
    p <= |polls| && forall r :: 0 <= r < p ==> SendCount(Flat(polls[..r])) < messageNum
  }

  lemma GoesOn(polls: seq<Poll>, p: nat, messageNum: nat)
    requires GoesOnUntil(polls, p, messageNum) && p < |polls| && SendCount(Flat(polls[..p])) < messageNum
    ensures GoesOnUntil(polls, p + 1, messageNum)
  {
  }

  class Communicator {
    const sendPayload: array<Word>
    const receivePayload: array<Word>
    var posted: seq<Posted>

    ghost predicate Fits(messageNum: nat)
      reads this
    {
      && sendPayload != receivePayload
      && messageNum * PAYLOAD_COUNT <= sendPayload.Length && messageNum * PAYLOAD_COUNT <= receivePayload.Length
    }

    /** The send buffer holds the first k messages. */
    ghost predicate Prepared(src: seq<Word>, k: nat)
      reads this, sendPayload
    {
      && k * PAYLOAD_COUNT <= sendPayload.Length
      && forall w :: 0 <= w < k * PAYLOAD_COUNT ==> sendPayload[w] == if w < |src| then src[w] else 0
    }

    /** Fills the send buffer, message by message and word by word. */
    method Prepare(src: seq<Word>, messageNum: nat)
      requires Fits(messageNum)
      modifies sendPayload
      ensures Prepared(src, messageNum)
      ensures forall w :: 0 <= w < messageNum * PAYLOAD_COUNT && w < |src| ==> sendPayload[w] == src[w]
      ensures forall w :: |src| <= w < messageNum * PAYLOAD_COUNT ==> sendPayload[w] == 0
    {
      for i := 0 to messageNum
        invariant Prepared(src, i)
      {
        for j := 0 to PAYLOAD_COUNT
          invariant forall w :: 0 <= w < i * PAYLOAD_COUNT + j ==> sendPayload[w] == if w < |src| then src[w] else 0
        {
          var srcIdx := i * PAYLOAD_COUNT + j;
          if srcIdx < |src| {
            sendPayload[srcIdx] := src[srcIdx];
          } else {
            sendPayload[srcIdx] := 0;
          }
        }
      }
    }

    /** Posts a prepared message. */
    method PostSend(ghost src: seq<Word>, idx: nat, ghost messageNum: nat)
      requires Prepared(src, messageNum) && idx < messageNum
      modifies this`posted
      ensures posted == old(posted) + [Message(idx, Chunk(src, idx))]
    {
      var data := sendPayload[idx * PAYLOAD_COUNT..(idx + 1) * PAYLOAD_COUNT];
      assert data == Chunk(src, idx);
      posted := posted + [Message(idx, data)];
    }

    /** Posts the messages of the first window. */
    method PostWindow(ghost src: seq<Word>, messageNum: nat) returns (sendNum: nat)
      requires Prepared(src, messageNum)
      modifies this`posted
      ensures sendNum == SendNum(messageNum, 0)
      ensures posted == old(posted) + Messages(src, sendNum)
    {
      sendNum := 0;
      while sendNum < WINDOW && sendNum < messageNum
        invariant sendNum <= SendNum(messageNum, 0)
        invariant posted == old(posted) + Messages(src, sendNum)
      {
        PostNext(src, old(posted), sendNum, messageNum);
        sendNum := sendNum + 1;
      }
    }

    method PostNext(ghost src: seq<Word>, ghost before: seq<Posted>, sendNum: nat, ghost messageNum: nat)
      requires Prepared(src, messageNum) && sendNum < messageNum
      requires posted == before + Messages(src, sendNum)
      modifies this`posted
      ensures posted == before + Messages(src, sendNum + 1)
    {
      PostSend(src, sendNum, messageNum);
      assert Messages(src, sendNum + 1) == Messages(src, sendNum) + [Message(sendNum, Chunk(src, sendNum))];
    }

    /** The card writes a message into its part of the receive buffer; the host copies it out as far as the
        destination goes. */
    method CopyOut(dst: array<Word>, idx: nat, data: Payload, ghost messageNum: nat, ghost got: map<nat, Payload>,
                   ghost start: seq<Word>)
      requires Fits(messageNum) && idx < messageNum && |data| == PAYLOAD_COUNT
      requires dst != sendPayload && dst != receivePayload && dst.Length == |start|
      requires forall i :: i in got ==> |got[i]| == PAYLOAD_COUNT
      requires dst[..] == CopiedOut(start, got)
      modifies receivePayload, dst
      ensures dst[..] == CopiedOut(start, got[idx := data])
    {
      var base := idx * PAYLOAD_COUNT;
      forall j | 0 <= j < PAYLOAD_COUNT {
        receivePayload[base + j] := data[j];
      }
      for j := 0 to PAYLOAD_COUNT
        invariant forall w :: 0 <= w < PAYLOAD_COUNT ==> receivePayload[base + w] == data[w]
        invariant forall k :: 0 <= k < dst.Length ==>
                    dst[k] == if base <= k < base + j then data[k - base] else CopiedOut(start, got)[k]
      {
        var dstIdx := base + j;
        if dstIdx < dst.Length {
          dst[dstIdx] := receivePayload[dstIdx];
        }
      }
      forall k | 0 <= k < dst.Length
        ensures dst[k] == CopiedOut(start, got[idx := data])[k]
      {
        assert k / PAYLOAD_COUNT == idx <==> base <= k < base + PAYLOAD_COUNT;
      }
    }

    /** `send_num == min(message_num, W + receive_num)`, and exactly those messages have been posted. */
    ghost predicate Progress(src: seq<Word>, messageNum: nat, sendNum: nat, receiveNum: nat, seen: seq<Completion>,
                             before: seq<Posted>)
      reads this
    {
      && receiveNum == RecvCount(seen) && sendNum == SendNum(messageNum, receiveNum)
      && posted == before + Messages(src, sendNum)
      && ProperReceives(seen, messageNum)
      && forall i :: i in Received(seen) ==> |Received(seen)[i]| == PAYLOAD_COUNT
    }

    /** A received message: copy it out, and send the next one if there is one. */
    method OnReceive(ghost src: seq<Word>, dst: array<Word>, messageNum: nat, c: Completion, sendNum: nat,
                     receiveNum: nat, ghost seen: seq<Completion>, ghost before: seq<Posted>, ghost start: seq<Word>)
      returns (sendNum': nat)
      requires Fits(messageNum) && Prepared(src, messageNum)
      requires Progress(src, messageNum, sendNum, receiveNum, seen, before)
      requires dst != sendPayload && dst != receivePayload && dst.Length == |start|
      requires dst[..] == CopiedOut(start, Received(seen))
      requires c.Recv? && ProperReceives(seen + [c], messageNum)
      requires RecvCount(seen + [c]) == receiveNum + 1 && Received(seen + [c]) == Received(seen)[c.idx := c.data]
      modifies this`posted, receivePayload, dst
      ensures Progress(src, messageNum, sendNum', receiveNum + 1, seen + [c], before)
      ensures dst[..] == CopiedOut(start, Received(seen + [c]))
    {
      assert (seen + [c])[|seen|] == c;
      CopyOut(dst, c.idx, c.data, messageNum, Received(seen), start);
      sendNum' := sendNum;
      if sendNum < messageNum {
        PostNext(src, before, sendNum, messageNum);
        sendNum' := sendNum + 1;
      }
    }

    /** The loop over the completions of one poll. */
    method TakeBatch(ghost src: seq<Word>, dst: array<Word>, messageNum: nat, batch: seq<Completion>, sendNum0: nat,
                     receiveNum0: nat, ghost seen0: seq<Completion>, ghost all: seq<Completion>,
                     ghost before: seq<Posted>, ghost start: seq<Word>)
      returns (failed: bool, sendNum: nat, receiveNum: nat, ghost seen: seq<Completion>)
      requires Fits(messageNum) && Prepared(src, messageNum)
      requires Progress(src, messageNum, sendNum0, receiveNum0, seen0, before)
      requires dst != sendPayload && dst != receivePayload && dst.Length == |start|
      requires dst[..] == CopiedOut(start, Received(seen0))
      requires seen0 + batch <= all && ProperReceives(all, messageNum)
      modifies this`posted, receivePayload, dst
      ensures Prepared(src, messageNum) && Progress(src, messageNum, sendNum, receiveNum, seen, before)
      ensures dst[..] == CopiedOut(start, Received(seen))
      ensures seen <= all && (if failed then |seen| < |all| && all[|seen|].Failed? else seen == seen0 + batch)
    {
      sendNum, receiveNum, seen := sendNum0, receiveNum0, seen0;
      for i := 0 to |batch|
        invariant seen == seen0 + batch[..i]
        invariant Prepared(src, messageNum) && Progress(src, messageNum, sendNum, receiveNum, seen, before)
        invariant dst[..] == CopiedOut(start, Received(seen))
      {
        NextSeen(seen0, batch, i, all, messageNum);
        if batch[i].Failed? {
          return true, sendNum, receiveNum, seen;
        }
        if batch[i].Recv? {
          sendNum := OnReceive(src, dst, messageNum, batch[i], sendNum, receiveNum, seen, before, start);
          receiveNum := receiveNum + 1;
        }
        seen := seen + [batch[i]];
      }
      assert batch[..|batch|] == batch;
      failed := false;
    }

    /** `inccl_allreduce_sendrecv` after its control message.  `polls` is what polling the completion queue
        returns, call by call; `seen` are the completions looked at. */
    method AllReduceSendrecv(src: seq<Word>, dst: array<Word>, polls: seq<Poll>)
      returns (status: Status, ghost seen: seq<Completion>)
      requires Fits(MessageNum(|src|)) && dst.Length == |src| && dst != sendPayload && dst != receivePayload
      requires ProperReceives(Flat(polls), MessageNum(|src|))
      modifies this`posted, sendPayload, receivePayload, dst
      ensures seen <= Flat(polls)
      ensures posted == old(posted) + Messages(src, SendNum(MessageNum(|src|), RecvCount(seen)))
      ensures forall i :: i in Received(seen) ==> |Received(seen)[i]| == PAYLOAD_COUNT
      ensures dst[..] == CopiedOut(old(dst[..]), Received(seen))
      ensures status.Done? ==> RecvCount(seen) == MessageNum(|src|)
      ensures status.Aborted? ==> !Sound(polls)
      ensures status.Waiting? ==> seen == Flat(polls) && RecvCount(seen) != MessageNum(|src|)
    {
      var messageNum := MessageNum(|src|);
      ghost var start := dst[..];
      Prepare(src, messageNum);
      var sendNum := PostWindow(src, messageNum);
      var receiveNum, p := 0, 0;
      seen := [];
      while receiveNum != messageNum
        invariant p <= |polls| && seen == Flat(polls[..p])
        invariant Prepared(src, messageNum) && Progress(src, messageNum, sendNum, receiveNum, seen, old(posted))
        invariant dst[..] == CopiedOut(start, Received(seen))
        decreases |polls| - p
      {
        if p == |polls| {
          assert polls[..p] == polls;
          return Waiting, seen;
        }
        FlatPrefix(polls, p);
        if polls[p].PollError? {
          return Aborted, seen;
        }
        var failed;
        failed, sendNum, receiveNum, seen := TakeBatch(src, dst, messageNum, polls[p].completions, sendNum, receiveNum,
                                                       seen, Flat(polls), old(posted), start);
        if failed {
          return Aborted, seen;
        }
        p := p + 1;
      }
      FlatPrefixes(polls, p);
      return Done, seen;
    }

    /** The loop over the completions of one poll of a Reduce sender. */
    method TakeSends(ghost src: seq<Word>, messageNum: nat, batch: seq<Completion>, sendNum0: nat, complete0: nat,
                     ghost seen0: seq<Completion>, ghost all: seq<Completion>, ghost before: seq<Posted>)
      returns (failed: bool, sendNum: nat, complete: nat, ghost seen: seq<Completion>)
      requires Prepared(src, messageNum) && complete0 == SendCount(seen0) && sendNum0 == SendNum(messageNum, complete0)
      requires posted == before + Messages(src, sendNum0) && seen0 + batch <= all
      modifies this`posted
      ensures complete == SendCount(seen) && sendNum == SendNum(messageNum, complete)
      ensures posted == before + Messages(src, sendNum)
      ensures seen <= all && (if failed then |seen| < |all| && all[|seen|].Failed? else seen == seen0 + batch)
    {
      sendNum, complete, seen := sendNum0, complete0, seen0;
      for i := 0 to |batch|
        invariant seen == seen0 + batch[..i]
        invariant complete == SendCount(seen) && sendNum == SendNum(messageNum, complete)
        invariant posted == before + Messages(src, sendNum)
      {
        NextSend(seen0, batch, i, all);
        if batch[i].SendDone? {
          complete := complete + 1;
          if sendNum < messageNum {
            PostNext(src, before, sendNum, messageNum);
            sendNum := sendNum + 1;
          }
        } else if batch[i].Failed? {
          return true, sendNum, complete, seen;
        }
        seen := seen + [batch[i]];
      }
      assert batch[..|batch|] == batch;
      failed := false;
    }

    /** The sender of `inccl_reduce_sendrecv` that is not the root: the bound of its loop moves as it sends.  It
        is done after `taken` polls, when every message has been sent and as many completions have been counted. */
    method ReduceSender(src: seq<Word>, polls: seq<Poll>)
      returns (status: Status, ghost seen: seq<Completion>, ghost taken: nat)
      requires Fits(MessageNum(|src|))
      modifies this`posted, sendPayload
      ensures seen <= Flat(polls)
      ensures posted == old(posted) + Messages(src, SendNum(MessageNum(|src|), SendCount(seen)))
      ensures status.Done? ==> EndsAt(polls, taken, MessageNum(|src|)) && seen == Flat(polls[..taken])
      ensures status.Done? ==> posted == old(posted) + Messages(src, MessageNum(|src|))
      ensures status.Aborted? ==> !Sound(polls)
      ensures status.Waiting? ==> seen == Flat(polls) && SendCount(seen) < MessageNum(|src|)
    {
      var messageNum := MessageNum(|src|);
      assert GoesOnUntil(polls, 0, messageNum);
      hide GoesOnUntil, Messages;
      Prepare(src, messageNum);
      var sendNum := PostWindow(src, messageNum);
      var sendComplete, p := 0, 0;
      seen := [];
      while sendComplete < sendNum
        invariant p <= |polls| && seen == Flat(polls[..p]) && GoesOnUntil(polls, p, messageNum)
        invariant Prepared(src, messageNum)
        invariant sendComplete == SendCount(seen) && sendNum == SendNum(messageNum, sendComplete)
        invariant posted == old(posted) + Messages(src, sendNum)
        decreases |polls| - p
      {
        if p == |polls| {
          assert polls[..p] == polls;
          return Waiting, seen, p;
        }
        FlatPrefix(polls, p);
        GoesOn(polls, p, messageNum);
        if polls[p].PollError? {
          return Aborted, seen, p;
        }
        var failed;
        failed, sendNum, sendComplete, seen := TakeSends(src, messageNum, polls[p].completions, sendNum, sendComplete,
                                                         seen, Flat(polls), old(posted));
        if failed {
          return Aborted, seen, p;
        }
        p := p + 1;
      }
      FlatPrefixes(polls, p);
      return Done, seen, p;
    }
  }
}
