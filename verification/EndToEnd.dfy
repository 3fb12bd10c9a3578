/** AllReduce and Reduce from the hosts' source arrays to the destination arrays: cutting into messages and packets,
    the hosts' loops and windows, the switch, reassembly of packets into messages, and copying out.
 */
module EndToEnd {
  import opened Words
  import opened Rings
  import opened Rules
  import opened SwitchMain
  import opened OutputStreams
  import opened OutputStreamSafety
  import HostApi

  /** The path MTU is 1024 bytes. */
  const PACKET_WORDS: nat := 256

  /** Packet j of an array, padded with zeros. */
  function Packet(src: seq<Word>, j: nat): (p: Payload)
    ensures |p| == PACKET_WORDS
  {
    var at := j * PACKET_WORDS;
    seq<Word>(PACKET_WORDS, w requires 0 <= w < PACKET_WORDS => if at + w < |src| then src[at + w] else 0)
  }

  /** Packet j of the messages a host has posted: a quarter of one of them. */
  function PacketOf(posted: seq<HostApi.Posted>, j: nat): (p: Payload)
    requires j < PACKETS * |posted| && forall k :: 0 <= k < |posted| ==> |posted[k].data| == HostApi.PAYLOAD_COUNT
    ensures |p| == PACKET_WORDS
  {
    var q := j % PACKETS;
    posted[j / PACKETS].data[q * PACKET_WORDS..(q + 1) * PACKET_WORDS]
  }

  /** The packets of the messages are the packets of the array. */
  lemma PostedPackets(src: seq<Word>, m: nat, j: nat)
    requires j < PACKETS * m
    ensures PacketOf(HostApi.Messages(src, m), j) == Packet(src, j)
  {
    var i, q := j / PACKETS, j % PACKETS;
    var p := PacketOf(HostApi.Messages(src, m), j);
    forall w | 0 <= w < PACKET_WORDS
      ensures p[w] == Packet(src, j)[w]
    {
      assert p[w] == HostApi.Chunk(src, i)[q * PACKET_WORDS + w];
      assert i * HostApi.PAYLOAD_COUNT + (q * PACKET_WORDS + w) == j * PACKET_WORDS + w;
    }
  }

  function Row(srcs: seq<seq<Word>>, j: nat): (row: seq<Payload>)
    ensures |row| == |srcs| && Uniform(row, PACKET_WORDS)
  {
    seq(|srcs|, i requires 0 <= i < |srcs| => Packet(srcs[i], j))
  }

  /** Who gets the results: everybody, or the host of one rank. */
  datatype Kind = ToAll | ToRoot(root: nat)

  predicate ValidKind(n: nat, kind: Kind) {
    n > 0 && (kind.ToRoot? ==> kind.root < n)
  }

  function PacketCount(len: nat): nat {
    PACKETS * HostApi.MessageNum(len)
  }

  /** What the hosts' arrays look like to the switch. */
  function OpOf(srcs: seq<seq<Word>>, len: nat, kind: Kind): (op: Op)
    ensures Count(op) == PacketCount(len) && Aggregates(op)
    ensures ValidKind(|srcs|, kind) ==> ValidOp(|srcs|, op)
  {
    var load := seq(PacketCount(len), j requires 0 <= j < PacketCount(len) => Row(srcs, j));
    if kind.ToAll? then AllReduceOp(load) else ReduceOp(kind.root, load)
  }

  predicate SameLength(srcs: seq<seq<Word>>, len: nat) {
    forall i :: 0 <= i < |srcs| ==> |srcs[i]| == len
  }

  /** Word k of all arrays, added up as integers. */
  function WordSum(srcs: seq<seq<Word>>, k: nat): nat
    requires forall i :: 0 <= i < |srcs| ==> k < |srcs[i]|
  {
    if srcs == [] then 0 else WordSum(srcs[..|srcs| - 1], k) + srcs[|srcs| - 1][k]
  }

  lemma {:induction false} RowSumIsWordSum(srcs: seq<seq<Word>>, len: nat, who: set<nat>, j: nat, w: nat)
    requires SameLength(srcs, len) && w < PACKET_WORDS && forall i: nat :: i < |srcs| ==> i in who
    ensures var k := j * PACKET_WORDS + w;
            NatSum(Row(srcs, j), who, PACKET_WORDS, w) == if k < len then WordSum(srcs, k) else 0
  {
    if srcs != [] {
      var front := srcs[..|srcs| - 1];
      RowSumIsWordSum(front, len, who, j, w);
      assert Row(srcs, j)[..|srcs| - 1] == Row(front, j);
    }
  }

  /** Packet j of the results. */
  function ResultPacket(srcs: seq<seq<Word>>, j: nat): (p: Payload)
    ensures |p| == PACKET_WORDS
  {
    Total(Row(srcs, j), PACKET_WORDS)
  }

  lemma ResultOfOp(srcs: seq<seq<Word>>, len: nat, kind: Kind, j: nat)
    requires ValidKind(|srcs|, kind) && j < PacketCount(len)
    ensures Result(|srcs|, OpOf(srcs, len, kind), j) == ResultPacket(srcs, j)
  {
  }

  lemma ResultIsWordSum(srcs: seq<seq<Word>>, len: nat, j: nat, w: nat)
    requires SameLength(srcs, len) && w < PACKET_WORDS
    ensures var k := j * PACKET_WORDS + w;
            ResultPacket(srcs, j)[w] == if k < len then WordSum(srcs, k) % MODULUS else 0
  {
    SumIsNatSumModulo(Row(srcs, j), Ports(|srcs|), PACKET_WORDS, w);
    RowSumIsWordSum(srcs, len, Ports(|srcs|), j, w);
  }

  // ----- Back at the hosts

  /** The card puts message m together from four packets of the stream, from position `from` on. */
  function Reassembled(stream: seq<Payload>, from: nat, m: nat): Payload
    requires from + PACKETS * (m + 1) <= |stream|
  {
    var p := from + PACKETS * m;
    stream[p] + stream[p + 1] + stream[p + 2] + stream[p + 3]
  }

  /** Message m of the results. */
  function ResultMessage(srcs: seq<seq<Word>>, m: nat): (p: Payload)
    ensures |p| == HostApi.PAYLOAD_COUNT
  {
    var p := PACKETS * m;
    ResultPacket(srcs, p) + ResultPacket(srcs, p + 1) + ResultPacket(srcs, p + 2) + ResultPacket(srcs, p + 3)
  }

  lemma WordOfFour(a: Payload, b: Payload, c: Payload, d: Payload, q: nat, w: nat)
    requires |a| == |b| == |c| == |d| == PACKET_WORDS && q < PACKETS && w < PACKET_WORDS
    ensures (a + b + c + d)[q * PACKET_WORDS + w]
         == if q == 0 then a[w] else if q == 1 then b[w] else if q == 2 then c[w] else d[w]
  {
  }

  lemma PacketOfMessage(srcs: seq<seq<Word>>, m: nat, q: nat, w: nat)
    requires q < PACKETS && w < PACKET_WORDS
    ensures ResultMessage(srcs, m)[q * PACKET_WORDS + w] == ResultPacket(srcs, PACKETS * m + q)[w]
  {
    hide ResultPacket;
    var p := PACKETS * m;
    WordOfFour(ResultPacket(srcs, p), ResultPacket(srcs, p + 1), ResultPacket(srcs, p + 2), ResultPacket(srcs, p + 3),
               q, w);
  }

  /** Each word of a result message is the sum of that word of the arrays, or zero beyond their end. */
  lemma ResultMessageWord(srcs: seq<seq<Word>>, len: nat, m: nat, j: nat)
    requires SameLength(srcs, len) && j < HostApi.PAYLOAD_COUNT
    ensures var k := m * HostApi.PAYLOAD_COUNT + j;
            ResultMessage(srcs, m)[j] == if k < len then WordSum(srcs, k) % MODULUS else 0
  {
    hide ResultMessage, ResultPacket, WordSum;
    var q, w := j / PACKET_WORDS, j % PACKET_WORDS;
    PacketOfMessage(srcs, m, q, w);
    ResultIsWordSum(srcs, len, PACKETS * m + q, w);
    assert (PACKETS * m + q) * PACKET_WORDS + w == m * HostApi.PAYLOAD_COUNT + j;
  }

  /** Copying a result message out gives sums. */
  lemma CopiedOutIsSum(srcs: seq<seq<Word>>, got: map<nat, Payload>, dst: seq<Word>, k: nat, m: nat, j: nat)
    requires SameLength(srcs, |dst|) && k < |dst|
    requires forall i :: i in got ==> |got[i]| == HostApi.PAYLOAD_COUNT
    requires m == k / HostApi.PAYLOAD_COUNT && j == k % HostApi.PAYLOAD_COUNT
    requires m in got && got[m] == ResultMessage(srcs, m)
    ensures HostApi.CopiedOut(dst, got)[k] == WordSum(srcs, k) % MODULUS
  {
    HostApi.CopiedOutAt(dst, got, k);
    ResultMessageWord(srcs, |dst|, m, j);
    assert m * HostApi.PAYLOAD_COUNT + j == k;
  }

  lemma StreamNow(conns: seq<Connection>, y: World, c: nat)
    requires Inv(conns, y) && c < |conns|
    ensures WellFormed(conns, y) && y.complete <= Count(y.op)
    ensures Payloads(y.ctx.out[c]) == OwedByAll(conns, y.past, c) + Owed(conns, y.op, c, y.complete)
  {
    assert HasSent(y.ctx, c, OwedNow(conns, y, c));
  }

  /** The end of a stream, from the present operation on: the results so far, if the connection receives any. */
  lemma StreamTail(conns: seq<Connection>, past: seq<Payload>, srcs: seq<seq<Word>>, len: nat, kind: Kind,
                   complete: nat, c: nat, stream: seq<Payload>)
    requires ValidKind(|conns|, kind) && |srcs| == |conns| && c < |conns| && complete <= PacketCount(len)
    requires stream == past + Owed(conns, OpOf(srcs, len, kind), c, complete)
    ensures Receives(conns, OpOf(srcs, len, kind), c) ==>
              |stream| == |past| + complete
              && forall j :: 0 <= j < complete ==> stream[|past| + j] == ResultPacket(srcs, j)
    ensures !Receives(conns, OpOf(srcs, len, kind), c) ==> |stream| == |past|
  {
    var op := OpOf(srcs, len, kind);
    if Receives(conns, op, c) {
      forall j | 0 <= j < complete
        ensures stream[|past| + j] == ResultPacket(srcs, j)
      {
        ResultOfOp(srcs, len, kind, j);
        assert stream[|past| + j] == Owed(conns, op, c, complete)[j];
      }
    }
  }

  /** A message put together from the end of a stream is a result message. */
  lemma StreamMessage(conns: seq<Connection>, past: seq<Payload>, srcs: seq<seq<Word>>, len: nat, kind: Kind,
                      complete: nat, i: nat, stream: seq<Payload>, m: nat)
    requires ValidKind(|conns|, kind) && |srcs| == |conns| && i < |conns| && complete <= PacketCount(len)
    requires stream == past + Owed(conns, OpOf(srcs, len, kind), i, complete)
    requires |past| + PACKETS * (m + 1) <= |stream|
    ensures m < HostApi.MessageNum(len) && PACKETS * (m + 1) <= complete
    ensures Reassembled(stream, |past|, m) == ResultMessage(srcs, m)
  {
    hide OpOf, Owed, ResultPacket;
    StreamTail(conns, past, srcs, len, kind, complete, i, stream);
    var p := PACKETS * m;
    assert stream[|past| + p] == ResultPacket(srcs, p);
    assert stream[|past| + (p + 1)] == ResultPacket(srcs, p + 1);
    assert stream[|past| + (p + 2)] == ResultPacket(srcs, p + 2);
    assert stream[|past| + (p + 3)] == ResultPacket(srcs, p + 3);
  }

  // ----- Switch, cards and hosts' loops together

  /** The switch, and for each host the completions its loop has looked at. */
  datatype Collective = Collective(x: World, seen: seq<seq<HostApi.Completion>>)

  /** Something reaches the switch, or a loop looks at one more completion. */
  datatype Step = Wire(e: Event) | Polled(host: nat, c: HostApi.Completion)

  /** Everybody in an AllReduce and the root of a Reduce count the results that come back to them; the other senders
      of a Reduce count what they have sent. */
  predicate AwaitsResults(conns: seq<Connection>, kind: Kind, i: nat)
    requires i < |conns|
  {
    kind.ToAll? || conns[i].peerId == kind.root
  }

  /** What the loop of a host has posted when it has looked at `seen`; this is what `AllReduceSendrecv` and
      `ReduceSender` ensure. */
  function PostedBy(src: seq<Word>, awaits: bool, seen: seq<HostApi.Completion>): (posted: seq<HostApi.Posted>)
    ensures forall k :: 0 <= k < |posted| ==> |posted[k].data| == HostApi.PAYLOAD_COUNT
    ensures |posted| <= HostApi.MessageNum(|src|)
  {
    var done := if awaits then HostApi.RecvCount(seen) else HostApi.SendCount(seen);
    HostApi.Messages(src, HostApi.SendNum(HostApi.MessageNum(|src|), done))
  }

  ghost predicate Sized(conns: seq<Connection>, srcs: seq<seq<Word>>, w: Collective) {
    ValidWiring(conns) && WellFormed(conns, w.x) && |srcs| == |conns| == |w.seen|
  }

  function PostedNow(conns: seq<Connection>, srcs: seq<seq<Word>>, kind: Kind, w: Collective, i: nat)
    : (posted: seq<HostApi.Posted>)
    requires |srcs| == |conns| == |w.seen| && i < |conns|
    ensures forall k :: 0 <= k < |posted| ==> |posted[k].data| == HostApi.PAYLOAD_COUNT
    ensures |posted| <= HostApi.MessageNum(|srcs[i]|)
  {
    PostedBy(srcs[i], AwaitsResults(conns, kind, i), w.seen[i])
  }

  /** The card sends the packets of posted messages, in any order and as often as it likes, numbered from the one
      after the control packet on, with the opcodes of their places in the message, and acknowledgements. */
  ghost predicate FromCard(conns: seq<Connection>, srcs: seq<seq<Word>>, kind: Kind, w: Collective, i: nat, f: Frame)
    requires Sized(conns, srcs, w) && i < |conns|
  {
    var posted := PostedNow(conns, srcs, kind, w, i);
    f.opcode != ACKNOWLEDGE ==>
      exists j: nat ::
        && j < PACKETS * |posted| && f.psn == w.x.base[i] + 1 + j
        && f.opcode == OpcodeAt(j) && f.data == PacketOf(posted, j)
  }

  /** The card of host i has put message m together from the packets sent to it, and completes a receive with it. */
  ghost predicate Arrived(conns: seq<Connection>, w: Collective, i: nat, c: HostApi.Completion)
    requires ValidWiring(conns) && WellFormed(conns, w.x) && i < |conns| == |w.seen| && c.Recv?
  {
    var stream, from := Payloads(w.x.ctx.out[i]), |OwedByAll(conns, w.x.past, i)|;
    && from + PACKETS * (c.idx + 1) <= |stream| && c.data == Reassembled(stream, from, c.idx)
    && forall k :: 0 <= k < |w.seen[i]| && w.seen[i][k].Recv? ==> w.seen[i][k].idx != c.idx
  }

  /** The switch has acknowledged the last packet of message m, and the send has not completed before. */
  ghost predicate Acknowledged(conns: seq<Connection>, w: Collective, i: nat, m: nat)
    requires WellFormed(conns, w.x) && i < |conns| == |w.seen|
  {
    && (exists psn :: SwitchMain.Ack(i, psn) in w.x.ctx.replies && psn >= w.x.base[i] + PACKETS * (m + 1))
    && SendDoneOf(m) !in w.seen[i]
  }

  function SendDoneOf(m: nat): HostApi.Completion {
    HostApi.SendDone(true, m)
  }

  /** What can happen next.  Nothing is said of windows or of what the packets contain: they are those of the
      messages posted.  Completions left over from earlier operations may turn up at any time. */
  ghost predicate Possible(conns: seq<Connection>, srcs: seq<seq<Word>>, kind: Kind, w: Collective, s: Step): (b: bool)
    requires Sized(conns, srcs, w)
    ensures b && s.Wire? ==> Sensible(|conns|, s.e)
  {
    match s
    case Wire(Control(i, f)) => Enabled(conns, N, w.x, Control(i, f))
    case Wire(Packet(i, f)) =>
      i < |conns| && Proper(f) && !HasImm(f) && f.psn < PSN_SPACE && FromCard(conns, srcs, kind, w, i, f)
    case Wire(Next(_)) => false
    case Polled(i, c) =>
      && i < |conns| && !c.Failed?
      && (c.SendDone? && c.own ==> Acknowledged(conns, w, i, c.id)) && (c.Recv? ==> Arrived(conns, w, i, c))
  }

  ghost function Take(conns: seq<Connection>, srcs: seq<seq<Word>>, kind: Kind, w: Collective, s: Step): (v: Collective)
    requires Sized(conns, srcs, w) && Possible(conns, srcs, kind, w, s)
    ensures Sized(conns, srcs, v)
  {
    match s
    case Wire(e) => w.(x := Apply(conns, w.x, e))
    case Polled(i, c) => w.(seen := w.seen[i := w.seen[i] + [c]])
  }

  /** A run from w to v. */
  ghost predicate Runs(conns: seq<Connection>, srcs: seq<seq<Word>>, kind: Kind, w: Collective, ss: seq<Step>,
                       v: Collective)
    requires Sized(conns, srcs, w)
    decreases |ss|
  {
    if ss == [] then w == v
    else
      && Possible(conns, srcs, kind, w, ss[0])
      && Runs(conns, srcs, kind, Take(conns, srcs, kind, w, ss[0]), ss[1..], v)
  }

  // ----- What they keep

  /** Each receive a loop has looked at is a result message, all of which has been sent. */
  ghost predicate ResultsSeen(srcs: seq<seq<Word>>, len: nat, complete: nat, seen: seq<HostApi.Completion>) {
    && HostApi.ProperReceives(seen, HostApi.MessageNum(len))
    && (forall k :: 0 <= k < |seen| ==> !seen[k].Failed?)
    && forall k :: 0 <= k < |seen| && seen[k].Recv? ==>
         PACKETS * (seen[k].idx + 1) <= complete && seen[k].data == ResultMessage(srcs, seen[k].idx)
  }

  ghost predicate Together(conns: seq<Connection>, srcs: seq<seq<Word>>, len: nat, kind: Kind, w: Collective) {
    && Inv(conns, w.x) && |srcs| == |conns| == |w.seen| && ValidKind(|conns|, kind) && w.x.op == OpOf(srcs, len, kind)
    && SameLength(srcs, len)
    && forall i :: 0 <= i < |srcs| ==> ResultsSeen(srcs, len, w.x.complete, w.seen[i])
  }

  /** How far connections can be apart: the loops that await results keep within the ring by themselves; nothing holds
      the others back. */
  function Lead(len: nat, kind: Kind): nat {
    if kind.ToAll? then N else PacketCount(len)
  }

  /** The ring is enough for the operation. */
  predicate RingSuffices(n: nat, len: nat, kind: Kind) {
    kind.ToAll? || n == 1 || len <= N / PACKETS * HostApi.PAYLOAD_COUNT
  }

  lemma RingSufficesIffFits(n: nat, srcs: seq<seq<Word>>, len: nat, kind: Kind)
    ensures Fits(n, Lead(len, kind), OpOf(srcs, len, kind)) <==> RingSuffices(n, len, kind)
  {
    assert HostApi.MessageNum(len) <= N / PACKETS <==> len <= N / PACKETS * HostApi.PAYLOAD_COUNT;
  }

  /** A loop has looked at no more receives than there are messages sent in full. */
  lemma ReceivesAreComplete(srcs: seq<seq<Word>>, len: nat, complete: nat, seen: seq<HostApi.Completion>)
    requires ResultsSeen(srcs, len, complete, seen)
    ensures PACKETS * HostApi.RecvCount(seen) <= complete
  {
    var full := complete / PACKETS;
    HostApi.ReceivedAre(seen, full);
    var keys := HostApi.Received(seen).Keys;
    AllPorts(full, keys);
    assert |keys| == |HostApi.Received(seen)|;
  }

  /** So the window of a loop that awaits results keeps its connection less than a ring ahead of the slowest. */
  lemma WindowKeepsSkew(conns: seq<Connection>, srcs: seq<seq<Word>>, len: nat, kind: Kind, w: Collective, i: nat,
                        j: nat)
    requires Together(conns, srcs, len, kind, w) && i < |conns|
    requires j < PACKETS * |PostedNow(conns, srcs, kind, w, i)|
    ensures j < Count(w.x.op) && j < w.x.complete + Lead(len, kind)
    ensures AwaitsResults(conns, kind, i) ==> j < w.x.complete + PACKETS * HostApi.WINDOW < w.x.complete + N
    ensures PacketOf(PostedNow(conns, srcs, kind, w, i), j) == Script(|conns|, w.x.op, i, j)
  {
    hide Inv;
    ReceivesAreComplete(srcs, len, w.x.complete, w.seen[i]);
    PostedPackets(srcs[i], |PostedNow(conns, srcs, kind, w, i)|, j);
  }

  /** A card's packet that is next in sequence for the switch is the one the operation is at. */
  lemma CardIsInStep(conns: seq<Connection>, srcs: seq<seq<Word>>, kind: Kind, w: Collective, i: nat, f: Frame)
    requires Sized(conns, srcs, w) && i < |conns| && Progress(w.x, i)
    requires FromCard(conns, srcs, kind, w, i, f) && InSequence(w.x, i, f)
    ensures w.x.started[i] && w.x.done[i] < PACKETS * |PostedNow(conns, srcs, kind, w, i)|
    ensures f.data == PacketOf(PostedNow(conns, srcs, kind, w, i), w.x.done[i])
  {
  }

  /** What hosts that run the loops let out meets everything the switch assumes about packets. */
  lemma PossibleIsEnabled(conns: seq<Connection>, srcs: seq<seq<Word>>, len: nat, kind: Kind, w: Collective, e: Event)
    requires Together(conns, srcs, len, kind, w) && Possible(conns, srcs, kind, w, Wire(e))
    ensures Enabled(conns, Lead(len, kind), w.x, e)
    ensures var y := Apply(conns, w.x, e); y.op == w.x.op && y.past == w.x.past && y.complete >= w.x.complete
  {
    hide Handle, PacketOf, PostedNow, Script, SlotsInv, Informed, HasSent;
    match e
    case Control(_, _) =>
    case Packet(i, f) =>
      if InSequence(w.x, i, f) {
        CardIsInStep(conns, srcs, kind, w, i, f);
        WindowKeepsSkew(conns, srcs, len, kind, w, i, w.x.done[i]);
      }
  }

  /** A receive that completes is one more result message. */
  lemma ArrivedIsResult(conns: seq<Connection>, srcs: seq<seq<Word>>, len: nat, kind: Kind, w: Collective, i: nat,
                        c: HostApi.Completion)
    requires Together(conns, srcs, len, kind, w) && i < |conns| && c.Recv? && Arrived(conns, w, i, c)
    ensures c.idx < HostApi.MessageNum(len) && PACKETS * (c.idx + 1) <= w.x.complete
    ensures c.data == ResultMessage(srcs, c.idx)
  {
    hide SlotsInv, Informed, Within, HasSent, Progress, ResultMessage, OpOf, ResultsSeen, Owed, OwedByAll;
    StreamNow(conns, w.x, i);
    StreamMessage(conns, OwedByAll(conns, w.x.past, i), srcs, len, kind, w.x.complete, i, Payloads(w.x.ctx.out[i]),
                  c.idx);
  }

  lemma PolledKeepsResults(srcs: seq<seq<Word>>, len: nat, complete: nat, seen: seq<HostApi.Completion>,
                           c: HostApi.Completion)
    requires ResultsSeen(srcs, len, complete, seen) && !c.Failed?
    requires c.Recv? ==> c.idx < HostApi.MessageNum(len) && PACKETS * (c.idx + 1) <= complete
    requires c.Recv? ==> c.data == ResultMessage(srcs, c.idx)
    requires c.Recv? ==> forall k :: 0 <= k < |seen| && seen[k].Recv? ==> seen[k].idx != c.idx
    ensures ResultsSeen(srcs, len, complete, seen + [c])
  {
    hide ResultMessage;
  }

  /** Every step of switch, cards and loops keeps them together, if the ring is enough. */
  lemma TakeKeepsTogether(conns: seq<Connection>, srcs: seq<seq<Word>>, len: nat, kind: Kind, w: Collective, s: Step)
    requires Together(conns, srcs, len, kind, w) && RingSuffices(|conns|, len, kind)
    requires Possible(conns, srcs, kind, w, s)
    ensures Together(conns, srcs, len, kind, Take(conns, srcs, kind, w, s))
  {
    hide SlotsInv, Informed, Within, HasSent, Progress, Enabled, Apply, OpOf;
    match s
    case Wire(e) =>
      PossibleIsEnabled(conns, srcs, len, kind, w, e);
      RingSufficesIffFits(|conns|, srcs, len, kind);
      StepKeepsInv(conns, Lead(len, kind), w.x, e);
    case Polled(i, c) =>
      if c.Recv? {
        ArrivedIsResult(conns, srcs, len, kind, w, i, c);
      }
      PolledKeepsResults(srcs, len, w.x.complete, w.seen[i], c);
  }

  lemma {:induction false} RunKeepsTogether(conns: seq<Connection>, srcs: seq<seq<Word>>, len: nat, kind: Kind,
                                            w: Collective, ss: seq<Step>, v: Collective)
    requires Together(conns, srcs, len, kind, w) && RingSuffices(|conns|, len, kind)
    requires Runs(conns, srcs, kind, w, ss, v)
    ensures Together(conns, srcs, len, kind, v)
    decreases |ss|
  {
    hide Possible, Take, SlotsInv, Informed, Within, HasSent, Progress;
    if ss != [] {
      TakeKeepsTogether(conns, srcs, len, kind, w, ss[0]);
      RunKeepsTogether(conns, srcs, len, kind, Take(conns, srcs, kind, w, ss[0]), ss[1..], v);
    }
  }

  /** The hosts begin an operation on their arrays at a switch that is between two operations. */
  ghost predicate Begins(conns: seq<Connection>, x: World, srcs: seq<seq<Word>>, len: nat, kind: Kind, w: Collective) {
    && Inv(conns, x) && |srcs| == |conns| && SameLength(srcs, len)
    && ValidKind(|conns|, kind) && Enabled(conns, N, x, Next(OpOf(srcs, len, kind)))
    && w == Collective(Apply(conns, x, Next(OpOf(srcs, len, kind))), seq(|conns|, i => []))
  }

  lemma BeginsTogether(conns: seq<Connection>, x: World, srcs: seq<seq<Word>>, len: nat, kind: Kind, w: Collective)
    requires Begins(conns, x, srcs, len, kind, w)
    ensures Sized(conns, srcs, w) && Together(conns, srcs, len, kind, w)
  {
    NextKeepsInv(conns, N, x, OpOf(srcs, len, kind));
  }

  // ----- At the destinations

  lemma PrefixHasResults(srcs: seq<seq<Word>>, len: nat, complete: nat, seen: seq<HostApi.Completion>,
                         all: seq<HostApi.Completion>)
    requires ResultsSeen(srcs, len, complete, all) && seen <= all
    ensures ResultsSeen(srcs, len, complete, seen)
  {
    assert forall k :: 0 <= k < |seen| ==> seen[k] == all[k];
  }

  /** All receives are there, each with its result message. */
  lemma ReceivedAreResults(srcs: seq<seq<Word>>, len: nat, complete: nat, seen: seq<HostApi.Completion>, m: nat)
    requires ResultsSeen(srcs, len, complete, seen)
    requires HostApi.RecvCount(seen) == HostApi.MessageNum(len) && m < HostApi.MessageNum(len)
    ensures m in HostApi.Received(seen) && HostApi.Received(seen)[m] == ResultMessage(srcs, m)
  {
    hide ResultMessage;
    HostApi.AllReceived(seen, HostApi.MessageNum(len));
    HostApi.ReceivedMatch(seen, j => ResultMessage(srcs, j));
  }

  lemma ResultsAreCopied(srcs: seq<seq<Word>>, len: nat, complete: nat, seen: seq<HostApi.Completion>,
                         dst: seq<Word>, k: nat)
    requires ResultsSeen(srcs, len, complete, seen)
    requires SameLength(srcs, len) && |dst| == len && k < len
    requires HostApi.RecvCount(seen) == HostApi.MessageNum(len)
    ensures forall m :: m in HostApi.Received(seen) ==> |HostApi.Received(seen)[m]| == HostApi.PAYLOAD_COUNT
    ensures HostApi.CopiedOut(dst, HostApi.Received(seen))[k] == WordSum(srcs, k) % MODULUS
  {
    hide ResultMessage, WordSum;
    var m := k / HostApi.PAYLOAD_COUNT;
    assert m < HostApi.MessageNum(len);
    HostApi.ReceivedAre(seen, HostApi.MessageNum(len));
    ReceivedAreResults(srcs, len, complete, seen, m);
    CopiedOutIsSum(srcs, HostApi.Received(seen), dst, k, m, k % HostApi.PAYLOAD_COUNT);
  }

  /** Whatever a loop has looked at in a run from the beginning of the operation. */
  lemma PolledAreResults(conns: seq<Connection>, x: World, srcs: seq<seq<Word>>, len: nat, kind: Kind, w: Collective,
                         ss: seq<Step>, v: Collective, i: nat, all: seq<HostApi.Completion>)
    requires Begins(conns, x, srcs, len, kind, w) && Runs(conns, srcs, kind, w, ss, v)
    requires RingSuffices(|conns|, len, kind) && i < |conns| && |v.seen| == |conns| && all <= v.seen[i]
    ensures ResultsSeen(srcs, len, v.x.complete, all) && SameLength(srcs, len)
    ensures HostApi.ProperReceives(all, HostApi.MessageNum(len))
  {
    BeginsTogether(conns, x, srcs, len, kind, w);
    RunKeepsTogether(conns, srcs, len, kind, w, ss, v);
    PrefixHasResults(srcs, len, v.x.complete, all, v.seen[i]);
  }

  /** When the loop of host i has looked at as many receives as there are messages, each word of its destination is the
      sum of that word over all hosts, modulo 2^32, however packets, acknowledgements and completions interleaved: in
      an AllReduce of arrays of any length, and at the root of a Reduce of up to 75 messages. */
  lemma SumsEndToEnd(conns: seq<Connection>, x: World, srcs: seq<seq<Word>>, len: nat, kind: Kind, w: Collective,
                     ss: seq<Step>, v: Collective, i: nat, seen: seq<HostApi.Completion>, dst: seq<Word>, k: nat)
    requires Begins(conns, x, srcs, len, kind, w) && Runs(conns, srcs, kind, w, ss, v)
    requires RingSuffices(|conns|, len, kind) && i < |conns| && |v.seen| == |conns| && seen <= v.seen[i]
    requires HostApi.RecvCount(seen) == HostApi.MessageNum(len) && |dst| == len && k < len
    ensures HostApi.ProperReceives(seen, HostApi.MessageNum(len))
    ensures forall m :: m in HostApi.Received(seen) ==> |HostApi.Received(seen)[m]| == HostApi.PAYLOAD_COUNT
    ensures HostApi.CopiedOut(dst, HostApi.Received(seen))[k] == WordSum(srcs, k) % MODULUS
  {
    PolledAreResults(conns, x, srcs, len, kind, w, ss, v, i, seen);
    ResultsAreCopied(srcs, len, v.x.complete, seen, dst, k);
  }

  /** The loop itself, in such a run; the root of a Reduce has the same loop as everybody in an AllReduce.  `polls` is
      what the card of host i has delivered, as far as it was polled.  If all results are in it the loop ends, and when
      it does the destination holds the sums of all the arrays. */
  method ReceiveSums(comm: HostApi.Communicator, dst: array<Word>, polls: seq<HostApi.Poll>,
                     ghost conns: seq<Connection>, ghost x: World, srcs: seq<seq<Word>>, ghost kind: Kind,
                     ghost w: Collective, ghost ss: seq<Step>, ghost v: Collective, i: nat)
    returns (status: HostApi.Status)
    requires i < |conns| == |v.seen| && |srcs| == |conns| && Begins(conns, x, srcs, |srcs[i]|, kind, w)
    requires RingSuffices(|conns|, |srcs[i]|, kind) && Runs(conns, srcs, kind, w, ss, v)
    requires HostApi.Flat(polls) <= v.seen[i] && forall p :: 0 <= p < |polls| ==> polls[p].Batch?
    requires comm.Fits(HostApi.MessageNum(|srcs[i]|)) && dst.Length == |srcs[i]|
    requires dst != comm.sendPayload && dst != comm.receivePayload
    modifies comm`posted, comm.sendPayload, comm.receivePayload, dst
    ensures status.Done? ==> forall k :: 0 <= k < dst.Length ==> dst[k] == WordSum(srcs, k) % MODULUS
    ensures status.Done? <==> HostApi.RecvCount(HostApi.Flat(polls)) == HostApi.MessageNum(|srcs[i]|)
    ensures !status.Aborted?
  {
    hide Begins, Runs, WordSum;
    ghost var len, start, all := |srcs[i]|, dst[..], HostApi.Flat(polls);
    PolledAreResults(conns, x, srcs, len, kind, w, ss, v, i, all);
    ghost var seen;
    status, seen := comm.AllReduceSendrecv(srcs[i], dst, polls);
    HostApi.PrefixReceives(all, seen, HostApi.MessageNum(len));
    if status.Done? {
      PrefixHasResults(srcs, len, v.x.complete, seen, all);
      forall k: nat | k < dst.Length
        ensures dst[k] == WordSum(srcs, k) % MODULUS
      {
        ResultsAreCopied(srcs, len, v.x.complete, seen, start, k);
      }
    }
  }
}
