/** The reliable switch of `switch.c`, root AllReduce path: a go-back-N receiver per child, cumulative
    acknowledgements from the children for the broadcast results, and the walks over ring slots that
    both need.  `packet_handler` is one atomic step; C assertions, and loops that would never end, are
    outcomes of the step instead of being assumed away.
 */
module CumulativeAcks {
  import opened Words
  import opened Rings

  datatype Buffer = Buffer(used: bool, psn: nat, words: Payload)

  const CLEARED := Buffer(false, 0, [])

  /** One ring slot of the upward direction: children that arrived, their count, and their partial sum. */
  datatype UpSlot = UpSlot(arrived: set<nat>, degree: nat, buffer: Buffer)

  /** One ring slot of the downward direction: children whose acknowledgement named this very PSN, the
      number of children that acknowledged it in any way, and the result. */
  datatype DownSlot = DownSlot(arrived: set<nat>, degree: nat, buffer: Buffer)

  datatype State = State(aggEpsn: seq<nat>, latestAck: seq<int>, downEpsn: nat, downAck: int,
                         ups: seq<UpSlot>, downs: seq<DownSlot>)

  datatype Packet = Ack(child: nat, psn: int) | Nak(child: nat, psn: int) | Data(child: nat, psn: int, words: Payload)

  datatype Outcome =
    | Went(state: State, sent: seq<Packet>)
    | RingOverrun      // assert(0), line 1009: the child is a whole ring ahead
    | ResultUnfreed    // assert(0), line 809: the broadcast slot is still held
    | OutOfOrder       // assert(psn == down_epsn), line 583
    | Spins            // a loop that never ends

  const UP_FREE := UpSlot({}, 0, CLEARED)
  const DOWN_FREE := DownSlot({}, 0, CLEARED)

  predicate Shaped(fanIn: nat, s: State) {
    |s.aggEpsn| == |s.latestAck| == fanIn && |s.ups| == |s.downs| == N
  }

  function Init(fanIn: nat): (s: State)
    ensures Shaped(fanIn, s)
  {
    State(seq(fanIn, i => 0), seq(fanIn, i => -1), 0, -1, seq(N, k => UP_FREE), seq(N, k => DOWN_FREE))
  }

  /** The first two words of PSN 0 are operation metadata: they are copied from the first arrival and
      never summed. */
  const METADATA: nat := 2

  function AddArrival(psn: nat, sum: Payload, data: Payload): (r: Payload)
    requires |sum| == |data|
    ensures |r| == |sum|
  {
    if psn == 0
    then seq(|sum|, k requires 0 <= k < |sum| => if k < METADATA then sum[k] else AddWord(sum[k], data[k]))
    else AddPayload(sum, data)
  }

  function ToAll(fanIn: nat, psn: nat, words: Payload): seq<Packet> {
    seq(fanIn, i requires 0 <= i < fanIn => Data(i, psn, words))
  }

  /** The walk of `down_ack_handler`: free aggregation slots downward while they still belong to the walk.
      The C code does not stop at 0 but looks at slot -1 next; the model stops. */
  function ReleaseUp(ups: seq<UpSlot>, psn: int): (r: seq<UpSlot>)
    requires |ups| == N && psn >= -1
    ensures |r| == N
    decreases psn + 1
  {
    if psn >= 0 && ups[Idx(psn)].buffer.used && ups[Idx(psn)].buffer.psn == psn
    then ReleaseUp(ups[Idx(psn) := UP_FREE], psn - 1)
    else ups
  }

  /** `down_ack_handler` for a positive acknowledgement. */
  function DownAck(s: State, psn: nat): (r: State)
    requires |s.ups| == N
    ensures |r.ups| == N && r == s.(ups := r.ups, downAck := r.downAck)
  {
    if psn > s.downAck then s.(ups := ReleaseUp(s.ups, psn), downAck := psn) else s
  }

  /** `cache`: hold the result and broadcast it. */
  function Cache(fanIn: nat, s: State, psn: nat, words: Payload): Outcome
    requires Shaped(fanIn, s)
  {
    if psn != s.downEpsn then OutOfOrder
    else
      var held := s.downs[Idx(psn)].(buffer := Buffer(true, psn, words));
      Went(s.(downEpsn := s.downEpsn + 1, downs := s.downs[Idx(psn) := held]), ToAll(fanIn, psn, words))
  }

  predicate Fits(slot: UpSlot, data: Payload) {
    slot.degree == 0 || |slot.buffer.words| == |data|
  }

  /** `aggregate`, for the root and AllReduce. */
  function Aggregate(fanIn: nat, s: State, psn: nat, data: Payload): Outcome
    requires Shaped(fanIn, s) && Fits(s.ups[Idx(psn)], data)
  {
    var k := Idx(psn);
    var slot := s.ups[k];
    var words := if slot.degree == 0 then data else AddArrival(psn, slot.buffer.words, data);
    var s1 := s.(ups := s.ups[k := slot.(degree := slot.degree + 1, buffer := Buffer(true, psn, words))]);
    if slot.degree + 1 == fanIn then
      if s1.downs[k].buffer.used then ResultUnfreed
      else
        match Cache(fanIn, s1, psn, words)
        case Went(s2, sent) => Went(DownAck(s2, psn), sent)
        case stuck => stuck
    else Went(s1, [])
  }

  /** A data packet from a child. */
  function OnData(fanIn: nat, s: State, id: nat, psn: nat, data: Payload): Outcome
    requires Shaped(fanIn, s) && id < fanIn && Fits(s.ups[Idx(psn)], data)
  {
    var e := s.aggEpsn[id];
    var k := Idx(psn);
    if psn < e then Went(s, [Ack(id, e - 1)])
    else if psn > e then Went(s, [Nak(id, e)])
    else if id in s.ups[k].arrived then RingOverrun
    else
      var slot := s.ups[k];
      var s1 := s.(aggEpsn := s.aggEpsn[id := e + 1], ups := s.ups[k := slot.(arrived := slot.arrived + {id})]);
      match Aggregate(fanIn, s1, psn, data)
      case Went(s2, sent) => Went(s2, [Ack(id, psn)] + sent)
      case stuck => stuck
  }

  /** One more child has the result in this slot; the last one frees it. */
  function Credit(fanIn: nat, slot: DownSlot): DownSlot {
    if slot.degree + 1 == fanIn then DOWN_FREE else slot.(degree := slot.degree + 1)
  }

  /** The walk for a cumulative acknowledgement: credit psn, psn - 1, ..., stop + 1. */
  function AckWalk(fanIn: nat, downs: seq<DownSlot>, psn: int, stop: int): (r: seq<DownSlot>)
    requires |downs| == N && psn > stop
    ensures |r| == N
    decreases psn - stop
  {
    var downs' := downs[Idx(psn) := Credit(fanIn, downs[Idx(psn)])];
    if psn - 1 == stop then downs' else AckWalk(fanIn, downs', psn - 1, stop)
  }

  function Mark(slot: DownSlot, id: nat): DownSlot {
    slot.(arrived := slot.arrived + {id})
  }

  /** A positive acknowledgement of a broadcast from a child. */
  function OnAck(fanIn: nat, s: State, id: nat, psn: int): Outcome
    requires Shaped(fanIn, s) && id < fanIn
  {
    var k := Idx(psn);
    if psn <= s.latestAck[id] || id in s.downs[k].arrived || s.downs[k].buffer.psn != psn then Went(s, [])
    else
      var downs := AckWalk(fanIn, s.downs[k := Mark(s.downs[k], id)], psn, s.latestAck[id]);
      Went(s.(downs := downs, latestAck := s.latestAck[id := psn]), [])
  }

  datatype Walk = Walked(downs: seq<DownSlot>) | Stuck

  /** The walk for a negative acknowledgement marks every slot it credits.  When it meets a slot it cannot
      credit it retries that slot for ever. */
  function NakWalk(fanIn: nat, downs: seq<DownSlot>, id: nat, tmp: int, stop: int): (r: Walk)
    requires |downs| == N && tmp > stop
    ensures r.Walked? ==> |r.downs| == N
    decreases tmp - stop
  {
    var slot := downs[Idx(tmp)];
    if id in slot.arrived || slot.buffer.psn != tmp then Stuck
    else
      var downs' := downs[Idx(tmp) := Credit(fanIn, Mark(slot, id))];
      if tmp - 1 == stop then Walked(downs') else NakWalk(fanIn, downs', id, tmp - 1, stop)
  }

  /** `re_thread`: resend from psn on while the slot is in use and newer than the child's last
      acknowledgement.  Nothing it does changes a slot, so after a whole ring it will never stop. */
  function ReThread(s: State, id: nat, psn: nat, rounds: nat): (r: (seq<Packet>, bool))
    requires |s.downs| == N && id < |s.latestAck|
    decreases rounds
  {
    var buffer := s.downs[Idx(psn)].buffer;
    if rounds == 0 then ([], false)
    else if buffer.used && buffer.psn > s.latestAck[id] then
      var (rest, stops) := ReThread(s, id, psn + 1, rounds - 1);
      ([Data(id, psn, buffer.words)] + rest, stops)
    else ([], true)
  }

  /** A negative acknowledgement from a child that expects psn. */
  function OnNak(fanIn: nat, s: State, id: nat, psn: nat): Outcome
    requires Shaped(fanIn, s) && id < fanIn
  {
    var walk := if psn - 1 > s.latestAck[id] then NakWalk(fanIn, s.downs, id, psn - 1, s.latestAck[id])
                else Walked(s.downs);
    match walk
    case Stuck => Spins
    case Walked(downs) =>
      var acked := if psn - 1 > s.latestAck[id] then psn - 1 else s.latestAck[id];
      var s1 := s.(downs := downs, latestAck := s.latestAck[id := acked]);
      var (sent, stops) := ReThread(s1, id, psn, N);
      if stops then Went(s1, sent) else Spins
  }
}
