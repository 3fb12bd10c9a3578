/** The reliable switch itself: the global arrays of `switch.c`, its loops, and their agreement with the
    handlers specified in CumulativeAcks. */
module ReliableSwitch {
  import opened Words
  import opened Rings
  import opened CumulativeAcks

  datatype Failure = None | RingOverrun | ResultUnfreed | OutOfOrder | Spins

  function FailureOf(o: Outcome): Failure {
    match o
    case Went(_, _) => None
    case RingOverrun => Failure.RingOverrun
    case ResultUnfreed => Failure.ResultUnfreed
    case OutOfOrder => Failure.OutOfOrder
    case Spins => Failure.Spins
  }

  /** One round of the resending loop. */
  lemma ReThreadOnce(s: State, id: nat, psn: nat, rounds: nat, sent: seq<Packet>)
    requires |s.downs| == N && id < |s.latestAck| && rounds > 0
    ensures var buffer := s.downs[Idx(psn)].buffer;
            var later, now := ReThread(s, id, psn + 1, rounds - 1), ReThread(s, id, psn, rounds);
            if buffer.used && buffer.psn > s.latestAck[id]
            then sent + now.0 == sent + [Data(id, psn, buffer.words)] + later.0 && now.1 == later.1
            else sent + now.0 == sent && now.1
  {
    var buffer := s.downs[Idx(psn)].buffer;
    if buffer.used && buffer.psn > s.latestAck[id] {
      var one, rest := [Data(id, psn, buffer.words)], ReThread(s, id, psn + 1, rounds - 1).0;
      assert ReThread(s, id, psn, rounds).0 == one + rest;
      assert sent + (one + rest) == sent + one + rest;
    }
  }

  class Switch {
    const fanIn: nat
    const aggEpsn: array<nat>
    const latestAck: array<int>
    const ups: array<UpSlot>
    const downs: array<DownSlot>
    var downEpsn: nat
    var downAck: int

    ghost predicate Valid()
      reads this, latestAck
    {
      && aggEpsn.Length == latestAck.Length == fanIn
      && ups.Length == downs.Length == N
      && downAck >= -1
      && forall i :: 0 <= i < fanIn ==> latestAck[i] >= -1
    }

    ghost function View(): (s: State)
      requires Valid()
      reads this, aggEpsn, latestAck, ups, downs
      ensures Shaped(fanIn, s)
    {
      State(aggEpsn[..], latestAck[..], downEpsn, downAck, ups[..], downs[..])
    }

    /** `init_all`. */
    constructor (n: nat)
      ensures Valid() && fanIn == n && View() == Init(n)
      ensures fresh(aggEpsn) && fresh(latestAck) && fresh(ups) && fresh(downs)
    {
      fanIn := n;
      aggEpsn := new nat[n](i => 0);
      latestAck := new int[n](i => -1);
      ups := new UpSlot[N](k => UP_FREE);
      downs := new DownSlot[N](k => DOWN_FREE);
      downEpsn := 0;
      downAck := -1;
    }

    /** The element-wise loops of `aggregate`; PSN 0 skips its metadata words. */
    method AddIn(psn: nat, sum: Payload, data: Payload) returns (r: Payload)
      requires |sum| == |data|
      ensures r == AddArrival(psn, sum, data)
      ensures forall k :: 0 <= k < |sum| ==>
                r[k] == if psn == 0 && k < 2 then sum[k] else AddWord(sum[k], data[k])
    {
      r := sum;
      var i := if psn == 0 then METADATA else 0;
      while i < |data|
        invariant |r| == |sum|
        invariant psn == 0 ==> i >= METADATA
        invariant forall k :: 0 <= k < |sum| ==>
                    r[k] == if k < i && (psn > 0 || k >= METADATA) then AddWord(sum[k], data[k]) else sum[k]
      {
        r := r[i := AddWord(r[i], data[i])];
        i := i + 1;
      }
    }

    /** The loop of `down_ack_handler`, from psn downward while the slots still belong to it. */
    method ReleaseDownward(psn: nat)
      requires Valid()
      modifies ups
      ensures ups[..] == ReleaseUp(old(ups[..]), psn)
    {
      var tmp: int := psn;
      while tmp >= 0 && ups[Idx(tmp)].buffer.used && ups[Idx(tmp)].buffer.psn == tmp
        invariant tmp >= -1
        invariant ReleaseUp(ups[..], tmp) == ReleaseUp(old(ups[..]), psn)
        decreases tmp
      {
        ups[Idx(tmp)] := UP_FREE;
        tmp := tmp - 1;
      }
    }

    /** `cache`: hold the result and broadcast it. */
    method CacheResult(psn: nat, words: Payload) returns (failure: Failure, sent: seq<Packet>)
      requires Valid()
      modifies this`downEpsn, downs
      ensures Valid() && failure == FailureOf(Cache(fanIn, old(View()), psn, words))
      ensures failure == None ==> Went(View(), sent) == Cache(fanIn, old(View()), psn, words)
    {
      if psn != downEpsn {
        return Failure.OutOfOrder, [];
      }
      var k := Idx(psn);
      downEpsn := downEpsn + 1;
      downs[k] := downs[k].(buffer := Buffer(true, psn, words));
      return None, ToAll(fanIn, psn, words);
    }

    /** `down_ack_handler`, positive. */
    method HandleDownAck(psn: nat)
      requires Valid()
      modifies this`downAck, ups
      ensures Valid() && View() == DownAck(old(View()), psn)
    {
      if psn > downAck {
        ReleaseDownward(psn);
        downAck := psn;
      }
    }

    /** `aggregate`, for the root. */
    method AggregateData(psn: nat, data: Payload) returns (failure: Failure, sent: seq<Packet>)
      requires Valid() && Fits(ups[Idx(psn)], data)
      modifies this, ups, downs
      ensures Valid() && failure == FailureOf(Aggregate(fanIn, old(View()), psn, data))
      ensures failure == None ==> Went(View(), sent) == Aggregate(fanIn, old(View()), psn, data)
    {
      var k := Idx(psn);
      var words := data;
      if ups[k].degree != 0 {
        words := AddIn(psn, ups[k].buffer.words, data);
      }
      ups[k] := ups[k].(degree := ups[k].degree + 1, buffer := Buffer(true, psn, words));
      if ups[k].degree != fanIn {
        return None, [];
      }
      if downs[k].buffer.used {
        return Failure.ResultUnfreed, [];
      }
      failure, sent := CacheResult(psn, words);
      if failure == None {
        HandleDownAck(psn);
      }
    }

    /** A data packet from child id. */
    method HandleData(id: nat, psn: nat, data: Payload) returns (failure: Failure, sent: seq<Packet>)
      requires Valid() && id < fanIn && Fits(ups[Idx(psn)], data)
      modifies this, aggEpsn, ups, downs
      ensures Valid() && failure == FailureOf(OnData(fanIn, old(View()), id, psn, data))
      ensures failure == None ==> Went(View(), sent) == OnData(fanIn, old(View()), id, psn, data)
    {
      var k := Idx(psn);
      if psn < aggEpsn[id] {
        return None, [Ack(id, aggEpsn[id] - 1)];
      } else if psn > aggEpsn[id] {
        return None, [Nak(id, aggEpsn[id])];
      }
      aggEpsn[id] := aggEpsn[id] + 1;
      if id in ups[k].arrived {
        return Failure.RingOverrun, [];
      }
      ups[k] := ups[k].(arrived := ups[k].arrived + {id});
      failure, sent := AggregateData(psn, data);
      sent := [Ack(id, psn)] + sent;
    }

    method CreditSlot(k: nat)
      requires Valid() && k < N
      modifies downs
      ensures downs[..] == old(downs[..])[k := Credit(fanIn, old(downs[k]))]
    {
      if downs[k].degree + 1 == fanIn {
        downs[k] := DOWN_FREE;
      } else {
        downs[k] := downs[k].(degree := downs[k].degree + 1);
      }
    }

    /** A cumulative acknowledgement: the walk from psn down to the last acknowledged one. */
    method HandleAck(id: nat, psn: nat)
      requires Valid() && id < fanIn
      modifies latestAck, downs
      ensures Valid() && Went(View(), []) == OnAck(fanIn, old(View()), id, psn)
    {
      var k := Idx(psn);
      if psn <= latestAck[id] || id in downs[k].arrived || downs[k].buffer.psn != psn {
        return;
      }
      downs[k] := Mark(downs[k], id);
      ghost var goal := AckWalk(fanIn, downs[..], psn, latestAck[id]);
      var p: int := psn;
      CreditSlot(Idx(p));
      p := p - 1;
      while p != latestAck[id]
        invariant p >= latestAck[id] == old(latestAck[id])
        invariant latestAck[..] == old(latestAck[..])
        invariant goal == if p == latestAck[id] then downs[..] else AckWalk(fanIn, downs[..], p, latestAck[id])
        decreases p - latestAck[id]
      {
        CreditSlot(Idx(p));
        p := p - 1;
      }
      latestAck[id] := psn;
    }

    /** The walk of a negative acknowledgement; reports a slot on which it would retry for ever. */
    method WalkDown(id: nat, top: int) returns (spins: bool)
      requires Valid() && id < fanIn && top > latestAck[id]
      modifies downs
      ensures spins <==> NakWalk(fanIn, old(downs[..]), id, top, latestAck[id]).Stuck?
      ensures !spins ==> NakWalk(fanIn, old(downs[..]), id, top, latestAck[id]) == Walked(downs[..])
    {
      ghost var goal := NakWalk(fanIn, downs[..], id, top, latestAck[id]);
      var tmp := top;
      while tmp != latestAck[id]
        invariant latestAck[id] <= tmp
        invariant goal == if tmp == latestAck[id] then Walked(downs[..])
                          else NakWalk(fanIn, downs[..], id, tmp, latestAck[id])
        decreases tmp - latestAck[id]
      {
        if id in downs[Idx(tmp)].arrived || downs[Idx(tmp)].buffer.psn != tmp {
          return true;
        }
        ghost var before := downs[..];
        downs[Idx(tmp)] := Mark(downs[Idx(tmp)], id);
        CreditSlot(Idx(tmp));
        assert downs[..] == before[Idx(tmp) := Credit(fanIn, Mark(before[Idx(tmp)], id))];
        tmp := tmp - 1;
      }
      return false;
    }

    /** `re_thread`, cut off after a whole ring, when it is known never to stop. */
    method Resend(id: nat, from: nat) returns (spins: bool, sent: seq<Packet>)
      requires Valid() && id < fanIn
      ensures sent == ReThread(View(), id, from, N).0
      ensures spins <==> !ReThread(View(), id, from, N).1
    {
      sent := [];
      var psn, rounds := from, N;
      ghost var s := View();
      ghost var (packets, stops) := ReThread(s, id, from, N);
      while rounds > 0
        invariant packets == sent + ReThread(s, id, psn, rounds).0
        invariant stops == ReThread(s, id, psn, rounds).1
      {
        var buffer := downs[Idx(psn)].buffer;
        assert buffer == s.downs[Idx(psn)].buffer;
        ReThreadOnce(s, id, psn, rounds, sent);
        if !(buffer.used && buffer.psn > latestAck[id]) {
          return false, sent;
        }
        sent := sent + [Data(id, psn, buffer.words)];
        psn, rounds := psn + 1, rounds - 1;
      }
      assert ReThread(s, id, psn, 0) == ([], false);
      return true, sent;
    }

    /** The walk part of a negative acknowledgement: slots credited, then the child's mark moved. */
    method Acknowledge(id: nat, psn: nat) returns (spins: bool)
      requires Valid() && id < fanIn
      modifies latestAck, downs
      ensures Valid()
      ensures spins <==> && psn - 1 > old(latestAck[id])
                         && NakWalk(fanIn, old(downs[..]), id, psn - 1, old(latestAck[id])).Stuck?
      ensures !spins ==>
                && latestAck[..] == old(latestAck[..])[id := if psn - 1 > old(latestAck[id]) then psn - 1
                                                             else old(latestAck[id])]
                && Walked(downs[..]) == if psn - 1 > old(latestAck[id])
                                        then NakWalk(fanIn, old(downs[..]), id, psn - 1, old(latestAck[id]))
                                        else Walked(old(downs[..]))
    {
      spins := false;
      if psn - 1 > latestAck[id] {
        spins := WalkDown(id, psn - 1);
        if !spins {
          latestAck[id] := psn - 1;
        }
      }
    }

    /** A negative acknowledgement from a child that expects psn. */
    method HandleNak(id: nat, psn: nat) returns (failure: Failure, sent: seq<Packet>)
      requires Valid() && id < fanIn
      modifies latestAck, downs
      ensures Valid() && failure == FailureOf(OnNak(fanIn, old(View()), id, psn))
      ensures failure == None ==> Went(View(), sent) == OnNak(fanIn, old(View()), id, psn)
    {
      var spins := Acknowledge(id, psn);
      if spins {
        return Failure.Spins, [];
      }
      spins, sent := Resend(id, psn);
      failure := if spins then Failure.Spins else None;
    }
  }
}
