# In-network AllReduce: verified model

Hosts hand numbered packets to a switch; the switch adds the packets of all hosts word by word, modulo 2^32, in a
ring of slots, and sends the sums back.  Packets are lost and resent, slots are reused, and three generations of the
switch keep different books.  This project models the switches, the hosts that drive them, the rules that tell the
switch where results go, and the two checksums of the frames, and proves what they guarantee.

| file | what it models |
|---|---|
| `Words.dfy`, `WireNumbers.dfy`, `Rings.dfy` | word-wise sums modulo 2^32; 24-bit sequence numbers and the slots they choose; the rings of 300 slots |
| `RootSlots.dfy` | `non_termination_switch.c`: `RootSwitch`, the arrays of the root switch updated in place, and its specification `Step` |
| `RootProtocol.dfy`, `RootSafety.dfy`, `RootProgress.dfy`, `RootNegatives.dfy` | hosts with their network cards, lossy FIFO channels and that switch as one transition system: invariant, safety over all runs, progress, and what negative acknowledgements do to it |
| `CumulativeAcks.dfy`, `CumulativeAckSafety.dfy`, `CumulativeAckRuns.dfy`, `CumulativeAckProgress.dfy`, `ReliableSwitch.dfy` | `switch.c`: go-back-N receiver per child, cumulative ACK and NAK walks; its invariant; which windows keep it from failing, and let it finish; the class with the loops |
| `LockedSlots.dfy`, `UnlockedNumbers.dfy` | `switch_main.c`, AllReduce and Reduce, connection threads interleaved at the granularity of the per-slot lock; the output counters, which have no lock |
| `SwitchMain.dfy`, `SwitchContext.dfy` | `switch_main.c`, the whole packet handler, one packet at a time; the class with the loops |
| `OutputStreams.dfy`, `OutputStreamSafety.dfy` | what each connection is sent over any run of AllReduce, Reduce and Broadcast |
| `StreamAlignment.dfy`, `StreamSkew.dfy`, `EarlyControl.dfy` | what spoils it, and exactly when: input numbers that choose different slots, a connection a ring ahead of another, a control packet before everybody has finished |
| `Rules.dfy` | `controller.h`, `controller_comm.cpp`, `rule.c`: generating, loading and looking up rules |
| `HostApi.dfy`, `StaleCompletions.dfy` | `api.c`: chunking, window and reassembly loops; completions left over from earlier operations |
| `EndToEnd.dfy`, `CollectiveProgress.dfy`, `ReduceRuns.dfy` | AllReduce and Reduce from source array to destination array, loops, cards and refactored switch together: the sums, that they can always be finished, and which Reduces go wrong |
| `LinearSteps.dfy`, `Crc32.dfy`, `CrcPolynomial.dfy` | `util.c`: CRC-32 by eight tables against CRC-32 bit by bit, and that against division of polynomials |
| `Ipv4Checksum.dfy`, `Frames.dfy` | `util.c`: the header checksum; building a frame and reading it back |

`FAN_IN` is a parameter throughout; window and ring sizes are the source's.

## What is relied on

- Root switch (`non_termination_switch.c`): per-port FIFO channels that lose but do not invent packets; all hosts cut
  their data into packets alike; the hosts run the RDMA-write AllReduce and their cards accept results in order only;
  no negative acknowledgement of a card gets through to the switch (one that is lost on the way is the same as none).
  The last point matters: the switch reflects a packet of opcode 0x11 without looking at its syndrome.
  `RootNegatives.NegativeRun` polls a write as complete whose last result is missing, and
  `RootNegatives.ReflectionIsSafeIff` says exactly when that cannot happen.
- Reliable switch (`switch.c`): the packet handler is one atomic step, resending included; `rule->id` is read as the
  connection's number; fewer than 2^24 packets, since the expected numbers are not reduced to 24 bits.
  `CumulativeAckSafety.AssertionsFireIff` gives the exact condition for each `assert` of the file in any state.  Over
  whole runs, the sender window of the comment at `switch.c:1009` keeps the assertions at lines 583 and 1009 from
  firing if it is at most the ring (`CumulativeAckRuns.NoOverrunIff`), but not the one at line 809, however small it is
  (`ResultWindowIsNotEnough`): that takes children that also wait for their own acknowledgements to come in
  (`NoAssertionFiresIff`), and a window smaller than the ring if no resending loop is to go on for ever
  (`NeverStuckIff`); with that, and only with that, the collective can be finished whatever has been lost
  (`CumulativeAckProgress.CanAlwaysFinishIff`).  Everything sent is right unless it answers a request more than a ring
  old (`CumulativeAckRuns.EveryDataPacketIsASum`, `OutdatedRun`).
- Refactored switch (`switch_main.c`): with locks modelled, an aggregation needs no more packets than the ring has
  slots, or to be an AllReduce with a window smaller than the ring, which is sharp
  (`LockedSlots.SafeIffRingSuffices`).  With the ring sufficing and numbers below 2^24, at which `agg_epsn` does not
  wrap, an AllReduce or Reduce can always be finished (`CollectiveProgress.CollectiveCanFinish`).  For the output
  streams, packet handler atomic: a control packet arrives once and in sequence; and for each of the following three
  the exact condition and a failing run are given.
  - No connection gets a whole ring ahead of another.  AllReduce hosts keep this by themselves
    (`EndToEnd.PossibleIsEnabled`).  The senders of a Reduce do not: they are acknowledged on arrival and wait for
    nobody.  An aggregation over two connections or more is right in every run if and only if the bound on how far one
    may get ahead, or else the number of packets, is at most 300, given the next point
    (`StreamSkew.AggregationIsRightIff`, `UnboundedIsRightIff`); with the loops of `api.c` in charge a Reduce is right
    in every run if and only if the array has at most 75 messages (`ReduceRuns.ReduceIsRightIff`; `FirstReduceGoesWrong`
    is the run from a fresh switch).
  - At the start of an aggregation the connections' input numbers choose the same slot
    (`StreamSkew.AggregationIsRightIff`).  A Broadcast breaks that, after which only its sender's numbers have moved on,
    unless with its control packet it has a multiple of 300 packets (`StreamSkew.RightAfterBroadcastIff`,
    `StreamAlignment.FirstAggregationGoesWrong`).
  - An operation starts when everybody has finished the one before.  A sender of a Reduce that is not the root returns
    when its own sends are acknowledged (`api.c:992-1033`), and the control packet of its next operation then overwrites
    operation and root rank for the whole switch (`switch_main.c:414-422`).  That is harmless if and only if the packet
    announces the same operation with the same root again (`EarlyControl.EarlyControlIsHarmlessIff`;
    `FirstReduceIsSpoilt` is the run from a fresh switch).
- Hosts (`api.c`): every posted receive completes at most once, with a whole message.  A sender of a Reduce that is not
  the root counts send completions of earlier operations as its own: it may return before its messages are
  delivered, unless the operation before has looked at all its completions
  (`StaleCompletions.ReduceAfterAllReduce`).
- Where comments and code disagree the code is followed: `handle_broadcast` is documented as skipping the root rank
  but skips the connection the packet came from; `lookup_rule` is documented as a match on the parameter too, which
  AllReduce leaves out.

## Model

| member | source | states |
|---|---|---|
| Words.SumIsNatSumModulo | repository/src/non_termination_switch.c:389-391 | summing 32-bit words one by one, in any order, gives the integer sum reduced once |
| Words.SumWithNewContributor | repository/src/non_termination_switch.c:385-391 | one more contributor adds its payload exactly once, whatever its place among the ports |
| WireNumbers.SlotsSurviveWrapIff | repository/src/non_termination_switch.c:21-25 | the slot of a truncated sequence number is the slot of the number itself for all numbers if and only if the ring size divides the number space |
| RootSlots.RootSwitch.constructor | repository/src/non_termination_switch.c:220-223 | a fresh switch has only empty slots |
| RootSlots.RootSwitch.ClearStateData | repository/src/non_termination_switch.c:235-242 | empties the slot of a number and no other |
| RootSlots.RootSwitch.AddIn | repository/src/non_termination_switch.c:389-391 | adds a payload to one slot's sum, word by word modulo 2^32, touching no other slot |
| RootSlots.RootSwitch.Complete | repository/src/non_termination_switch.c:395-404 | marks the slot finished, clears the one a window ahead, and sends every port the finished sum, in that order |
| RootSlots.RootSwitch.Pipeline | repository/src/non_termination_switch.c:363-409 | one packet: the new slots and the packets sent are those of the specification, for first transmissions, retransmissions before and after completion, writes with an address, and acknowledgements |
| RootProtocol.WireSlot | repository/src/non_termination_switch.c:313-399 | the slot of a wire number, and of the one a window ahead, is that of the unbounded number, across the wrap |
| RootProtocol.FirstTransmission | repository/src/non_termination_switch.c:383-409 | a packet's first arrival makes the slot's sum the sum over one contributor more, and completes it exactly when all ports have arrived |
| RootProtocol.RetransmissionArrives | repository/src/non_termination_switch.c:375-382 | a packet that has arrived before adds nothing, and is answered with the global sum if it is complete |
| RootProtocol.InvInitially | repository/src/non_termination_switch.c:220-223 | the protocol's invariant holds at the start |
| RootProtocol.StepKeepsInv | repository/src/non_termination_switch.c:303-409 | every step of hosts, cards, channels and switch keeps the protocol's invariant: sends, resends, arrivals, deliveries, polls and losses; only a card's negative acknowledgement does not |
| RootProtocol.RunKeepsInv | repository/src/non_termination_switch.c:303-409 | the invariant holds after every run without negative acknowledgements |
| RootSafety.EveryResultIsTheGlobalSum | repository/src/non_termination_switch.c:372-409 | in every reachable state each result under way, first broadcast or answer to a retransmission, is word by word the integer sum of all hosts' payloads for its number, each once, modulo 2^32 |
| RootSafety.CompletionImpliesResult | repository/src/api.c:772-782 | once a write has been polled as complete, each word in the receive buffer, 1024 bytes a packet from the address asked for, and in the destination is the integer sum of that word of all hosts' packets, modulo 2^32 |
| RootSafety.ClearingErasesNothingLive | repository/src/non_termination_switch.c:395-399 | when q completes, every host holds the result of q - W, and nobody has sent or contributed q + W |
| RootSafety.OldPacketsNeverReturn | repository/src/api.c:747-791 | once port j's packet q has arrived, nothing older than a window before q is ever under way from that port again |
| RootSafety.SlotReuseIsSafe | repository/src/non_termination_switch.c:395-399 | both, over whole runs before and after the clearing step |
| RootNegatives.NegativeRun | repository/src/non_termination_switch.c:451-458 | a run from the start in which result 3 is lost, the card's negative acknowledgement for 3 is reflected as a positive one, and the first write is polled as complete without result 3 |
| RootNegatives.OneWriteIsSafe | repository/src/non_termination_switch.c:451-458 | with a single write even negative acknowledgements that get through never complete it without its results, in any run |
| RootNegatives.ReflectionIsSafeIff | repository/src/non_termination_switch.c:451-458 | in every run every polled write has its results if and only if no negative acknowledgement gets through to the switch or there is only one write |
| RootProgress.Drain | repository/src/non_termination_switch.c:303-409 | from every reachable state the channels can be emptied without loss in finitely many steps |
| RootProgress.Resend | repository/src/non_termination_switch.c:375-382 | resending a packet of a complete number brings its host the result and the host's acknowledgement back to it |
| RootProgress.OldestResultCanArrive | repository/src/non_termination_switch.c:375-407 | from every reachable state, if every host has the results below p, finitely many loss-free steps bring everybody the result of p |
| RootProgress.CollectiveCanFinish | repository/src/api.c:758-791 | from every reachable state finitely many loss-free steps let every host finish the whole collective |
| ReliableSwitch.Switch.constructor | repository/src/switch.c:342-359 | a fresh switch is in the specification's initial state |
| ReliableSwitch.Switch.AddIn | repository/src/switch.c:765-786 | adds all words, except words 0 and 1 of packet 0 |
| ReliableSwitch.Switch.ReleaseDownward | repository/src/switch.c:642-656 | frees aggregation slots downward as long as they belong to the walk |
| ReliableSwitch.Switch.CacheResult | repository/src/switch.c:581-595 | holds a result and broadcasts it, or fails the assertion that it is the expected one |
| ReliableSwitch.Switch.HandleDownAck | repository/src/switch.c:617-659 | acknowledging a new number frees the walk's slots and moves the mark; an old one changes nothing |
| ReliableSwitch.Switch.AggregateData | repository/src/switch.c:733-821 | adds a contribution; the last one broadcasts the sum, with the failures the code asserts against |
| ReliableSwitch.Switch.HandleData | repository/src/switch.c:992-1051 | a data packet behind, ahead of, or at the child's expected number: whole new state and packets sent |
| ReliableSwitch.Switch.HandleAck | repository/src/switch.c:1062-1092 | a cumulative acknowledgement credits every slot from its number down to the last one acknowledged |
| ReliableSwitch.Switch.HandleNak | repository/src/switch.c:1093-1135 | a negative acknowledgement: the walk, the new mark and the packets resent, or the loop that never ends |
| ReliableSwitch.Switch.Resend | repository/src/switch.c:898-912 | resends upward from a number while slots are in use and newer than the child's last acknowledgement |
| CumulativeAckSafety.InvInitially | repository/src/switch.c:342-359 | the books of the reliable switch are right at the start |
| CumulativeAckSafety.DataStep | repository/src/switch.c:992-1051 | under the invariant a data packet has exactly the effect of the children's counters: acknowledged, refused, absorbed, or completed and broadcast |
| CumulativeAckSafety.AckStep | repository/src/switch.c:1062-1092 | a cumulative acknowledgement leaves the invariant intact: every held slot's degree is the number of children whose mark has reached it |
| CumulativeAckSafety.NakWalkEnds | repository/src/switch.c:1096-1121 | the NAK walk always ends under the invariant: its `continue` is unreachable |
| CumulativeAckSafety.NakStep | repository/src/switch.c:1093-1135 | a NAK for e makes the switch resend exactly e up to the last broadcast, in order, to the child that sent it, and stop, if and only if that child is not a whole ring behind |
| CumulativeAckSafety.SpinningIsForEver | repository/src/switch.c:902-910 | when a whole ring is outstanding for the child the resending loop never stops, however many rounds it is given |
| CumulativeAckSafety.StaleNakStep | repository/src/switch.c:898-912 | a NAK, of any age, for an already acknowledged number is answered with silence if and only if the child has acknowledged the result now in its slot, as it has if the NAK is not a ring old; otherwise exactly that result and all newer ones go out, numbered whole rings too small, or the loop never ends |
| CumulativeAckSafety.HandleKeepsInv | repository/src/switch.c:936-1141 | every packet of a child that acknowledges only what was sent keeps the invariant: expected numbers, marks, degrees and partial sums agree |
| CumulativeAckSafety.AssertionsFireIff | repository/src/switch.c:583-809 | the assertions at lines 583, 809 and 1009: the first never fires, the others exactly when a result a ring older is unacknowledged by some child, or a child is a ring ahead |
| CumulativeAckSafety.SentDataAreSums | repository/src/switch.c:752-820 | every data packet sent on any event, broadcast or resent, is word by word the integer sum of all children's data for its number modulo 2^32, words 0 and 1 of packet 0 being the operation and the root rank, or, answering an outdated NAK, that for the number whole rings later |
| CumulativeAckSafety.DataIsAnswered | repository/src/switch.c:992-1051 | every data packet is answered first of all, to its own child: negatively with the number expected if it is ahead, otherwise with the last number the child has delivered |
| CumulativeAckSafety.InUseIffHeld | repository/src/switch.c:581-589 | a broadcast slot is in use exactly while some child has not acknowledged its result |
| CumulativeAckSafety.FreedWhenLastChildCovers | repository/src/switch.c:1076-1084 | a held result is freed exactly at the step at which the last child covers it, and no other step frees it |
| CumulativeAckRuns.ReachableStates | repository/src/switch.c:936-1141 | after every run the invariant holds, the expected downstream number is the least of the children's, and the upstream mark is one below it |
| CumulativeAckRuns.EveryDataPacketIsASum | repository/src/switch.c:898-912 | over every run each data packet sent carries the sum for its own number unless it answers a NAK more than a ring old whose slot holds something the child lacks |
| CumulativeAckRuns.OutdatedRun | repository/src/switch.c:898-912 | a run in which an old NAK for 0 has result 300 resent as number 0 |
| CumulativeAckRuns.WithinResultWindow | repository/src/switch.c:1008-1010 | in every run in which a child sends only within a window of at most the ring after the last result, lines 583 and 1009 never fire, and line 809 fires exactly on the packet that completes its number while some child's acknowledgement of the number a ring before has not come in |
| CumulativeAckRuns.NoOverrunIff | repository/src/switch.c:1008-1010 | line 1009 never fires in any such run if and only if the window is at most the ring |
| CumulativeAckRuns.ResultWindowIsNotEnough | repository/src/switch.c:805-809 | with any such window, even of one packet, a run from the start ends with line 809 firing |
| CumulativeAckRuns.SpinningRun | repository/src/switch.c:902-910 | a run from the start, a ring of results lost by one child, in which its NAK makes the resending loop go on for ever |
| CumulativeAckRuns.WithinAckWindow | repository/src/switch.c:581-910 | children that wait until their own acknowledgement of a window before has come in never make an assertion fire, whatever the others' do, and with a window below the ring no loop goes on for ever |
| CumulativeAckRuns.NoAssertionFiresIff | repository/src/switch.c:583-809 | then no assertion ever fires in any run if and only if that window is at most the ring |
| CumulativeAckRuns.NeverStuckIff | repository/src/switch.c:936-1141 | then every packet of every run is handled to the end if and only if that window is smaller than the ring |
| CumulativeAckProgress.AskedIsSent | repository/src/switch.c:898-912 | within such a window a child that asks for what it has not is always answered, with all it lacks and in order |
| CumulativeAckProgress.StepKeepsSound | repository/src/switch.c:936-1141 | children that accept results in order and acknowledge no more than they have stay in step with the switch, whatever is lost |
| CumulativeAckProgress.Finish | repository/src/switch.c:936-1141 | from every state they may be in, finitely many packets, all handled to the end and none lost, bring every child every result of its first p packets, acknowledged |
| CumulativeAckProgress.StarvedForEver | repository/src/switch.c:902-910 | once all results of a ring have gone out and none has arrived no child is ever answered again |
| CumulativeAckProgress.CanAlwaysFinishIff | repository/src/switch.c:898-1141 | after every run, with whatever losses, the collective can be finished if and only if the children's window is smaller than the ring |
| LockedSlots.StepKeepsInv | repository/termination_switch/src/switch_main.c:188-262 | every interleaving step of the connection threads keeps the slots' invariant |
| LockedSlots.RunKeepsInv | repository/termination_switch/src/switch_main.c:188-262 | so does every run |
| LockedSlots.AddNeverBlocks | repository/termination_switch/src/switch_main.c:190-221 | a thread may always enter the critical section: the slot it finds is its packet's own |
| LockedSlots.ExactlyOneObserver | repository/termination_switch/src/switch_main.c:211-224 | some thread has seen the full degree of a number if and only if all threads have contributed to it, and never two threads |
| LockedSlots.CompletionIsUndisturbed | repository/termination_switch/src/switch_main.c:224-262 | from the full observation to the clearing no other thread's step changes the slot, which holds the global sum |
| LockedSlots.SentResultsAreTotals | repository/termination_switch/src/switch_main.c:101-252 | whatever a connection has been sent, from the broadcast buffer or as a Reduce result, is the global sum of its number |
| LockedSlots.OneCompleterAtAll | repository/termination_switch/src/switch_main.c:224-262 | at any time at most one thread is completing anything |
| LockedSlots.OvertakenCompletion | repository/termination_switch/src/switch_main.c:188-262 | with more packets than slots, a run of a Reduce, or of an AllReduce with a window as large as the ring, in which a packet is added to a sum that is still being sent |
| LockedSlots.SafeIffRingSuffices | repository/termination_switch/src/switch_main.c:188-262 | completions are undisturbed in every run if and only if there are no more packets than slots, or it is an AllReduce and the window is smaller than the ring |
| UnlockedNumbers.ActKeepsNumbers | repository/termination_switch/src/switch_main.c:118-137 | with reading and writing of the counters as steps of their own, every step keeps counters, numbers held and packets sent in agreement |
| UnlockedNumbers.NumbersNeedNoLock | repository/termination_switch/src/switch_main.c:134-135 | in every interleaving of an AllReduce or Reduce each connection is sent packets 0, 1, 2, ... without gap or repeat, packet x with the sum for x, although no lock protects the counters; x has been sent exactly if the connection receives results, all have contributed to x, and no thread has yet to serve the connection with it |
| Rules.ConnForRankFinds | repository/include/controller.h:196-203 | the connection found for a rank is a host's of that rank; -1 means there is none |
| Rules.SwitchConfig.GetHostConns | repository/include/controller.h:185-193 | the ids of the host connections, in order |
| Rules.SwitchConfig.GetHostConnsExcept | repository/include/controller.h:206-214 | the same without one rank |
| Rules.SwitchConfig.GenerateAllReduceRules | repository/include/controller.h:221-245 | appends one rule for each host |
| Rules.SwitchConfig.GenerateReduceRules | repository/include/controller.h:253-281 | appends one rule for each root and host |
| Rules.SwitchConfig.GenerateBroadcastRules | repository/include/controller.h:289-318 | appends one rule for each sender that has a connection |
| Rules.SwitchConfig.CalculateRoute | repository/include/controller.h:382-389 | the three kinds of rules in this order and no others |
| Rules.MatchRule | repository/src/rule.c:13-27 | four-part match, three-part for AllReduce |
| Rules.Lookup | repository/src/rule.c:39-47 | finds a matching rule of the table, or there is none |
| Rules.RuleTable.AddRule | repository/src/rule.c:56-65 | appends, or answers -1 and leaves a full table as it was |
| Rules.RuleTable.LookupRule | repository/src/rule.c:39-47 | the first match among the rules in use |
| Rules.RuleTable.ParseRules | repository/termination_switch/src/controller_comm.cpp:107-168 | the table holds the first hundred rules, restricted to connections the switch has room for |
| Rules.ParseOutConns | repository/termination_switch/src/controller_comm.cpp:140-151 | the first ten valid receivers |
| Rules.ParseConnections | repository/termination_switch/src/controller_comm.cpp:31-102 | at most ten connections, and the map from ranks to them |
| Rules.RankMapFindsHost | repository/termination_switch/src/controller_comm.cpp:89-91 | the map leads from a rank to its host, and to -1 exactly if there is none |
| Rules.SwitchAgreesWithController | repository/termination_switch/src/controller_comm.cpp:89-91 | switch and controller send a rank's results to the same connection |
| Rules.OnlyIntendedMatches | repository/include/controller.h:221-318 | among all generated rules a host's key matches the intended rule and no other |
| Rules.RulesGoUpToRoot | repository/include/controller.h:237-238 | every generated rule goes up and has this switch for its root |
| Rules.RulesFitIff | repository/include/parameter.h:16-16 | n hosts make n*n + 2n rules, which fit the table if and only if n is at most 9 |
| Rules.LookupFindsIntended | repository/src/rule.c:39-47 | with at most nine hosts first-match lookup in the loaded table returns exactly the intended rule, for every host, primitive and parameter |
| Rules.NoRoomForBroadcast | repository/termination_switch/src/controller_comm.cpp:114-117 | with ten hosts no sender finds its Broadcast rule |
| Rules.FindsIntendedIff | repository/termination_switch/src/controller_comm.cpp:113-164 | every lookup returns the intended rule if and only if there are at most nine hosts |
| Rules.IntendedReceivers | repository/include/controller.h:221-318 | AllReduce reaches all hosts, Reduce the root alone, Broadcast all but the sender; acknowledgements go back where the packet came from |
| SwitchContext.Context.constructor | repository/termination_switch/src/switch_context.c:59-117 | a fresh switch is in the specification's initial state, its tables empty |
| SwitchContext.Context.LoadConfig | repository/termination_switch/src/controller_comm.cpp:190-214 | rules and ranks are loaded as parsed |
| SwitchContext.Context.SendPacket | repository/termination_switch/src/switch_main.c:134-136 | sends under the connection's next number and counts it |
| SwitchContext.Context.CacheAndBroadcast | repository/termination_switch/src/switch_main.c:101-137 | one packet to each receiver of the rule, in order, skipping unknown ones |
| SwitchContext.Context.HandleBroadcast | repository/termination_switch/src/switch_main.c:144-169 | one packet to every connection but the sender's |
| SwitchContext.Context.MergeIn | repository/termination_switch/src/switch_main.c:193-203 | the first contribution replaces the front of the buffer, later ones are added to it |
| SwitchContext.Context.AggregateData | repository/termination_switch/src/switch_main.c:177-272 | one contribution; the last one sends the result as the primitive says and clears the slot |
| SwitchContext.Context.ReceiveData | repository/termination_switch/src/switch_main.c:496-508 | behind, ahead of, or at the expected number |
| SwitchContext.Context.PacketHandler | repository/termination_switch/src/switch_main.c:346-523 | one packet: metadata, rule lookup, control packets and data, whole new state |
| OutputStreamSafety.SlotWithContribution | repository/termination_switch/src/switch_main.c:193-212 | a packet next in sequence joins the sum of its own slot and is counted once |
| OutputStreamSafety.FullMeansComplete | repository/termination_switch/src/switch_main.c:224-224 | a slot fills up exactly when nobody is left at the oldest incomplete packet, which is then the slot's own |
| OutputStreamSafety.ResultIsSent | repository/termination_switch/src/switch_main.c:227-264 | a result reaches exactly the connections that receive it: everybody, or the root's connection |
| OutputStreamSafety.SendAllSends | repository/termination_switch/src/switch_main.c:118-137 | sending to a list of connections adds one packet, correctly numbered, to each stream on the list and nothing to the others |
| OutputStreamSafety.StepKeepsInv | repository/termination_switch/src/switch_main.c:346-523 | control packets, data in and out of sequence, and the change of operation keep the streams and slots right |
| OutputStreamSafety.RunKeepsInv | repository/termination_switch/src/switch_main.c:346-523 | so does every run |
| OutputStreamSafety.StreamsCarryResults | repository/termination_switch/src/switch_main.c:101-168 | over any run of the three operations every connection has been sent packets 0, 1, 2, ... carrying in order exactly the results addressed to it, up to the packets all participants have delivered; connections may be any number of packets apart in operations of at most 300 packets, and otherwise less than a ring |
| OutputStreamSafety.StreamsOfFinishedRun | repository/termination_switch/src/switch_main.c:224-264 | between operations every result owed has been sent and all slots are empty |
| OutputStreamSafety.AcceptedByOpcode | repository/termination_switch/src/switch_main.c:467-506 | a participant's packet with the number expected is counted, acknowledged, and added to its slot or passed on, under opcodes 0x00, 0x01, 0x02 and 0x04, and without immediate data under no other |
| OutputStreamSafety.ImmediateData | repository/termination_switch/src/switch_main.c:376-451 | immediate data says operation and root rank for the whole switch, whatever the packet's number; with at most four bytes under opcode 0x05 it is a control packet, counted and acknowledged whatever its number, and otherwise data |
| OutputStreamSafety.DataIsAnswered | repository/termination_switch/src/switch_main.c:496-508 | a participant's data packet is answered on its own connection: negatively with the number expected if and only if it is ahead, otherwise with the last number accepted |
| OutputStreamSafety.AcknowledgedIsAccepted | repository/termination_switch/src/switch_main.c:446-508 | after any run every acknowledgement ever sent names a packet its connection has delivered |
| StreamAlignment.MisalignedGoesWrong | repository/termination_switch/src/switch_main.c:186-224 | if input numbers choose different slots, a run in which everybody's first packet arrives and no result is sent |
| StreamAlignment.AlignedAfterBroadcastIff | repository/src/api.c:1317-1418 | a Broadcast leaves input numbers aligned if and only if it and its control packet take a multiple of 300 numbers |
| StreamAlignment.FirstAggregationGoesWrong | repository/termination_switch/src/switch_main.c:144-224 | a run from a fresh switch, a Broadcast of one packet and then any aggregation, in which a result that is owed is not sent |
| StreamSkew.OvertakingRun | repository/termination_switch/src/switch_main.c:186-224 | if a connection may get a ring ahead and there are more packets than slots, a run in which its packet 300 joins the sum of packet 0 and the slot counts as full without everybody's packet 0 |
| StreamSkew.AggregationIsRightIff | repository/termination_switch/src/switch_main.c:177-264 | an aggregation's streams are right in every run if and only if the input numbers choose the same slot when it begins, and the bound on how far a connection may get ahead, or the number of packets, is at most the ring, or there is one connection |
| StreamSkew.UnboundedIsRightIff | repository/termination_switch/src/switch_main.c:177-264 | with no effective bound it is right in every run if and only if it has at most 300 packets |
| StreamSkew.RightAfterBroadcastIff | repository/termination_switch/src/switch_main.c:144-224 | the aggregation after a Broadcast is right in every run if and only if the Broadcast took a multiple of 300 numbers and the bound or the number of packets is at most 300 |
| EarlyControl.RunGoesOn | repository/termination_switch/src/switch_main.c:414-506 | after an early control packet that leaves the receivers as they are every run goes on as it would have without it |
| EarlyControl.EarlyControlSpoils | repository/termination_switch/src/switch_main.c:414-506 | an early control packet of another operation, and one packet of each host that still owed the oldest: the result goes to the wrong hosts, or the packets are dropped |
| EarlyControl.EarlyControlIsHarmlessIff | repository/termination_switch/src/switch_main.c:414-506 | a control packet while others are still at the present operation is harmless in every run up to its end if and only if it announces that very operation |
| EarlyControl.FirstReduceIsSpoilt | repository/src/api.c:989-1040 | a run from a fresh switch: a sender of a one-packet Reduce goes on to something else before the others' packets, and the root's stream is not right |
| HostApi.Communicator.Prepare | repository/src/api.c:594-606 | word w of the send buffer is word w of the source, and zero from its end to the end of the last message |
| HostApi.Communicator.PostWindow | repository/src/api.c:614-630 | the first window of messages, each once and in order |
| HostApi.Communicator.CopyOut | repository/src/api.c:668-681 | a received message goes to its own place in the destination and not past its end |
| HostApi.Communicator.OnReceive | repository/src/api.c:668-703 | one more message received, copied out, and the next one sent if there is one |
| HostApi.Communicator.TakeBatch | repository/src/api.c:658-716 | a whole batch of completions in any order keeps sent, received and destination in step |
| HostApi.Communicator.AllReduceSendrecv | repository/src/api.c:545-729 | for every array, batching and order of completions: exactly the first min(messages, 2 + received) messages have been sent, in order; the destination is the received messages in place; it ends when all have come, and otherwise only on an error |
| HostApi.AllReceived | repository/src/api.c:644-644 | as many messages as requests means every request has been answered |
| HostApi.Communicator.ReduceSender | repository/src/api.c:989-1036 | exactly the first min(messages, 2 + completions) messages have been sent, in order, throughout; the loop with the moving bound ends after the first poll by which every message has been sent and as many completions counted |
| StaleCompletions.CompleteIffDrained | repository/src/api.c:992-1001 | when the loop ends, with stale completions ahead in the queue and any batching, all own messages have completed if and only if the last poll had emptied the queue |
| StaleCompletions.EarlyRun | repository/src/api.c:992-1001 | polled one by one the loop ends with as many own messages under way as there were stale completions |
| StaleCompletions.AllCompletedIffNothingStale | repository/src/api.c:992-1001 | all messages have completed at the end of every run if and only if no completion of an earlier operation was in the queue |
| StaleCompletions.AllReduceLeaves | repository/src/api.c:644-706 | what an AllReduce leaves in the queue are exactly the send completions it has not looked at |
| StaleCompletions.AllReduceMayLeaveAll | repository/src/api.c:644-706 | an AllReduce that ends without having looked at any of its send completions |
| StaleCompletions.ReduceAfterAllReduce | repository/src/api.c:519-1001 | a Reduce after an AllReduce, whose control message takes one completion whichever it is, has all its messages completed when it returns, in every run, if and only if the AllReduce had looked at all its send completions |
| EndToEnd.PostedPackets | repository/src/api.c:615-629 | the packets of the messages posted are the packets of the padded source array, in order |
| EndToEnd.WindowKeepsSkew | repository/src/api.c:644-703 | whatever a host that awaits results has posted, after the receives its loop has looked at, is within eight packets of the results sent |
| EndToEnd.PossibleIsEnabled | repository/src/api.c:614-1036 | whatever cards send of posted messages, in any order and repeated, meets what the switch assumes of its input: in an AllReduce, and in a Reduce with any bound as large as its number of packets |
| EndToEnd.TakeKeepsTogether | repository/src/api.c:545-1036 | if the ring suffices every step of switch, cards and loops, the senders' loop of a Reduce included, keeps the switch's invariant, and every receive looked at is a whole result message |
| EndToEnd.ResultMessageWord | repository/termination_switch/src/switch_main.c:197-201 | word j of result message m is the integer sum of word 1024m + j of the hosts' arrays modulo 2^32, and zero beyond their end |
| EndToEnd.SumsEndToEnd | repository/src/api.c:545-985 | for every interleaving of packets, acknowledgements and completions, when a loop has looked at all its receives word k of its destination is the sum of word k of all source arrays modulo 2^32, for every k: in an AllReduce of any length, and at the root of a Reduce of at most 75 messages |
| EndToEnd.ReceiveSums | repository/src/api.c:545-985 | the receiving loop in such a run, which AllReduce and the root of a Reduce share: it ends exactly when all its results have been polled, and then word k of its destination array is the sum of word k of all hosts' arrays modulo 2^32 |
| CollectiveProgress.SomethingToDo | repository/src/api.c:545-1036 | in every state that switch, cards and loops get into together, unless all have finished, some packet or poll is possible after which there is less to do |
| CollectiveProgress.CollectiveCanFinish | repository/src/api.c:545-1036 | whatever has happened since the operation began, finitely many further packets and polls let every host deliver everything and every loop that awaits results look at all of them, which copied out are the sums |
| ReduceRuns.OvertakingReduce | repository/src/api.c:989-1036 | a Reduce of more than 75 messages, every sender within the window of its loop: a sender with 75 messages acknowledged spoils the sum of packet 0 |
| ReduceRuns.ReduceIsRightIff | repository/src/api.c:826-1040 | with all loops running a Reduce is right in every run if and only if the arrays have at most 75 messages or there is one host |
| ReduceRuns.AllReduceIsRight | repository/src/api.c:545-729 | with all loops running an AllReduce is right in every run, whatever its length |
| ReduceRuns.FirstReduceGoesWrong | repository/src/api.c:989-1036 | the run from a fresh switch for every longer Reduce and every root |
| LinearSteps.RegisterIsLinear | repository/src/util.c:161-196 | what a shift register held and what is shifted into it contribute independently, for strings of any length |
| LinearSteps.RegisterAfterBlock | repository/src/util.c:166-186 | for any linear step, eight items at once, the register added to the first four, give the register after the items one by one |
| Crc32.BitIsLinear | repository/src/util.c:147-149 | one shift of the CRC register is linear over exclusive or |
| Crc32.ByteByTable | repository/src/util.c:192-192 | one table look-up replaces eight shifts |
| Crc32.AfterBlock | repository/src/util.c:166-186 | the eight look-ups of a block give the register after its eight bytes bit by bit |
| Crc32.Tables.constructor | repository/src/util.c:144-158 | table t holds for each byte its CRC followed by t zero bytes |
| Crc32.Tables.TakeBlock | repository/src/util.c:166-188 | one round of the eight-byte loop |
| Crc32.Tables.Crc | repository/src/util.c:161-196 | the tables' CRC-32 is the bitwise CRC-32 for every string of bytes |
| CrcPolynomial.ConstantIsGenerator | repository/src/util.c:141-141 | the constant is the generator of section 3.2.9 of IEEE 802.3 without its leading term, in reflected order |
| CrcPolynomial.ReferenceIsRemainder | repository/src/util.c:141-196 | CRC-32 of every string is the complement of the remainder of the message times x^32, first 32 coefficients complemented, divided by that generator, as section 3.2.9 of IEEE 802.3 defines it |
| CrcPolynomial.RemainderIsUnique | repository/src/util.c:141-196 | there is only one such remainder |
| CrcPolynomial.Residue | repository/src/util.c:161-196 | a string followed by its CRC, least significant byte first, always leaves the register at 0xDEBB20E3 |
| Ipv4Checksum.FoldAtTheEnd | repository/src/util.c:114-122 | bringing all carries round at the end gives the one's-complement sum |
| Ipv4Checksum.FoldKeepsResidue | repository/src/util.c:119-121 | the fold keeps the sum modulo 65535, and only zero folds to zero |
| Ipv4Checksum.FoldCarries | repository/src/util.c:119-121 | the carry loop ends with the folded sum |
| Ipv4Checksum.Checksum | repository/src/util.c:106-127 | the complement of the one's-complement sum with the checksum field as zero; the header is unchanged |
| Ipv4Checksum.StoredChecksumIsRightIff | repository/src/util.c:367-367 | with the result stored the header sums to 0xFFFF if and only if the header is long enough to cover the field, or its few words add up to a positive multiple of 65535 |
| Frames.HeaderSum | repository/src/util.c:355-367 | the checksum does not depend on what is in the field beforehand |
| Frames.BuildEthPacket | repository/src/util.c:331-457 | the buffer holds the frame with headers, body, header checksum and ICRC, and its length is returned |
| Frames.FrameFields | repository/src/util.c:351-435 | every data, ACK and NAK frame byte by byte: destination and source MAC, ether type, IPv4 lengths, protocol and addresses, ports, opcode, partition key, queue pair, number with the acknowledgement request, and data |
| Frames.SyndromeOfFrame | repository/src/util.c:404-412 | what an acknowledgement's fifth word says: all ones in the syndrome's low five bits of an ACK, bits 29 and 30 set in a NAK, the message number's own 24 bits untouched |
| Frames.IcrcOfFrame | repository/src/util.c:251-286 | the last four bytes, least significant first, are the CRC-32 of eight bytes of ones and the packet with ones at its seven variable bytes |
| Frames.HeaderSumIsAllOnes | repository/src/util.c:355-367 | the IPv4 header of every frame sums to 0xFFFF, as section 3.1 of RFC 791 requires |
| Frames.IcrcIgnoresVariantFields | repository/src/util.c:251-286 | the ICRC is the same whatever the fields that change on the way hold |
| Frames.DataRoundTripIff | repository/termination_switch/src/switch_main.c:350-374 | a data frame is read back with the same opcode, number modulo 2^24, length and contents if and only if its opcode has no immediate data |
| Frames.StrippedDataRoundTrip | repository/termination_switch/src/switch_main.c:49-58 | results sent under the stripped opcode are always read back as sent |
| Frames.AckClassifiedIff | repository/termination_switch/src/switch_main.c:509-513 | a negative acknowledgement is always recognised, a positive one if and only if its message number is below 2^29 |

## Left out

- RootSwitch: the arrival bitmap is a set of ports, not a 32-bit mask, so the limit of 31 ports is not modelled; `degree`, which the root never reads, does not overflow.
- Pipeline: branches of switches that are not the root; they never clear a slot, so nothing holds across reuse.
- Frames: bodies with a remote address (byte-swapped payload) and control headers; only data and acknowledgements are built. Byte order of payload words is left out everywhere: sums are on host-order words.
- ReflectionIsSafeIff: a card may go on saying that a result is missing or stop at any time; that it says so once per gap is not modelled.
- CompletionImpliesResult: the host converts and copies a message when it is polled; the copy is one step here.
- ReleaseUp: the walk looks at slot -1 after packet 0; the model stops there.
- HandleNak: resending runs in a thread of its own; here it runs inside the handler.
- AggregateData: Reduce in `switch.c`, the resend on a parent's NAK, which reads the broadcast buffer, and the timer thread that is never started.
- SafeIffRingSuffices: with locks one operation at a time, from a fresh switch; a Broadcast takes no lock and is sent by its sender's thread alone. Sequences of operations are proved for an atomic handler.
- PacketHandler: downward rules and switches that are not the root (no generated rule is downward), upstream ACK counters, which influence nothing that is sent, and NAK retransmission, which the source leaves to do. `bcast_buffer` and `down_epsn` are only read for downward rules.
- CanAlwaysFinishIff: a result arrives when it is sent or is lost; only what children send may come late.
- EarlyControlIsHarmlessIff: up to the end of the present operation; the data packets of the one begun early are not in these runs.
- AddNeverBlocks: packets of one number are equally long; `SwitchContext.Context.MergeIn` has the buffer as it is.
- StreamsCarryResults: opcodes of results; all hosts cut alike, so the last contributor's opcode is everybody's.
- LoadConfig: YAML, text of addresses, and the reset of numbers on a new configuration, which forgets `send_psn`.
- AllReduceSendrecv: the wait for the control message's completion, and whether a posting fails.
- SumsEndToEnd: the card's own acknowledgements and retransmissions; it hands over messages made of consecutive packets of the stream, from the first packet of the operation on.
- `inccl_allreduce_write` sends whole messages only, so a remainder of the array is neither sent nor received; `inccl_reduce_write`, whose metadata displaces two data words; the Broadcast loops, which have the shapes proved here. The Reduce root's loop is the AllReduce loop but for what it prints.
- `is_ipv4_checksum_valid`, which compares different byte orders, and `is_icrc_valid`, which returns nothing.
- BuildEthPacket: frames longer than the callers' 4096-byte buffer.
- Sockets, pcap, epoll, libibverbs, topology parsing, logging, file transfer and the programs' main functions.
