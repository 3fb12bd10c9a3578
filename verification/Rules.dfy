/** The rules the controller generates for one switch (`controller.h`), how the switch loads them
    (`controller_comm.cpp`), and the first-match lookup that is made for every packet (`rule.c`).
 */
module Rules {

  const MAX_CONNECTIONS_NUM: nat := 10
  const MAX_PORT_NUM: nat := 10
  const MAX_RULES: nat := 100
  const MAX_RANKS: nat := 128

  datatype Option<T> = None | Some(value: T)

  datatype Primitive = Null | AllReduce | Reduce | Broadcast

  datatype Direction = Up | Down

  datatype Connection = Connection(connId: nat, isSwitch: bool, peerId: int, myIp: nat, peerIp: nat)

  /** `ackConn` and `outConns` are connection ids; an `ackConn` of -1 is no connection. */
  datatype Rule = Rule(srcIp: nat, dstIp: nat, primitive: Primitive, param: int, connId: nat,
                       direction: Direction, root: bool, ackConn: int, outConns: seq<int>)

  /** What a packet is looked up by. */
  datatype Key = Key(srcIp: nat, dstIp: nat, primitive: Primitive, param: int)

  // ----- Helpers of the controller

  function HostConns(conns: seq<Connection>): seq<int> {
    if conns == [] then []
    else
      var last := conns[|conns| - 1];
      HostConns(conns[..|conns| - 1]) + if last.isSwitch then [] else [last.connId]
  }

  function HostConnsExcept(conns: seq<Connection>, rank: int): seq<int> {
    if conns == [] then []
    else
      var last := conns[|conns| - 1];
      HostConnsExcept(conns[..|conns| - 1], rank)
      + if !last.isSwitch && last.peerId != rank then [last.connId] else []
  }

  predicate IsHostOf(conn: Connection, rank: int) {
    !conn.isSwitch && conn.peerId == rank
  }

  function ConnForRank(conns: seq<Connection>, rank: int): int {
    if conns == [] then -1
    else if IsHostOf(conns[0], rank) then conns[0].connId
    else ConnForRank(conns[1..], rank)
  }

  /** The host of the rank, or -1 if there is none. */
  lemma {:induction false} ConnForRankFinds(conns: seq<Connection>, rank: int)
    ensures ConnForRank(conns, rank) == -1 <==> forall k :: 0 <= k < |conns| ==> !IsHostOf(conns[k], rank)
    ensures ConnForRank(conns, rank) != -1 ==>
              exists k :: 0 <= k < |conns| && IsHostOf(conns[k], rank) && conns[k].connId == ConnForRank(conns, rank)
  {
    if conns != [] && !IsHostOf(conns[0], rank) {
      ConnForRankFinds(conns[1..], rank);
      assert forall k :: 0 < k < |conns| ==> conns[k] == conns[1..][k - 1];
    }
  }

  // ----- The rules meant for a connection

  function AllReduceRule(conns: seq<Connection>, conn: Connection): Rule {
    Rule(conn.peerIp, conn.myIp, AllReduce, -1, conn.connId, Up, true, conn.connId, HostConns(conns))
  }

  function ReduceRule(conns: seq<Connection>, conn: Connection, root: int): Rule {
    Rule(conn.peerIp, conn.myIp, Reduce, root, conn.connId, Up, true, conn.connId, [ConnForRank(conns, root)])
  }

  function BroadcastRule(conns: seq<Connection>, conn: Connection, sender: int): Rule {
    Rule(conn.peerIp, conn.myIp, Broadcast, sender, conn.connId, Up, true, conn.connId,
         HostConnsExcept(conns, sender))
  }

  // ----- The rules in the order in which they are generated

  function OneIf(b: bool, rule: Rule): seq<Rule> {
    if b then [rule] else []
  }

  function AllReduceRules(conns: seq<Connection>, k: nat): seq<Rule>
    requires k <= |conns|
  {
    if k == 0 then []
    else AllReduceRules(conns, k - 1) + OneIf(!conns[k - 1].isSwitch, AllReduceRule(conns, conns[k - 1]))
  }

  function ReduceRulesFor(conns: seq<Connection>, root: int, k: nat): seq<Rule>
    requires k <= |conns|
  {
    if k == 0 then []
    else
      ReduceRulesFor(conns, root, k - 1) + OneIf(!conns[k - 1].isSwitch, ReduceRule(conns, conns[k - 1], root))
  }

  function ReduceRules(conns: seq<Connection>, roots: nat): seq<Rule> {
    if roots == 0 then []
    else ReduceRules(conns, roots - 1) + ReduceRulesFor(conns, roots - 1, |conns|)
  }

  /** `sw.connections[sender_conn]` takes a connection id for an index. */
  predicate IdsAreIndices(conns: seq<Connection>) {
    forall k :: 0 <= k < |conns| ==> conns[k].connId == k
  }

  function BroadcastRules(conns: seq<Connection>, senders: nat): seq<Rule>
    requires IdsAreIndices(conns)
  {
    if senders == 0 then []
    else
      var c := ConnForRank(conns, senders - 1);
      ConnForRankFinds(conns, senders - 1);
      if c < 0 then BroadcastRules(conns, senders - 1)
      else BroadcastRules(conns, senders - 1) + [BroadcastRule(conns, conns[c], senders - 1)]
  }

  function Generated(conns: seq<Connection>, world: nat): seq<Rule>
    requires IdsAreIndices(conns)
  {
    AllReduceRules(conns, |conns|) + ReduceRules(conns, world) + BroadcastRules(conns, world)
  }

  lemma Associate(a: seq<Rule>, b: seq<Rule>, c: seq<Rule>)
    ensures a + b + c == a + (b + c)
  {
  }

  /** The controller's per-switch configuration, filled in step by step. */
  class SwitchConfig {
    const connections: seq<Connection>
    var rules: seq<Rule>

    constructor (connections: seq<Connection>)
      ensures this.connections == connections && rules == []
    {
      this.connections := connections;
      rules := [];
    }

    method GetHostConns() returns (result: seq<int>)
      ensures result == HostConns(connections)
    {
      result := [];
      for k := 0 to |connections|
        invariant result == HostConns(connections[..k])
      {
        assert connections[..k + 1][..k] == connections[..k];
        if !connections[k].isSwitch {
          result := result + [connections[k].connId];
        }
      }
      assert connections[..|connections|] == connections;
    }

    method GetConnForRank(rank: int) returns (c: int)
      ensures c == ConnForRank(connections, rank)
    {
      for k := 0 to |connections|
        invariant ConnForRank(connections, rank) == ConnForRank(connections[k..], rank)
      {
        if !connections[k].isSwitch && connections[k].peerId == rank {
          return connections[k].connId;
        }
        assert connections[k..][1..] == connections[k + 1..];
      }
      return -1;
    }

    method GetHostConnsExcept(rank: int) returns (result: seq<int>)
      ensures result == HostConnsExcept(connections, rank)
    {
      result := [];
      for k := 0 to |connections|
        invariant result == HostConnsExcept(connections[..k], rank)
      {
        assert connections[..k + 1][..k] == connections[..k];
        if !connections[k].isSwitch && connections[k].peerId != rank {
          result := result + [connections[k].connId];
        }
      }
      assert connections[..|connections|] == connections;
    }

    method GenerateAllReduceRules()
      modifies this`rules
      ensures rules == old(rules) + AllReduceRules(connections, |connections|)
    {
      ghost var start := rules;
      var hostConns := GetHostConns();
      for k := 0 to |connections|
        invariant rules == start + AllReduceRules(connections, k)
      {
        var conn := connections[k];
        if conn.isSwitch {
          continue;
        }
        Associate(start, AllReduceRules(connections, k), [AllReduceRule(connections, conn)]);
        rules := rules + [Rule(conn.peerIp, conn.myIp, AllReduce, -1, conn.connId, Up, true, conn.connId, hostConns)];
      }
    }

    method GenerateReduceRules(world: nat)
      modifies this`rules
      ensures rules == old(rules) + ReduceRules(connections, world)
    {
      ghost var start := rules;
      for root := 0 to world
        invariant rules == start + ReduceRules(connections, root)
      {
        var rootConn := GetConnForRank(root);
        ghost var before := rules;
        for k := 0 to |connections|
          invariant rules == before + ReduceRulesFor(connections, root, k)
        {
          var conn := connections[k];
          if conn.isSwitch {
            continue;
          }
          Associate(before, ReduceRulesFor(connections, root, k), [ReduceRule(connections, conn, root)]);
          rules := rules + [Rule(conn.peerIp, conn.myIp, Reduce, root, conn.connId, Up, true, conn.connId, [rootConn])];
        }
        Associate(start, ReduceRules(connections, root), ReduceRulesFor(connections, root, |connections|));
      }
    }

    method GenerateBroadcastRules(world: nat)
      requires IdsAreIndices(connections)
      modifies this`rules
      ensures rules == old(rules) + BroadcastRules(connections, world)
    {
      for sender := 0 to world
        invariant rules == old(rules) + BroadcastRules(connections, sender)
      {
        var receivers := GetHostConnsExcept(sender);
        var senderConn := GetConnForRank(sender);
        ConnForRankFinds(connections, sender);
        if senderConn < 0 {
          continue;
        }
        var conn := connections[senderConn];
        rules := rules + [Rule(conn.peerIp, conn.myIp, Broadcast, sender, conn.connId, Up, true, conn.connId,
                               receivers)];
      }
    }

    /** The three generators, in the order in which `calculate_route` calls them. */
    method CalculateRoute(world: nat)
      requires IdsAreIndices(connections) && rules == []
      modifies this`rules
      ensures rules == Generated(connections, world)
    {
      GenerateAllReduceRules();
      GenerateReduceRules(world);
      GenerateBroadcastRules(world);
    }
  }

  // ----- Loading

  predicate IsConnId(c: int) {
    0 <= c < MAX_CONNECTIONS_NUM
  }

  predicate FitsPorts(outs: seq<int>) {
    |outs| <= MAX_PORT_NUM && forall k :: 0 <= k < |outs| ==> IsConnId(outs[k])
  }

  /** The first MAX_PORT_NUM valid ids. */
  function ValidOuts(outs: seq<int>): (r: seq<int>)
    ensures |r| <= MAX_PORT_NUM
  {
    if outs == [] then []
    else
      var last := outs[|outs| - 1];
      var rest := ValidOuts(outs[..|outs| - 1]);
      if |rest| < MAX_PORT_NUM && IsConnId(last) then rest + [last] else rest
  }

  lemma {:induction false} ValidOutsKeepsValid(outs: seq<int>)
    requires FitsPorts(outs)
    ensures ValidOuts(outs) == outs
  {
    if outs != [] {
      ValidOutsKeepsValid(outs[..|outs| - 1]);
    }
  }

  function Loaded(rule: Rule): Rule {
    rule.(ackConn := if IsConnId(rule.ackConn) then rule.ackConn else -1, outConns := ValidOuts(rule.outConns))
  }

  function LoadedAll(rules: seq<Rule>): (r: seq<Rule>)
    ensures |r| == |rules| && forall k :: 0 <= k < |rules| ==> r[k] == Loaded(rules[k])
  {
    seq(|rules|, k requires 0 <= k < |rules| => Loaded(rules[k]))
  }

  function AtMost(rules: seq<Rule>, n: nat): (r: seq<Rule>)
    ensures r == if |rules| <= n then rules else rules[..n]
  {
    if |rules| <= n then rules else rules[..n]
  }

  /** The table the switch ends up with. */
  function Table(conns: seq<Connection>, world: nat): seq<Rule>
    requires IdsAreIndices(conns)
  {
    LoadedAll(AtMost(Generated(conns, world), MAX_RULES))
  }

  predicate Matches(rule: Rule, key: Key) {
    && rule.srcIp == key.srcIp && rule.dstIp == key.dstIp && rule.primitive == key.primitive
    && (key.primitive != AllReduce ==> rule.param == key.param)
  }

  function Lookup(rules: seq<Rule>, key: Key): (r: Option<Rule>)
    ensures r.None? <==> forall k :: 0 <= k < |rules| ==> !Matches(rules[k], key)
    ensures r.Some? ==> Matches(r.value, key) && exists k :: 0 <= k < |rules| && rules[k] == r.value
  {
    if rules == [] then None
    else if Matches(rules[0], key) then Some(rules[0])
    else
      var r := Lookup(rules[1..], key);
      assert forall k :: 0 < k < |rules| ==> rules[k] == rules[1..][k - 1];
      r
  }

  class RuleTable {
    const rules: array<Rule>
    var count: nat

    ghost predicate Valid()
      reads this
    {
      rules.Length == MAX_RULES && count <= MAX_RULES
    }

    ghost function Contents(): seq<Rule>
      reads this, rules
      requires Valid()
    {
      rules[..count]
    }

    constructor ()
      ensures Valid() && fresh(rules) && Contents() == []
    {
      rules := new Rule[MAX_RULES](_ => Rule(0, 0, Null, -1, 0, Up, false, -1, []));
      count := 0;
    }

    /** Adds a rule, or answers -1 and changes nothing when the table is full. */
    method AddRule(rule: Rule) returns (status: int)
      requires Valid()
      modifies this`count, rules
      ensures Valid()
      ensures status == if old(count) < 100 then 0 else -1
      ensures Contents() == old(Contents()) + if old(count) < 100 then [rule] else []
    {
      if count >= MAX_RULES {
        return -1;
      }
      rules[count] := rule;
      count := count + 1;
      return 0;
    }

    method LookupRule(srcIp: nat, dstIp: nat, primitive: Primitive, param: int) returns (found: Option<Rule>)
      requires Valid()
      ensures found == Lookup(Contents(), Key(srcIp, dstIp, primitive, param))
    {
      ghost var key := Key(srcIp, dstIp, primitive, param);
      for i := 0 to count
        invariant Lookup(Contents(), key) == Lookup(Contents()[i..], key)
      {
        if MatchRule(rules[i], srcIp, dstIp, primitive, param) {
          return Some(rules[i]);
        }
        assert Contents()[i..][1..] == Contents()[i + 1..];
      }
      return None;
    }

    /** Fills an empty table from the configuration, until it is full. */
    method ParseRules(config: seq<Rule>)
      requires Valid() && count == 0
      modifies this`count, rules
      ensures Valid() && Contents() == LoadedAll(AtMost(config, 100))
    {
      var k := 0;
      while k < |config|
        invariant Valid() && count == k <= |config|
        invariant Contents() == LoadedAll(config[..k])
      {
        if count >= MAX_RULES {
          break;
        }
        var outs := ParseOutConns(config[k].outConns);
        rules[count] := config[k].(ackConn := if IsConnId(config[k].ackConn) then config[k].ackConn else -1,
                                   outConns := outs);
        count := count + 1;
        k := k + 1;
      }
      assert AtMost(config, MAX_RULES) == config[..k];
    }
  }

  /** The four-part match; AllReduce rules match whatever the parameter is. */
  predicate MatchRule(rule: Rule, srcIp: nat, dstIp: nat, primitive: Primitive, param: int)
    ensures MatchRule(rule, srcIp, dstIp, primitive, param) <==> Matches(rule, Key(srcIp, dstIp, primitive, param))
  {
    if rule.srcIp != srcIp || rule.dstIp != dstIp then false
    else if rule.primitive != primitive then false
    else if primitive == AllReduce then true
    else rule.param == param
  }

  method ParseOutConns(outs: seq<int>) returns (kept: seq<int>)
    ensures kept == ValidOuts(outs)
  {
    kept := [];
    var i := 0;
    while i < |outs|
      invariant i <= |outs| && kept == ValidOuts(outs[..i])
    {
      if |kept| >= MAX_PORT_NUM {
        NoRoomLeft(outs, i);
        break;
      }
      assert outs[..i + 1][..i] == outs[..i];
      if IsConnId(outs[i]) {
        kept := kept + [outs[i]];
      }
      i := i + 1;
    }
    assert i == |outs| ==> outs[..i] == outs;
  }

  lemma {:induction false} NoRoomLeft(outs: seq<int>, i: nat)
    requires i <= |outs| && |ValidOuts(outs[..i])| == MAX_PORT_NUM
    ensures ValidOuts(outs) == ValidOuts(outs[..i])
  {
    if i == |outs| {
      assert outs[..i] == outs;
    } else {
      var front := outs[..|outs| - 1];
      assert front[..i] == outs[..i];
      NoRoomLeft(front, i);
    }
  }

  // ----- Which rule a packet finds

  predicate IsHost(conns: seq<Connection>, c: int) {
    0 <= c < |conns| && !conns[c].isSwitch
  }

  ghost predicate DistinctRanks(conns: seq<Connection>) {
    forall c, d :: IsHost(conns, c) && IsHost(conns, d) && conns[c].peerId == conns[d].peerId ==> c == d
  }

  predicate SameAddresses(a: Connection, b: Connection) {
    a.peerIp == b.peerIp && a.myIp == b.myIp
  }

  /** Connections are numbered as listed; the hosts' peer ids are the ranks 0, ..., world-1, one connection
      for each; and no two hosts have the same pair of addresses. */
  ghost predicate WellWired(conns: seq<Connection>, world: nat) {
    && IdsAreIndices(conns)
    && (forall c :: IsHost(conns, c) ==> 0 <= conns[c].peerId < world)
    && DistinctRanks(conns)
    && (forall rank :: 0 <= rank < world ==> ConnForRank(conns, rank) != -1)
    && (forall c, d :: IsHost(conns, c) && IsHost(conns, d) && SameAddresses(conns[c], conns[d]) ==> c == d)
  }

  lemma RankOfHost(conns: seq<Connection>, world: nat, c: nat)
    requires WellWired(conns, world) && IsHost(conns, c)
    ensures ConnForRank(conns, conns[c].peerId) == c
  {
    var rank := conns[c].peerId;
    ConnForRankFinds(conns, rank);
    var k :| 0 <= k < |conns| && IsHostOf(conns[k], rank) && conns[k].connId == ConnForRank(conns, rank);
    assert IsHost(conns, k);
  }

  predicate Has(rules: seq<Rule>, rule: Rule) {
    exists k :: 0 <= k < |rules| && rules[k] == rule
  }

  lemma InAppended(a: seq<Rule>, b: seq<Rule>, rule: Rule)
    ensures Has(a + b, rule) <==> Has(a, rule) || Has(b, rule)
  {
    if k :| 0 <= k < |a| && a[k] == rule {
      assert (a + b)[k] == rule;
    }
    if k :| 0 <= k < |b| && b[k] == rule {
      assert (a + b)[|a| + k] == rule;
    }
  }

  lemma InAppendedOne(a: seq<Rule>, b: bool, other: Rule, rule: Rule)
    ensures Has(a + OneIf(b, other), rule) <==> Has(a, rule) || (b && rule == other)
  {
    InAppended(a, OneIf(b, other), rule);
    assert b ==> OneIf(b, other)[0] == other;
  }

  lemma {:induction false} AllReduceRulesAre(conns: seq<Connection>, k: nat, rule: Rule)
    requires k <= |conns|
    ensures Has(AllReduceRules(conns, k), rule)
       <==> exists c :: 0 <= c < k && IsHost(conns, c) && rule == AllReduceRule(conns, conns[c])
  {
    if k > 0 {
      AllReduceRulesAre(conns, k - 1, rule);
      InAppendedOne(AllReduceRules(conns, k - 1), !conns[k - 1].isSwitch, AllReduceRule(conns, conns[k - 1]), rule);
    }
  }

  /** The rule is one of the first k connections' for a Reduce to this root. */
  predicate IsReduceRule(conns: seq<Connection>, root: int, k: nat, rule: Rule)
    requires k <= |conns|
  {
    rule.param == root && exists c :: 0 <= c < k && IsHost(conns, c) && rule == ReduceRule(conns, conns[c], root)
  }

  lemma {:induction false} ReduceRulesForAre(conns: seq<Connection>, root: int, k: nat, rule: Rule)
    requires k <= |conns|
    ensures Has(ReduceRulesFor(conns, root, k), rule) <==> IsReduceRule(conns, root, k, rule)
  {
    if k > 0 {
      ReduceRulesForAre(conns, root, k - 1, rule);
      InAppendedOne(ReduceRulesFor(conns, root, k - 1), !conns[k - 1].isSwitch, ReduceRule(conns, conns[k - 1], root),
                    rule);
    }
  }

  lemma ReduceRulesStep(conns: seq<Connection>, roots: nat, rule: Rule)
    requires roots > 0
    ensures Has(ReduceRules(conns, roots), rule)
       <==> Has(ReduceRules(conns, roots - 1), rule) || IsReduceRule(conns, roots - 1, |conns|, rule)
  {
    InAppended(ReduceRules(conns, roots - 1), ReduceRulesFor(conns, roots - 1, |conns|), rule);
    ReduceRulesForAre(conns, roots - 1, |conns|, rule);
  }

  lemma {:induction false} ReduceRulesAre(conns: seq<Connection>, roots: nat, rule: Rule)
    ensures Has(ReduceRules(conns, roots), rule)
       <==> 0 <= rule.param < roots && IsReduceRule(conns, rule.param, |conns|, rule)
  {
    if roots > 0 {
      ReduceRulesAre(conns, roots - 1, rule);
      ReduceRulesStep(conns, roots, rule);
    }
  }

  lemma {:induction false} BroadcastRulesAre(conns: seq<Connection>, senders: nat, rule: Rule)
    requires IdsAreIndices(conns)
    ensures Has(BroadcastRules(conns, senders), rule)
       <==> 0 <= rule.param < senders && 0 <= ConnForRank(conns, rule.param) < |conns|
            && rule == BroadcastRule(conns, conns[ConnForRank(conns, rule.param)], rule.param)
  {
    if senders > 0 {
      BroadcastRulesAre(conns, senders - 1, rule);
      var c := ConnForRank(conns, senders - 1);
      ConnForRankFinds(conns, senders - 1);
      if c >= 0 {
        InAppendedOne(BroadcastRules(conns, senders - 1), true, BroadcastRule(conns, conns[c], senders - 1), rule);
      }
    }
  }

  /** The rule a packet of connection c should find for a primitive and its parameter: every host for
      AllReduce, the root alone for Reduce, everybody but the sender for the sender's own Broadcast, and
      nothing otherwise. */
  function Intended(conns: seq<Connection>, world: nat, c: nat, primitive: Primitive, param: int): Option<Rule>
    requires c < |conns|
  {
    match primitive
    case Null => None
    case AllReduce => Some(AllReduceRule(conns, conns[c]))
    case Reduce => if 0 <= param < world then Some(ReduceRule(conns, conns[c], param)) else None
    case Broadcast => if param == conns[c].peerId then Some(BroadcastRule(conns, conns[c], param)) else None
  }

  function KeyOf(conn: Connection, primitive: Primitive, param: int): Key {
    Key(conn.peerIp, conn.myIp, primitive, param)
  }

  /** Two hosts with the same addresses are one. */
  lemma SameHost(conns: seq<Connection>, world: nat, c: nat, d: nat)
    requires WellWired(conns, world) && IsHost(conns, c) && IsHost(conns, d) && SameAddresses(conns[c], conns[d])
    ensures c == d
  {
  }

  lemma AllReduceMatch(conns: seq<Connection>, world: nat, c: nat, rule: Rule)
    requires WellWired(conns, world) && IsHost(conns, c)
    ensures Has(AllReduceRules(conns, |conns|), rule) && rule.srcIp == conns[c].peerIp && rule.dstIp == conns[c].myIp
       <==> rule == AllReduceRule(conns, conns[c])
  {
    AllReduceRulesAre(conns, |conns|, rule);
    if d :| 0 <= d < |conns| && IsHost(conns, d) && rule == AllReduceRule(conns, conns[d]) {
      if SameAddresses(conns[c], conns[d]) {
        SameHost(conns, world, c, d);
      }
    }
  }

  lemma ReduceMatch(conns: seq<Connection>, world: nat, c: nat, param: int, rule: Rule)
    requires WellWired(conns, world) && IsHost(conns, c)
    ensures Has(ReduceRules(conns, world), rule) && rule.srcIp == conns[c].peerIp && rule.dstIp == conns[c].myIp
            && rule.param == param
       <==> 0 <= param < world && rule == ReduceRule(conns, conns[c], param)
  {
    ReduceRulesAre(conns, world, rule);
    if d :| 0 <= d < |conns| && IsHost(conns, d) && rule == ReduceRule(conns, conns[d], rule.param) {
      if SameAddresses(conns[c], conns[d]) {
        SameHost(conns, world, c, d);
      }
    }
  }

  lemma BroadcastMatch(conns: seq<Connection>, world: nat, c: nat, param: int, rule: Rule)
    requires WellWired(conns, world) && IsHost(conns, c)
    ensures Has(BroadcastRules(conns, world), rule) && rule.srcIp == conns[c].peerIp && rule.dstIp == conns[c].myIp
            && rule.param == param
       <==> param == conns[c].peerId && rule == BroadcastRule(conns, conns[c], param)
  {
    BroadcastRulesAre(conns, world, rule);
    RankOfHost(conns, world, c);
    var d := ConnForRank(conns, rule.param);
    ConnForRankFinds(conns, rule.param);
    if d != -1 {
      var k :| 0 <= k < |conns| && IsHostOf(conns[k], rule.param) && conns[k].connId == d;
      assert IsHost(conns, d) && conns[d].peerId == rule.param;
      if SameAddresses(conns[c], conns[d]) {
        SameHost(conns, world, c, d);
      }
    }
  }

  /** Each generator makes rules of one primitive. */
  lemma PrimitivesOfRules(conns: seq<Connection>, world: nat, rule: Rule)
    requires WellWired(conns, world)
    ensures Has(AllReduceRules(conns, |conns|), rule) ==> rule.primitive == AllReduce
    ensures Has(ReduceRules(conns, world), rule) ==> rule.primitive == Reduce
    ensures Has(BroadcastRules(conns, world), rule) ==> rule.primitive == Broadcast
  {
    AllReduceRulesAre(conns, |conns|, rule);
    ReduceRulesAre(conns, world, rule);
    BroadcastRulesAre(conns, world, rule);
  }

  /** Every generated rule goes up, and has this switch for its root. */
  lemma RulesGoUpToRoot(conns: seq<Connection>, world: nat, rule: Rule)
    requires WellWired(conns, world) && Has(Generated(conns, world), rule)
    ensures rule.direction == Up && rule.root
  {
    AllReduceRulesAre(conns, |conns|, rule);
    ReduceRulesAre(conns, world, rule);
    BroadcastRulesAre(conns, world, rule);
  }

  /** Among all generated rules, a host's key matches the intended rule and no other. */
  lemma OnlyIntendedMatches(conns: seq<Connection>, world: nat, c: nat, primitive: Primitive, param: int, rule: Rule)
    requires WellWired(conns, world) && IsHost(conns, c)
    ensures Has(Generated(conns, world), rule) && Matches(rule, KeyOf(conns[c], primitive, param))
       <==> Intended(conns, world, c, primitive, param) == Some(rule)
  {
    PrimitivesOfRules(conns, world, rule);
    InAppended(AllReduceRules(conns, |conns|), ReduceRules(conns, world), rule);
    InAppended(AllReduceRules(conns, |conns|) + ReduceRules(conns, world), BroadcastRules(conns, world), rule);
    match primitive
    case Null =>
    case AllReduce => AllReduceMatch(conns, world, c, rule);
    case Reduce => ReduceMatch(conns, world, c, param, rule);
    case Broadcast => BroadcastMatch(conns, world, c, param, rule);
  }

  // ----- How many there are

  function HostCount(conns: seq<Connection>): nat {
    |HostConns(conns)|
  }

  lemma {:induction false} HostPrefix(conns: seq<Connection>, k: nat)
    requires k < |conns|
    ensures HostConns(conns[..k + 1]) == HostConns(conns[..k]) + if conns[k].isSwitch then [] else [conns[k].connId]
  {
    assert conns[..k + 1][..k] == conns[..k];
  }

  lemma {:induction false} CountAllReduceRules(conns: seq<Connection>, k: nat)
    requires k <= |conns|
    ensures |AllReduceRules(conns, k)| == HostCount(conns[..k])
  {
    if k > 0 {
      CountAllReduceRules(conns, k - 1);
      HostPrefix(conns, k - 1);
    }
  }

  lemma {:induction false} CountReduceRulesFor(conns: seq<Connection>, root: int, k: nat)
    requires k <= |conns|
    ensures |ReduceRulesFor(conns, root, k)| == HostCount(conns[..k])
  {
    if k > 0 {
      CountReduceRulesFor(conns, root, k - 1);
      HostPrefix(conns, k - 1);
    }
  }

  lemma {:induction false} CountReduceRules(conns: seq<Connection>, roots: nat)
    ensures |ReduceRules(conns, roots)| == roots * HostCount(conns)
  {
    if roots > 0 {
      CountReduceRules(conns, roots - 1);
      CountReduceRulesFor(conns, roots - 1, |conns|);
      assert conns[..|conns|] == conns;
      assert roots * HostCount(conns) == (roots - 1) * HostCount(conns) + HostCount(conns);
    }
  }

  lemma {:induction false} CountBroadcastRules(conns: seq<Connection>, senders: nat)
    requires IdsAreIndices(conns) && forall rank :: 0 <= rank < senders ==> ConnForRank(conns, rank) != -1
    ensures |BroadcastRules(conns, senders)| == senders
  {
    if senders > 0 {
      CountBroadcastRules(conns, senders - 1);
      ConnForRankFinds(conns, senders - 1);
    }
  }

  lemma HowManyRules(conns: seq<Connection>, world: nat)
    requires WellWired(conns, world)
    ensures |AllReduceRules(conns, |conns|)| == HostCount(conns)
    ensures |ReduceRules(conns, world)| == world * HostCount(conns)
    ensures |BroadcastRules(conns, world)| == world
  {
    CountAllReduceRules(conns, |conns|);
    assert conns[..|conns|] == conns;
    CountReduceRules(conns, world);
    CountBroadcastRules(conns, world);
  }

  // ----- Ranks and hosts are equally many

  function RanksOf(conns: seq<Connection>): set<int> {
    if conns == [] then {}
    else
      var last := conns[|conns| - 1];
      RanksOf(conns[..|conns| - 1]) + if last.isSwitch then {} else {last.peerId}
  }

  lemma {:induction false} RanksOfAre(conns: seq<Connection>, rank: int)
    ensures rank in RanksOf(conns) <==> exists c :: 0 <= c < |conns| && IsHostOf(conns[c], rank)
  {
    if conns != [] {
      RanksOfAre(conns[..|conns| - 1], rank);
    }
  }

  lemma {:induction false} RanksAreHosts(conns: seq<Connection>)
    requires DistinctRanks(conns)
    ensures |RanksOf(conns)| == HostCount(conns)
  {
    if conns != [] {
      var front, last := conns[..|conns| - 1], conns[|conns| - 1];
      assert forall c :: IsHost(front, c) ==> IsHost(conns, c);
      RanksAreHosts(front);
      RanksOfAre(front, last.peerId);
      if !last.isSwitch {
        assert IsHost(conns, |conns| - 1);
      }
    }
  }

  lemma {:induction false} CountBelow(s: set<int>, n: nat)
    requires forall x :: x in s <==> 0 <= x < n
    ensures |s| == n
  {
    if n == 0 {
      assert forall x :: x !in s;
    } else {
      assert n - 1 in s;
      CountBelow(s - {n - 1}, n - 1);
    }
  }

  lemma OneHostPerRank(conns: seq<Connection>, world: nat)
    requires WellWired(conns, world)
    ensures HostCount(conns) == world
  {
    RanksAreHosts(conns);
    forall rank
      ensures rank in RanksOf(conns) <==> 0 <= rank < world
    {
      RanksOfAre(conns, rank);
      ConnForRankFinds(conns, rank);
      if 0 <= rank < world {
        assert ConnForRank(conns, rank) != -1;
      }
      if c :| 0 <= c < |conns| && IsHostOf(conns[c], rank) {
        assert IsHost(conns, c);
      }
    }
    CountBelow(RanksOf(conns), world);
  }

  /** n hosts make n rules for AllReduce, n*n for Reduce and n for Broadcast; they fit the table exactly
      for n up to 9. */
  lemma RulesFitIff(conns: seq<Connection>, world: nat)
    requires WellWired(conns, world)
    ensures |Generated(conns, world)| == world * world + 2 * world
    ensures |Generated(conns, world)| <= 100 <==> world <= 9
  {
    OneHostPerRank(conns, world);
    HowManyRules(conns, world);
    FitsUpToNine(world);
  }

  lemma FitsUpToNine(n: nat)
    ensures n * n + 2 * n <= 100 <==> n <= 9
    ensures n * n + n >= 100 <==> n >= 10
  {
    if n <= 9 {
      assert n * n <= 9 * n;
    } else {
      assert n * n >= 10 * n;
    }
  }

  // ----- The loaded table

  lemma OutsAreConnIds(conns: seq<Connection>, rank: int)
    requires IdsAreIndices(conns) && |conns| <= MAX_CONNECTIONS_NUM
    ensures FitsPorts(HostConns(conns)) && FitsPorts(HostConnsExcept(conns, rank))
  {
    ConnsOfPrefix(conns, rank);
  }

  lemma {:induction false} ConnsOfPrefix(conns: seq<Connection>, rank: int)
    requires IdsAreIndices(conns)
    ensures |HostConnsExcept(conns, rank)| <= |HostConns(conns)| <= |conns|
    ensures forall k :: 0 <= k < |HostConns(conns)| ==> 0 <= HostConns(conns)[k] < |conns|
    ensures forall k :: 0 <= k < |HostConnsExcept(conns, rank)| ==> 0 <= HostConnsExcept(conns, rank)[k] < |conns|
  {
    if conns != [] {
      ConnsOfPrefix(conns[..|conns| - 1], rank);
    }
  }

  /** Loading changes no rule that names only connections the switch has room for. */
  lemma LoadingKeepsIntended(conns: seq<Connection>, world: nat, c: nat, primitive: Primitive, param: int)
    requires WellWired(conns, world) && IsHost(conns, c) && |conns| <= MAX_CONNECTIONS_NUM
    requires Intended(conns, world, c, primitive, param).Some?
    ensures var rule := Intended(conns, world, c, primitive, param).value;
            Loaded(rule) == rule
  {
    var rule := Intended(conns, world, c, primitive, param).value;
    match primitive
    case AllReduce =>
      OutsAreConnIds(conns, param);
      ValidOutsKeepsValid(HostConns(conns));
    case Reduce =>
      RootIsConnId(conns, world, param);
      ValidOutsKeepsValid([ConnForRank(conns, param)]);
    case Broadcast =>
      OutsAreConnIds(conns, param);
      ValidOutsKeepsValid(HostConnsExcept(conns, param));
  }

  lemma RootIsConnId(conns: seq<Connection>, world: nat, root: int)
    requires WellWired(conns, world) && 0 <= root < world
    ensures 0 <= ConnForRank(conns, root) < |conns| && IsHostOf(conns[ConnForRank(conns, root)], root)
  {
    assert ConnForRank(conns, root) != -1;
    ConnForRankFinds(conns, root);
    var k :| 0 <= k < |conns| && IsHostOf(conns[k], root) && conns[k].connId == ConnForRank(conns, root);
  }

  /** Every host finds exactly the intended rule for every primitive and parameter. */
  ghost predicate FindsIntended(conns: seq<Connection>, world: nat)
    requires IdsAreIndices(conns)
  {
    forall c, primitive, param :: IsHost(conns, c) ==>
      Lookup(Table(conns, world), KeyOf(conns[c], primitive, param)) == Intended(conns, world, c, primitive, param)
  }

  lemma AllAreLoaded(conns: seq<Connection>, world: nat)
    requires WellWired(conns, world) && |conns| <= MAX_CONNECTIONS_NUM && world <= 9
    ensures Table(conns, world) == LoadedAll(Generated(conns, world))
  {
    RulesFitIff(conns, world);
  }

  lemma FoundIsIntended(conns: seq<Connection>, world: nat, c: nat, primitive: Primitive, param: int)
    requires WellWired(conns, world) && |conns| <= MAX_CONNECTIONS_NUM && world <= 9 && IsHost(conns, c)
    requires Lookup(Table(conns, world), KeyOf(conns[c], primitive, param)).Some?
    ensures Lookup(Table(conns, world), KeyOf(conns[c], primitive, param))
         == Lookup(Table(conns, world), Key(conns[c].peerIp, conns[c].myIp, primitive, param))
         == Intended(conns, world, c, primitive, param)
  {
    hide Generated, Intended, Table;
    var rules, table := Generated(conns, world), Table(conns, world);
    AllAreLoaded(conns, world);
    var k :| 0 <= k < |table| && table[k] == Lookup(table, KeyOf(conns[c], primitive, param)).value;
    OnlyIntendedMatches(conns, world, c, primitive, param, rules[k]);
    LoadingKeepsIntended(conns, world, c, primitive, param);
  }

  lemma IntendedIsFound(conns: seq<Connection>, world: nat, c: nat, primitive: Primitive, param: int)
    requires WellWired(conns, world) && |conns| <= MAX_CONNECTIONS_NUM && world <= 9 && IsHost(conns, c)
    requires Intended(conns, world, c, primitive, param).Some?
    ensures Lookup(Table(conns, world), KeyOf(conns[c], primitive, param)).Some?
  {
    hide Generated, Intended, Table;
    var rules, table := Generated(conns, world), Table(conns, world);
    AllAreLoaded(conns, world);
    var rule := Intended(conns, world, c, primitive, param).value;
    OnlyIntendedMatches(conns, world, c, primitive, param, rule);
    var k :| 0 <= k < |rules| && rules[k] == rule;
    assert Matches(table[k], KeyOf(conns[c], primitive, param));
  }

  lemma LookupFindsIntended(conns: seq<Connection>, world: nat, c: nat, primitive: Primitive, param: int)
    requires WellWired(conns, world) && |conns| <= MAX_CONNECTIONS_NUM && world <= 9 && IsHost(conns, c)
    ensures Lookup(Table(conns, world), KeyOf(conns[c], primitive, param))
         == Lookup(Table(conns, world), Key(conns[c].peerIp, conns[c].myIp, primitive, param))
         == Intended(conns, world, c, primitive, param)
  {
    if Lookup(Table(conns, world), KeyOf(conns[c], primitive, param)).Some? {
      FoundIsIntended(conns, world, c, primitive, param);
    } else if Intended(conns, world, c, primitive, param).Some? {
      IntendedIsFound(conns, world, c, primitive, param);
    }
  }

  /** With ten hosts the Broadcast rules, which come last, do not make it into the table. */
  lemma NoRoomForBroadcast(conns: seq<Connection>, world: nat, c: nat)
    requires WellWired(conns, world) && world >= 10 && IsHost(conns, c)
    ensures Lookup(Table(conns, world), KeyOf(conns[c], Broadcast, conns[c].peerId)).None?
  {
    var first := AllReduceRules(conns, |conns|) + ReduceRules(conns, world);
    OneHostPerRank(conns, world);
    HowManyRules(conns, world);
    FitsUpToNine(world);
    var rules, table := Generated(conns, world), Table(conns, world);
    forall k | 0 <= k < |table|
      ensures table[k].primitive != Broadcast
    {
      assert rules[k] == first[k];
      PrimitivesOfRules(conns, world, rules[k]);
    }
  }

  /** First-match lookup returns the intended rule for every host, primitive and parameter if and only if
      there are at most nine hosts. */
  lemma FindsIntendedIff(conns: seq<Connection>, world: nat)
    requires WellWired(conns, world) && |conns| <= MAX_CONNECTIONS_NUM
    ensures FindsIntended(conns, world) <==> world <= 9
  {
    if world <= 9 {
      forall c, primitive, param | IsHost(conns, c)
        ensures Lookup(Table(conns, world), KeyOf(conns[c], primitive, param))
             == Intended(conns, world, c, primitive, param)
      {
        LookupFindsIntended(conns, world, c, primitive, param);
      }
    } else {
      assert ConnForRank(conns, 0) != -1;
      ConnForRankFinds(conns, 0);
      var c :| 0 <= c < |conns| && IsHostOf(conns[c], 0);
      assert IsHost(conns, c);
      NoRoomForBroadcast(conns, world, c);
    }
  }

  // ----- Where the rules send

  lemma {:induction false} HostConnsAre(conns: seq<Connection>, x: int)
    requires IdsAreIndices(conns)
    ensures x in HostConns(conns) <==> 0 <= x < |conns| && !conns[x].isSwitch
  {
    if conns != [] {
      HostConnsAre(conns[..|conns| - 1], x);
    }
  }

  lemma {:induction false} HostConnsExceptAre(conns: seq<Connection>, rank: int, x: int)
    requires IdsAreIndices(conns)
    ensures x in HostConnsExcept(conns, rank) <==> 0 <= x < |conns| && !conns[x].isSwitch && conns[x].peerId != rank
  {
    if conns != [] {
      HostConnsExceptAre(conns[..|conns| - 1], rank, x);
    }
  }

  /** AllReduce goes to every host, Reduce to the root's connection and no other, Broadcast to every host
      but the sender; acknowledgements go back where the packet came from. */
  lemma IntendedReceivers(conns: seq<Connection>, world: nat, c: nat, primitive: Primitive, param: int, x: int)
    requires WellWired(conns, world) && IsHost(conns, c) && Intended(conns, world, c, primitive, param).Some?
    ensures x in Intended(conns, world, c, primitive, param).value.outConns
       <==> 0 <= x < |conns| && !conns[x].isSwitch
            && (primitive == Reduce ==> conns[x].peerId == param) && (primitive == Broadcast ==> x != c)
    ensures var rule := Intended(conns, world, c, primitive, param).value;
            && rule.ackConn == c && rule.srcIp == conns[c].peerIp && rule.dstIp == conns[c].myIp
            && rule.primitive == primitive
  {
    HostConnsAre(conns, x);
    HostConnsExceptAre(conns, param, x);
    if 0 <= x < |conns| && !conns[x].isSwitch {
      assert IsHost(conns, x);
      RankOfHost(conns, world, x);
    }
    if primitive == Reduce {
      RootIsConnId(conns, world, param);
    }
  }

  // ----- Ranks to connections

  /** The switch's map after the first k connections of the configuration. */
  function RankMap(conns: seq<Connection>): (m: seq<int>)
    ensures |m| == MAX_RANKS
  {
    if conns == [] then seq(MAX_RANKS, r => -1)
    else
      var last := conns[|conns| - 1];
      var rest := RankMap(conns[..|conns| - 1]);
      if !last.isSwitch && 0 <= last.peerId < MAX_RANKS then rest[last.peerId := last.connId] else rest
  }

  method ParseConnections(config: seq<Connection>, conns: array<Connection>, rankToConn: array<int>)
    returns (fanIn: nat)
    requires conns.Length == MAX_CONNECTIONS_NUM && rankToConn.Length == MAX_RANKS
    requires rankToConn[..] == seq(MAX_RANKS, r => -1)
    modifies conns, rankToConn
    ensures fanIn == if |config| <= 10 then |config| else 10
    ensures conns[..fanIn] == config[..fanIn]
    ensures rankToConn[..] == RankMap(config[..fanIn])
  {
    var idx := 0;
    while idx < |config|
      invariant idx <= |config| && idx <= MAX_CONNECTIONS_NUM
      invariant conns[..idx] == config[..idx]
      invariant rankToConn[..] == RankMap(config[..idx])
    {
      if idx >= MAX_CONNECTIONS_NUM {
        break;
      }
      var conn := config[idx];
      conns[idx] := conn;
      assert config[..idx + 1][..idx] == config[..idx];
      if !conn.isSwitch && conn.peerId >= 0 && conn.peerId < MAX_RANKS {
        rankToConn[conn.peerId] := conn.connId;
      }
      idx := idx + 1;
    }
    return idx;
  }

  lemma {:induction false} RankMapFindsHost(conns: seq<Connection>, rank: int)
    requires IdsAreIndices(conns) && 0 <= rank < MAX_RANKS
    ensures RankMap(conns)[rank] == -1 <==> forall k :: 0 <= k < |conns| ==> !IsHostOf(conns[k], rank)
    ensures RankMap(conns)[rank] != -1 ==>
              0 <= RankMap(conns)[rank] < |conns| && IsHostOf(conns[RankMap(conns)[rank]], rank)
  {
    if conns != [] {
      RankMapFindsHost(conns[..|conns| - 1], rank);
    }
  }

  /** The switch's own map agrees with the connection the controller chose for the rank. */
  lemma SwitchAgreesWithController(conns: seq<Connection>, world: nat, rank: int)
    requires WellWired(conns, world) && 0 <= rank < MAX_RANKS
    ensures RankMap(conns)[rank] == ConnForRank(conns, rank)
  {
    RankMapFindsHost(conns, rank);
    ConnForRankFinds(conns, rank);
    var c := RankMap(conns)[rank];
    if c != -1 {
      assert IsHost(conns, c);
      RankOfHost(conns, world, c);
    }
  }
}
