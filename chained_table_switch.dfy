/** `ChainedTablePluribusSwitch` (src/chained_table_pluribus_switch.py): the
    switch variant that chains principals through tables instead of
    loopback ports. In one transition it checks that there are enough
    tables, gives every principal a block of early and a block of late
    tables, numbers one virtual port per pair of principals above the
    highest real port, installs the head-table rules and sends a barrier. */
module ChainedTableSwitchModule {
  import opened Wrappers
  import opened Lists
  import opened PortUtil
  import opened PrincipalsUtil
  import opened SwitchCommon
  import opened ChainedTablePrincipalModule
  import opened ChainedTableLayout

  /** The highest reported port number, or -1 when there is none (the
      scan starts from -1). */
  function HighestPortNumber(ports: seq<Port>): int {
    if ports == [] then -1
    else
      var front := HighestPortNumber(ports[..|ports| - 1]);
      if ports[|ports| - 1].number > front then ports[|ports| - 1].number else front
  }

  /** The first virtual port number lies above every real port, is never
      negative, and is the least such number. */
  lemma {:induction false} FirstVirtualPortAboveAll(ports: seq<Port>)
    ensures HighestPortNumber(ports) + 1 >= 0
    ensures forall q :: 0 <= q < |ports| ==> ports[q].number < HighestPortNumber(ports) + 1
    ensures HighestPortNumber(ports) + 1 == 0 || exists q :: 0 <= q < |ports| && ports[q].number == HighestPortNumber(ports)
  {
    if ports != [] {
      var front := ports[..|ports| - 1];
      FirstVirtualPortAboveAll(front);
      assert forall q :: 0 <= q < |front| ==> front[q] == ports[q];
    }
  }

  /** The position of principal x's peer k in the principal list. */
  function PeerPosition(x: nat, k: nat): nat {
    if k < x then k else k + 1
  }

  /** Principal x's egress dictionary `egress`, built from `m0` among `n`
      principals: the virtual ports are `first .. first + n - 2`, port
      `first + k` leads to the first late table `1 + numEarly + y * per`
      of the principal y at position k (before x) or k + 1 (from x on),
      and every other entry is `m0`'s. */
  ghost predicate EgressShape(egress: map<int, int>, m0: map<int, int>, first: int, n: nat, numEarly: int, per: int, x: nat) {
    && (forall v :: v in egress <==> v in m0 || first <= v < first + n - 1)
    && (forall v :: first <= v < first + n - 1 ==> v in egress && egress[v] == 1 + numEarly + PeerPosition(x, v - first) * per)
    && (forall v :: v in m0 && !(first <= v < first + n - 1) ==> v in egress && egress[v] == m0[v])
  }

  /** The ports `x`'s head-table rules match, in the order the model
      iterates the port set. */
  function RulePorts(p: ChainedTablePrincipal): seq<int> {
    SortedList(p.info.physicalPortSet)
  }

  /** The head-table rules of the first `i` principals when principal x's
      first early table is `1 + x * per`. */
  function HeadRules(ps: seq<ChainedTablePrincipal>, per: int, i: nat): seq<SwitchMsg>
    requires i <= |ps|
  {
    if i == 0 then [] else HeadRules(ps, per, i - 1) + HeadTableRules(RulePorts(ps[i - 1]), 1 + (i - 1) * per)
  }

  /** The head-table rules of the first `i` principals: one priority-10
      rule per physical port of each principal, from the head table to
      that principal's first early table `1 + x * per`, and nothing
      else. */
  lemma {:induction false} HeadRulesCover(ps: seq<ChainedTablePrincipal>, per: int, i: nat, m: SwitchMsg)
    requires i <= |ps|
    ensures m in HeadRules(ps, per, i) <==>
              && m.FlowMod? && m.tableId == HEAD_TABLE_ID && m.priority == HEAD_RULE_PRIORITY
              && exists x :: 0 <= x < i && m.inPort in ps[x].info.physicalPortSet && m.gotoTable == 1 + x * per
  {
    if i > 0 {
      HeadRulesCover(ps, per, i - 1, m);
      var p := ps[i - 1];
      HeadTableRulesCover(RulePorts(p), 1 + (i - 1) * per, m);
      SortedListMembers(p.info.physicalPortSet);
      if m in HeadTableRules(RulePorts(p), 1 + (i - 1) * per) {
        assert m.inPort in ps[i - 1].info.physicalPortSet && m.gotoTable == 1 + (i - 1) * per;
      }
      if && m.FlowMod? && m.tableId == HEAD_TABLE_ID && m.priority == HEAD_RULE_PRIORITY
         && exists x :: 0 <= x < i && m.inPort in ps[x].info.physicalPortSet && m.gotoTable == 1 + x * per
      {
        var x :| 0 <= x < i && m.inPort in ps[x].info.physicalPortSet && m.gotoTable == 1 + x * per;
        if x == i - 1 {
          assert m in HeadTableRules(RulePorts(p), 1 + (i - 1) * per);
        }
      }
    }
  }

  /** `p`'s egress dictionary is the one `add_egress_logical_port_num_to_table_id`
      builds from `m0` and the peer heads `heads`. */
  ghost predicate EgressBuilt(p: ChainedTablePrincipal, m0: map<int, int>, heads: seq<Result<int, LookupError>>, first: int)
    reads p`egressLogicalPortNumToTableId
  {
    p.egressLogicalPortNumToTableId == EgressEntries(m0, heads, FirstFailure(heads), first)
  }

  /** The egress dictionary of each principal, in list order. */
  ghost function EgressOf(ps: seq<ChainedTablePrincipal>): (r: seq<map<int, int>>)
    reads ps`egressLogicalPortNumToTableId
    ensures |r| == |ps|
    ensures forall x :: 0 <= x < |ps| ==> r[x] == ps[x].egressLogicalPortNumToTableId
  {
    if ps == [] then [] else EgressOf(ps[..|ps| - 1]) + [ps[|ps| - 1].egressLogicalPortNumToTableId]
  }

  class ChainedTableSwitch {
    var state: SwitchState
    /** The principals, in the order the switch was given them. */
    const principals: seq<ChainedTablePrincipal>
    /** The table count the physical switch reported. */
    const switchNumTables: int
    /** The ports the physical switch reported. */
    const portNameNumberList: seq<Port>
    /** The messages sent to the physical switch, oldest first. */
    var log: seq<SwitchMsg>

    constructor (principals: seq<ChainedTablePrincipal>, switchNumTables: int, portNameNumberList: seq<Port>)
      ensures state == Uninitialized && log == []
      ensures this.principals == principals && this.switchNumTables == switchNumTables
      ensures this.portNameNumberList == portNameNumberList
    {
      state := Uninitialized;
      this.principals := principals;
      this.switchNumTables := switchNumTables;
      this.portNameNumberList := portNameNumberList;
      log := [];
    }

    /** The principals are distinct objects. */
    predicate PrincipalsDistinct() {
      forall x :: 0 <= x < |principals| ==> FirstIndex(principals, principals[x]) == x
    }

    /** No other principal is the same object as principal i. */
    lemma DistinctAt(i: nat)
      requires PrincipalsDistinct() && i < |principals|
      ensures forall x :: 0 <= x < |principals| && x != i ==> principals[x] != principals[i]
    {
    }

    /** Principal x owns early tables `EarlyTables(per, x)` and late tables
        `LateTables(numEarly, per, x)`. */
    ghost predicate TablesAssigned(numEarly: int, per: int)
      reads principals`earlyTableIds, principals`lateTableIds
    {
      forall x :: 0 <= x < |principals| ==>
        && principals[x].earlyTableIds == Some(EarlyTables(per, x))
        && principals[x].lateTableIds == Some(LateTables(numEarly, per, x))
    }

    /** Principal x's first early table is `1 + x * per`. */
    ghost predicate FirstEarlyTablesKnown(per: int)
      reads principals`earlyTableIds
    {
      forall x :: 0 <= x < |principals| ==> principals[x].FirstEarlyTablePhysicalId() == Ok(1 + x * per)
    }

    /** Every principal has a first late table. */
    ghost predicate FirstLateTablesKnown()
      reads principals`lateTableIds
    {
      forall x :: 0 <= x < |principals| ==> principals[x].FirstLateTablePhysicalId().Ok?
    }

    /** The first late tables of principal x's peers, in list order. */
    ghost function HeadsOf(x: nat): seq<Result<int, LookupError>>
      reads principals`lateTableIds
      requires x < |principals|
    {
      PeerHeads(principals, principals[x].info.id, |principals|)
    }

    /** Every principal x holds the egress dictionary that
        `add_egress_logical_port_num_to_table_id` builds from `e0s[x]`. */
    ghost predicate EgressAssigned(e0s: seq<map<int, int>>, first: int)
      reads principals`egressLogicalPortNumToTableId, principals`lateTableIds
    {
      && |e0s| == |principals|
      && forall x :: 0 <= x < |principals| ==> EgressBuilt(principals[x], e0s[x], HeadsOf(x), first)
    }

    /** The state the transition leaves for at least one principal and
        enough tables, from egress dictionaries `e0s` and log `log0`. */
    ghost predicate Configured(e0s: seq<map<int, int>>, log0: seq<SwitchMsg>)
      reads this, principals
      requires |principals| > 0
    {
      var numEarly, per := NumEarlyTables(switchNumTables), TablesPerPrincipal(switchNumTables, |principals|);
      && TablesAssigned(numEarly, per)
      && EgressAssigned(e0s, HighestPortNumber(portNameNumberList) + 1)
      && log == log0 + HeadRules(principals, per, |principals|) + [Barrier]
    }

    /** After the transition every principal owns `per >= 1` early tables
        below `1 + num_early` and as many late tables from `1 + num_early`
        up to the switch's table count; two principals share no table and
        the head table 0 belongs to none. */
    lemma ConfiguredTables(e0s: seq<map<int, int>>, log0: seq<SwitchMsg>, x: nat, y: nat)
      requires 0 < |principals| && NecessaryNumTables(|principals|) <= switchNumTables
      requires Configured(e0s, log0)
      requires x < |principals| && y < |principals|
      ensures principals[x].earlyTableIds.Some? && principals[x].lateTableIds.Some?
      ensures principals[y].earlyTableIds.Some? && principals[y].lateTableIds.Some?
      ensures var numEarly, per := NumEarlyTables(switchNumTables), TablesPerPrincipal(switchNumTables, |principals|);
              var early, late := principals[x].earlyTableIds.value, principals[x].lateTableIds.value;
              && per >= 1 && |early| == per && |late| == per
              && (forall t :: t in early ==> 0 < t < 1 + numEarly)
              && (forall t :: t in late ==> 1 + numEarly <= t < switchNumTables)
              && (x != y ==> forall t :: t in early ==> t !in principals[y].earlyTableIds.value)
              && (x != y ==> forall t :: t in late ==> t !in principals[y].lateTableIds.value)
    {
      LayoutSound(switchNumTables, |principals|, x, y);
    }

    /** After the transition principal x has one virtual port per other
        principal, numbered from one above the highest real port: port
        `first + k` leads to the first late table of the principal at
        position k (before x) or k + 1 (from x on). No other entry of its
        dictionary changes, and no virtual port collides with a real
        one. */
    lemma ConfiguredEgress(e0s: seq<map<int, int>>, log0: seq<SwitchMsg>, x: nat)
      requires 0 < |principals| && NecessaryNumTables(|principals|) <= switchNumTables
      requires Configured(e0s, log0)
      requires forall y, z :: 0 <= y < z < |principals| ==> principals[y].info.id != principals[z].info.id
      requires x < |principals|
      ensures EgressShape(principals[x].egressLogicalPortNumToTableId, e0s[x], HighestPortNumber(portNameNumberList) + 1,
                |principals|, NumEarlyTables(switchNumTables), TablesPerPrincipal(switchNumTables, |principals|), x)
      ensures forall q :: 0 <= q < |portNameNumberList| ==> portNameNumberList[q].number < HighestPortNumber(portNameNumberList) + 1
    {
      ShareBounds(switchNumTables, |principals|);
      EgressOfAssigned(e0s, HighestPortNumber(portNameNumberList) + 1,
        NumEarlyTables(switchNumTables), TablesPerPrincipal(switchNumTables, |principals|), x);
      FirstVirtualPortAboveAll(portNameNumberList);
    }

    /** `ConfiguredEgress` from the assigned tables and dictionaries. */
    lemma EgressOfAssigned(e0s: seq<map<int, int>>, first: int, numEarly: int, per: int, x: nat)
      requires EgressAssigned(e0s, first) && TablesAssigned(numEarly, per) && per >= 1
      requires forall y, z :: 0 <= y < z < |principals| ==> principals[y].info.id != principals[z].info.id
      requires x < |principals|
      ensures EgressShape(principals[x].egressLogicalPortNumToTableId, e0s[x], first, |principals|, numEarly, per, x)
    {
      ConfiguredHeads(numEarly, per, x);
      var heads := HeadsOf(x);
      assert EgressBuilt(principals[x], e0s[x], heads, first);
      EgressEntriesLookup(e0s[x], heads, |heads|, first);
    }

    /** With the tables assigned, principal x's walk finds the first late
        table `1 + num_early + y * per` of every other principal y, in
        list order, and no missing one. */
    lemma ConfiguredHeads(numEarly: int, per: int, x: nat)
      requires TablesAssigned(numEarly, per) && per >= 1
      requires forall y, z :: 0 <= y < z < |principals| ==> principals[y].info.id != principals[z].info.id
      requires x < |principals|
      ensures |HeadsOf(x)| == |principals| - 1 && FirstFailure(HeadsOf(x)) == |HeadsOf(x)|
      ensures forall k :: 0 <= k < |principals| - 1 ==> HeadsOf(x)[k] == Ok(1 + numEarly + PeerPosition(x, k) * per)
    {
      var selfId := principals[x].info.id;
      TablesAssignedFirsts(numEarly, per);
      PeerHeadsPresent(principals, selfId, |principals|);
      PeersOfMember(principals, x, |principals|);
      PeerHeadsOfPeers(principals, selfId, |principals|);
      forall k | 0 <= k < |principals| - 1
        ensures HeadsOf(x)[k] == Ok(1 + numEarly + PeerPosition(x, k) * per)
      {
        PeerAt(principals, x, |principals|, k);
        FirstLateOfAssigned(numEarly, per, PeerPosition(x, k));
      }
    }

    /** Principal y's first late table once the tables are assigned. */
    lemma FirstLateOfAssigned(numEarly: int, per: int, y: nat)
      requires TablesAssigned(numEarly, per) && per >= 1 && y < |principals|
      ensures principals[y].FirstLateTablePhysicalId() == Ok(1 + numEarly + y * per)
    {
      FirstTablesOfRanges(principals[y], 1 + y * per, 1 + y * per + per, 1 + y * per + numEarly, 1 + y * per + numEarly + per);
    }

    /** After the transition the log holds the head-table rules and then
        one barrier: a message among the rules is exactly a priority-10
        rule from the head table, for a physical port of some principal x,
        to x's first early table; so the barrier is the only one and comes
        last. */
    lemma ConfiguredLog(e0s: seq<map<int, int>>, log0: seq<SwitchMsg>, m: SwitchMsg)
      requires 0 < |principals|
      requires Configured(e0s, log0)
      ensures |log| > |log0| && log[..|log0|] == log0 && log[|log| - 1] == Barrier
      ensures var per := TablesPerPrincipal(switchNumTables, |principals|);
              m in log[|log0|..|log| - 1] <==>
                && m.FlowMod? && m.tableId == HEAD_TABLE_ID && m.priority == HEAD_RULE_PRIORITY
                && exists x :: 0 <= x < |principals| && m.inPort in principals[x].info.physicalPortSet && m.gotoTable == 1 + x * per
    {
      var per := TablesPerPrincipal(switchNumTables, |principals|);
      assert log[|log0|..|log| - 1] == HeadRules(principals, per, |principals|);
      HeadRulesCover(principals, per, |principals|, m);
    }

    /** `_transition_from_uninitialized`: moves to INSTALLING_HEAD_TABLES
        whatever the state, fails when there are fewer than `2N + 1`
        tables or no principal, and otherwise configures every principal
        and sends one barrier after all head-table rules. */
    method TransitionFromUninitialized() returns (outcome: Outcome<BringUpError>)
      requires PrincipalsDistinct()
      modifies this`state, this`log, principals`earlyTableIds, principals`lateTableIds, principals`egressLogicalPortNumToTableId
      ensures state == InstallingHeadTables
      ensures NecessaryNumTables(|principals|) > switchNumTables ==>
                outcome == Fail(InsufficientTables(switchNumTables, |principals|)) && log == old(log) && unchanged(principals)
      ensures NecessaryNumTables(|principals|) <= switchNumTables && |principals| == 0 ==>
                outcome == Fail(ZeroDivision) && log == old(log)
      ensures NecessaryNumTables(|principals|) <= switchNumTables && |principals| > 0 ==>
                outcome == Pass && Configured(old(EgressOf(principals)), old(log))
    {
      ghost var e0s, log0 := EgressOf(principals), log;
      state := InstallingHeadTables;
      var numPrincipals := |principals|;
      // +1 for the head table, *2 for early and late tables
      var necessaryNumTables := numPrincipals * 2 + 1;
      if necessaryNumTables > switchNumTables {
        return Fail(InsufficientTables(switchNumTables, numPrincipals));
      }
      if numPrincipals == 0 {
        return Fail(ZeroDivision);
      }
      ConfigurePrincipals(e0s, log0);
      outcome := Pass;
    }

    /** The transition once the table check has passed. */
    method ConfigurePrincipals(ghost e0s: seq<map<int, int>>, ghost log0: seq<SwitchMsg>)
      requires e0s == EgressOf(principals) && log0 == log
      requires PrincipalsDistinct()
      requires 0 < |principals| && NecessaryNumTables(|principals|) <= switchNumTables
      modifies this`log, principals`earlyTableIds, principals`lateTableIds, principals`egressLogicalPortNumToTableId
      ensures TablesAssigned(NumEarlyTables(switchNumTables), TablesPerPrincipal(switchNumTables, |principals|))
      ensures EgressAssigned(e0s, HighestPortNumber(portNameNumberList) + 1)
      ensures log == log0 + HeadRules(principals, TablesPerPrincipal(switchNumTables, |principals|), |principals|) + [Barrier]
    {
      var availableTables := switchNumTables - 1;
      var numEarlyTables := availableTables / 2;
      var earlyTablesPerPrincipal := numEarlyTables / |principals|;
      assert numEarlyTables == NumEarlyTables(switchNumTables);
      assert earlyTablesPerPrincipal == TablesPerPrincipal(switchNumTables, |principals|);
      ShareBounds(switchNumTables, |principals|);
      AssignTables(numEarlyTables, earlyTablesPerPrincipal);
      TablesAssignedFirsts(numEarlyTables, earlyTablesPerPrincipal);
      InstallRoutes(earlyTablesPerPrincipal, e0s, log0);
    }

    /** Parts 2 and 3 of the transition, once the tables are assigned. */
    method InstallRoutes(per: int, ghost e0s: seq<map<int, int>>, ghost log0: seq<SwitchMsg>)
      requires e0s == EgressOf(principals) && log0 == log
      requires PrincipalsDistinct() && FirstEarlyTablesKnown(per) && FirstLateTablesKnown()
      modifies this`log, principals`egressLogicalPortNumToTableId
      ensures EgressAssigned(e0s, HighestPortNumber(portNameNumberList) + 1)
      ensures log == log0 + HeadRules(principals, per, |principals|) + [Barrier]
    {
      var firstAvailableVirtualPortNumber := FindFirstVirtualPortNumber(portNameNumberList);
      AssignEgress(firstAvailableVirtualPortNumber, e0s);
      SendHeadTableFlowMods(per);
      // ensure that all head table rules are installed
      SendBarrier();
    }

    /** Part 1: principal i gets early tables `range(idx, idx + per)` and
        late tables `range(idx + num_early, idx + num_early + per)`, and
        `idx` moves on by `per`. */
    method AssignTables(numEarly: int, per: int)
      requires PrincipalsDistinct()
      modifies principals`earlyTableIds, principals`lateTableIds
      ensures TablesAssigned(numEarly, per)
    {
      // start at 1 to avoid the head table
      var assigningEarlyTableIndex := 1;
      for i := 0 to |principals|
        invariant assigningEarlyTableIndex == 1 + i * per
        invariant forall x :: 0 <= x < i ==>
                    && principals[x].earlyTableIds == Some(EarlyTables(per, x))
                    && principals[x].lateTableIds == Some(LateTables(numEarly, per, x))
      {
        var earlyTables := Range(assigningEarlyTableIndex, assigningEarlyTableIndex + per);
        var lateTableIndex := assigningEarlyTableIndex + numEarly;
        var lateTables := Range(lateTableIndex, lateTableIndex + per);
        assert (i + 1) * per == i * per + per;
        assigningEarlyTableIndex := assigningEarlyTableIndex + per;
        principals[i].AddTableIds(earlyTables, lateTables);
      }
    }

    /** With a share of at least one table, every principal has a first
        early and a first late table. */
    lemma TablesAssignedFirsts(numEarly: int, per: int)
      requires TablesAssigned(numEarly, per) && per >= 1
      ensures FirstEarlyTablesKnown(per) && FirstLateTablesKnown()
    {
      forall x | 0 <= x < |principals|
        ensures principals[x].FirstEarlyTablePhysicalId() == Ok(1 + x * per)
        ensures principals[x].FirstLateTablePhysicalId().Ok?
      {
        FirstTablesOfRanges(principals[x], 1 + x * per, 1 + x * per + per, 1 + x * per + numEarly, 1 + x * per + numEarly + per);
      }
    }

    /** Part 2: every principal numbers a virtual port for each other
        principal from `first` on; none of them fails. */
    method AssignEgress(first: int, ghost e0s: seq<map<int, int>>)
      requires PrincipalsDistinct()
      requires e0s == EgressOf(principals)
      requires FirstLateTablesKnown()
      modifies principals`egressLogicalPortNumToTableId
      ensures EgressAssigned(e0s, first)
    {
      AllPeerHeadsPresent();
      for i := 0 to |principals|
        invariant NoHeadMissing()
        invariant EgressProgress(e0s, first, i)
      {
        DistinctAt(i);
        AddEgressOf(i, first);
      }
    }

    /** The first `i` principals hold their built egress dictionaries and
        the others still hold `e0s`. */
    ghost predicate EgressProgress(e0s: seq<map<int, int>>, first: int, i: nat)
      reads principals`egressLogicalPortNumToTableId, principals`lateTableIds
      requires |e0s| == |principals| && i <= |principals|
    {
      && (forall x :: 0 <= x < i ==> EgressBuilt(principals[x], e0s[x], HeadsOf(x), first))
      && (forall x :: i <= x < |principals| ==> principals[x].egressLogicalPortNumToTableId == e0s[x])
    }

    /** No principal's walk over its peers meets one without a first late
        table. */
    ghost predicate NoHeadMissing()
      reads principals`lateTableIds
    {
      forall x :: 0 <= x < |principals| ==> FirstFailure(HeadsOf(x)) == |HeadsOf(x)|
    }

    /** One principal's egress dictionary, when no peer lacks a first
        late table. */
    method AddEgressOf(i: nat, first: int)
      requires i < |principals| && NoHeadMissing()
      modifies {principals[i]}`egressLogicalPortNumToTableId
      ensures EgressBuilt(principals[i], old(principals[i].egressLogicalPortNumToTableId), HeadsOf(i), first)
    {
      ghost var heads := HeadsOf(i);
      assert FirstFailure(heads) == |heads|;
      var outcome := principals[i].AddEgressLogicalPortNumToTableId(principals, first);
      assert HeadsOf(i) == heads;
      assert outcome.Pass?;
    }

    /** When every principal has a first late table, no principal's walk
        over its peers fails. */
    lemma AllPeerHeadsPresent()
      requires FirstLateTablesKnown()
      ensures NoHeadMissing()
    {
      forall x | 0 <= x < |principals|
        ensures FirstFailure(HeadsOf(x)) == |HeadsOf(x)|
      {
        PeerHeadsPresent(principals, principals[x].info.id, |principals|);
      }
    }

    /** Part 3: the head-table rules of every principal, in list order. */
    method SendHeadTableFlowMods(per: int)
      requires FirstEarlyTablesKnown(per)
      modifies this`log
      ensures log == old(log) + HeadRules(principals, per, |principals|)
    {
      for i := 0 to |principals|
        invariant log == old(log) + HeadRules(principals, per, i)
      {
        var outcome := SendHeadTableFlowMod(principals[i]);
        assert outcome.Pass?;
      }
    }

    /** `_send_head_table_flow_mod`: one rule in the head table per
        physical port of `p`, matching that `in_port` and going to `p`'s
        first early table with priority 10. Without a first early table
        it fails before any rule is sent. */
    method SendHeadTableFlowMod(p: ChainedTablePrincipal) returns (outcome: Outcome<BringUpError>)
      modifies this`log
      ensures outcome.Pass? <==> p.FirstEarlyTablePhysicalId().Ok?
      ensures outcome.Fail? ==> outcome == Fail(EmptyTableList) && log == old(log)
      ensures outcome.Pass? ==> log == old(log) + HeadTableRules(RulePorts(p), p.FirstEarlyTablePhysicalId().value)
    {
      var principalFirstPhysicalTable := p.FirstEarlyTablePhysicalId();
      if principalFirstPhysicalTable.Err? {
        return Fail(EmptyTableList);
      }
      log := log + HeadTableRules(RulePorts(p), principalFirstPhysicalTable.value);
      outcome := Pass;
    }

    /** `send_barrier`: a barrier request to the physical switch. */
    method SendBarrier()
      modifies this`log
      ensures log == old(log) + [Barrier]
    {
      log := log + [Barrier];
    }
  }

  /** The scan for the highest port number: starts from -1 and keeps the
      larger of it and each port's number; the first virtual port is one
      more. */
  method FindFirstVirtualPortNumber(ports: seq<Port>) returns (first: int)
    ensures first == HighestPortNumber(ports) + 1
  {
    var highestPortNumber := -1;
    for q := 0 to |ports|
      invariant highestPortNumber == HighestPortNumber(ports[..q])
    {
      assert ports[..q + 1][..q] == ports[..q];
      if ports[q].number > highestPortNumber {
        highestPortNumber := ports[q].number;
      }
    }
    assert ports[..|ports|] == ports;
    first := highestPortNumber + 1;
  }
}
