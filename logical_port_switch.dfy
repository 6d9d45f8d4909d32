/** `LogicalPortPluribusSwitch` (src/logical_port_pluribus_switch.py): the
    switch variant that connects principals through loopback port pairs.
    Bring-up classifies the ports, checks that there are enough loopback
    pairs, then in one transition gives every principal a table range, a
    loopback pair per peer and head-table rules. */
module LogicalPortSwitchModule {
  import opened Wrappers
  import opened Lists
  import opened PortUtil
  import opened PrincipalsUtil
  import opened SwitchCommon
  import opened LogicalPortPrincipalModule
  import opened LogicalPortAllocation

  /** The buffer count every principal is given. */
  const HARDCODED_NUM_BUFFERS: int := 5

  /** The half at position k and the port at position k of `partners`
      are each other's partner. */
  ghost predicate LinkedAt(halves: seq<Port>, partners: seq<Port>, k: int)
    reads halves, partners
    requires 0 <= k < |halves| == |partners|
  {
    halves[k].partner == partners[k] && partners[k].partner == halves[k]
  }

  /** Each half's partner is the matching entry of `partners`, and back. */
  ghost predicate HalvesLinked(halves: seq<Port>, partners: seq<Port>)
    reads halves, partners
  {
    |halves| == |partners|
    && forall k :: 0 <= k < |halves| ==> LinkedAt(halves, partners, k)
  }

  /** The head-table rules `_send_head_table_flow_mod` installs for `p`:
      one per ingress logical port, then one per physical port, each
      sending to the principal's first table. */
  ghost function PrincipalHeadRules(p: LogicalPortPrincipal): seq<SwitchMsg>
    reads p`physicalTableList, p`ingressLogicalPortNumsToPrincipals
    requires p.FirstPhysicalTable().Ok?
  {
    HeadTableRules(p.IngressLogicalPortNumList() + SortedList(p.info.physicalPortSet), p.FirstPhysicalTable().value)
  }

  /** The head-table rules of the first `i` principals, in list order. */
  ghost function AllHeadRules(ps: seq<LogicalPortPrincipal>, i: nat): seq<SwitchMsg>
    reads ps`physicalTableList, ps`ingressLogicalPortNumsToPrincipals
    requires i <= |ps|
    requires forall x :: 0 <= x < i ==> ps[x].FirstPhysicalTable().Ok?
  {
    if i == 0 then [] else AllHeadRules(ps, i - 1) + PrincipalHeadRules(ps[i - 1])
  }

  /** The position of the first principal of `ps` from `i` on without a
      first physical table, or |ps| when each of them has one. */
  ghost function FirstWithoutTable(ps: seq<LogicalPortPrincipal>, i: nat): (r: nat)
    reads ps`physicalTableList
    requires i <= |ps|
    ensures i <= r <= |ps|
    ensures forall x :: i <= x < r ==> ps[x].FirstPhysicalTable().Ok?
    ensures r < |ps| ==> ps[r].FirstPhysicalTable().Err?
    decreases |ps| - i
  {
    if i == |ps| || ps[i].FirstPhysicalTable().Err? then i else FirstWithoutTable(ps, i + 1)
  }

  /** A position with a first table before it and none at it (or the
      end of the list) is the first without one. */
  lemma FirstWithoutTableIs(ps: seq<LogicalPortPrincipal>, i: nat)
    requires i <= |ps|
    requires forall x :: 0 <= x < i ==> ps[x].FirstPhysicalTable().Ok?
    requires i < |ps| ==> ps[i].FirstPhysicalTable().Err?
    ensures FirstWithoutTable(ps, 0) == i
  {
  }

  /** The partner of each classified half is the port at the `_b`
      position of its pair: the two are linked both ways, and with unique
      port numbers no two halves or partners share a number. */
  lemma PartnersOfHalves(ports: seq<Port>, halves: seq<Port>) returns (partners: seq<Port>)
    requires UniquePortNumbers(ports) && ScanStopsAt(ports, |halves|)
    requires var positions := HalfPositions(ports, |halves|);
             forall k :: 0 <= k < |positions| ==>
               halves[k] == ports[positions[k].a] && Linked(ports[positions[k].a], ports[positions[k].b])
    ensures |partners| == |halves|
    ensures forall k :: 0 <= k < |halves| ==> partners[k] == ports[HalfPositions(ports, |halves|)[k].b]
    ensures HalvesLinked(halves, partners)
    ensures PairNumbersDistinct(halves, partners)
  {
    var positions := HalfPositions(ports, |halves|);
    partners := seq(|halves|, k requires 0 <= k < |halves| => ports[positions[k].b]);
    forall k | 0 <= k < |halves|
      ensures LinkedAt(halves, partners, k)
    {
    }
    ChosenNumbersDistinct(ports, halves, partners);
  }

  /** The three dictionaries of each principal, in list order. */
  ghost function MapsOf(ps: seq<LogicalPortPrincipal>): (r: seq<PortMaps>)
    reads ps`principalIdsToLogicalPorts, ps`ingressLogicalPortNumsToPrincipals, ps`egressLogicalPortNumsToPrincipals
    ensures |r| == |ps|
  {
    if ps == [] then [] else MapsOf(ps[..|ps| - 1]) + [ps[|ps| - 1].Maps()]
  }

  /** Entry x of `MapsOf(ps)` is what principal x holds now. */
  lemma {:induction false} MapsOfIndex(ps: seq<LogicalPortPrincipal>)
    ensures forall x :: 0 <= x < |ps| ==> MapsOf(ps)[x] == ps[x].Maps()
  {
    if ps != [] {
      MapsOfIndex(ps[..|ps| - 1]);
    }
  }

  class LogicalPortSwitch {
    var state: SwitchState
    /** The principals, in the order the switch was given them. */
    const principals: seq<LogicalPortPrincipal>
    /** The table count the physical switch reported. */
    const switchNumTables: int
    var portNameNumberList: seq<Port>
    /** The `_a` half of each loopback pair, once the ports are classified. */
    var logicalPortPairHalves: Option<seq<Port>>
    /** The partner of each of those halves. */
    ghost var logicalPortPartners: seq<Port>
    var numPrincipalsCanSupport: Option<int>
    /** The messages sent to the physical switch, oldest first. */
    var log: seq<SwitchMsg>

    constructor (principals: seq<LogicalPortPrincipal>, switchNumTables: int)
      ensures state == Uninitialized
      ensures this.principals == principals && this.switchNumTables == switchNumTables
      ensures portNameNumberList == [] && logicalPortPairHalves == None && logicalPortPartners == []
      ensures numPrincipalsCanSupport == None && log == []
    {
      state := Uninitialized;
      this.principals := principals;
      this.switchNumTables := switchNumTables;
      portNameNumberList := [];
      logicalPortPairHalves := None;
      logicalPortPartners := [];
      numPrincipalsCanSupport := None;
      log := [];
    }

    /** The principals are distinct objects: each is first found at its
        own position, so no object occurs twice. */
    predicate PrincipalsDistinct() {
      forall x :: 0 <= x < |principals| ==> FirstIndex(principals, principals[x]) == x
    }

    /** The pair halves, or none before the ports are classified. */
    function Halves(): seq<Port>
      reads this`logicalPortPairHalves
    {
      if logicalPortPairHalves.Some? then logicalPortPairHalves.value else []
    }

    ghost function Partners(): seq<Port>
      reads this`logicalPortPairHalves, this`logicalPortPartners
    {
      if logicalPortPairHalves.Some? then logicalPortPartners else []
    }

    /** `_init_recv_port_stats_response_config`: classifies the reported
        ports, records the pair halves and the number of principals they
        can connect, and fails when that is fewer than the principals. */
    method InitRecvPortStatsResponseConfig(ports: seq<Port>) returns (outcome: Outcome<BringUpError>, ghost result: Classification)
      requires UniquePortNumbers(ports)
      modifies this`portNameNumberList, this`logicalPortPairHalves, this`logicalPortPartners, this`numPrincipalsCanSupport, ports
      ensures portNameNumberList == ports
      ensures forall q :: 0 <= q < |ports| && !IsLoopbackPort(ports[q].name) ==>
                ports[q].isPhysical == Some(true) && ports[q].partner == old(ports[q].partner)
      ensures PairingOutcome(ports, result, old(PhysicalFlags(ports)), old(PartnerFields(ports)))
      ensures result.UnmatchedHalf? ==>
                && outcome == Fail(UnmatchedLoopbackHalf(result.pairIndex))
                && logicalPortPairHalves == old(logicalPortPairHalves) && logicalPortPartners == old(logicalPortPartners)
                && numPrincipalsCanSupport == old(numPrincipalsCanSupport)
      ensures result.Classified? ==>
                && logicalPortPairHalves == Some(result.halves)
                && |logicalPortPartners| == |result.halves|
                && (forall k :: 0 <= k < |result.halves| ==>
                      logicalPortPartners[k] == ports[HalfPositions(ports, |result.halves|)[k].b])
                && HalvesLinked(result.halves, logicalPortPartners)
                && PairNumbersDistinct(result.halves, logicalPortPartners)
                && numPrincipalsCanSupport == Some(NumPrincipalsSupported(|result.halves|))
                && (outcome.Pass? <==> NumLogicalPortPairs(|principals|) <= |result.halves|)
                && (outcome.Fail? ==> outcome == Fail(NotEnoughLogicalPorts(NumPrincipalsSupported(|result.halves|), |principals|)))
    {
      ghost var physical0, partner0 := PhysicalFlags(ports), PartnerFields(ports);
      var classification := SetLogicalPhysical(ports);
      result := classification;
      outcome := RecordClassification(ports, classification, physical0, partner0);
    }

    /** The rest of `_init_recv_port_stats_response_config`, once the ports
        are classified: the port list is stored; an unmatched half fails
        with nothing else recorded; otherwise the halves, their partners
        and the supported count are recorded, and too few pairs fail. */
    method RecordClassification(ports: seq<Port>, result: Classification,
                                ghost physical0: seq<Option<bool>>, ghost partner0: seq<Port?>)
      returns (outcome: Outcome<BringUpError>)
      requires UniquePortNumbers(ports) && PairingOutcome(ports, result, physical0, partner0)
      modifies this`portNameNumberList, this`logicalPortPairHalves, this`logicalPortPartners, this`numPrincipalsCanSupport
      ensures portNameNumberList == ports
      ensures result.UnmatchedHalf? ==>
                && outcome == Fail(UnmatchedLoopbackHalf(result.pairIndex))
                && logicalPortPairHalves == old(logicalPortPairHalves) && logicalPortPartners == old(logicalPortPartners)
                && numPrincipalsCanSupport == old(numPrincipalsCanSupport)
      ensures result.Classified? ==>
                && logicalPortPairHalves == Some(result.halves)
                && |logicalPortPartners| == |result.halves|
                && (forall k :: 0 <= k < |result.halves| ==>
                      logicalPortPartners[k] == ports[HalfPositions(ports, |result.halves|)[k].b])
                && HalvesLinked(result.halves, logicalPortPartners)
                && PairNumbersDistinct(result.halves, logicalPortPartners)
                && numPrincipalsCanSupport == Some(NumPrincipalsSupported(|result.halves|))
                && (outcome.Pass? <==> NumLogicalPortPairs(|principals|) <= |result.halves|)
                && (outcome.Fail? ==> outcome == Fail(NotEnoughLogicalPorts(NumPrincipalsSupported(|result.halves|), |principals|)))
    {
      if result.UnmatchedHalf? {
        portNameNumberList := ports;
        return Fail(UnmatchedLoopbackHalf(result.pairIndex));
      }
      var halves := result.halves;
      ghost var partners := PartnersOfHalves(ports, halves);
      outcome := RecordHalves(ports, halves, partners);
    }

    /** The end of `_init_recv_port_stats_response_config`: records the
        port list, the pair halves and the number of principals they can
        connect, and fails when that is fewer than the principals. */
    method RecordHalves(ports: seq<Port>, halves: seq<Port>, ghost partners: seq<Port>) returns (outcome: Outcome<BringUpError>)
      modifies this`portNameNumberList, this`logicalPortPairHalves, this`logicalPortPartners, this`numPrincipalsCanSupport
      ensures portNameNumberList == ports
      ensures logicalPortPairHalves == Some(halves) && logicalPortPartners == partners
      ensures numPrincipalsCanSupport == Some(NumPrincipalsSupported(|halves|))
      ensures outcome.Pass? <==> NumLogicalPortPairs(|principals|) <= |halves|
      ensures outcome.Fail? ==> outcome == Fail(NotEnoughLogicalPorts(NumPrincipalsSupported(|halves|), |principals|))
    {
      portNameNumberList := ports;
      logicalPortPairHalves := Some(halves);
      logicalPortPartners := partners;
      var canSupport := NumPrincipalsSupported(|halves|);
      numPrincipalsCanSupport := Some(canSupport);
      SupportedIffEnoughPairs(|halves|, |principals|);
      if canSupport < |principals| {
        return Fail(NotEnoughLogicalPorts(canSupport, |principals|));
      }
      outcome := Pass;
    }

    /** Principal x owns the tables `TableRange(x, k)` and the hard-coded
        buffer count. */
    ghost predicate TablesAssigned(k: int)
      reads principals`physicalTableList, principals`numBuffers
    {
      forall x :: 0 <= x < |principals| ==>
        && principals[x].physicalTableList == Some(TableRange(x, k))
        && principals[x].numBuffers == Some(HARDCODED_NUM_BUFFERS)
    }

    /** Principal x holds the dictionaries `ms[x]`, for every x. */
    ghost predicate MapsAre(ms: seq<PortMaps>)
      reads principals`principalIdsToLogicalPorts, principals`ingressLogicalPortNumsToPrincipals, principals`egressLogicalPortNumsToPrincipals
    {
      MapsOf(principals) == ms
    }

    /** Every principal x holds the dictionaries `MapsAfter` builds from
        `m0s[x]` once all of its pairs are mapped. */
    ghost predicate PairsMapped(al: Allocation, m0s: seq<PortMaps>)
      reads principals`principalIdsToLogicalPorts, principals`ingressLogicalPortNumsToPrincipals, principals`egressLogicalPortNumsToPrincipals
    {
      && al.Valid() && al.principals == principals && |m0s| == |principals|
      && MapsAre(AllMapped(al, m0s, |principals|))
    }

    /** Every principal has a first table to send its traffic to. */
    ghost predicate FirstTablesKnown()
      reads principals`physicalTableList
    {
      forall x :: 0 <= x < |principals| ==> principals[x].FirstPhysicalTable().Ok?
    }

    /** Once the tables are assigned, every principal has a first table
        exactly when each owns at least one. */
    lemma FirstTablesKnownIff(k: int)
      requires TablesAssigned(k) && |principals| > 0
      ensures FirstTablesKnown() <==> k > 0
    {
      FirstTableOfRange(principals[0], 1, 1 + k);
      if k > 0 {
        forall x | 0 <= x < |principals|
          ensures principals[x].FirstPhysicalTable().Ok?
        {
          assert (x + 1) * k == x * k + k;
          FirstTableOfRange(principals[x], 1 + x * k, 1 + (x + 1) * k);
        }
      }
    }

    /** Principal x sends to y through the port on which y receives from
        x: the two ends of their loopback pair. */
    ghost predicate Connected(x: nat, y: nat)
      reads this`logicalPortPairHalves, this`logicalPortPartners
      reads principals`ingressLogicalPortNumsToPrincipals, principals`egressLogicalPortNumsToPrincipals
      requires Allocation(principals, Halves(), Partners()).Valid()
      requires x < |principals| && y < |principals| && x != y
    {
      var port := Allocation(principals, Halves(), Partners()).PortFor(y, x).number;
      && port in principals[x].egressLogicalPortNumsToPrincipals
      && principals[x].egressLogicalPortNumsToPrincipals[port] == principals[y]
      && port in principals[y].ingressLogicalPortNumsToPrincipals
      && principals[y].ingressLogicalPortNumsToPrincipals[port] == principals[x]
    }

    /** Every two different principals are connected. */
    ghost predicate AllConnected()
      reads this`logicalPortPairHalves, this`logicalPortPartners
      reads principals`ingressLogicalPortNumsToPrincipals, principals`egressLogicalPortNumsToPrincipals
      requires Allocation(principals, Halves(), Partners()).Valid()
    {
      forall x, y :: 0 <= x < |principals| && 0 <= y < |principals| && x != y ==> Connected(x, y)
    }

    /** Once part 2 has run with enough loopback pairs over halves with
        distinct port numbers, every two principals are connected, whatever
        the dictionaries held before. */
    lemma PeersConnected(m0s: seq<PortMaps>)
      requires PortsLinked(m0s)
      requires Allocation(principals, Halves(), Partners()).Valid()
      requires PairNumbersDistinct(Halves(), Partners())
      ensures AllConnected()
    {
      var al := Allocation(principals, Halves(), Partners());
      MapsOfIndex(principals);
      AllMappedIndex(al, m0s, |principals|);
      forall x, y | 0 <= x < |principals| && 0 <= y < |principals| && x != y
        ensures Connected(x, y)
      {
        EgressMatchesPeerIngress(Allocation(principals, Halves(), Partners()), m0s[x], m0s[y], x, y);
      }
    }

    /** The principals' dictionaries after part 2, from dictionaries
        `m0s`: with enough loopback pairs every two principals are mapped
        (and so connected, `PeersConnected`); otherwise the pairs before the first missing index
        are mapped and no later one. */
    ghost predicate PortsLinked(m0s: seq<PortMaps>)
      reads this`logicalPortPairHalves, this`logicalPortPartners
      reads principals`principalIdsToLogicalPorts, principals`ingressLogicalPortNumsToPrincipals, principals`egressLogicalPortNumsToPrincipals
    {
      var al := Allocation(principals, Halves(), Partners());
      var enoughPairs := NumLogicalPortPairs(|principals|) <= |Halves()|;
      && |m0s| == |principals| && |Halves()| == |Partners()|
      && (enoughPairs ==> PairsMapped(al, m0s))
      && (!enoughPairs ==> MapsAre(ShortfallMaps(al, m0s)))
    }

    /** The outcome of connecting the principals, from dictionaries `m0s`
        and message log `log0`: the dictionaries are `PortsLinked`. Too few
        loopback pairs fail at the first missing index with no message
        sent. Otherwise the head-table phase sends the rules of every
        principal up to the first without a first table; it fails there,
        or passes and sends a barrier once every principal has one. */
    ghost predicate Connection(outcome: Outcome<BringUpError>, m0s: seq<PortMaps>, log0: seq<SwitchMsg>)
      reads this`log, this`logicalPortPairHalves, this`logicalPortPartners
      reads principals`physicalTableList, principals`principalIdsToLogicalPorts
      reads principals`ingressLogicalPortNumsToPrincipals, principals`egressLogicalPortNumsToPrincipals
    {
      var enoughPairs := NumLogicalPortPairs(|principals|) <= |Halves()|;
      && PortsLinked(m0s)
      && outcome == (if !enoughPairs then Fail(MissingLogicalPortPair(|Halves()|))
                     else if FirstTablesKnown() then Pass
                     else Fail(EmptyTableList))
      && log == (if !enoughPairs then log0
                 else if FirstTablesKnown() then log0 + AllHeadRules(principals, |principals|) + [Barrier]
                 else log0 + AllHeadRules(principals, FirstWithoutTable(principals, 0)))
    }

    /** The outcome of the transition past its state check, for at least
        one principal: the tables are assigned whatever happens, then the
        principals are connected (`Connection`). As every principal gets k
        tables, it passes exactly when there are enough pairs and k > 0,
        and a failure sends no message at all. */
    ghost predicate Configured(outcome: Outcome<BringUpError>, m0s: seq<PortMaps>, log0: seq<SwitchMsg>)
      reads this`log, this`logicalPortPairHalves, this`logicalPortPartners
      reads principals`physicalTableList, principals`numBuffers, principals`principalIdsToLogicalPorts
      reads principals`ingressLogicalPortNumsToPrincipals, principals`egressLogicalPortNumsToPrincipals
      requires |principals| > 0
    {
      var k := TablesPerPrincipal(switchNumTables, |principals|);
      && TablesAssigned(k)
      && Connection(outcome, m0s, log0)
      && (outcome.Pass? <==> NumLogicalPortPairs(|principals|) <= |Halves()| && k > 0)
      && (outcome.Fail? ==> log == log0)
    }

    /** `_transition_from_uninitialized`: moves to INSTALLING_HEAD_TABLES,
        gives principal i the tables `range(1 + i*k, 1 + (i+1)*k)` with
        k = floor((T - 1) / N) and 5 buffers, maps one loopback pair to
        each pair of principals, installs the head-table rules and sends
        one barrier. */
    method TransitionFromUninitialized() returns (outcome: Outcome<BringUpError>)
      requires PrincipalsDistinct()
      requires HalvesLinked(Halves(), Partners())
      requires PairNumbersDistinct(Halves(), Partners())
      modifies this`state, this`log, principals`physicalTableList, principals`numBuffers, principals`principalIdsToLogicalPorts, principals`ingressLogicalPortNumsToPrincipals, principals`egressLogicalPortNumsToPrincipals
      ensures old(state) != Uninitialized ==>
                outcome == Fail(UnexpectedState(old(state))) && unchanged(this) && unchanged(principals)
      ensures old(state) == Uninitialized ==> state == InstallingHeadTables
      ensures old(state) == Uninitialized && |principals| == 0 ==> outcome == Fail(ZeroDivision) && log == old(log)
      ensures old(state) == Uninitialized && |principals| > 0 ==> Configured(outcome, old(MapsOf(principals)), old(log))
      ensures old(state) == Uninitialized && Allocation(principals, Halves(), Partners()).Valid() ==> AllConnected()
    {
      if state != Uninitialized {
        outcome := Fail(UnexpectedState(state));
      } else {
        ghost var m0s, log0 := MapsOf(principals), log;
        state := InstallingHeadTables;
        if |principals| == 0 {
          outcome := Fail(ZeroDivision);
        } else {
          outcome := ConfigurePrincipals(m0s, log0);
          if Allocation(principals, Halves(), Partners()).Valid() {
            PeersConnected(m0s);
          }
        }
      }
    }

    /** The transition after the state check, for at least one principal:
        the tables and buffers first, then the rest. */
    method ConfigurePrincipals(ghost m0s: seq<PortMaps>, ghost log0: seq<SwitchMsg>) returns (outcome: Outcome<BringUpError>)
      requires m0s == MapsOf(principals) && log0 == log
      requires PrincipalsDistinct()
      requires HalvesLinked(Halves(), Partners())
      requires |principals| > 0
      modifies this`log, principals`physicalTableList, principals`numBuffers, principals`principalIdsToLogicalPorts, principals`ingressLogicalPortNumsToPrincipals, principals`egressLogicalPortNumsToPrincipals
      ensures Configured(outcome, m0s, log0)
    {
      var k := TablesPerPrincipal(switchNumTables, |principals|);
      AssignTables(k);
      outcome := ConnectPrincipals(m0s, log0);
      ConfiguredOnceConnected(k, outcome, m0s, log0);
    }

    /** Once every principal holds k tables, connecting them passes exactly
        when there are enough pairs and k > 0, and fails before any message
        goes out: with k == 0 principal 0 already lacks a first table. */
    lemma ConfiguredOnceConnected(k: int, outcome: Outcome<BringUpError>, m0s: seq<PortMaps>, log0: seq<SwitchMsg>)
      requires |principals| > 0 && k == TablesPerPrincipal(switchNumTables, |principals|)
      requires TablesAssigned(k) && Connection(outcome, m0s, log0)
      ensures Configured(outcome, m0s, log0)
    {
      FirstTablesKnownIff(k);
      // every principal's range has k tables, so principal 0 is the first without one
      FirstTableOfRange(principals[0], 1, 1 + k);
    }

    /** The transition once the tables are assigned: the loopback pairs,
        then the head-table rules and the barrier. */
    method ConnectPrincipals(ghost m0s: seq<PortMaps>, ghost log0: seq<SwitchMsg>) returns (outcome: Outcome<BringUpError>)
      requires m0s == MapsOf(principals) && log0 == log
      requires PrincipalsDistinct()
      requires HalvesLinked(Halves(), Partners())
      modifies this`log, principals`principalIdsToLogicalPorts, principals`ingressLogicalPortNumsToPrincipals, principals`egressLogicalPortNumsToPrincipals
      ensures Connection(outcome, m0s, log0)
    {
      outcome := AssignLogicalPorts(Halves(), Partners());
      assert PortsLinked(m0s);
      if outcome.Fail? {
        return;
      }
      outcome := InstallHeadTables();
    }

    /** Part 3 of the transition and the barrier that closes it. */
    method InstallHeadTables() returns (outcome: Outcome<BringUpError>)
      modifies this`log
      ensures outcome.Pass? <==> FirstTablesKnown()
      ensures outcome.Pass? ==> log == old(log) + AllHeadRules(principals, |principals|) + [Barrier]
      ensures outcome.Fail? ==>
                outcome == Fail(EmptyTableList) && log == old(log) + AllHeadRules(principals, FirstWithoutTable(principals, 0))
    {
      outcome := SendHeadTableFlowMods();
      if outcome.Fail? {
        return;
      }
      FirstWithoutTableIs(principals, |principals|);
      // ensure that all head table rules are installed
      SendBarrier();
    }

    /** `send_barrier`: a barrier request to the physical switch. */
    method SendBarrier()
      modifies this`log
      ensures log == old(log) + [Barrier]
    {
      log := log + [Barrier];
    }

    /** Part 1 of the transition: the table ranges and buffer counts. */
    method AssignTables(k: int)
      requires PrincipalsDistinct()
      modifies principals`physicalTableList, principals`numBuffers
      ensures TablesAssigned(k)
    {
      for i := 0 to |principals|
        invariant forall x :: 0 <= x < i ==>
                    && principals[x].physicalTableList == Some(TableRange(x, k))
                    && principals[x].numBuffers == Some(HARDCODED_NUM_BUFFERS)
      {
        principals[i].SetPhysicalTableList(TableRange(i, k));
        principals[i].SetNumBuffers(HARDCODED_NUM_BUFFERS);
      }
    }

    /** Part 1 as written: the first iteration sets principal 0's table
        list, then looks up `set_num_buffers`, which the principal does not
        have; the transition stops there with `AttributeError`. */
    method AssignTablesAsWritten(k: int) returns (outcome: Outcome<BringUpError>)
      requires PrincipalsDistinct()
      modifies principals`physicalTableList
      ensures |principals| == 0 ==> outcome == Pass
      ensures |principals| > 0 ==>
                && outcome == Fail(MissingAttribute("set_num_buffers"))
                && principals[0].physicalTableList == Some(TableRange(0, k))
                && forall x :: 0 < x < |principals| ==> principals[x].physicalTableList == old(principals[x].physicalTableList)
    {
      if |principals| == 0 {
        return Pass;
      }
      principals[0].SetPhysicalTableList(TableRange(0, k));
      var setNumBuffers := PrincipalAttribute("set_num_buffers");
      outcome := if setNumBuffers.Fail? then Fail(MissingAttribute(setNumBuffers.error)) else Pass;
    }

    /** Part 2 of the transition: pair (i, j), i < j, takes the next
        loopback pair in lexicographic order; principal i reaches j through
        its `_a` half and j reaches i through the partner. Running out of
        halves fails at the first missing index (`IndexError`), with the
        pairs before it mapped. */
    method AssignLogicalPorts(halves: seq<Port>, ghost partners: seq<Port>) returns (outcome: Outcome<BringUpError>)
      requires PrincipalsDistinct()
      requires HalvesLinked(halves, partners)
      modifies principals`principalIdsToLogicalPorts, principals`ingressLogicalPortNumsToPrincipals, principals`egressLogicalPortNumsToPrincipals
      ensures outcome.Pass? <==> NumLogicalPortPairs(|principals|) <= |halves|
      ensures outcome.Pass? ==> PairsMapped(Allocation(principals, halves, partners), old(MapsOf(principals)))
      ensures outcome.Fail? ==>
                && outcome == Fail(MissingLogicalPortPair(|halves|)) && NumLogicalPortPairs(|principals|) > |halves|
                && MapsAre(ShortfallMaps(Allocation(principals, halves, partners), old(MapsOf(principals))))
    {
      var n := |principals|;
      ghost var al := Allocation(principals, halves, partners);
      ghost var m0s := MapsOf(principals);
      var logicalPortIndex := 0;
      for i := 0 to n
        invariant logicalPortIndex == RowStart(n, i) <= |halves|
        invariant MapsAre(BeforePair(al, m0s, i, i + 1))
      {
        outcome, logicalPortIndex := MapRow(halves, partners, i, logicalPortIndex, m0s);
        if outcome.Fail? {
          return;
        }
      }
      RowsHoldAllPairs(n);
      AllMappedIndex(al, m0s, n);
      forall x | 0 <= x < n
        ensures BeforePair(al, m0s, n, n + 1)[x] == AllMapped(al, m0s, n)[x]
      {
        BeforePairIsMapsAfter(al, m0s, n, n + 1, x);
      }
      outcome := Pass;
    }

    /** Row `i` of the nested loop: principal i is paired with every later
        principal j, taking the halves from `index` on. */
    method MapRow(halves: seq<Port>, ghost partners: seq<Port>, i: nat, index: nat, ghost m0s: seq<PortMaps>)
      returns (outcome: Outcome<BringUpError>, next: nat)
      requires PrincipalsDistinct()
      requires HalvesLinked(halves, partners)
      requires i < |principals| && |m0s| == |principals|
      requires index == RowStart(|principals|, i) <= |halves|
      requires MapsAre(BeforePair(Allocation(principals, halves, partners), m0s, i, i + 1))
      modifies principals`principalIdsToLogicalPorts, principals`ingressLogicalPortNumsToPrincipals, principals`egressLogicalPortNumsToPrincipals
      ensures outcome.Pass? ==> next == RowStart(|principals|, i + 1) <= |halves|
      ensures outcome.Pass? ==> MapsAre(BeforePair(Allocation(principals, halves, partners), m0s, i + 1, i + 2))
      ensures outcome.Fail? ==>
                && outcome == Fail(MissingLogicalPortPair(|halves|)) && NumLogicalPortPairs(|principals|) > |halves|
                && MapsAre(ShortfallMaps(Allocation(principals, halves, partners), m0s))
    {
      var n := |principals|;
      ghost var al := Allocation(principals, halves, partners);
      next := index;
      for j := i + 1 to n
        invariant next == RowStart(n, i) + (j - i - 1) <= |halves|
        invariant MapsAre(BeforePair(al, m0s, i, j))
      {
        if next >= |halves| {
          // `logical_port_index` is the rank of pair (i, j), the first missing one
          ShortfallAtPair(al, m0s, i, j);
          return Fail(MissingLogicalPortPair(next)), next;
        }
        MapPair(halves, partners, i, j, next, m0s);
        assert MapsAre(BeforePair(al, m0s, i, j + 1));
        next := next + 1;
      }
      outcome := Pass;
    }

    /** One step of the nested loop: `logical_port_a` is the half at
        `index`, `logical_port_b` its partner, and each principal of the
        pair records the other. */
    method MapPair(halves: seq<Port>, ghost partners: seq<Port>, i: nat, j: nat, index: nat, ghost m0s: seq<PortMaps>)
      requires PrincipalsDistinct()
      requires HalvesLinked(halves, partners)
      requires i < j < |principals| && index < |halves| && |m0s| == |principals|
      requires index == Rank(|principals|, i, j)
      requires MapsAre(BeforePair(Allocation(principals, halves, partners), m0s, i, j))
      modifies {principals[i], principals[j]}`principalIdsToLogicalPorts
      modifies {principals[i], principals[j]}`ingressLogicalPortNumsToPrincipals
      modifies {principals[i], principals[j]}`egressLogicalPortNumsToPrincipals
      ensures MapsAre(BeforePair(Allocation(principals, halves, partners), m0s, i, j + 1))
    {
      ghost var al := Allocation(principals, halves, partners);
      ghost var ms := BeforePair(al, m0s, i, j);
      BeforePairStep(al, m0s, i, j);
      MapsOfIndex(principals);
      assert LinkedAt(halves, partners, index);
      var portA := halves[index];
      var portB := portA.partner;
      var outcomeA := principals[i].AddLogicalMapping(portA, principals[j]);
      assert principals[i].Maps() == ms[i].Add(portA, portB, principals[j]);
      var outcomeB := principals[j].AddLogicalMapping(portB, principals[i]);
      assert principals[j].Maps() == ms[j].Add(portB, portA, principals[i]);
      MapsOfIndex(principals);
      forall x | 0 <= x < |principals|
        ensures MapsOf(principals)[x] == AfterPair(al, ms, i, j)[x]
      {
        if x != i && x != j {
          assert principals[x] != principals[i] && principals[x] != principals[j];
        }
      }
    }

    /** Part 2 as written: the first pair of principals reads half 0 and
        then calls `get_partner()`, which ports do not have
        (`PortAttribute`); the transition stops there with nothing mapped.
        With fewer than two principals the loops map nothing. */
    method AssignLogicalPortsAsWritten(halves: seq<Port>) returns (outcome: Outcome<BringUpError>)
      ensures |principals| < 2 ==> outcome == Pass
      ensures |principals| >= 2 && |halves| == 0 ==> outcome == Fail(MissingLogicalPortPair(0))
      ensures |principals| >= 2 && |halves| > 0 ==> outcome == Fail(MissingAttribute("get_partner"))
    {
      if |principals| < 2 {
        return Pass;
      }
      if |halves| == 0 {
        return Fail(MissingLogicalPortPair(0));
      }
      var getPartner := PortAttribute("get_partner");
      outcome := if getPartner.Fail? then Fail(MissingAttribute(getPartner.error)) else Pass;
    }

    /** Part 3 of the transition: the head-table rules of every principal
        in list order, stopping at the first principal without a first
        table. */
    method SendHeadTableFlowMods() returns (outcome: Outcome<BringUpError>)
      modifies this`log
      ensures outcome.Pass? <==> FirstTablesKnown()
      ensures outcome.Fail? ==> outcome == Fail(EmptyTableList)
      ensures log == old(log) + AllHeadRules(principals, FirstWithoutTable(principals, 0))
    {
      for i := 0 to |principals|
        invariant forall x :: 0 <= x < i ==> principals[x].FirstPhysicalTable().Ok?
        invariant log == old(log) + AllHeadRules(principals, i)
      {
        outcome := SendHeadTableFlowMod(principals[i]);
        if outcome.Fail? {
          FirstWithoutTableIs(principals, i);
          return;
        }
        AppendAssoc(old(log), AllHeadRules(principals, i), PrincipalHeadRules(principals[i]));
      }
      FirstWithoutTableIs(principals, |principals|);
      outcome := Pass;
    }

    /** `_send_head_table_flow_mod`: one rule in the head table per
        ingress logical port and per physical port of `p`, matching that
        `in_port` and going to `p`'s first table with priority 10. Reading
        the first table of an empty list fails before any rule is sent. */
    method SendHeadTableFlowMod(p: LogicalPortPrincipal) returns (outcome: Outcome<BringUpError>)
      modifies this`log
      ensures outcome.Pass? <==> p.FirstPhysicalTable().Ok?
      ensures outcome.Fail? ==> outcome == Fail(EmptyTableList) && log == old(log)
      ensures outcome.Pass? ==> log == old(log) + PrincipalHeadRules(p)
    {
      var ingressLogicalPortNumList := p.IngressLogicalPortNumList();
      var physicalPortNumList := SortedList(p.info.physicalPortSet);
      var firstTable := p.FirstPhysicalTable();
      if firstTable.Err? {
        return Fail(EmptyTableList);
      }
      log := log + HeadTableRules(ingressLogicalPortNumList + physicalPortNumList, firstTable.value);
      outcome := Pass;
    }
  }

  /** The rules of one principal: exactly one rule per ingress logical port
      and per physical port, each a priority-10 goto from the head table to
      the principal's first table. */
  lemma PrincipalHeadRulesCover(p: LogicalPortPrincipal, m: SwitchMsg)
    requires p.FirstPhysicalTable().Ok?
    ensures |PrincipalHeadRules(p)| == |p.ingressLogicalPortNumsToPrincipals.Keys| + |p.info.physicalPortSet|
    ensures m in PrincipalHeadRules(p) <==>
              && m.FlowMod?
              && (m.inPort in p.ingressLogicalPortNumsToPrincipals || m.inPort in p.info.physicalPortSet)
              && m.tableId == HEAD_TABLE_ID && m.gotoTable == p.FirstPhysicalTable().value
              && m.priority == HEAD_RULE_PRIORITY
  {
    IngressListSorted(p);
    SortedListMembers(p.info.physicalPortSet);
    assert |p.IngressLogicalPortNumList() + SortedList(p.info.physicalPortSet)|
      == |p.ingressLogicalPortNumsToPrincipals.Keys| + |p.info.physicalPortSet|;
    HeadTableRulesCover(p.IngressLogicalPortNumList() + SortedList(p.info.physicalPortSet), p.FirstPhysicalTable().value, m);
  }

  /** Every message of the head-table phase is a rule; so the barrier that
      follows is the only barrier and comes after all of them. */
  lemma {:induction false} AllHeadRulesAreFlowMods(ps: seq<LogicalPortPrincipal>, i: nat)
    requires i <= |ps|
    requires forall x :: 0 <= x < i ==> ps[x].FirstPhysicalTable().Ok?
    ensures forall m :: m in AllHeadRules(ps, i) ==> m.FlowMod?
  {
    if i > 0 {
      AllHeadRulesAreFlowMods(ps, i - 1);
      var p := ps[i - 1];
      HeadTableRulesContents(p.IngressLogicalPortNumList() + SortedList(p.info.physicalPortSet), p.FirstPhysicalTable().value);
    }
  }

}
