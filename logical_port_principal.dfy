/** `LogicalPortPrincipal` (src/logical_port_principal.py): a principal of
    the logical-port switch. It owns a contiguous list of physical tables,
    which it sees as virtual tables 0, 1, 2, ..., and one loopback half per
    other principal. Three dictionaries record which half leads to which
    principal. */
module LogicalPortPrincipalModule {
  import opened Wrappers
  import opened Lists
  import opened PortUtil
  import opened PrincipalsUtil
  import opened SwitchCommon

  /** Why `add_logical_mapping` stops part-way. */
  datatype MappingError =
    | NoLogicalPort        // the port passed is `None` (AttributeError on `.partner`)
    | NoPartnerPort        // the port has no partner (AttributeError on `.port_number`)
    | UndefinedName        // NameError: the misspelt `parnter_port`

  /** The attributes a `LogicalPortPrincipal` object has: the fields and
      methods of `Principal` and of `LogicalPortPrincipal`. There is no
      `set_num_buffers`, and nothing assigns `num_buffers`. */
  const PRINCIPAL_ATTRIBUTES: set<string> :=
    {"STATIC_PRINCIPAL_IDENTIFIER", "physical_port_set", "listening_ip_addr", "listening_port_addr", "id",
     "to_json_str", "physical_table_list", "principal_ids_to_logical_ports",
     "ingress_logical_port_nums_to_principals", "egress_logical_port_nums_to_principals",
     "add_logical_mapping", "get_ingress_logical_port_num_list", "set_physical_table_list",
     "get_first_physical_table", "handle_features_request", "handle_flow_mod"}

  /** Python's attribute lookup on a `LogicalPortPrincipal`: an unknown
      name raises `AttributeError` naming it. */
  function PrincipalAttribute(name: string): Outcome<string> {
    if name in PRINCIPAL_ATTRIBUTES then Pass else Fail(name)
  }

  /** The features reply a principal sends its controller. */
  datatype FeaturesReply = FeaturesReply(nBuffers: int, nTables: nat, auxiliaryId: int, capabilities: int)

  const FEATURES_CAPABILITIES: int := 71
  const FEATURES_AUXILIARY_ID: int := 0

  /** The exceptions of the translation layer, and a table list the switch
      has not assigned. */
  datatype TranslationError =
    | TablesNotAssigned
    | InvalidTableWrite(tableId: int)
    | InvalidGotoTable(tableId: int)
    | InvalidActionPort(port: int)

  /** The three dictionaries `add_logical_mapping` fills. */
  datatype PortMaps = PortMaps(ids: map<nat, Port>, ingress: map<int, LogicalPortPrincipal>, egress: map<int, LogicalPortPrincipal>)
  {
    /** One `add_logical_mapping(port, peer)` where `partner` is the
        partner of `port`. */
    function Add(port: Port, partner: Port, peer: LogicalPortPrincipal): PortMaps {
      PortMaps(ids[peer.info.id := port], ingress[port.number := peer], egress[partner.number := peer])
    }
  }

  class LogicalPortPrincipal {
    const info: PrincipalRecord
    /** Physical table ids in ascending order; virtual id = list index. */
    var physicalTableList: Option<seq<int>>
    var numBuffers: Option<int>
    var principalIdsToLogicalPorts: map<nat, Port>
    /** Logical port numbers on which traffic from a principal arrives. */
    var ingressLogicalPortNumsToPrincipals: map<int, LogicalPortPrincipal>
    /** Logical port numbers through which traffic leaves for a principal. */
    var egressLogicalPortNumsToPrincipals: map<int, LogicalPortPrincipal>

    constructor (info: PrincipalRecord)
      ensures this.info == info
      ensures physicalTableList == None && numBuffers == None
      ensures principalIdsToLogicalPorts == map[]
      ensures ingressLogicalPortNumsToPrincipals == map[] && egressLogicalPortNumsToPrincipals == map[]
    {
      this.info := info;
      physicalTableList := None;
      numBuffers := None;
      principalIdsToLogicalPorts := map[];
      ingressLogicalPortNumsToPrincipals := map[];
      egressLogicalPortNumsToPrincipals := map[];
    }

    /** The three dictionaries together. */
    ghost function Maps(): PortMaps
      reads this`principalIdsToLogicalPorts, this`ingressLogicalPortNumsToPrincipals, this`egressLogicalPortNumsToPrincipals
    {
      PortMaps(principalIdsToLogicalPorts, ingressLogicalPortNumsToPrincipals, egressLogicalPortNumsToPrincipals)
    }

    /** `add_logical_mapping` with the partner's port number read from
        `partner_port`: `logicalPort` leads to `partneredPrincipal`, traffic
        from it arrives on `logicalPort` and traffic to it leaves through
        the partner half. Python updates the dictionaries one after the
        other, so a missing partner stops after the first two. */
    method AddLogicalMapping(logicalPort: Port?, partneredPrincipal: LogicalPortPrincipal)
        returns (outcome: Outcome<MappingError>)
      modifies this`principalIdsToLogicalPorts, this`ingressLogicalPortNumsToPrincipals, this`egressLogicalPortNumsToPrincipals
      ensures logicalPort != null && logicalPort.partner != null ==>
                outcome == Pass && Maps() == old(Maps()).Add(logicalPort, logicalPort.partner, partneredPrincipal)
      ensures logicalPort == null ==> outcome == Fail(NoLogicalPort) && unchanged(this)
      ensures logicalPort != null ==>
                && principalIdsToLogicalPorts == old(principalIdsToLogicalPorts)[partneredPrincipal.info.id := logicalPort]
                && ingressLogicalPortNumsToPrincipals == old(ingressLogicalPortNumsToPrincipals)[logicalPort.number := partneredPrincipal]
                && (outcome.Pass? <==> logicalPort.partner != null)
                && (logicalPort.partner != null ==>
                      egressLogicalPortNumsToPrincipals
                        == old(egressLogicalPortNumsToPrincipals)[logicalPort.partner.number := partneredPrincipal])
                && (logicalPort.partner == null ==>
                      outcome == Fail(NoPartnerPort) && egressLogicalPortNumsToPrincipals == old(egressLogicalPortNumsToPrincipals))
    {
      if logicalPort == null {
        return Fail(NoLogicalPort);
      }
      var partnerPort := logicalPort.partner;
      principalIdsToLogicalPorts := principalIdsToLogicalPorts[partneredPrincipal.info.id := logicalPort];
      ingressLogicalPortNumsToPrincipals := ingressLogicalPortNumsToPrincipals[logicalPort.number := partneredPrincipal];
      if partnerPort == null {
        return Fail(NoPartnerPort);
      }
      egressLogicalPortNumsToPrincipals := egressLogicalPortNumsToPrincipals[partnerPort.number := partneredPrincipal];
      outcome := Pass;
    }

    /** `add_logical_mapping` as written: the egress update names
        `parnter_port`, which is not defined, so every call raises NameError
        after the first two dictionaries are updated and the egress
        dictionary is never filled. */
    method AddLogicalMappingAsWritten(logicalPort: Port?, partneredPrincipal: LogicalPortPrincipal)
        returns (outcome: Outcome<MappingError>)
      modifies this`principalIdsToLogicalPorts, this`ingressLogicalPortNumsToPrincipals, this`egressLogicalPortNumsToPrincipals
      ensures outcome.Fail?
      ensures egressLogicalPortNumsToPrincipals == old(egressLogicalPortNumsToPrincipals)
      ensures logicalPort != null ==>
                && outcome == Fail(UndefinedName)
                && principalIdsToLogicalPorts == old(principalIdsToLogicalPorts)[partneredPrincipal.info.id := logicalPort]
                && ingressLogicalPortNumsToPrincipals == old(ingressLogicalPortNumsToPrincipals)[logicalPort.number := partneredPrincipal]
    {
      if logicalPort == null {
        return Fail(NoLogicalPort);
      }
      principalIdsToLogicalPorts := principalIdsToLogicalPorts[partneredPrincipal.info.id := logicalPort];
      ingressLogicalPortNumsToPrincipals := ingressLogicalPortNumsToPrincipals[logicalPort.number := partneredPrincipal];
      outcome := Fail(UndefinedName);
    }

    /** `get_ingress_logical_port_num_list`: the keys of the ingress
        dictionary (see `IngressListSorted`). */
    function IngressLogicalPortNumList(): seq<int>
      reads this`ingressLogicalPortNumsToPrincipals
    {
      SortedList(ingressLogicalPortNumsToPrincipals.Keys)
    }

    method SetPhysicalTableList(tables: seq<int>)
      modifies this`physicalTableList
      ensures physicalTableList == Some(tables)
    {
      physicalTableList := Some(tables);
    }

    /** The setter of the buffer count that the features reply reads. The
        switch calls it as `set_num_buffers` during bring-up, but no class
        defines it (`PrincipalAttribute`); this is the evidently intended
        behaviour. */
    method SetNumBuffers(n: int)
      modifies this`numBuffers
      ensures numBuffers == Some(n)
    {
      numBuffers := Some(n);
    }

    /** `get_first_physical_table`: element 0 of the table list. */
    function FirstPhysicalTable(): (r: Result<int, LookupError>)
      reads this`physicalTableList
    {
      match physicalTableList
      case None => Err(TableListNotSet)
      case Some(tables) => if |tables| == 0 then Err(EmptyList) else Ok(tables[0])
    }

    /** The contents of the features reply: this principal's own buffer
        count and the number of tables it owns. The table count is read
        first. */
    function Features(): (r: Result<FeaturesReply, LookupError>)
      reads this`physicalTableList, this`numBuffers
    {
      if physicalTableList.None? then Err(TableListNotSet)
      else if numBuffers.None? then Err(BuffersNotSet)
      else Ok(FeaturesReply(numBuffers.value, |physicalTableList.value|, FEATURES_AUXILIARY_ID, FEATURES_CAPABILITIES))
    }

    /** `handle_flow_mod`: the table-id rewrite, then the goto rewrite,
        then the action-port check; the result is the message forwarded
        to the switch. */
    function HandleFlowMod(msg: FlowModRequest): (r: Result<FlowModRequest, TranslationError>)
      reads this`physicalTableList, this`egressLogicalPortNumsToPrincipals
    {
      if physicalTableList.None? then Err(TablesNotAssigned)
      else
        var tables := physicalTableList.value;
        var step1 :- RewriteTableIds(msg, tables);
        var step2 :- RewriteGotos(step1, tables);
        var step3 :- CheckActionPorts(step2, info.physicalPortSet, egressLogicalPortNumsToPrincipals.Keys);
        Ok(step3)
    }
  }

  /** The ingress list names each ingress port once, in ascending order. */
  lemma IngressListSorted(p: LogicalPortPrincipal)
    ensures |p.IngressLogicalPortNumList()| == |p.ingressLogicalPortNumsToPrincipals.Keys|
    ensures forall q :: q in p.IngressLogicalPortNumList() <==> q in p.ingressLogicalPortNumsToPrincipals
    ensures Distinct(p.IngressLogicalPortNumList())
    ensures StrictlyIncreasing(p.IngressLogicalPortNumList())
  {
    SortedListMembers(p.ingressLogicalPortNumsToPrincipals.Keys);
    SortedListIncreasing(p.ingressLogicalPortNumsToPrincipals.Keys);
  }

  /** The first table of a principal whose list is `range(lo, hi)`. */
  lemma FirstTableOfRange(p: LogicalPortPrincipal, lo: int, hi: int)
    requires p.physicalTableList == Some(Range(lo, hi))
    ensures p.FirstPhysicalTable().Ok? <==> lo < hi
    ensures lo < hi ==> p.FirstPhysicalTable() == Ok(lo)
  {
  }

  /** The reply reports the principal's own counts whenever both are set. */
  lemma FeaturesReportOwnCounts(p: LogicalPortPrincipal)
    ensures p.Features().Ok? <==> p.physicalTableList.Some? && p.numBuffers.Some?
    ensures p.Features().Ok? ==>
              && p.Features().value.nTables == |p.physicalTableList.value|
              && p.Features().value.nBuffers == p.numBuffers.value
              && p.Features().value.capabilities == 71 && p.Features().value.auxiliaryId == 0
  {
  }

  // ---------------------------------------------------------------------
  // The flow-mod rewrite, abstractly
  // ---------------------------------------------------------------------

  /** A virtual table id names the physical table at that index. */
  predicate ValidVirtualTable(tables: seq<int>, v: int) {
    0 <= v < |tables|
  }

  /** Rewrites the table a flow mod writes to from virtual to physical. */
  function RewriteTableIds(msg: FlowModRequest, tables: seq<int>): (r: Result<FlowModRequest, TranslationError>) {
    if ValidVirtualTable(tables, msg.tableId) then Ok(msg.(tableId := tables[msg.tableId]))
    else Err(InvalidTableWrite(msg.tableId))
  }

  /** The first goto target that is not a virtual table, if any. */
  function FirstInvalidGoto(gotos: seq<int>, tables: seq<int>): (r: Option<int>)
    ensures r.None? <==> forall i :: 0 <= i < |gotos| ==> ValidVirtualTable(tables, gotos[i])
    ensures r.Some? ==> r.value in gotos && !ValidVirtualTable(tables, r.value)
  {
    if gotos == [] then None
    else if !ValidVirtualTable(tables, gotos[0]) then Some(gotos[0])
    else
      var rest := FirstInvalidGoto(gotos[1..], tables);
      assert forall i :: 1 <= i < |gotos| ==> gotos[i] == gotos[1..][i - 1];
      rest
  }

  /** Rewrites every goto target from virtual to physical. */
  function RewriteGotos(msg: FlowModRequest, tables: seq<int>): (r: Result<FlowModRequest, TranslationError>) {
    match FirstInvalidGoto(msg.gotoTables, tables)
    case Some(bad) => Err(InvalidGotoTable(bad))
    case None =>
      Ok(msg.(gotoTables := seq(|msg.gotoTables|, i requires 0 <= i < |msg.gotoTables| => tables[msg.gotoTables[i]])))
  }

  /** The first output port that is neither one of the principal's
      physical ports nor one of its egress logical ports, if any. */
  function FirstForeignPort(ports: seq<int>, physical: set<int>, egress: set<int>): (r: Option<int>)
    ensures r.None? <==> forall i :: 0 <= i < |ports| ==> ports[i] in physical || ports[i] in egress
    ensures r.Some? ==> r.value in ports && r.value !in physical && r.value !in egress
  {
    if ports == [] then None
    else if ports[0] !in physical && ports[0] !in egress then Some(ports[0])
    else
      var rest := FirstForeignPort(ports[1..], physical, egress);
      assert forall i :: 1 <= i < |ports| ==> ports[i] == ports[1..][i - 1];
      rest
  }

  /** Accepts a flow mod whose actions only output to the principal's own
      ports. */
  function CheckActionPorts(msg: FlowModRequest, physical: set<int>, egress: set<int>): (r: Result<FlowModRequest, TranslationError>) {
    match FirstForeignPort(msg.outputPorts, physical, egress)
    case Some(bad) => Err(InvalidActionPort(bad))
    case None => Ok(msg)
  }

  /** What the principal forwards: the flow mod is accepted exactly when
      its table and every goto are virtual tables of the principal and
      every output port is one of its physical or egress ports; the
      forwarded message names the physical tables at those indices. */
  lemma HandleFlowModSpec(p: LogicalPortPrincipal, msg: FlowModRequest)
    requires p.physicalTableList.Some?
    ensures var tables := p.physicalTableList.value;
            p.HandleFlowMod(msg).Ok? <==>
              && ValidVirtualTable(tables, msg.tableId)
              && (forall i :: 0 <= i < |msg.gotoTables| ==> ValidVirtualTable(tables, msg.gotoTables[i]))
              && (forall i :: 0 <= i < |msg.outputPorts| ==>
                    msg.outputPorts[i] in p.info.physicalPortSet || msg.outputPorts[i] in p.egressLogicalPortNumsToPrincipals)
    ensures var tables := p.physicalTableList.value;
            p.HandleFlowMod(msg).Ok? ==>
              && p.HandleFlowMod(msg).value.tableId == tables[msg.tableId]
              && |p.HandleFlowMod(msg).value.gotoTables| == |msg.gotoTables|
              && (forall i :: 0 <= i < |msg.gotoTables| ==>
                    p.HandleFlowMod(msg).value.gotoTables[i] == tables[msg.gotoTables[i]])
              && p.HandleFlowMod(msg).value.outputPorts == msg.outputPorts
  {
  }

  /** The steps run in order: a bad table id is reported whatever the
      gotos and ports are, and a bad goto whatever the ports are. */
  lemma HandleFlowModStepOrder(p: LogicalPortPrincipal, msg: FlowModRequest)
    requires p.physicalTableList.Some?
    ensures !ValidVirtualTable(p.physicalTableList.value, msg.tableId) ==>
              p.HandleFlowMod(msg) == Err(InvalidTableWrite(msg.tableId))
    ensures ValidVirtualTable(p.physicalTableList.value, msg.tableId)
            && FirstInvalidGoto(msg.gotoTables, p.physicalTableList.value).Some? ==>
              p.HandleFlowMod(msg) == Err(InvalidGotoTable(FirstInvalidGoto(msg.gotoTables, p.physicalTableList.value).value))
  {
  }

  /** The position of `t` in `tables`, if present. */
  function IndexOf(tables: seq<int>, t: int): (r: Option<nat>)
    ensures r.Some? ==> r.value < |tables| && tables[r.value] == t
    ensures r.None? ==> t !in tables
  {
    if tables == [] then None
    else if tables[0] == t then Some(0)
    else
      match IndexOf(tables[1..], t)
      case None => None
      case Some(i) => Some(i + 1)
  }

  /** Virtual ids are list indices: with ascending physical ids, the
      physical table of virtual id `v` maps back to `v`. */
  lemma VirtualPhysicalRoundTrip(tables: seq<int>, v: nat)
    requires StrictlyIncreasing(tables)
    requires v < |tables|
    ensures IndexOf(tables, tables[v]) == Some(v)
  {
    var i := IndexOf(tables, tables[v]);
    assert i.Some? && tables[i.value] == tables[v];
  }
}
