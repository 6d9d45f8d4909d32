/** What both switch variants share: the bring-up state, the messages the
    hypervisor sends to the physical switch, the head-table rules that
    steer each principal's traffic, and the ways bring-up fails. */
module SwitchCommon {

  /** The bring-up states. The switches name `SwitchState.UNINITIALIZED`
      and `INSTALLING_HEAD_TABLES`. `principals/dummy.py` also tests
      `SwitchState.RUNNING`, which the bring-up never sets. The switches
      import the enum from `pluribus_switch.py`, which does not define it,
      so it is supplied here. */
  datatype SwitchState = Uninitialized | InstallingHeadTables | Running

  /** The table every packet enters first; the hypervisor owns it. */
  const HEAD_TABLE_ID: int := 0

  /** The priority of every head-table rule (their matches are disjoint). */
  const HEAD_RULE_PRIORITY: int := 10

  /** A message to the physical switch: a rule matching `in_port` whose
      only instruction is a goto (`add_flow_mod`), or a barrier
      (`send_barrier`). */
  datatype SwitchMsg =
    | FlowMod(tableId: int, inPort: int, gotoTable: int, priority: int)
    | Barrier

  /** The head-table rules for one principal: one rule per port, in the
      order given, each sending the port's packets to `firstTable`. */
  function HeadTableRules(ports: seq<int>, firstTable: int): (r: seq<SwitchMsg>)
    ensures |r| == |ports|
  {
    if ports == [] then []
    else HeadTableRules(ports[..|ports| - 1], firstTable)
         + [FlowMod(HEAD_TABLE_ID, ports[|ports| - 1], firstTable, HEAD_RULE_PRIORITY)]
  }

  /** Rule `i` matches port `i`. */
  lemma {:induction false} HeadTableRulesContents(ports: seq<int>, firstTable: int)
    ensures forall i :: 0 <= i < |ports| ==>
              HeadTableRules(ports, firstTable)[i] == FlowMod(HEAD_TABLE_ID, ports[i], firstTable, HEAD_RULE_PRIORITY)
  {
    if ports != [] {
      var front := ports[..|ports| - 1];
      HeadTableRulesContents(front, firstTable);
      assert forall i :: 0 <= i < |front| ==> front[i] == ports[i];
    }
  }

  /** The rules for the ports `xs + ys` are those for `xs` followed by those
      for `ys`. */
  lemma {:induction false} HeadTableRulesAppend(xs: seq<int>, ys: seq<int>, firstTable: int)
    ensures HeadTableRules(xs + ys, firstTable) == HeadTableRules(xs, firstTable) + HeadTableRules(ys, firstTable)
  {
    var l, r := HeadTableRules(xs + ys, firstTable), HeadTableRules(xs, firstTable) + HeadTableRules(ys, firstTable);
    HeadTableRulesContents(xs + ys, firstTable);
    HeadTableRulesContents(xs, firstTable);
    HeadTableRulesContents(ys, firstTable);
    assert |l| == |r|;
    forall i | 0 <= i < |l|
      ensures l[i] == r[i]
    {
      if i < |xs| {
        assert (xs + ys)[i] == xs[i];
      } else {
        assert (xs + ys)[i] == ys[i - |xs|];
      }
    }
  }

  /** A port has a head-table rule exactly when it is one of the ports,
      and every rule is a priority-10 goto to `firstTable` in the head
      table. */
  lemma HeadTableRulesCover(ports: seq<int>, firstTable: int, m: SwitchMsg)
    ensures m in HeadTableRules(ports, firstTable) <==>
              m.FlowMod? && m.inPort in ports && m.tableId == HEAD_TABLE_ID
              && m.gotoTable == firstTable && m.priority == HEAD_RULE_PRIORITY
  {
    var r := HeadTableRules(ports, firstTable);
    HeadTableRulesContents(ports, firstTable);
    if m in r {
      var i :| 0 <= i < |r| && r[i] == m;
      assert m.inPort == ports[i];
    }
    if m.FlowMod? && m.inPort in ports && m.tableId == HEAD_TABLE_ID
       && m.gotoTable == firstTable && m.priority == HEAD_RULE_PRIORITY {
      var i :| 0 <= i < |ports| && ports[i] == m.inPort;
      assert r[i] == m;
    }
  }

  /** A flow mod a principal's controller sends, reduced to the parts the
      hypervisor inspects: the table it is written to, the tables its goto
      instructions name, and the ports its actions output to. */
  datatype FlowModRequest = FlowModRequest(tableId: int, gotoTables: seq<int>, outputPorts: seq<int>)

  /** Why a principal cannot answer: a list or field the switch has not
      set yet (Python raises on `None`), or element 0 of an empty list. */
  datatype LookupError = TableListNotSet | BuffersNotSet | EmptyList

  /** Why bring-up stops. Each is an `assert False` or an exception the
      source does not catch. */
  datatype BringUpError =
    | UnexpectedState(state: SwitchState)             // transition out of a state other than UNINITIALIZED
    | UnmatchedLoopbackHalf(pairIndex: nat)           // only one half of a loopback pair exists
    | NotEnoughLogicalPorts(canSupport: int, requested: int)
    | MissingLogicalPortPair(index: nat)              // indexing past the list of pair halves
    | InsufficientTables(numTables: int, numPrincipals: int)
    | ZeroDivision                                    // no principals to divide the tables among
    | EmptyTableList                                  // `[0]` of an empty table list (IndexError)
    | MissingAttribute(name: string)                  // a method no class defines (AttributeError)
}
