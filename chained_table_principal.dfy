/** `ChainedTablePrincipal` (src/chained_table_principal.py): a principal of
    the chained-table switch. It owns a block of early tables and a block
    of late tables, and one virtual port per other principal; traffic sent
    out of such a port continues in that principal's first late table. */
module ChainedTablePrincipalModule {
  import opened Wrappers
  import opened Lists
  import opened PrincipalsUtil
  import opened SwitchCommon

  /** The controller requests a chained-table principal does not handle yet. */
  datatype UnchainedRequest =
    | FeaturesRequest
    | DescStatsRequest
    | FlowModMessage(msg: FlowModRequest)

  class ChainedTablePrincipal {
    const info: PrincipalRecord
    /** Declared by the principal but never assigned by the chained-table
        switch. */
    var physicalTableList: Option<seq<int>>
    /** Physical ids of the early tables; a virtual table id is an index. */
    var earlyTableIds: Option<seq<int>>
    /** Physical ids of the late tables; a virtual table id is an index. */
    var lateTableIds: Option<seq<int>>
    /** Virtual port number -> the first late table of the principal that
        port leads to. */
    var egressLogicalPortNumToTableId: map<int, int>

    constructor (info: PrincipalRecord)
      ensures this.info == info
      ensures physicalTableList == None && earlyTableIds == None && lateTableIds == None
      ensures egressLogicalPortNumToTableId == map[]
    {
      this.info := info;
      physicalTableList := None;
      earlyTableIds := None;
      lateTableIds := None;
      egressLogicalPortNumToTableId := map[];
    }

    /** `add_table_ids`: stores both lists as given. */
    method AddTableIds(earlyTableIds: seq<int>, lateTableIds: seq<int>)
      modifies this`earlyTableIds, this`lateTableIds
      ensures this.earlyTableIds == Some(earlyTableIds) && this.lateTableIds == Some(lateTableIds)
    {
      this.earlyTableIds := Some(earlyTableIds);
      this.lateTableIds := Some(lateTableIds);
    }

    /** `get_first_late_table_physical_id`: element 0 of the late list
        (see `FirstTablesOfRanges`). */
    function FirstLateTablePhysicalId(): Result<int, LookupError>
      reads this`lateTableIds
    {
      FirstOf(lateTableIds)
    }

    /** `get_first_early_table_physical_id`: element 0 of the early list. */
    function FirstEarlyTablePhysicalId(): Result<int, LookupError>
      reads this`earlyTableIds
    {
      FirstOf(earlyTableIds)
    }

    /** `add_egress_logical_port_num_to_table_id`: walks the principals in
        list order, skips the one with this principal's id, and gives each
        other one the next virtual port number from `virtualPortStartId`
        on, mapped to that principal's first late table. A peer without a
        first late table stops the walk; the entries made before it stay. */
    method AddEgressLogicalPortNumToTableId(principalsList: seq<ChainedTablePrincipal>, virtualPortStartId: int)
        returns (outcome: Outcome<LookupError>)
      modifies this`egressLogicalPortNumToTableId
      ensures var heads := PeerHeads(principalsList, info.id, |principalsList|);
              && (outcome.Pass? <==> FirstFailure(heads) == |heads|)
              && (outcome.Fail? ==> FirstFailure(heads) < |heads| && outcome == Fail(heads[FirstFailure(heads)].error))
              && egressLogicalPortNumToTableId
                   == EgressEntries(old(egressLogicalPortNumToTableId), heads, FirstFailure(heads), virtualPortStartId)
    {
      ghost var heads := PeerHeads(principalsList, info.id, |principalsList|);
      ghost var m0 := egressLogicalPortNumToTableId;
      var nextId := virtualPortStartId;
      for i := 0 to |principalsList|
        invariant nextId - virtualPortStartId == |PeersBefore(principalsList, info.id, i)| <= |heads|
        invariant forall k :: 0 <= k < nextId - virtualPortStartId ==> heads[k].Ok?
        invariant egressLogicalPortNumToTableId == EgressEntries(m0, heads, nextId - virtualPortStartId, virtualPortStartId)
      {
        PeersStep(principalsList, i, info.id);
        var principal := principalsList[i];
        // no virtual port leading back to this principal
        if principal.info.id == info.id {
          continue;
        }
        var firstLateTblPhysId := principal.FirstLateTablePhysicalId();
        assert firstLateTblPhysId == heads[nextId - virtualPortStartId];
        if firstLateTblPhysId.Err? {
          FirstFailureAt(heads, nextId - virtualPortStartId);
          return Fail(firstLateTblPhysId.error);
        }
        SetEgressEntry(nextId, firstLateTblPhysId.value);
        nextId := nextId + 1;
      }
      FirstFailureAt(heads, |heads|);
      outcome := Pass;
    }

    /** One entry of the egress dictionary. */
    method SetEgressEntry(port: int, tableId: int)
      modifies this`egressLogicalPortNumToTableId
      ensures egressLogicalPortNumToTableId == old(egressLogicalPortNumToTableId)[port := tableId]
    {
      egressLogicalPortNumToTableId := egressLogicalPortNumToTableId[port := tableId];
    }

    /** `handle_features_request`, `handle_desc_stats_request` and
        `handle_flow_mod`: each only writes to the error log, so none
        changes the principal or sends anything. The desc-stats docstring
        promises a reply that the body does not send, and a flow mod is
        neither rewritten nor forwarded. */
    method HandleUnchainedRequest(request: UnchainedRequest) returns (sent: seq<SwitchMsg>)
      ensures sent == []
    {
      sent := [];
    }
  }

  /** Element 0 of a list the switch may not have set: Python raises on
      `None[0]` and on `[][0]`. */
  function FirstOf(tables: Option<seq<int>>): Result<int, LookupError> {
    match tables
    case None => Err(TableListNotSet)
    case Some(ts) => if |ts| == 0 then Err(EmptyList) else Ok(ts[0])
  }

  /** The first tables of a principal whose lists are `range(lo, hi)` and
      `range(lo', hi')`: present exactly when the range is not empty, and
      then its low end. */
  lemma FirstTablesOfRanges(p: ChainedTablePrincipal, earlyLo: int, earlyHi: int, lateLo: int, lateHi: int)
    requires p.earlyTableIds == Some(Range(earlyLo, earlyHi)) && p.lateTableIds == Some(Range(lateLo, lateHi))
    ensures p.FirstEarlyTablePhysicalId().Ok? <==> earlyLo < earlyHi
    ensures earlyLo < earlyHi ==> p.FirstEarlyTablePhysicalId() == Ok(earlyLo)
    ensures p.FirstLateTablePhysicalId().Ok? <==> lateLo < lateHi
    ensures lateLo < lateHi ==> p.FirstLateTablePhysicalId() == Ok(lateLo)
  {
  }

  /** The principals among the first `i` of `ps` other than the one with id
      `selfId`, in list order: the ones that receive a virtual port. */
  function PeersBefore(ps: seq<ChainedTablePrincipal>, selfId: nat, i: nat): seq<ChainedTablePrincipal>
    requires i <= |ps|
  {
    if i == 0 then []
    else PeersBefore(ps, selfId, i - 1) + (if ps[i - 1].info.id == selfId then [] else [ps[i - 1]])
  }

  /** The heads of the first `i` principals' peers come first among all
      the heads. */
  lemma {:induction false} PeerHeadsPrefix(ps: seq<ChainedTablePrincipal>, selfId: nat, i: nat, j: nat)
    requires i <= j <= |ps|
    ensures |PeerHeads(ps, selfId, i)| <= |PeerHeads(ps, selfId, j)|
    ensures forall k :: 0 <= k < |PeerHeads(ps, selfId, i)| ==> PeerHeads(ps, selfId, j)[k] == PeerHeads(ps, selfId, i)[k]
    decreases j
  {
    if i < j {
      PeerHeadsPrefix(ps, selfId, i, j - 1);
    }
  }

  /** One step of the walk over the principals: when `ps[i]` is a peer,
      its first late table is head number `|PeersBefore(ps, selfId, i)|`. */
  lemma PeersStep(ps: seq<ChainedTablePrincipal>, i: nat, selfId: nat)
    requires i < |ps|
    ensures |PeersBefore(ps, selfId, i + 1)| <= |PeersBefore(ps, selfId, |ps|)|
    ensures ps[i].info.id != selfId ==>
              PeerHeads(ps, selfId, |ps|)[|PeersBefore(ps, selfId, i)|] == ps[i].FirstLateTablePhysicalId()
  {
    PeerHeadsPrefix(ps, selfId, i + 1, |ps|);
  }

  /** The peers are exactly the principals with another id. */
  lemma {:induction false} PeersMembers(ps: seq<ChainedTablePrincipal>, selfId: nat, i: nat)
    requires i <= |ps|
    ensures forall q :: q in PeersBefore(ps, selfId, i) <==> q in ps[..i] && q.info.id != selfId
  {
    if i > 0 {
      PeersMembers(ps, selfId, i - 1);
      assert ps[..i] == ps[..i - 1] + [ps[i - 1]];
    }
  }

  /** When none of the first `i` principals has the id, all of them are
      peers. */
  lemma {:induction false} PeersOfStranger(ps: seq<ChainedTablePrincipal>, selfId: nat, i: nat)
    requires i <= |ps|
    requires forall y :: 0 <= y < i ==> ps[y].info.id != selfId
    ensures |PeersBefore(ps, selfId, i)| == i
  {
    if i > 0 {
      PeersOfStranger(ps, selfId, i - 1);
    }
  }

  /** With distinct ids, a principal of the list has one peer fewer than
      the list has principals: it gets N - 1 virtual ports. */
  lemma {:induction false} PeersOfMember(ps: seq<ChainedTablePrincipal>, x: nat, i: nat)
    requires x < i <= |ps|
    requires forall y, z :: 0 <= y < z < |ps| ==> ps[y].info.id != ps[z].info.id
    ensures |PeersBefore(ps, ps[x].info.id, i)| == i - 1
  {
    if x == i - 1 {
      PeersOfStranger(ps, ps[x].info.id, i - 1);
    } else {
      PeersOfMember(ps, x, i - 1);
    }
  }

  /** With distinct ids, peer k of principal x is the principal at position
      k before x and at position k + 1 from x on. */
  lemma {:induction false} PeerAt(ps: seq<ChainedTablePrincipal>, x: nat, i: nat, k: nat)
    requires x < |ps| && i <= |ps|
    requires forall y, z :: 0 <= y < z < |ps| ==> ps[y].info.id != ps[z].info.id
    requires k < |PeersBefore(ps, ps[x].info.id, i)|
    ensures (if k < x then k else k + 1) < i
    ensures PeersBefore(ps, ps[x].info.id, i)[k] == ps[if k < x then k else k + 1]
  {
    var selfId := ps[x].info.id;
    if k < |PeersBefore(ps, selfId, i - 1)| {
      PeerAt(ps, x, i - 1, k);
    } else if x < i - 1 {
      PeersOfMember(ps, x, i - 1);
    } else {
      PeersOfStranger(ps, selfId, i - 1);
    }
  }

  /** The first late table of each peer among the first `i` principals,
      in order. */
  function PeerHeads(ps: seq<ChainedTablePrincipal>, selfId: nat, i: nat): (r: seq<Result<int, LookupError>>)
    reads ps`lateTableIds
    requires i <= |ps|
    ensures |r| == |PeersBefore(ps, selfId, i)|
  {
    if i == 0 then []
    else PeerHeads(ps, selfId, i - 1) + (if ps[i - 1].info.id == selfId then [] else [ps[i - 1].FirstLateTablePhysicalId()])
  }

  /** Entry k of `PeerHeads` is the first late table of peer k. */
  lemma {:induction false} PeerHeadsOfPeers(ps: seq<ChainedTablePrincipal>, selfId: nat, i: nat)
    requires i <= |ps|
    ensures forall k :: 0 <= k < |PeersBefore(ps, selfId, i)| ==>
              PeerHeads(ps, selfId, i)[k] == PeersBefore(ps, selfId, i)[k].FirstLateTablePhysicalId()
  {
    if i > 0 {
      PeerHeadsOfPeers(ps, selfId, i - 1);
    }
  }

  /** When every principal has a first late table, none of the heads is
      missing. */
  lemma {:induction false} PeerHeadsPresent(ps: seq<ChainedTablePrincipal>, selfId: nat, i: nat)
    requires i <= |ps|
    requires forall y :: 0 <= y < |ps| ==> ps[y].FirstLateTablePhysicalId().Ok?
    ensures FirstFailure(PeerHeads(ps, selfId, i)) == |PeerHeads(ps, selfId, i)|
  {
    if i > 0 {
      PeerHeadsPresent(ps, selfId, i - 1);
    }
    FirstFailureAt(PeerHeads(ps, selfId, i), |PeerHeads(ps, selfId, i)|);
  }

  /** The position of the first failed lookup, or the length when none
      failed. */
  function FirstFailure(heads: seq<Result<int, LookupError>>): (r: nat)
    ensures r <= |heads|
    ensures forall k :: 0 <= k < r ==> heads[k].Ok?
    ensures r < |heads| ==> heads[r].Err?
  {
    if heads == [] || heads[0].Err? then 0 else 1 + FirstFailure(heads[1..])
  }

  /** The first failure is the first position holding one. */
  lemma FirstFailureAt(heads: seq<Result<int, LookupError>>, r: nat)
    requires r <= |heads|
    requires forall k :: 0 <= k < r ==> heads[k].Ok?
    requires r < |heads| ==> heads[r].Err?
    ensures FirstFailure(heads) == r
  {
  }

  /** The egress dictionary after the first `count` peers: virtual port
      `start + k` leads to the first late table of peer k. */
  function EgressEntries(m0: map<int, int>, heads: seq<Result<int, LookupError>>, count: nat, start: int): map<int, int>
    requires count <= |heads|
    requires forall k :: 0 <= k < count ==> heads[k].Ok?
  {
    if count == 0 then m0
    else EgressEntries(m0, heads, count - 1, start)[start + count - 1 := heads[count - 1].value]
  }

  /** The entries made are exactly the ports `start .. start + count - 1`,
      each holding its peer's first late table; every other entry is
      untouched. */
  lemma {:induction false} EgressEntriesLookup(m0: map<int, int>, heads: seq<Result<int, LookupError>>, count: nat, start: int)
    requires count <= |heads|
    requires forall k :: 0 <= k < count ==> heads[k].Ok?
    ensures forall v :: v in EgressEntries(m0, heads, count, start) <==> v in m0 || start <= v < start + count
    ensures forall v :: start <= v < start + count ==> EgressEntries(m0, heads, count, start)[v] == heads[v - start].value
    ensures forall v :: v in m0 && !(start <= v < start + count) ==> EgressEntries(m0, heads, count, start)[v] == m0[v]
  {
    if count > 0 {
      EgressEntriesLookup(m0, heads, count - 1, start);
    }
  }
}
