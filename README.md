# Pluribus bring-up, modelled in Dafny

Pluribus is a switch hypervisor. It shares one physical OpenFlow switch
among several principals, that is, tenant controllers. When the switch has
reported its ports and tables, the hypervisor makes one state transition,
from UNINITIALIZED to INSTALLING_HEAD_TABLES. In that transition it gives
each principal its own flow tables and ports. It then installs head-table
rules that steer each principal's traffic into that principal's tables, and
sends one barrier.

There are two switch variants:

- **Logical-port switch.** Principals are connected through loopback port
  pairs named `loopback_port_<k>_a` and `loopback_port_<k>_b`. Each
  principal owns a contiguous range of tables.
- **Chained-table switch.** Each principal owns a block of early tables and
  a block of late tables. Principals are connected through virtual port
  numbers that lead to a peer's first late table.

The model covers:

- the port classifier and the arithmetic between principal counts and pair
  counts (`PortUtil`);
- the principal record, its id counter and its dictionary form
  (`PrincipalsUtil`);
- the messages both switches send and their head-table rules
  (`SwitchCommon`);
- the logical-port principal and switch (`LogicalPortPrincipalModule`,
  `LogicalPortAllocation`, `LogicalPortSwitchModule`);
- the chained-table principal and switch (`ChainedTablePrincipalModule`,
  `ChainedTableLayout`, `ChainedTableSwitchModule`).

Python objects whose fields change in place become classes:

- ports;
- principals;
- both switches;
- the id counter.

The messages sent to the physical switch are a log field of the switch,
oldest message first. Each method is proved against a specification
function. Each `assert False` and each Python exception becomes an `Err` or
`Fail` outcome that names the error.

Conventions:

- Integer `/` in Python 2 floors. Dafny's `/` agrees with it for the
  positive divisors used here.
- `list()` over a set or over dictionary keys yields an order that Python
  leaves unspecified. The model uses ascending order. Properties that do
  not depend on order are stated on sets.
- `HEAD_TABLE_ID` is table 0, the table every packet enters first.
- Both switches call `add_flow_mod` and `send_barrier` and read `state`,
  `principals`, `switch_num_tables` and `port_name_number_list`. They also
  import `SwitchState` from `src/pluribus_switch.py`. That file defines
  none of these: its `PluribusSwitch` holds only `switch_dp` and a few event
  handlers. The model supplies them
  itself. It has its own `SwitchState` (the two named states plus `RUNNING`, which `principals/dummy.py` tests), the fields, and a log of
  sent messages. `add_flow_mod` appends a `FlowMod` to that log, and
  `send_barrier` appends a `Barrier`.
- The bring-up calls `set_num_buffers(5)` on each logical-port principal,
  but no class defines that method, and `num_buffers` is never assigned
  anywhere. As written, the call raises `AttributeError` (see Findings).
  The model uses a plain setter in its place.

## Model

| member | source | states |
|---|---|---|
| Lists.Range | src/logical_port_pluribus_switch.py:89-90 | Python's `range(lo, hi)` has hi-lo elements from lo upward, or none when hi <= lo. It holds exactly the integers in [lo, hi). |
| Lists.SortedListMembers | src/logical_port_principal.py:46-48 | The list of a set has one entry per element and holds exactly the set's elements. |
| Lists.SortedListIncreasing | src/logical_port_principal.py:46-48 | The list of a set is ascending, so no element repeats. |
| PortUtil.Port.constructor | src/port_util.py:74-80 | A port keeps its name and number. `is_physical` is unset and there is no partner, so `is_physical_has_been_set` is false. |
| PortUtil.Port.SetPhysical | src/port_util.py:82-83 | The port becomes physical and keeps its partner. The classification is then set. |
| PortUtil.Port.SetLogical | src/port_util.py:85-93 | The port becomes logical with the given partner. The classification is then set. |
| PortUtil.NatToString | src/port_util.py:113 | `str(k)` is a non-empty string of decimal digits. |
| PortUtil.DecimalValueOfNatToString | src/port_util.py:113 | `str(k)` is a digit string that reads back as `k`. |
| PortUtil.NatToStringInjective | src/port_util.py:108-120 | Different pair indices render as different strings. |
| PortUtil.ContainsIffOccurs | src/port_util.py:123 | Python's `in` on strings is true exactly when the pattern occurs at some position. |
| PortUtil.IsLoopbackPortIffPrefixOccurs | src/port_util.py:122-125 | A name is a loopback name exactly when `loopback_port_` occurs anywhere in it, not only at its start. |
| PortUtil.LoopbackNamesRecognised | src/port_util.py:108-125 | Both produced names of every pair are loopback names. |
| PortUtil.LoopbackNamesDistinct | src/port_util.py:108-120 | An `_a` name never equals a `_b` name. Two different pairs never share a name. |
| PortUtil.NumLogicalPortPairs | src/port_util.py:55-62 | Twice the pair count is n(n-1), so the division by 2 is exact. |
| PortUtil.NumLogicalPortPairsStep | src/port_util.py:55-62 | One more principal adds one pair per existing principal. |
| PortUtil.NumLogicalPortPairsMonotone | src/port_util.py:55-62 | More principals never need fewer pairs. |
| PortUtil.ISqrt | src/port_util.py:69 | The integer square root r satisfies r*r <= x < (r+1)*(r+1). |
| PortUtil.NumPrincipalsSupported | src/port_util.py:64-69 | The supported count n is at least 1, and C(n,2) <= p < C(n+1,2). |
| PortUtil.PairsPrincipalsRoundTrip | src/port_util.py:55-69 | The inverse applied to C(n,2) gives back n, for every n >= 1. |
| PortUtil.SupportedIffEnoughPairs | src/port_util.py:64-69 | The supported count is at least n exactly when there are at least C(n,2) pairs. |
| PortUtil.LastIndexNamed | src/port_util.py:36-40 | A found index holds a port with that name. |
| PortUtil.LastIndexNamedIsLast | src/port_util.py:36-40 | No later port has the name. Finding nothing means no port has it. |
| PortUtil.ScanForPair | src/port_util.py:33-40 | The inner loop yields the last port with each name, or none. |
| PortUtil.ScanStopIsUnique | src/port_util.py:27-44 | The index where the pair scan stops is fixed by the port names alone. |
| PortUtil.MarkPhysicalPorts | src/port_util.py:18-21 | Every port with a non-loopback name becomes physical. Nothing else changes. |
| PortUtil.LinkPair | src/port_util.py:50-52 | The two chosen halves become logical partners of each other. Every other port is left alone. |
| PortUtil.PairStep | src/port_util.py:28-48 | One scan step either finds neither half (stop), exactly one half (failure), or both halves, which it links. |
| PortUtil.ClassifiedOutcome | src/port_util.py:42-44 | When neither half of the next pair exists, the loop returns the `_a` halves found so far. |
| PortUtil.UnmatchedOutcome | src/port_util.py:46-48 | When exactly one half exists, the loop fails at that pair. |
| PortUtil.HalvesDistinct | src/port_util.py:52 | No port occurs twice in the returned list. |
| PortUtil.PairLoopbackPorts | src/port_util.py:27-52 | The pairing loop ends with every chosen pair linked. It either returns the `_a` halves up to the stop index, or fails at a pair with one half. |
| PortUtil.SetLogicalPhysical | src/port_util.py:3-52 | Non-loopback ports are physical. Element k is the last port named `loopback_port_k_a`, linked both ways with the last `_b` port. The list stops at the first pair with neither half, and no element repeats. Unchosen loopback ports are untouched. A pair with one half fails. |
| PortUtil.ChosenNumbersDistinct | src/port_util.py:27-52 | With unique port numbers, the chosen halves and partners carry pairwise different numbers: no half shares a number with any partner, and no two halves or two partners share one. |
| PortUtil.HarnessPairsFound | bin/start_v3_switch.py:46-55 | When the ports are the halves of pairs 0 .. C(n,2)-1, the scan finds exactly those pairs, and n principals are supported. |
| PrincipalsUtil.BindInitArguments | src/principals_util.py:6-7 | The base constructor accepts exactly three arguments. Any other count raises an error naming both counts. |
| PrincipalsUtil.SubclassSuperInitAsWrittenFails | src/logical_port_principal.py:13-15 | The subclasses pass four arguments, so building any principal as written fails. |
| PrincipalsUtil.PrincipalIdCounter.constructor | src/principals_util.py:5 | The counter starts at 0 and has issued no id. |
| PrincipalsUtil.PrincipalIdCounter.NewPrincipal | src/principals_util.py:6-17 | The three fields are stored unchanged. The id is the counter value, and the counter then grows by one. |
| PrincipalsUtil.IssuedIdsIncreasing | src/principals_util.py:16-17 | The issued ids are 0, 1, 2, ... in creation order, so they are distinct and strictly increasing. |
| PrincipalsUtil.ToDict | src/principals_util.py:19-30 | The dictionary has exactly the keys `physical_ports`, `listening_ip_addr` and `listening_port_addr`. |
| PrincipalsUtil.ToDictIgnoresId | src/principals_util.py:19-30 | The id is not serialised. |
| PrincipalsUtil.IntItemsNoneIff | src/principals_util.py:75 | The model's typed port list is rejected exactly when one of its items is not an integer. Python itself does not check item kinds (see Left out). |
| PrincipalsUtil.IntItemsOfJsonInts | src/principals_util.py:26 | A serialised port list reads back as the same list. |
| PrincipalsUtil.PrincipalRoundTrip | src/principals_util.py:19-30 | Rebuilding a serialised principal gives back its three fields. |
| PrincipalsUtil.ParseAcceptsIff | src/principals_util.py:67-77 | A dictionary is accepted exactly when its three keys are present and hold an integer list, a string and an integer. The port set is the set of listed ports, and the two listening fields are stored unchanged. The kind checks are the model's (see Left out). |
| PrincipalsUtil.MissingKeyReported | src/principals_util.py:74-77 | A missing key is reported as the first missing one, in the order the arguments are read. `physical_ports` is reported when absent. `listening_ip_addr` is reported when it is absent and the ports were accepted. `listening_port_addr` is reported when it is absent and the first two were accepted. A reported key is never in the dictionary. |
| PrincipalsUtil.PrincipalIdCounter.PrincipalFromJsonDict | src/principals_util.py:67-77 | It succeeds exactly when the dictionary parses. On success the fields come from the dictionary, the id is the counter value, and the counter grows by one. On error the parse error is returned and no id is used. |
| SwitchCommon.HeadTableRules | src/logical_port_pluribus_switch.py:136-145 | There is one head-table rule per port. |
| SwitchCommon.HeadTableRulesContents | src/logical_port_pluribus_switch.py:136-145 | Rule i matches port i. It is a priority-10 goto from table 0 to the first table. |
| SwitchCommon.HeadTableRulesAppend | src/logical_port_pluribus_switch.py:136-137 | The rules for two chained port lists are the rules for the first list followed by the rules for the second. |
| SwitchCommon.HeadTableRulesCover | src/logical_port_pluribus_switch.py:136-145 | A message is one of the rules exactly when it matches one of the ports with priority 10, from table 0, to the first table. |
| LogicalPortPrincipalModule.LogicalPortPrincipal.constructor | src/logical_port_principal.py:22-28 | There is no table list and no buffer count, and the three dictionaries are empty. |
| LogicalPortPrincipalModule.LogicalPortPrincipal.AddLogicalMapping | src/logical_port_principal.py:31-44 | The peer's id maps to the port, the port's number to the peer, and the partner's number to the peer. A missing port or partner stops part-way, as Python does. |
| LogicalPortPrincipalModule.LogicalPortPrincipal.AddLogicalMappingAsWritten | src/logical_port_principal.py:31-44 | As written, every call fails after the first two updates, and the egress dictionary never changes. |
| LogicalPortPrincipalModule.IngressListSorted | src/logical_port_principal.py:46-48 | The ingress list holds exactly the ingress keys, each once. |
| LogicalPortPrincipalModule.LogicalPortPrincipal.SetPhysicalTableList | src/logical_port_principal.py:50-55 | The list is stored unchanged. |
| LogicalPortPrincipalModule.LogicalPortPrincipal.SetNumBuffers | src/logical_port_pluribus_switch.py:96 | The buffer count is stored. This is the intended setter, which no class defines (see Findings). |
| LogicalPortPrincipalModule.FirstTableOfRange | src/logical_port_principal.py:57-64 | For a table list `range(lo, hi)`, the first table exists exactly when lo < hi, and it is then lo. |
| LogicalPortPrincipalModule.FeaturesReportOwnCounts | src/logical_port_principal.py:72-84 | The reply carries the principal's own table count and buffer count, capabilities 71 and auxiliary id 0. |
| LogicalPortPrincipalModule.FirstInvalidGoto | src/logical_port_principal.py:99 | No target is reported exactly when every goto names a virtual table. A reported target is a goto that names none. |
| LogicalPortPrincipalModule.FirstForeignPort | src/logical_port_principal.py:100-102 | No port is reported exactly when every output port is physical or egress. A reported port is neither. |
| LogicalPortPrincipalModule.HandleFlowModSpec | src/logical_port_principal.py:89-105 | A flow mod is forwarded exactly when its table, every goto and every output port belong to the principal. The forwarded message names the physical tables. |
| LogicalPortPrincipalModule.HandleFlowModStepOrder | src/logical_port_principal.py:97-102 | The table-id check runs first and the goto check second, whatever follows. |
| LogicalPortPrincipalModule.IndexOf | src/logical_port_principal.py:17-21 | A found position holds the table. Otherwise the table is absent. |
| LogicalPortPrincipalModule.VirtualPhysicalRoundTrip | src/logical_port_principal.py:17-21 | With ascending tables, the physical table of virtual id v maps back to v. |
| LogicalPortAllocation.TableRangesPartition | src/logical_port_pluribus_switch.py:81-90 | Each range has k tables. None contains table 0 or a table at or beyond T. Ranges of different principals are disjoint. |
| LogicalPortAllocation.RowStartClosed | src/logical_port_pluribus_switch.py:100-109 | The pairs in rows below i number i(2n-i-1)/2. |
| LogicalPortAllocation.RowsHoldAllPairs | src/logical_port_pluribus_switch.py:100-109 | All rows together hold C(n,2) pairs. |
| LogicalPortAllocation.RankBounds | src/logical_port_pluribus_switch.py:100-109 | Pair (i,j) takes an index within row i and below C(n,2). |
| LogicalPortAllocation.RankInjective | src/logical_port_pluribus_switch.py:100-109 | Two different pairs of principals never take the same loopback pair. |
| LogicalPortAllocation.RankOnto | src/logical_port_pluribus_switch.py:100-109 | Every loopback pair below C(n,2) is taken by some pair of principals. |
| LogicalPortAllocation.PeerPortsDistinct | src/logical_port_pluribus_switch.py:106-112 | Two peers of a principal are reached through ports with different numbers. |
| LogicalPortAllocation.MapsAfterPortLookup | src/logical_port_principal.py:37-44 | After mapping, a principal receives from each mapped peer on its half, and sends to that peer through the peer's half. |
| LogicalPortAllocation.MapsAfterLookup | src/logical_port_principal.py:37-44 | After mapping, a principal receives from a peer on its half, sends through the peer's half, and records its half under the peer's id. |
| LogicalPortAllocation.MapsAfterKeys | src/logical_port_principal.py:37-44 | Mapping adds exactly one key per peer to each dictionary. |
| LogicalPortAllocation.EgressMatchesPeerIngress | src/logical_port_pluribus_switch.py:106-112 | The port x sends to y through is the port on which y receives from x. |
| LogicalPortAllocation.BeforePairIsMapsAfter | src/logical_port_pluribus_switch.py:100-112 | Seen from one principal, the nested loops map exactly its peers, in ascending order. |
| LogicalPortAllocation.RowOf | src/logical_port_pluribus_switch.py:100-109 | An index below the start of row i0 lies in exactly one earlier row i. |
| LogicalPortAllocation.ShortfallPair | src/logical_port_pluribus_switch.py:100-109 | Every index below C(n,2) is the rank of a pair (i,j) with i < j < n. |
| LogicalPortAllocation.BeforePairStep | src/logical_port_pluribus_switch.py:103-112 | Mapping pair (i,j) turns the dictionaries before that pair into the dictionaries before the next pair. |
| LogicalPortAllocation.ShortfallAtPair | src/logical_port_pluribus_switch.py:103-109 | When pair (i,j) finds no loopback pair, there are fewer than C(n,2) halves. The dictionaries are then the ones mapped before (i,j). |
| LogicalPortAllocation.AllMappedIndex | src/logical_port_pluribus_switch.py:100-112 | After all rows, principal x holds the dictionaries of all its peers. |
| LogicalPortAllocation.PairStepIsMapsAfter | src/logical_port_pluribus_switch.py:111-112 | Mapping pair (i,j) adds one peer to i and one to j, and leaves every other principal alone. |
| LogicalPortSwitchModule.LogicalPortSwitch.constructor | src/logical_port_pluribus_switch.py:18-19 | The switch starts UNINITIALIZED, with no halves, no support count and an empty log. |
| LogicalPortSwitchModule.LogicalPortSwitch.InitRecvPortStatsResponseConfig | src/logical_port_pluribus_switch.py:21-43 | The port list is stored. The ports end as `set_logical_physical` leaves them (`PairingOutcome`): non-loopback ports are physical with their partners kept, each chosen pair is linked and logical, and unchosen loopback ports are untouched. An unmatched half fails, naming its pair, with the earlier pairs linked and the halves, partners and count unchanged. Otherwise each half is the `_a` port of its pair and its recorded partner is that pair's `_b` port; they are linked and the numbers all differ. The supported count is recorded, and bring-up passes exactly when C(N,2) <= pairs, else it fails naming both counts. |
| LogicalPortSwitchModule.LogicalPortSwitch.RecordClassification | src/logical_port_pluribus_switch.py:29-41 | From a classification, an unmatched half fails with the halves, partners and count unchanged. Otherwise the halves are recorded with their `_b` partners, linked and with distinct numbers, and the count check follows. |
| LogicalPortSwitchModule.LogicalPortSwitch.RecordHalves | src/logical_port_pluribus_switch.py:29-41 | The port list, the halves, their partners and the supported count are stored. The check passes exactly when C(N,2) <= pairs. Otherwise it fails and names both counts. |
| LogicalPortSwitchModule.LogicalPortSwitch.TransitionFromUninitialized | src/logical_port_pluribus_switch.py:45-120 | From any other state it fails and changes nothing. Otherwise the state becomes INSTALLING_HEAD_TABLES. Zero principals fail with a zero division and no message. Otherwise it is `Configured`. With enough loopback pairs, every two principals end up connected: x sends to y through the port on which y receives from x. |
| LogicalPortSwitchModule.LogicalPortSwitch.ConfigurePrincipals | src/logical_port_pluribus_switch.py:74-120 | It establishes `Configured`. Each principal i owns `range(1+i*k, 1+(i+1)*k)`. The pairs are mapped in full, or up to the first missing one. It passes exactly when there are enough pairs and k > 0. On success the log gains every rule and then one barrier. On failure the log is unchanged. |
| LogicalPortSwitchModule.LogicalPortSwitch.ConfiguredOnceConnected | src/logical_port_pluribus_switch.py:84-120 | Once the tables are assigned, a connection that fails sends no message, and it passes exactly when there are enough pairs and k > 0. |
| LogicalPortSwitchModule.LogicalPortSwitch.PeersConnected | src/logical_port_pluribus_switch.py:99-112 | Once all pairs are mapped over halves with distinct numbers, each principal x sends to y through the port on which y receives from x. |
| LogicalPortSwitchModule.LogicalPortSwitch.AssignTables | src/logical_port_pluribus_switch.py:84-96 | Principal i owns `range(1+i*k, 1+(i+1)*k)` and 5 buffers. This is the intended loop. |
| LogicalPortSwitchModule.LogicalPortSwitch.AssignTablesAsWritten | src/logical_port_pluribus_switch.py:89-96 | As written, with any principal, only principal 0's table list is set. The transition then stops with `AttributeError` on `set_num_buffers`. |
| LogicalPortSwitchModule.LogicalPortSwitch.FirstTablesKnownIff | src/logical_port_pluribus_switch.py:134 | Every principal has a first table exactly when k > 0. |
| LogicalPortSwitchModule.LogicalPortSwitch.ConnectPrincipals | src/logical_port_pluribus_switch.py:99-120 | It establishes `Connection`. Too few pairs fail at the first missing index, with the earlier pairs mapped and no message sent. Otherwise the log gains the rules of every principal up to the first one without a first table. It fails there, or gains one barrier and passes. |
| LogicalPortSwitchModule.LogicalPortSwitch.AssignLogicalPorts | src/logical_port_pluribus_switch.py:99-112 | It passes exactly when C(N,2) <= halves, and every principal then holds the dictionaries of all its pairs. Otherwise it fails at the first missing index, with the dictionaries of exactly the pairs ranked before it. |
| LogicalPortSwitchModule.LogicalPortSwitch.MapRow | src/logical_port_pluribus_switch.py:103-112 | Row i maps each pair (i,j) in turn. On success it reaches the start of row i+1. If the halves run out it fails, with the pairs before the missing one mapped. |
| LogicalPortSwitchModule.LogicalPortSwitch.MapPair | src/logical_port_pluribus_switch.py:106-112 | Mapping pair (i,j) turns the dictionaries before that pair into those before the next. i records j through the `_a` half, j records i through its partner, and every other principal is unchanged. |
| LogicalPortSwitchModule.LogicalPortSwitch.AssignLogicalPortsAsWritten | src/logical_port_pluribus_switch.py:99-108 | As written, with two or more principals, the first pair fails: with an `IndexError` when there are no halves, else with `AttributeError` on `get_partner`. |
| LogicalPortSwitchModule.LogicalPortSwitch.InstallHeadTables | src/logical_port_pluribus_switch.py:114-120 | It passes exactly when every principal has a first table, and the log gains every rule and then one barrier. Otherwise it fails with the rules of the principals before the first without a table. |
| LogicalPortSwitchModule.LogicalPortSwitch.SendHeadTableFlowMods | src/logical_port_pluribus_switch.py:116-117 | It passes exactly when every principal has a first table. The log gains the rules of every principal before the first one without a table, in list order, which is all of them on success. |
| LogicalPortSwitchModule.LogicalPortSwitch.SendHeadTableFlowMod | src/logical_port_pluribus_switch.py:123-148 | An empty table list fails before any rule is sent. Otherwise the log gains the principal's rules. |
| LogicalPortSwitchModule.LogicalPortSwitch.SendBarrier | src/logical_port_pluribus_switch.py:120 | One barrier is appended. |
| LogicalPortSwitchModule.MapsOfIndex | src/logical_port_principal.py:24-28 | Entry x holds principal x's three dictionaries. |
| LogicalPortSwitchModule.FirstWithoutTable | src/logical_port_pluribus_switch.py:116-117 | Every principal before the returned position has a first table, and the one at it (if any) has none. |
| LogicalPortSwitchModule.FirstWithoutTableIs | src/logical_port_pluribus_switch.py:116-117 | The first principal without a first table is the position where the loop stops. |
| LogicalPortSwitchModule.PartnersOfHalves | src/logical_port_pluribus_switch.py:21-41 | The halves the classifier returns have partners that are linked to them and whose numbers all differ. |
| LogicalPortSwitchModule.PrincipalHeadRulesCover | src/logical_port_pluribus_switch.py:130-145 | There is exactly one rule per ingress logical port and per physical port. Each is a priority-10 goto from table 0 to the principal's first table. |
| LogicalPortSwitchModule.AllHeadRulesAreFlowMods | src/logical_port_pluribus_switch.py:116-120 | The head-table phase sends no barrier, so the final barrier is the only one and comes after all rules. |
| ChainedTableLayout.ShareBounds | src/chained_table_pluribus_switch.py:42-58 | With 2N+1 <= T, each principal's share is at least 1 and all shares fit in the early half. |
| ChainedTableLayout.LayoutSound | src/chained_table_pluribus_switch.py:53-74 | Each principal gets `per` early tables in [1, 1+num_early) and `per` late tables in [1+num_early, T). Blocks of different principals are disjoint. |
| ChainedTableLayout.FirstTablesOfLayout | src/chained_table_pluribus_switch.py:61-71 | Principal i's first early table is 1+i*per, and its first late table is 1+num_early+i*per. |
| ChainedTableLayout.EarlyTablesAsWrittenShort | src/chained_table_pluribus_switch.py:63-64 | As written, principal 0 gets per-1 early tables and every later principal gets none. |
| ChainedTableLayout.LateTablesAsWrittenOverflow | src/chained_table_pluribus_switch.py:66-71 | As written, with three or more principals the last one's late tables all lie at or beyond T. |
| ChainedTableLayout.NineTablesTwoPrincipals | src/chained_table_pluribus_switch.py:53-74 | For T=9 and N=2, the written blocks are [1], [] and [9,10]. The intended blocks are [1,2], [3,4] and [7,8]. |
| ChainedTablePrincipalModule.ChainedTablePrincipal.constructor | src/chained_table_principal.py:20-27 | No table lists are set, and the egress dictionary is empty. |
| ChainedTablePrincipalModule.ChainedTablePrincipal.AddTableIds | src/chained_table_principal.py:30-32 | Both lists are stored unchanged. |
| ChainedTablePrincipalModule.FirstTablesOfRanges | src/chained_table_principal.py:54-58 | For ranges, the first early and late tables exist exactly when the range is non-empty, and each is then the low end. |
| ChainedTablePrincipalModule.ChainedTablePrincipal.AddEgressLogicalPortNumToTableId | src/chained_table_principal.py:34-52 | Walking the list and skipping itself, port start+k maps to peer k's first late table. A peer with no late table stops the walk, and the entries made before it stay. |
| ChainedTablePrincipalModule.ChainedTablePrincipal.SetEgressEntry | src/chained_table_principal.py:50-51 | One key is set and every other entry is kept. |
| ChainedTablePrincipalModule.EgressEntriesLookup | src/chained_table_principal.py:43-52 | The new keys are exactly start .. start+count-1, each holding its peer's first late table. Other entries are untouched. |
| ChainedTablePrincipalModule.PeersMembers | src/chained_table_principal.py:43-46 | The peers are exactly the listed principals with another id. |
| ChainedTablePrincipalModule.PeersOfMember | src/chained_table_principal.py:43-46 | With distinct ids, a listed principal has N-1 peers. |
| ChainedTablePrincipalModule.PeersOfStranger | src/chained_table_principal.py:43-46 | A principal not in the list has every listed principal as a peer. |
| ChainedTablePrincipalModule.PeerAt | src/chained_table_principal.py:43-52 | Peer k of principal x is list entry k before x and entry k+1 from x on. |
| ChainedTablePrincipalModule.PeerHeadsOfPeers | src/chained_table_principal.py:48-49 | Head k is peer k's first late table. |
| ChainedTablePrincipalModule.PeersStep | src/chained_table_principal.py:43-49 | When list entry i is a peer, its first late table is the head at that peer's position. |
| ChainedTablePrincipalModule.PeerHeadsPresent | src/chained_table_principal.py:48-49 | When every principal has a first late table, no head lookup fails. |
| ChainedTablePrincipalModule.FirstFailure | src/chained_table_principal.py:48-49 | Every lookup before the first failure succeeded, and the one at it failed. |
| ChainedTablePrincipalModule.ChainedTablePrincipal.HandleUnchainedRequest | src/chained_table_principal.py:62-87 | A features request, a desc-stats request and a flow mod are only logged. Nothing is sent: not the desc-stats reply the docstring promises, and not the flow mod. |
| ChainedTableSwitchModule.FindFirstVirtualPortNumber | src/chained_table_pluribus_switch.py:80-84 | The scan returns one more than the highest port number, or 0 when there are no ports. |
| ChainedTableSwitchModule.FirstVirtualPortAboveAll | src/chained_table_pluribus_switch.py:80-84 | The first virtual port is at least 0 and above every real port, and it is 0 or one more than some port's number. |
| ChainedTableSwitchModule.HeadRulesCover | src/chained_table_pluribus_switch.py:92-93 | A message is a head rule exactly when it matches a physical port of some principal and goes to that principal's first early table, with priority 10, from table 0. |
| ChainedTableSwitchModule.ChainedTableSwitch.constructor | src/chained_table_pluribus_switch.py:16-18 | The switch starts UNINITIALIZED with an empty log. |
| ChainedTableSwitchModule.ChainedTableSwitch.TransitionFromUninitialized | src/chained_table_pluribus_switch.py:21-96 | The state becomes INSTALLING_HEAD_TABLES with no check. 2N+1 > T fails with nothing else changed, and zero principals fail with a zero division. Otherwise it establishes `Configured`: tables, egress dictionaries, rules and then one barrier. |
| ChainedTableSwitchModule.ChainedTableSwitch.ConfigurePrincipals | src/chained_table_pluribus_switch.py:53-96 | The tables, the egress dictionaries, and the log of rules followed by the barrier. |
| ChainedTableSwitchModule.ChainedTableSwitch.AssignTables | src/chained_table_pluribus_switch.py:60-74 | Principal i gets early tables `range(1+i*per, 1+i*per+per)` and late tables offset by num_early. This is the corrected layout. |
| ChainedTableSwitchModule.ChainedTableSwitch.TablesAssignedFirsts | src/chained_table_pluribus_switch.py:60-74 | With per >= 1, every principal's first early table is 1+i*per and it has a first late table. |
| ChainedTableSwitchModule.ChainedTableSwitch.InstallRoutes | src/chained_table_pluribus_switch.py:78-96 | Every egress dictionary is built from the first virtual port, and the log gains the rules and then the barrier. |
| ChainedTableSwitchModule.ChainedTableSwitch.AssignEgress | src/chained_table_pluribus_switch.py:86-89 | Every principal holds the egress dictionary its walk builds. |
| ChainedTableSwitchModule.ChainedTableSwitch.AddEgressOf | src/chained_table_pluribus_switch.py:88-89 | One principal's walk builds its dictionary completely. |
| ChainedTableSwitchModule.ChainedTableSwitch.AllPeerHeadsPresent | src/chained_table_principal.py:48-49 | When every principal has a first late table, no walk fails. |
| ChainedTableSwitchModule.ChainedTableSwitch.SendHeadTableFlowMods | src/chained_table_pluribus_switch.py:92-93 | The log gains every principal's rules in list order. |
| ChainedTableSwitchModule.ChainedTableSwitch.SendHeadTableFlowMod | src/chained_table_pluribus_switch.py:100-118 | An empty early list fails before any rule is sent. Otherwise there is one rule per physical port, to the first early table. |
| ChainedTableSwitchModule.ChainedTableSwitch.SendBarrier | src/chained_table_pluribus_switch.py:96 | One barrier is appended. |
| ChainedTableSwitchModule.ChainedTableSwitch.ConfiguredTables | src/chained_table_pluribus_switch.py:53-74 | After the transition, every principal owns `per >= 1` early and late tables in their halves. No two principals share a table, and table 0 is never handed out. |
| ChainedTableSwitchModule.ChainedTableSwitch.ConfiguredEgress | src/chained_table_pluribus_switch.py:78-89 | After the transition, principal x has ports first .. first+N-2, all above every real port. Port first+k leads to the first late table of the principal at position k (before x) or k+1 (from x on). |
| ChainedTableSwitchModule.ChainedTableSwitch.ConfiguredHeads | src/chained_table_principal.py:43-55 | Principal x's walk meets N-1 peers, all with first late tables, in list order. |
| ChainedTableSwitchModule.ChainedTableSwitch.FirstLateOfAssigned | src/chained_table_pluribus_switch.py:66-68 | Once the tables are assigned, principal y's first late table is 1+num_early+y*per. |
| ChainedTableSwitchModule.ChainedTableSwitch.ConfiguredLog | src/chained_table_pluribus_switch.py:91-96 | The log extends the old log and ends with the barrier. A new message before the barrier is exactly a head rule for some principal's physical port. |

## Left out

- The floating-point `math.sqrt` in `num_principals_from_num_logical_port_pairs` is replaced by an integer square root. The source only compares the result with an integer. For an integer N, floor(r) < N holds exactly when r < N. Float rounding for huge pair counts is not modelled.
- Saving and loading principals to and from files, and the JSON text form, are file and string I/O. Only the dictionary level is modelled. As written, `save_principals_to_json_file` joins the method objects instead of calling `to_json_str`, and `load_principals_from_json_file` opens the undefined `fileame` and calls `json.dumps` instead of `json.loads`. These are not modelled.
- Logging, `_debug_print_ports`, the OpenFlow wire encoding, `send_msg`, sockets, the principal connections and the ryu event plumbing are I/O. The event handlers and `switch_dp` of `PluribusSwitch` in `src/pluribus_switch.py` are not part of this model. The state enum, the switch fields, `add_flow_mod` and `send_barrier` are not defined there. They are supplied by the model (see the conventions above).
- `HEAD_TABLE_ID` is imported from `conf.py`, which does not define it. Table 0 is used.
- Python's set and dictionary iteration order is replaced by ascending order.
- `LogicalPortSwitchModule.LogicalPortSwitch.Halves`: reads as no halves before the ports are classified, so a transition run first fails with `MissingLogicalPortPair(0)`. Python would raise `TypeError` on `None[0]` instead. Both are failures; the model does not tell them apart.
- `rewrite_table_ids`, `rewrite_gotos` and `rewrite_action_ports` are methods of the extended flow-mod message; `parser/extended_v3_parser.py` does not define them. They are modelled abstractly: a virtual table id is a list index, an invalid table or goto raises, and an output port must be physical or egress. The exception messages are not modelled.
- The features reply is modelled by its contents. The datapath handle and the sending are left out.
- The chained-table principal's `physical_table_list` is declared but never set by the chained switch. It stays unset.
- `ChainedTableSwitchModule.ChainedTableSwitch.AssignTables`: models the corrected block layout, not the loop as written. The written blocks are stated by `ChainedTableLayout.EarlyTablesAsWritten` and `ChainedTableLayout.LateTablesAsWritten` (see Findings).
- `LogicalPortSwitchModule.LogicalPortSwitch.MapPair`: reads `partner`, not `get_partner()` as written (see Findings).
- `LogicalPortPrincipalModule.LogicalPortPrincipal.AddLogicalMapping`: reads the partner's number from `partner_port`, not from the undefined `parnter_port` (see Findings).
- Principals hold no reference to their switch. A forwarded flow mod is the result of `HandleFlowMod` rather than a call to the switch.
- Port numbers are assumed distinct, as the switch reports each port once. From that, the distinct numbers of the chosen halves and partners are proved. Principal ids are assumed distinct, as the id counter guarantees.
- `LogicalPortPrincipalModule.LogicalPortPrincipal.SetNumBuffers`: stands for `set_num_buffers`, which no class defines. As written, the call fails (see Findings). The rest of the model uses the setter.
- `PrincipalsUtil.IntItemsNoneIff`: `sets.ImmutableSet` accepts any iterable of hashable items, such as strings. The model types the port list as integers and rejects other items, which Python would store.
- `PrincipalsUtil.ParseAcceptsIff`: Python stores the listening address and port as they are, of any kind. It raises only `KeyError` for a missing key and `TypeError` for a ports value that is not an iterable of hashable items. The model types the three fields (integer list, string, integer) and rejects other kinds with `UnsupportedValue`.
- `PrincipalsUtil.MissingKeyReported`: a missing later key is pinned only when the earlier values are of the model's kinds, since the model checks each value right after its key.
- `PrincipalsUtil.PrincipalIdCounter.PrincipalFromJsonDict`: its error cases include the `UnsupportedValue` kinds Python would accept, as for `ParseAcceptsIff`.

## Findings

| source | as written | input that shows it | evidently intended | confidence | as-written member | corrected member |
|---|---|---|---|---|---|---|
| src/logical_port_principal.py:43 | the egress update reads `parnter_port`, which is undefined | any call of `add_logical_mapping` | read `partner_port` from line 37 | not executed | LogicalPortPrincipalModule.LogicalPortPrincipal.AddLogicalMappingAsWritten | LogicalPortPrincipalModule.LogicalPortPrincipal.AddLogicalMapping |
| src/chained_table_pluribus_switch.py:63-64 | early tables are `range(idx, per)` | T=9, N=2: principal 0 gets [1], principal 1 gets [] | `range(idx, idx + per)` | not executed | ChainedTableLayout.EarlyTablesAsWrittenShort | ChainedTableLayout.LayoutSound |
| src/chained_table_pluribus_switch.py:71 | the index advances by `num_early_tables` | T=9, N=2: principal 1's late tables are [9, 10], beyond table 8 | advance by `per` | not executed | ChainedTableLayout.NineTablesTwoPrincipals | ChainedTableLayout.FirstTablesOfLayout |
| src/logical_port_principal.py:13-15 | the base constructor is called with 4 arguments, but it takes 3 | building any principal | pass the three fields only | not executed | PrincipalsUtil.SubclassSuperInitAsWrittenFails | PrincipalsUtil.PrincipalIdCounter.NewPrincipal |
| src/logical_port_pluribus_switch.py:108 | `logical_port_a.get_partner()`, which ports do not define | two principals and one loopback pair | read `logical_port_a.partner` | not executed | LogicalPortSwitchModule.LogicalPortSwitch.AssignLogicalPortsAsWritten | LogicalPortSwitchModule.LogicalPortSwitch.MapPair |
| src/logical_port_pluribus_switch.py:96 | `principal.set_num_buffers(5)`, which no principal class defines; `num_buffers` is never assigned | one principal | store 5 as the principal's buffer count | not executed | LogicalPortSwitchModule.LogicalPortSwitch.AssignTablesAsWritten | LogicalPortSwitchModule.LogicalPortSwitch.AssignTables |
