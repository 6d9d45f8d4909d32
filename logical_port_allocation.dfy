/** The arithmetic and the bookkeeping of the logical-port switch's
    bring-up (src/logical_port_pluribus_switch.py), stated on values: the
    table range of each principal, the order in which pairs of principals
    consume loopback pairs, and the dictionaries each principal ends up
    with. */
module LogicalPortAllocation {
  import opened Lists
  import opened PortUtil
  import opened PrincipalsUtil
  import opened LogicalPortPrincipalModule

  // ---------------------------------------------------------------------
  // Physical tables
  // ---------------------------------------------------------------------

  /** `floor((switch_num_tables - 1) / len(principals))`: one table is kept
      for the head table and the rest is shared out equally. */
  function TablesPerPrincipal(numTables: int, numPrincipals: nat): int
    requires numPrincipals > 0
  {
    (numTables - 1) / numPrincipals
  }

  /** The tables of principal `i`: `range(1 + i*k, 1 + (i+1)*k)`. */
  function TableRange(i: nat, k: int): seq<int> {
    Range(1 + i * k, 1 + (i + 1) * k)
  }

  /** Each principal's range has `k` tables, never contains the head table
      and lies below the switch's table count; the ranges of two different
      principals are disjoint. */
  lemma TableRangesPartition(numTables: int, n: nat, i: nat, j: nat)
    requires 0 < n && i < n && j < n
    ensures var k := TablesPerPrincipal(numTables, n);
            && |TableRange(i, k)| == (if k > 0 then k else 0)
            && (forall t :: t in TableRange(i, k) ==> 0 < t < numTables)
            && (i != j ==> forall t :: t in TableRange(i, k) ==> t !in TableRange(j, k))
  {
    var k := TablesPerPrincipal(numTables, n);
    if k >= 0 {
      MulMonotone(i + 1, n, k);
      assert n * k <= numTables - 1;
      assert (i + 1) * k == i * k + k;
      if i < j {
        MulMonotone(i + 1, j, k);
      } else if j < i {
        MulMonotone(j + 1, i, k);
      }
      assert (j + 1) * k == j * k + k;
    } else {
      assert (i + 1) * k == i * k + k;
    }
  }

  // ---------------------------------------------------------------------
  // Pairs of principals and the loopback pair each consumes
  // ---------------------------------------------------------------------

  /** The number of pairs (i, j), i < j < n, with i below `i0`: row `i`
      holds `n - i - 1` pairs. */
  function RowStart(n: nat, i0: nat): nat
    requires i0 <= n
  {
    if i0 == 0 then 0 else RowStart(n, i0 - 1) + (n - i0)
  }

  lemma {:induction false} RowStartClosed(n: nat, i0: nat)
    requires i0 <= n
    ensures 2 * RowStart(n, i0) == i0 * (2 * n - i0 - 1)
  {
    if i0 > 0 {
      RowStartClosed(n, i0 - 1);
      assert i0 * (2 * n - i0 - 1) == (i0 - 1) * (2 * n - (i0 - 1) - 1) + 2 * (n - i0);
    }
  }

  /** All rows together hold one pair per unordered pair of principals. */
  lemma RowsHoldAllPairs(n: nat)
    ensures RowStart(n, n) == NumLogicalPortPairs(n)
  {
    RowStartClosed(n, n);
  }

  lemma {:induction false} RowStartMonotone(n: nat, a: nat, b: nat)
    requires a <= b <= n
    ensures RowStart(n, a) <= RowStart(n, b)
    decreases b - a
  {
    if a < b {
      RowStartMonotone(n, a, b - 1);
    }
  }

  /** The value of `logical_port_index` when the loops reach pair (i, j):
      pairs are taken in lexicographic order. */
  function Rank(n: nat, i: nat, j: nat): nat
    requires i < j < n
  {
    RowStart(n, i) + (j - i - 1)
  }

  /** Pair (i, j) takes a loopback pair below C(n, 2), within row `i`. */
  lemma RankBounds(n: nat, i: nat, j: nat)
    requires i < j < n
    ensures RowStart(n, i) <= Rank(n, i, j) < RowStart(n, i + 1)
    ensures Rank(n, i, j) < NumLogicalPortPairs(n)
  {
    RowStartMonotone(n, i + 1, n);
    RowsHoldAllPairs(n);
  }

  /** Two different pairs of principals never take the same loopback pair. */
  lemma RankInjective(n: nat, i: nat, j: nat, i2: nat, j2: nat)
    requires i < j < n && i2 < j2 < n
    requires Rank(n, i, j) == Rank(n, i2, j2)
    ensures i == i2 && j == j2
  {
    RankBounds(n, i, j);
    RankBounds(n, i2, j2);
    if i < i2 {
      RowStartMonotone(n, i + 1, i2);
    } else if i2 < i {
      RowStartMonotone(n, i2 + 1, i);
    }
  }

  /** Every loopback pair below C(n, 2) is taken by some pair of principals. */
  lemma {:induction false} RankOnto(n: nat, r: nat)
    requires r < NumLogicalPortPairs(n)
    ensures exists i: nat, j: nat :: i < j < n && Rank(n, i, j) == r
  {
    RowsHoldAllPairs(n);
    var i := RowOf(n, r, n);
    RankBounds(n, i, i + 1);
    assert Rank(n, i, i + 1 + (r - RowStart(n, i))) == r;
  }

  /** The row that holds position `r`, searching the rows below `i0`. */
  function RowOf(n: nat, r: nat, i0: nat): (i: nat)
    requires i0 <= n && r < RowStart(n, i0)
    ensures i < i0 && RowStart(n, i) <= r < RowStart(n, i + 1)
    decreases i0
  {
    if r >= RowStart(n, i0 - 1) then i0 - 1 else RowOf(n, r, i0 - 1)
  }

  // ---------------------------------------------------------------------
  // The dictionaries of a principal
  // ---------------------------------------------------------------------

  /** The principals in list order, the `_a` half of each loopback pair in
      pair order, and the partner (`_b` half) of each. */
  datatype Allocation = Allocation(principals: seq<LogicalPortPrincipal>, halves: seq<Port>, partners: seq<Port>)
  {
    /** There is a loopback pair for every pair of principals. */
    predicate Valid() {
      NumLogicalPortPairs(|principals|) <= |halves| && |halves| == |partners|
    }

    /** The loopback pair of principals x and y is among the halves,
        though others may be missing. */
    predicate HasPair(x: nat, y: nat) {
      && |halves| == |partners| && x < |principals| && y < |principals| && x != y
      && (if x < y then Rank(|principals|, x, y) else Rank(|principals|, y, x)) < |halves|
    }

    /** The port principal `x` reaches principal `y` through: for x < y the
        `_a` half of their pair, otherwise the partner half. */
    function PortFor(x: nat, y: nat): Port
      requires x < |principals| && y < |principals| && x != y
      requires Valid() || HasPair(x, y)
    {
      var n := |principals|;
      if x < y then
        RankBounds(n, x, y);
        halves[Rank(n, x, y)]
      else
        RankBounds(n, y, x);
        partners[Rank(n, y, x)]
    }

    /** The dictionaries of principal `x` once every pair (x, y) with
        y < lim has been mapped, starting from `m0`. */
    function MapsAfter(m0: PortMaps, x: nat, lim: nat): PortMaps
      requires Valid() && x < |principals| && lim <= |principals|
    {
      if lim == 0 then m0
      else
        var m := MapsAfter(m0, x, lim - 1);
        if lim - 1 == x then m else m.Add(PortFor(x, lim - 1), PortFor(lim - 1, x), principals[lim - 1])
    }

    /** The principals have distinct ids (the id counter guarantees it). */
    predicate IdsDistinct() {
      forall a, b :: 0 <= a < b < |principals| ==> principals[a].info.id != principals[b].info.id
    }
  }

  /** Two different peers of `x` are reached through ports with different
      numbers, in both directions. */
  lemma PeerPortsDistinct(al: Allocation, x: nat, y1: nat, y2: nat)
    requires al.Valid() && PairNumbersDistinct(al.halves, al.partners)
    requires x < |al.principals| && y1 < |al.principals| && y2 < |al.principals|
    requires y1 != x && y2 != x && y1 != y2
    ensures al.PortFor(x, y1).number != al.PortFor(x, y2).number
    ensures al.PortFor(y1, x).number != al.PortFor(y2, x).number
  {
    var n := |al.principals|;
    if x < y1 { RankBounds(n, x, y1); } else { RankBounds(n, y1, x); }
    if x < y2 { RankBounds(n, x, y2); } else { RankBounds(n, y2, x); }
    if x < y1 && x < y2 {
      if Rank(n, x, y1) == Rank(n, x, y2) { RankInjective(n, x, y1, x, y2); }
    } else if y1 < x && y2 < x {
      if Rank(n, y1, x) == Rank(n, y2, x) { RankInjective(n, y1, x, y2, x); }
    }
  }

  /** After mapping every peer below `lim`, principal `x` reaches peer `y`
      on ingress port `PortFor(x, y)` and sends to it through
      `PortFor(y, x)`: no later peer overwrites either entry. */
  lemma {:induction false} MapsAfterPortLookup(al: Allocation, m0: PortMaps, x: nat, lim: nat, y: nat)
    requires al.Valid() && PairNumbersDistinct(al.halves, al.partners)
    requires x < |al.principals| && lim <= |al.principals| && y < lim && y != x
    ensures var m := al.MapsAfter(m0, x, lim);
            && al.PortFor(x, y).number in m.ingress && m.ingress[al.PortFor(x, y).number] == al.principals[y]
            && al.PortFor(y, x).number in m.egress && m.egress[al.PortFor(y, x).number] == al.principals[y]
  {
    if y < lim - 1 {
      MapsAfterPortLookup(al, m0, x, lim - 1, y);
      if lim - 1 != x {
        PeerPortsDistinct(al, x, y, lim - 1);
      }
    }
  }

  /** With distinct ids, the principal also records `PortFor(x, y)` under
      the id of peer `y`. */
  lemma {:induction false} MapsAfterLookup(al: Allocation, m0: PortMaps, x: nat, lim: nat, y: nat)
    requires al.Valid() && PairNumbersDistinct(al.halves, al.partners) && al.IdsDistinct()
    requires x < |al.principals| && lim <= |al.principals| && y < lim && y != x
    ensures var m := al.MapsAfter(m0, x, lim);
            && al.PortFor(x, y).number in m.ingress && m.ingress[al.PortFor(x, y).number] == al.principals[y]
            && al.PortFor(y, x).number in m.egress && m.egress[al.PortFor(y, x).number] == al.principals[y]
            && al.principals[y].info.id in m.ids && m.ids[al.principals[y].info.id] == al.PortFor(x, y)
  {
    MapsAfterPortLookup(al, m0, x, lim, y);
    if y < lim - 1 {
      MapsAfterLookup(al, m0, x, lim - 1, y);
      if lim - 1 != x {
        PeerPortsDistinct(al, x, y, lim - 1);
        var a, b := if y < lim - 1 then y else lim - 1, if y < lim - 1 then lim - 1 else y;
        assert al.principals[a].info.id != al.principals[b].info.id;
      }
    }
  }

  /** The ports principal `x` receives from, and sends to, its peers below
      `lim`. */
  function IngressKeys(al: Allocation, x: nat, lim: nat): set<int>
    requires al.Valid() && x < |al.principals| && lim <= |al.principals|
  {
    set y | 0 <= y < lim && y != x :: al.PortFor(x, y).number
  }

  function EgressKeys(al: Allocation, x: nat, lim: nat): set<int>
    requires al.Valid() && x < |al.principals| && lim <= |al.principals|
  {
    set y | 0 <= y < lim && y != x :: al.PortFor(y, x).number
  }

  function IdKeys(al: Allocation, x: nat, lim: nat): set<nat>
    requires al.Valid() && x < |al.principals| && lim <= |al.principals|
  {
    set y | 0 <= y < lim && y != x :: al.principals[y].info.id
  }

  /** Raising the limit by one adds the keys of that one peer. */
  lemma KeySetsStep(al: Allocation, x: nat, lim: nat)
    requires al.Valid() && x < |al.principals| && 0 < lim <= |al.principals|
    ensures lim - 1 == x ==>
              && IngressKeys(al, x, lim) == IngressKeys(al, x, lim - 1)
              && EgressKeys(al, x, lim) == EgressKeys(al, x, lim - 1)
              && IdKeys(al, x, lim) == IdKeys(al, x, lim - 1)
    ensures lim - 1 != x ==>
              && IngressKeys(al, x, lim) == IngressKeys(al, x, lim - 1) + {al.PortFor(x, lim - 1).number}
              && EgressKeys(al, x, lim) == EgressKeys(al, x, lim - 1) + {al.PortFor(lim - 1, x).number}
              && IdKeys(al, x, lim) == IdKeys(al, x, lim - 1) + {al.principals[lim - 1].info.id}
  {
  }

  /** Mapping adds exactly one ingress key per peer and no other. */
  lemma {:induction false} MapsAfterIngressKeys(al: Allocation, m0: PortMaps, x: nat, lim: nat)
    requires al.Valid() && x < |al.principals| && lim <= |al.principals|
    ensures al.MapsAfter(m0, x, lim).ingress.Keys == m0.ingress.Keys + IngressKeys(al, x, lim)
  {
    if lim > 0 {
      MapsAfterIngressKeys(al, m0, x, lim - 1);
      KeySetsStep(al, x, lim);
    } else {
      assert IngressKeys(al, x, 0) == {};
    }
  }

  /** Mapping adds exactly one egress key per peer and no other. */
  lemma {:induction false} MapsAfterEgressKeys(al: Allocation, m0: PortMaps, x: nat, lim: nat)
    requires al.Valid() && x < |al.principals| && lim <= |al.principals|
    ensures al.MapsAfter(m0, x, lim).egress.Keys == m0.egress.Keys + EgressKeys(al, x, lim)
  {
    if lim > 0 {
      MapsAfterEgressKeys(al, m0, x, lim - 1);
      KeySetsStep(al, x, lim);
    } else {
      assert EgressKeys(al, x, 0) == {};
    }
  }

  /** Mapping adds exactly one id key per peer and no other. */
  lemma {:induction false} MapsAfterIdKeys(al: Allocation, m0: PortMaps, x: nat, lim: nat)
    requires al.Valid() && x < |al.principals| && lim <= |al.principals|
    ensures al.MapsAfter(m0, x, lim).ids.Keys == m0.ids.Keys + IdKeys(al, x, lim)
  {
    if lim > 0 {
      MapsAfterIdKeys(al, m0, x, lim - 1);
      KeySetsStep(al, x, lim);
    } else {
      assert IdKeys(al, x, 0) == {};
    }
  }

  /** Mapping adds exactly one key per peer to each dictionary and no other. */
  lemma MapsAfterKeys(al: Allocation, m0: PortMaps, x: nat, lim: nat)
    requires al.Valid() && x < |al.principals| && lim <= |al.principals|
    ensures var m := al.MapsAfter(m0, x, lim);
            && m.ingress.Keys == m0.ingress.Keys + IngressKeys(al, x, lim)
            && m.egress.Keys == m0.egress.Keys + EgressKeys(al, x, lim)
            && m.ids.Keys == m0.ids.Keys + IdKeys(al, x, lim)
  {
    MapsAfterIngressKeys(al, m0, x, lim);
    MapsAfterEgressKeys(al, m0, x, lim);
    MapsAfterIdKeys(al, m0, x, lim);
  }

  /** The two halves of a pair mirror each other: the port principal `x`
      sends to `y` through is the port on which `y` receives from `x`. */
  lemma EgressMatchesPeerIngress(al: Allocation, mx: PortMaps, my: PortMaps, x: nat, y: nat)
    requires al.Valid() && PairNumbersDistinct(al.halves, al.partners)
    requires x < |al.principals| && y < |al.principals| && x != y
    ensures var n := |al.principals|;
            && al.PortFor(y, x).number in al.MapsAfter(mx, x, n).egress
            && al.MapsAfter(mx, x, n).egress[al.PortFor(y, x).number] == al.principals[y]
            && al.PortFor(y, x).number in al.MapsAfter(my, y, n).ingress
            && al.MapsAfter(my, y, n).ingress[al.PortFor(y, x).number] == al.principals[x]
  {
    MapsAfterPortLookup(al, mx, x, |al.principals|, y);
    MapsAfterPortLookup(al, my, y, |al.principals|, x);
  }

  // ---------------------------------------------------------------------
  // Progress of the nested loop over pairs
  // ---------------------------------------------------------------------

  /** How many peers of principal `x` the loops have mapped (as a bound on
      peer indices) when they are about to handle pair (i, j): every peer
      once row `i` has passed `x`, the peers below `j` in row `x` itself,
      and otherwise the rows above `x` so far plus pair (i, x) once `j` has
      passed `x`. */
  function Limit(n: nat, x: nat, i: nat, j: nat): nat {
    if x < i then n else if x == i then j else i + (if x < j then 1 else 0)
  }

  /** Mapping peer `x` of `x` itself is no step. */
  lemma MapsAfterSkipsSelf(al: Allocation, m0: PortMaps, x: nat)
    requires al.Valid() && x < |al.principals|
    ensures al.MapsAfter(m0, x, x + 1) == al.MapsAfter(m0, x, x)
  {
  }

  /** Moving from the end of row `i` to the start of row `i + 1` maps no
      new peer. */
  lemma LimitRowAdvance(al: Allocation, m0: PortMaps, x: nat, i: nat)
    requires al.Valid() && x < |al.principals| && i < |al.principals|
    ensures var n := |al.principals|;
            al.MapsAfter(m0, x, Limit(n, x, i, n)) == al.MapsAfter(m0, x, Limit(n, x, i + 1, i + 2))
  {
    if x == i + 1 {
      MapsAfterSkipsSelf(al, m0, x);
    }
  }

  /** The dictionaries of all principals after pair (i, j) is mapped, from
      `ms` before it: principal i records j through the `_a` half of the
      pair, and j records i through its partner. */
  function AfterPair(al: Allocation, ms: seq<PortMaps>, i: nat, j: nat): (r: seq<PortMaps>)
    requires i < j < |al.principals| && |ms| == |al.principals|
    requires al.Valid() || al.HasPair(i, j)
    ensures |r| == |ms|
  {
    var a, b := al.PortFor(i, j), al.PortFor(j, i);
    ms[i := ms[i].Add(a, b, al.principals[j])][j := ms[j].Add(b, a, al.principals[i])]
  }

  /** The dictionaries of all principals when the loops are about to map
      pair (i, j): every earlier pair, in loop order, has been mapped once.
      (n, n + 1) stands for the end of the loops. Only the halves of the
      earlier pairs need to exist. */
  function BeforePair(al: Allocation, m0s: seq<PortMaps>, i: nat, j: nat): (r: seq<PortMaps>)
    requires |m0s| == |al.principals|
    requires i <= |al.principals| && i < j && (j <= |al.principals| || j == i + 1)
    requires al.Valid() || (|al.halves| == |al.partners| && RowStart(|al.principals|, i) + (j - i - 1) <= |al.halves|)
    ensures |r| == |m0s|
    decreases i, j
  {
    if j > i + 1 then AfterPair(al, BeforePair(al, m0s, i, j - 1), i, j - 1)
    else if i == 0 then m0s
    else BeforePair(al, m0s, i - 1, |al.principals|)
  }

  /** The pair of principals whose turn it is when position `r` of the
      halves is read: the pair whose rank is `r`. */
  function ShortfallPair(n: nat, r: nat): (p: (nat, nat))
    requires r < NumLogicalPortPairs(n)
    ensures p.0 < p.1 < n && Rank(n, p.0, p.1) == r
  {
    RowsHoldAllPairs(n);
    var i := RowOf(n, r, n);
    (i, i + 1 + (r - RowStart(n, i)))
  }

  /** The dictionaries of all principals when the loops run out of
      halves: reading the first missing position raises `IndexError` at
      the pair whose rank it is, so exactly the pairs before that one, in
      loop order, have been mapped. */
  function ShortfallMaps(al: Allocation, m0s: seq<PortMaps>): seq<PortMaps>
    requires |al.halves| == |al.partners| && |m0s| == |al.principals|
    requires |al.halves| < NumLogicalPortPairs(|al.principals|)
  {
    var p := ShortfallPair(|al.principals|, |al.halves|);
    BeforePair(al, m0s, p.0, p.1)
  }

  /** One more step of row `i`: the pairs before (i, j + 1) are those
      before (i, j) followed by (i, j) itself. */
  lemma BeforePairStep(al: Allocation, m0s: seq<PortMaps>, i: nat, j: nat)
    requires |m0s| == |al.principals| && |al.halves| == |al.partners|
    requires i < j < |al.principals| && Rank(|al.principals|, i, j) < |al.halves|
    ensures BeforePair(al, m0s, i, j + 1) == AfterPair(al, BeforePair(al, m0s, i, j), i, j)
  {
  }

  /** When the halves run out exactly at the rank of pair (i, j), the
      dictionaries hold the pairs before (i, j) and no later one. */
  lemma ShortfallAtPair(al: Allocation, m0s: seq<PortMaps>, i: nat, j: nat)
    requires |al.halves| == |al.partners| && |m0s| == |al.principals|
    requires i < j < |al.principals| && Rank(|al.principals|, i, j) == |al.halves|
    ensures |al.halves| < NumLogicalPortPairs(|al.principals|)
    ensures ShortfallMaps(al, m0s) == BeforePair(al, m0s, i, j)
  {
    var n := |al.principals|;
    RankBounds(n, i, j);
    var p := ShortfallPair(n, |al.halves|);
    RankInjective(n, p.0, p.1, i, j);
  }

  /** Seen from one principal, the loop-order fold is `MapsAfter` up to
      `Limit`: the loops give each principal exactly its own peers, in
      ascending order. */
  lemma BeforePairIsMapsAfter(al: Allocation, m0s: seq<PortMaps>, i: nat, j: nat, x: nat)
    requires al.Valid() && |m0s| == |al.principals|
    requires i <= |al.principals| && i < j && (j <= |al.principals| || j == i + 1)
    requires x < |al.principals|
    ensures BeforePair(al, m0s, i, j)[x] == al.MapsAfter(m0s[x], x, Limit(|al.principals|, x, i, j))
  {
    BeforeRowIsMapsAfter(al, m0s, i, x);
    if j > i + 1 {
      BeforePairInRow(al, m0s, i, j, x);
    }
  }

  /** The dictionaries of principals 0 .. k - 1 once every pair is
      mapped: principal x holds `MapsAfter` of its own `m0s[x]`. */
  function AllMapped(al: Allocation, m0s: seq<PortMaps>, k: nat): (r: seq<PortMaps>)
    requires al.Valid() && |m0s| == |al.principals| && k <= |m0s|
    ensures |r| == k
  {
    if k == 0 then [] else AllMapped(al, m0s, k - 1) + [al.MapsAfter(m0s[k - 1], k - 1, |al.principals|)]
  }

  /** Entry x of `AllMapped` is principal x's dictionaries with all of its
      pairs mapped. */
  lemma {:induction false} AllMappedIndex(al: Allocation, m0s: seq<PortMaps>, k: nat)
    requires al.Valid() && |m0s| == |al.principals| && k <= |m0s|
    ensures forall x :: 0 <= x < k ==> AllMapped(al, m0s, k)[x] == al.MapsAfter(m0s[x], x, |al.principals|)
  {
    if k > 0 {
      AllMappedIndex(al, m0s, k - 1);
    }
  }

  /** The induction over the rows: the start of every row. */
  lemma {:induction false} BeforeRowIsMapsAfter(al: Allocation, m0s: seq<PortMaps>, i: nat, x: nat)
    requires al.Valid() && |m0s| == |al.principals|
    requires i <= |al.principals| && x < |al.principals|
    ensures BeforePair(al, m0s, i, i + 1)[x] == al.MapsAfter(m0s[x], x, Limit(|al.principals|, x, i, i + 1))
  {
    if i == 0 {
      if x == 0 {
        MapsAfterSkipsSelf(al, m0s[0], 0);
      }
    } else {
      BeforeRowIsMapsAfter(al, m0s, i - 1, x);
      BeforePairInRow(al, m0s, i - 1, |al.principals|, x);
      BeforeNextRow(al, m0s, i - 1, x);
    }
  }

  /** The induction within row i, from the fact at its start. */
  lemma {:induction false} BeforePairInRow(al: Allocation, m0s: seq<PortMaps>, i: nat, j: nat, x: nat)
    requires al.Valid() && |m0s| == |al.principals|
    requires i < j <= |al.principals| && x < |al.principals|
    requires BeforePair(al, m0s, i, i + 1)[x] == al.MapsAfter(m0s[x], x, Limit(|al.principals|, x, i, i + 1))
    ensures BeforePair(al, m0s, i, j)[x] == al.MapsAfter(m0s[x], x, Limit(|al.principals|, x, i, j))
    decreases j
  {
    if j > i + 1 {
      BeforePairInRow(al, m0s, i, j - 1, x);
      BeforeNextPair(al, m0s, i, j - 1, x);
    }
  }

  /** The step from pair (i, j) to pair (i, j + 1) within a row. */
  lemma BeforeNextPair(al: Allocation, m0s: seq<PortMaps>, i: nat, j: nat, x: nat)
    requires al.Valid() && |m0s| == |al.principals|
    requires i < j < |al.principals| && x < |al.principals|
    requires BeforePair(al, m0s, i, j)[x] == al.MapsAfter(m0s[x], x, Limit(|al.principals|, x, i, j))
    ensures BeforePair(al, m0s, i, j + 1)[x] == al.MapsAfter(m0s[x], x, Limit(|al.principals|, x, i, j + 1))
  {
    PairStepIsMapsAfter(al, BeforePair(al, m0s, i, j), m0s[x], i, j, x);
  }

  /** The step from the end of row i to the start of row i + 1. */
  lemma BeforeNextRow(al: Allocation, m0s: seq<PortMaps>, i: nat, x: nat)
    requires al.Valid() && |m0s| == |al.principals|
    requires i < |al.principals| && x < |al.principals|
    requires BeforePair(al, m0s, i, |al.principals|)[x] == al.MapsAfter(m0s[x], x, Limit(|al.principals|, x, i, |al.principals|))
    ensures BeforePair(al, m0s, i + 1, i + 2)[x] == al.MapsAfter(m0s[x], x, Limit(|al.principals|, x, i + 1, i + 2))
  {
    LimitRowAdvance(al, m0s[x], x, i);
  }

  /** Mapping pair (i, j) advances `Limit` by one peer for i and j and
      leaves every other principal alone. */
  lemma PairStepIsMapsAfter(al: Allocation, ms: seq<PortMaps>, m0: PortMaps, i: nat, j: nat, x: nat)
    requires al.Valid() && i < j < |al.principals| && |ms| == |al.principals| && x < |al.principals|
    requires ms[x] == al.MapsAfter(m0, x, Limit(|al.principals|, x, i, j))
    ensures AfterPair(al, ms, i, j)[x] == al.MapsAfter(m0, x, Limit(|al.principals|, x, i, j + 1))
  {
    var n := |al.principals|;
    if x == i {
      assert Limit(n, x, i, j + 1) == j + 1 && Limit(n, x, i, j) == j;
    } else if x == j {
      assert Limit(n, x, i, j + 1) == i + 1 && Limit(n, x, i, j) == i;
    } else {
      assert Limit(n, x, i, j + 1) == Limit(n, x, i, j);
    }
  }
}
