/** The table arithmetic of the chained-table switch's bring-up
    (src/chained_table_pluribus_switch.py): after the head table, half of
    the remaining tables are early tables and half are late tables, and
    each principal gets an equal block of each. The loop as written
    computes other blocks; both are stated here. */
module ChainedTableLayout {
  import opened Lists

  /** `2 * len(principals) + 1`: an early and a late table per principal,
      plus the head table. */
  function NecessaryNumTables(numPrincipals: nat): nat {
    numPrincipals * 2 + 1
  }

  /** `floor((switch_num_tables - 1) / 2)`; the late tables are as many. */
  function NumEarlyTables(numTables: int): int {
    (numTables - 1) / 2
  }

  /** `floor(num_early_tables / len(principals))`, for early and late
      tables alike. */
  function TablesPerPrincipal(numTables: int, numPrincipals: nat): int
    requires numPrincipals > 0
  {
    NumEarlyTables(numTables) / numPrincipals
  }

  /** The early tables of principal `i` when each of the `per`-sized blocks
      starts where the previous one ended: `range(idx, idx + per)` with
      `idx = 1 + i * per`. */
  function EarlyTables(per: int, i: nat): seq<int> {
    Range(1 + i * per, 1 + i * per + per)
  }

  /** The late tables of principal `i`: `range(idx + num_early,
      idx + num_early + per)` with the same `idx`. */
  function LateTables(numEarly: int, per: int, i: nat): seq<int> {
    Range(1 + i * per + numEarly, 1 + i * per + numEarly + per)
  }

  /** With enough tables there are at least as many early tables as
      principals, so the share is at least one and the shares fit. */
  lemma ShareBounds(numTables: int, n: nat)
    requires 0 < n && NecessaryNumTables(n) <= numTables
    ensures var numEarly, per := NumEarlyTables(numTables), TablesPerPrincipal(numTables, n);
            && n <= numEarly && 2 * numEarly < numTables
            && 1 <= per <= numEarly && n * per <= numEarly
  {
    var numEarly, per := NumEarlyTables(numTables), TablesPerPrincipal(numTables, n);
    assert n * per + numEarly % n == numEarly;
    MulMonotone(1, n, per);
  }

  /** Block `i` of `per` tables, counted from 1, ends within the first
      `n * per` tables. */
  lemma BlockEnd(per: int, n: nat, i: nat)
    requires per >= 0 && i < n
    ensures i * per + per <= n * per
  {
    MulMonotone(i + 1, n, per);
    assert (i + 1) * per == i * per + per;
  }

  /** Block `i` ends before block `j` starts. */
  lemma BlocksOrdered(per: int, i: nat, j: nat)
    requires per >= 0 && i < j
    ensures i * per + per <= j * per
  {
    BlockEnd(per, j, i);
  }

  /** With enough tables every principal gets `per >= 1` early tables
      inside `[1, 1 + num_early)` and as many late tables inside
      `[1 + num_early, T)`; the blocks of two principals are disjoint, so
      no table is shared and the head table 0 is never handed out. */
  lemma LayoutSound(numTables: int, n: nat, i: nat, j: nat)
    requires 0 < n && NecessaryNumTables(n) <= numTables
    requires i < n && j < n
    ensures var numEarly, per := NumEarlyTables(numTables), TablesPerPrincipal(numTables, n);
            && per >= 1
            && |EarlyTables(per, i)| == per && |LateTables(numEarly, per, i)| == per
            && (forall t :: t in EarlyTables(per, i) ==> 0 < t < 1 + numEarly)
            && (forall t :: t in LateTables(numEarly, per, i) ==> 1 + numEarly <= t < numTables)
            && (i != j ==> forall t :: t in EarlyTables(per, i) ==> t !in EarlyTables(per, j))
            && (i != j ==> forall t :: t in LateTables(numEarly, per, i) ==> t !in LateTables(numEarly, per, j))
  {
    var numEarly, per := NumEarlyTables(numTables), TablesPerPrincipal(numTables, n);
    ShareBounds(numTables, n);
    BlockEnd(per, n, i);
    assert i * per >= 0;
    if i < j {
      BlocksOrdered(per, i, j);
    } else if j < i {
      BlocksOrdered(per, j, i);
    }
  }

  /** Principal `i`'s first early and first late table. */
  lemma FirstTablesOfLayout(numTables: int, n: nat, i: nat)
    requires 0 < n && NecessaryNumTables(n) <= numTables && i < n
    ensures var numEarly, per := NumEarlyTables(numTables), TablesPerPrincipal(numTables, n);
            && EarlyTables(per, i)[0] == 1 + i * per
            && LateTables(numEarly, per, i)[0] == 1 + numEarly + i * per
  {
    LayoutSound(numTables, n, i, i);
  }

  // ---------------------------------------------------------------------
  // The loop as written
  // ---------------------------------------------------------------------

  /** `assigning_early_table_index` when principal `i` is reached: it starts
      at 1 and grows by `num_early_tables` per principal. */
  function EarlyIndexAsWritten(numEarly: int, i: nat): int {
    1 + i * numEarly
  }

  /** The early tables as written: `range(assigning_early_table_index,
      early_tables_per_principal)`, whose upper bound is a count, not an
      index. */
  function EarlyTablesAsWritten(idx: int, per: int): seq<int> {
    Range(idx, per)
  }

  /** The late tables as written, from the index as written. */
  function LateTablesAsWritten(numEarly: int, per: int, i: nat): seq<int> {
    Range(EarlyIndexAsWritten(numEarly, i) + numEarly, EarlyIndexAsWritten(numEarly, i) + numEarly + per)
  }

  /** As written, principal 0 gets one early table fewer than its share and
      every later principal gets none, so `get_first_early_table_physical_id`
      fails for it. */
  lemma EarlyTablesAsWrittenShort(numTables: int, n: nat, i: nat)
    requires 0 < n && NecessaryNumTables(n) <= numTables && i < n
    ensures var numEarly, per := NumEarlyTables(numTables), TablesPerPrincipal(numTables, n);
            |EarlyTablesAsWritten(EarlyIndexAsWritten(numEarly, i), per)| == if i == 0 then per - 1 else 0
  {
    var numEarly := NumEarlyTables(numTables);
    ShareBounds(numTables, n);
    if i > 0 {
      MulMonotone(1, i, numEarly);
    }
  }

  /** As written, with three or more principals the last one's late
      tables all lie at or beyond the switch's table count. */
  lemma LateTablesAsWrittenOverflow(numTables: int, n: nat, last: nat)
    requires 3 <= n && NecessaryNumTables(n) <= numTables && last + 1 == n
    ensures var numEarly, per := NumEarlyTables(numTables), TablesPerPrincipal(numTables, n);
            && |LateTablesAsWritten(numEarly, per, last)| == per
            && forall t :: t in LateTablesAsWritten(numEarly, per, last) ==> t >= numTables
  {
    var numEarly := NumEarlyTables(numTables);
    ShareBounds(numTables, n);
    MulMonotone(3, n, numEarly);
    assert EarlyIndexAsWritten(numEarly, last) + numEarly == 1 + n * numEarly;
  }

  /** Nine tables and two principals: four early tables, two per
      principal. As written, principal 0's early tables are `[1]` instead
      of `[1, 2]`, principal 1's are empty instead of `[3, 4]`, and
      principal 1's late tables are `[9, 10]`, which do not exist, instead
      of `[7, 8]`. */
  lemma NineTablesTwoPrincipals()
    ensures NumEarlyTables(9) == 4 && TablesPerPrincipal(9, 2) == 2
    ensures EarlyTablesAsWritten(EarlyIndexAsWritten(4, 0), 2) == [1] && EarlyTables(2, 0) == [1, 2]
    ensures EarlyTablesAsWritten(EarlyIndexAsWritten(4, 1), 2) == [] && EarlyTables(2, 1) == [3, 4]
    ensures LateTablesAsWritten(4, 2, 1) == [9, 10] && LateTables(4, 2, 1) == [7, 8]
  {
    assert Range(1, 2) == [1];
    assert Range(1, 3) == [1, 2];
    assert Range(3, 5) == [3, 4];
    assert Range(9, 11) == [9, 10];
    assert Range(7, 9) == [7, 8];
  }
}
