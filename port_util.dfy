/** The port classifier of src/port_util.py: loopback port names, the
    physical/logical classification of the switch's ports, the pairing of
    loopback halves, and the arithmetic between principal counts and
    loopback pair counts. */
module PortUtil {
  import opened Wrappers
  import opened Lists

  // ---------------------------------------------------------------------
  // Ports
  // ---------------------------------------------------------------------

  /** The switch reports each port number once; ports with different
      numbers are different objects. */
  predicate UniquePortNumbers(ports: seq<Port>) {
    forall i, j {:trigger ports[i].number, ports[j].number} :: 0 <= i < j < |ports| ==> ports[i].number != ports[j].number
  }

  /** One port reported by the physical switch (`PortNameNumber`). The name
      and number never change; the classifier sets `isPhysical` (Python
      `None` until then) and, for a loopback half, its `partner`. */
  class Port {
    const name: string
    const number: int
    var isPhysical: Option<bool>
    var partner: Port?

    constructor (name: string, number: int)
      ensures this.name == name && this.number == number
      ensures isPhysical == None && partner == null
      ensures !IsPhysicalHasBeenSet()
    {
      this.name := name;
      this.number := number;
      isPhysical := None;
      partner := null;
    }

    method SetPhysical()
      modifies this
      ensures isPhysical == Some(true) && partner == old(partner)
      ensures IsPhysicalHasBeenSet()
    {
      isPhysical := Some(true);
    }

    method SetLogical(partnerPort: Port)
      modifies this
      ensures isPhysical == Some(false) && partner == partnerPort
      ensures IsPhysicalHasBeenSet()
    {
      isPhysical := Some(false);
      partner := partnerPort;
    }

    /** `is_physical_has_been_set`: whether the classifier has visited the
        port. */
    predicate IsPhysicalHasBeenSet()
      reads this`isPhysical
    {
      isPhysical != None
    }
  }

  /** The attributes a `PortNameNumber` object has: its four fields and its
      three methods. There is no `get_partner`. */
  const PORT_ATTRIBUTES: set<string> :=
    {"port_name", "port_number", "is_physical", "partner", "set_physical", "set_logical", "is_physical_has_been_set"}

  /** Python's attribute lookup on a `PortNameNumber`: an unknown name
      raises `AttributeError` naming it. */
  function PortAttribute(name: string): Outcome<string> {
    if name in PORT_ATTRIBUTES then Pass else Fail(name)
  }

  // ---------------------------------------------------------------------
  // Decimal rendering of pair indices (Python's `str` on a natural number)
  // ---------------------------------------------------------------------

  predicate IsDigit(c: char) {
    '0' <= c <= '9'
  }

  function DigitChar(d: nat): (c: char)
    requires d < 10
    ensures IsDigit(c) && c as int - '0' as int == d
  {
    ('0' as int + d) as char
  }

  /** `str(n)` for a natural number: its decimal digits, most significant
      first, without leading zeros. */
  function NatToString(n: nat): (s: string)
    ensures |s| >= 1
    ensures forall i :: 0 <= i < |s| ==> IsDigit(s[i])
    decreases n
  {
    if n < 10 then [DigitChar(n)] else NatToString(n / 10) + [DigitChar(n % 10)]
  }

  function DigitValue(c: char): (d: nat)
    requires IsDigit(c)
    ensures d < 10 && DigitChar(d) == c
  {
    c as int - '0' as int
  }

  /** The value of a string of decimal digits. */
  ghost function DecimalValue(s: string): nat
    requires forall i :: 0 <= i < |s| ==> IsDigit(s[i])
  {
    if |s| == 0 then 0
    else DecimalValue(s[..|s| - 1]) * 10 + DigitValue(s[|s| - 1])
  }

  /** Reading the rendered digits back gives the number. */
  lemma {:induction false} DecimalValueOfNatToString(n: nat)
    ensures DecimalValue(NatToString(n)) == n
    decreases n
  {
    var s := NatToString(n);
    if n >= 10 {
      DecimalValueOfNatToString(n / 10);
      assert s[..|s| - 1] == NatToString(n / 10);
    }
  }

  /** Different pair indices render as different strings. */
  lemma NatToStringInjective(m: nat, n: nat)
    requires NatToString(m) == NatToString(n)
    ensures m == n
  {
    DecimalValueOfNatToString(m);
    DecimalValueOfNatToString(n);
  }

  // ---------------------------------------------------------------------
  // Loopback port names
  // ---------------------------------------------------------------------

  const LOOPBACK_PORT_NAME_PREFIX: string := "loopback_port_"

  /** `pattern` occurs in `s` starting at position `i`. */
  predicate OccursAt(s: string, pattern: string, i: int) {
    0 <= i && i + |pattern| <= |s| && s[i..i + |pattern|] == pattern
  }

  lemma OccursAtShift(s: string, pattern: string)
    requires |s| >= 1
    ensures forall i :: 1 <= i ==> (OccursAt(s, pattern, i) <==> OccursAt(s[1..], pattern, i - 1))
  {
    forall i | 1 <= i
      ensures OccursAt(s, pattern, i) <==> OccursAt(s[1..], pattern, i - 1)
    {
      if i + |pattern| <= |s| {
        assert s[1..][i - 1..] == s[i..];
        assert s[1..][i - 1..i - 1 + |pattern|] == s[1..][i - 1..][..|pattern|];
        assert s[i..i + |pattern|] == s[i..][..|pattern|];
      }
    }
  }

  /** Python's `pattern in s` on strings: substring search. */
  function Contains(s: string, pattern: string): bool
    decreases |s|
  {
    if |s| < |pattern| then false
    else if s[..|pattern|] == pattern then true
    else Contains(s[1..], pattern)
  }

  /** The search finds the pattern exactly when it occurs somewhere. */
  lemma {:induction false} ContainsIffOccurs(s: string, pattern: string)
    ensures Contains(s, pattern) <==> exists i :: OccursAt(s, pattern, i)
    decreases |s|
  {
    if |s| < |pattern| {
      assert forall i :: !OccursAt(s, pattern, i);
    } else if s[..|pattern|] == pattern {
      assert OccursAt(s, pattern, 0);
    } else {
      ContainsIffOccurs(s[1..], pattern);
      OccursAtShift(s, pattern);
      assert forall i :: OccursAt(s[1..], pattern, i) ==> OccursAt(s, pattern, i + 1);
      assert !OccursAt(s, pattern, 0);
    }
  }

  /** `is_loopback_port`: whether the reserved prefix occurs in the name. */
  function IsLoopbackPort(portName: string): bool {
    Contains(portName, LOOPBACK_PORT_NAME_PREFIX)
  }

  /** A name is a loopback name exactly when the reserved prefix occurs
      anywhere in it, not only at its start. */
  lemma IsLoopbackPortIffPrefixOccurs(portName: string)
    ensures IsLoopbackPort(portName) <==> exists i :: OccursAt(portName, LOOPBACK_PORT_NAME_PREFIX, i)
  {
    ContainsIffOccurs(portName, LOOPBACK_PORT_NAME_PREFIX);
  }

  /** `produce_loopback_port_a`: the name of the first half of pair `k`. */
  function LoopbackPortA(k: nat): string {
    LOOPBACK_PORT_NAME_PREFIX + NatToString(k) + "_a"
  }

  /** `produce_loopback_port_b`: the name of the second half of pair `k`. */
  function LoopbackPortB(k: nat): string {
    LOOPBACK_PORT_NAME_PREFIX + NatToString(k) + "_b"
  }

  /** Both produced names are recognised as loopback names. */
  lemma LoopbackNamesRecognised(k: nat)
    ensures IsLoopbackPort(LoopbackPortA(k)) && IsLoopbackPort(LoopbackPortB(k))
  {
    assert LoopbackPortA(k)[..|LOOPBACK_PORT_NAME_PREFIX|] == LOOPBACK_PORT_NAME_PREFIX;
    assert LoopbackPortB(k)[..|LOOPBACK_PORT_NAME_PREFIX|] == LOOPBACK_PORT_NAME_PREFIX;
  }

  /** The two halves of a pair have different names, and no name is produced
      for two different pairs: every loopback name identifies one half of
      one pair. */
  lemma LoopbackNamesDistinct(j: nat, k: nat)
    ensures LoopbackPortA(j) != LoopbackPortB(k)
    ensures j != k ==> LoopbackPortA(j) != LoopbackPortA(k)
    ensures j != k ==> LoopbackPortB(j) != LoopbackPortB(k)
  {
    var a, b := LoopbackPortA(j), LoopbackPortB(k);
    assert a[|a| - 1] == 'a' && b[|b| - 1] == 'b';
    var p := |LOOPBACK_PORT_NAME_PREFIX|;
    if LoopbackPortA(j) == LoopbackPortA(k) {
      var a' := LoopbackPortA(k);
      assert a[p..|a| - 2] == NatToString(j);
      assert a'[p..|a'| - 2] == NatToString(k);
      NatToStringInjective(j, k);
    }
    if LoopbackPortB(j) == LoopbackPortB(k) {
      var b', b'' := LoopbackPortB(j), LoopbackPortB(k);
      assert b'[p..|b'| - 2] == NatToString(j);
      assert b''[p..|b''| - 2] == NatToString(k);
      NatToStringInjective(j, k);
    }
  }

  // ---------------------------------------------------------------------
  // Pair counts and principal counts
  // ---------------------------------------------------------------------

  lemma {:induction false} ConsecutiveProductEven(n: nat)
    ensures (n * (n - 1)) % 2 == 0
  {
    if n > 0 {
      ConsecutiveProductEven(n - 1);
      assert n * (n - 1) == (n - 1) * (n - 2) + 2 * (n - 1);
    }
  }

  /** `num_logical_port_pairs_from_num_principals`: one loopback pair per
      unordered pair of principals, n choose 2. Python 2 divides integers
      by flooring, and the division is exact. */
  function NumLogicalPortPairs(numPrincipals: nat): (pairs: nat)
    ensures 2 * pairs == numPrincipals * (numPrincipals - 1)
  {
    ConsecutiveProductEven(numPrincipals);
    numPrincipals * (numPrincipals - 1) / 2
  }

  /** Adding a principal adds one pair per existing principal. */
  lemma NumLogicalPortPairsStep(n: nat)
    ensures NumLogicalPortPairs(n + 1) == NumLogicalPortPairs(n) + n
  {
    assert (n + 1) * n == n * (n - 1) + 2 * n;
  }

  lemma {:induction false} NumLogicalPortPairsMonotone(a: nat, b: nat)
    requires a <= b
    ensures NumLogicalPortPairs(a) <= NumLogicalPortPairs(b)
    decreases b - a
  {
    if a < b {
      NumLogicalPortPairsMonotone(a, b - 1);
      NumLogicalPortPairsStep(b - 1);
    }
  }

  lemma SquareMonotone(a: nat, b: nat)
    requires a <= b
    ensures a * a <= b * b
  {
    assert a * a <= a * b <= b * b;
  }

  /** The integer square root: the largest `r` with `r * r <= x`. */
  function ISqrt(x: nat): (r: nat)
    ensures r * r <= x < (r + 1) * (r + 1)
    decreases x
  {
    if x == 0 then 0
    else
      var r := ISqrt(x - 1);
      assert (r + 2) * (r + 2) == (r + 1) * (r + 1) + 2 * r + 3;
      if (r + 1) * (r + 1) <= x then r + 1 else r
  }

  lemma SqrtLowerBound(n: nat, s: nat, numPairs: nat)
    requires n >= 1 && 2 * n - 1 <= s && s * s <= 1 + 8 * numPairs
    ensures n * (n - 1) <= 2 * numPairs
  {
    SquareMonotone(2 * n - 1, s);
    var q := n * (n - 1);
    assert (2 * n - 1) * (2 * n - 1) == 4 * q + 1;
  }

  lemma SqrtUpperBound(n: nat, s: nat, numPairs: nat)
    requires s <= 2 * n && 1 + 8 * numPairs < (s + 1) * (s + 1)
    ensures 2 * numPairs < (n + 1) * n
  {
    SquareMonotone(s + 1, 2 * n + 1);
    var q := (n + 1) * n;
    assert (2 * n + 1) * (2 * n + 1) == 4 * q + 1;
  }

  lemma NumPrincipalsSupportedBounds(numPairs: nat)
    ensures var n := (1 + ISqrt(1 + 8 * numPairs)) / 2;
            n >= 1 && NumLogicalPortPairs(n) <= numPairs < NumLogicalPortPairs(n + 1)
  {
    var s := ISqrt(1 + 8 * numPairs);
    var n := (1 + s) / 2;
    assert s >= 1;
    SqrtLowerBound(n, s, numPairs);
    SqrtUpperBound(n, s, numPairs);
    assert 2 * NumLogicalPortPairs(n + 1) == (n + 1) * n;
  }

  /** `num_principals_from_num_logical_port_pairs`, which Python computes
      in floating point as (1 + sqrt(1 + 8p)) / 2. The model computes the
      floor of that value with an integer square root; the source only
      compares it with an integer, and for an integer N, floor(r) < N
      exactly when r < N. The result is the largest principal count whose
      pair count does not exceed `numPairs`. */
  function NumPrincipalsSupported(numPairs: nat): (n: nat)
    ensures n >= 1
    ensures NumLogicalPortPairs(n) <= numPairs < NumLogicalPortPairs(n + 1)
  {
    NumPrincipalsSupportedBounds(numPairs);
    (1 + ISqrt(1 + 8 * numPairs)) / 2
  }

  /** The two conversions are inverse for every positive principal count. */
  lemma PairsPrincipalsRoundTrip(n: nat)
    requires n >= 1
    ensures NumPrincipalsSupported(NumLogicalPortPairs(n)) == n
  {
    var m := NumPrincipalsSupported(NumLogicalPortPairs(n));
    if m > n {
      NumLogicalPortPairsMonotone(n + 1, m);
      NumLogicalPortPairsStep(n);
    } else if m < n {
      NumLogicalPortPairsMonotone(m + 1, n);
    }
  }

  /** The support check of the logical-port switch: the supported count is
      at least `n` exactly when there are at least n choose 2 pairs. */
  lemma SupportedIffEnoughPairs(numPairs: nat, n: nat)
    ensures NumPrincipalsSupported(numPairs) >= n <==> numPairs >= NumLogicalPortPairs(n)
  {
    var m := NumPrincipalsSupported(numPairs);
    if m >= n {
      NumLogicalPortPairsMonotone(n, m);
    } else {
      NumLogicalPortPairsMonotone(m + 1, n);
    }
  }

  // ---------------------------------------------------------------------
  // Classification and pairing (`set_logical_physical`)
  // ---------------------------------------------------------------------

  /** The position of the last port called `portName`, as the scan in
      `set_logical_physical` keeps the last match it sees. */
  function LastIndexNamed(ports: seq<Port>, portName: string): (r: Option<nat>)
    ensures r.Some? ==> r.value < |ports| && ports[r.value].name == portName
    decreases |ports|
  {
    if |ports| == 0 then None
    else if ports[|ports| - 1].name == portName then Some(|ports| - 1)
    else LastIndexNamed(ports[..|ports| - 1], portName)
  }

  /** No later port has the name, and when none is found no port has it. */
  lemma {:induction false} LastIndexNamedIsLast(ports: seq<Port>, portName: string)
    ensures LastIndexNamed(ports, portName).Some? ==>
              forall q :: LastIndexNamed(ports, portName).value < q < |ports| ==> ports[q].name != portName
    ensures LastIndexNamed(ports, portName).None? ==>
              forall q :: 0 <= q < |ports| ==> ports[q].name != portName
    decreases |ports|
  {
    if |ports| > 0 && ports[|ports| - 1].name != portName {
      var front := ports[..|ports| - 1];
      LastIndexNamedIsLast(front, portName);
      assert forall q :: 0 <= q < |front| ==> front[q] == ports[q];
    }
  }

  predicate BothHalvesPresent(ports: seq<Port>, k: nat) {
    LastIndexNamed(ports, LoopbackPortA(k)).Some? && LastIndexNamed(ports, LoopbackPortB(k)).Some?
  }

  predicate NeitherHalfPresent(ports: seq<Port>, k: nat) {
    LastIndexNamed(ports, LoopbackPortA(k)).None? && LastIndexNamed(ports, LoopbackPortB(k)).None?
  }

  /** The scan over pair indices 0, 1, 2, ... stops at `stop`: both halves
      of every earlier pair are present, neither half of pair `stop` is. */
  predicate ScanStopsAt(ports: seq<Port>, stop: nat) {
    (forall k :: 0 <= k < stop ==> BothHalvesPresent(ports, k)) && NeitherHalfPresent(ports, stop)
  }

  /** The stop index is determined by the port names alone. */
  lemma ScanStopIsUnique(ports: seq<Port>, s1: nat, s2: nat)
    requires ScanStopsAt(ports, s1) && ScanStopsAt(ports, s2)
    ensures s1 == s2
  {
    assert s1 < s2 ==> BothHalvesPresent(ports, s1);
    assert s2 < s1 ==> BothHalvesPresent(ports, s2);
  }

  /** The positions in the port list of the `_a` and the `_b` half of one pair. */
  datatype HalfPair = HalfPair(a: nat, b: nat)

  /** The positions of the halves chosen for pairs 0 .. n - 1: for each
      pair, the last port named with its `_a` name and the last port named
      with its `_b` name. */
  ghost function HalfPositions(ports: seq<Port>, n: nat): (r: seq<HalfPair>)
    requires forall k :: 0 <= k < n ==> BothHalvesPresent(ports, k)
    ensures |r| == n
    ensures forall k :: 0 <= k < n ==>
              && r[k].a < |ports| && r[k].b < |ports|
              && LastIndexNamed(ports, LoopbackPortA(k)) == Some(r[k].a)
              && LastIndexNamed(ports, LoopbackPortB(k)) == Some(r[k].b)
  {
    if n == 0 then []
    else
      assert BothHalvesPresent(ports, n - 1);
      HalfPositions(ports, n - 1)
        + [HalfPair(LastIndexNamed(ports, LoopbackPortA(n - 1)).value, LastIndexNamed(ports, LoopbackPortB(n - 1)).value)]
  }

  /** Ports `a` and `b` are logical and each is the other's partner. */
  ghost predicate Linked(a: Port, b: Port)
    reads a, b
  {
    a.isPhysical == Some(false) && a.partner == b && b.isPhysical == Some(false) && b.partner == a
  }

  /** The positions held by the chosen pairs. */
  function ChosenPositions(positions: seq<HalfPair>): set<nat>
    decreases |positions|
  {
    if |positions| == 0 then {}
    else
      var last := positions[|positions| - 1];
      ChosenPositions(positions[..|positions| - 1]) + {last.a, last.b}
  }

  /** A position is chosen exactly when some pair holds it. */
  lemma {:induction false} ChosenPositionsHeld(positions: seq<HalfPair>, q: nat)
    ensures q in ChosenPositions(positions) <==>
              exists k :: 0 <= k < |positions| && (positions[k].a == q || positions[k].b == q)
    decreases |positions|
  {
    if |positions| > 0 {
      var front := positions[..|positions| - 1];
      ChosenPositionsHeld(front, q);
      assert forall k :: 0 <= k < |front| ==> front[k] == positions[k];
    }
  }

  lemma ChosenAppend(positions: seq<HalfPair>, ia: nat, ib: nat)
    ensures ChosenPositions(positions + [HalfPair(ia, ib)]) == ChosenPositions(positions) + {ia, ib}
  {
    assert (positions + [HalfPair(ia, ib)])[..|positions|] == positions;
  }

  /** The `is_physical` flag of every port, in list order. */
  ghost function PhysicalFlags(ports: seq<Port>): (r: seq<Option<bool>>)
    reads ports
    ensures |r| == |ports| && forall q :: 0 <= q < |ports| ==> r[q] == ports[q].isPhysical
  {
    seq(|ports|, q requires 0 <= q < |ports| reads ports => ports[q].isPhysical)
  }

  /** The `partner` field of every port, in list order. */
  ghost function PartnerFields(ports: seq<Port>): (r: seq<Port?>)
    reads ports
    ensures |r| == |ports| && forall q :: 0 <= q < |ports| ==> r[q] == ports[q].partner
  {
    seq(|ports|, q requires 0 <= q < |ports| reads ports => ports[q].partner)
  }

  /** The state the pairing loop keeps after linking the halves at
      `positions`: those halves are linked, every port with a non-loopback
      name is physical with its original partner, and every other port
      with a loopback name keeps its original state. */
  ghost predicate PairingProgress(ports: seq<Port>, positions: seq<HalfPair>,
                                  physical0: seq<Option<bool>>, partner0: seq<Port?>)
    reads ports
  {
    && |physical0| == |ports| && |partner0| == |ports|
    && (forall k :: 0 <= k < |positions| ==>
          positions[k].a < |ports| && positions[k].b < |ports| && Linked(ports[positions[k].a], ports[positions[k].b]))
    && (forall q {:trigger ports[q].isPhysical} :: 0 <= q < |ports| && !IsLoopbackPort(ports[q].name) ==>
          ports[q].isPhysical == Some(true) && ports[q].partner == partner0[q])
    && (forall q {:trigger ports[q].isPhysical} :: 0 <= q < |ports| && IsLoopbackPort(ports[q].name) && q !in ChosenPositions(positions) ==>
          ports[q].isPhysical == physical0[q] && ports[q].partner == partner0[q])
  }

  /** What `set_logical_physical` returns or raises. */
  datatype Classification =
    | Classified(halves: seq<Port>)   // one `_a` half per pair, in pair order
    | UnmatchedHalf(pairIndex: nat)   // `assert False`: one half of this pair is missing

  /** The inner loop of `set_logical_physical`: finds the last port with
      each of the two names of a pair. */
  method ScanForPair(ports: seq<Port>, aName: string, bName: string) returns (a: Port?, b: Port?)
    ensures a == (if LastIndexNamed(ports, aName).Some? then ports[LastIndexNamed(ports, aName).value] else null)
    ensures b == (if LastIndexNamed(ports, bName).Some? then ports[LastIndexNamed(ports, bName).value] else null)
  {
    a, b := null, null;
    for q := 0 to |ports|
      invariant a == (if LastIndexNamed(ports[..q], aName).Some? then ports[LastIndexNamed(ports[..q], aName).value] else null)
      invariant b == (if LastIndexNamed(ports[..q], bName).Some? then ports[LastIndexNamed(ports[..q], bName).value] else null)
    {
      assert ports[..q + 1][..q] == ports[..q];
      if ports[q].name == aName {
        a := ports[q];
      }
      if ports[q].name == bName {
        b := ports[q];
      }
    }
    assert ports[..|ports|] == ports;
  }

  /** `set_logical_physical`: marks every port whose name is not a loopback
      name physical, then pairs `loopback_port_<k>_a` with
      `loopback_port_<k>_b` for k = 0, 1, 2, ... until neither half of
      pair k exists, failing when exactly one half exists. Ports with a
      loopback name that are not chosen as a half keep their state. */
  method SetLogicalPhysical(ports: seq<Port>) returns (result: Classification)
    requires UniquePortNumbers(ports)
    modifies ports
    ensures forall q :: 0 <= q < |ports| && !IsLoopbackPort(ports[q].name) ==>
              ports[q].isPhysical == Some(true) && ports[q].partner == old(ports[q].partner)
    ensures result.Classified? ==>
              && ScanStopsAt(ports, |result.halves|)
              && Distinct(result.halves)
              && var positions := HalfPositions(ports, |result.halves|);
                 && (forall k :: 0 <= k < |positions| ==>
                       result.halves[k] == ports[positions[k].a] && Linked(ports[positions[k].a], ports[positions[k].b]))
                 && (forall q :: 0 <= q < |ports| && IsLoopbackPort(ports[q].name) && q !in ChosenPositions(positions) ==>
                       ports[q].isPhysical == old(ports[q].isPhysical) && ports[q].partner == old(ports[q].partner))
    ensures result.UnmatchedHalf? ==>
              && (forall k :: 0 <= k < result.pairIndex ==> BothHalvesPresent(ports, k))
              && !BothHalvesPresent(ports, result.pairIndex) && !NeitherHalfPresent(ports, result.pairIndex)
              && var positions := HalfPositions(ports, result.pairIndex);
                 && (forall k :: 0 <= k < |positions| ==> Linked(ports[positions[k].a], ports[positions[k].b]))
                 && (forall q :: 0 <= q < |ports| && IsLoopbackPort(ports[q].name) && q !in ChosenPositions(positions) ==>
                       ports[q].isPhysical == old(ports[q].isPhysical) && ports[q].partner == old(ports[q].partner))
    ensures PairingOutcome(ports, result, old(PhysicalFlags(ports)), old(PartnerFields(ports)))
  {
    ghost var physical0 := PhysicalFlags(ports);
    ghost var partner0 := PartnerFields(ports);
    // first, identify all physical ports
    MarkPhysicalPorts(ports);
    // next, pair logical ports
    result := PairLoopbackPorts(ports, physical0, partner0);
  }

  /** What the pairing loop establishes when it ends: a classification
      lists the `_a` half of every pair before the scan stops, and every
      chosen pair is linked; a failure names a pair with exactly one half. */
  ghost predicate PairingOutcome(ports: seq<Port>, result: Classification,
                                 physical0: seq<Option<bool>>, partner0: seq<Port?>)
    reads ports
  {
    match result
    case Classified(halves) =>
      && ScanStopsAt(ports, |halves|)
      && Distinct(halves)
      && PairingProgress(ports, HalfPositions(ports, |halves|), physical0, partner0)
      && (forall k :: 0 <= k < |halves| ==> halves[k] == ports[HalfPositions(ports, |halves|)[k].a])
    case UnmatchedHalf(pairIndex) =>
      && (forall k :: 0 <= k < pairIndex ==> BothHalvesPresent(ports, k))
      && !BothHalvesPresent(ports, pairIndex) && !NeitherHalfPresent(ports, pairIndex)
      && PairingProgress(ports, HalfPositions(ports, pairIndex), physical0, partner0)
  }

  /** The pairing loop of `set_logical_physical`, run after the physical
      ports are marked: for k = 0, 1, 2, ... links the last port named
      `loopback_port_<k>_a` with the last port named `loopback_port_<k>_b`,
      stopping when neither exists and failing when only one does. */
  method PairLoopbackPorts(ports: seq<Port>, ghost physical0: seq<Option<bool>>, ghost partner0: seq<Port?>)
      returns (result: Classification)
    requires UniquePortNumbers(ports)
    requires PairingProgress(ports, [], physical0, partner0)
    modifies ports
    ensures PairingOutcome(ports, result, physical0, partner0)
  {
    var toReturn: seq<Port> := [];
    var portPairNum: nat := 0;
    while true
      invariant portPairNum <= |ports|
      invariant PairsFound(ports, portPairNum)
      invariant PairingProgress(ports, HalfPositions(ports, portPairNum), physical0, partner0)
      invariant HalvesAt(ports, toReturn, HalfPositions(ports, portPairNum))
      decreases |ports| - portPairNum
    {
      var portA, portB := PairStep(ports, portPairNum, physical0, partner0);
      // no more pairs to match
      if portA == null && portB == null {
        ClassifiedOutcome(ports, toReturn, physical0, partner0);
        return Classified(toReturn);
      }
      // unmatched logical port
      if portA == null || portB == null {
        UnmatchedOutcome(ports, portPairNum, physical0, partner0);
        return UnmatchedHalf(portPairNum);
      }
      HalvesAtStep(ports, toReturn, portPairNum);
      toReturn := toReturn + [portA];
      portPairNum := portPairNum + 1;
    }
  }

  /** Both halves of each of the pairs 0 .. n - 1 exist. */
  predicate PairsFound(ports: seq<Port>, n: nat) {
    forall k :: 0 <= k < n ==> BothHalvesPresent(ports, k)
  }

  /** The pairing loop ends with a classification once neither half of the
      next pair exists. */
  lemma ClassifiedOutcome(ports: seq<Port>, halves: seq<Port>, physical0: seq<Option<bool>>, partner0: seq<Port?>)
    requires PairsFound(ports, |halves|) && NeitherHalfPresent(ports, |halves|)
    requires PairingProgress(ports, HalfPositions(ports, |halves|), physical0, partner0)
    requires HalvesAt(ports, halves, HalfPositions(ports, |halves|))
    ensures PairingOutcome(ports, Classified(halves), physical0, partner0)
  {
    HalvesDistinct(ports, halves, HalfPositions(ports, |halves|));
  }

  /** The pairing loop fails at the first pair with exactly one half. */
  lemma UnmatchedOutcome(ports: seq<Port>, n: nat, physical0: seq<Option<bool>>, partner0: seq<Port?>)
    requires PairsFound(ports, n)
    requires !BothHalvesPresent(ports, n) && !NeitherHalfPresent(ports, n)
    requires PairingProgress(ports, HalfPositions(ports, n), physical0, partner0)
    ensures PairingOutcome(ports, UnmatchedHalf(n), physical0, partner0)
  {
  }

  /** `halves` lists the `_a` half of each pair at `positions`. */
  ghost predicate HalvesAt(ports: seq<Port>, halves: seq<Port>, positions: seq<HalfPair>) {
    && |halves| == |positions|
    && forall k :: 0 <= k < |halves| ==> positions[k].a < |ports| && halves[k] == ports[positions[k].a]
  }

  /** Appending the `_a` half of pair `n` extends the listed halves. */
  lemma HalvesAtStep(ports: seq<Port>, halves: seq<Port>, n: nat)
    requires PairsFound(ports, n + 1)
    requires HalvesAt(ports, halves, HalfPositions(ports, n))
    ensures HalvesAt(ports, halves + [ports[HalfPositions(ports, n + 1)[n].a]], HalfPositions(ports, n + 1))
  {
    assert HalfPositions(ports, n + 1)[..n] == HalfPositions(ports, n);
  }

  /** One iteration of the pairing loop for pair `n`: scans for the two
      halves and, when both exist, links them. When a half is missing
      nothing changes. */
  method PairStep(ports: seq<Port>, n: nat, ghost physical0: seq<Option<bool>>, ghost partner0: seq<Port?>)
      returns (portA: Port?, portB: Port?)
    requires UniquePortNumbers(ports)
    requires PairsFound(ports, n)
    requires PairingProgress(ports, HalfPositions(ports, n), physical0, partner0)
    modifies ports
    ensures portA == null && portB == null ==> NeitherHalfPresent(ports, n)
    ensures (portA == null) != (portB == null) ==> !BothHalvesPresent(ports, n) && !NeitherHalfPresent(ports, n)
    ensures portA == null || portB == null ==> PairingProgress(ports, HalfPositions(ports, n), physical0, partner0)
    ensures portA != null && portB != null ==>
              && n + 1 <= |ports|
              && PairsFound(ports, n + 1)
              && portA == ports[HalfPositions(ports, n + 1)[n].a]
              && PairingProgress(ports, HalfPositions(ports, n + 1), physical0, partner0)
  {
    portA, portB := ScanForPair(ports, LoopbackPortA(n), LoopbackPortB(n));
    if portA != null && portB != null {
      ghost var ia := LastIndexNamed(ports, LoopbackPortA(n)).value;
      ghost var ib := LastIndexNamed(ports, LoopbackPortB(n)).value;
      NextPairFresh(ports, n, ia, ib);
      HalfPositionsStep(ports, n, ia, ib);
      LinkPair(ports, HalfPositions(ports, n), portA, portB, ia, ib, physical0, partner0);
    }
  }

  /** One step of the pairing loop: links the two chosen halves, which no
      earlier pair holds, and leaves every other port as it was. */
  method LinkPair(ports: seq<Port>, ghost positions: seq<HalfPair>, portA: Port, portB: Port,
                  ghost ia: nat, ghost ib: nat, ghost physical0: seq<Option<bool>>, ghost partner0: seq<Port?>)
    requires UniquePortNumbers(ports)
    requires ia < |ports| && ib < |ports| && ia != ib && portA == ports[ia] && portB == ports[ib]
    requires IsLoopbackPort(portA.name) && IsLoopbackPort(portB.name)
    requires ia !in ChosenPositions(positions) && ib !in ChosenPositions(positions)
    requires PairingProgress(ports, positions, physical0, partner0)
    modifies portA, portB
    ensures PairingProgress(ports, positions + [HalfPair(ia, ib)], physical0, partner0)
  {
    portA.SetLogical(portB);
    portB.SetLogical(portA);
    var extended := positions + [HalfPair(ia, ib)];
    ChosenPositionsHeld(positions, ia);
    ChosenPositionsHeld(positions, ib);
    forall k | 0 <= k < |extended|
      ensures extended[k].a < |ports| && extended[k].b < |ports| && Linked(ports[extended[k].a], ports[extended[k].b])
    {
      if k < |positions| {
        assert extended[k] == positions[k];
        var xa, xb := positions[k].a, positions[k].b;
        assert xa != ia && xa != ib && xb != ia && xb != ib;
        assert ports[xa].number != portA.number && ports[xa].number != portB.number;
        assert ports[xb].number != portA.number && ports[xb].number != portB.number;
        assert old(Linked(ports[xa], ports[xb]));
      }
    }
    forall q | 0 <= q < |ports| && q != ia && q != ib
      ensures ports[q].isPhysical == old(ports[q].isPhysical) && ports[q].partner == old(ports[q].partner)
    {
      assert ports[q].number != portA.number && ports[q].number != portB.number;
    }
    ChosenAppend(positions, ia, ib);
  }

  /** The halves found for pair `n` are two different ports that no earlier
      pair holds, both with loopback names, and there is room for them. */
  lemma NextPairFresh(ports: seq<Port>, n: nat, ia: nat, ib: nat)
    requires forall k :: 0 <= k < n ==> BothHalvesPresent(ports, k)
    requires LastIndexNamed(ports, LoopbackPortA(n)) == Some(ia)
    requires LastIndexNamed(ports, LoopbackPortB(n)) == Some(ib)
    ensures ia != ib
    ensures ia !in ChosenPositions(HalfPositions(ports, n)) && ib !in ChosenPositions(HalfPositions(ports, n))
    ensures IsLoopbackPort(ports[ia].name) && IsLoopbackPort(ports[ib].name)
    ensures n + 1 <= |ports|
  {
    var positions := HalfPositions(ports, n);
    LoopbackNamesRecognised(n);
    LoopbackNamesDistinct(n, n);
    forall k | 0 <= k < n
      ensures positions[k].a != ia && positions[k].a != ib && positions[k].b != ia && positions[k].b != ib
    {
      LoopbackNamesDistinct(k, n);
      LoopbackNamesDistinct(n, k);
    }
    var aPositions := seq(n + 1, j requires 0 <= j <= n => if j < n then positions[j].a else ia);
    forall j1, j2 | 0 <= j1 < j2 < |aPositions|
      ensures aPositions[j1] != aPositions[j2]
    {
      LoopbackNamesDistinct(j1, j2);
    }
    DistinctBelowBound(aPositions, |ports|);
    ChosenPositionsHeld(positions, ia);
    ChosenPositionsHeld(positions, ib);
  }

  /** Finding both halves of pair `n` extends the chosen positions by one. */
  lemma HalfPositionsStep(ports: seq<Port>, n: nat, ia: nat, ib: nat)
    requires forall k :: 0 <= k < n ==> BothHalvesPresent(ports, k)
    requires LastIndexNamed(ports, LoopbackPortA(n)) == Some(ia)
    requires LastIndexNamed(ports, LoopbackPortB(n)) == Some(ib)
    ensures forall k :: 0 <= k < n + 1 ==> BothHalvesPresent(ports, k)
    ensures HalfPositions(ports, n + 1) == HalfPositions(ports, n) + [HalfPair(ia, ib)]
  {
  }

  /** The returned halves are distinct ports: each carries the `_a` name of
      its own pair. */
  lemma HalvesDistinct(ports: seq<Port>, halves: seq<Port>, positions: seq<HalfPair>)
    requires forall k :: 0 <= k < |halves| ==> BothHalvesPresent(ports, k)
    requires positions == HalfPositions(ports, |halves|)
    requires forall k :: 0 <= k < |halves| ==> halves[k] == ports[positions[k].a]
    ensures Distinct(halves)
  {
    forall i, j | 0 <= i < j < |halves|
      ensures halves[i] != halves[j]
    {
      LoopbackNamesDistinct(i, j);
    }
  }

  /** The pair halves and their partners carry pairwise different port
      numbers: no number belongs both to a half and to a partner, and no
      two pairs share one. */
  predicate PairNumbersDistinct(halves: seq<Port>, partners: seq<Port>)
    requires |halves| == |partners|
  {
    forall r1, r2 {:trigger halves[r1].number, partners[r2].number}
                  {:trigger halves[r1].number, halves[r2].number}
                  {:trigger partners[r1].number, partners[r2].number} ::
      0 <= r1 < |halves| && 0 <= r2 < |halves| ==>
      && halves[r1].number != partners[r2].number
      && (r1 != r2 ==> halves[r1].number != halves[r2].number && partners[r1].number != partners[r2].number)
  }

  /** Ports at two different positions of a list with unique numbers have
      different numbers. */
  lemma NumbersDifferAt(ports: seq<Port>, p: nat, q: nat)
    requires UniquePortNumbers(ports) && p < |ports| && q < |ports| && p != q
    ensures ports[p].number != ports[q].number
  {
    if q < p {
      assert ports[q].number != ports[p].number;
    }
  }

  /** The chosen halves and partners sit at the positions of their own
      names, which differ from pair to pair and from half to half; with
      unique port numbers they carry pairwise different numbers. */
  lemma ChosenNumbersDistinct(ports: seq<Port>, halves: seq<Port>, partners: seq<Port>)
    requires UniquePortNumbers(ports) && |halves| == |partners|
    requires forall k :: 0 <= k < |halves| ==> BothHalvesPresent(ports, k)
    requires forall k :: 0 <= k < |halves| ==>
               && halves[k] == ports[HalfPositions(ports, |halves|)[k].a]
               && partners[k] == ports[HalfPositions(ports, |halves|)[k].b]
    ensures PairNumbersDistinct(halves, partners)
  {
    var positions := HalfPositions(ports, |halves|);
    forall r1, r2 | 0 <= r1 < |halves| && 0 <= r2 < |halves|
      ensures halves[r1].number != partners[r2].number
      ensures r1 != r2 ==> halves[r1].number != halves[r2].number && partners[r1].number != partners[r2].number
    {
      LoopbackNamesDistinct(r1, r2);
      NumbersDifferAt(ports, positions[r1].a, positions[r2].b);
      if r1 != r2 {
        NumbersDifferAt(ports, positions[r1].a, positions[r2].a);
        NumbersDifferAt(ports, positions[r1].b, positions[r2].b);
      }
    }
  }

  /** A port carrying the name is found. */
  lemma NamePresentFound(ports: seq<Port>, portName: string, q: nat)
    requires q < |ports| && ports[q].name == portName
    ensures LastIndexNamed(ports, portName).Some?
  {
    LastIndexNamedIsLast(ports, portName);
  }

  /** The start-up harness adds the two halves of pairs 0 .. C(n,2) - 1 and
      no other port with a loopback name. Then the scan finds both halves of
      exactly those pairs and neither half of any later pair, so it never
      fails and stops at C(n,2), from which n principals are supported. */
  lemma HarnessPairsFound(ports: seq<Port>, numPrincipals: nat)
    requires numPrincipals >= 1
    requires forall k :: 0 <= k < NumLogicalPortPairs(numPrincipals) ==>
               (exists q :: 0 <= q < |ports| && ports[q].name == LoopbackPortA(k))
               && (exists q :: 0 <= q < |ports| && ports[q].name == LoopbackPortB(k))
    requires forall q :: 0 <= q < |ports| && IsLoopbackPort(ports[q].name) ==>
               exists k :: 0 <= k < NumLogicalPortPairs(numPrincipals)
                 && (ports[q].name == LoopbackPortA(k) || ports[q].name == LoopbackPortB(k))
    ensures forall k :: 0 <= k < NumLogicalPortPairs(numPrincipals) ==> BothHalvesPresent(ports, k)
    ensures forall k :: k >= NumLogicalPortPairs(numPrincipals) ==> NeitherHalfPresent(ports, k)
    ensures ScanStopsAt(ports, NumLogicalPortPairs(numPrincipals))
    ensures NumPrincipalsSupported(NumLogicalPortPairs(numPrincipals)) == numPrincipals
  {
    var pairs := NumLogicalPortPairs(numPrincipals);
    forall k | 0 <= k < pairs
      ensures BothHalvesPresent(ports, k)
    {
      var qa :| 0 <= qa < |ports| && ports[qa].name == LoopbackPortA(k);
      var qb :| 0 <= qb < |ports| && ports[qb].name == LoopbackPortB(k);
      NamePresentFound(ports, LoopbackPortA(k), qa);
      NamePresentFound(ports, LoopbackPortB(k), qb);
    }
    forall k | k >= pairs
      ensures NeitherHalfPresent(ports, k)
    {
      NoLaterHalf(ports, pairs, k, LoopbackPortA(k));
      NoLaterHalf(ports, pairs, k, LoopbackPortB(k));
    }
    PairsPrincipalsRoundTrip(numPrincipals);
  }

  lemma NoLaterHalf(ports: seq<Port>, pairs: nat, k: nat, portName: string)
    requires k >= pairs
    requires portName == LoopbackPortA(k) || portName == LoopbackPortB(k)
    requires forall q :: 0 <= q < |ports| && IsLoopbackPort(ports[q].name) ==>
               exists j :: 0 <= j < pairs && (ports[q].name == LoopbackPortA(j) || ports[q].name == LoopbackPortB(j))
    ensures LastIndexNamed(ports, portName).None?
  {
    var r := LastIndexNamed(ports, portName);
    if r.Some? {
      var q := r.value;
      assert IsLoopbackPort(ports[q].name);
      var j :| 0 <= j < pairs && (ports[q].name == LoopbackPortA(j) || ports[q].name == LoopbackPortB(j));
      LoopbackNamesDistinct(j, k);
      LoopbackNamesDistinct(k, j);
    }
  }

  /** The first loop of `set_logical_physical`: every port whose name is
      not a loopback name becomes physical; nothing else changes. */
  method MarkPhysicalPorts(ports: seq<Port>)
    requires UniquePortNumbers(ports)
    modifies ports
    ensures forall q :: 0 <= q < |ports| ==>
              ports[q].isPhysical == (if IsLoopbackPort(ports[q].name) then old(ports[q].isPhysical) else Some(true))
    ensures forall q :: 0 <= q < |ports| ==> ports[q].partner == old(ports[q].partner)
  {
    for i := 0 to |ports|
      invariant forall q :: 0 <= q < i ==>
                  ports[q].isPhysical == (if IsLoopbackPort(ports[q].name) then old(ports[q].isPhysical) else Some(true))
      invariant forall q :: i <= q < |ports| ==> ports[q].isPhysical == old(ports[q].isPhysical)
      invariant forall q :: 0 <= q < |ports| ==> ports[q].partner == old(ports[q].partner)
    {
      assert forall q :: 0 <= q < |ports| && q != i ==> ports[q].number != ports[i].number;
      if !IsLoopbackPort(ports[i].name) {
        ports[i].SetPhysical();
      }
    }
  }
}
