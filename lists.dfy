/** Small sequence and set utilities shared by the model: Python's `range`,
    the conversion of a set to a list, and a counting argument. */
module Lists {

  /** Python's `range(lo, hi)`: the integers from `lo` up to, not including,
      `hi`, and the empty list when `hi <= lo`. */
  function Range(lo: int, hi: int): (r: seq<int>)
    ensures |r| == if lo < hi then hi - lo else 0
    ensures forall i :: 0 <= i < |r| ==> r[i] == lo + i
    ensures forall t :: t in r <==> lo <= t < hi
    decreases hi - lo
  {
    if hi <= lo then [] else [lo] + Range(lo + 1, hi)
  }

  /** No element occurs twice. */
  predicate Distinct<T(==)>(s: seq<T>) {
    forall i, j :: 0 <= i < j < |s| ==> s[i] != s[j]
  }

  /** The position of the first occurrence of `v` in `s`, or `|s|` when
      there is none. */
  function FirstIndex<T(==)>(s: seq<T>, v: T): (r: nat)
    ensures r <= |s| && (r < |s| ==> s[r] == v)
  {
    if s == [] then 0 else if s[0] == v then 0 else 1 + FirstIndex(s[1..], v)
  }

  /** Nothing before the first occurrence equals `v`. */
  lemma {:induction false} FirstIndexIsFirst<T>(s: seq<T>, v: T)
    ensures forall k :: 0 <= k < FirstIndex(s, v) ==> s[k] != v
  {
    if s != [] && s[0] != v {
      FirstIndexIsFirst(s[1..], v);
      forall k | 0 < k < FirstIndex(s, v)
        ensures s[k] != v
      {
        assert s[k] == s[1..][k - 1];
      }
    }
  }

  predicate StrictlyIncreasing(s: seq<int>) {
    forall i, j :: 0 <= i < j < |s| ==> s[i] < s[j]
  }

  /** A set is empty or has an element (set extensionality). */
  lemma EmptyOrInhabited(s: set<int>)
    ensures s == {} || exists x :: x in s
  {
    if forall y :: y !in s {
      assert s == {};
    }
  }

  /** Some element of a non-empty set. */
  lemma PickOne(s: set<int>) returns (x: int)
    requires s != {}
    ensures x in s
  {
    EmptyOrInhabited(s);
    x :| x in s;
  }

  lemma MinExists(s: set<int>)
    requires s != {}
    ensures exists m :: m in s && forall y :: y in s ==> m <= y
    decreases |s|
  {
    var x := PickOne(s);
    if s == {x} {
      assert forall y :: y in s ==> x <= y;
    } else {
      MinExists(s - {x});
      var m' :| m' in s - {x} && forall y :: y in s - {x} ==> m' <= y;
      var m := if x < m' then x else m';
      forall y | y in s
        ensures m <= y
      {
        if y != x {
          assert y in s - {x};
        }
      }
      assert m in s;
    }
  }

  /** The least element of a non-empty set. */
  function SetMin(s: set<int>): (m: int)
    requires s != {}
    ensures m in s
  {
    MinExists(s);
    var m :| m in s && forall y :: y in s ==> m <= y;
    m
  }

  /** No element of the set is below its least element. */
  lemma SetMinIsLeast(s: set<int>)
    requires s != {}
    ensures forall y :: y in s ==> SetMin(s) <= y
  {
  }

  /** The elements of a set as a list. Python's `list(s)` over a set or over
      the keys of a dictionary yields them in an order the language leaves
      unspecified; the model fixes ascending order. */
  function SortedList(s: set<int>): (r: seq<int>)
    decreases |s|
  {
    if s == {} then []
    else
      var m := SetMin(s);
      [m] + SortedList(s - {m})
  }

  /** The list holds exactly the elements of the set, one entry per
      element. */
  lemma {:induction false} SortedListMembers(s: set<int>)
    ensures |SortedList(s)| == |s|
    ensures forall x :: x in SortedList(s) <==> x in s
    decreases |s|
  {
    if s != {} {
      var m := SetMin(s);
      SortedListMembers(s - {m});
      assert SortedList(s) == [m] + SortedList(s - {m});
    }
  }

  /** The list is in ascending order, so no element occurs twice. */
  lemma {:induction false} SortedListIncreasing(s: set<int>)
    ensures StrictlyIncreasing(SortedList(s))
    ensures Distinct(SortedList(s))
    decreases |s|
  {
    if s != {} {
      var m := SetMin(s);
      SortedListIncreasing(s - {m});
      SortedListMembers(s - {m});
      SetMinIsLeast(s);
      var r := SortedList(s);
      assert r == [m] + SortedList(s - {m});
      forall i, j | 0 <= i < j < |r|
        ensures r[i] < r[j]
      {
        if i == 0 {
          assert r[j] in s - {m};
        } else {
          assert r[i] == SortedList(s - {m})[i - 1] && r[j] == SortedList(s - {m})[j - 1];
        }
      }
    }
  }

  /** Pigeonhole: distinct naturals all below `n` are at most `n` in number. */
  lemma {:induction false} DistinctBelowBound(s: seq<nat>, n: nat)
    requires Distinct(s)
    requires forall i :: 0 <= i < |s| ==> s[i] < n
    ensures |s| <= n
  {
    if |s| == 0 {
      return;
    }
    assert s[0] < n;
    if i :| 0 <= i < |s| && s[i] == n - 1 {
      var rest := s[..i] + s[i + 1..];
      assert |rest| == |s| - 1;
      forall a, b | 0 <= a < b < |rest|
        ensures rest[a] != rest[b]
      {
        var a' := if a < i then a else a + 1;
        var b' := if b < i then b else b + 1;
        assert rest[a] == s[a'] && rest[b] == s[b'];
      }
      forall a | 0 <= a < |rest|
        ensures rest[a] < n - 1
      {
        var a' := if a < i then a else a + 1;
        assert rest[a] == s[a'] && a' != i;
      }
      DistinctBelowBound(rest, n - 1);
    } else {
      DistinctBelowBound(s, n - 1);
    }
  }

  /** Appending is associative: a log that grows by whole batches is the
      same however the batches are grouped. */
  lemma AppendAssoc<T>(a: seq<T>, b: seq<T>, c: seq<T>)
    ensures (a + b) + c == a + (b + c)
  {
  }

  /** Multiplying by a non-negative factor keeps the order. */
  lemma MulMonotone(a: nat, b: nat, k: int)
    requires a <= b && k >= 0
    ensures a * k <= b * k
  {
  }
}
