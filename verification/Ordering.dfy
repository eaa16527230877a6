/** Node ids, the order Go puts on strings, and the two sorting helpers of the DAG runtime. */
module Ordering {
  type Id = string

  /** Go's `<` on strings: the first difference decides, a proper prefix comes first. */
  predicate Less(a: Id, b: Id)
  {
    |b| > 0 && (|a| == 0 || a[0] < b[0] || (a[0] == b[0] && Less(a[1..], b[1..])))
  }

  lemma {:induction false} LessIrreflexive(a: Id)
    ensures !Less(a, a)
  {
    if |a| > 0 {
      LessIrreflexive(a[1..]);
    }
  }

  lemma {:induction false} LessTransitive(a: Id, b: Id, c: Id)
    requires Less(a, b) && Less(b, c)
    ensures Less(a, c)
  {
    if |a| > 0 && a[0] == b[0] == c[0] {
      LessTransitive(a[1..], b[1..], c[1..]);
    }
  }

  /** Any two different ids are ordered one way or the other. */
  lemma {:induction false} LessTotal(a: Id, b: Id)
    ensures a == b || Less(a, b) || Less(b, a)
  {
    if |a| > 0 && |b| > 0 && a[0] == b[0] {
      LessTotal(a[1..], b[1..]);
      if a[1..] == b[1..] {
        assert a == [a[0]] + a[1..] && b == [b[0]] + b[1..];
      }
    }
  }

  lemma LessAsymmetric(a: Id, b: Id)
    requires Less(a, b)
    ensures !Less(b, a)
  {
    if Less(b, a) {
      LessTransitive(a, b, a);
      LessIrreflexive(a);
    }
  }

  /** `a <= b <= c` gives `a <= c`, for the order that `!Less` writes backwards. */
  lemma LeqTransitive(a: Id, b: Id, c: Id)
    requires !Less(b, a) && !Less(c, b)
    ensures !Less(c, a)
  {
    LessTotal(a, b);
    if Less(c, a) && Less(a, b) {
      LessTransitive(c, a, b);
    }
  }

  /** The first place where the two differ, if any, decides; otherwise the shorter one comes first. */
  lemma {:induction false} LessExact(a: Id, b: Id)
    ensures Less(a, b) <==>
      exists k: nat :: k <= |a| && k < |b| && a[..k] == b[..k] && (k == |a| || a[k] < b[k])
  {
    if |a| > 0 && |b| > 0 && a[0] == b[0] {
      LessExact(a[1..], b[1..]);
      if Less(a[1..], b[1..]) {
        var k: nat :| k <= |a| - 1 && k < |b| - 1 && a[1..][..k] == b[1..][..k] &&
          (k == |a| - 1 || a[1..][k] < b[1..][k]);
        assert a[..k + 1] == [a[0]] + a[1..][..k] && b[..k + 1] == [b[0]] + b[1..][..k];
      }
      if k: nat :| k <= |a| && k < |b| && a[..k] == b[..k] && (k == |a| || a[k] < b[k]) {
        assert k > 0;
        assert a[1..][..k - 1] == a[..k][1..] && b[1..][..k - 1] == b[..k][1..];
      }
    } else if Less(a, b) {
      assert a[..0] == b[..0];
    } else if k: nat :| k <= |a| && k < |b| && a[..k] == b[..k] && (k == |a| || a[k] < b[k]) {
      assert k > 0 ==> a[..k][0] == b[..k][0];
    }
  }

  /** Ascending, duplicates allowed. */
  ghost predicate Sorted(s: seq<Id>)
  {
    forall i, j :: 0 <= i < j < |s| ==> !Less(s[j], s[i])
  }

  ghost predicate NoDup<T(!new)>(s: seq<T>)
  {
    forall i, j :: 0 <= i < j < |s| ==> s[i] != s[j]
  }

  // --- sorted insertion -------------------------------------------------------------------

  /** How many leading ids of `s` lie below `v`. */
  function LowerBound(s: seq<Id>, v: Id): (k: nat)
    ensures k <= |s|
    ensures forall i :: 0 <= i < k ==> Less(s[i], v)
    ensures k < |s| ==> !Less(s[k], v)
  {
    if |s| > 0 && Less(s[0], v) then 1 + LowerBound(s[1..], v) else 0
  }

  /** `s` with `v` put in front of the first id that is not below it. */
  function Inserted(s: seq<Id>, v: Id): seq<Id>
  {
    var k := LowerBound(s, v);
    s[..k] + [v] + s[k..]
  }

  lemma InsertedSorted(s: seq<Id>, v: Id)
    requires Sorted(s)
    ensures Sorted(Inserted(s, v))
  {
    var k := LowerBound(s, v);
    var r := Inserted(s, v);
    LessIrreflexive(v);
    forall i, j | 0 <= i < j < |r|
      ensures !Less(r[j], r[i])
    {
      if i == k {
        if k < j - 1 { LeqTransitive(v, s[k], s[j - 1]); }
      } else if j == k {
        LessAsymmetric(s[i], v);
      }
    }
  }

  /** In a sorted list the lower bound is the only split into "below v" and "not below v". */
  lemma {:induction false} LowerBoundUnique(s: seq<Id>, v: Id, k: nat)
    requires k <= |s|
    requires forall i :: 0 <= i < k ==> Less(s[i], v)
    requires forall i :: k <= i < |s| ==> !Less(s[i], v)
    ensures LowerBound(s, v) == k
  {
    if k > 0 {
      LowerBoundUnique(s[1..], v, k - 1);
    }
  }

  /** The binary search of `insertSorted`. */
  method SearchInsert(s: seq<Id>, v: Id) returns (lo: nat)
    requires Sorted(s)
    ensures lo == LowerBound(s, v)
  {
    lo := 0;
    var hi := |s|;
    while lo < hi
      invariant 0 <= lo <= hi <= |s|
      invariant forall i :: 0 <= i < lo ==> Less(s[i], v)
      invariant forall i :: hi <= i < |s| ==> !Less(s[i], v)
    {
      var mid := (lo + hi) / 2;
      if Less(s[mid], v) {
        BelowPrefix(s, v, mid);
        lo := mid + 1;
      } else {
        AboveSuffix(s, v, mid);
        hi := mid;
      }
    }
    LowerBoundUnique(s, v, lo);
  }

  lemma BelowPrefix(s: seq<Id>, v: Id, mid: nat)
    requires Sorted(s) && mid < |s| && Less(s[mid], v)
    ensures forall i :: 0 <= i <= mid ==> Less(s[i], v)
  {
    forall i | 0 <= i < mid ensures Less(s[i], v) {
      if !Less(s[i], v) { LeqTransitive(v, s[i], s[mid]); }
    }
  }

  lemma AboveSuffix(s: seq<Id>, v: Id, mid: nat)
    requires Sorted(s) && mid < |s| && !Less(s[mid], v)
    ensures forall i :: mid <= i < |s| ==> !Less(s[i], v)
  {
    forall i | mid < i < |s| ensures !Less(s[i], v) {
      LeqTransitive(v, s[mid], s[i]);
    }
  }

  /** `insertSorted`: the search, then the shift. */
  method InsertSorted(s: seq<Id>, v: Id) returns (r: seq<Id>)
    requires Sorted(s)
    ensures r == Inserted(s, v)
    ensures Sorted(r) && multiset(r) == multiset(s) + multiset{v}
  {
    var lo := SearchInsert(s, v);
    r := s[..lo] + [v] + s[lo..];
    InsertedSorted(s, v);
    assert s == s[..lo] + s[lo..];
  }

  // --- insertion sort ---------------------------------------------------------------------

  /** The in-place insertion sort of `sortStrings`: each id sinks by adjacent swaps. */
  method SortStrings(a: array<Id>)
    modifies a
    ensures Sorted(a[..])
    ensures multiset(a[..]) == multiset(old(a[..]))
  {
    var i := 1;
    while i < a.Length
      invariant 1 <= i
      invariant i <= a.Length || a.Length == 0
      invariant a.Length > 0 ==> Sorted(a[..i])
      invariant multiset(a[..]) == multiset(old(a[..]))
    {
      SinkLast(a, i);
      i := i + 1;
    }
    assert a.Length > 0 ==> a[..a.Length] == a[..];
  }

  /** Sorted but for position `j`, which may be below its left neighbours. */
  ghost predicate SortedBut(s: seq<Id>, j: nat)
  {
    forall p, q :: 0 <= p < q < |s| && q != j ==> !Less(s[q], s[p])
  }

  /** The inner loop: position `i` moves left past everything greater. */
  method SinkLast(a: array<Id>, i: nat)
    requires i < a.Length && Sorted(a[..i])
    modifies a
    ensures Sorted(a[..i + 1]) && a[i + 1..] == old(a[i + 1..])
    ensures multiset(a[..]) == multiset(old(a[..]))
  {
    var j := i;
    while j > 0 && Less(a[j], a[j - 1])
      invariant 0 <= j <= i && SortedBut(a[..i + 1], j)
      invariant a[i + 1..] == old(a[i + 1..])
      invariant multiset(a[..]) == multiset(old(a[..]))
    {
      ghost var s := a[..i + 1];
      a[j - 1], a[j] := a[j], a[j - 1];
      SwappedSortedBut(s, j, a[..i + 1]);
      j := j - 1;
    }
    SunkSorted(a[..i + 1], j);
  }

  lemma SwappedSortedBut(s: seq<Id>, j: nat, t: seq<Id>)
    requires 0 < j < |s| && SortedBut(s, j) && Less(s[j], s[j - 1])
    requires t == s[j - 1 := s[j]][j := s[j - 1]]
    ensures SortedBut(t, j - 1)
  {
    LessAsymmetric(s[j], s[j - 1]);
  }

  lemma SunkSorted(s: seq<Id>, j: nat)
    requires j < |s| && SortedBut(s, j) && (j > 0 ==> !Less(s[j], s[j - 1]))
    ensures Sorted(s)
  {
    forall p | 0 <= p < j ensures !Less(s[j], s[p]) {
      if p < j - 1 { LeqTransitive(s[p], s[j - 1], s[j]); }
    }
  }

  /** `SortStrings` on a slice held as a sequence. */
  method SortedCopy(s: seq<Id>) returns (r: seq<Id>)
    ensures Sorted(r) && multiset(r) == multiset(s)
  {
    var a := new Id[|s|](i requires 0 <= i < |s| => s[i]);
    assert a[..] == s;
    SortStrings(a);
    r := a[..];
  }

  lemma NoDupTail<T(!new)>(s: seq<T>)
    requires s != [] && NoDup(s)
    ensures NoDup(s[1..]) && s[0] !in s[1..]
  {
    assert forall i :: 0 <= i < |s| - 1 ==> s[1..][i] == s[i + 1];
  }

  lemma NoDupCons<T(!new)>(head: T, tail: seq<T>)
    requires NoDup(tail) && head !in tail
    ensures NoDup([head] + tail)
  {
  }

  lemma TakeOne<T>(s: seq<T>, i: nat)
    requires i < |s|
    ensures s[..i + 1] == s[..i] + [s[i]]
  {
  }

  lemma HeadIn<T>(s: seq<T>)
    requires s != []
    ensures s[0] in s && multiset(s)[s[0]] > 0
  {
  }

  /** A list has at most one sorted arrangement. */
  lemma {:induction false} SortedUnique(a: seq<Id>, b: seq<Id>)
    requires Sorted(a) && Sorted(b) && multiset(a) == multiset(b)
    ensures a == b
    decreases |a|
  {
    assert |a| == |multiset(a)| && |b| == |multiset(b)|;
    if |a| > 0 {
      SortedHead(a, b);
      TailMultiset(a);
      TailMultiset(b);
      SortedUnique(a[1..], b[1..]);
    }
  }

  lemma TailMultiset(a: seq<Id>)
    requires |a| > 0
    ensures a == [a[0]] + a[1..] && multiset(a[1..]) == multiset(a) - multiset{a[0]}
  {
    assert a == [a[0]] + a[1..];
  }

  lemma SortedHead(a: seq<Id>, b: seq<Id>)
    requires Sorted(a) && Sorted(b) && multiset(a) == multiset(b) && |a| > 0 && |b| > 0
    ensures a[0] == b[0]
  {
    assert a[0] in multiset(b) && b[0] in multiset(a);
    LessTotal(a[0], b[0]);
    LessIrreflexive(a[0]);
  }
}
