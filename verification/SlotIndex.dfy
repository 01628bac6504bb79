/** The slot index every process computes for itself from its configured names (init_shm_mapping of the actuary, trader
    and receiver contexts): copy, sort, number. */
module SlotIndex {

  // std::string order.
  predicate AtMost(a: string, b: string) {
    a == [] || (b != [] && (a[0] < b[0] || (a[0] == b[0] && AtMost(a[1..], b[1..]))))
  }

  lemma AtMostTotal(a: string, b: string)
    ensures AtMost(a, b) || AtMost(b, a)
  {}

  lemma AtMostAntisymmetric(a: string, b: string)
    requires AtMost(a, b) && AtMost(b, a)
    ensures a == b
  {
    if a != [] {
      AtMostAntisymmetric(a[1..], b[1..]);
      assert a == [a[0]] + a[1..] && b == [b[0]] + b[1..];
    }
  }

  lemma AtMostTransitive(a: string, b: string, c: string)
    requires AtMost(a, b) && AtMost(b, c)
    ensures AtMost(a, c)
  {}

  predicate Sorted(names: seq<string>) {
    forall i, j :: 0 <= i < j < |names| ==> AtMost(names[i], names[j])
  }

  // Insertion into a sorted list; the sort itself is a library call in the source.
  method Insert(sorted: seq<string>, name: string) returns (r: seq<string>)
    requires Sorted(sorted)
    ensures Sorted(r) && multiset(r) == multiset(sorted) + multiset{name}
  {
    var k := 0;
    while k < |sorted| && AtMost(sorted[k], name)
      invariant 0 <= k <= |sorted|
      invariant forall i :: 0 <= i < k ==> AtMost(sorted[i], name)
    {
      k := k + 1;
    }
    r := sorted[..k] + [name] + sorted[k..];
    if k < |sorted| {
      AtMostTotal(sorted[k], name);
    }
    InsertedSorted(sorted, name, k);
    assert sorted == sorted[..k] + sorted[k..];
  }

  lemma InsertedSorted(sorted: seq<string>, name: string, k: nat)
    requires Sorted(sorted) && k <= |sorted|
    requires forall i :: 0 <= i < k ==> AtMost(sorted[i], name)
    requires k < |sorted| ==> AtMost(name, sorted[k])
    ensures Sorted(sorted[..k] + [name] + sorted[k..])
  {
    var r := sorted[..k] + [name] + sorted[k..];
    forall j | k <= j < |sorted| ensures AtMost(name, sorted[j]) {
      if j > k { AtMostTransitive(name, sorted[k], sorted[j]); }
    }
    forall i, j | 0 <= i < j < |r| ensures AtMost(r[i], r[j]) {
      assert r[i] == if i < k then sorted[i] else if i == k then name else sorted[i - 1];
      assert r[j] == if j < k then sorted[j] else if j == k then name else sorted[j - 1];
    }
  }

  method Sort(names: seq<string>) returns (sorted: seq<string>)
    ensures Sorted(sorted) && multiset(sorted) == multiset(names)
  {
    sorted := [];
    for i := 0 to |names|
      invariant Sorted(sorted) && multiset(sorted) == multiset(names[..i])
    {
      assert names[..i + 1] == names[..i] + [names[i]];
      sorted := Insert(sorted, names[i]);
    }
    assert names[..|names|] == names;
  }

  /** The number of a name is its last position in the sorted list. */
  ghost predicate Numbers(index: map<string, nat>, sorted: seq<string>) {
    && (forall name :: name in index <==> name in sorted)
    && (forall name :: name in index ==> index[name] < |sorted| && sorted[index[name]] == name)
    && (forall i, name :: name in index && 0 <= i < |sorted| && sorted[i] == name ==> i <= index[name])
  }

  /** The index of a configured list: its names sorted and numbered. */
  ghost predicate Maps(index: map<string, nat>, names: seq<string>) {
    exists sorted :: Sorted(sorted) && multiset(sorted) == multiset(names) && Numbers(index, sorted)
  }

  method InitShmMapping(names: seq<string>) returns (index: map<string, nat>)
    ensures Maps(index, names)
  {
    var sorted := Sort(names);
    index := map[];
    for i := 0 to |sorted|
      invariant Numbers(index, sorted[..i])
    {
      assert sorted[..i + 1] == sorted[..i] + [sorted[i]];
      index := index[sorted[i] := i];
    }
    assert sorted[..|sorted|] == sorted;
  }

  // Both lists start with the least of their common elements.
  lemma SameHead(a: seq<string>, b: seq<string>)
    requires Sorted(a) && Sorted(b) && multiset(a) == multiset(b) && a != [] && b != []
    ensures a[0] == b[0]
  {
    assert a[0] in multiset(b) && b[0] in multiset(a);
    var i :| 0 <= i < |b| && b[i] == a[0];
    var j :| 0 <= j < |a| && a[j] == b[0];
    if i > 0 && j > 0 {
      assert AtMost(b[0], b[i]) && AtMost(a[0], a[j]);
      AtMostAntisymmetric(a[0], b[0]);
    }
  }

  lemma TailElements(a: seq<string>)
    requires a != []
    ensures multiset(a[1..]) == multiset(a) - multiset{a[0]}
  {
    assert a == [a[0]] + a[1..];
  }

  lemma SameLength(a: seq<string>, b: seq<string>)
    requires multiset(a) == multiset(b)
    ensures |a| == |b|
  {
    assert |multiset(a)| == |a| && |multiset(b)| == |b|;
  }

  /** There is only one way to sort a list. */
  lemma {:induction false} SortedUnique(a: seq<string>, b: seq<string>)
    requires Sorted(a) && Sorted(b) && multiset(a) == multiset(b)
    ensures a == b
  {
    SameLength(a, b);
    if a != [] {
      SameHead(a, b);
      TailElements(a);
      TailElements(b);
      SortedUnique(a[1..], b[1..]);
      assert a == [a[0]] + a[1..] && b == [b[0]] + b[1..];
    }
  }

  lemma NumbersUnique(p: map<string, nat>, q: map<string, nat>, sorted: seq<string>)
    requires Numbers(p, sorted) && Numbers(q, sorted)
    ensures p == q
  {
    forall name | name in p ensures name in q && p[name] == q[name] {
      assert name in sorted;
    }
    assert p.Keys == q.Keys;
  }

  /** Processes configured with the same names, in whatever order, number their slots alike. */
  lemma IndicesAgree(names: seq<string>, others: seq<string>, p: map<string, nat>, q: map<string, nat>)
    requires multiset(names) == multiset(others)
    requires Maps(p, names) && Maps(q, others)
    ensures p == q
  {
    var a :| Sorted(a) && multiset(a) == multiset(names) && Numbers(p, a);
    var b :| Sorted(b) && multiset(b) == multiset(others) && Numbers(q, b);
    SortedUnique(a, b);
    NumbersUnique(p, q, a);
  }

  predicate NoDuplicates(names: seq<string>) {
    forall i, j :: 0 <= i < j < |names| ==> names[i] != names[j]
  }

  lemma {:induction false} NoDuplicatesCounts(names: seq<string>, name: string)
    ensures NoDuplicates(names) ==> multiset(names)[name] <= 1
  {
    if names != [] && NoDuplicates(names) {
      NoDuplicatesCounts(names[1..], name);
      TailElements(names);
      if name == names[0] {
        assert name !in names[1..];
      }
    }
  }

  lemma DuplicateCounts(names: seq<string>, i: nat, j: nat)
    requires i < j < |names| && names[i] == names[j]
    ensures multiset(names)[names[j]] >= 2
  {
    assert names == names[..j] + names[j..];
    assert names[..j][i] == names[j] && names[j..][0] == names[j];
    assert names[j] in multiset(names[..j]) && names[j] in multiset(names[j..]);
  }

  lemma PermutedNoDuplicates(names: seq<string>, sorted: seq<string>)
    requires multiset(names) == multiset(sorted) && NoDuplicates(names)
    ensures NoDuplicates(sorted)
  {
    forall i, j | 0 <= i < j < |sorted| ensures sorted[i] != sorted[j] {
      NoDuplicatesCounts(names, sorted[j]);
      if sorted[i] == sorted[j] { DuplicateCounts(sorted, i, j); }
    }
  }

  predicate Used(index: map<string, nat>, i: nat) {
    exists name :: name in index && index[name] == i
  }

  /** No two names ever share a slot, and every slot of the segment is used exactly when no name is configured twice. */
  lemma IndexIsBijective(names: seq<string>, index: map<string, nat>)
    requires Maps(index, names)
    ensures forall a, b :: a in index && b in index && a != b ==> index[a] != index[b]
    ensures forall name :: name in index ==> index[name] < |names|
    ensures (forall i: nat :: i < |names| ==> Used(index, i)) <==> NoDuplicates(names)
  {
    var sorted :| Sorted(sorted) && multiset(sorted) == multiset(names) && Numbers(index, sorted);
    SameLength(sorted, names);
    if NoDuplicates(names) {
      PermutedNoDuplicates(names, sorted);
      forall i: nat | i < |names| ensures Used(index, i) {
        assert sorted[i] in sorted && index[sorted[i]] == i;
      }
    }
    if forall i: nat :: i < |names| ==> Used(index, i) {
      forall i, j | 0 <= i < j < |sorted| ensures sorted[i] != sorted[j] {
        assert Used(index, i);
        var name: string :| name in index && index[name] == i;
        assert sorted[i] == name;
      }
      PermutedNoDuplicates(sorted, names);
    }
  }
}
