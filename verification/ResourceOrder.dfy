/**
 The comparison of resource states and what sorting by it can achieve.

 `Less` answers true when any one of kind, name and namespace is smaller, so two states can each be
 less than the other, and then no arrangement of the list is sorted.
 */
module ResourceOrder {

  datatype State = Ready | Degraded | Unavailable | Missing

  datatype ResourceState = ResourceState(kind: string, name: string, ns: string, state: State)

  // Strings

  predicate StrLess(a: string, b: string) {
    b != "" && (a == "" || a[0] < b[0] || (a[0] == b[0] && StrLess(a[1..], b[1..])))
  }

  lemma {:induction false} StrLessAsymmetric(a: string, b: string)
    requires StrLess(a, b)
    ensures !StrLess(b, a) && a != b
  {
    if a != "" && a[0] == b[0] {
      StrLessAsymmetric(a[1..], b[1..]);
    }
  }

  /** Not being greater is transitive. */
  lemma {:induction false} StrLeTransitive(a: string, b: string, c: string)
    requires !StrLess(b, a) && !StrLess(c, b)
    ensures !StrLess(c, a)
  {
    if c != "" && b != "" && a != "" && a[0] == b[0] == c[0] {
      StrLeTransitive(a[1..], b[1..], c[1..]);
    }
  }

  // Resource states

  predicate Less(a: ResourceState, b: ResourceState) {
    if StrLess(a.kind, b.kind) then true
    else if StrLess(a.name, b.name) then true
    else if StrLess(a.ns, b.ns) then true
    else false
  }

  /** No later element is less than an earlier one. */
  predicate Sorted(s: seq<ResourceState>) {
    forall i, j :: 0 <= i < j < |s| ==> !Less(s[j], s[i])
  }

  /** No two elements are each less than the other. */
  predicate Comparable(s: seq<ResourceState>) {
    forall i, j :: 0 <= i < j < |s| ==> !(Less(s[i], s[j]) && Less(s[j], s[i]))
  }

  lemma NotLessTransitive(a: ResourceState, b: ResourceState, c: ResourceState)
    requires !Less(b, a) && !Less(c, b)
    ensures !Less(c, a)
  {
    StrLeTransitive(a.kind, b.kind, c.kind);
    StrLeTransitive(a.name, b.name, c.name);
    StrLeTransitive(a.ns, b.ns, c.ns);
  }

  lemma NotLessItself(a: ResourceState)
    ensures !Less(a, a)
  {
    if StrLess(a.kind, a.kind) { StrLessAsymmetric(a.kind, a.kind); }
    if StrLess(a.name, a.name) { StrLessAsymmetric(a.name, a.name); }
    if StrLess(a.ns, a.ns) { StrLessAsymmetric(a.ns, a.ns); }
  }

  /** The first place of `r` whose element `x` is less than. */
  function Place(r: seq<ResourceState>, x: ResourceState): (p: nat)
    ensures p <= |r| && (p < |r| ==> Less(x, r[p])) && forall i :: 0 <= i < p ==> !Less(x, r[i])
  {
    if r == [] || Less(x, r[0]) then 0 else 1 + Place(r[1..], x)
  }

  function Insert(r: seq<ResourceState>, x: ResourceState): seq<ResourceState> {
    r[..Place(r, x)] + [x] + r[Place(r, x)..]
  }

  lemma InsertAdds(r: seq<ResourceState>, x: ResourceState)
    ensures multiset(Insert(r, x)) == multiset(r) + multiset{x}
  {
    assert r == r[..Place(r, x)] + r[Place(r, x)..];
  }

  lemma InsertKeepsSorted(s: seq<ResourceState>, n: nat, r: seq<ResourceState>, p: nat)
    requires n < |s| && p <= |r| && Comparable(s) && Sorted(r) && multiset(r) == multiset(s[..n])
    requires forall i :: 0 <= i < p ==> !Less(s[n], r[i])
    requires p < |r| ==> Less(s[n], r[p])
    ensures Sorted(r[..p] + [s[n]] + r[p..])
  {
    var x := s[n];
    forall q | p <= q < |r| ensures !Less(r[q], x) {
      assert r[p] in multiset(r);
      assert r[p] in s[..n];
      var k :| 0 <= k < n && s[k] == r[p];
      assert Less(s[n], s[k]);
      assert !Less(s[k], s[n]);
      if q > p {
        NotLessTransitive(x, r[p], r[q]);
      }
    }
  }

  lemma SortStep(s: seq<ResourceState>, n: nat, r: seq<ResourceState>)
    requires n < |s| && multiset(r) == multiset(s[..n])
    ensures multiset(Insert(r, s[n])) == multiset(s[..n + 1])
    ensures Comparable(s) && Sorted(r) ==> Sorted(Insert(r, s[n]))
  {
    assert s[..n + 1] == s[..n] + [s[n]];
    InsertAdds(r, s[n]);
    if Comparable(s) && Sorted(r) {
      InsertKeepsSorted(s, n, r, Place(r, s[n]));
    }
  }

  /** Sorting moves elements around; it gives a sorted list when the elements are comparable. The
      library's algorithm is not part of this model, an insertion stands in for it. */
  method Sort(s: seq<ResourceState>) returns (r: seq<ResourceState>)
    ensures multiset(r) == multiset(s)
    ensures Comparable(s) ==> Sorted(r)
  {
    r := [];
    for n := 0 to |s|
      invariant multiset(r) == multiset(s[..n])
      invariant Comparable(s) ==> Sorted(r)
    {
      SortStep(s, n, r);
      r := Insert(r, s[n]);
    }
    assert s[..|s|] == s;
  }

  /** A list has a sorted arrangement exactly when its elements are comparable. */
  lemma SortableIff(s: seq<ResourceState>)
    ensures (exists r :: multiset(r) == multiset(s) && Sorted(r)) <==> Comparable(s)
  {
    if Comparable(s) {
      var r := SortedArrangement(s);
    }
    if r: seq<ResourceState> :| multiset(r) == multiset(s) && Sorted(r) {
      forall i, j | 0 <= i < j < |s| ensures !(Less(s[i], s[j]) && Less(s[j], s[i])) {
        if s[i] == s[j] {
          NotLessItself(s[i]);
        } else {
          assert s[i] in multiset(r) && s[j] in multiset(r);
          var k :| 0 <= k < |r| && r[k] == s[i];
          var l :| 0 <= l < |r| && r[l] == s[j];
          assert k < l || l < k;
        }
      }
    }
  }

  lemma {:induction false} SortedArrangement(s: seq<ResourceState>) returns (r: seq<ResourceState>)
    requires Comparable(s)
    ensures multiset(r) == multiset(s) && Sorted(r)
    decreases |s|
  {
    r := [];
    if s != [] {
      var n := |s| - 1;
      r := SortedArrangement(s[..n]);
      InsertKeepsSorted(s, n, r, Place(r, s[n]));
      InsertAdds(r, s[n]);
      assert s == s[..n] + [s[n]];
      r := Insert(r, s[n]);
    }
  }

  /** Two deployments and stateful sets in one application already have no sorted arrangement. */
  lemma NoSortedArrangement()
    ensures var a := ResourceState("deployment", "web", "default", Missing);
            var b := ResourceState("statefulset", "db", "default", Missing);
            && Less(a, b) && Less(b, a)
            && forall r :: multiset(r) == multiset([a, b]) ==> !Sorted(r)
  {
    var a := ResourceState("deployment", "web", "default", Missing);
    var b := ResourceState("statefulset", "db", "default", Missing);
    assert StrLess("deployment", "statefulset") && StrLess("db", "web");
    assert !Comparable([a, b]) by { assert [a, b][0] == a && [a, b][1] == b; }
    SortableIff([a, b]);
  }

  // What the comparison means

  /** The order of strings: at the first place where they differ the smaller character decides, and a strict
      prefix comes first. */
  lemma {:induction false} StrLessIff(a: string, b: string)
    ensures StrLess(a, b) <==>
            exists k :: 0 <= k <= |a| && k < |b| && a[..k] == b[..k] && (k == |a| || a[k] < b[k])
  {
    if a == "" || b == "" || a[0] != b[0] {
      if StrLess(a, b) {
        assert a[..0] == b[..0];
      }
    } else {
      StrLessIff(a[1..], b[1..]);
      if StrLess(a, b) {
        var k :| 0 <= k <= |a[1..]| && k < |b[1..]| && a[1..][..k] == b[1..][..k] && (k == |a[1..]| || a[1..][k] < b[1..][k]);
        assert a[..k + 1] == [a[0]] + a[1..][..k] && b[..k + 1] == [b[0]] + b[1..][..k];
      }
      if k :| 0 <= k <= |a| && k < |b| && a[..k] == b[..k] && (k == |a| || a[k] < b[k]) {
        assert k > 0;
        assert a[1..][..k - 1] == a[..k][1..] && b[1..][..k - 1] == b[..k][1..];
        assert k < |a| ==> a[1..][k - 1] < b[1..][k - 1];
      }
    }
  }

  /** Two states are comparable exactly when one of them is nowhere greater than the other: in kind, in name
      and in namespace. */
  lemma ComparablePairIff(a: ResourceState, b: ResourceState)
    ensures Comparable([a, b]) <==>
            || !(StrLess(b.kind, a.kind) || StrLess(b.name, a.name) || StrLess(b.ns, a.ns))
            || !(StrLess(a.kind, b.kind) || StrLess(a.name, b.name) || StrLess(a.ns, b.ns))
  {
    var s := [a, b];
    assert s[0] == a && s[1] == b;
  }
}
