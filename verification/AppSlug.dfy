/** The search for an unused slug when an application is created. */
module AppSlug {
  import opened Decimals
  import opened FiniteSets

  /** The proposals in the order they are tried: first the slug that `slug.Make` makes of the name, then
      the name itself with a number. `strings.Replace` with a count of zero leaves the name as it is. */
  function Probe(name: string, made: string, i: nat): string {
    if i == 0 then made else name + "-" + Print(i)
  }

  /** The numbered proposals up to `i`. */
  function Numbered(name: string, i: nat): set<string> {
    set k | 1 <= k <= i :: Probe(name, "", k)
  }

  lemma NumberedDiffer(name: string, j: nat, k: nat)
    requires j > 0 && k > 0 && Probe(name, "", j) == Probe(name, "", k)
    ensures j == k
  {
    var prefix := name + "-";
    assert Probe(name, "", j)[|prefix|..] == Print(j);
    assert Probe(name, "", k)[|prefix|..] == Print(k);
    PrintIsInjective(j, k);
  }

  /** Numbered proposals never repeat, so there are as many as numbers. */
  lemma {:induction false} NumberedCount(name: string, i: nat)
    ensures |Numbered(name, i)| == i
  {
    if i == 0 {
      assert Numbered(name, i) == {};
    } else {
      NumberedCount(name, i - 1);
      var last := Probe(name, "", i);
      if last in Numbered(name, i - 1) {
        var k :| 1 <= k <= i - 1 && Probe(name, "", k) == last;
        NumberedDiffer(name, k, i);
      }
      assert Numbered(name, i) == Numbered(name, i - 1) + {last};
    }
  }

  /** Not every proposal up to number `i` can be taken when there are fewer than `i` slugs. */
  lemma SomeProbeIsFree(name: string, i: nat, existing: set<string>)
    requires forall k :: 1 <= k <= i ==> Probe(name, "", k) in existing
    ensures i <= |existing|
  {
    NumberedCount(name, i);
    SubsetCardinality(Numbered(name, i), existing);
  }

  /** The loop in `Create`: it stops within two more probes than there are slugs, at the first proposal
      that is not taken. */
  method FindUniqueSlug(existing: set<string>, name: string, made: string) returns (slug: string, probes: nat)
    ensures slug !in existing
    ensures 1 <= probes <= |existing| + 2
    ensures slug == Probe(name, made, probes - 1)
    ensures forall k :: 0 <= k < probes - 1 ==> Probe(name, made, k) in existing
    ensures slug == if probes == 1 then made else name + "-" + Print(probes - 1)
    ensures probes > 1 ==> made in existing && forall k :: 0 < k < probes - 1 ==> name + "-" + Print(k) in existing
  {
    var slugProposal := made;
    var foundUniqueSlug := false;
    var i := 0;
    while !foundUniqueSlug
      invariant i <= |existing| + 1
      invariant forall k :: 0 <= k < i ==> Probe(name, made, k) in existing
      invariant foundUniqueSlug ==> slugProposal == Probe(name, made, i) && slugProposal !in existing
      invariant i == 0 ==> slugProposal == made
      decreases |existing| + 1 - i, !foundUniqueSlug
    {
      if i > 0 {
        slugProposal := name + "-" + Print(i);
      }
      if slugProposal !in existing {
        foundUniqueSlug := true;
      } else {
        forall k | 1 <= k <= i ensures Probe(name, "", k) in existing {
          assert k < i ==> Probe(name, made, k) in existing;
        }
        SomeProbeIsFree(name, i, existing);
        i := i + 1;
      }
    }
    assert i > 0 ==> Probe(name, made, 0) in existing;
    forall k | 0 < k < i ensures name + "-" + Print(k) in existing {
      assert Probe(name, made, k) in existing;
    }
    return slugProposal, i + 1;
  }
}
