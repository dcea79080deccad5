/**
 Multi-document manifests: splitting on the separator line and joining again.

 The separator overlaps itself by one newline, so a document that ends in the separator's first four
 characters swallows the separator that follows it. The round trip theorem says exactly which lists of
 documents survive being joined and split.
 */
module Documents {
  import opened Wrappers

  const SEPARATOR := "\n---\n"

  /** The separator stands at position `i` of `s`. */
  predicate At(s: string, i: nat) {
    i + 5 <= |s| && s[i..i + 5] == SEPARATOR
  }

  /** The leftmost separator at or after `i`. */
  function IndexFrom(s: string, i: nat): (r: Option<nat>)
    requires i <= |s|
    ensures r.Some? ==> i <= r.value && At(s, r.value) && forall j: nat :: i <= j < r.value ==> !At(s, j)
    ensures r.None? ==> forall j: nat :: i <= j ==> !At(s, j)
    decreases |s| - i
  {
    if At(s, i) then Some(i)
    else if i == |s| then None
    else IndexFrom(s, i + 1)
  }

  /** `strings.Split(s, "\n---\n")`: cut at the leftmost separator, go on behind it. */
  function Split(s: string): (docs: seq<string>)
    ensures |docs| >= 1
    decreases |s|
  {
    match IndexFrom(s, 0)
    case None => [s]
    case Some(i) => [s[..i]] + Split(s[i + 5..])
  }

  /** `strings.Join(docs, "\n---\n")`. */
  function Join(docs: seq<string>): string {
    if docs == [] then ""
    else if |docs| == 1 then docs[0]
    else docs[0] + SEPARATOR + Join(docs[1..])
  }

  /** No separator inside the document. */
  predicate Clean(doc: string) {
    IndexFrom(doc, 0).None?
  }

  /** A separator appended to the document is the leftmost one. */
  predicate Closed(doc: string) {
    IndexFrom(doc + SEPARATOR, 0) == Some(|doc|)
  }

  predicate EndsInDashes(doc: string) {
    |doc| >= 4 && doc[|doc| - 4..] == "\n---"
  }

  /** The lists that survive: every document but the last is closed, the last one is clean. */
  predicate Separable(docs: seq<string>) {
    docs != [] &&
    if |docs| == 1 then Clean(docs[0]) else Closed(docs[0]) && Separable(docs[1..])
  }

  lemma AtPrefix(a: string, b: string, i: nat)
    requires i + 5 <= |a|
    ensures At(a + b, i) <==> At(a, i)
  {
    assert (a + b)[i..i + 5] == a[i..i + 5];
  }

  lemma FirstIs(s: string, i: nat)
    requires At(s, i) && forall j: nat :: j < i ==> !At(s, j)
    ensures IndexFrom(s, 0) == Some(i)
  {
    assert i < |s|;
  }

  /** A separator that starts inside the document and ends outside overlaps the appended one, and
      the only overlap there is has one character. */
  lemma OverlapIsOneNewline(doc: string, j: nat)
    requires j < |doc| < j + 5 && At(doc + SEPARATOR, j)
    ensures EndsInDashes(doc)
  {
    var s := doc + SEPARATOR;
    var t := s[j..j + 5];
    assert t == SEPARATOR;
    assert forall k :: 0 <= k < 5 ==> t[k] == s[j + k];
    assert forall k :: 0 <= k < 5 ==> s[|doc| + k] == SEPARATOR[k];
    var k := |doc| - j;
    assert t[k] == SEPARATOR[0];
    assert k == 4;
    forall m | 0 <= m < 4 ensures doc[j..][m] == "\n---"[m] {
      assert doc[j..][m] == s[j + m] == t[m];
    }
    assert doc[j..] == "\n---";
  }

  lemma ClosedIff(doc: string)
    ensures Closed(doc) <==> Clean(doc) && !EndsInDashes(doc)
  {
    var s := doc + SEPARATOR;
    assert s[|doc|..|doc| + 5] == SEPARATOR;
    forall j: nat | j + 5 <= |doc| ensures At(s, j) <==> At(doc, j) {
      AtPrefix(doc, SEPARATOR, j);
    }
    if EndsInDashes(doc) {
      assert s[|doc| - 4..|doc| + 1] == doc[|doc| - 4..] + "\n";
      assert At(s, |doc| - 4);
    } else {
      forall j: nat | j < |doc| < j + 5 ensures !At(s, j) {
        if At(s, j) { OverlapIsOneNewline(doc, j); }
      }
      if Clean(doc) { FirstIs(s, |doc|); }
    }
    if Closed(doc) {
      assert forall j: nat :: j < |doc| ==> !At(s, j);
    }
  }

  /** A closed document is the first piece of whatever follows its separator. */
  lemma SplitFirst(doc: string, rest: string)
    requires Closed(doc)
    ensures Split(doc + SEPARATOR + rest) == [doc] + Split(rest)
  {
    var head := doc + SEPARATOR;
    var s := head + rest;
    forall j: nat | j <= |doc| ensures At(s, j) <==> At(head, j) {
      AtPrefix(head, rest, j);
    }
    FirstIs(s, |doc|);
    assert s[..|doc|] == doc && s[|doc| + 5..] == rest;
  }

  lemma {:induction false} SplitJoin(docs: seq<string>)
    requires Separable(docs)
    ensures Split(Join(docs)) == docs
  {
    if |docs| > 1 {
      SplitJoin(docs[1..]);
      SplitFirst(docs[0], Join(docs[1..]));
    }
  }

  lemma {:induction false} SplitIsSeparable(s: string)
    ensures Separable(Split(s))
    decreases |s|
  {
    match IndexFrom(s, 0)
    case None =>
    case Some(i) =>
      var doc := s[..i];
      assert s[i..i + 5] == SEPARATOR;
      assert doc + SEPARATOR == s[..i + 5];
      forall j: nat | j <= i ensures At(doc + SEPARATOR, j) <==> At(s, j) {
        AtPrefix(s[..i + 5], s[i + 5..], j);
        assert s == s[..i + 5] + s[i + 5..];
      }
      FirstIs(doc + SEPARATOR, i);
      SplitIsSeparable(s[i + 5..]);
      assert Split(s)[1..] == Split(s[i + 5..]);
  }

  /** A list of documents comes back from being joined and split exactly when it is separable. */
  lemma RoundTripIff(docs: seq<string>)
    ensures Split(Join(docs)) == docs <==> Separable(docs)
  {
    if Separable(docs) {
      SplitJoin(docs);
    } else {
      SplitIsSeparable(Join(docs));
    }
  }

  lemma {:induction false} JoinSplit(s: string)
    ensures Join(Split(s)) == s
    decreases |s|
  {
    match IndexFrom(s, 0)
    case None =>
    case Some(i) =>
      JoinSplit(s[i + 5..]);
      assert Split(s)[1..] == Split(s[i + 5..]);
      assert s == s[..i] + s[i..i + 5] + s[i + 5..];
  }

  // Selections

  /** `a` is `b` with some documents left out, the others in their order. */
  predicate Selection(a: seq<string>, b: seq<string>)
    decreases |b|
  {
    a == [] || (b != [] && ((a[0] == b[0] && Selection(a[1..], b[1..])) || Selection(a, b[1..])))
  }

  lemma {:induction false} SelectionIsSeparable(a: seq<string>, b: seq<string>)
    requires Separable(b) && Selection(a, b) && a != []
    ensures Separable(a)
    decreases |b|
  {
    ClosedIff(b[0]);
    if a[0] == b[0] && Selection(a[1..], b[1..]) {
      if |a| > 1 {
        SelectionIsSeparable(a[1..], b[1..]);
      }
    } else {
      SelectionIsSeparable(a, b[1..]);
    }
  }

  /** Any non-empty, order-preserving selection of the documents of a text comes back unchanged from
      being joined and split again. */
  lemma SelectionRoundTrip(s: string, docs: seq<string>)
    requires docs != [] && Selection(docs, Split(s))
    ensures Split(Join(docs)) == docs
  {
    SplitIsSeparable(s);
    SelectionIsSeparable(docs, Split(s));
    SplitJoin(docs);
  }

  /** Only the list with one empty document joins to the empty text. */
  lemma JoinEmptyIff(docs: seq<string>)
    requires docs != []
    ensures Join(docs) == "" <==> docs == [""]
  {
  }

  // What splitting and joining do to the text

  /** A text is cut at its first separator, five characters long, and nowhere before. */
  lemma CutAtSeparator(a: string, b: string)
    requires forall i :: 0 <= i < |a| ==> (a + "\n---\n")[i..][..5] != "\n---\n"
    ensures Split(a + "\n---\n" + b) == [a] + Split(b)
  {
    var s := a + SEPARATOR;
    assert s[|a|..|a| + 5] == SEPARATOR;
    forall j: nat | j < |a| ensures !At(s, j) {
      assert s[j..][..5] == s[j..j + 5];
    }
    FirstIs(s, |a|);
    SplitFirst(a, b);
  }

  lemma NoCut(s: string)
    requires forall i :: 0 <= i <= |s| - 5 ==> s[i..][..5] != "\n---\n"
    ensures Split(s) == [s]
  {
    forall j: nat | j + 5 <= |s| ensures !At(s, j) {
      assert s[j..][..5] == s[j..j + 5];
    }
  }

  lemma JoinPutsSeparators(doc: string, docs: seq<string>)
    ensures Join([doc] + docs) == if docs == [] then doc else doc + "\n---\n" + Join(docs)
  {
    assert ([doc] + docs)[1..] == docs;
  }
}
