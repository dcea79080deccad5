/**
 What a deploy sends to kubectl, and what that does to the cluster.
 */
module DeployPlan {
  import opened Wrappers
  import opened Documents
  import opened Manifests

  datatype Call = Apply(ns: string, docs: string, dry: bool) | Remove(target: string, doc: string)

  // The cluster

  /** Documents without a kind, such as an empty one, are no objects. */
  predicate IsObject(parse: Parser, doc: string) {
    parse(doc).Some? && parse(doc).value.kind != ""
  }

  /** The object that a document denotes when it is applied in `ns`; CRDs have no namespace. */
  function ObjectOf(parse: Parser, doc: string, ns: string): Object
    requires IsObject(parse, doc)
  {
    var m := parse(doc).value;
    Object(m.apiVersion, m.kind, m.name, if IsCRD(parse, doc) then "" else NamespaceOf(parse, doc, ns))
  }

  function Objects(parse: Parser, docs: seq<string>, ns: string): set<Object> {
    set d | d in docs && IsObject(parse, d) :: ObjectOf(parse, d, ns)
  }

  /** The effect of one accepted call. */
  function Effect(parse: Parser, cluster: set<Object>, call: Call): set<Object> {
    match call
    case Apply(ns, docs, dry) => if dry then cluster else cluster + Objects(parse, Split(docs), ns)
    case Remove(target, doc) => cluster - Objects(parse, [doc], target)
  }

  function Effects(parse: Parser, cluster: set<Object>, calls: seq<Call>): set<Object>
    decreases |calls|
  {
    if calls == [] then cluster else Effects(parse, Effect(parse, cluster, calls[0]), calls[1..])
  }

  lemma {:induction false} EffectsConcat(parse: Parser, cluster: set<Object>, a: seq<Call>, b: seq<Call>)
    ensures Effects(parse, cluster, a + b) == Effects(parse, Effects(parse, cluster, a), b)
    decreases |a|
  {
    if a == [] {
      assert a + b == b;
    } else {
      EffectsConcat(parse, Effect(parse, cluster, a[0]), a[1..], b);
      assert (a + b)[1..] == a[1..] + b;
    }
  }

  // Apply batches

  /** The text of each namespace's batch. */
  function Texts(parse: Parser, docs: seq<string>, target: string): map<string, string> {
    map ns | ns in Namespaces(parse, docs, target) :: Join(InNamespace(parse, docs, target, ns))
  }

  /** One call for every namespace with a non-empty text, in any order. */
  ghost predicate Batches(texts: map<string, string>, calls: seq<Call>, dry: bool) {
    && (forall i :: 0 <= i < |calls| ==> calls[i].Apply? && IsBatch(texts, calls[i], dry))
    && (forall i, j :: 0 <= i < j < |calls| ==> calls[i] != calls[j])
    && (forall ns :: ns in texts && texts[ns] != "" ==> Apply(ns, texts[ns], dry) in calls)
  }

  predicate IsBatch(texts: map<string, string>, call: Call, dry: bool)
    requires call.Apply?
  {
    call.dry == dry && call.ns in texts && call.docs == texts[call.ns] && call.docs != ""
  }

  /** The text that is grouped by namespace: all of it without CRDs, else the other documents. */
  function OtherText(parse: Parser, text: string): string {
    if Crds(parse, Split(text)) == [] then text else Join(Others(parse, Split(text)))
  }

  /** The calls of a deploy that gets as far as applying: a dry run of every batch when there are no
      CRDs, or the CRDs first; then every batch. */
  ghost predicate Plan(parse: Parser, text: string, target: string, dry: seq<Call>, crd: seq<Call>, batches: seq<Call>) {
    var crds := Crds(parse, Split(text));
    var texts := Texts(parse, Split(OtherText(parse, text)), target);
    && (if crds == [] then Batches(texts, dry, true) else dry == [])
    && crd == (if crds != [] && Join(crds) != "" then [Apply("", Join(crds), false)] else [])
    && Batches(texts, batches, false)
  }

  /** What YAML decoding must do with the empty text: nothing is set. */
  ghost predicate BlankIsEmpty(parse: Parser) {
    parse("") == Some(Meta("", "", "", ""))
  }

  // Every document is applied once

  /** The documents that kubectl finds in the texts of `calls`. */
  function Applied(calls: seq<Call>): multiset<string> {
    if calls == [] then multiset{}
    else (if calls[0].Apply? then multiset(Split(calls[0].docs)) else multiset{}) + Applied(calls[1..])
  }

  /** The batch of a namespace splits into exactly its documents, in order. */
  lemma BatchRoundTrip(parse: Parser, text: string, target: string, ns: string)
    requires ns in Namespaces(parse, Split(text), target)
    ensures Split(Texts(parse, Split(text), target)[ns]) == InNamespace(parse, Split(text), target, ns)
  {
    NoneInNamespace(parse, Split(text), target, ns);
    WithinIsSelection(parse, Split(text), target, {ns});
    SelectionRoundTrip(text, InNamespace(parse, Split(text), target, ns));
  }

  function NamespacesOf(calls: seq<Call>): set<string> {
    set c | c in calls && c.Apply? :: c.ns
  }

  lemma {:induction false} BatchesAddUp(parse: Parser, text: string, target: string, calls: seq<Call>)
    requires forall c :: c in calls ==> c.Apply? && IsBatch(Texts(parse, Split(text), target), c, false)
    requires forall i, j :: 0 <= i < j < |calls| ==> calls[i] != calls[j]
    ensures Applied(calls) == multiset(Within(parse, Split(text), target, NamespacesOf(calls)))
  {
    var docs := Split(text);
    if calls == [] {
      assert NamespacesOf(calls) == {};
      WithinNone(parse, docs, target);
    } else {
      var c := calls[0];
      assert c in calls;
      BatchesAddUp(parse, text, target, calls[1..]);
      BatchRoundTrip(parse, text, target, c.ns);
      forall o | o in calls[1..] ensures o.ns != c.ns {
        assert o in calls;
        var k :| 0 <= k < |calls[1..]| && calls[1..][k] == o;
        assert calls[k + 1] == o;
      }
      assert NamespacesOf(calls) == {c.ns} + NamespacesOf(calls[1..]) by {
        assert forall x :: x in calls <==> x == c || x in calls[1..];
      }
      WithinAddsUp(parse, docs, target, c.ns, NamespacesOf(calls[1..]));
    }
  }

  /** The empty document that is alone in the batch of the target namespace, if there is one. */
  function LoneBlank(parse: Parser, docs: seq<string>, target: string): multiset<string> {
    if InNamespace(parse, Others(parse, docs), target, target) == [""] then multiset{""} else multiset{}
  }

  lemma BatchesCover(parse: Parser, text: string, target: string, calls: seq<Call>)
    requires BlankIsEmpty(parse) && Batches(Texts(parse, Split(text), target), calls, false)
    ensures var docs := Split(text);
            Applied(calls) + (if InNamespace(parse, docs, target, target) == [""] then multiset{""} else multiset{})
            == multiset(docs)
  {
    var docs := Split(text);
    var texts := Texts(parse, docs, target);
    forall c | c in calls ensures c.Apply? && IsBatch(texts, c, false) {
      var k :| 0 <= k < |calls| && calls[k] == c;
    }
    BatchesAddUp(parse, text, target, calls);
    var covered := NamespacesOf(calls);
    forall ns | ns in texts && ns !in covered ensures ns == target && InNamespace(parse, docs, target, target) == [""] {
      assert Apply(ns, texts[ns], false) in calls ==> ns in covered;
      assert texts[ns] == "";
      NoneInNamespace(parse, docs, target, ns);
      JoinEmptyIff(InNamespace(parse, docs, target, ns));
      WithinMembers(parse, docs, target, {ns});
      assert "" in InNamespace(parse, docs, target, ns);
    }
    if InNamespace(parse, docs, target, target) == [""] {
      NoneInNamespace(parse, docs, target, target);
      assert texts[target] == "";
      assert target !in covered;
      WithinAddsUp(parse, docs, target, target, covered);
      WithinAll(parse, docs, target, {target} + covered);
    } else {
      WithinAll(parse, docs, target, covered);
    }
  }

  lemma {:induction false} AllOthers(parse: Parser, docs: seq<string>)
    requires Crds(parse, docs) == []
    ensures Others(parse, docs) == docs
  {
    if docs != [] { AllOthers(parse, docs[1..]); }
  }

  /** The empty text splits into one empty document, which goes to the target namespace. */
  lemma BlankText(parse: Parser, target: string)
    requires BlankIsEmpty(parse)
    ensures Split("") == [""] && Namespaces(parse, [""], target) == {target}
    ensures InNamespace(parse, [""], target, target) == [""]
  {
    assert Split("") == [""];
    assert NamespaceOf(parse, "", target) == target;
    assert Within(parse, [""][1..], target, {target}) == [];
  }

  lemma BatchIsNotBlank(texts: map<string, string>, calls: seq<Call>, k: nat)
    requires Batches(texts, calls, false) && k < |calls|
    ensures calls[k].Apply? && calls[k].ns in texts && texts[calls[k].ns] != ""
  {
  }

  /** With nothing but CRDs the other text is empty and still splits into one empty document; no batch
      is sent for it. */
  lemma NoPhantom(parse: Parser, text: string, target: string, dry: seq<Call>, crd: seq<Call>, batches: seq<Call>)
    requires BlankIsEmpty(parse) && Plan(parse, text, target, dry, crd, batches)
    requires Others(parse, Split(text)) == []
    ensures batches == []
  {
    var texts := Texts(parse, Split(OtherText(parse, text)), target);
    if batches != [] {
      BatchIsNotBlank(texts, batches, 0);
    }
    if Crds(parse, Split(text)) == [] {
      AllOthers(parse, Split(text));
    }
    BlankText(parse, target);
    assert texts == map[target := ""];
  }

  /** The CRD call splits into exactly the CRDs. */
  lemma CrdCallRoundTrip(parse: Parser, text: string, crd: seq<Call>)
    requires BlankIsEmpty(parse)
    requires var crds := Crds(parse, Split(text));
             crd == if crds != [] && Join(crds) != "" then [Apply("", Join(crds), false)] else []
    ensures Applied(crd) == multiset(Crds(parse, Split(text)))
    ensures if Crds(parse, Split(text)) == [] then crd == []
            else |crd| == 1 && crd[0].Apply? && Split(crd[0].docs) == Crds(parse, Split(text))
  {
    var crds := Crds(parse, Split(text));
    if crds != [] {
      CrdsMembers(parse, Split(text));
      JoinEmptyIff(crds);
      assert crds[0] in crds;
      CrdsIsSelection(parse, Split(text));
      SelectionRoundTrip(text, crds);
      assert Applied(crd[1..]) == multiset{};
    }
  }

  /** Relative order: kubectl finds the CRDs in the CRD call as they stand in the text, and in each batch
      the namespace's other documents as they stand in the text. */
  lemma OrderIsKept(parse: Parser, text: string, target: string, dry: seq<Call>, crd: seq<Call>, batches: seq<Call>)
    requires BlankIsEmpty(parse) && Plan(parse, text, target, dry, crd, batches)
    ensures if Crds(parse, Split(text)) == [] then crd == []
            else |crd| == 1 && crd[0].Apply? && Split(crd[0].docs) == Crds(parse, Split(text))
    ensures forall c :: c in batches ==>
              c.Apply? && Split(c.docs) == InNamespace(parse, Others(parse, Split(text)), target, c.ns)
  {
    CrdCallRoundTrip(parse, text, crd);
    forall c | c in batches
      ensures c.Apply? && Split(c.docs) == InNamespace(parse, Others(parse, Split(text)), target, c.ns)
    {
      var k :| 0 <= k < |batches| && batches[k] == c;
      assert c.Apply? && IsBatch(Texts(parse, Split(OtherText(parse, text)), target), c, false);
      BatchRoundTrip(parse, OtherText(parse, text), target, c.ns);
      if Others(parse, Split(text)) == [] {
        NoPhantom(parse, text, target, dry, crd, batches);
      }
      OthersAreSplit(parse, text);
    }
  }

  /** The second split sees the other documents again. */
  lemma OthersAreSplit(parse: Parser, text: string)
    requires Others(parse, Split(text)) != []
    ensures Split(OtherText(parse, text)) == Others(parse, Split(text))
  {
    if Crds(parse, Split(text)) == [] {
      AllOthers(parse, Split(text));
    } else {
      OthersIsSelection(parse, Split(text));
      SelectionRoundTrip(text, Others(parse, Split(text)));
    }
  }

  lemma OthersCover(parse: Parser, text: string, target: string, batches: seq<Call>)
    requires BlankIsEmpty(parse)
    requires Batches(Texts(parse, Split(OtherText(parse, text)), target), batches, false)
    ensures Applied(batches) + LoneBlank(parse, Split(text), target) == multiset(Others(parse, Split(text)))
  {
    var others := Others(parse, Split(text));
    BatchesCover(parse, OtherText(parse, text), target, batches);
    if others == [] {
      if Crds(parse, Split(text)) == [] {
        AllOthers(parse, Split(text));
      }
      BlankText(parse, target);
      assert InNamespace(parse, others, target, target) == [];
    } else {
      OthersAreSplit(parse, text);
    }
  }

  /** Conservation: the CRD call and the namespace calls together contain every document of the text
      exactly as often as the text does, and nothing else, except for an empty document that is alone
      in the target namespace's batch, which is sent nowhere. */
  lemma EveryDocumentOnce(parse: Parser, text: string, target: string, dry: seq<Call>, crd: seq<Call>, batches: seq<Call>)
    requires BlankIsEmpty(parse) && Plan(parse, text, target, dry, crd, batches)
    ensures Applied(crd) == multiset(Crds(parse, Split(text)))
    ensures Applied(crd) + Applied(batches) + LoneBlank(parse, Split(text), target) == multiset(Split(text))
  {
    SplitByKind(parse, Split(text));
    CrdCallRoundTrip(parse, text, crd);
    OthersCover(parse, text, target, batches);
  }

  /** Nothing is lost exactly when no empty document is alone in the target namespace's batch. */
  lemma NothingLostIff(parse: Parser, text: string, target: string, dry: seq<Call>, crd: seq<Call>, batches: seq<Call>)
    requires BlankIsEmpty(parse) && Plan(parse, text, target, dry, crd, batches)
    ensures Applied(crd) + Applied(batches) == multiset(Split(text)) <==>
            InNamespace(parse, Others(parse, Split(text)), target, target) != [""]
  {
    EveryDocumentOnce(parse, text, target, dry, crd, batches);
    var sent := Applied(crd) + Applied(batches);
    if LoneBlank(parse, Split(text), target) == multiset{""} {
      assert (sent + multiset{""})[""] == sent[""] + 1;
    }
  }

  /** The empty text is one document that is sent nowhere. */
  lemma EmptyTextIsLost(parse: Parser, target: string)
    requires BlankIsEmpty(parse)
    ensures Plan(parse, "", target, [], [], [])
    ensures Applied([]) + Applied([]) != multiset(Split(""))
  {
    BlankText(parse, target);
    assert !IsCRD(parse, "");
    assert Crds(parse, [""][1..]) == [] && Crds(parse, [""]) == [];
    assert Texts(parse, [""], target) == map[target := ""];
    assert "" in multiset(Split("")) && "" !in Applied([]);
  }

  // What a plan means call by call

  /** The CRDs are applied without a namespace. Without CRDs the dry run is of exactly the batches that are
      then applied, with CRDs there is none. No namespace is applied twice. */
  lemma PlanCallByCall(parse: Parser, text: string, target: string, dry: seq<Call>, crd: seq<Call>, batches: seq<Call>)
    requires Plan(parse, text, target, dry, crd, batches)
    ensures forall c :: c in crd ==> c.Apply? && c.ns == "" && !c.dry
    ensures forall c :: c in dry ==> c.Apply? && c.dry
    ensures forall c :: c in batches ==> c.Apply? && !c.dry
    ensures Crds(parse, Split(text)) != [] ==> dry == []
    ensures Crds(parse, Split(text)) == [] ==>
              crd == [] && forall ns, docs :: Apply(ns, docs, true) in dry <==> Apply(ns, docs, false) in batches
    ensures forall i, j :: 0 <= i < j < |batches| ==> batches[i].ns != batches[j].ns
  {
    var texts := Texts(parse, Split(OtherText(parse, text)), target);
    BatchMembers(texts, batches, false);
    if Crds(parse, Split(text)) == [] {
      BatchMembers(texts, dry, true);
    }
  }

  lemma BatchMembers(texts: map<string, string>, calls: seq<Call>, dry: bool)
    requires Batches(texts, calls, dry)
    ensures forall c :: c in calls ==> c.Apply? && c.dry == dry
    ensures forall ns, docs :: Apply(ns, docs, dry) in calls <==> ns in texts && texts[ns] == docs && docs != ""
    ensures forall i, j :: 0 <= i < j < |calls| ==> calls[i].ns != calls[j].ns
  {
    forall c | c in calls ensures c.Apply? && IsBatch(texts, c, dry) {
      var k :| 0 <= k < |calls| && calls[k] == c;
    }
    forall i, j | 0 <= i < j < |calls| ensures calls[i].ns != calls[j].ns {
      assert calls[i] in calls && calls[j] in calls;
    }
  }

  /** What makes two documents one object in the cluster. */
  lemma SameObjectIff(parse: Parser, d: string, e: string, ns: string)
    requires IsObject(parse, d) && IsObject(parse, e)
    ensures ObjectOf(parse, d, ns) == ObjectOf(parse, e, ns) <==>
            var m, o := parse(d).value, parse(e).value;
            && m.apiVersion == o.apiVersion && m.kind == o.kind && m.name == o.name
            && (IsCRD(parse, d) || m.ns == o.ns || (m.ns == "" && o.ns == ns) || (m.ns == ns && o.ns == ""))
  {
  }
}
