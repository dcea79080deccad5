/**
 The cluster over a chain of deploys: what the diff of previous and current manifests removes, what
 applying adds, and when the cluster then holds exactly the objects of the last manifests.
 */
module DeployCluster {
  import opened Wrappers
  import opened Documents
  import opened Manifests
  import opened DeployPlan

  // The diff by key

  function Keys(parse: Parser, docs: seq<string>): set<Option<string>> {
    set d | d in docs :: Key(parse, d)
  }

  /** The last document for each key. */
  function ByKey(parse: Parser, docs: seq<string>): map<Option<string>, string> {
    if docs == [] then map[]
    else ByKey(parse, docs[..|docs| - 1])[Key(parse, docs[|docs| - 1]) := docs[|docs| - 1]]
  }

  lemma {:induction false} ByKeyIsLast(parse: Parser, docs: seq<string>)
    ensures ByKey(parse, docs).Keys == Keys(parse, docs)
    ensures forall k :: k in ByKey(parse, docs) ==>
              exists i :: 0 <= i < |docs| && docs[i] == ByKey(parse, docs)[k] && Key(parse, docs[i]) == k
                          && forall j :: i < j < |docs| ==> Key(parse, docs[j]) != k
  {
    if docs != [] {
      var n := |docs| - 1;
      var front := docs[..n];
      ByKeyIsLast(parse, front);
      assert forall d :: d in docs <==> d in front || d == docs[n];
      forall k | k in ByKey(parse, docs)
        ensures exists i :: 0 <= i < |docs| && docs[i] == ByKey(parse, docs)[k] && Key(parse, docs[i]) == k
                            && forall j :: i < j < |docs| ==> Key(parse, docs[j]) != k
      {
        if k == Key(parse, docs[n]) {
          assert docs[n] == ByKey(parse, docs)[k];
        } else {
          var i :| 0 <= i < n && front[i] == ByKey(parse, front)[k] && Key(parse, front[i]) == k
                   && forall j :: i < j < n ==> Key(parse, front[j]) != k;
          assert docs[i] == front[i];
          forall j | i < j < |docs| ensures Key(parse, docs[j]) != k {
            if j < n { assert docs[j] == front[j]; }
          }
        }
      }
    }
  }

  lemma ByKeyMember(parse: Parser, docs: seq<string>, k: Option<string>)
    requires k in ByKey(parse, docs)
    ensures ByKey(parse, docs)[k] in docs && Key(parse, ByKey(parse, docs)[k]) == k
  {
    ByKeyIsLast(parse, docs);
  }

  /** The keys in previous but not in current. */
  function Dropped(parse: Parser, prev: seq<string>, cur: seq<string>): set<Option<string>> {
    Keys(parse, prev) - Keys(parse, cur)
  }

  /** The objects that the diff removes: for each dropped key, that of its last document. */
  function Removed(parse: Parser, prev: seq<string>, cur: seq<string>, target: string): set<Object> {
    set k | k in ByKey(parse, prev) && k in Dropped(parse, prev, cur) && IsObject(parse, ByKey(parse, prev)[k])
      :: ObjectOf(parse, ByKey(parse, prev)[k], target)
  }

  function AfterDeploy(parse: Parser, cluster: set<Object>, prev: seq<string>, cur: seq<string>, target: string): set<Object> {
    cluster - Removed(parse, prev, cur, target) + Objects(parse, cur, target)
  }

  // The calls of a deploy and their effect

  predicate Distinct<T(==)>(s: seq<T>) {
    forall i, j :: 0 <= i < j < |s| ==> s[i] != s[j]
  }

  function RemovalCalls(docs: map<Option<string>, string>, order: seq<Option<string>>, target: string): seq<Call>
    requires forall k :: k in order ==> k in docs
  {
    seq(|order|, i requires 0 <= i < |order| => Remove(target, docs[order[i]]))
  }

  /** The removals of a diff: in some order one for each dropped key, of its last document. */
  ghost predicate Removals(parse: Parser, prev: seq<string>, cur: seq<string>, target: string,
                           order: seq<Option<string>>, calls: seq<Call>)
  {
    && Distinct(order)
    && (forall k :: k in order <==> k in Dropped(parse, prev, cur))
    && (forall k :: k in order ==> k in ByKey(parse, prev))
    && calls == RemovalCalls(ByKey(parse, prev), order, target)
  }

  lemma {:induction false} EffectsOfRemovals(parse: Parser, cluster: set<Object>, docs: map<Option<string>, string>,
                                             order: seq<Option<string>>, target: string)
    requires forall k :: k in order ==> k in docs
    ensures Effects(parse, cluster, RemovalCalls(docs, order, target)) ==
            cluster - set k | k in order && IsObject(parse, docs[k]) :: ObjectOf(parse, docs[k], target)
    decreases |order|
  {
    var calls := RemovalCalls(docs, order, target);
    if order != [] {
      var d := docs[order[0]];
      var one := Objects(parse, [d], target);
      assert one == if IsObject(parse, d) then {ObjectOf(parse, d, target)} else {} by { assert d in [d]; }
      assert calls[1..] == RemovalCalls(docs, order[1..], target);
      EffectsOfRemovals(parse, cluster - one, docs, order[1..], target);
      assert forall k :: k in order <==> k == order[0] || k in order[1..];
    }
  }

  /** The objects in the texts of apply calls. */
  function ObjectsOfCalls(parse: Parser, calls: seq<Call>): set<Object> {
    set c, o | c in calls && c.Apply? && o in Objects(parse, Split(c.docs), c.ns) :: o
  }

  lemma {:induction false} EffectsOfApplies(parse: Parser, cluster: set<Object>, calls: seq<Call>)
    requires forall c :: c in calls ==> c.Apply? && !c.dry
    ensures Effects(parse, cluster, calls) == cluster + ObjectsOfCalls(parse, calls)
    decreases |calls|
  {
    if calls != [] {
      var one := Objects(parse, Split(calls[0].docs), calls[0].ns);
      assert calls[0] in calls;
      EffectsOfApplies(parse, cluster + one, calls[1..]);
      assert forall c :: c in calls <==> c == calls[0] || c in calls[1..];
      assert ObjectsOfCalls(parse, calls) == one + ObjectsOfCalls(parse, calls[1..]);
    }
  }

  lemma BlankIsNoObject(parse: Parser, d: string)
    requires BlankIsEmpty(parse) && IsObject(parse, d)
    ensures d != ""
  {
  }

  /** Up to documents that are no objects, the text that is grouped by namespace holds the documents
      that are no CRDs. */
  lemma OtherDocs(parse: Parser, text: string, d: string)
    requires BlankIsEmpty(parse) && IsObject(parse, d)
    ensures d in Split(OtherText(parse, text)) <==> d in Split(text) && !IsCRD(parse, d)
  {
    var docs := Split(text);
    CrdsMembers(parse, docs);
    if Crds(parse, docs) == [] {
      AllOthers(parse, docs);
    } else if Others(parse, docs) == [] {
      BlankText(parse, "");
      BlankIsNoObject(parse, d);
    } else {
      OthersIsSelection(parse, docs);
      SelectionRoundTrip(text, Others(parse, docs));
    }
  }

  lemma CrdCallObjects(parse: Parser, text: string, crd: seq<Call>, target: string)
    requires BlankIsEmpty(parse)
    requires var crds := Crds(parse, Split(text));
             crd == if crds != [] && Join(crds) != "" then [Apply("", Join(crds), false)] else []
    ensures ObjectsOfCalls(parse, crd) == Objects(parse, Crds(parse, Split(text)), target)
  {
    var crds := Crds(parse, Split(text));
    CrdsMembers(parse, Split(text));
    if crds != [] {
      JoinEmptyIff(crds);
      assert crds[0] in crds;
      CrdsIsSelection(parse, Split(text));
      SelectionRoundTrip(text, crds);
      assert Objects(parse, crds, "") == Objects(parse, crds, target);
      assert crd[0] in crd;
    }
  }

  lemma BatchObjects(parse: Parser, text: string, target: string, ns: string, o: Object)
    requires ns in Namespaces(parse, Split(text), target)
    ensures o in Objects(parse, Split(Texts(parse, Split(text), target)[ns]), ns) <==>
            exists d :: d in Split(text) && IsObject(parse, d) && NamespaceOf(parse, d, target) == ns
                        && ObjectOf(parse, d, target) == o
  {
    BatchRoundTrip(parse, text, target, ns);
    WithinMembers(parse, Split(text), target, {ns});
  }

  lemma BatchesObjects(parse: Parser, text: string, target: string, batches: seq<Call>)
    requires BlankIsEmpty(parse) && Batches(Texts(parse, Split(text), target), batches, false)
    ensures ObjectsOfCalls(parse, batches) == Objects(parse, Split(text), target)
  {
    var docs := Split(text);
    var texts := Texts(parse, docs, target);
    forall o | o in ObjectsOfCalls(parse, batches) ensures o in Objects(parse, docs, target) {
      var c :| c in batches && c.Apply? && o in Objects(parse, Split(c.docs), c.ns);
      BatchObjects(parse, text, target, c.ns, o);
    }
    forall o | o in Objects(parse, docs, target) ensures o in ObjectsOfCalls(parse, batches) {
      var d :| d in docs && IsObject(parse, d) && ObjectOf(parse, d, target) == o;
      var ns := NamespaceOf(parse, d, target);
      BatchObjects(parse, text, target, ns, o);
      BlankIsNoObject(parse, d);
      WithinMembers(parse, docs, target, {ns});
      NoneInNamespace(parse, docs, target, ns);
      assert d in InNamespace(parse, docs, target, ns);
      JoinEmptyIff(InNamespace(parse, docs, target, ns));
      var c := Apply(ns, texts[ns], false);
      assert c in batches;
      assert o in Objects(parse, Split(c.docs), c.ns);
    }
  }

  lemma {:induction false} DryRunsHaveNoEffect(parse: Parser, cluster: set<Object>, calls: seq<Call>)
    requires forall c :: c in calls ==> c.Apply? && c.dry
    ensures Effects(parse, cluster, calls) == cluster
  {
    if calls != [] {
      assert calls[0] in calls;
      DryRunsHaveNoEffect(parse, cluster, calls[1..]);
    }
  }

  /** Separating the CRDs from the other documents keeps the objects. */
  lemma SplitObjects(parse: Parser, text: string, target: string)
    requires BlankIsEmpty(parse)
    ensures Objects(parse, Split(text), target) ==
            Objects(parse, Crds(parse, Split(text)), target) + Objects(parse, Split(OtherText(parse, text)), target)
  {
    CrdsMembers(parse, Split(text));
    forall d | IsObject(parse, d)
      ensures d in Split(text) <==> d in Crds(parse, Split(text)) || d in Split(OtherText(parse, text))
    {
      OtherDocs(parse, text, d);
    }
  }

  /** The calls of a plan, when all are accepted, add exactly the objects of the text. */
  lemma EffectsOfPlan(parse: Parser, cluster: set<Object>, text: string, target: string,
                      dry: seq<Call>, crd: seq<Call>, batches: seq<Call>)
    requires BlankIsEmpty(parse) && Plan(parse, text, target, dry, crd, batches)
    ensures Effects(parse, cluster, dry + crd + batches) == cluster + Objects(parse, Split(text), target)
  {
    EffectsConcat(parse, cluster, dry + crd, batches);
    EffectsConcat(parse, cluster, dry, crd);
    DryRunsHaveNoEffect(parse, cluster, dry);
    EffectsOfApplies(parse, cluster, crd);
    EffectsOfApplies(parse, cluster + ObjectsOfCalls(parse, crd), batches);
    CrdCallObjects(parse, text, crd, target);
    BatchesObjects(parse, OtherText(parse, text), target, batches);
    SplitObjects(parse, text, target);
  }

  // When the cluster is exact

  function KeyOfObject(o: Object): Option<string> {
    Some(Joined(Meta(o.apiVersion, o.kind, o.name, o.ns)))
  }

  /** The diff takes care of a previous document: its object is applied again, or its key is dropped and
      its object is the one removed for that key. */
  ghost predicate Handled(parse: Parser, d: string, prev: seq<string>, cur: seq<string>, target: string)
    requires d in prev && IsObject(parse, d)
  {
    ByKeyIsLast(parse, prev);
    || ObjectOf(parse, d, target) in Objects(parse, cur, target)
    || (&& Key(parse, d) in Dropped(parse, prev, cur)
        && IsObject(parse, ByKey(parse, prev)[Key(parse, d)])
        && ObjectOf(parse, ByKey(parse, prev)[Key(parse, d)], target) == ObjectOf(parse, d, target))
  }

  lemma HandledIff(parse: Parser, d: string, prev: seq<string>, cur: seq<string>, target: string)
    requires d in prev && IsObject(parse, d)
    ensures Handled(parse, d, prev, cur, target) <==>
            || ObjectOf(parse, d, target) in Objects(parse, cur, target)
            || ObjectOf(parse, d, target) in Removed(parse, prev, cur, target)
  {
    ByKeyIsLast(parse, prev);
    var o := ObjectOf(parse, d, target);
    if o in Removed(parse, prev, cur, target) {
      var k :| k in ByKey(parse, prev) && k in Dropped(parse, prev, cur) && IsObject(parse, ByKey(parse, prev)[k])
               && ObjectOf(parse, ByKey(parse, prev)[k], target) == o;
      ByKeyMember(parse, prev, k);
      assert Key(parse, d) == KeyOfObject(o) == k;
    }
  }

  /** From a cluster that holds exactly the previous objects, a deploy leaves exactly the current ones
      if and only if the diff takes care of every previous document. */
  lemma DeployExactIff(parse: Parser, prev: seq<string>, cur: seq<string>, target: string)
    ensures AfterDeploy(parse, Objects(parse, prev, target), prev, cur, target) == Objects(parse, cur, target)
            <==> forall d :: d in prev && IsObject(parse, d) ==> Handled(parse, d, prev, cur, target)
  {
    var before, after := Objects(parse, prev, target), Objects(parse, cur, target);
    forall d | d in prev && IsObject(parse, d)
      ensures Handled(parse, d, prev, cur, target) <==>
              ObjectOf(parse, d, target) in after || ObjectOf(parse, d, target) in Removed(parse, prev, cur, target)
      ensures ObjectOf(parse, d, target) in before
    {
      HandledIff(parse, d, prev, cur, target);
    }
  }

  /** What stays behind: the previous objects that are neither applied again nor removed. */
  lemma LeftBehind(parse: Parser, prev: seq<string>, cur: seq<string>, target: string, o: Object)
    ensures o in AfterDeploy(parse, Objects(parse, prev, target), prev, cur, target) - Objects(parse, cur, target) <==>
            exists d :: d in prev && IsObject(parse, d) && ObjectOf(parse, d, target) == o
                        && !Handled(parse, d, prev, cur, target)
  {
    forall d | d in prev && IsObject(parse, d) && ObjectOf(parse, d, target) == o
      ensures Handled(parse, d, prev, cur, target) <==>
              o in Objects(parse, cur, target) || o in Removed(parse, prev, cur, target)
    {
      HandledIff(parse, d, prev, cur, target);
    }
  }

  /** Documents with one key denote one object. */
  ghost predicate OneObjectPerKey(parse: Parser, docs: seq<string>, target: string) {
    forall d, e :: d in docs && e in docs && Key(parse, d) == Key(parse, e) && IsObject(parse, d) ==>
      IsObject(parse, e) && ObjectOf(parse, d, target) == ObjectOf(parse, e, target)
  }

  lemma OneObjectPerKeyIsExact(parse: Parser, prev: seq<string>, cur: seq<string>, target: string)
    requires OneObjectPerKey(parse, prev + cur, target)
    ensures AfterDeploy(parse, Objects(parse, prev, target), prev, cur, target) == Objects(parse, cur, target)
  {
    ByKeyIsLast(parse, prev);
    forall d | d in prev && IsObject(parse, d) ensures Handled(parse, d, prev, cur, target) {
      if Key(parse, d) in Keys(parse, cur) {
        var e :| e in cur && Key(parse, e) == Key(parse, d);
        assert d in prev + cur && e in prev + cur;
      } else {
        ByKeyMember(parse, prev, Key(parse, d));
        assert d in prev + cur && ByKey(parse, prev)[Key(parse, d)] in prev + cur;
      }
    }
    DeployExactIff(parse, prev, cur, target);
  }

  /** The documents of the previous manifests; there are none on a first deploy. */
  function PreviousDocs(previous: string): seq<string> {
    if previous == "" then [] else Split(previous)
  }

  /** The cluster after deploying `texts` one after the other into an empty cluster, each time with the
      text before as the previous manifests. */
  function ClusterAfter(parse: Parser, texts: seq<string>, target: string): set<Object> {
    if texts == [] then {}
    else
      var n := |texts| - 1;
      AfterDeploy(parse, ClusterAfter(parse, texts[..n], target),
                  PreviousDocs(if n == 0 then "" else texts[n - 1]), Split(texts[n]), target)
  }

  /** The diff of two neighbours takes care of every previous document. */
  ghost predicate HandlesAll(parse: Parser, previous: string, current: string, target: string) {
    forall d :: d in PreviousDocs(previous) && IsObject(parse, d) ==>
      Handled(parse, d, PreviousDocs(previous), Split(current), target)
  }

  /** After the first `k` deploys the cluster holds exactly the objects of the last manifests. */
  ghost predicate ExactAfter(parse: Parser, texts: seq<string>, k: nat, target: string)
    requires 0 < k <= |texts|
  {
    ClusterAfter(parse, texts[..k], target) == Objects(parse, Split(texts[k - 1]), target)
  }

  lemma FirstDeployIsExact(parse: Parser, texts: seq<string>, target: string)
    requires texts != []
    ensures ExactAfter(parse, texts, 1, target)
  {
    var first := texts[..1];
    assert first[..0] == [] && first[0] == texts[0];
    assert Removed(parse, [], Split(texts[0]), target) == {};
  }

  lemma NextCluster(parse: Parser, texts: seq<string>, k: nat, target: string)
    requires 0 < k < |texts|
    ensures ClusterAfter(parse, texts[..k + 1], target) ==
            AfterDeploy(parse, ClusterAfter(parse, texts[..k], target), PreviousDocs(texts[k - 1]), Split(texts[k]), target)
  {
    var front := texts[..k + 1];
    assert front[..k] == texts[..k] && front[k] == texts[k] && front[k - 1] == texts[k - 1];
  }

  lemma PreviousObjects(parse: Parser, previous: string, target: string)
    requires BlankIsEmpty(parse)
    ensures Objects(parse, PreviousDocs(previous), target) == Objects(parse, Split(previous), target)
  {
    assert Split("") == [""] && Objects(parse, [""], target) == {};
  }

  /** A cluster that was exact stays exact if and only if the next diff takes care of everything. */
  lemma NextDeployExactIff(parse: Parser, texts: seq<string>, k: nat, target: string)
    requires BlankIsEmpty(parse) && 0 < k < |texts| && ExactAfter(parse, texts, k, target)
    ensures ExactAfter(parse, texts, k + 1, target) <==> HandlesAll(parse, texts[k - 1], texts[k], target)
  {
    NextCluster(parse, texts, k, target);
    PreviousObjects(parse, texts[k - 1], target);
    DeployExactIff(parse, PreviousDocs(texts[k - 1]), Split(texts[k]), target);
  }

  lemma {:induction false} HandledChainIsExact(parse: Parser, texts: seq<string>, k: nat, target: string)
    requires BlankIsEmpty(parse) && 0 < k <= |texts|
    requires forall i :: 0 < i < |texts| ==> HandlesAll(parse, texts[i - 1], texts[i], target)
    ensures ExactAfter(parse, texts, k, target)
  {
    if k == 1 {
      FirstDeployIsExact(parse, texts, target);
    } else {
      HandledChainIsExact(parse, texts, k - 1, target);
      NextDeployExactIff(parse, texts, k - 1, target);
    }
  }

  /** Over any chain of deploys: the cluster is exact after every one of them if and only if each diff
      takes care of every document of the manifests before. */
  lemma ChainExactIff(parse: Parser, texts: seq<string>, target: string)
    requires BlankIsEmpty(parse)
    ensures (forall k :: 0 < k <= |texts| ==> ExactAfter(parse, texts, k, target)) <==>
            (forall i :: 0 < i < |texts| ==> HandlesAll(parse, texts[i - 1], texts[i], target))
  {
    if forall k :: 0 < k <= |texts| ==> ExactAfter(parse, texts, k, target) {
      forall i | 0 < i < |texts| ensures HandlesAll(parse, texts[i - 1], texts[i], target) {
        assert ExactAfter(parse, texts, i, target) && ExactAfter(parse, texts, i + 1, target);
        NextDeployExactIff(parse, texts, i, target);
      }
    }
    if forall i :: 0 < i < |texts| ==> HandlesAll(parse, texts[i - 1], texts[i], target) {
      forall k | 0 < k <= |texts| ensures ExactAfter(parse, texts, k, target) {
        HandledChainIsExact(parse, texts, k, target);
      }
    }
  }

  lemma OneObjectPerKeyHandlesAll(parse: Parser, previous: string, current: string, target: string)
    requires OneObjectPerKey(parse, Split(previous) + Split(current), target)
    ensures HandlesAll(parse, previous, current, target)
  {
    if previous != "" {
      OneObjectPerKeyIsExact(parse, Split(previous), Split(current), target);
      DeployExactIff(parse, Split(previous), Split(current), target);
    }
  }

  /** Over any chain of deploys whose neighbours keep one object per key, the cluster holds exactly the
      objects of the last manifests. */
  lemma ChainIsExact(parse: Parser, texts: seq<string>, target: string)
    requires texts != [] && BlankIsEmpty(parse)
    requires forall i :: 0 < i < |texts| ==> OneObjectPerKey(parse, Split(texts[i - 1]) + Split(texts[i]), target)
    ensures ClusterAfter(parse, texts, target) == Objects(parse, Split(texts[|texts| - 1]), target)
  {
    forall i | 0 < i < |texts| ensures HandlesAll(parse, texts[i - 1], texts[i], target) {
      OneObjectPerKeyHandlesAll(parse, texts[i - 1], texts[i], target);
    }
    ChainExactIff(parse, texts, target);
    assert ExactAfter(parse, texts, |texts|, target);
    assert texts[..|texts|] == texts;
  }

  /** A manifest with two objects of one kind and name in two namespaces, both dropped: the key of the
      diff does not mention the namespace, so only the last one is removed. */
  lemma TwoNamespacesLeaveOneBehind(parse: Parser)
    requires parse("a") == Some(Meta("v1", "ConfigMap", "settings", "one"))
    requires parse("b") == Some(Meta("v1", "ConfigMap", "settings", "two"))
    requires parse("c") == Some(Meta("v1", "Secret", "token", "one"))
    ensures var prev, cur := ["a", "b"], ["c"];
            AfterDeploy(parse, Objects(parse, prev, "default"), prev, cur, "default") ==
            {Object("v1", "ConfigMap", "settings", "one"), Object("v1", "Secret", "token", "one")}
  {
    var prev, cur := ["a", "b"], ["c"];
    var k := Some("v1" + "-" + "ConfigMap" + "-" + "settings");
    var o1, o2 := Object("v1", "ConfigMap", "settings", "one"), Object("v1", "ConfigMap", "settings", "two");
    var o3 := Object("v1", "Secret", "token", "one");
    assert prev[..1] == ["a"] && prev[..1][..0] == [];
    assert ByKey(parse, prev) == map[k := "b"];
    assert Key(parse, "c").value[3] != k.value[3];
    assert ObjectOf(parse, "a", "default") == o1 && ObjectOf(parse, "b", "default") == o2 && ObjectOf(parse, "c", "default") == o3;
    assert Objects(parse, prev, "default") == {o1, o2} by {
      assert "a" in prev && "b" in prev;
    }
    assert Objects(parse, cur, "default") == {o3} by { assert "c" in cur; }
    assert Keys(parse, prev) == {k} by { assert "a" in prev; }
    assert Keys(parse, cur) == {Key(parse, "c")} by { assert "c" in cur; }
    assert k in Dropped(parse, prev, cur);
    assert Removed(parse, prev, cur, "default") == {o2};
  }

  // The diff on the fields of the documents

  ghost predicate AllPlain(parse: Parser, docs: seq<string>) {
    forall d :: d in docs && parse(d).Some? ==> Plain(parse(d).value)
  }

  predicate Mentions(parse: Parser, docs: seq<string>, m: Meta) {
    exists e :: e in docs && SameFields(parse, e, m)
  }

  /** `d` is in `docs`, and no document after it has its API version, kind and name. */
  ghost predicate IsLastOf(parse: Parser, docs: seq<string>, d: string)
    requires parse(d).Some?
  {
    exists i :: 0 <= i < |docs| && docs[i] == d
                && forall j :: i < j < |docs| ==> !SameFields(parse, docs[j], parse(d).value)
  }

  lemma PlainKeyIff(parse: Parser, docs: seq<string>, d: string, e: string)
    requires AllPlain(parse, docs) && d in docs && e in docs && parse(d).Some?
    ensures Key(parse, d) == Key(parse, e) <==> SameFields(parse, e, parse(d).value)
  {
    SameKeyIff(parse, d, e);
  }

  lemma LastByFields(parse: Parser, docs: seq<string>, d: string)
    requires AllPlain(parse, docs) && d in docs && parse(d).Some?
    ensures Key(parse, d) in ByKey(parse, docs)
    ensures ByKey(parse, docs)[Key(parse, d)] == d <==> IsLastOf(parse, docs, d)
  {
    ByKeyIsLast(parse, docs);
    var k := Key(parse, d);
    var i :| 0 <= i < |docs| && docs[i] == ByKey(parse, docs)[k] && Key(parse, docs[i]) == k
             && forall j :: i < j < |docs| ==> Key(parse, docs[j]) != k;
    forall j | 0 <= j < |docs| ensures Key(parse, docs[j]) == k <==> SameFields(parse, docs[j], parse(d).value) {
      PlainKeyIff(parse, docs, d, docs[j]);
    }
    if IsLastOf(parse, docs, d) {
      var j :| 0 <= j < |docs| && docs[j] == d && forall l :: j < l < |docs| ==> !SameFields(parse, docs[l], parse(d).value);
      assert i == j;
    }
  }

  lemma DroppedByFields(parse: Parser, prev: seq<string>, cur: seq<string>, d: string)
    requires AllPlain(parse, prev + cur) && d in prev && parse(d).Some?
    ensures Key(parse, d) in Dropped(parse, prev, cur) <==> !Mentions(parse, cur, parse(d).value)
  {
    forall e | e in cur ensures Key(parse, e) == Key(parse, d) <==> SameFields(parse, e, parse(d).value) {
      PlainKeyIff(parse, prev + cur, d, e);
    }
  }

  /** A document is removed if and only if it is the last previous one with its API version, kind and name
      and no current document has these. */
  lemma RemovedIff(parse: Parser, prev: seq<string>, cur: seq<string>, target: string,
                   order: seq<Option<string>>, calls: seq<Call>, d: string)
    requires Removals(parse, prev, cur, target, order, calls) && AllPlain(parse, prev + cur) && parse(d).Some?
    ensures Remove(target, d) in calls <==> IsLastOf(parse, prev, d) && !Mentions(parse, cur, parse(d).value)
  {
    var k := Key(parse, d);
    RemovalMembers(parse, prev, cur, target, order, calls, d);
    assert AllPlain(parse, prev) by { assert forall e :: e in prev ==> e in prev + cur; }
    assert IsLastOf(parse, prev, d) ==> d in prev;
    if d in prev {
      LastByFields(parse, prev, d);
      DroppedByFields(parse, prev, cur, d);
    }
  }

  lemma RemovalMembers(parse: Parser, prev: seq<string>, cur: seq<string>, target: string,
                       order: seq<Option<string>>, calls: seq<Call>, d: string)
    requires Removals(parse, prev, cur, target, order, calls)
    ensures ByKey(parse, prev).Keys == Keys(parse, prev)
    ensures Remove(target, d) in calls <==>
            d in prev && Key(parse, d) in Dropped(parse, prev, cur) && ByKey(parse, prev)[Key(parse, d)] == d
  {
    ByKeyIsLast(parse, prev);
    if Remove(target, d) in calls {
      var i :| 0 <= i < |calls| && calls[i] == Remove(target, d);
      assert order[i] in order;
      ByKeyMember(parse, prev, order[i]);
    }
    if d in prev && Key(parse, d) in Dropped(parse, prev, cur) && ByKey(parse, prev)[Key(parse, d)] == d {
      assert Key(parse, d) in order;
      var i :| 0 <= i < |order| && order[i] == Key(parse, d);
      assert calls[i] == Remove(target, d);
    }
  }

  /** What a diff takes care of, on the fields: the object is applied again, or nothing current has its API
      version, kind and name and the last previous document that has them is the same object. */
  lemma HandledOnFields(parse: Parser, d: string, prev: seq<string>, cur: seq<string>, target: string)
    requires d in prev && IsObject(parse, d) && AllPlain(parse, prev + cur)
    ensures Handled(parse, d, prev, cur, target) <==>
            || ObjectOf(parse, d, target) in Objects(parse, cur, target)
            || (&& !Mentions(parse, cur, parse(d).value)
                && exists e :: e in prev && SameFields(parse, e, parse(d).value) && IsLastOf(parse, prev, e)
                               && IsObject(parse, e) && ObjectOf(parse, e, target) == ObjectOf(parse, d, target))
  {
    var k := Key(parse, d);
    assert AllPlain(parse, prev) by { assert forall e :: e in prev ==> e in prev + cur; }
    LastByFields(parse, prev, d);
    DroppedByFields(parse, prev, cur, d);
    var last := ByKey(parse, prev)[k];
    ByKeyMember(parse, prev, k);
    PlainKeyIff(parse, prev, d, last);
    LastByFields(parse, prev, last);
    forall e | e in prev && SameFields(parse, e, parse(d).value) && IsLastOf(parse, prev, e) ensures e == last {
      PlainKeyIff(parse, prev, d, e);
      LastByFields(parse, prev, e);
    }
  }
}
