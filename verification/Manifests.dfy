/**
 The documents of a manifest text by kind, namespace and key. YAML decoding is the parameter `parse`:
 a document gives its identifying fields or fails to decode.
 */
module Manifests {
  import opened Wrappers
  import opened Documents

  datatype Meta = Meta(apiVersion: string, kind: string, name: string, ns: string)

  type Parser = string -> Option<Meta>

  /** A Kubernetes object, as the cluster tells objects apart. */
  datatype Object = Object(apiVersion: string, kind: string, name: string, ns: string)

  const CRD_VERSION := "apiextensions.k8s.io/v1beta1"
  const CRD_KIND := "CustomResourceDefinition"

  predicate IsCRD(parse: Parser, doc: string) {
    parse(doc).Some? && parse(doc).value.apiVersion == CRD_VERSION && parse(doc).value.kind == CRD_KIND
  }

  /** The key of the diff, before it is hashed. It does not mention the namespace; documents that do
      not decode share one key. */
  function Key(parse: Parser, doc: string): Option<string> {
    match parse(doc)
    case None => None
    case Some(m) => Some(Joined(m))
  }

  function Joined(m: Meta): string {
    m.apiVersion + "-" + m.kind + "-" + m.name
  }

  function NamespaceOf(parse: Parser, doc: string, target: string): string {
    match parse(doc)
    case None => target
    case Some(m) => if m.ns == "" then target else m.ns
  }

  // Selections of documents

  function Crds(parse: Parser, docs: seq<string>): seq<string> {
    if docs == [] then []
    else if IsCRD(parse, docs[0]) then [docs[0]] + Crds(parse, docs[1..])
    else Crds(parse, docs[1..])
  }

  function Others(parse: Parser, docs: seq<string>): seq<string> {
    if docs == [] then []
    else if IsCRD(parse, docs[0]) then Others(parse, docs[1..])
    else [docs[0]] + Others(parse, docs[1..])
  }

  /** The documents whose namespace is one of `nss`. */
  function Within(parse: Parser, docs: seq<string>, target: string, nss: set<string>): seq<string> {
    if docs == [] then []
    else if NamespaceOf(parse, docs[0], target) in nss then [docs[0]] + Within(parse, docs[1..], target, nss)
    else Within(parse, docs[1..], target, nss)
  }

  function InNamespace(parse: Parser, docs: seq<string>, target: string, ns: string): seq<string> {
    Within(parse, docs, target, {ns})
  }

  function Namespaces(parse: Parser, docs: seq<string>, target: string): set<string> {
    set d | d in docs :: NamespaceOf(parse, d, target)
  }

  lemma {:induction false} CrdsIsSelection(parse: Parser, docs: seq<string>)
    ensures Selection(Crds(parse, docs), docs)
  {
    if docs != [] { CrdsIsSelection(parse, docs[1..]); }
  }

  lemma {:induction false} OthersIsSelection(parse: Parser, docs: seq<string>)
    ensures Selection(Others(parse, docs), docs)
  {
    if docs != [] { OthersIsSelection(parse, docs[1..]); }
  }

  lemma {:induction false} WithinIsSelection(parse: Parser, docs: seq<string>, target: string, nss: set<string>)
    ensures Selection(Within(parse, docs, target, nss), docs)
  {
    if docs != [] { WithinIsSelection(parse, docs[1..], target, nss); }
  }

  lemma {:induction false} SplitByKind(parse: Parser, docs: seq<string>)
    ensures multiset(Crds(parse, docs)) + multiset(Others(parse, docs)) == multiset(docs)
  {
    if docs != [] {
      SplitByKind(parse, docs[1..]);
      assert docs == [docs[0]] + docs[1..];
    }
  }

  lemma {:induction false} WithinMembers(parse: Parser, docs: seq<string>, target: string, nss: set<string>)
    ensures forall d :: d in Within(parse, docs, target, nss) <==> d in docs && NamespaceOf(parse, d, target) in nss
  {
    if docs != [] {
      WithinMembers(parse, docs[1..], target, nss);
      assert docs == [docs[0]] + docs[1..];
    }
  }

  lemma {:induction false} CrdsMembers(parse: Parser, docs: seq<string>)
    ensures forall d :: d in Crds(parse, docs) <==> d in docs && IsCRD(parse, d)
    ensures forall d :: d in Others(parse, docs) <==> d in docs && !IsCRD(parse, d)
  {
    if docs != [] {
      CrdsMembers(parse, docs[1..]);
      assert docs == [docs[0]] + docs[1..];
    }
  }

  lemma {:induction false} WithinAddsUp(parse: Parser, docs: seq<string>, target: string, ns: string, nss: set<string>)
    requires ns !in nss
    ensures multiset(InNamespace(parse, docs, target, ns)) + multiset(Within(parse, docs, target, nss))
            == multiset(Within(parse, docs, target, {ns} + nss))
  {
    if docs != [] {
      WithinAddsUp(parse, docs[1..], target, ns, nss);
    }
  }

  lemma {:induction false} WithinAll(parse: Parser, docs: seq<string>, target: string, nss: set<string>)
    requires Namespaces(parse, docs, target) <= nss
    ensures Within(parse, docs, target, nss) == docs
  {
    if docs != [] {
      assert NamespaceOf(parse, docs[0], target) in Namespaces(parse, docs, target);
      assert forall d :: d in docs[1..] ==> d in docs;
      WithinAll(parse, docs[1..], target, nss);
    }
  }

  lemma {:induction false} CrdsAppend(parse: Parser, docs: seq<string>, doc: string)
    ensures Crds(parse, docs + [doc]) == Crds(parse, docs) + (if IsCRD(parse, doc) then [doc] else [])
    ensures Others(parse, docs + [doc]) == Others(parse, docs) + (if IsCRD(parse, doc) then [] else [doc])
  {
    if docs != [] {
      CrdsAppend(parse, docs[1..], doc);
      assert (docs + [doc])[1..] == docs[1..] + [doc];
    }
  }

  lemma {:induction false} WithinAppend(parse: Parser, docs: seq<string>, doc: string, target: string, nss: set<string>)
    ensures Within(parse, docs + [doc], target, nss) ==
            Within(parse, docs, target, nss) + (if NamespaceOf(parse, doc, target) in nss then [doc] else [])
  {
    if docs != [] {
      WithinAppend(parse, docs[1..], doc, target, nss);
      assert (docs + [doc])[1..] == docs[1..] + [doc];
    }
  }

  lemma {:induction false} WithinNone(parse: Parser, docs: seq<string>, target: string)
    ensures Within(parse, docs, target, {}) == []
  {
    if docs != [] { WithinNone(parse, docs[1..], target); }
  }

  lemma NamespacesAppend(parse: Parser, docs: seq<string>, doc: string, target: string)
    ensures Namespaces(parse, docs + [doc], target) == Namespaces(parse, docs, target) + {NamespaceOf(parse, doc, target)}
  {
    assert forall d :: d in docs + [doc] <==> d in docs || d == doc;
  }

  lemma NoneInNamespace(parse: Parser, docs: seq<string>, target: string, ns: string)
    ensures InNamespace(parse, docs, target, ns) == [] <==> ns !in Namespaces(parse, docs, target)
  {
    WithinMembers(parse, docs, target, {ns});
    var within := InNamespace(parse, docs, target, ns);
    if within != [] {
      assert within[0] in within;
    }
  }

  // The two functions of doc.go

  /** The CRD text (absent when there is no CRD, and then the text is untouched) and the other text. */
  method SplitIntoCRDsAndOthers(parse: Parser, multidoc: string) returns (crdText: Option<string>, otherText: string)
    ensures var docs := Split(multidoc);
            if Crds(parse, docs) == []
            then crdText == None && otherText == multidoc
            else crdText == Some(Join(Crds(parse, docs))) && otherText == Join(Others(parse, docs))
  {
    var crds, other := [], [];
    var docs := Split(multidoc);
    for i := 0 to |docs|
      invariant crds == Crds(parse, docs[..i]) && other == Others(parse, docs[..i])
    {
      assert docs[..i + 1] == docs[..i] + [docs[i]];
      CrdsAppend(parse, docs[..i], docs[i]);
      if IsCRD(parse, docs[i]) {
        crds := crds + [docs[i]];
      } else {
        other := other + [docs[i]];
      }
    }
    assert docs[..|docs|] == docs;
    if |crds| == 0 {
      return None, multidoc;
    }
    return Some(Join(crds)), Join(other);
  }

  lemma GroupGrows(parse: Parser, docs: seq<string>, doc: string, target: string, groups: map<string, seq<string>>)
    requires Grouped(parse, docs, target, groups)
    ensures var ns := NamespaceOf(parse, doc, target);
            && Grouped(parse, docs + [doc], target,
                       groups[ns := if ns in groups then groups[ns] + [doc] else [doc]])
  {
    var ns := NamespaceOf(parse, doc, target);
    NamespacesAppend(parse, docs, doc, target);
    NoneInNamespace(parse, docs, target, ns);
    forall other | other in groups || other == ns
      ensures InNamespace(parse, docs + [doc], target, other) ==
              InNamespace(parse, docs, target, other) + (if other == ns then [doc] else [])
    {
      WithinAppend(parse, docs, doc, target, {other});
    }
  }

  /** `groups` holds, for each namespace that occurs, its documents in order. */
  ghost predicate Grouped(parse: Parser, docs: seq<string>, target: string, groups: map<string, seq<string>>) {
    && groups.Keys == Namespaces(parse, docs, target)
    && forall ns :: ns in groups ==> groups[ns] == InNamespace(parse, docs, target, ns)
  }

  /** The first loop of `docsByNamespace`: fails when a document does not decode. */
  method GroupByNamespace(parse: Parser, docs: seq<string>, target: string)
    returns (r: Result<map<string, seq<string>>, string>)
    ensures r.Failure? <==> exists d :: d in docs && parse(d).None?
    ensures r.Success? ==> Grouped(parse, docs, target, r.value)
  {
    var byNamespace: map<string, seq<string>> := map[];
    for i := 0 to |docs|
      invariant forall d :: d in docs[..i] ==> parse(d).Some?
      invariant Grouped(parse, docs[..i], target, byNamespace)
    {
      if parse(docs[i]).None? {
        return Failure("failed to unmarshal doc to look for namespace");
      }
      assert docs[..i + 1] == docs[..i] + [docs[i]];
      GroupGrows(parse, docs[..i], docs[i], target, byNamespace);
      var namespace := parse(docs[i]).value.ns;
      if namespace == "" {
        namespace := target;
      }
      if namespace in byNamespace {
        byNamespace := byNamespace[namespace := byNamespace[namespace] + [docs[i]]];
      } else {
        byNamespace := byNamespace[namespace := [docs[i]]];
      }
    }
    assert docs[..|docs|] == docs;
    return Success(byNamespace);
  }

  /** The second loop of `docsByNamespace`. */
  method JoinGroups(byNamespace: map<string, seq<string>>) returns (result: map<string, string>)
    ensures result.Keys == byNamespace.Keys
    ensures forall ns :: ns in result ==> result[ns] == Join(byNamespace[ns])
  {
    result := map[];
    var rest := byNamespace.Keys;
    while rest != {}
      invariant rest <= byNamespace.Keys && result.Keys == byNamespace.Keys - rest
      invariant forall ns :: ns in result ==> result[ns] == Join(byNamespace[ns])
      decreases |rest|
    {
      var ns :| ns in rest;
      result := result[ns := Join(byNamespace[ns])];
      rest := rest - {ns};
    }
  }

  /** Fails when any document does not decode; otherwise one joined text for each namespace. */
  method DocsByNamespace(parse: Parser, multidoc: string, target: string) returns (r: Result<map<string, string>, string>)
    ensures r.Failure? <==> exists d :: d in Split(multidoc) && parse(d).None?
    ensures r.Success? ==>
              var docs := Split(multidoc);
              && r.value.Keys == Namespaces(parse, docs, target)
              && forall ns :: ns in r.value ==> r.value[ns] == Join(InNamespace(parse, docs, target, ns))
  {
    var groups := GroupByNamespace(parse, Split(multidoc), target);
    if groups.Failure? {
      return Failure(groups.error);
    }
    var result := JoinGroups(groups.value);
    return Success(result);
  }

  // What the fields of a document decide

  predicate SameFields(parse: Parser, doc: string, m: Meta) {
    match parse(doc)
    case None => false
    case Some(e) => e.apiVersion == m.apiVersion && e.kind == m.kind && e.name == m.name
  }

  /** No dash in the API version or the kind, so that the joined fields can be told apart. */
  predicate Plain(m: Meta) {
    '-' !in m.apiVersion && '-' !in m.kind
  }

  lemma DashNotInside(x: string, a: string, y: string, b: string)
    requires '-' !in y && x + "-" + a == y + "-" + b
    ensures |y| <= |x|
  {
    assert (x + "-" + a)[|x|] == '-';
  }

  lemma DashSplits(x: string, a: string, y: string, b: string)
    requires '-' !in x && '-' !in y && x + "-" + a == y + "-" + b
    ensures x == y && a == b
  {
    var s := x + "-" + a;
    DashNotInside(x, a, y, b);
    DashNotInside(y, b, x, a);
    assert s[..|x|] == x && s[..|y|] == y;
    assert s[|x| + 1..] == a && s[|y| + 1..] == b;
  }

  /** Documents share a key when they agree in API version, kind and name. When two of these agree, or when
      both documents are plain, they share it only then; documents that do not decode share one of their own. */
  lemma SameKeyIff(parse: Parser, d: string, e: string)
    ensures parse(d).None? ==> (Key(parse, d) == Key(parse, e) <==> parse(e).None?)
    ensures parse(d).Some? && SameFields(parse, e, parse(d).value) ==> Key(parse, d) == Key(parse, e)
    ensures parse(d).Some? && parse(e).Some? && Key(parse, d) == Key(parse, e) ==>
              var m, o := parse(d).value, parse(e).value;
              && (m.apiVersion == o.apiVersion && m.kind == o.kind ==> m.name == o.name)
              && (m.apiVersion == o.apiVersion && m.name == o.name ==> m.kind == o.kind)
              && (m.kind == o.kind && m.name == o.name ==> m.apiVersion == o.apiVersion)
              && (Plain(m) && Plain(o) ==> SameFields(parse, e, m))
  {
    if parse(d).Some? && parse(e).Some? && Key(parse, d) == Key(parse, e) {
      var m, o := parse(d).value, parse(e).value;
      JoinedFields(m, o);
      if Plain(m) && Plain(o) {
        PlainFields(m, o);
      }
    }
  }

  lemma JoinedFields(m: Meta, o: Meta)
    requires Joined(m) == Joined(o)
    ensures m.apiVersion == o.apiVersion && m.kind == o.kind ==> m.name == o.name
    ensures m.apiVersion == o.apiVersion && m.name == o.name ==> m.kind == o.kind
    ensures m.kind == o.kind && m.name == o.name ==> m.apiVersion == o.apiVersion
  {
    var a, b := |m.apiVersion|, |o.apiVersion|;
    assert Joined(m)[..a] == m.apiVersion && Joined(o)[..b] == o.apiVersion;
    assert Joined(m)[a + 1..][..|m.kind|] == m.kind && Joined(o)[b + 1..][..|o.kind|] == o.kind;
    assert Joined(m)[a + 1 + |m.kind| + 1..] == m.name && Joined(o)[b + 1 + |o.kind| + 1..] == o.name;
  }

  lemma PlainFields(m: Meta, o: Meta)
    requires Joined(m) == Joined(o) && Plain(m) && Plain(o)
    ensures m.apiVersion == o.apiVersion && m.kind == o.kind && m.name == o.name
  {
    assert Joined(m) == m.apiVersion + "-" + (m.kind + "-" + m.name);
    assert Joined(o) == o.apiVersion + "-" + (o.kind + "-" + o.name);
    DashSplits(m.apiVersion, m.kind + "-" + m.name, o.apiVersion, o.kind + "-" + o.name);
    DashSplits(m.kind, m.name, o.kind, o.name);
  }

  /** With dashes different objects can share a key. */
  lemma DashesShareKey(parse: Parser)
    requires parse("x") == Some(Meta("v1", "A-B", "c", "")) && parse("y") == Some(Meta("v1", "A", "B-c", ""))
    ensures Key(parse, "x") == Key(parse, "y") && !SameFields(parse, "y", parse("x").value)
  {
    assert "v1" + "-" + "A-B" + "-" + "c" == "v1-A-B-c" == "v1" + "-" + "A" + "-" + "B-c";
    assert "A-B" != "A" by { assert |"A-B"| != |"A"|; }
  }

  /** Only this one API version of custom resource definitions is told apart. */
  lemma CrdIff(parse: Parser, doc: string)
    ensures IsCRD(parse, doc) <==>
            exists name, ns :: parse(doc) == Some(Meta("apiextensions.k8s.io/v1beta1", "CustomResourceDefinition", name, ns))
  {
    if IsCRD(parse, doc) {
      var m := parse(doc).value;
      assert parse(doc) == Some(Meta("apiextensions.k8s.io/v1beta1", "CustomResourceDefinition", m.name, m.ns));
    }
  }

  /** A document is grouped under its own namespace, or under the target one if it has none. */
  lemma GroupedIff(parse: Parser, docs: seq<string>, target: string, ns: string, d: string)
    requires parse(d).Some?
    ensures d in InNamespace(parse, docs, target, ns) <==>
            d in docs && (parse(d).value.ns == ns || (parse(d).value.ns == "" && ns == target))
                      && (ns == "" ==> target == "")
  {
    WithinMembers(parse, docs, target, {ns});
  }
}
