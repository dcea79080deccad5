/**
 The deploy handler of the operator: remove what was in the previous manifests but is not in the
 current ones, then apply the current ones.
 */
module DeployClient {
  import opened Wrappers
  import opened Documents
  import opened Manifests
  import opened DeployPlan
  import opened DeployCluster

  /** How a deploy ends: with an error, with a rejected dry run or CRD call that has been reported, or
      with every batch sent, some of them perhaps rejected. */
  datatype Outcome = Failed(error: string) | Reported | Sent(hasErr: bool)

  /** kubectl and the cluster behind it. `accepts` says which calls succeed. */
  class Kubectl {
    const parse: Parser
    const accepts: Call -> bool
    var calls: seq<Call>
    var cluster: set<Object>

    constructor (parse: Parser, accepts: Call -> bool)
      ensures this.parse == parse && this.accepts == accepts && calls == [] && cluster == {}
    {
      this.parse, this.accepts, calls, cluster := parse, accepts, [], {};
    }

    /** A rejected call may have applied any part of its documents. */
    method Send(call: Call) returns (ok: bool)
      modifies this
      ensures ok == accepts(call) && calls == old(calls) + [call]
      ensures ok ==> cluster == Effect(parse, old(cluster), call)
      ensures !ok ==> old(cluster) <= cluster <= old(cluster) + Effect(parse, old(cluster), call)
    {
      calls := calls + [call];
      ok := accepts(call);
      if ok {
        cluster := Effect(parse, cluster, call);
      } else {
        var part: set<Object> :| cluster <= part <= cluster + Effect(parse, cluster, call);
        cluster := part;
      }
    }
  }

  ghost predicate AllAccepted(kubectl: Kubectl, calls: seq<Call>) {
    forall c :: c in calls ==> kubectl.accepts(c)
  }

  // Removing

  method ManifestsByKey(parse: Parser, text: string) returns (m: map<Option<string>, string>)
    ensures m == ByKey(parse, Split(text))
  {
    m := map[];
    var docs := Split(text);
    for i := 0 to |docs|
      invariant m == ByKey(parse, docs[..i])
    {
      assert docs[..i + 1][..i] == docs[..i];
      m := m[Key(parse, docs[i]) := docs[i]];
    }
    assert docs[..|docs|] == docs;
  }

  lemma AllAcceptedConcat(kubectl: Kubectl, a: seq<Call>, b: seq<Call>)
    ensures AllAccepted(kubectl, a + b) <==> AllAccepted(kubectl, a) && AllAccepted(kubectl, b)
  {
    assert forall c :: c in a + b <==> c in a || c in b;
  }

  /** The calls made so far and what they did when none was rejected. */
  twostate predicate Made(kubectl: Kubectl, calls: seq<Call>)
    reads kubectl
  {
    && kubectl.calls == old(kubectl.calls) + calls
    && (AllAccepted(kubectl, calls) ==> kubectl.cluster == Effects(kubectl.parse, old(kubectl.cluster), calls))
  }

  method DiffAndRemovePreviousManifests(kubectl: Kubectl, previous: string, current: string, target: string)
    returns (ghost order: seq<Option<string>>, ghost removals: seq<Call>)
    modifies kubectl
    ensures Made(kubectl, removals)
    ensures Removals(kubectl.parse, Split(previous), Split(current), target, order, removals)
    ensures AllPlain(kubectl.parse, Split(previous) + Split(current)) ==>
              forall d :: kubectl.parse(d).Some? ==>
                (Remove(target, d) in removals <==>
                 IsLastOf(kubectl.parse, Split(previous), d) && !Mentions(kubectl.parse, Split(current), kubectl.parse(d).value))
    ensures kubectl.cluster == old(kubectl.cluster) - Taken(kubectl, removals)
  {
    var decodedPrevious := ManifestsByKey(kubectl.parse, previous);
    var decodedCurrent := ManifestsByKey(kubectl.parse, current);
    order, removals := RemoveDropped(kubectl, decodedPrevious, decodedCurrent, target);
    ByKeyIsLast(kubectl.parse, Split(previous));
    ByKeyIsLast(kubectl.parse, Split(current));
    RemovedOnFields(kubectl.parse, Split(previous), Split(current), target, order, removals);
  }

  lemma RemovedOnFields(parse: Parser, prev: seq<string>, cur: seq<string>, target: string,
                        order: seq<Option<string>>, calls: seq<Call>)
    requires Removals(parse, prev, cur, target, order, calls)
    ensures AllPlain(parse, prev + cur) ==>
              forall d :: parse(d).Some? ==>
                (Remove(target, d) in calls <==> IsLastOf(parse, prev, d) && !Mentions(parse, cur, parse(d).value))
  {
    if AllPlain(parse, prev + cur) {
      forall d | parse(d).Some?
        ensures Remove(target, d) in calls <==> IsLastOf(parse, prev, d) && !Mentions(parse, cur, parse(d).value)
      {
        RemovedIff(parse, prev, cur, target, order, calls, d);
      }
    }
  }

  /** The objects that the accepted ones among `calls` remove. */
  ghost function Taken(kubectl: Kubectl, calls: seq<Call>): set<Object> {
    set c, o | c in calls && c.Remove? && kubectl.accepts(c) && o in Objects(kubectl.parse, [c.doc], c.target) :: o
  }

  lemma TakenGrows(kubectl: Kubectl, calls: seq<Call>, call: Call)
    requires call.Remove?
    ensures Taken(kubectl, calls + [call]) ==
            Taken(kubectl, calls) + (if kubectl.accepts(call) then Objects(kubectl.parse, [call.doc], call.target) else {})
  {
    assert forall c :: c in calls + [call] <==> c in calls || c == call;
  }

  lemma RemovalCallsGrow(docs: map<Option<string>, string>, order: seq<Option<string>>, k: Option<string>, target: string)
    requires k in docs && forall o :: o in order ==> o in docs
    ensures (forall o :: o in order + [k] ==> o in docs)
            && RemovalCalls(docs, order + [k], target) == RemovalCalls(docs, order, target) + [Remove(target, docs[k])]
  {
  }

  /** One more removal; when it fails that is only logged. */
  method RemoveNext(kubectl: Kubectl, call: Call, ghost sent: seq<Call>, ghost calls0: seq<Call>, ghost cluster0: set<Object>)
    requires call.Remove? && kubectl.calls == calls0 + sent
    requires AllAccepted(kubectl, sent) ==> kubectl.cluster == Effects(kubectl.parse, cluster0, sent)
    requires kubectl.cluster == cluster0 - Taken(kubectl, sent)
    modifies kubectl
    ensures kubectl.calls == calls0 + (sent + [call])
    ensures AllAccepted(kubectl, sent + [call]) ==>
              kubectl.cluster == Effects(kubectl.parse, cluster0, sent + [call])
    ensures kubectl.cluster == cluster0 - Taken(kubectl, sent + [call])
  {
    TakenGrows(kubectl, sent, call);
    var removed := SendNext(kubectl, call, sent, calls0, cluster0);
  }

  /** The removing loop. Failed removals are logged and skipped. */
  method RemoveDropped(kubectl: Kubectl, previous: map<Option<string>, string>, current: map<Option<string>, string>,
                       target: string)
    returns (ghost order: seq<Option<string>>, ghost removals: seq<Call>)
    modifies kubectl
    ensures Made(kubectl, removals)
    ensures Distinct(order) && (forall k :: k in order <==> k in previous && k !in current)
    ensures removals == RemovalCalls(previous, order, target)
    ensures kubectl.cluster == old(kubectl.cluster) - Taken(kubectl, removals)
  {
    order, removals := [], [];
    var rest := previous.Keys;
    while rest != {}
      invariant rest <= previous.Keys
      invariant forall k :: k in order <==> k in previous && k !in rest && k !in current
      invariant Distinct(order) && removals == RemovalCalls(previous, order, target)
      invariant Made(kubectl, removals)
      invariant kubectl.cluster == old(kubectl.cluster) - Taken(kubectl, removals)
      decreases |rest|
    {
      var k :| k in rest;
      rest := rest - {k};
      if k !in current {
        RemovalCallsGrow(previous, order, k, target);
        RemoveNext(kubectl, Remove(target, previous[k]), removals, old(kubectl.calls), old(kubectl.cluster));
        order, removals := order + [k], removals + [Remove(target, previous[k])];
      }
    }
  }

  /** One more call after those in `sent`. */
  method SendNext(kubectl: Kubectl, call: Call, ghost sent: seq<Call>, ghost calls0: seq<Call>, ghost cluster0: set<Object>)
    returns (ok: bool)
    requires kubectl.calls == calls0 + sent
    requires AllAccepted(kubectl, sent) ==> kubectl.cluster == Effects(kubectl.parse, cluster0, sent)
    modifies kubectl
    ensures ok == kubectl.accepts(call) && kubectl.calls == calls0 + (sent + [call])
    ensures AllAccepted(kubectl, sent + [call]) <==> AllAccepted(kubectl, sent) && ok
    ensures AllAccepted(kubectl, sent + [call]) ==>
              kubectl.cluster == Effects(kubectl.parse, cluster0, sent + [call])
    ensures call.Apply? && call.dry ==> kubectl.cluster == old(kubectl.cluster)
    ensures call.Remove? ==>
              kubectl.cluster == old(kubectl.cluster) - (if ok then Objects(kubectl.parse, [call.doc], call.target) else {})
  {
    ok := kubectl.Send(call);
    AllAcceptedConcat(kubectl, sent, [call]);
    assert AllAccepted(kubectl, [call]) <==> ok by { assert call in [call]; }
    EffectsConcat(kubectl.parse, cluster0, sent, [call]);
  }

  // Applying

  /** The dry run of every batch; it stops at the first one that is rejected. */
  method DryRun(kubectl: Kubectl, texts: map<string, string>) returns (ok: bool, ghost sent: seq<Call>)
    modifies kubectl
    ensures Made(kubectl, sent) && kubectl.cluster == old(kubectl.cluster)
    ensures ok <==> AllAccepted(kubectl, sent)
    ensures ok ==> Batches(texts, sent, true)
  {
    sent := [];
    var rest := texts.Keys;
    while rest != {}
      invariant rest <= texts.Keys && SomeBatches(texts, texts.Keys - rest, sent, true)
      invariant Made(kubectl, sent) && AllAccepted(kubectl, sent) && kubectl.cluster == old(kubectl.cluster)
      decreases |rest|
    {
      var ns :| ns in rest;
      BatchesGrow(texts, texts.Keys - rest, ns, sent, true);
      assert texts.Keys - (rest - {ns}) == texts.Keys - rest + {ns};
      rest := rest - {ns};
      if |texts[ns]| != 0 {
        var call := Apply(ns, texts[ns], true);
        var accepted := SendNext(kubectl, call, sent, old(kubectl.calls), old(kubectl.cluster));
        sent := sent + [call];
        if !accepted {
          return false, sent;
        }
      }
    }
    return true, sent;
  }

  /** The batches of the namespaces in `done`. */
  ghost predicate SomeBatches(texts: map<string, string>, done: set<string>, calls: seq<Call>, dry: bool) {
    && (forall i :: 0 <= i < |calls| ==> calls[i].Apply? && calls[i].ns in done && IsBatch(texts, calls[i], dry))
    && (forall i, j :: 0 <= i < j < |calls| ==> calls[i] != calls[j])
    && (forall ns :: ns in done && ns in texts && texts[ns] != "" ==> Apply(ns, texts[ns], dry) in calls)
  }

  lemma BatchesGrow(texts: map<string, string>, done: set<string>, ns: string, calls: seq<Call>, dry: bool)
    requires SomeBatches(texts, done, calls, dry) && ns in texts && ns !in done
    ensures SomeBatches(texts, done + {ns}, if texts[ns] == "" then calls else calls + [Apply(ns, texts[ns], dry)], dry)
  {
  }

  /** Every batch is sent, whether or not an earlier one was rejected. */
  method ApplyBatches(kubectl: Kubectl, texts: map<string, string>) returns (hasErr: bool, ghost sent: seq<Call>)
    modifies kubectl
    ensures Made(kubectl, sent)
    ensures hasErr <==> !AllAccepted(kubectl, sent)
    ensures Batches(texts, sent, false)
  {
    sent, hasErr := [], false;
    var rest := texts.Keys;
    while rest != {}
      invariant rest <= texts.Keys && SomeBatches(texts, texts.Keys - rest, sent, false)
      invariant Made(kubectl, sent)
      invariant hasErr <==> !AllAccepted(kubectl, sent)
      decreases |rest|
    {
      var ns :| ns in rest;
      BatchesGrow(texts, texts.Keys - rest, ns, sent, false);
      assert texts.Keys - (rest - {ns}) == texts.Keys - rest + {ns};
      rest := rest - {ns};
      if |texts[ns]| != 0 {
        var call := Apply(ns, texts[ns], false);
        var accepted := SendNext(kubectl, call, sent, old(kubectl.calls), old(kubectl.cluster));
        sent := sent + [call];
        if !accepted {
          hasErr := true;
        }
      }
    }
  }

  predicate Undecodable(parse: Parser, docs: seq<string>) {
    exists d :: d in docs && parse(d).None?
  }

  /** What happens before the batches: without CRDs a dry run of every batch, with CRDs the CRDs. The
      result says how the deploy ends if it ends here. */
  method DryRunOrApplyCRDs(kubectl: Kubectl, crdText: Option<string>, text: string, target: string)
    returns (ended: Option<Outcome>, ghost dry: seq<Call>, ghost crd: seq<Call>)
    modifies kubectl
    ensures Made(kubectl, dry + crd)
    ensures crdText.None? ==> crd == [] && kubectl.cluster == old(kubectl.cluster)
    ensures crdText.Some? ==> dry == []
    ensures match ended
            case None => AllAccepted(kubectl, dry + crd) && Prepared(kubectl.parse, crdText, text, target, dry, crd)
            case Some(Failed(_)) => crdText.None? && Undecodable(kubectl.parse, Split(text)) && dry == []
            case Some(Reported) => !AllAccepted(kubectl, dry + crd)
            case Some(Sent(_)) => false
  {
    ended, dry, crd := None, [], [];
    if crdText.None? {
      var byNamespace := DocsByNamespace(kubectl.parse, text, target);
      if byNamespace.Failure? {
        return Some(Failed(byNamespace.error)), [], [];
      }
      assert byNamespace.value == Texts(kubectl.parse, Split(text), target);
      var ok;
      ok, dry := DryRun(kubectl, byNamespace.value);
      assert dry + crd == dry;
      if !ok {
        ended := Some(Reported);
      }
    } else if |crdText.value| != 0 {
      var call := Apply("", crdText.value, false);
      crd := [call];
      var ok := kubectl.Send(call);
      assert dry + crd == crd && call in crd;
      if !ok {
        ended := Some(Reported);
      }
    }
  }

  method ApplyOthers(kubectl: Kubectl, otherText: string, target: string)
    returns (r: Outcome, ghost batches: seq<Call>)
    modifies kubectl
    ensures Made(kubectl, batches) && !r.Reported?
    ensures r.Failed? <==> Undecodable(kubectl.parse, Split(otherText))
    ensures r.Failed? ==> batches == [] && kubectl.cluster == old(kubectl.cluster)
    ensures r.Sent? ==> Batches(Texts(kubectl.parse, Split(otherText), target), batches, false)
                        && (r.hasErr <==> !AllAccepted(kubectl, batches))
  {
    batches := [];
    var byNamespace := DocsByNamespace(kubectl.parse, otherText, target);
    if byNamespace.Failure? {
      return Failed(byNamespace.error), [];
    }
    assert byNamespace.value == Texts(kubectl.parse, Split(otherText), target);
    var hasErr;
    hasErr, batches := ApplyBatches(kubectl, byNamespace.value);
    return Sent(hasErr), batches;
  }

  /** What has been sent before the batches, by whether there is a CRD text. */
  ghost predicate Prepared(parse: Parser, crdText: Option<string>, text: string, target: string,
                           dry: seq<Call>, crd: seq<Call>)
  {
    match crdText
    case None => crd == [] && Batches(Texts(parse, Split(text), target), dry, true)
    case Some(t) => dry == [] && crd == if t == "" then [] else [Apply("", t, false)]
  }

  ghost predicate IsCrdText(parse: Parser, text: string, crdText: Option<string>) {
    var crds := Crds(parse, Split(text));
    crdText == if crds == [] then None else Some(Join(crds))
  }

  lemma PreparedIsPlanned(parse: Parser, crdText: Option<string>, text: string, target: string,
                          dry: seq<Call>, crd: seq<Call>, batches: seq<Call>)
    requires IsCrdText(parse, text, crdText) && Prepared(parse, crdText, text, target, dry, crd)
    requires Batches(Texts(parse, Split(OtherText(parse, text)), target), batches, false)
    ensures Plan(parse, text, target, dry, crd, batches)
  {
  }

  /** `ensureResourcesPresent`. */
  method EnsureResourcesPresent(kubectl: Kubectl, text: string, target: string)
    returns (r: Outcome, ghost dry: seq<Call>, ghost crd: seq<Call>, ghost batches: seq<Call>)
    modifies kubectl
    ensures Made(kubectl, dry + crd + batches)
    ensures r.Sent? ==> Plan(kubectl.parse, text, target, dry, crd, batches)
    ensures r.Sent? ==> AllAccepted(kubectl, dry + crd) && (r.hasErr <==> !AllAccepted(kubectl, batches))
    ensures r.Failed? ==> Undecodable(kubectl.parse, Split(OtherText(kubectl.parse, text))) && batches == []
    ensures r.Reported? ==> !AllAccepted(kubectl, dry + crd) && batches == []
    ensures !r.Sent? && Crds(kubectl.parse, Split(text)) == [] ==> kubectl.cluster == old(kubectl.cluster)
  {
    batches := [];
    var crdText, otherText := SplitIntoCRDsAndOthers(kubectl.parse, text);
    assert IsCrdText(kubectl.parse, text, crdText) && otherText == OtherText(kubectl.parse, text);
    var ended;
    ended, dry, crd := DryRunOrApplyCRDs(kubectl, crdText, text, target);
    assert dry + crd + [] == dry + crd;
    if ended.Some? {
      return ended.value, dry, crd, [];
    }
    ghost var middle := kubectl.cluster;
    r, batches := ApplyOthers(kubectl, otherText, target);
    if r.Sent? {
      PreparedIsPlanned(kubectl.parse, crdText, text, target, dry, crd, batches);
    }
    MadeInTwoParts(kubectl, old(kubectl.calls), old(kubectl.cluster), middle, dry + crd, batches);
  }

  lemma MadeInTwoParts(kubectl: Kubectl, calls0: seq<Call>, cluster0: set<Object>, middle: set<Object>,
                       a: seq<Call>, b: seq<Call>)
    requires AllAccepted(kubectl, a) ==> middle == Effects(kubectl.parse, cluster0, a)
    requires AllAccepted(kubectl, b) ==> kubectl.cluster == Effects(kubectl.parse, middle, b)
    ensures AllAccepted(kubectl, a + b) ==> kubectl.cluster == Effects(kubectl.parse, cluster0, a + b)
    ensures calls0 + a + b == calls0 + (a + b)
  {
    AllAcceptedConcat(kubectl, a, b);
    EffectsConcat(kubectl.parse, cluster0, a, b);
  }

  /** The removals leave the cluster without the objects of the dropped keys. */
  lemma RemovalsEffect(parse: Parser, cluster: set<Object>, prev: seq<string>, cur: seq<string>, target: string,
                       order: seq<Option<string>>, calls: seq<Call>)
    requires Removals(parse, prev, cur, target, order, calls)
    ensures Effects(parse, cluster, calls) == cluster - Removed(parse, prev, cur, target)
  {
    EffectsOfRemovals(parse, cluster, ByKey(parse, prev), order, target);
    ByKeyIsLast(parse, prev);
  }

  /** What is removed before applying: without previous manifests nothing. */
  ghost predicate PreviousRemovals(parse: Parser, previous: string, current: string, target: string, removals: seq<Call>) {
    if previous == "" then removals == []
    else exists order :: Removals(parse, Split(previous), Split(current), target, order, removals)
  }

  /** The removing half of the "deploy" handler, skipped when there are no previous manifests. */
  method RemovePrevious(kubectl: Kubectl, previous: string, current: string, target: string)
    returns (ghost removals: seq<Call>)
    modifies kubectl
    ensures kubectl.calls == old(kubectl.calls) + removals
    ensures PreviousRemovals(kubectl.parse, previous, current, target, removals)
    ensures kubectl.cluster == old(kubectl.cluster) - Taken(kubectl, removals)
    ensures AllAccepted(kubectl, removals) ==>
              kubectl.cluster == old(kubectl.cluster) - Removed(kubectl.parse, PreviousDocs(previous), Split(current), target)
  {
    removals := [];
    if previous != "" {
      ghost var order;
      order, removals := DiffAndRemovePreviousManifests(kubectl, previous, current, target);
      RemovalsEffect(kubectl.parse, old(kubectl.cluster), Split(previous), Split(current), target, order, removals);
    }
  }

  /** The "deploy" handler: diff and remove when there are previous manifests, then apply. A rejected
      removal is only logged: when no batch is rejected, the cluster has lost exactly the objects of the
      accepted removals and has every current one. */
  method Deploy(kubectl: Kubectl, previous: string, current: string, target: string)
    returns (r: Outcome, ghost removals: seq<Call>, ghost dry: seq<Call>, ghost crd: seq<Call>, ghost batches: seq<Call>)
    requires BlankIsEmpty(kubectl.parse)
    modifies kubectl
    ensures kubectl.calls == old(kubectl.calls) + removals + (dry + crd + batches)
    ensures PreviousRemovals(kubectl.parse, previous, current, target, removals)
    ensures r.Sent? ==> Plan(kubectl.parse, current, target, dry, crd, batches)
    ensures r.Sent? ==> AllAccepted(kubectl, dry + crd) && (r.hasErr <==> !AllAccepted(kubectl, batches))
    ensures r.Failed? ==> Undecodable(kubectl.parse, Split(OtherText(kubectl.parse, current))) && batches == []
    ensures r.Reported? ==> !AllAccepted(kubectl, dry + crd) && batches == []
    ensures r == Sent(false) ==>
              kubectl.cluster ==
              old(kubectl.cluster) - Taken(kubectl, removals) + Objects(kubectl.parse, Split(current), target)
    ensures r == Sent(false) && AllAccepted(kubectl, removals) ==>
              kubectl.cluster ==
              AfterDeploy(kubectl.parse, old(kubectl.cluster), PreviousDocs(previous), Split(current), target)
  {
    removals := RemovePrevious(kubectl, previous, current, target);
    ghost var middle := kubectl.cluster;
    r, dry, crd, batches := EnsureResourcesPresent(kubectl, current, target);
    if r == Sent(false) {
      AllAcceptedConcat(kubectl, dry + crd, batches);
      EffectsOfPlan(kubectl.parse, middle, current, target, dry, crd, batches);
    }
  }
}
