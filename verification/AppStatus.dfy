/**
 The application status monitor: a list of resource states, reset from the informers and then updated
 by one event after the other.
 */
module AppStatus {
  import opened Wrappers
  import opened ResourceOrder

  datatype Informer = Informer(kind: string, name: string, ns: string)

  /** `lower` stands for `strings.ToLower`. */
  type Lower = string -> string

  // Normalized informers

  /** The first registered list of names that contains the kind gives its common name. */
  function CommonName(names: seq<seq<string>>, lower: Lower, kind: string): string {
    if names == [] then kind
    else if lower(kind) in names[0] then names[0][0]
    else CommonName(names[1..], lower, kind)
  }

  method GetResourceKindCommonName(names: seq<seq<string>>, lower: Lower, kind: string) returns (r: string)
    ensures r == CommonName(names, lower, kind)
  {
    for i := 0 to |names|
      invariant CommonName(names, lower, kind) == CommonName(names[i..], lower, kind)
    {
      for j := 0 to |names[i]|
        invariant forall k :: 0 <= k < j ==> names[i][k] != lower(kind)
      {
        if names[i][j] == lower(kind) {
          return names[i][0];
        }
      }
      assert names[i..][1..] == names[i + 1..];
    }
    return kind;
  }

  /** A kind that is registered goes to the first name of the first list that has it. */
  lemma {:induction false} CommonNameIs(names: seq<seq<string>>, lower: Lower, kind: string, i: nat)
    requires i < |names| && lower(kind) in names[i] && forall j :: 0 <= j < i ==> lower(kind) !in names[j]
    ensures CommonName(names, lower, kind) == names[i][0]
  {
    if i > 0 {
      CommonNameIs(names[1..], lower, kind, i - 1);
    }
  }

  lemma {:induction false} NoCommonName(names: seq<seq<string>>, lower: Lower, kind: string)
    requires forall j :: 0 <= j < |names| ==> lower(kind) !in names[j]
    ensures CommonName(names, lower, kind) == kind
  {
    if names != [] {
      NoCommonName(names[1..], lower, kind);
    }
  }

  function Normalized(names: seq<seq<string>>, lower: Lower, target: string, i: Informer): Informer {
    Informer(CommonName(names, lower, i.kind), i.name, if i.ns == "" then target else i.ns)
  }

  function NormalizedAll(names: seq<seq<string>>, lower: Lower, target: string, informers: seq<Informer>): seq<Informer> {
    seq(|informers|, i requires 0 <= i < |informers| => Normalized(names, lower, target, informers[i]))
  }

  method NormalizeStatusInformers(names: seq<seq<string>>, lower: Lower, informers: seq<Informer>, target: string)
    returns (next: seq<Informer>)
    ensures next == NormalizedAll(names, lower, target, informers)
    ensures forall i :: 0 <= i < |next| ==>
              && next[i].name == informers[i].name
              && (informers[i].ns != "" ==> next[i].ns == informers[i].ns)
              && (informers[i].ns == "" ==> next[i].ns == target)
  {
    next := [];
    for i := 0 to |informers|
      invariant |next| == i
      invariant forall j :: 0 <= j < i ==> next[j] == Normalized(names, lower, target, informers[j])
    {
      var kind := GetResourceKindCommonName(names, lower, informers[i].kind);
      var ns := informers[i].ns;
      if ns == "" {
        ns := target;
      }
      next := next + [Informer(kind, informers[i].name, ns)];
    }
  }

  // The status list as a function of the events

  predicate SameResource(i: Informer, r: ResourceState) {
    i.kind == r.kind && i.name == r.name && i.ns == r.ns
  }

  /** The state of the last event for a resource, or missing when there was none. */
  function LastState(events: seq<ResourceState>, i: Informer): State {
    if events == [] then Missing
    else if SameResource(i, events[|events| - 1]) then events[|events| - 1].state
    else LastState(events[..|events| - 1], i)
  }

  function StatusOf(events: seq<ResourceState>, i: Informer): ResourceState {
    ResourceState(i.kind, i.name, i.ns, LastState(events, i))
  }

  /** One entry for each informer, with its last state. */
  function Summary(informers: seq<Informer>, events: seq<ResourceState>): (s: seq<ResourceState>)
    ensures |s| == |informers| && forall i :: 0 <= i < |s| ==> s[i] == StatusOf(events, informers[i])
  {
    seq(|informers|, i requires 0 <= i < |informers| => StatusOf(events, informers[i]))
  }

  function Applied(event: ResourceState, r: ResourceState): ResourceState {
    if event.kind == r.kind && event.ns == r.ns && event.name == r.name then event else r
  }

  function ApplyAll(event: ResourceState, s: seq<ResourceState>): seq<ResourceState> {
    if s == [] then [] else [Applied(event, s[0])] + ApplyAll(event, s[1..])
  }

  lemma {:induction false} ApplyAllAppend(event: ResourceState, s: seq<ResourceState>, r: ResourceState)
    ensures ApplyAll(event, s + [r]) == ApplyAll(event, s) + [Applied(event, r)]
  {
    if s == [] {
      assert (s + [r])[1..] == [];
    } else {
      ApplyAllAppend(event, s[1..], r);
      assert (s + [r])[1..] == s[1..] + [r];
    }
  }

  lemma {:induction false} ApplyAllAt(event: ResourceState, s: seq<ResourceState>)
    ensures |ApplyAll(event, s)| == |s|
    ensures forall i :: 0 <= i < |s| ==> ApplyAll(event, s)[i] == Applied(event, s[i])
  {
    if s != [] { ApplyAllAt(event, s[1..]); }
  }

  /** Applying an event to a rearranged list rearranges the result. */
  lemma {:induction false} ApplyAllPermutes(event: ResourceState, a: seq<ResourceState>, b: seq<ResourceState>)
    requires multiset(a) == multiset(b)
    ensures multiset(ApplyAll(event, a)) == multiset(ApplyAll(event, b))
    decreases |a|
  {
    if a == [] {
      assert |multiset(b)| == 0;
    } else {
      assert a[0] in multiset(b);
      var k :| 0 <= k < |b| && b[k] == a[0];
      var rest := b[..k] + b[k + 1..];
      assert a == [a[0]] + a[1..];
      assert b == b[..k] + [b[k]] + b[k + 1..];
      assert multiset(a[1..]) == multiset(a) - multiset{a[0]};
      assert multiset(rest) == multiset(b) - multiset{a[0]};
      ApplyAllPermutes(event, a[1..], rest);
      ApplyAllSplit(event, b[..k], b[k], b[k + 1..]);
    }
  }

  lemma {:induction false} ApplyAllSplit(event: ResourceState, a: seq<ResourceState>, x: ResourceState, b: seq<ResourceState>)
    ensures multiset(ApplyAll(event, a + [x] + b)) == multiset{Applied(event, x)} + multiset(ApplyAll(event, a + b))
    decreases |a|
  {
    if a == [] {
      assert a + [x] + b == [x] + b && a + b == b;
    } else {
      ApplyAllSplit(event, a[1..], x, b);
      assert (a + [x] + b)[1..] == a[1..] + [x] + b && (a + b)[1..] == a[1..] + b;
    }
  }

  lemma SummaryStep(informers: seq<Informer>, events: seq<ResourceState>, event: ResourceState)
    ensures ApplyAll(event, Summary(informers, events)) == Summary(informers, events + [event])
  {
    ApplyAllAt(event, Summary(informers, events));
    assert (events + [event])[..|events|] == events;
  }

  // The code

  method BuildResourceStatesFromStatusInformers(informers: seq<Informer>) returns (next: seq<ResourceState>)
    ensures multiset(next) == multiset(Summary(informers, []))
    ensures Comparable(Summary(informers, [])) ==> Sorted(next)
  {
    next := [];
    for i := 0 to |informers|
      invariant next == Summary(informers[..i], [])
    {
      assert informers[..i + 1] == informers[..i] + [informers[i]];
      next := next + [ResourceState(informers[i].kind, informers[i].name, informers[i].ns, Missing)];
    }
    assert informers[..|informers|] == informers;
    next := Sort(next);
  }

  method ResourceStatesApplyNew(states: seq<ResourceState>, event: ResourceState)
    returns (next: seq<ResourceState>, didChange: bool)
    ensures multiset(next) == multiset(ApplyAll(event, states))
    ensures Comparable(ApplyAll(event, states)) ==> Sorted(next)
    ensures didChange <==> ApplyAll(event, states) != states
  {
    next, didChange := [], false;
    for i := 0 to |states|
      invariant next == ApplyAll(event, states[..i])
      invariant didChange <==> next != states[..i]
    {
      assert states[..i + 1] == states[..i] + [states[i]];
      ApplyAllAppend(event, states[..i], states[i]);
      ApplyAllAt(event, states[..i]);
      var r := states[i];
      assert event.state == r.state ==> Applied(event, r) == r;
      if event.kind == r.kind && event.ns == r.ns && event.name == r.name && event.state != r.state {
        didChange := true;
        next := next + [event];
      } else {
        next := next + [r];
      }
    }
    assert states[..|states|] == states;
    next := Sort(next);
  }

  /** A status to send after `events`: a rearrangement of the last state of every informer, sorted when
      that is possible. */
  ghost predicate IsStatus(informers: seq<Informer>, events: seq<ResourceState>, s: seq<ResourceState>) {
    && multiset(s) == multiset(Summary(informers, events))
    && (Comparable(Summary(informers, events)) ==> Sorted(s))
  }

  lemma ComparablePermutes(a: seq<ResourceState>, b: seq<ResourceState>)
    requires multiset(a) == multiset(b) && Comparable(a)
    ensures Comparable(b)
  {
    SortableIff(a);
    var r :| multiset(r) == multiset(a) && Sorted(r);
    assert multiset(r) == multiset(b) && Sorted(r);
    SortableIff(b);
  }

  lemma EventStep(informers: seq<Informer>, events: seq<ResourceState>, event: ResourceState, states: seq<ResourceState>,
                  next: seq<ResourceState>)
    requires IsStatus(informers, events, states)
    requires multiset(next) == multiset(ApplyAll(event, states))
    requires Comparable(ApplyAll(event, states)) ==> Sorted(next)
    ensures IsStatus(informers, events + [event], next)
  {
    ApplyAllPermutes(event, states, Summary(informers, events));
    SummaryStep(informers, events, event);
    if Comparable(Summary(informers, events + [event])) {
      ComparablePermutes(Summary(informers, events + [event]), ApplyAll(event, states));
    }
  }

  /** One status after the reset and one after each event. */
  ghost predicate AreStatuses(informers: seq<Informer>, events: seq<ResourceState>, sent: seq<seq<ResourceState>>)
    decreases |events|
  {
    && |sent| == |events| + 1
    && IsStatus(informers, events, sent[|events|])
    && (events != [] ==> AreStatuses(informers, events[..|events| - 1], sent[..|events|]))
  }

  lemma {:induction false} StatusAfter(informers: seq<Informer>, events: seq<ResourceState>, sent: seq<seq<ResourceState>>,
                                       k: nat)
    requires AreStatuses(informers, events, sent) && k <= |events|
    ensures IsStatus(informers, events[..k], sent[k])
    decreases |events|
  {
    if k == |events| {
      assert events[..k] == events;
    } else {
      StatusAfter(informers, events[..|events| - 1], sent[..|events|], k);
      assert events[..|events| - 1][..k] == events[..k];
    }
  }

  /** The last event for a resource decides its state. */
  lemma {:induction false} LastEventDecides(events: seq<ResourceState>, i: Informer, k: nat)
    requires k < |events| && events[k].kind == i.kind && events[k].name == i.name && events[k].ns == i.ns
    requires forall j :: k < j < |events| ==>
               events[j].kind != i.kind || events[j].name != i.name || events[j].ns != i.ns
    ensures LastState(events, i) == events[k].state
  {
    if k < |events| - 1 {
      LastEventDecides(events[..|events| - 1], i, k);
    }
  }

  /** A resource without an event is missing. */
  lemma {:induction false} NoEventIsMissing(events: seq<ResourceState>, i: Informer)
    requires forall j :: 0 <= j < |events| ==>
               events[j].kind != i.kind || events[j].name != i.name || events[j].ns != i.ns
    ensures LastState(events, i) == Missing
  {
    if events != [] {
      NoEventIsMissing(events[..|events| - 1], i);
    }
  }

  /** A status has one entry for each informer with the informer's kind, name and namespace, and no other. */
  lemma StatusEntries(informers: seq<Informer>, events: seq<ResourceState>, s: seq<ResourceState>, e: ResourceState)
    requires IsStatus(informers, events, s)
    ensures |s| == |informers|
    ensures e in s <==> exists k :: 0 <= k < |informers|
                          && e.kind == informers[k].kind && e.name == informers[k].name && e.ns == informers[k].ns
                          && e.state == LastState(events, informers[k])
  {
    var summary := Summary(informers, events);
    assert |multiset(s)| == |multiset(summary)|;
    assert e in s <==> e in multiset(s);
    assert e in summary <==> e in multiset(summary);
    if e in summary {
      var k :| 0 <= k < |summary| && summary[k] == e;
      assert e == StatusOf(events, informers[k]);
    }
    if k :| 0 <= k < |informers| && e.kind == informers[k].kind && e.name == informers[k].name
            && e.ns == informers[k].ns && e.state == LastState(events, informers[k]) {
      assert e == StatusOf(events, informers[k]) == summary[k];
    }
  }

  /** One turn of the event loop. */
  method OnEvent(states: seq<ResourceState>, event: ResourceState, ghost informers: seq<Informer>, ghost events: seq<ResourceState>)
    returns (next: seq<ResourceState>)
    requires IsStatus(informers, events, states)
    ensures IsStatus(informers, events + [event], next)
  {
    var changed;
    next, changed := ResourceStatesApplyNew(states, event);
    EventStep(informers, events, event, states, next);
  }

  lemma StatusesGrow(informers: seq<Informer>, events: seq<ResourceState>, n: nat, sent: seq<seq<ResourceState>>,
                     states: seq<ResourceState>)
    requires n < |events| && AreStatuses(informers, events[..n], sent)
    requires IsStatus(informers, events[..n] + [events[n]], states)
    ensures events[..n + 1] == events[..n] + [events[n]]
    ensures AreStatuses(informers, events[..n + 1], sent + [states])
  {
    assert (sent + [states])[..n + 1] == sent && events[..n + 1][..n] == events[..n];
  }

  /** `runInformers`: the statuses sent, first the reset one and then one for each event. */
  method RunInformers(names: seq<seq<string>>, lower: Lower, informers: seq<Informer>, target: string,
                      events: seq<ResourceState>)
    returns (sent: seq<seq<ResourceState>>)
    ensures AreStatuses(NormalizedAll(names, lower, target, informers), events, sent)
  {
    var next := NormalizeStatusInformers(names, lower, informers, target);
    var states := BuildResourceStatesFromStatusInformers(next);
    sent := [states];
    assert events[..0] == [];
    for n := 0 to |events|
      invariant |sent| == n + 1 && states == sent[n]
      invariant IsStatus(next, events[..n], states)
      invariant AreStatuses(next, events[..n], sent)
    {
      states := OnEvent(states, events[n], next, events[..n]);
      StatusesGrow(next, events, n, sent, states);
      sent := sent + [states];
    }
    assert events[..|events|] == events;
  }

  // Which controller watches which informers

  predicate Watches(i: Informer, ns: string, kind: string) {
    i.ns == ns && i.kind == kind
  }

  /** The informers of one kind in one namespace, in order. */
  function Watched(informers: seq<Informer>, ns: string, kind: string): seq<Informer> {
    if informers == [] then []
    else
      var n := |informers| - 1;
      Watched(informers[..n], ns, kind) + (if Watches(informers[n], ns, kind) then [informers[n]] else [])
  }

  /** `groups` has exactly the pairs of namespace and kind that occur, each with its informers. */
  ghost predicate AreGroups(informers: seq<Informer>, groups: map<string, map<string, seq<Informer>>>) {
    forall ns, kind :: IsGroup(informers, groups, ns, kind)
  }

  predicate IsGroup(informers: seq<Informer>, groups: map<string, map<string, seq<Informer>>>, ns: string, kind: string) {
    var watched := Watched(informers, ns, kind);
    if ns in groups && kind in groups[ns] then watched != [] && groups[ns][kind] == watched else watched == []
  }

  lemma GroupsGrow(informers: seq<Informer>, i: Informer, groups: map<string, map<string, seq<Informer>>>)
    requires AreGroups(informers, groups)
    ensures var kinds := if i.ns in groups then groups[i.ns] else map[];
            var group := if i.kind in kinds then kinds[i.kind] else [];
            AreGroups(informers + [i], groups[i.ns := kinds[i.kind := group + [i]]])
  {
    var kinds := if i.ns in groups then groups[i.ns] else map[];
    var group := if i.kind in kinds then kinds[i.kind] else [];
    var groups' := groups[i.ns := kinds[i.kind := group + [i]]];
    assert (informers + [i])[..|informers|] == informers;
    forall ns, kind ensures IsGroup(informers + [i], groups', ns, kind) {
      assert IsGroup(informers, groups, ns, kind);
      assert Watched(informers + [i], ns, kind) == Watched(informers, ns, kind) + (if Watches(i, ns, kind) then [i] else []);
    }
  }

  /** The grouping of `runInformers`: one controller for each namespace and kind. */
  method GroupInformers(informers: seq<Informer>) returns (groups: map<string, map<string, seq<Informer>>>)
    ensures AreGroups(informers, groups)
  {
    groups := map[];
    for n := 0 to |informers|
      invariant AreGroups(informers[..n], groups)
    {
      var i := informers[n];
      assert informers[..n + 1] == informers[..n] + [i];
      GroupsGrow(informers[..n], i, groups);
      var kinds := if i.ns in groups then groups[i.ns] else map[];
      var group := if i.kind in kinds then kinds[i.kind] else [];
      groups := groups[i.ns := kinds[i.kind := group + [i]]];
    }
    assert informers[..|informers|] == informers;
  }

  /** Every informer is in exactly one group, as often as it is listed. */
  lemma {:induction false} EveryInformerIsWatched(informers: seq<Informer>, x: Informer, ns: string, kind: string)
    ensures multiset(Watched(informers, ns, kind))[x] == if x.ns == ns && x.kind == kind then multiset(informers)[x] else 0
    decreases |informers|
  {
    if informers != [] {
      var n := |informers| - 1;
      assert informers == informers[..n] + [informers[n]];
      EveryInformerIsWatched(informers[..n], x, ns, kind);
    }
  }

  /** `a` is `b` with some informers left out, the others in their order. */
  predicate Selection(a: seq<Informer>, b: seq<Informer>)
    decreases |b|
  {
    a == [] || (b != [] && ((a[|a| - 1] == b[|b| - 1] && Selection(a[..|a| - 1], b[..|b| - 1])) || Selection(a, b[..|b| - 1])))
  }

  /** A group keeps the order of the list. */
  lemma {:induction false} WatchedInOrder(informers: seq<Informer>, ns: string, kind: string)
    ensures Selection(Watched(informers, ns, kind), informers)
    decreases |informers|
  {
    if informers != [] {
      var n := |informers| - 1;
      WatchedInOrder(informers[..n], ns, kind);
      var front := Watched(informers[..n], ns, kind);
      assert (front + [informers[n]])[..|front|] == front;
      assert front + [] == front;
    }
  }

  // The overall state

  function Rank(s: State): nat {
    match s
    case Ready => 0
    case Degraded => 1
    case Unavailable => 2
    case Missing => 3
  }

  /** `r` is the worst of `states`, or ready when there are none. */
  predicate IsWorst(states: seq<ResourceState>, r: State) {
    && (r == Ready || exists i :: 0 <= i < |states| && states[i].state == r)
    && forall i :: 0 <= i < |states| ==> Rank(states[i].state) <= Rank(r)
  }

  function MinState(a: State, b: State): State {
    if a.Missing? || b.Missing? then Missing
    else if a.Unavailable? || b.Unavailable? then Unavailable
    else if a.Degraded? || b.Degraded? then Degraded
    else Ready
  }

  /** `KotsAppStatus.getState`. */
  method GetState(resourceStates: Option<seq<ResourceState>>) returns (r: State)
    ensures resourceStates.None? ==> r == Missing
    ensures resourceStates.Some? ==> IsWorst(resourceStates.value, r)
  {
    if resourceStates.None? {
      return Missing;
    }
    var states := resourceStates.value;
    r := Ready;
    for i := 0 to |states|
      invariant r == Ready || exists j :: 0 <= j < i && states[j].state == r
      invariant forall j :: 0 <= j < i ==> Rank(states[j].state) <= Rank(r)
    {
      r := MinState(r, states[i].state);
    }
  }

  /** The operator's own `MinState` over a list: the same answer, except for no states at all. */
  method MinStateOf(states: seq<ResourceState>) returns (r: State)
    ensures states == [] ==> r == Missing
    ensures states != [] ==> IsWorst(states, r)
  {
    if |states| == 0 {
      return Missing;
    }
    var min: Option<State> := None;
    for i := 0 to |states|
      invariant min.None? <==> i == 0
      invariant min.Some? ==> min.value != Missing && (exists j :: 0 <= j < i && states[j].state == min.value)
                              && forall j :: 0 <= j < i ==> Rank(states[j].state) <= Rank(min.value)
    {
      var s := states[i].state;
      if s == Missing || min == Some(Missing) {
        assert states[i].state == Missing;
        return Missing;
      } else if s == Unavailable || min == Some(Unavailable) {
        min := Some(Unavailable);
      } else if s == Degraded || min == Some(Degraded) {
        min := Some(Degraded);
      } else {
        min := Some(Ready);
      }
    }
    return min.value;
  }

  predicate Has(states: seq<ResourceState>, state: State) {
    exists i :: 0 <= i < |states| && states[i].state == state
  }

  /** The worst state, worst first: missing, unavailable, degraded, ready. */
  lemma WorstIs(states: seq<ResourceState>, r: State)
    requires IsWorst(states, r)
    ensures r == if Has(states, Missing) then Missing
                 else if Has(states, Unavailable) then Unavailable
                 else if Has(states, Degraded) then Degraded
                 else Ready
  {
    assert r != Ready ==> Has(states, r);
    forall state | Has(states, state) ensures Rank(state) <= Rank(r) {
      var i :| 0 <= i < |states| && states[i].state == state;
    }
  }

  /** The overall state does not depend on the order of the list, and is ready exactly when every
      resource is. */
  lemma OverallState(a: seq<ResourceState>, b: seq<ResourceState>, r: State, q: State)
    requires multiset(a) == multiset(b) && IsWorst(a, r) && IsWorst(b, q)
    ensures r == q
    ensures r == Ready <==> forall i :: 0 <= i < |a| ==> a[i].state == Ready
  {
    forall i | 0 <= i < |a| ensures Rank(a[i].state) <= Rank(q) {
      assert a[i] in multiset(b);
    }
    forall i | 0 <= i < |b| ensures Rank(b[i].state) <= Rank(r) {
      assert b[i] in multiset(a);
    }
  }
}
