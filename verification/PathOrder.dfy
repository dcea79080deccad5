/**
 The tree of `arrangeIntoTree` in order: which path a node keeps, and how siblings stand. With the set of
 name sequences this determines the whole tree.
 */
module PathOrder {
  import opened PathTree

  predicate Through(path: string, q: Names) {
    q <= Parts(path)
  }

  /** The number of the first path through the names `q`, or the number of paths. */
  function FirstThrough(paths: seq<string>, q: Names): (f: nat)
    ensures f <= |paths| && (f < |paths| ==> Through(paths[f], q))
    ensures forall i :: 0 <= i < f ==> !Through(paths[i], q)
  {
    if paths == [] || Through(paths[0], q) then 0 else 1 + FirstThrough(paths[1..], q)
  }

  lemma {:induction false} FirstAfterAppend(front: seq<string>, path: string, q: Names)
    ensures FirstThrough(front, q) < |front| ==> FirstThrough(front + [path], q) == FirstThrough(front, q)
    ensures FirstThrough(front, q) == |front| && Through(path, q) ==> FirstThrough(front + [path], q) == |front|
  {
    if front != [] && !Through(front[0], q) {
      assert (front + [path])[1..] == front[1..] + [path];
      FirstAfterAppend(front[1..], path, q);
    }
  }

  function Before(m: Shape, p: Names): seq<Entry> {
    if p in m then m[p] else []
  }

  /** What adding a path does to the entries at `p`: nothing, or one new entry at the end. */
  ghost predicate Extends(m: Shape, m': Shape, p: Names, path: string, end: Names) {
    p in m' && (m'[p] == Before(m, p) || exists name :: AddsName(m, m', p, name, path, end))
  }

  ghost predicate AddsName(m: Shape, m': Shape, p: Names, name: string, path: string, end: Names) {
    p in m' && m'[p] == Before(m, p) + [Entry(name, path)] && p + [name] !in m && p + [name] <= end
  }

  lemma AddPartExtends(m: Shape, at: Names, name: string, path: string, end: Names, p: Names)
    requires WellFormed(m) && at in m && at + [name] <= end && p in AddPart(m, at, name, path)
    ensures Extends(m, AddPart(m, at, name, path), p, path, end)
    ensures p != at ==> AddPart(m, at, name, path)[p] == Before(m, p)
  {
    NameIffKey(m, at, name);
    if p == at && !HasName(m[at], name) {
      assert AddsName(m, AddPart(m, at, name, path), p, name, path, end);
    }
  }

  lemma ExtendsLater(m: Shape, m1: Shape, m': Shape, p: Names, path: string, end: Names)
    requires forall q :: q in m ==> q in m1
    requires Before(m1, p) == Before(m, p) && Extends(m1, m', p, path, end)
    ensures Extends(m, m', p, path, end)
  {
    if m'[p] != Before(m, p) {
      var name :| AddsName(m1, m', p, name, path, end);
      assert AddsName(m, m', p, name, path, end);
    }
  }

  lemma ExtendsSame(m: Shape, m1: Shape, m': Shape, p: Names, path: string, end: Names)
    requires Extends(m, m1, p, path, end) && p in m' && m'[p] == m1[p]
    ensures Extends(m, m', p, path, end)
  {
    if m'[p] != Before(m, p) {
      var name :| AddsName(m, m1, p, name, path, end);
      assert AddsName(m, m', p, name, path, end);
    }
  }

  lemma {:induction false} AddPartsExtends(m: Shape, at: Names, parts: Names, path: string, end: Names, p: Names)
    requires WellFormed(m) && at in m && at + parts == end && p in AddParts(m, at, parts, path)
    ensures Extends(m, AddParts(m, at, parts, path), p, path, end)
    ensures !(at <= p) ==> AddParts(m, at, parts, path)[p] == Before(m, p)
    decreases |parts|
  {
    if parts != [] {
      var m1, child, rest := StepDown(m, at, parts, path, end);
      AddPartsExtends(m1, child, rest, path, end, p);
      var m' := AddParts(m, at, parts, path);
      if p in m1 {
        AddPartExtends(m, at, parts[0], path, end, p);
      }
      if p == at {
        assert !(child <= at);
        ExtendsSame(m, m1, m', p, path, end);
      } else {
        ExtendsLater(m, m1, m', p, path, end);
      }
    }
  }

  /** Entry number `k` under `at` keeps the first path through its name. */
  ghost predicate KeepsFirst(m: Shape, paths: seq<string>, at: Names, k: nat) {
    at in m && k < |m[at]| &&
    var f := FirstThrough(paths, at + [m[at][k].name]);
    f < |paths| && m[at][k].path == paths[f]
  }

  lemma OldEntry(front: seq<string>, path: string, at: Names, k: nat)
    requires KeepsFirst(Arranged(front), front, at, k)
    requires at in Arranged(front + [path]) && k < |Arranged(front + [path])[at]|
    requires Arranged(front + [path])[at][k] == Arranged(front)[at][k]
    ensures KeepsFirst(Arranged(front + [path]), front + [path], at, k)
    ensures FirstThrough(front + [path], at + [Arranged(front)[at][k].name]) < |front|
  {
    FirstAfterAppend(front, path, at + [Arranged(front)[at][k].name]);
  }

  lemma NewEntry(front: seq<string>, path: string, at: Names, name: string)
    requires AddsName(Arranged(front), Arranged(front + [path]), at, name, path, Parts(path))
    ensures KeepsFirst(Arranged(front + [path]), front + [path], at, |Arranged(front + [path])[at]| - 1)
    ensures FirstThrough(front + [path], at + [name]) == |front|
  {
    var q := at + [name];
    ArrangedKeys(front);
    NotThrough(front, q);
    FirstAfterAppend(front, path, q);
  }

  lemma {:induction false} NotThrough(front: seq<string>, q: Names)
    requires forall path :: path in front ==> !Through(path, q)
    ensures FirstThrough(front, q) == |front|
  {
    if front != [] {
      assert front[0] in front;
      NotThrough(front[1..], q);
    }
  }

  lemma ArrangedExtends(front: seq<string>, path: string, at: Names)
    requires at in Arranged(front + [path])
    ensures Extends(Arranged(front), Arranged(front + [path]), at, path, Parts(path))
  {
    assert (front + [path])[..|front|] == front;
    assert [] + Parts(path) == Parts(path);
    AddPartsExtends(Arranged(front), [], Parts(path), path, Parts(path), at);
  }

  /** Every node keeps the first path that leads through it. */
  lemma {:induction false} FirstPathIsKept(paths: seq<string>, at: Names, k: nat)
    requires at in Arranged(paths) && k < |Arranged(paths)[at]|
    ensures KeepsFirst(Arranged(paths), paths, at, k)
    ensures k == |Arranged(paths)[at]| - 1 || FirstThrough(paths, at + [Arranged(paths)[at][k].name]) < |paths| - 1
    decreases |paths|
  {
    if paths != [] {
      var front, path := paths[..|paths| - 1], paths[|paths| - 1];
      assert paths == front + [path];
      ArrangedExtends(front, path, at);
      if k < |Before(Arranged(front), at)| {
        FirstPathIsKept(front, at, k);
        OldEntry(front, path, at, k);
      } else {
        var name :| AddsName(Arranged(front), Arranged(paths), at, name, path, Parts(path));
        NewEntry(front, path, at, name);
      }
    }
  }

  lemma OldPair(front: seq<string>, path: string, q: Names, r: Names)
    requires FirstThrough(front, q) < FirstThrough(front, r) < |front|
    ensures FirstThrough(front + [path], q) < FirstThrough(front + [path], r)
  {
    FirstAfterAppend(front, path, q);
    FirstAfterAppend(front, path, r);
  }

  /** Siblings stand in the order in which the first paths through them do. */
  lemma {:induction false} SiblingsInOrder(paths: seq<string>, at: Names, k: nat, l: nat)
    requires at in Arranged(paths) && k < l < |Arranged(paths)[at]|
    ensures FirstThrough(paths, at + [Arranged(paths)[at][k].name]) < FirstThrough(paths, at + [Arranged(paths)[at][l].name])
    decreases |paths|
  {
    if paths != [] {
      var front, path := paths[..|paths| - 1], paths[|paths| - 1];
      assert paths == front + [path];
      ArrangedExtends(front, path, at);
      FirstPathIsKept(front, at, k);
      OldEntry(front, path, at, k);
      if l < |Before(Arranged(front), at)| {
        SiblingsInOrder(front, at, k, l);
        FirstPathIsKept(front, at, l);
        OldPair(front, path, at + [Arranged(front)[at][k].name], at + [Arranged(front)[at][l].name]);
      } else {
        var name :| AddsName(Arranged(front), Arranged(paths), at, name, path, Parts(path));
        NewEntry(front, path, at, name);
      }
    }
  }
}
