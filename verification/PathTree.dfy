/**
 `arrangeIntoTree`: a tree of nested arrays built in place from a list of file paths.

 The algorithm walks a pointer down the tree, from the root array through the children of one node
 after the other, and pushes a node where a name is missing. The shape of the tree is a flat map from
 the names leading to an array to the entries in it, so that each push changes one entry.
 */
module PathTree {

  type Names = seq<string>

  datatype Entry = Entry(name: string, path: string)

  type Shape = map<Names, seq<Entry>>

  // Paths

  /** `path.split("/")`. */
  function SplitSlash(s: string): (parts: seq<string>)
    ensures |parts| >= 1
  {
    if s == "" then [""]
    else
      var rest := SplitSlash(s[1..]);
      if s[0] == '/' then [""] + rest else [[s[0]] + rest[0]] + rest[1..]
  }

  /** The parts of a path without a first blank one. */
  function Parts(path: string): Names {
    var parts := SplitSlash(path);
    if parts[0] == "" then parts[1..] else parts
  }

  // The shape

  predicate HasName(entries: seq<Entry>, name: string) {
    exists i :: 0 <= i < |entries| && entries[i].name == name
  }

  function AddPart(m: Shape, at: Names, name: string, path: string): Shape
    requires at in m
  {
    if HasName(m[at], name) then m
    else m[at := m[at] + [Entry(name, path)]][at + [name] := []]
  }

  /** The names of `parts` entered one below the other, starting under `at`. */
  function AddParts(m: Shape, at: Names, parts: Names, path: string): Shape
    requires at in m
    decreases |parts|
  {
    if parts == [] then m
    else
      var m' := AddPart(m, at, parts[0], path);
      if at + [parts[0]] in m' then AddParts(m', at + [parts[0]], parts[1..], path) else m'
  }

  function Arranged(paths: seq<string>): (m: Shape)
    ensures [] in m && WellFormed(m)
    decreases |paths|
  {
    if paths == [] then map[[] := []]
    else
      var m := Arranged(paths[..|paths| - 1]);
      var path := paths[|paths| - 1];
      AddPartsKeepsWellFormed(m, [], Parts(path), path);
      AddParts(m, [], Parts(path), path)
  }

  /** Siblings have distinct names, and the keys are exactly the name sequences of the tree. */
  ghost predicate WellFormed(m: Shape) {
    && [] in m
    && (forall p :: p in m ==> Siblings(m[p]))
    && (forall p, i :: p in m && 0 <= i < |m[p]| ==> p + [m[p][i].name] in m)
    && (forall q :: q in m && q != [] ==> Parent(q) in m && HasName(m[Parent(q)], Last(q)))
  }

  function Parent(names: Names): Names
    requires names != []
  {
    names[..|names| - 1]
  }

  function Last(names: Names): string
    requires names != []
  {
    names[|names| - 1]
  }

  predicate Siblings(entries: seq<Entry>) {
    forall i, j :: 0 <= i < j < |entries| ==> entries[i].name != entries[j].name
  }

  lemma ChildOf(at: Names, name: string)
    ensures Parent(at + [name]) == at && Last(at + [name]) == name
  {
  }

  /** A missing name is a missing key, and a present one leads to a key. */
  lemma NameIffKey(m: Shape, at: Names, name: string)
    requires WellFormed(m) && at in m
    ensures at + [name] in m <==> HasName(m[at], name)
  {
    ChildOf(at, name);
    assert at + [name] in m ==> HasName(m[Parent(at + [name])], Last(at + [name]));
  }

  lemma HasNameAppend(entries: seq<Entry>, e: Entry, name: string)
    ensures HasName(entries + [e], name) <==> HasName(entries, name) || e.name == name
  {
    if HasName(entries, name) {
      var i :| 0 <= i < |entries| && entries[i].name == name;
      assert (entries + [e])[i].name == name;
    }
    if e.name == name {
      assert (entries + [e])[|entries|].name == name;
    }
  }

  lemma PushKeepsWellFormed(m: Shape, at: Names, e: Entry)
    requires WellFormed(m) && at in m && !HasName(m[at], e.name)
    ensures WellFormed(m[at := m[at] + [e]][at + [e.name] := []])
  {
    var child := at + [e.name];
    var m': Shape := m[at := m[at] + [e]][child := []];
    ChildOf(at, e.name);
    NameIffKey(m, at, e.name);
    assert Siblings(m[at] + [e]);
    forall p, i | p in m' && 0 <= i < |m'[p]| ensures p + [m'[p][i].name] in m' {
      if p == at && i == |m[at]| {
        assert m'[p][i] == e;
      } else {
        assert p in m && m'[p][i] == m[p][i];
      }
    }
    forall q | q in m' && q != [] ensures Parent(q) in m' && HasName(m'[Parent(q)], Last(q)) {
      PushKeepsParent(m, at, e, q);
    }
  }

  lemma PushKeepsParent(m: Shape, at: Names, e: Entry, q: Names)
    requires WellFormed(m) && at in m && at + [e.name] !in m && q != []
    requires q == at + [e.name] || q in m
    ensures var m' := m[at := m[at] + [e]][at + [e.name] := []];
            Parent(q) in m' && HasName(m'[Parent(q)], Last(q))
  {
    ChildOf(at, e.name);
    HasNameAppend(m[at], e, Last(q));
    if q != at + [e.name] {
      assert Parent(q) in m && HasName(m[Parent(q)], Last(q));
    }
  }

  lemma AddPartKeepsWellFormed(m: Shape, at: Names, name: string, path: string)
    requires WellFormed(m) && at in m
    ensures WellFormed(AddPart(m, at, name, path))
    ensures at + [name] in AddPart(m, at, name, path)
    ensures at + [name] in m <==> HasName(m[at], name)
  {
    NameIffKey(m, at, name);
    if !HasName(m[at], name) {
      PushKeepsWellFormed(m, at, Entry(name, path));
    }
  }

  lemma {:induction false} AddPartsKeepsWellFormed(m: Shape, at: Names, parts: Names, path: string)
    requires WellFormed(m) && at in m
    ensures WellFormed(AddParts(m, at, parts, path))
    decreases |parts|
  {
    if parts != [] {
      AddPartKeepsWellFormed(m, at, parts[0], path);
      AddPartsKeepsWellFormed(AddPart(m, at, parts[0], path), at + [parts[0]], parts[1..], path);
    }
  }

  // What the shape holds

  /** Every entry's stored path is one of `paths` and passes through the entry. */
  ghost predicate PathsLeadThere(m: Shape, paths: seq<string>) {
    forall p, i :: p in m && 0 <= i < |m[p]| ==> m[p][i].path in paths && p + [m[p][i].name] <= Parts(m[p][i].path)
  }

  /** `q` lies between `at` and the end of `parts` below it. */
  predicate Between(at: Names, q: Names, end: Names) {
    at <= q <= end
  }

  lemma BetweenStep(at: Names, name: string, q: Names, end: Names)
    requires at + [name] <= end
    ensures Between(at, q, end) <==> q == at || Between(at + [name], q, end)
  {
    if Between(at, q, end) && q != at {
      assert q[|at|] == end[|at|] == name;
      assert q[..|at| + 1] == at + [name];
    }
  }

  lemma AddPartPaths(m: Shape, at: Names, name: string, path: string, paths: seq<string>)
    requires at in m && path in paths && PathsLeadThere(m, paths) && at + [name] <= Parts(path)
    ensures PathsLeadThere(AddPart(m, at, name, path), paths)
  {
    var m': Shape := AddPart(m, at, name, path);
    forall p, i | p in m' && 0 <= i < |m'[p]|
      ensures m'[p][i].path in paths && p + [m'[p][i].name] <= Parts(m'[p][i].path)
    {
      if p == at && i == |m[at]| {
        assert m'[p][i] == Entry(name, path);
      } else {
        assert p in m && m'[p][i] == m[p][i];
      }
    }
  }

  lemma FirstPart(at: Names, parts: Names, end: Names)
    requires at + parts == end && parts != []
    ensures at + [parts[0]] + parts[1..] == end && at + [parts[0]] <= end
  {
    assert [parts[0]] + parts[1..] == parts;
  }

  /** The first of several parts, and what is left below it. */
  lemma StepDown(m: Shape, at: Names, parts: Names, path: string, end: Names) returns (m1: Shape, child: Names, rest: Names)
    requires WellFormed(m) && at in m && at + parts == end && parts != []
    ensures m1 == AddPart(m, at, parts[0], path) && child == at + [parts[0]] && rest == parts[1..]
    ensures WellFormed(m1) && child in m1 && child + rest == end && child <= end
    ensures AddParts(m, at, parts, path) == AddParts(m1, child, rest, path)
  {
    m1, child, rest := AddPart(m, at, parts[0], path), at + [parts[0]], parts[1..];
    FirstPart(at, parts, end);
    AddPartKeepsWellFormed(m, at, parts[0], path);
  }

  lemma {:induction false} AddPartsPaths(m: Shape, at: Names, parts: Names, path: string, paths: seq<string>)
    requires WellFormed(m) && at in m && at + parts == Parts(path) && path in paths && PathsLeadThere(m, paths)
    ensures PathsLeadThere(AddParts(m, at, parts, path), paths)
    decreases |parts|
  {
    if parts != [] {
      var m1, child, rest := StepDown(m, at, parts, path, Parts(path));
      AddPartPaths(m, at, parts[0], path, paths);
      AddPartsPaths(m1, child, rest, path, paths);
    }
  }

  lemma {:induction false} AddPartsKeys(m: Shape, at: Names, parts: Names, path: string, end: Names)
    requires WellFormed(m) && at in m && at + parts == end
    ensures forall q :: q in AddParts(m, at, parts, path) <==> q in m || Between(at, q, end)
    decreases |parts|
  {
    if parts == [] {
      forall q | Between(at, q, end) ensures q == at {}
    } else {
      var m1, child, rest := StepDown(m, at, parts, path, end);
      AddPartsKeys(m1, child, rest, path, end);
      AddedKeys(m, at, parts[0], path, end);
    }
  }

  lemma AddedKeys(m: Shape, at: Names, name: string, path: string, end: Names)
    requires WellFormed(m) && at in m && at + [name] <= end
    ensures forall q :: (q in AddPart(m, at, name, path) || Between(at + [name], q, end)) <==>
                        (q in m || Between(at, q, end))
  {
    NameIffKey(m, at, name);
    forall q: Names ensures Between(at, q, end) <==> q == at || Between(at + [name], q, end) {
      BetweenStep(at, name, q, end);
    }
    assert Between(at + [name], at + [name], end);
  }

  lemma {:induction false} ArrangedKeys(paths: seq<string>)
    ensures PathsLeadThere(Arranged(paths), paths)
    ensures forall q :: q in Arranged(paths) <==> q == [] || exists path :: path in paths && q <= Parts(path)
    decreases |paths|
  {
    if paths != [] {
      var front, path := paths[..|paths| - 1], paths[|paths| - 1];
      ArrangedKeys(front);
      assert forall x :: x in paths <==> x in front || x == path;
      assert PathsLeadThere(Arranged(front), paths);
      assert [] + Parts(path) == Parts(path);
      AddPartsPaths(Arranged(front), [], Parts(path), path, paths);
      AddPartsKeys(Arranged(front), [], Parts(path), path, Parts(path));
      forall q ensures q in Arranged(paths) <==> q == [] || exists x :: x in paths && q <= Parts(x) {
        assert Between([], q, Parts(path)) <==> q <= Parts(path);
      }
    }
  }

  /** The set of name sequences does not depend on the order of the paths. */
  lemma OrderDoesNotMatter(a: seq<string>, b: seq<string>)
    requires forall path :: path in a <==> path in b
    ensures Arranged(a).Keys == Arranged(b).Keys
  {
    ArrangedKeys(a);
    ArrangedKeys(b);
  }

  lemma KeyHasEntry(m: Shape, names: Names)
    requires WellFormed(m) && names in m && names != []
    ensures Parent(names) in m && m[Parent(names)] != []
  {
    assert HasName(m[Parent(names)], Last(names));
  }

  /** The stored path of a leaf splits into exactly the names leading to it. */
  lemma LeafPathIsExact(paths: seq<string>, at: Names, e: Entry)
    requires at in Arranged(paths) && e in Arranged(paths)[at]
    ensures at + [e.name] in Arranged(paths) && e.path in paths
    ensures Arranged(paths)[at + [e.name]] == [] ==> Parts(e.path) == at + [e.name]
  {
    var m := Arranged(paths);
    var i :| 0 <= i < |m[at]| && m[at][i] == e;
    var names := at + [e.name];
    ArrangedKeys(paths);
    assert names <= Parts(e.path);
    if |names| < |Parts(e.path)| {
      var longer := Parts(e.path)[..|names| + 1];
      assert longer <= Parts(e.path) && Parent(longer) == names;
      KeyHasEntry(m, longer);
    }
  }

  // The tree in the heap

  /** The array of children of a node, and the root array. */
  class Level {
    var nodes: seq<TreeNode>

    constructor ()
      ensures nodes == []
    {
      nodes := [];
    }
  }

  datatype TreeNode = TreeNode(name: string, path: string, children: Level)

  /** `level` holds the entries `m[at]`, each with the array found under its name. */
  ghost predicate LevelIs(level: Level, at: Names, entries: seq<Entry>, found: map<Names, Level>)
    reads level
  {
    && |level.nodes| == |entries|
    && forall i :: 0 <= i < |entries| ==>
         && level.nodes[i].name == entries[i].name && level.nodes[i].path == entries[i].path
         && at + [entries[i].name] in found && level.nodes[i].children == found[at + [entries[i].name]]
  }

  /** The tree under `root` has shape `m`; `found` gives the array at each name sequence, a different one
      for each. */
  ghost predicate Represents(root: Level, found: map<Names, Level>, m: Shape)
    reads found.Values
  {
    && found.Keys == m.Keys && [] in found && found[[]] == root
    && (forall p, q :: p in found && q in found && p != q ==> found[p] != found[q])
    && (forall p :: p in found ==> LevelIs(found[p], p, m[p], found))
  }

  /** `_.find(currentLevel, ["name", part])`. */
  method Find(level: Level, name: string) returns (index: int)
    ensures index == -1 ==> forall i :: 0 <= i < |level.nodes| ==> level.nodes[i].name != name
    ensures index != -1 ==> 0 <= index < |level.nodes| && level.nodes[index].name == name
  {
    for i := 0 to |level.nodes|
      invariant forall j :: 0 <= j < i ==> level.nodes[j].name != name
    {
      if level.nodes[i].name == name {
        return i;
      }
    }
    return -1;
  }

  /** One part of a path: step into the node of that name, pushing it first if it is missing. */
  method Descend(level: Level, name: string, path: string,
                 ghost root: Level, ghost at: Names, ghost found: map<Names, Level>, ghost m: Shape)
    returns (child: Level, ghost found': map<Names, Level>)
    requires Represents(root, found, m) && WellFormed(m) && at in found && found[at] == level
    modifies level
    ensures Represents(root, found', AddPart(m, at, name, path))
    ensures at + [name] in found' && child == found'[at + [name]]
    ensures forall l :: l in found'.Values ==> l in found.Values || fresh(l)
  {
    NameIffKey(m, at, name);
    assert LevelIs(level, at, m[at], found);
    var index := Find(level, name);
    if index != -1 {
      assert m[at][index].name == name;
      return level.nodes[index].children, found;
    }
    assert forall i :: 0 <= i < |m[at]| ==> level.nodes[i].name == m[at][i].name;
    child, found' := PushNode(level, name, path, root, at, found, m);
  }

  method PushNode(level: Level, name: string, path: string,
                  ghost root: Level, ghost at: Names, ghost found: map<Names, Level>, ghost m: Shape)
    returns (child: Level, ghost found': map<Names, Level>)
    requires Represents(root, found, m) && at in found && found[at] == level && at + [name] !in found
    modifies level
    ensures Represents(root, found', m[at := m[at] + [Entry(name, path)]][at + [name] := []])
    ensures fresh(child) && found' == found[at + [name] := child]
  {
    child := new Level();
    level.nodes := level.nodes + [TreeNode(name, path, child)];
    found' := found[at + [name] := child];
    forall p | p in found ensures found[p] != child {
      assert found[p] in found.Values;
    }
    ghost var m' := m[at := m[at] + [Entry(name, path)]][at + [name] := []];
    forall p | p in found' ensures LevelIs(found'[p], p, m'[p], found') {
      if p != at + [name] {
        assert old(LevelIs(found[p], p, m[p], found));
        assert p != at ==> found[p] != level;
      }
    }
  }

  method PathParts(path: string) returns (parts: Names)
    ensures parts == Parts(path)
  {
    parts := SplitSlash(path);
    if parts[0] == "" {
      parts := parts[1..];
    }
  }

  lemma ArrangedStep(paths: seq<string>, n: nat)
    requires n < |paths|
    ensures Arranged(paths[..n + 1]) == AddParts(Arranged(paths[..n]), [], Parts(paths[n]), paths[n])
  {
    assert paths[..n + 1][..n] == paths[..n];
  }

  /** `arrangeIntoTree`. */
  method ArrangeIntoTree(paths: seq<string>) returns (tree: Level)
    ensures exists found :: Represents(tree, found, Arranged(paths))
  {
    tree := new Level();
    ghost var found: map<Names, Level> := map[[] := tree];
    for n := 0 to |paths|
      invariant Represents(tree, found, Arranged(paths[..n])) && fresh(found.Values)
    {
      var pathParts := PathParts(paths[n]);
      found := AddPath(tree, pathParts, paths[n], found, Arranged(paths[..n]));
      ArrangedStep(paths, n);
    }
    assert paths[..|paths|] == paths;
  }

  method AddPath(tree: Level, parts: Names, path: string, ghost found: map<Names, Level>, ghost m: Shape)
    returns (ghost found': map<Names, Level>)
    requires Represents(tree, found, m) && WellFormed(m)
    modifies found.Values
    ensures Represents(tree, found', AddParts(m, [], parts, path))
    ensures forall l :: l in found'.Values ==> l in found.Values || fresh(l)
  {
    var currentLevel := tree;
    found' := found;
    ghost var shape, at := m, [];
    for k := 0 to |parts|
      invariant WellFormed(shape) && at in shape && Represents(tree, found', shape) && found'[at] == currentLevel
      invariant AddParts(shape, at, parts[k..], path) == AddParts(m, [], parts, path)
      invariant forall l :: l in found'.Values ==> l in found.Values || fresh(l)
    {
      AddPartKeepsWellFormed(shape, at, parts[k], path);
      assert parts[k..][1..] == parts[k + 1..] && parts[k..][0] == parts[k];
      currentLevel, found' := Descend(currentLevel, parts[k], path, tree, at, found', shape);
      shape := AddPart(shape, at, parts[k], path);
      at := at + [parts[k]];
    }
  }
}
