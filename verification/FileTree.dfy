/**
 The file tree of a support bundle.

 A directory's node holds its files and a node for every listed directory whose name it is a string prefix
 of, not only for its own subdirectories. A directory is therefore shown once for every chain of listed
 prefixes that leads to it: 2 to the power of the number of directories in between.
 */
module FileTree {
  datatype Node = Node(name: string, path: string, children: seq<Node>)

  /** The paths below the root of the extracted archive. */
  datatype Listing = Listing(directories: seq<string>, files: seq<string>)

  predicate Distinct(paths: seq<string>) {
    forall i, j :: 0 <= i < j < |paths| ==> paths[i] != paths[j]
  }

  /** What walking a directory gives: every path once. */
  predicate Walked(l: Listing) {
    && Distinct(l.directories) && Distinct(l.files)
    && forall f :: f in l.files ==> f !in l.directories
  }

  /** The length of the directory part, without its separator; 0 without a separator. */
  function DirLength(path: string): (n: nat)
    ensures n <= |path|
    ensures '/' in path ==> n < |path| && path[n] == '/' && '/' !in path[n + 1..]
    ensures '/' !in path ==> n == 0
  {
    if path == "" then 0
    else if path[|path| - 1] == '/' then |path| - 1
    else
      assert path == path[..|path| - 1] + [path[|path| - 1]];
      var n := DirLength(path[..|path| - 1]);
      assert '/' in path[..|path| - 1] ==> path[n + 1..] == path[n + 1..|path| - 1] + [path[|path| - 1]];
      n
  }

  function Dir(path: string): string {
    path[..DirLength(path)]
  }

  function Base(path: string): string {
    if Top(path) then path else path[DirLength(path) + 1..]
  }

  predicate Top(path: string) {
    '/' !in path
  }

  function FileNode(file: string): Node {
    Node(Base(file), file, [])
  }

  /** `strings.HasPrefix(d, directory) && d != directory`. */
  predicate Under(d: string, directory: string) {
    |directory| < |d| && d[..|directory|] == directory
  }

  function MaxLength(paths: seq<string>): (m: nat)
    ensures forall p :: p in paths ==> |p| <= m
  {
    if paths == [] then 0
    else
      var m := MaxLength(paths[1..]);
      if |paths[0]| > m then |paths[0]| else m
  }

  function FileNodes(files: seq<string>, directory: string): seq<Node> {
    if files == [] then []
    else (if Dir(files[0]) == directory then [FileNode(files[0])] else []) + FileNodes(files[1..], directory)
  }

  function DirectoryNode(directory: string, l: Listing): Node
    decreases MaxLength(l.directories) - |directory|, |l.directories| + 1
  {
    Node(directory, directory, FileNodes(l.files, directory) + DirectoryNodes(l.directories, directory, l))
  }

  function DirectoryNodes(rest: seq<string>, directory: string, l: Listing): seq<Node>
    requires forall d :: d in rest ==> d in l.directories
    decreases MaxLength(l.directories) - |directory|, |rest|
  {
    if rest == [] then []
    else (if Under(rest[0], directory) then [DirectoryNode(rest[0], l)] else []) + DirectoryNodes(rest[1..], directory, l)
  }

  lemma FileNodesAt(files: seq<string>, i: nat, directory: string)
    requires i < |files|
    ensures FileNodes(files[i..], directory)
         == (if Dir(files[i]) == directory then [FileNode(files[i])] else []) + FileNodes(files[i + 1..], directory)
  {
    assert files[i..][1..] == files[i + 1..];
  }

  lemma DirectoryNodesAt(i: nat, directory: string, l: Listing)
    requires i < |l.directories|
    ensures DirectoryNodes(l.directories[i..], directory, l)
         == (if Under(l.directories[i], directory) then [DirectoryNode(l.directories[i], l)] else [])
            + DirectoryNodes(l.directories[i + 1..], directory, l)
  {
    assert l.directories[i..][1..] == l.directories[i + 1..];
  }

  method AppendFiles(directory: string, files: seq<string>) returns (children: seq<Node>)
    ensures children == FileNodes(files, directory)
  {
    children := [];
    var i := 0;
    while i < |files|
      invariant 0 <= i <= |files|
      invariant children + FileNodes(files[i..], directory) == FileNodes(files, directory)
    {
      FileNodesAt(files, i, directory);
      if Dir(files[i]) == directory {
        children := children + [FileNode(files[i])];
      }
      i := i + 1;
    }
  }

  method GetDirectoryNode(directory: string, l: Listing) returns (node: Node)
    ensures node == DirectoryNode(directory, l)
    decreases MaxLength(l.directories) - |directory|
  {
    var children := AppendFiles(directory, l.files);
    assert l.directories[0..] == l.directories;
    var i := 0;
    while i < |l.directories|
      invariant 0 <= i <= |l.directories|
      invariant children + DirectoryNodes(l.directories[i..], directory, l) == DirectoryNode(directory, l).children
    {
      DirectoryNodesAt(i, directory, l);
      var d := l.directories[i];
      if Under(d, directory) {
        var child := GetDirectoryNode(d, l);
        children := children + [child];
      }
      i := i + 1;
    }
    node := Node(directory, directory, children);
  }

  function TopDirectories(rest: seq<string>, l: Listing): seq<Node> {
    if rest == [] then []
    else (if Top(rest[0]) then [DirectoryNode(rest[0], l)] else []) + TopDirectories(rest[1..], l)
  }

  function TopFiles(files: seq<string>): seq<Node> {
    if files == [] then []
    else (if Top(files[0]) then [FileNode(files[0])] else []) + TopFiles(files[1..])
  }

  function Tree(l: Listing): seq<Node> {
    TopDirectories(l.directories, l) + TopFiles(l.files)
  }

  lemma TopDirectoriesAt(i: nat, l: Listing)
    requires i < |l.directories|
    ensures TopDirectories(l.directories[i..], l)
         == (if Top(l.directories[i]) then [DirectoryNode(l.directories[i], l)] else [])
            + TopDirectories(l.directories[i + 1..], l)
  {
    assert l.directories[i..][1..] == l.directories[i + 1..];
  }

  lemma TopFilesAt(i: nat, files: seq<string>)
    requires i < |files|
    ensures TopFiles(files[i..])
         == (if Top(files[i]) then [FileNode(files[i])] else []) + TopFiles(files[i + 1..])
  {
    assert files[i..][1..] == files[i + 1..];
  }

  method AppendTopDirectories(l: Listing) returns (nodes: seq<Node>)
    ensures nodes == TopDirectories(l.directories, l)
  {
    nodes := [];
    var i := 0;
    while i < |l.directories|
      invariant 0 <= i <= |l.directories|
      invariant nodes + TopDirectories(l.directories[i..], l) == TopDirectories(l.directories, l)
    {
      TopDirectoriesAt(i, l);
      if Top(l.directories[i]) {
        var node := GetDirectoryNode(l.directories[i], l);
        nodes := nodes + [node];
      }
      i := i + 1;
    }
  }

  method AppendTopFiles(files: seq<string>) returns (nodes: seq<Node>)
    ensures nodes == TopFiles(files)
  {
    nodes := [];
    var i := 0;
    while i < |files|
      invariant 0 <= i <= |files|
      invariant nodes + TopFiles(files[i..]) == TopFiles(files)
    {
      TopFilesAt(i, files);
      if Top(files[i]) {
        nodes := nodes + [FileNode(files[i])];
      }
      i := i + 1;
    }
  }

  method ArchiveToFileTree(l: Listing) returns (nodes: seq<Node>)
    ensures nodes == Tree(l)
  {
    var directories := AppendTopDirectories(l);
    var files := AppendTopFiles(l.files);
    return directories + files;
  }

  // How often a node is shown

  /** The number of nodes of the tree below `node`, itself included, that equal `x` with all its children. */
  function Shown(node: Node, x: Node): nat
    decreases node
  {
    (if node == x then 1 else 0) + ShownIn(node.children, x)
  }

  function ShownIn(nodes: seq<Node>, x: Node): nat
    decreases nodes
  {
    if nodes == [] then 0 else Shown(nodes[0], x) + ShownIn(nodes[1..], x)
  }

  lemma {:induction false} ShownInBoth(a: seq<Node>, b: seq<Node>, x: Node)
    ensures ShownIn(a + b, x) == ShownIn(a, x) + ShownIn(b, x)
  {
    if a == [] {
      assert a + b == b;
    } else {
      assert (a + b)[0] == a[0] && (a + b)[1..] == a[1..] + b;
      ShownInBoth(a[1..], b, x);
    }
  }

  lemma ShownInOne(node: Node, x: Node)
    ensures ShownIn([node], x) == Shown(node, x)
  {
    assert ShownIn([node][1..], x) == 0;
  }

  lemma {:induction false} NoDirectoryAmongFiles(files: seq<string>, directory: string, x: Node)
    requires x.path !in files
    ensures ShownIn(FileNodes(files, directory), x) == 0
  {
    if files != [] {
      NoDirectoryAmongFiles(files[1..], directory, x);
      if Dir(files[0]) == directory {
        ShownInOne(FileNode(files[0]), x);
        ShownInBoth([FileNode(files[0])], FileNodes(files[1..], directory), x);
      } else {
        assert FileNodes(files, directory) == FileNodes(files[1..], directory);
      }
    }
  }

  lemma StepDirectories(rest: seq<string>, directory: string, l: Listing, x: Node)
    requires rest != [] && forall d :: d in rest ==> d in l.directories
    ensures ShownIn(DirectoryNodes(rest, directory, l), x)
         == (if Under(rest[0], directory) then Shown(DirectoryNode(rest[0], l), x) else 0)
            + ShownIn(DirectoryNodes(rest[1..], directory, l), x)
  {
    if Under(rest[0], directory) {
      ShownInOne(DirectoryNode(rest[0], l), x);
      ShownInBoth([DirectoryNode(rest[0], l)], DirectoryNodes(rest[1..], directory, l), x);
    } else {
      assert DirectoryNodes(rest, directory, l) == DirectoryNodes(rest[1..], directory, l);
    }
  }

  /** What is shown below a directory that is not the directory itself. */
  lemma OpenDirectory(a: string, l: Listing, x: Node)
    ensures Shown(DirectoryNode(a, l), x)
         == (if DirectoryNode(a, l) == x then 1 else 0)
            + ShownIn(FileNodes(l.files, a), x) + ShownIn(DirectoryNodes(l.directories, a, l), x)
  {
    ShownInBoth(FileNodes(l.files, a), DirectoryNodes(l.directories, a, l), x);
  }

  lemma {:induction false} NotBeneath(a: string, d: string, l: Listing)
    requires Walked(l) && d in l.directories && a != d && !Under(d, a)
    ensures Shown(DirectoryNode(a, l), DirectoryNode(d, l)) == 0
    decreases MaxLength(l.directories) - |a|, |l.directories| + 1
  {
    OpenDirectory(a, l, DirectoryNode(d, l));
    NoDirectoryAmongFiles(l.files, a, DirectoryNode(d, l));
    NotAmong(l.directories, a, d, l);
  }

  lemma {:induction false} NotAmong(rest: seq<string>, a: string, d: string, l: Listing)
    requires Walked(l) && d in l.directories && !Under(d, a)
    requires forall e :: e in rest ==> e in l.directories
    ensures ShownIn(DirectoryNodes(rest, a, l), DirectoryNode(d, l)) == 0
    decreases MaxLength(l.directories) - |a|, |rest|
  {
    if rest != [] {
      var e := rest[0];
      StepDirectories(rest, a, l, DirectoryNode(d, l));
      NotAmong(rest[1..], a, d, l);
      if Under(e, a) {
        UnderTrans(d, e, a);
        NotBeneath(e, d, l);
      }
    }
  }

  lemma UnderTrans(d: string, e: string, a: string)
    requires Under(e, a)
    ensures Under(d, e) ==> Under(d, a)
  {
    if Under(d, e) {
      assert d[..|a|] == d[..|e|][..|a|];
    }
  }

  /** Two prefixes of one name: the shorter is a prefix of the longer. */
  lemma Nested(d: string, a: string, b: string)
    requires (Under(d, a) || d == a) && (Under(d, b) || d == b)
    ensures |a| < |b| ==> Under(b, a)
    ensures |a| == |b| ==> a == b
  {
    assert d[..|a|] == a && d[..|b|] == b;
    if |a| < |b| {
      assert d[..|b|][..|a|] == d[..|a|];
    }
  }

  // Directories in between

  predicate IsBetween(e: string, a: string, d: string) {
    Under(e, a) && Under(d, e)
  }

  /** How many listed directories lie strictly between `a` and `d`. */
  function Between(rest: seq<string>, a: string, d: string): nat {
    if rest == [] then 0 else (if IsBetween(rest[0], a, d) then 1 else 0) + Between(rest[1..], a, d)
  }

  /** The shortest listed directory in between. */
  predicate IsNext(b: string, a: string, d: string, l: Listing) {
    && b in l.directories && IsBetween(b, a, d)
    && forall e :: e in l.directories && IsBetween(e, a, d) ==> |b| <= |e|
  }

  lemma {:induction false} FindNext(rest: seq<string>, a: string, d: string) returns (b: string)
    requires Between(rest, a, d) > 0
    ensures b in rest && IsBetween(b, a, d) && forall e :: e in rest && IsBetween(e, a, d) ==> |b| <= |e|
  {
    if Between(rest[1..], a, d) == 0 {
      b := rest[0];
      NoneBetween(rest[1..], a, d);
    } else {
      b := FindNext(rest[1..], a, d);
      if IsBetween(rest[0], a, d) && |rest[0]| < |b| {
        b := rest[0];
      }
    }
  }

  lemma {:induction false} NoneBetween(rest: seq<string>, a: string, d: string)
    ensures Between(rest, a, d) == 0 <==> forall e :: e in rest ==> !IsBetween(e, a, d)
  {
    if rest != [] {
      NoneBetween(rest[1..], a, d);
    }
  }

  /** Relative to the next directory `b`, a listed prefix of `d` below `a` is `b` or below `b`. */
  lemma NextSplits(e: string, b: string, a: string, d: string, l: Listing)
    requires IsNext(b, a, d, l) && e in l.directories && (Under(d, e) || e == d)
    ensures Under(e, a) <==> e == b || Under(e, b)
  {
    UnderTrans(e, b, a);
    if Under(e, a) {
      Nested(d, b, e);
    }
  }

  function One(member: bool): nat {
    if member then 1 else 0
  }

  lemma {:induction false} BetweenNext(rest: seq<string>, b: string, a: string, d: string, l: Listing)
    requires IsNext(b, a, d, l) && Distinct(rest) && forall e :: e in rest ==> e in l.directories
    ensures Between(rest, a, d) == One(b in rest) + Between(rest, b, d)
  {
    if rest != [] {
      BetweenNext(rest[1..], b, a, d, l);
      if Under(d, rest[0]) {
        NextSplits(rest[0], b, a, d, l);
      }
      DistinctHead(rest);
    }
  }

  lemma DistinctHead(rest: seq<string>)
    requires rest != [] && Distinct(rest)
    ensures rest[0] !in rest[1..] && Distinct(rest[1..])
    ensures forall e :: e in rest <==> e == rest[0] || e in rest[1..]
  {
    assert rest == [rest[0]] + rest[1..];
  }

  /** Beneath `a` the directory is shown below the next directory `b`, and once more wherever it is shown
      below `b`. */
  lemma {:induction false} ShownNext(rest: seq<string>, b: string, a: string, d: string, l: Listing)
    requires Walked(l) && d in l.directories && IsNext(b, a, d, l)
    requires Distinct(rest) && forall e :: e in rest ==> e in l.directories
    ensures ShownIn(DirectoryNodes(rest, a, l), DirectoryNode(d, l))
         == (if b in rest then Shown(DirectoryNode(b, l), DirectoryNode(d, l)) else 0)
            + ShownIn(DirectoryNodes(rest, b, l), DirectoryNode(d, l))
  {
    if rest != [] {
      var e, x := rest[0], DirectoryNode(d, l);
      DistinctHead(rest);
      ShownNext(rest[1..], b, a, d, l);
      StepDirectories(rest, a, l, x);
      StepDirectories(rest, b, l, x);
      if Under(d, e) || e == d {
        NextSplits(e, b, a, d, l);
      } else {
        NotBeneath(e, d, l);
      }
    }
  }

  /** With nothing in between, only the directory's own node counts. */
  lemma {:induction false} ShownDirectly(rest: seq<string>, a: string, d: string, l: Listing)
    requires Walked(l) && d in l.directories && Under(d, a) && Between(l.directories, a, d) == 0
    requires Distinct(rest) && forall e :: e in rest ==> e in l.directories
    ensures ShownIn(DirectoryNodes(rest, a, l), DirectoryNode(d, l)) == One(d in rest)
  {
    if rest != [] {
      var e, x := rest[0], DirectoryNode(d, l);
      DistinctHead(rest);
      ShownDirectly(rest[1..], a, d, l);
      StepDirectories(rest, a, l, x);
      NoneBetween(l.directories, a, d);
      if e == d {
        ShownToItself(d, l);
      } else if Under(e, a) {
        assert !IsBetween(e, a, d);
        NotBeneath(e, d, l);
      }
    }
  }

  lemma ShownToItself(d: string, l: Listing)
    requires Walked(l) && d in l.directories
    ensures Shown(DirectoryNode(d, l), DirectoryNode(d, l)) == 1
  {
    OpenDirectory(d, l, DirectoryNode(d, l));
    NoDirectoryAmongFiles(l.files, d, DirectoryNode(d, l));
    NotAmong(l.directories, d, d, l);
  }

  lemma OnlyBelow(a: string, d: string, l: Listing)
    requires Walked(l) && d in l.directories && Under(d, a)
    ensures Shown(DirectoryNode(a, l), DirectoryNode(d, l))
         == ShownIn(DirectoryNodes(l.directories, a, l), DirectoryNode(d, l))
  {
    OpenDirectory(a, l, DirectoryNode(d, l));
    NoDirectoryAmongFiles(l.files, a, DirectoryNode(d, l));
  }

  function Power2(n: nat): (p: nat)
    ensures p >= 1
    ensures n >= 1 ==> p >= 2
  {
    if n == 0 then 1 else 2 * Power2(n - 1)
  }

  /** Beneath `a`, the whole node of the directory `d` is shown 2 to the power of the number of listed
      directories strictly between them. */
  lemma {:induction false} ShownBeneath(a: string, d: string, l: Listing)
    requires Walked(l) && d in l.directories && Under(d, a)
    ensures Shown(DirectoryNode(a, l), DirectoryNode(d, l)) == Power2(Between(l.directories, a, d))
    decreases Between(l.directories, a, d)
  {
    OnlyBelow(a, d, l);
    if Between(l.directories, a, d) == 0 {
      ShownDirectly(l.directories, a, d, l);
    } else {
      var b := FindNext(l.directories, a, d);
      BetweenNext(l.directories, b, a, d, l);
      ShownNext(l.directories, b, a, d, l);
      OnlyBelow(b, d, l);
      ShownBeneath(b, d, l);
    }
  }

  // The whole tree

  /** How often a top-level directory `t` shows the directory `d`. */
  function FromTop(t: string, d: string, l: Listing): nat {
    if !Top(t) then 0
    else if t == d then 1
    else if Under(d, t) then Power2(Between(l.directories, t, d))
    else 0
  }

  function Total(rest: seq<string>, d: string, l: Listing): nat {
    if rest == [] then 0 else FromTop(rest[0], d, l) + Total(rest[1..], d, l)
  }

  lemma {:induction false} ShownFromTops(rest: seq<string>, d: string, l: Listing)
    requires Walked(l) && d in l.directories && forall e :: e in rest ==> e in l.directories
    ensures ShownIn(TopDirectories(rest, l), DirectoryNode(d, l)) == Total(rest, d, l)
  {
    if rest != [] {
      var t, x := rest[0], DirectoryNode(d, l);
      ShownFromTops(rest[1..], d, l);
      if Top(t) {
        ShownInOne(DirectoryNode(t, l), x);
        ShownInBoth([DirectoryNode(t, l)], TopDirectories(rest[1..], l), x);
        if t == d {
          ShownToItself(d, l);
        } else if Under(d, t) {
          ShownBeneath(t, d, l);
        } else {
          NotBeneath(t, d, l);
        }
      } else {
        assert TopDirectories(rest, l) == TopDirectories(rest[1..], l);
      }
    }
  }

  lemma {:induction false} NoneAmongTopFiles(files: seq<string>, x: Node)
    requires x.path !in files
    ensures ShownIn(TopFiles(files), x) == 0
  {
    if files != [] {
      NoneAmongTopFiles(files[1..], x);
      if Top(files[0]) {
        ShownInOne(FileNode(files[0]), x);
        ShownInBoth([FileNode(files[0])], TopFiles(files[1..]), x);
      } else {
        assert TopFiles(files) == TopFiles(files[1..]);
      }
    }
  }

  /** In the whole tree a directory is shown as often as the top-level directories together show it. */
  lemma ShownInTree(d: string, l: Listing)
    requires Walked(l) && d in l.directories
    ensures ShownIn(Tree(l), DirectoryNode(d, l)) == Total(l.directories, d, l)
  {
    ShownInBoth(TopDirectories(l.directories, l), TopFiles(l.files), DirectoryNode(d, l));
    ShownFromTops(l.directories, d, l);
    NoneAmongTopFiles(l.files, DirectoryNode(d, l));
  }

  /** The directory of every path that is not at the top is listed. */
  ghost predicate Closed(l: Listing) {
    forall p :: p in l.directories || p in l.files ==> Top(p) || Dir(p) in l.directories
  }

  /** How many listed directories are strict string prefixes of `d`. */
  function Prefixes(rest: seq<string>, d: string): nat {
    if rest == [] then 0 else One(Under(d, rest[0])) + Prefixes(rest[1..], d)
  }

  predicate IsShortest(e: string, d: string, rest: seq<string>) {
    e in rest && Under(d, e) && forall o :: o in rest && Under(d, o) ==> |e| <= |o|
  }

  lemma {:induction false} NoPrefix(rest: seq<string>, d: string)
    ensures Prefixes(rest, d) == 0 <==> forall e :: e in rest ==> !Under(d, e)
  {
    if rest != [] {
      NoPrefix(rest[1..], d);
    }
  }

  lemma {:induction false} FindShortest(rest: seq<string>, d: string) returns (e: string)
    requires Prefixes(rest, d) > 0
    ensures IsShortest(e, d, rest)
  {
    if Prefixes(rest[1..], d) == 0 {
      e := rest[0];
      NoPrefix(rest[1..], d);
    } else {
      e := FindShortest(rest[1..], d);
      if Under(d, rest[0]) && |rest[0]| < |e| {
        e := rest[0];
      }
    }
  }

  /** Besides the shortest prefix, the prefixes of `d` are the directories between the two. */
  lemma {:induction false} PrefixesBetween(rest: seq<string>, e: string, d: string, l: Listing)
    requires IsShortest(e, d, l.directories) && Distinct(rest) && forall o :: o in rest ==> o in l.directories
    ensures Prefixes(rest, d) == One(e in rest) + Between(rest, e, d)
  {
    if rest != [] {
      DistinctHead(rest);
      PrefixesBetween(rest[1..], e, d, l);
      if Under(d, rest[0]) {
        Nested(d, e, rest[0]);
      }
    }
  }

  lemma ParentIsPrefix(p: string)
    requires !Top(p)
    ensures Under(p, Dir(p))
  {
  }

  lemma ShortestIsTop(e: string, d: string, l: Listing)
    requires Closed(l) && IsShortest(e, d, l.directories)
    ensures Top(e)
  {
    if !Top(e) {
      ParentIsPrefix(e);
      UnderTrans(d, e, Dir(e));
    }
  }

  lemma {:induction false} TotalHasMember(rest: seq<string>, t: string, d: string, l: Listing)
    requires t in rest
    ensures Total(rest, d, l) >= FromTop(t, d, l)
  {
    if t != rest[0] {
      TotalHasMember(rest[1..], t, d, l);
    }
  }

  lemma {:induction false} TotalHasTwo(rest: seq<string>, t: string, u: string, d: string, l: Listing)
    requires t in rest && u in rest && t != u
    ensures Total(rest, d, l) >= FromTop(t, d, l) + FromTop(u, d, l)
  {
    if t == rest[0] {
      TotalHasMember(rest[1..], u, d, l);
    } else if u == rest[0] {
      TotalHasMember(rest[1..], t, d, l);
    } else {
      TotalHasTwo(rest[1..], t, u, d, l);
    }
  }

  lemma {:induction false} TotalOfOne(rest: seq<string>, t: string, d: string, l: Listing)
    requires Distinct(rest) && forall u :: u in rest && u != t ==> FromTop(u, d, l) == 0
    ensures Total(rest, d, l) == if t in rest then FromTop(t, d, l) else 0
  {
    if rest != [] {
      DistinctHead(rest);
      TotalOfOne(rest[1..], t, d, l);
    }
  }

  lemma OncePrefixless(d: string, l: Listing)
    requires Walked(l) && Closed(l) && d in l.directories && Prefixes(l.directories, d) == 0
    ensures Top(d) && Total(l.directories, d, l) == 1
  {
    NoPrefix(l.directories, d);
    if !Top(d) {
      ParentIsPrefix(d);
    }
    TotalOfOne(l.directories, d, d, l);
  }

  lemma OnlyOnePrefix(e: string, d: string, l: Listing)
    requires Walked(l) && IsShortest(e, d, l.directories) && Top(e) && !Top(d) && Prefixes(l.directories, d) == 1
    ensures Total(l.directories, d, l) == 1
  {
    PrefixesBetween(l.directories, e, d, l);
    NoneBetween(l.directories, e, d);
    forall u | u in l.directories && u != e ensures FromTop(u, d, l) == 0 {
      if Under(d, u) {
        Nested(d, e, u);
        assert IsBetween(u, e, d);
      }
    }
    TotalOfOne(l.directories, e, d, l);
  }

  /** Every directory of a listing that is closed under parents is shown, and it is shown once exactly when
      it is at the top and no listed name is a prefix of its own, or it is below the top and one is. */
  lemma ShownOnceIff(d: string, l: Listing)
    requires Walked(l) && Closed(l) && d in l.directories
    ensures ShownIn(Tree(l), DirectoryNode(d, l)) >= 1
    ensures ShownIn(Tree(l), DirectoryNode(d, l)) == 1 <==> Prefixes(l.directories, d) == (if Top(d) then 0 else 1)
  {
    ShownInTree(d, l);
    if Prefixes(l.directories, d) == 0 {
      OncePrefixless(d, l);
    } else {
      var e := FindShortest(l.directories, d);
      ShortestIsTop(e, d, l);
      if Top(d) {
        TotalHasTwo(l.directories, e, d, d, l);
      } else if Prefixes(l.directories, d) == 1 {
        OnlyOnePrefix(e, d, l);
      } else {
        PrefixesBetween(l.directories, e, d, l);
        assert Between(l.directories, e, d) >= 1;
        TotalHasMember(l.directories, e, d, l);
      }
    }
  }

  // Files

  lemma {:induction false} FileAmong(files: seq<string>, a: string, f: string)
    requires Distinct(files)
    ensures ShownIn(FileNodes(files, a), FileNode(f)) == One(f in files && Dir(f) == a)
  {
    if files != [] {
      DistinctHead(files);
      FileAmong(files[1..], a, f);
      if Dir(files[0]) == a {
        ShownInOne(FileNode(files[0]), FileNode(f));
        ShownInBoth([FileNode(files[0])], FileNodes(files[1..], a), FileNode(f));
      } else {
        assert FileNodes(files, a) == FileNodes(files[1..], a);
      }
    }
  }

  /** A file is shown wherever its directory is. */
  lemma {:induction false} FileWithDirectory(a: string, f: string, l: Listing)
    requires Walked(l) && f in l.files && a in l.directories && Dir(f) in l.directories
    ensures Shown(DirectoryNode(a, l), FileNode(f)) == Shown(DirectoryNode(a, l), DirectoryNode(Dir(f), l))
    decreases MaxLength(l.directories) - |a|, |l.directories| + 1
  {
    OpenDirectory(a, l, FileNode(f));
    OpenDirectory(a, l, DirectoryNode(Dir(f), l));
    FileAmong(l.files, a, f);
    NoDirectoryAmongFiles(l.files, a, DirectoryNode(Dir(f), l));
    FileAmongDirectories(l.directories, a, f, l);
  }

  lemma {:induction false} FileAmongDirectories(rest: seq<string>, a: string, f: string, l: Listing)
    requires Walked(l) && f in l.files && Dir(f) in l.directories && forall d :: d in rest ==> d in l.directories
    ensures ShownIn(DirectoryNodes(rest, a, l), FileNode(f))
         == ShownIn(DirectoryNodes(rest, a, l), DirectoryNode(Dir(f), l))
    decreases MaxLength(l.directories) - |a|, |rest|
  {
    if rest != [] {
      StepDirectories(rest, a, l, FileNode(f));
      StepDirectories(rest, a, l, DirectoryNode(Dir(f), l));
      FileAmongDirectories(rest[1..], a, f, l);
      if Under(rest[0], a) {
        FileWithDirectory(rest[0], f, l);
      }
    }
  }

  lemma {:induction false} FileFromTops(rest: seq<string>, f: string, l: Listing)
    requires Walked(l) && f in l.files && Dir(f) in l.directories && forall d :: d in rest ==> d in l.directories
    ensures ShownIn(TopDirectories(rest, l), FileNode(f))
         == ShownIn(TopDirectories(rest, l), DirectoryNode(Dir(f), l))
  {
    if rest != [] {
      FileFromTops(rest[1..], f, l);
      if Top(rest[0]) {
        FileWithDirectory(rest[0], f, l);
        ShownInOne(DirectoryNode(rest[0], l), FileNode(f));
        ShownInOne(DirectoryNode(rest[0], l), DirectoryNode(Dir(f), l));
        ShownInBoth([DirectoryNode(rest[0], l)], TopDirectories(rest[1..], l), FileNode(f));
        ShownInBoth([DirectoryNode(rest[0], l)], TopDirectories(rest[1..], l), DirectoryNode(Dir(f), l));
      } else {
        assert TopDirectories(rest, l) == TopDirectories(rest[1..], l);
      }
    }
  }

  lemma {:induction false} TopFileAmong(files: seq<string>, f: string)
    requires Distinct(files)
    ensures ShownIn(TopFiles(files), FileNode(f)) == One(f in files && Top(f))
  {
    if files != [] {
      DistinctHead(files);
      TopFileAmong(files[1..], f);
      if Top(files[0]) {
        ShownInOne(FileNode(files[0]), FileNode(f));
        ShownInBoth([FileNode(files[0])], TopFiles(files[1..]), FileNode(f));
      } else {
        assert TopFiles(files) == TopFiles(files[1..]);
      }
    }
  }

  /** A file below a directory is shown once exactly when its directory is: not if the directory is at the
      top and another listed name is its prefix, nor if it is deeper and has two listed prefixes. */
  lemma FileShownOnceIff(f: string, l: Listing)
    requires Walked(l) && Closed(l) && f in l.files && !Top(f)
    ensures ShownIn(Tree(l), FileNode(f)) >= 1
    ensures ShownIn(Tree(l), FileNode(f)) == 1 <==> Prefixes(l.directories, Dir(f)) == (if Top(Dir(f)) then 0 else 1)
  {
    var x, d := FileNode(f), DirectoryNode(Dir(f), l);
    ShownInBoth(TopDirectories(l.directories, l), TopFiles(l.files), x);
    ShownInBoth(TopDirectories(l.directories, l), TopFiles(l.files), d);
    TopFileAmong(l.files, f);
    NoneAmongTopFiles(l.files, d);
    FileFromTops(l.directories, f, l);
    ShownOnceIff(Dir(f), l);
  }

  /** The name of a file is what follows the last separator of its path, its directory what precedes it. */
  lemma NameIsBase(dir: string, name: string)
    requires '/' !in name
    ensures var path := dir + "/" + name;
            !Top(path) && Dir(path) == dir && Base(path) == name
  {
    var path := dir + "/" + name;
    assert path[|dir|] == '/' && path[|dir| + 1..] == name;
    assert DirLength(path) == |dir|;
  }

  lemma EveryFileIsShown(f: string, l: Listing)
    requires Walked(l) && Closed(l) && f in l.files
    ensures '/' !in f ==> ShownIn(Tree(l), Node(f, f, [])) >= 1
    ensures forall dir, name :: '/' !in name && f == dir + "/" + name ==> ShownIn(Tree(l), Node(name, f, [])) >= 1
  {
    forall dir, name | '/' !in name && f == dir + "/" + name ensures FileNode(f) == Node(name, f, []) && !Top(f) {
      NameIsBase(dir, name);
    }
    if Top(f) {
      TopFileAmong(l.files, f);
      ShownInBoth(TopDirectories(l.directories, l), TopFiles(l.files), FileNode(f));
    } else {
      FileShownOnceIff(f, l);
    }
  }

  // Nothing else is shown

  ghost predicate IsListed(x: Node, l: Listing) {
    || (x.path in l.files && x == FileNode(x.path))
    || (x.path in l.directories && x == DirectoryNode(x.path, l))
  }

  lemma {:induction false} FilesAreListed(files: seq<string>, a: string, x: Node, l: Listing)
    requires ShownIn(FileNodes(files, a), x) > 0 && forall f :: f in files ==> f in l.files
    ensures IsListed(x, l) && x.children == []
  {
    if x != FileNode(files[0]) {
      if Dir(files[0]) == a {
        ShownInOne(FileNode(files[0]), x);
        ShownInBoth([FileNode(files[0])], FileNodes(files[1..], a), x);
      } else {
        assert FileNodes(files, a) == FileNodes(files[1..], a);
      }
      FilesAreListed(files[1..], a, x, l);
    }
  }

  lemma {:induction false} BelowIsListed(a: string, x: Node, l: Listing)
    requires a in l.directories && Shown(DirectoryNode(a, l), x) > 0
    ensures IsListed(x, l)
    decreases MaxLength(l.directories) - |a|, |l.directories| + 1
  {
    OpenDirectory(a, l, x);
    if ShownIn(FileNodes(l.files, a), x) > 0 {
      FilesAreListed(l.files, a, x, l);
    } else if x != DirectoryNode(a, l) {
      AmongIsListed(l.directories, a, x, l);
    }
  }

  lemma {:induction false} AmongIsListed(rest: seq<string>, a: string, x: Node, l: Listing)
    requires forall d :: d in rest ==> d in l.directories
    requires ShownIn(DirectoryNodes(rest, a, l), x) > 0
    ensures IsListed(x, l)
    decreases MaxLength(l.directories) - |a|, |rest|
  {
    StepDirectories(rest, a, l, x);
    if Under(rest[0], a) && Shown(DirectoryNode(rest[0], l), x) > 0 {
      BelowIsListed(rest[0], x, l);
    } else {
      AmongIsListed(rest[1..], a, x, l);
    }
  }

  lemma {:induction false} TopIsListed(rest: seq<string>, x: Node, l: Listing)
    requires forall d :: d in rest ==> d in l.directories
    requires ShownIn(TopDirectories(rest, l), x) > 0
    ensures IsListed(x, l)
  {
    if Top(rest[0]) {
      ShownInOne(DirectoryNode(rest[0], l), x);
      ShownInBoth([DirectoryNode(rest[0], l)], TopDirectories(rest[1..], l), x);
      if Shown(DirectoryNode(rest[0], l), x) > 0 {
        BelowIsListed(rest[0], x, l);
      } else {
        TopIsListed(rest[1..], x, l);
      }
    } else {
      assert TopDirectories(rest, l) == TopDirectories(rest[1..], l);
      TopIsListed(rest[1..], x, l);
    }
  }

  /** Every node of the tree, at any depth, is the whole node of a listed file or directory; so a node without
      children is a file or a directory with nothing in it. */
  lemma OnlyListedIsShown(x: Node, l: Listing)
    requires ShownIn(Tree(l), x) > 0
    ensures IsListed(x, l)
  {
    ShownInBoth(TopDirectories(l.directories, l), TopFiles(l.files), x);
    if ShownIn(TopDirectories(l.directories, l), x) > 0 {
      TopIsListed(l.directories, x, l);
    } else if x.path in l.files {
      TopFilesAreFiles(l.files, x);
    } else {
      NoneAmongTopFiles(l.files, x);
    }
  }

  lemma {:induction false} TopFilesAreFiles(files: seq<string>, x: Node)
    requires ShownIn(TopFiles(files), x) > 0
    ensures x == FileNode(x.path)
  {
    if x != FileNode(files[0]) {
      if Top(files[0]) {
        ShownInOne(FileNode(files[0]), x);
        ShownInBoth([FileNode(files[0])], TopFiles(files[1..]), x);
      } else {
        assert TopFiles(files) == TopFiles(files[1..]);
      }
      TopFilesAreFiles(files[1..], x);
    }
  }

  /** A file three directories deep is shown more than once. */
  lemma DeepFileIsShownAgain()
    ensures var l := Listing(["a", "a/b", "a/b/c"], ["a/b/c/f"]);
            Walked(l) && Closed(l) && ShownIn(Tree(l), FileNode("a/b/c/f")) >= 2
  {
    var l := Listing(["a", "a/b", "a/b/c"], ["a/b/c/f"]);
    assert "a/b/c/f"[5] == '/' && "a/b/c"[3] == '/' && "a/b"[1] == '/';
    assert Dir("a/b/c/f") == "a/b/c";
    assert Dir("a/b/c") == "a/b";
    assert Dir("a/b") == "a";
    assert Walked(l) && Closed(l);
    assert Under("a/b/c", "a") && Under("a/b/c", "a/b");
    assert Prefixes(l.directories[2..], "a/b/c") == 0;
    assert Prefixes(l.directories[1..], "a/b/c") == 1;
    FileShownOnceIff("a/b/c/f", l);
  }
}
