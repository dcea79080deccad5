/** The nodes of a support bundle's file tree one level at a time, on the text of the listed paths. */
module FileTreeNodes {
  import opened Documents
  import opened FileTree

  function Paths(nodes: seq<Node>): seq<string> {
    if nodes == [] then [] else [nodes[0].path] + Paths(nodes[1..])
  }

  /** A strict string prefix is what is left of a name when something is cut off at its end. */
  lemma UnderIff(d: string, directory: string)
    ensures Under(d, directory) <==> exists rest :: rest != "" && d == directory + rest
  {
    if Under(d, directory) {
      assert d == directory + d[|directory|..];
    }
  }

  lemma {:induction false} AmongFiles(files: seq<string>, directory: string, x: Node)
    ensures x in FileNodes(files, directory) <==> exists f :: f in files && Dir(f) == directory && x == FileNode(f)
    ensures Selection(Paths(FileNodes(files, directory)), files)
  {
    if files != [] {
      AmongFiles(files[1..], directory, x);
      var rest := FileNodes(files[1..], directory);
      if Dir(files[0]) == directory {
        assert FileNodes(files, directory)[1..] == rest;
      } else {
        assert FileNodes(files, directory) == rest;
      }
      assert forall f :: f in files <==> f == files[0] || f in files[1..];
    }
  }

  lemma {:induction false} AmongDirectories(rest: seq<string>, directory: string, l: Listing, x: Node)
    requires forall d :: d in rest ==> d in l.directories
    ensures x in DirectoryNodes(rest, directory, l) <==>
            exists d :: d in rest && Under(d, directory) && x == DirectoryNode(d, l)
    ensures Selection(Paths(DirectoryNodes(rest, directory, l)), rest)
  {
    if rest != [] {
      AmongDirectories(rest[1..], directory, l, x);
      var nodes := DirectoryNodes(rest[1..], directory, l);
      if Under(rest[0], directory) {
        assert DirectoryNodes(rest, directory, l)[1..] == nodes;
      } else {
        assert DirectoryNodes(rest, directory, l) == nodes;
      }
      assert forall d :: d in rest <==> d == rest[0] || d in rest[1..];
    }
  }

  ghost predicate IsFileBelow(x: Node, directory: string, l: Listing) {
    exists name :: '/' !in name && directory + "/" + name in l.files && x == Node(name, directory + "/" + name, [])
  }

  ghost predicate IsDirectoryBelow(x: Node, directory: string, l: Listing) {
    exists rest :: rest != "" && directory + rest in l.directories && x == DirectoryNode(directory + rest, l)
  }

  lemma FileBelow(directory: string, f: string, l: Listing)
    requires directory != "" && f in l.files && Dir(f) == directory
    ensures IsFileBelow(FileNode(f), directory, l)
  {
    var name := Base(f);
    assert f == directory + "/" + name;
    NameIsBase(directory, name);
  }

  /** The node of a directory has its whole path as its name. */
  lemma DirectoryName(directory: string, l: Listing)
    ensures DirectoryNode(directory, l).name == directory && DirectoryNode(directory, l).path == directory
  {
  }

  /** The children of a directory's node are a leaf for each of its files, in the order of the listing,
      and then a node for each listed directory of which it is a string prefix, in the order of the listing. */
  lemma ChildrenAre(directory: string, l: Listing, x: Node)
    requires directory != ""
    ensures x in DirectoryNode(directory, l).children <==>
            IsFileBelow(x, directory, l) || IsDirectoryBelow(x, directory, l)
    ensures exists k :: 0 <= k <= |DirectoryNode(directory, l).children|
                        && Selection(Paths(DirectoryNode(directory, l).children[..k]), l.files)
                        && Selection(Paths(DirectoryNode(directory, l).children[k..]), l.directories)
  {
    var files, directories := FileNodes(l.files, directory), DirectoryNodes(l.directories, directory, l);
    var children := DirectoryNode(directory, l).children;
    AmongFiles(l.files, directory, x);
    AmongDirectories(l.directories, directory, l, x);
    assert children == files + directories;
    assert children[..|files|] == files && children[|files|..] == directories;
    ChildIsFile(directory, l, x);
    ChildIsDirectory(directory, l, x);
  }

  lemma ChildIsFile(directory: string, l: Listing, x: Node)
    requires directory != ""
    ensures x in FileNodes(l.files, directory) <==> IsFileBelow(x, directory, l)
  {
    AmongFiles(l.files, directory, x);
    forall f | f in l.files && Dir(f) == directory && x == FileNode(f) ensures IsFileBelow(x, directory, l) {
      FileBelow(directory, f, l);
    }
    forall name | '/' !in name && directory + "/" + name in l.files && x == Node(name, directory + "/" + name, [])
      ensures Dir(directory + "/" + name) == directory && x == FileNode(directory + "/" + name)
    {
      NameIsBase(directory, name);
    }
  }

  lemma ChildIsDirectory(directory: string, l: Listing, x: Node)
    ensures x in DirectoryNodes(l.directories, directory, l) <==> IsDirectoryBelow(x, directory, l)
  {
    AmongDirectories(l.directories, directory, l, x);
    forall d | d in l.directories && Under(d, directory) && x == DirectoryNode(d, l) ensures IsDirectoryBelow(x, directory, l) {
      UnderIff(d, directory);
    }
    forall rest | rest != "" && directory + rest in l.directories && x == DirectoryNode(directory + rest, l)
      ensures Under(directory + rest, directory)
    {
      UnderIff(directory + rest, directory);
    }
  }

  lemma {:induction false} AmongTopDirectories(rest: seq<string>, l: Listing, x: Node)
    ensures x in TopDirectories(rest, l) <==> exists d :: d in rest && '/' !in d && x == DirectoryNode(d, l)
    ensures Selection(Paths(TopDirectories(rest, l)), rest)
  {
    if rest != [] {
      AmongTopDirectories(rest[1..], l, x);
      var nodes := TopDirectories(rest[1..], l);
      if Top(rest[0]) {
        assert TopDirectories(rest, l)[1..] == nodes;
      } else {
        assert TopDirectories(rest, l) == nodes;
      }
      assert forall d :: d in rest <==> d == rest[0] || d in rest[1..];
    }
  }

  lemma {:induction false} AmongTopFiles(files: seq<string>, x: Node)
    ensures x in TopFiles(files) <==> exists f :: f in files && '/' !in f && x == Node(f, f, [])
    ensures Selection(Paths(TopFiles(files)), files)
  {
    if files != [] {
      AmongTopFiles(files[1..], x);
      if Top(files[0]) {
        assert TopFiles(files)[1..] == TopFiles(files[1..]);
      } else {
        assert TopFiles(files) == TopFiles(files[1..]);
      }
      assert forall f :: f in files <==> f == files[0] || f in files[1..];
    }
  }

  /** The top level has the directories without a separator and then the files without one, each in the order
      of the listing. */
  lemma TopLevelIs(l: Listing, x: Node)
    ensures x in Tree(l) <==>
            || (exists d :: d in l.directories && '/' !in d && x == DirectoryNode(d, l))
            || (exists f :: f in l.files && '/' !in f && x == Node(f, f, []))
    ensures exists k :: 0 <= k <= |Tree(l)| && Selection(Paths(Tree(l)[..k]), l.directories)
                        && Selection(Paths(Tree(l)[k..]), l.files)
  {
    AmongTopDirectories(l.directories, l, x);
    AmongTopFiles(l.files, x);
    var k := |TopDirectories(l.directories, l)|;
    assert Tree(l)[..k] == TopDirectories(l.directories, l) && Tree(l)[k..] == TopFiles(l.files);
  }

  /** The prefix is one of strings: "ab" is shown below "a" too. */
  lemma SiblingIsShownBelow()
    ensures var l := Listing(["a", "ab"], []); ShownIn(Tree(l), DirectoryNode("ab", l)) == 2
  {
    var l := Listing(["a", "ab"], []);
    assert Top("a") && Top("ab") && Under("ab", "a");
    assert Walked(l);
    ShownInTree("ab", l);
    NoneBetween(l.directories, "a", "ab");
    assert FromTop("a", "ab", l) == 1 && FromTop("ab", "ab", l) == 1;
    assert l.directories[1..] == ["ab"] && l.directories[1..][1..] == [];
    assert Total(["ab"], "ab", l) == 1;
  }
}
