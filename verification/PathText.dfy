/**
 The tree of `arrangeIntoTree` on the text of the paths: where paths are cut, and which name sequences and
 leaves that gives.
 */
module PathText {
  import opened PathTree

  function JoinSlash(parts: Names): string {
    if parts == [] then ""
    else if |parts| == 1 then parts[0]
    else parts[0] + "/" + JoinSlash(parts[1..])
  }

  predicate NoSlashes(parts: Names) {
    forall i :: 0 <= i < |parts| ==> '/' !in parts[i]
  }

  /** No part has a slash, and the parts with slashes between them are the path. */
  lemma {:induction false} SplitIs(s: string)
    ensures NoSlashes(SplitSlash(s)) && JoinSlash(SplitSlash(s)) == s
  {
    if s != "" {
      SplitIs(s[1..]);
      var rest := SplitSlash(s[1..]);
      if s[0] == '/' {
        assert ([""] + rest)[1..] == rest;
      } else {
        assert ([[s[0]] + rest[0]] + rest[1..])[1..] == rest[1..];
      }
      assert s == [s[0]] + s[1..];
    }
  }

  lemma {:induction false} SplitAt(x: string, t: string)
    requires '/' !in x
    ensures SplitSlash(x + "/" + t) == [x] + SplitSlash(t)
  {
    var s := x + "/" + t;
    if x == "" {
      assert s[1..] == t;
    } else {
      SplitAt(x[1..], t);
      assert s[1..] == x[1..] + "/" + t && s[0] == x[0];
      assert [x[0]] + x[1..] == x;
    }
  }

  lemma {:induction false} SplitWhole(x: string)
    requires '/' !in x
    ensures SplitSlash(x) == [x]
  {
    if x != "" {
      SplitWhole(x[1..]);
      assert [x[0]] + x[1..] == x;
    }
  }

  /** There is no other list of parts without slashes for a path. */
  lemma {:induction false} SplitOfJoin(parts: Names)
    requires parts != [] && NoSlashes(parts)
    ensures SplitSlash(JoinSlash(parts)) == parts
  {
    if |parts| == 1 {
      SplitWhole(parts[0]);
    } else {
      SplitOfJoin(parts[1..]);
      SplitAt(parts[0], JoinSlash(parts[1..]));
    }
  }

  lemma {:induction false} JoinConcat(a: Names, b: Names)
    requires a != [] && b != []
    ensures JoinSlash(a + b) == JoinSlash(a) + "/" + JoinSlash(b)
  {
    assert (a + b)[1..] == a[1..] + b;
    if |a| > 1 {
      JoinConcat(a[1..], b);
    } else {
      assert a[1..] + b == b;
    }
  }

  /** The text of a path up to some slash, or all of it. */
  predicate LeadsTo(front: string, text: string) {
    front == text || front + "/" <= text
  }

  lemma PrefixOnText(q: Names, text: string)
    requires q != []
    ensures q <= SplitSlash(text) <==> NoSlashes(q) && LeadsTo(JoinSlash(q), text)
  {
    SplitIs(text);
    var parts := SplitSlash(text);
    if q <= parts && q != parts {
      var rest := parts[|q|..];
      assert parts == q + rest;
      JoinConcat(q, rest);
      assert JoinSlash(q) + "/" <= text;
    }
    if NoSlashes(q) && JoinSlash(q) == text {
      SplitOfJoin(q);
    }
    if NoSlashes(q) && JoinSlash(q) + "/" <= text {
      var t := text[|JoinSlash(q)| + 1..];
      assert text == JoinSlash(q) + "/" + t;
      SplitIs(t);
      JoinConcat(q, SplitSlash(t));
      SplitOfJoin(q + SplitSlash(t));
    }
  }

  /** A path without its first slash, if it begins with one. */
  function Stripped(path: string): string {
    if path != "" && path[0] == '/' then path[1..] else path
  }

  lemma PartsOfText(path: string)
    ensures Parts(path) == if path == "" then [] else SplitSlash(Stripped(path))
  {
  }

  /** The name sequences of the tree, on the text of the paths: names without slashes that, joined with
      slashes, are a path or what is before one of its slashes. */
  lemma KeysOnText(paths: seq<string>, q: Names)
    requires q != []
    ensures q in Arranged(paths) <==>
            NoSlashes(q) && exists path :: path in paths && path != "" && LeadsTo(JoinSlash(q), Stripped(path))
  {
    ArrangedKeys(paths);
    forall path | path in paths
      ensures q <= Parts(path) <==> path != "" && NoSlashes(q) && LeadsTo(JoinSlash(q), Stripped(path))
    {
      PartsOfText(path);
      PrefixOnText(q, Stripped(path));
    }
  }

  /** The names that lead to a leaf, joined with slashes, are its stored path. */
  lemma LeafOnText(paths: seq<string>, at: Names, e: Entry)
    requires at in Arranged(paths) && e in Arranged(paths)[at]
    ensures at + [e.name] in Arranged(paths) && e.path in paths
    ensures Arranged(paths)[at + [e.name]] == [] ==> JoinSlash(at + [e.name]) == Stripped(e.path)
  {
    LeafPathIsExact(paths, at, e);
    PartsOfText(e.path);
    SplitIs(Stripped(e.path));
  }
}
