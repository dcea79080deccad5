/**
 `getLaterVersions`: from the rows of the version table, in any order, the newest version with the same
 update cursor as a given one, and for each later cursor its newest version, in cursor order.
 */
module LaterVersions {
  import opened Wrappers
  import opened FiniteSets

  datatype AppVersion = AppVersion(sequence: int, cursor: int)

  /** The primary key of the table. */
  ghost predicate UniqueSequences(rows: seq<AppVersion>) {
    forall i, j :: 0 <= i < j < |rows| ==> rows[i].sequence != rows[j].sequence
  }

  /** `v` is the newest row with its cursor. */
  ghost predicate IsNewest(rows: seq<AppVersion>, v: AppVersion) {
    v in rows && forall w :: w in rows && w.cursor == v.cursor ==> w.sequence <= v.sequence
  }

  /** One newest row for each cursor above `cursor`, by ascending cursor. */
  ghost predicate IsLater(rows: seq<AppVersion>, cursor: int, later: seq<AppVersion>) {
    && (forall i, j :: 0 <= i < j < |later| ==> later[i].cursor < later[j].cursor)
    && (forall i :: 0 <= i < |later| ==> IsNewest(rows, later[i]) && later[i].cursor > cursor)
    && (forall w :: w in rows && w.cursor > cursor ==> HasCursor(later, w.cursor))
  }

  predicate HasCursor(later: seq<AppVersion>, cursor: int) {
    exists i :: 0 <= i < |later| && later[i].cursor == cursor
  }

  // The answer does not depend on the order of the rows

  lemma NewestIsUnique(rows: seq<AppVersion>, v: AppVersion, w: AppVersion)
    requires IsNewest(rows, v) && IsNewest(rows, w) && v.cursor == w.cursor
    ensures v == w
  {
  }

  lemma HasMember(s: seq<AppVersion>)
    requires s != []
    ensures exists v :: v in s
  {
    assert s[0] in s;
  }

  lemma {:induction false} AscendingIsUnique(a: seq<AppVersion>, b: seq<AppVersion>)
    requires forall i, j :: 0 <= i < j < |a| ==> a[i].cursor < a[j].cursor
    requires forall i, j :: 0 <= i < j < |b| ==> b[i].cursor < b[j].cursor
    requires forall v :: v in a <==> v in b
    ensures a == b
    decreases |a|
  {
    if a == [] || b == [] {
      if a != [] { HasMember(a); }
      if b != [] { HasMember(b); }
    } else {
      assert a[0] in a && b[0] in b;
      var i :| 0 <= i < |b| && b[i] == a[0];
      var j :| 0 <= j < |a| && a[j] == b[0];
      assert a[0] == b[0];
      forall v ensures v in a[1..] <==> v in b[1..] {
        assert v in a[1..] ==> v in a && v != a[0];
        assert v in b[1..] ==> v in b && v != b[0];
        assert v in a && v != a[0] ==> v in a[1..];
        assert v in b && v != b[0] ==> v in b[1..];
      }
      AscendingIsUnique(a[1..], b[1..]);
    }
  }

  lemma LaterIsShared(rows1: seq<AppVersion>, rows2: seq<AppVersion>, cursor: int,
                      later1: seq<AppVersion>, later2: seq<AppVersion>, v: AppVersion)
    requires forall w :: w in rows1 <==> w in rows2
    requires IsLater(rows1, cursor, later1) && IsLater(rows2, cursor, later2) && v in later1
    ensures v in later2
  {
    assert IsNewest(rows1, v);
    assert HasCursor(later2, v.cursor);
    var i :| 0 <= i < |later2| && later2[i].cursor == v.cursor;
    assert IsNewest(rows2, later2[i]);
    assert later2[i] == v;
  }

  lemma LaterIsUnique(rows1: seq<AppVersion>, rows2: seq<AppVersion>, cursor: int,
                      later1: seq<AppVersion>, later2: seq<AppVersion>)
    requires forall v :: v in rows1 <==> v in rows2
    requires IsLater(rows1, cursor, later1) && IsLater(rows2, cursor, later2)
    ensures later1 == later2
  {
    forall v | v in later1 ensures v in later2 {
      LaterIsShared(rows1, rows2, cursor, later1, later2, v);
    }
    forall v | v in later2 ensures v in later1 {
      LaterIsShared(rows2, rows1, cursor, later2, later1, v);
    }
    AscendingIsUnique(later1, later2);
  }

  /** The newest sequence with the cursor of `start`, and the later versions. */
  ghost predicate IsAnswer(rows: seq<AppVersion>, start: int, answer: (int, seq<AppVersion>)) {
    exists cursor ::
      AppVersion(start, cursor) in rows && IsNewest(rows, AppVersion(answer.0, cursor)) && IsLater(rows, cursor, answer.1)
  }

  /** For two orders of the same rows there is one answer. */
  lemma AnswerIsUnique(rows1: seq<AppVersion>, rows2: seq<AppVersion>, start: int,
                       answer1: (int, seq<AppVersion>), answer2: (int, seq<AppVersion>))
    requires UniqueSequences(rows1) && forall v :: v in rows1 <==> v in rows2
    requires IsAnswer(rows1, start, answer1) && IsAnswer(rows2, start, answer2)
    ensures answer1 == answer2
  {
    var c1 :| AppVersion(start, c1) in rows1 && IsNewest(rows1, AppVersion(answer1.0, c1)) && IsLater(rows1, c1, answer1.1);
    var c2 :| AppVersion(start, c2) in rows2 && IsNewest(rows2, AppVersion(answer2.0, c2)) && IsLater(rows2, c2, answer2.1);
    OneCursor(rows1, start, c1, c2);
    NewestIsUnique(rows1, AppVersion(answer1.0, c1), AppVersion(answer2.0, c2));
    LaterIsUnique(rows1, rows2, c1, answer1.1, answer2.1);
  }

  lemma OneCursor(rows: seq<AppVersion>, start: int, c1: int, c2: int)
    requires UniqueSequences(rows) && AppVersion(start, c1) in rows && AppVersion(start, c2) in rows
    ensures c1 == c2
  {
    var i :| 0 <= i < |rows| && rows[i] == AppVersion(start, c1);
    var j :| 0 <= j < |rows| && rows[j] == AppVersion(start, c2);
    assert i == j;
  }

  // The code

  /** `sort.Ints` on distinct keys. */
  method SortInts(keys: seq<int>) returns (sorted: seq<int>)
    requires forall i, j :: 0 <= i < j < |keys| ==> keys[i] != keys[j]
    ensures forall i, j :: 0 <= i < j < |sorted| ==> sorted[i] < sorted[j]
    ensures forall k :: k in sorted <==> k in keys
  {
    sorted := [];
    for n := 0 to |keys|
      invariant forall i, j :: 0 <= i < j < |sorted| ==> sorted[i] < sorted[j]
      invariant forall k :: k in sorted <==> k in keys[..n]
    {
      var key := keys[n];
      var p := 0;
      while p < |sorted| && sorted[p] < key
        invariant p <= |sorted|
        invariant forall i :: 0 <= i < p ==> sorted[i] < key
      {
        p := p + 1;
      }
      assert key !in sorted by { assert forall i :: 0 <= i < n ==> keys[i] != key; }
      ghost var before := sorted;
      sorted := sorted[..p] + [key] + sorted[p..];
      assert forall k :: k in sorted <==> k == key || k in before[..p] + before[p..];
      assert before[..p] + before[p..] == before;
    }
  }

  method FindCursor(rows: seq<AppVersion>, start: int) returns (cursor: int)
    requires UniqueSequences(rows)
    ensures (exists v :: v in rows && v.sequence == start) ==> AppVersion(start, cursor) in rows
    ensures (forall v :: v in rows ==> v.sequence != start) ==> cursor == -1
  {
    cursor := -1;
    for i := 0 to |rows|
      invariant (exists v :: v in rows[..i] && v.sequence == start) ==> AppVersion(start, cursor) in rows[..i]
      invariant (forall v :: v in rows[..i] ==> v.sequence != start) ==> cursor == -1
    {
      assert rows[..i + 1] == rows[..i] + [rows[i]];
      if rows[i].sequence == start {
        cursor := rows[i].cursor;
      }
    }
    assert rows[..|rows|] == rows;
  }

  /** The newest version of each cursor above `cursor`, by cursor. */
  ghost predicate IsNewestByCursor(rows: seq<AppVersion>, cursor: int, m: map<int, AppVersion>) {
    && (forall c :: c in m ==> m[c].cursor == c && c > cursor && IsNewest(rows, m[c]))
    && (forall w :: w in rows && w.cursor > cursor ==> w.cursor in m)
  }

  method ScanLater(rows: seq<AppVersion>, start: int, cursor: int)
    returns (latest: int, later: map<int, AppVersion>)
    requires AppVersion(start, cursor) in rows
    ensures IsNewest(rows, AppVersion(latest, cursor))
    ensures IsNewestByCursor(rows, cursor, later)
  {
    latest, later := start, map[];
    for i := 0 to |rows|
      invariant AppVersion(latest, cursor) in rows && start <= latest
      invariant forall w :: w in rows[..i] && w.cursor == cursor ==> w.sequence <= latest
      invariant IsNewestByCursor(rows[..i], cursor, later)
    {
      var version := rows[i];
      assert forall w :: w in rows[..i + 1] <==> w in rows[..i] || w == version;
      if version.cursor == cursor && version.sequence > latest {
        latest := version.sequence;
      }
      if version.cursor > cursor {
        if version.cursor !in later {
          later := later[version.cursor := version];
        } else if later[version.cursor].sequence < version.sequence {
          later := later[version.cursor := version];
        }
      }
    }
    assert rows[..|rows|] == rows;
  }

  method KeysOf(m: map<int, AppVersion>) returns (keys: seq<int>)
    ensures forall i, j :: 0 <= i < j < |keys| ==> keys[i] != keys[j]
    ensures forall k :: k in keys <==> k in m
  {
    keys := [];
    var rest := m.Keys;
    while rest != {}
      invariant rest <= m.Keys
      invariant forall i, j :: 0 <= i < j < |keys| ==> keys[i] != keys[j]
      invariant forall k :: k in keys <==> k in m && k !in rest
      decreases |rest|
    {
      ghost var some := Member(rest);
      var k :| k in rest;
      rest := rest - {k};
      keys := keys + [k];
    }
  }

  lemma SortedIsLater(rows: seq<AppVersion>, cursor: int, m: map<int, AppVersion>, sorted: seq<int>, later: seq<AppVersion>)
    requires IsNewestByCursor(rows, cursor, m)
    requires forall i, j :: 0 <= i < j < |sorted| ==> sorted[i] < sorted[j]
    requires forall k :: k in sorted <==> k in m
    requires |later| == |sorted| && forall j :: 0 <= j < |later| ==> sorted[j] in m && later[j] == m[sorted[j]]
    ensures IsLater(rows, cursor, later)
  {
    forall w | w in rows && w.cursor > cursor ensures HasCursor(later, w.cursor) {
      assert w.cursor in sorted;
      var i :| 0 <= i < |sorted| && sorted[i] == w.cursor;
      assert later[i].cursor == w.cursor;
    }
  }

  /** Fails when the start version is not there or its cursor is -1, which the code takes for absent. */
  method GetLaterVersions(rows: seq<AppVersion>, start: int)
    returns (r: Result<(int, seq<AppVersion>), string>)
    requires UniqueSequences(rows)
    ensures r.Failure? <==> forall v :: v in rows && v.sequence == start ==> v.cursor == -1
    ensures r.Success? ==> IsAnswer(rows, start, r.value)
  {
    var cursor := FindCursor(rows, start);
    if cursor == -1 {
      assert forall v :: v in rows && v.sequence == start ==> v == AppVersion(start, -1);
      return Failure("unable to find update cursor");
    }
    assert AppVersion(start, cursor) in rows;
    var latest, later := ScanLater(rows, start, cursor);
    var keys := KeysOf(later);
    var sorted := SortInts(keys);
    var sortedVersions := [];
    for i := 0 to |sorted|
      invariant |sortedVersions| == i
      invariant forall j :: 0 <= j < i ==> sorted[j] in later && sortedVersions[j] == later[sorted[j]]
    {
      assert sorted[i] in sorted;
      sortedVersions := sortedVersions + [later[sorted[i]]];
    }
    SortedIsLater(rows, cursor, later, sorted, sortedVersions);
    return Success((latest, sortedVersions));
  }
}
