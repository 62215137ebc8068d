/** The `MutableMap<String, Song>` keyed by song code that both CSV readers fill and
    that `associateBy { it.code }` builds. Kotlin's default map is a `LinkedHashMap`:
    `values` come out in the order their keys were FIRST inserted, and a later `put`
    of an existing key replaces the value in place. The model is the list of values
    itself, with at most one song per code. */
module SongTable {

  import opened Wrappers
  import opened Songs

  type Table = seq<Song>

  /** At most one song per code. */
  predicate UniqueCodes(t: seq<Song>) {
    forall i, j :: 0 <= i < j < |t| ==> t[i].code != t[j].code
  }

  function Codes(t: seq<Song>): set<string> {
    set x | x in t :: x.code
  }

  lemma CodesSnoc(t: seq<Song>, x: Song)
    ensures Codes(t + [x]) == Codes(t) + {x.code}
  {
    assert forall y :: y in t + [x] <==> y in t || y == x;
  }

  /** The first position holding code `c` is what `IndexOfCode` finds. */
  lemma IndexOfCodeIs(t: seq<Song>, c: string, i: nat)
    requires i < |t| && t[i].code == c
    requires forall j :: 0 <= j < i ==> t[j].code != c
    ensures IndexOfCode(t, c) == Some(i)
  {
  }

  /** Position of the first song with code `c`. */
  function IndexOfCode(t: seq<Song>, c: string): (r: Option<nat>)
    ensures r.Some? ==> r.value < |t| && t[r.value].code == c
    ensures r.Some? ==> forall j :: 0 <= j < r.value ==> t[j].code != c
    ensures r.None? ==> forall j :: 0 <= j < |t| ==> t[j].code != c
  {
    if |t| == 0 then None
    else if t[0].code == c then Some(0)
    else
      match IndexOfCode(t[1..], c)
      case None => None
      case Some(i) => Some(i + 1)
  }

  /** `map[c]`: the song stored under code `c`, if any. */
  function Get(t: Table, c: string): Option<Song>
  {
    match IndexOfCode(t, c)
    case None => None
    case Some(i) => Some(t[i])
  }

  /** Lookups of codes other than `c` do not see a change at a position holding `c`,
      nor the appending of a song with code `c`. */
  lemma GetUnaffected(t: Table, r: Table, c: string, d: string)
    requires c != d
    requires |t| <= |r|
    requires forall k :: 0 <= k < |t| ==> t[k].code == c || r[k] == t[k]
    requires forall k :: 0 <= k < |t| ==> (t[k].code == c <==> r[k].code == c)
    requires forall k :: |t| <= k < |r| ==> r[k].code == c
    ensures Get(r, d) == Get(t, d)
  {
    var o := IndexOfCode(t, d);
    if o.Some? {
      IndexOfCodeIs(r, d, o.value);
    }
  }

  /** `map[s.code] = s`. */
  function Put(t: Table, s: Song): (r: Table)
    ensures Get(r, s.code) == Some(s)
    ensures forall c :: c != s.code ==> Get(r, c) == Get(t, c)
    ensures Codes(r) == Codes(t) + {s.code}
    ensures UniqueCodes(t) ==> UniqueCodes(r)
    ensures s.code in Codes(t) ==> |r| == |t| && forall i :: 0 <= i < |t| ==> r[i].code == t[i].code
    ensures s.code !in Codes(t) ==> r == t + [s]
  {
    var o := IndexOfCode(t, s.code);
    var r := if o.None? then t + [s] else t[o.value := s];
    assert Get(r, s.code) == Some(s) by {
      IndexOfCodeIs(r, s.code, if o.None? then |t| else o.value);
    }
    assert forall c :: c != s.code ==> Get(r, c) == Get(t, c) by {
      forall c | c != s.code ensures Get(r, c) == Get(t, c) {
        GetUnaffected(t, r, s.code, c);
      }
    }
    assert Codes(r) == Codes(t) + {s.code} by {
      if o.None? {
        CodesSnoc(t, s);
      } else {
        CodesReplace(t, o.value, s);
      }
    }
    r
  }

  /** Replacing a song by one with the same code keeps the codes. */
  lemma CodesReplace(t: seq<Song>, i: nat, s: Song)
    requires i < |t| && t[i].code == s.code
    ensures Codes(t[i := s]) == Codes(t)
  {
    var r := t[i := s];
    forall c ensures c in Codes(r) <==> c in Codes(t) {
      if c in Codes(t) {
        var x :| x in t && x.code == c;
        var k :| 0 <= k < |t| && t[k] == x;
        assert r[k].code == c;
      }
      if c in Codes(r) {
        var x :| x in r && x.code == c;
        var k :| 0 <= k < |r| && r[k] == x;
        assert t[k].code == c;
      }
    }
  }

  /** Lookup succeeds exactly for stored codes, and returns a stored song with that code. */
  lemma GetIsMembership(t: Table, c: string)
    ensures Get(t, c).Some? <==> c in Codes(t)
    ensures Get(t, c).Some? ==> Get(t, c).value in t && Get(t, c).value.code == c
  {
  }

  /** With unique codes, every stored song is what lookup of its code returns. */
  lemma StoredSongIsFound(t: Table, s: Song)
    requires UniqueCodes(t)
    requires s in t
    ensures Get(t, s.code) == Some(s)
  {
    var k :| 0 <= k < |t| && t[k] == s;
  }

  /** The last song of `songs` whose code is `c`: the reference meaning of
      "the last occurrence wins". */
  function LastWithCode(songs: seq<Song>, c: string): (r: Option<Song>)
    ensures r.Some? ==> r.value in songs && r.value.code == c
    ensures r.None? <==> forall k :: 0 <= k < |songs| ==> songs[k].code != c
    ensures r.Some? ==> IsLastWithCode(songs, c, r.value)
  {
    if |songs| == 0 then None
    else if songs[|songs| - 1].code == c then Some(songs[|songs| - 1])
    else
      var r := LastWithCode(songs[..|songs| - 1], c);
      if r.Some? then LastWithCodeSnoc(songs, c, r.value); r else r
  }

  /** `x` occurs in `songs` and no later song has code `c`. */
  predicate IsLastWithCode(songs: seq<Song>, c: string, x: Song) {
    exists k :: 0 <= k < |songs| && songs[k] == x && (forall j :: k < j < |songs| ==> songs[j].code != c)
  }

  lemma LastWithCodeSnoc(songs: seq<Song>, c: string, x: Song)
    requires |songs| > 0 && songs[|songs| - 1].code != c
    requires IsLastWithCode(songs[..|songs| - 1], c, x)
    ensures IsLastWithCode(songs, c, x)
  {
    var p := songs[..|songs| - 1];
    var k :| 0 <= k < |p| && p[k] == x && (forall j :: k < j < |p| ==> p[j].code != c);
    assert songs[k] == x;
    assert forall j :: k < j < |songs| ==> songs[j].code != c by {
      assert forall j :: k < j < |p| ==> songs[j] == p[j];
    }
  }

  /** Putting every song of `songs` in order, as the CSV loops and `associateBy` do. */
  function PutAll(t: Table, songs: seq<Song>): Table
  {
    if |songs| == 0 then t
    else Put(PutAll(t, songs[..|songs| - 1]), songs[|songs| - 1])
  }

  /** Last occurrence wins: after putting `songs`, code `c` holds the last song of
      `songs` with that code, or what it held before when `songs` has none. */
  lemma {:induction false} PutAllLastWins(t: Table, songs: seq<Song>, c: string)
    ensures Get(PutAll(t, songs), c) ==
      (if LastWithCode(songs, c).Some? then LastWithCode(songs, c) else Get(t, c))
  {
    if |songs| > 0 {
      PutAllLastWins(t, songs[..|songs| - 1], c);
    }
  }

  /** The stored codes are the old ones plus every code put. */
  lemma {:induction false} PutAllCodes(t: Table, songs: seq<Song>)
    ensures Codes(PutAll(t, songs)) == Codes(t) + Codes(songs)
  {
    if |songs| > 0 {
      var p := songs[..|songs| - 1];
      var x := songs[|songs| - 1];
      PutAllCodes(t, p);
      CodesLast(songs);
      UnionStep(Codes(t), Codes(p), {x.code}, Codes(PutAll(t, p)), Codes(songs));
    }
  }

  /** The codes of a table in storage order: the order of `values`. */
  function CodeList(t: seq<Song>): (r: seq<string>)
    ensures |r| == |t|
    ensures forall i :: 0 <= i < |t| ==> r[i] == t[i].code
  {
    seq(|t|, i requires 0 <= i < |t| => t[i].code)
  }

  /** The codes of `songs` that are not in `seen`, each listed once, at the song
      where it first appears. */
  function FirstAppearances(seen: set<string>, songs: seq<Song>): seq<string>
  {
    if |songs| == 0 then []
    else
      var p := songs[..|songs| - 1];
      var c := songs[|songs| - 1].code;
      FirstAppearances(seen, p) + (if c in seen || c in Codes(p) then [] else [c])
  }

  /** Where code `c` first appears in `songs`; `|songs|` when it does not. */
  function FirstIndex(songs: seq<Song>, c: string): nat
  {
    match IndexOfCode(songs, c)
    case None => |songs|
    case Some(i) => i
  }

  lemma FirstIndexSnoc(p: seq<Song>, x: Song, c: string)
    ensures c in Codes(p) ==> FirstIndex(p + [x], c) == FirstIndex(p, c) < |p|
    ensures c !in Codes(p) && c == x.code ==> FirstIndex(p + [x], c) == |p|
  {
    if c in Codes(p) {
      var y :| y in p && y.code == c;
      var k :| 0 <= k < |p| && p[k] == y;
      var i := IndexOfCode(p, c).value;
      IndexOfCodeIs(p + [x], c, i);
    } else if c == x.code {
      IndexOfCodeIs(p + [x], c, |p|);
    }
  }

  /** `FirstAppearances` holds exactly the new codes, in the order of their first
      appearance in `songs`; so it is the order in which a `LinkedHashMap` that
      already holds `seen` receives its new keys. */
  lemma {:induction false} FirstAppearancesOrder(seen: set<string>, songs: seq<Song>)
    ensures forall c :: c in FirstAppearances(seen, songs) <==> c in Codes(songs) && c !in seen
    ensures forall i, j :: 0 <= i < j < |FirstAppearances(seen, songs)| ==>
      FirstIndex(songs, FirstAppearances(seen, songs)[i]) < FirstIndex(songs, FirstAppearances(seen, songs)[j])
  {
    if |songs| > 0 {
      var p := songs[..|songs| - 1];
      var x := songs[|songs| - 1];
      FirstAppearancesOrder(seen, p);
      CodesLast(songs);
      assert p + [x] == songs;
      var f := FirstAppearances(seen, p);
      var g := FirstAppearances(seen, songs);
      forall i, j | 0 <= i < j < |g|
        ensures FirstIndex(songs, g[i]) < FirstIndex(songs, g[j])
      {
        FirstIndexSnoc(p, x, g[i]);
        FirstIndexSnoc(p, x, g[j]);
        if j >= |f| {
          assert g[j] == x.code && g[j] !in Codes(p);
          assert g[i] == f[i];
        }
      }
    }
  }

  /** Storage order: putting `songs` keeps the old codes where they were and appends
      the new ones in the order they first appear. */
  lemma {:induction false} PutAllOrder(t: Table, songs: seq<Song>)
    ensures CodeList(PutAll(t, songs)) == CodeList(t) + FirstAppearances(Codes(t), songs)
  {
    if |songs| > 0 {
      var p := songs[..|songs| - 1];
      var x := songs[|songs| - 1];
      PutAllOrder(t, p);
      PutAllCodes(t, p);
      var m := PutAll(t, p);
      CodeListPut(m, x);
      var tail := if x.code in Codes(t) || x.code in Codes(p) then [] else [x.code];
      assert CodeList(PutAll(t, songs)) == CodeList(t) + FirstAppearances(Codes(t), p) + tail;
    }
  }

  /** A map built from nothing stores its codes in the order they first appear. */
  lemma PutAllOrderFromEmpty(songs: seq<Song>)
    ensures CodeList(PutAll([], songs)) == FirstAppearances({}, songs)
  {
    PutAllOrder([], songs);
    assert Codes([]) == {};
    assert CodeList([]) == [];
  }

  lemma CodeListPut(m: Table, x: Song)
    ensures CodeList(Put(m, x)) == CodeList(m) + (if x.code in Codes(m) then [] else [x.code])
  {
    if x.code !in Codes(m) {
      assert CodeList(m + [x]) == CodeList(m) + [x.code];
    }
  }

  lemma CodesLast(songs: seq<Song>)
    requires |songs| > 0
    ensures Codes(songs) == Codes(songs[..|songs| - 1]) + {songs[|songs| - 1].code}
  {
    assert songs[..|songs| - 1] + [songs[|songs| - 1]] == songs;
    CodesSnoc(songs[..|songs| - 1], songs[|songs| - 1]);
  }

  lemma UnionStep(a: set<string>, b: set<string>, c: set<string>, d: set<string>, e: set<string>)
    requires d == a + b && e == b + c
    ensures d + c == a + e
  {
  }

  /** Putting keeps codes unique. */
  lemma {:induction false} PutAllUnique(t: Table, songs: seq<Song>)
    requires UniqueCodes(t)
    ensures UniqueCodes(PutAll(t, songs))
  {
    if |songs| > 0 {
      PutAllUnique(t, songs[..|songs| - 1]);
    }
  }

  /** Putting `a ++ b` is putting `a`, then `b`. */
  lemma {:induction false} PutAllConcat(t: Table, a: seq<Song>, b: seq<Song>)
    ensures PutAll(t, a + b) == PutAll(PutAll(t, a), b)
  {
    if |b| == 0 {
      assert a + b == a;
    } else {
      assert (a + b)[..|a + b| - 1] == a + b[..|b| - 1];
      PutAllConcat(t, a, b[..|b| - 1]);
    }
  }

  /** With unique codes, a stored song occurs exactly once. */
  lemma {:induction false} UniqueSongOccursOnce(t: Table, x: Song)
    requires UniqueCodes(t) && x in t
    ensures multiset(t)[x] == 1
  {
    var k :| 0 <= k < |t| && t[k] == x;
    assert t == t[..k] + [x] + t[k + 1..];
    assert x !in t[..k] && x !in t[k + 1..];
  }

  /** An element at two positions occurs at least twice. */
  lemma TwiceAtTwoPositions(t: Table, i: nat, j: nat)
    requires i < j < |t| && t[i] == t[j]
    ensures multiset(t)[t[i]] >= 2
  {
    assert t == t[..j] + t[j..];
    assert t[i] == t[..j][i];
    assert t[j] == t[j..][0];
  }

  /** Reordering a table with unique codes keeps the codes unique. */
  lemma UniqueCodesPermutation(a: Table, b: Table)
    requires multiset(a) == multiset(b)
    requires UniqueCodes(a)
    ensures UniqueCodes(b)
  {
    forall i, j | 0 <= i < j < |b| ensures b[i].code != b[j].code {
      if b[i].code == b[j].code {
        assert b[i] in multiset(a) && b[j] in multiset(a);
        if b[i] == b[j] {
          TwiceAtTwoPositions(b, i, j);
          UniqueSongOccursOnce(a, b[i]);
        }
      }
    }
  }

  /** Reordering a table with unique codes changes no lookup. */
  lemma GetPermutation(a: Table, b: Table, c: string)
    requires multiset(a) == multiset(b)
    requires UniqueCodes(a)
    ensures Get(b, c) == Get(a, c)
  {
    UniqueCodesPermutation(a, b);
    GetIsMembership(a, c);
    GetIsMembership(b, c);
    if Get(a, c).Some? {
      assert Get(a, c).value in multiset(b);
      StoredSongIsFound(b, Get(a, c).value);
    } else if Get(b, c).Some? {
      assert Get(b, c).value in multiset(a);
      StoredSongIsFound(a, Get(b, c).value);
    }
  }

  // ---------------------------------------------------------------------------
  // The shape both CSV readers share: skip the header, turn each later line into
  // at most one song, put the songs into the map in line order.
  // ---------------------------------------------------------------------------

  /** The songs the data lines yield, in line order; line 0 is the header. */
  function DataRows(lines: seq<string>, row: string -> Option<Song>): seq<Song>
  {
    if |lines| <= 1 then []
    else
      DataRows(lines[..|lines| - 1], row) +
        (match row(lines[|lines| - 1]) case Some(s) => [s] case None => [])
  }

  /** A song is read exactly when some data line (index 1 or more) yields it. */
  lemma {:induction false} DataRowsOrigin(lines: seq<string>, row: string -> Option<Song>, s: Song)
    ensures s in DataRows(lines, row) <==> exists i :: 1 <= i < |lines| && row(lines[i]) == Some(s)
  {
    if |lines| > 1 {
      var p := lines[..|lines| - 1];
      DataRowsOrigin(p, row, s);
      if exists i :: 1 <= i < |lines| && row(lines[i]) == Some(s) {
        var i :| 1 <= i < |lines| && row(lines[i]) == Some(s);
        if i < |lines| - 1 {
          assert row(p[i]) == Some(s);
        }
      }
      if exists i :: 1 <= i < |p| && row(p[i]) == Some(s) {
        var i :| 1 <= i < |p| && row(p[i]) == Some(s);
        assert row(lines[i]) == Some(s);
      }
    }
  }

  /** The header line is skipped whatever it holds. */
  lemma {:induction false} HeaderIsIgnored(lines: seq<string>, row: string -> Option<Song>, header: string)
    requires |lines| >= 1
    ensures DataRows(lines[0 := header], row) == DataRows(lines, row)
  {
    if |lines| > 1 {
      HeaderIsIgnored(lines[..|lines| - 1], row, header);
      assert lines[0 := header][..|lines| - 1] == lines[..|lines| - 1][0 := header];
    }
  }
}
