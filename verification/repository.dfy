/** `SongRepository`: the merged catalog and the search over it. `reload` reads the
    local catalog and the YouTube catalog, merges them by code with local songs
    taking priority, and sorts the result for display; `searchSongs` ranks the
    songs matching a query in three buckets (code prefix, title, artist). */
module SongRepository {

  import opened Wrappers
  import opened Text
  import opened Songs
  import opened SongTable
  import opened Ordering
  import opened VideoStorage
  import LocalCsv
  import YouTubeCsv

  /** `MAX_SEARCH_RESULTS`. */
  const MaxSearchResults: nat := 200

  /** Kotlin `take(n)`. */
  function Take<T>(s: seq<T>, n: nat): (r: seq<T>)
    ensures |r| == if |s| <= n then |s| else n
    ensures r == s[..|r|]
  {
    if |s| <= n then s else s[..n]
  }

  // ---------------------------------------------------------------------------
  // Classifying songs against a query
  // ---------------------------------------------------------------------------

  /** `query.trim().lowercase().removeDiacritics()`. */
  function NormalizeQuery(query: string): (q: string)
    ensures |q| <= |query|
    ensures IsBlank(query) ==> q == ""
    ensures forall i :: 0 <= i < |q| ==> !IsCombiningMark(q[i])
  {
    RemoveDiacritics(Lower(Trim(query)))
  }

  /** The bucket a song falls in; the first test that succeeds decides. */
  datatype Bucket = CodeMatch | TitleMatch | ArtistMatch | NoMatch

  function Classify(s: Song, q: string): (b: Bucket)
    ensures b == CodeMatch <==> StartsWith(CodeLower(s), q)
    ensures b == TitleMatch <==> !StartsWith(CodeLower(s), q) && Contains(TitleNormalized(s), q)
    ensures b == ArtistMatch <==>
      !StartsWith(CodeLower(s), q) && !Contains(TitleNormalized(s), q) && Contains(ArtistNormalized(s), q)
    ensures b != NoMatch <==>
      StartsWith(CodeLower(s), q) || Contains(TitleNormalized(s), q) || Contains(ArtistNormalized(s), q)
  {
    if StartsWith(CodeLower(s), q) then CodeMatch
    else if Contains(TitleNormalized(s), q) then TitleMatch
    else if Contains(ArtistNormalized(s), q) then ArtistMatch
    else NoMatch
  }

  /** The buckets in terms of occurrences: a title or artist match has the query
      somewhere in that key, and a song matches nothing exactly when its code does not
      start with the query and neither key holds it anywhere. */
  lemma ClassifyByOccurrence(s: Song, q: string)
    ensures Classify(s, q) == TitleMatch ==> exists i :: OccursAt(TitleNormalized(s), q, i)
    ensures Classify(s, q) == ArtistMatch ==> exists i :: OccursAt(ArtistNormalized(s), q, i)
    ensures Classify(s, q) == NoMatch <==>
      && !StartsWith(CodeLower(s), q)
      && (forall i :: !OccursAt(TitleNormalized(s), q, i))
      && (forall i :: !OccursAt(ArtistNormalized(s), q, i))
  {
    ContainsIsOccurrence(TitleNormalized(s), q);
    ContainsIsOccurrence(ArtistNormalized(s), q);
  }

  /** Priority of a bucket in the result: code, then title, then artist. */
  function Rank(b: Bucket): nat {
    match b
    case CodeMatch => 0
    case TitleMatch => 1
    case ArtistMatch => 2
    case NoMatch => 3
  }

  /** `compareBy({ it.artistNormalized }, { it.titleNormalized })`. */
  function SearchKey(s: Song): SortKey {
    SortKey(ArtistNormalized(s), TitleNormalized(s))
  }

  /** The songs of `p` in bucket `b`, in their order in `p`. */
  function InBucket(p: seq<Song>, q: string, b: Bucket): seq<Song> {
    if |p| == 0 then []
    else InBucket(p[..|p| - 1], q, b) + (if Classify(p[|p| - 1], q) == b then [p[|p| - 1]] else [])
  }

  /** The songs of `p` that match the query at all, in order. */
  function Matching(p: seq<Song>, q: string): seq<Song> {
    if |p| == 0 then []
    else Matching(p[..|p| - 1], q) + (if Classify(p[|p| - 1], q) != NoMatch then [p[|p| - 1]] else [])
  }

  /** A bucket holds songs of `p` that the query puts in that bucket. */
  lemma {:induction false} InBucketMembers(p: seq<Song>, q: string, b: Bucket)
    ensures forall s :: s in InBucket(p, q, b) ==> s in p && Classify(s, q) == b
  {
    if |p| > 0 {
      InBucketMembers(p[..|p| - 1], q, b);
    }
  }

  /** The three buckets together hold exactly the matching songs. */
  lemma {:induction false} BucketsPartitionMatches(p: seq<Song>, q: string)
    ensures multiset(InBucket(p, q, CodeMatch)) + multiset(InBucket(p, q, TitleMatch))
      + multiset(InBucket(p, q, ArtistMatch)) == multiset(Matching(p, q))
  {
    if |p| > 0 {
      BucketsPartitionMatches(p[..|p| - 1], q);
    }
  }

  /** Looking at one more song adds at most one match. */
  lemma MatchingGrowsByOne(p: seq<Song>, q: string, k: nat)
    requires 0 < k <= |p|
    ensures |Matching(p[..k], q)| <= |Matching(p[..k - 1], q)| + 1
  {
    assert p[..k][..k - 1] == p[..k - 1];
  }

  /** A longer prefix has at least as many matches. */
  lemma {:induction false} MatchingMonotone(p: seq<Song>, q: string, k: nat)
    requires k <= |p|
    ensures |Matching(p[..k], q)| <= |Matching(p, q)|
  {
    if k < |p| {
      var init := p[..|p| - 1];
      MatchingMonotone(init, q, k);
      assert init[..k] == p[..k];
    } else {
      assert p[..k] == p;
    }
  }

  // ---------------------------------------------------------------------------
  // The scan with early termination
  // ---------------------------------------------------------------------------

  /** The first `k` from `from` on at which the first `k` songs hold the maximum
      number of matches, or all songs when none does. */
  function FullAt(songs: seq<Song>, q: string, from: nat): (n: nat)
    requires 1 <= from
    ensures from <= n || n == |songs|
    ensures n <= |songs|
    ensures n == |songs| || |Matching(songs[..n], q)| >= MaxSearchResults
    ensures forall k :: from <= k < n ==> |Matching(songs[..k], q)| < MaxSearchResults
    decreases |songs| - from
  {
    if from >= |songs| then |songs|
    else if |Matching(songs[..from], q)| >= MaxSearchResults then from
    else FullAt(songs, q, from + 1)
  }

  /** How many songs the loop looks at before it breaks: it stops right after the
      song that brings the buckets to the maximum, or at the end. */
  function ScannedCount(songs: seq<Song>, q: string): (n: nat)
    ensures n <= |songs|
    ensures n == |songs| || |Matching(songs[..n], q)| >= MaxSearchResults
    ensures forall k :: 1 <= k < n ==> |Matching(songs[..k], q)| < MaxSearchResults
  {
    FullAt(songs, q, 1)
  }

  /** The conditions of `ScannedCount` determine it. */
  lemma ScannedCountIs(songs: seq<Song>, q: string, i: nat)
    requires i <= |songs|
    requires i == |songs| || |Matching(songs[..i], q)| >= MaxSearchResults
    requires forall k :: 1 <= k < i ==> |Matching(songs[..k], q)| < MaxSearchResults
    ensures ScannedCount(songs, q) == i
  {
    var n := ScannedCount(songs, q);
    if i == 0 {
      assert songs[..0] == [];
    }
  }

  /** The scanned songs never hold more matches than the maximum: each song adds at
      most one, and the scan stops as soon as the maximum is reached. */
  lemma ScannedMatchesWithinLimit(songs: seq<Song>, q: string)
    ensures |Matching(songs[..ScannedCount(songs, q)], q)| <= MaxSearchResults
  {
    var n := ScannedCount(songs, q);
    if n > 0 {
      MatchingGrowsByOne(songs, q, n);
      if n == 1 {
        assert songs[..0] == [];
      }
    } else {
      assert songs[..0] == [];
    }
  }

  /** The three sorted buckets, one after the other. */
  function Ranked(p: seq<Song>, q: string): seq<Song> {
    SortBy(InBucket(p, q, CodeMatch), SearchKey)
      + SortBy(InBucket(p, q, TitleMatch), SearchKey)
      + SortBy(InBucket(p, q, ArtistMatch), SearchKey)
  }

  /** `searchSongs(query)` applied to one catalog snapshot. */
  function Search(songs: seq<Song>, query: string): (r: seq<Song>)
    ensures |r| <= MaxSearchResults
    ensures IsBlank(query) ==> |r| == (if |songs| <= MaxSearchResults then |songs| else MaxSearchResults) && r == songs[..|r|]
  {
    if IsBlank(query) then Take(songs, MaxSearchResults)
    else
      var q := NormalizeQuery(query);
      Take(Ranked(songs[..ScannedCount(songs, q)], q), MaxSearchResults)
  }

  /** Every bucket comes before the buckets of lower priority, and each bucket is in
      search-key order. */
  ghost predicate InRankOrder(r: seq<Song>, q: string) {
    forall i, j :: 0 <= i < j < |r| ==>
      && Rank(Classify(r[i], q)) <= Rank(Classify(r[j], q))
      && (Rank(Classify(r[i], q)) == Rank(Classify(r[j], q)) ==> KeyLe(SearchKey(r[i]), SearchKey(r[j])))
  }

  /** Three sorted runs whose songs have ranks 0, 1 and 2 form a ranked list. */
  lemma RunsInRankOrder(a: seq<Song>, b: seq<Song>, c: seq<Song>, q: string)
    requires Sorted(a, SearchKey) && Sorted(b, SearchKey) && Sorted(c, SearchKey)
    requires forall i :: 0 <= i < |a| ==> Rank(Classify(a[i], q)) == 0
    requires forall i :: 0 <= i < |b| ==> Rank(Classify(b[i], q)) == 1
    requires forall i :: 0 <= i < |c| ==> Rank(Classify(c[i], q)) == 2
    ensures InRankOrder(a + b + c, q)
  {
    var r := a + b + c;
    forall i, j | 0 <= i < j < |r|
      ensures Rank(Classify(r[i], q)) <= Rank(Classify(r[j], q))
      ensures Rank(Classify(r[i], q)) == Rank(Classify(r[j], q)) ==> KeyLe(SearchKey(r[i]), SearchKey(r[j]))
    {
      var na := |a|;
      var nb := |a| + |b|;
      if j < na {
        assert r[i] == a[i] && r[j] == a[j];
      } else if i >= nb {
        assert r[i] == c[i - nb] && r[j] == c[j - nb];
      } else if na <= i && j < nb {
        assert r[i] == b[i - na] && r[j] == b[j - na];
      } else {
        if i < na {
          assert r[i] == a[i];
        } else {
          assert r[i] == b[i - na];
        }
        if j < nb {
          assert r[j] == b[j - na];
        } else {
          assert r[j] == c[j - nb];
        }
      }
    }
  }

  /** A sorted bucket holds the bucket's songs, so all of them have its rank. */
  lemma SortedBucketRank(p: seq<Song>, q: string, b: Bucket, sorted: seq<Song>)
    requires multiset(sorted) == multiset(InBucket(p, q, b))
    ensures forall i :: 0 <= i < |sorted| ==> Rank(Classify(sorted[i], q)) == Rank(b)
    ensures forall s :: s in sorted ==> s in p
  {
    InBucketMembers(p, q, b);
    forall i | 0 <= i < |sorted| ensures Rank(Classify(sorted[i], q)) == Rank(b) {
      assert sorted[i] in multiset(InBucket(p, q, b));
    }
    forall s | s in sorted ensures s in p {
      assert s in multiset(InBucket(p, q, b));
    }
  }

  /** The ranked list holds exactly the matching songs, in rank order. */
  lemma RankedIsOrderedMatches(p: seq<Song>, q: string)
    ensures InRankOrder(Ranked(p, q), q)
    ensures multiset(Ranked(p, q)) == multiset(Matching(p, q))
    ensures forall s :: s in Ranked(p, q) ==> s in p && Classify(s, q) != NoMatch
  {
    var a := SortBy(InBucket(p, q, CodeMatch), SearchKey);
    var b := SortBy(InBucket(p, q, TitleMatch), SearchKey);
    var c := SortBy(InBucket(p, q, ArtistMatch), SearchKey);
    SortedBucketRank(p, q, CodeMatch, a);
    SortedBucketRank(p, q, TitleMatch, b);
    SortedBucketRank(p, q, ArtistMatch, c);
    RunsInRankOrder(a, b, c, q);
    BucketsPartitionMatches(p, q);
    RunsAreMatches(a, b, c, p, q);
  }

  lemma RunsAreMatches(a: seq<Song>, b: seq<Song>, c: seq<Song>, p: seq<Song>, q: string)
    requires forall i :: 0 <= i < |a| ==> Rank(Classify(a[i], q)) == 0
    requires forall i :: 0 <= i < |b| ==> Rank(Classify(b[i], q)) == 1
    requires forall i :: 0 <= i < |c| ==> Rank(Classify(c[i], q)) == 2
    requires forall s :: s in a || s in b || s in c ==> s in p
    ensures forall s :: s in a + b + c ==> s in p && Classify(s, q) != NoMatch
  {
  }

  /** The final `take` never shortens the ranked list: the scan stopped in time. */
  lemma SearchTakesAllScanned(songs: seq<Song>, query: string)
    requires !IsBlank(query)
    ensures var q := NormalizeQuery(query);
      Search(songs, query) == Ranked(songs[..ScannedCount(songs, q)], q)
  {
    var q := NormalizeQuery(query);
    var p := songs[..ScannedCount(songs, q)];
    var r := Ranked(p, q);
    ScannedMatchesWithinLimit(songs, q);
    RankedIsOrderedMatches(p, q);
    assert |r| == |Matching(p, q)| by {
      assert |multiset(r)| == |multiset(Matching(p, q))|;
    }
    assert Search(songs, query) == Take(r, MaxSearchResults);
  }

  /** The three buckets together are as long as the list of matches. */
  lemma {:induction false} BucketSizes(p: seq<Song>, q: string)
    ensures |InBucket(p, q, CodeMatch)| + |InBucket(p, q, TitleMatch)| + |InBucket(p, q, ArtistMatch)|
      == |Matching(p, q)|
  {
    if |p| > 0 {
      BucketSizes(p[..|p| - 1], q);
    }
  }

  /** What a search returns: at most 200 songs; for a blank query the first 200 of
      the catalog, otherwise matching songs only, in rank order. */
  lemma SearchIsRankedMatches(songs: seq<Song>, query: string)
    ensures |Search(songs, query)| <= MaxSearchResults
    ensures IsBlank(query) ==> Search(songs, query) == Take(songs, MaxSearchResults)
    ensures !IsBlank(query) ==>
      forall s :: s in Search(songs, query) ==> s in songs && Classify(s, NormalizeQuery(query)) != NoMatch
    ensures !IsBlank(query) ==> InRankOrder(Search(songs, query), NormalizeQuery(query))
  {
    if !IsBlank(query) {
      var q := NormalizeQuery(query);
      var p := songs[..ScannedCount(songs, q)];
      SearchTakesAllScanned(songs, query);
      RankedIsOrderedMatches(p, q);
      assert forall s :: s in p ==> s in songs;
    }
  }

  /** None of the first `n` prefixes (from one song on) reaches the maximum. */
  ghost predicate BelowLimitUpTo(songs: seq<Song>, q: string, n: nat)
    requires n <= |songs|
  {
    forall k :: 1 <= k <= n ==> |Matching(songs[..k], q)| < MaxSearchResults
  }

  lemma BelowLimitExtend(songs: seq<Song>, q: string, n: nat)
    requires n < |songs|
    requires BelowLimitUpTo(songs, q, n)
    requires |Matching(songs[..n + 1], q)| < MaxSearchResults
    ensures BelowLimitUpTo(songs, q, n + 1)
  {
  }

  /** One more song, as the buckets and the count of matches see it. */
  lemma PrefixStep(songs: seq<Song>, q: string, i: nat)
    requires i < |songs|
    ensures forall b :: (InBucket(songs[..i + 1], q, b) ==
      InBucket(songs[..i], q, b) + (if Classify(songs[i], q) == b then [songs[i]] else []))
    ensures |InBucket(songs[..i + 1], q, CodeMatch)| + |InBucket(songs[..i + 1], q, TitleMatch)|
      + |InBucket(songs[..i + 1], q, ArtistMatch)| == |Matching(songs[..i + 1], q)|
  {
    assert songs[..i + 1][..i] == songs[..i];
    BucketSizes(songs[..i + 1], q);
  }

  /** The `when` of the loop body: the song goes to the first bucket whose test
      succeeds, or nowhere. */
  method AddToBucket(song: Song, q: string, codes: seq<Song>, titles: seq<Song>, artists: seq<Song>)
    returns (codes': seq<Song>, titles': seq<Song>, artists': seq<Song>)
    ensures codes' == codes + (if Classify(song, q) == CodeMatch then [song] else [])
    ensures titles' == titles + (if Classify(song, q) == TitleMatch then [song] else [])
    ensures artists' == artists + (if Classify(song, q) == ArtistMatch then [song] else [])
    ensures StartsWith(CodeLower(song), q) ==> codes' == codes + [song] && titles' == titles && artists' == artists
    ensures !StartsWith(CodeLower(song), q) && Contains(TitleNormalized(song), q) ==>
      codes' == codes && titles' == titles + [song] && artists' == artists
  {
    codes', titles', artists' := codes, titles, artists;
    if StartsWith(CodeLower(song), q) {
      codes' := codes + [song];
    } else if Contains(TitleNormalized(song), q) {
      titles' := titles + [song];
    } else if Contains(ArtistNormalized(song), q) {
      artists' := artists + [song];
    }
  }

  /** One pass of the loop body: the song joins its bucket, and the loop is to
      stop when the buckets now hold 200 songs together. */
  method ScanStep(songs: seq<Song>, q: string, i: nat,
                  codeMatches: seq<Song>, titleMatches: seq<Song>, artistMatches: seq<Song>)
    returns (codeMatches': seq<Song>, titleMatches': seq<Song>, artistMatches': seq<Song>, full: bool)
    requires i < |songs|
    requires codeMatches == InBucket(songs[..i], q, CodeMatch)
    requires titleMatches == InBucket(songs[..i], q, TitleMatch)
    requires artistMatches == InBucket(songs[..i], q, ArtistMatch)
    requires BelowLimitUpTo(songs, q, i)
    ensures codeMatches' == InBucket(songs[..i + 1], q, CodeMatch)
    ensures titleMatches' == InBucket(songs[..i + 1], q, TitleMatch)
    ensures artistMatches' == InBucket(songs[..i + 1], q, ArtistMatch)
    ensures full <==> |Matching(songs[..i + 1], q)| >= MaxSearchResults
    ensures !full ==> BelowLimitUpTo(songs, q, i + 1)
  {
    PrefixStep(songs, q, i);
    codeMatches', titleMatches', artistMatches' :=
      AddToBucket(songs[i], q, codeMatches, titleMatches, artistMatches);
    full := |codeMatches'| + |titleMatches'| + |artistMatches'| >= MaxSearchResults;
    if !full {
      BelowLimitExtend(songs, q, i);
    }
  }

  /** The `for` loop of `searchSongs` with its early `break`: it fills the three
      buckets from the songs it looks at, and looks at exactly the songs up to the
      one that brings the buckets to 200 matches together. */
  method ScanBuckets(songs: seq<Song>, q: string)
    returns (codeMatches: seq<Song>, titleMatches: seq<Song>, artistMatches: seq<Song>, scanned: nat)
    ensures scanned == ScannedCount(songs, q)
    ensures codeMatches == InBucket(songs[..scanned], q, CodeMatch)
    ensures titleMatches == InBucket(songs[..scanned], q, TitleMatch)
    ensures artistMatches == InBucket(songs[..scanned], q, ArtistMatch)
  {
    codeMatches, titleMatches, artistMatches := [], [], [];
    var i := 0;
    while i < |songs|
      invariant 0 <= i <= |songs|
      invariant codeMatches == InBucket(songs[..i], q, CodeMatch)
      invariant titleMatches == InBucket(songs[..i], q, TitleMatch)
      invariant artistMatches == InBucket(songs[..i], q, ArtistMatch)
      invariant BelowLimitUpTo(songs, q, i)
    {
      var full;
      codeMatches, titleMatches, artistMatches, full :=
        ScanStep(songs, q, i, codeMatches, titleMatches, artistMatches);
      i := i + 1;
      if full {
        break;
      }
    }
    ScannedCountIs(songs, q, i);
    scanned := i;
  }

  /** `searchSongs(query)` on one snapshot. A blank query gives the first 200
      songs. Otherwise the result holds matching songs only, code-prefix matches
      first, then title matches, then artist matches, each group in (artist,
      title) order, and at most 200 of them. */
  method SearchSongs(songs: seq<Song>, query: string) returns (result: seq<Song>)
    ensures result == Search(songs, query)
    ensures |result| <= MaxSearchResults
    ensures IsBlank(query) ==> result == Take(songs, MaxSearchResults)
    ensures !IsBlank(query) ==>
      forall s :: s in result ==> s in songs && Classify(s, NormalizeQuery(query)) != NoMatch
    ensures !IsBlank(query) ==> InRankOrder(result, NormalizeQuery(query))
  {
    SearchIsRankedMatches(songs, query);
    if IsBlank(query) {
      return Take(songs, MaxSearchResults);
    }
    var q := NormalizeQuery(query);
    var codeMatches, titleMatches, artistMatches, scanned := ScanBuckets(songs, q);
    result := Take(SortBy(codeMatches, SearchKey) + SortBy(titleMatches, SearchKey)
      + SortBy(artistMatches, SearchKey), MaxSearchResults);
  }

  /** Below the limit nothing is lost: when fewer than 200 songs match, the whole
      catalog is scanned and the result holds every matching song. */
  lemma SearchCompleteBelowLimit(songs: seq<Song>, query: string)
    requires !IsBlank(query)
    requires |Matching(songs, NormalizeQuery(query))| < MaxSearchResults
    ensures multiset(Search(songs, query)) == multiset(Matching(songs, NormalizeQuery(query)))
  {
    var q := NormalizeQuery(query);
    forall k | 1 <= k <= |songs| ensures |Matching(songs[..k], q)| < MaxSearchResults {
      MatchingMonotone(songs, q, k);
    }
    ScannedCountIs(songs, q, |songs|);
    assert songs[..|songs|] == songs;
    SearchTakesAllScanned(songs, query);
    RankedIsOrderedMatches(songs, q);
  }

  /** The result is always a permutation of the matches among the scanned songs. */
  lemma SearchIsScannedMatches(songs: seq<Song>, query: string)
    requires !IsBlank(query)
    ensures var q := NormalizeQuery(query);
      multiset(Search(songs, query)) == multiset(Matching(songs[..ScannedCount(songs, q)], q))
  {
    var q := NormalizeQuery(query);
    SearchTakesAllScanned(songs, query);
    RankedIsOrderedMatches(songs[..ScannedCount(songs, q)], q);
  }

  /** A song matches at all exactly when it lies in one of the three buckets. */
  lemma {:induction false} MatchingMembers(p: seq<Song>, q: string, s: Song)
    ensures s in Matching(p, q) <==> s in p && Classify(s, q) != NoMatch
  {
    if |p| > 0 {
      var init := p[..|p| - 1];
      MatchingMembers(init, q, s);
      assert p == init + [p[|p| - 1]];
    }
  }

  // ---------------------------------------------------------------------------
  // The search the ranking promises: full scan, then truncation
  // ---------------------------------------------------------------------------

  /** Rank every match, then truncate: the search without the early break. It ranks
      every matching song of the catalog, then keeps the first 200. */
  function FullSearch(songs: seq<Song>, query: string): (r: seq<Song>)
    ensures |r| <= MaxSearchResults
    ensures IsBlank(query) ==> |r| == (if |songs| <= MaxSearchResults then |songs| else MaxSearchResults) && r == songs[..|r|]
  {
    if IsBlank(query) then Take(songs, MaxSearchResults)
    else
      Take(Ranked(songs, NormalizeQuery(query)), MaxSearchResults)
  }

  /** Cutting a ranked list after 200 songs keeps songs that rank no lower than
      any song cut off. */
  lemma TakeKeepsBest(r: seq<Song>, q: string, j: nat)
    requires InRankOrder(r, q)
    requires MaxSearchResults <= j < |r|
    ensures |Take(r, MaxSearchResults)| == MaxSearchResults
    ensures forall x :: x in Take(r, MaxSearchResults) ==> Rank(Classify(x, q)) <= Rank(Classify(r[j], q))
  {
    var f := Take(r, MaxSearchResults);
    forall x | x in f ensures Rank(Classify(x, q)) <= Rank(Classify(r[j], q)) {
      var i :| 0 <= i < |f| && f[i] == x;
      assert r[i] == x;
    }
  }

  /** Cutting the ranked matches after 200 songs leaves a matching song out only
      when it ranks no higher than every kept song. */
  lemma RankedKeepsBest(p: seq<Song>, q: string, s: Song)
    requires s in p && Classify(s, q) != NoMatch
    requires s !in Take(Ranked(p, q), MaxSearchResults)
    ensures |Take(Ranked(p, q), MaxSearchResults)| == MaxSearchResults
    ensures forall x :: x in Take(Ranked(p, q), MaxSearchResults) ==> Rank(Classify(x, q)) <= Rank(Classify(s, q))
  {
    RankedIsOrderedMatches(p, q);
    MatchingMembers(p, q, s);
    assert s in multiset(Ranked(p, q));
    CutOffKeepsBest(Ranked(p, q), q, s);
  }

  /** In a ranked list, a song cut off by the truncation ranks no higher than every
      kept song. */
  lemma CutOffKeepsBest(r: seq<Song>, q: string, s: Song)
    requires InRankOrder(r, q)
    requires s in r && s !in Take(r, MaxSearchResults)
    ensures |Take(r, MaxSearchResults)| == MaxSearchResults
    ensures forall x :: x in Take(r, MaxSearchResults) ==> Rank(Classify(x, q)) <= Rank(Classify(s, q))
  {
    var j :| 0 <= j < |r| && r[j] == s;
    CutOffPosition(r, MaxSearchResults, j);
    TakeKeepsBest(r, q, j);
  }

  /** An element missing from the first `n` sits at position `n` or later. */
  lemma CutOffPosition<T>(r: seq<T>, n: nat, j: nat)
    requires j < |r| && r[j] !in Take(r, n)
    ensures n <= j
  {
  }

  /** The full search keeps the best matches: a matching song is left out only when
      200 songs are returned, none of which ranks below it. */
  lemma FullSearchKeepsBest(songs: seq<Song>, query: string, s: Song)
    requires !IsBlank(query)
    requires s in songs && Classify(s, NormalizeQuery(query)) != NoMatch
    requires s !in FullSearch(songs, query)
    ensures |FullSearch(songs, query)| == MaxSearchResults
    ensures forall x :: x in FullSearch(songs, query) ==>
      Rank(Classify(x, NormalizeQuery(query))) <= Rank(Classify(s, NormalizeQuery(query)))
  {
    RankedKeepsBest(songs, NormalizeQuery(query), s);
  }

  /** The full search returns matching songs of the catalog only. */
  lemma FullSearchMembers(songs: seq<Song>, query: string)
    requires !IsBlank(query)
    ensures forall s :: s in FullSearch(songs, query) ==> s in songs && Classify(s, NormalizeQuery(query)) != NoMatch
  {
    var q := NormalizeQuery(query);
    RankedIsOrderedMatches(songs, q);
  }

  /** The full search returns matching songs only, in rank order. */
  lemma FullSearchIsRankedMatches(songs: seq<Song>, query: string)
    requires !IsBlank(query)
    ensures forall s :: s in FullSearch(songs, query) ==> s in songs && Classify(s, NormalizeQuery(query)) != NoMatch
    ensures InRankOrder(FullSearch(songs, query), NormalizeQuery(query))
  {
    FullSearchMembers(songs, query);
    var q := NormalizeQuery(query);
    RankedIsOrderedMatches(songs, q);
    InRankOrderPrefix(Ranked(songs, q), q, MaxSearchResults);
  }

  lemma InRankOrderPrefix(r: seq<Song>, q: string, n: nat)
    requires InRankOrder(r, q)
    ensures InRankOrder(Take(r, n), q)
  {
  }

  /** Below the limit the early stop changes nothing: the loop's result is the full
      search's. */
  lemma SearchAgreesBelowLimit(songs: seq<Song>, query: string)
    requires |Matching(songs, NormalizeQuery(query))| < MaxSearchResults
    ensures Search(songs, query) == FullSearch(songs, query)
  {
    if !IsBlank(query) {
      var q := NormalizeQuery(query);
      forall k | 1 <= k <= |songs| ensures |Matching(songs[..k], q)| < MaxSearchResults {
        MatchingMonotone(songs, q, k);
      }
      ScannedCountIs(songs, q, |songs|);
      assert songs[..|songs|] == songs;
    }
  }

  /** When each of the first `k` songs matches, the first `k` songs hold `k` matches. */
  lemma {:induction false} MatchRunCount(songs: seq<Song>, q: string, k: nat)
    requires k <= |songs|
    requires forall i :: 0 <= i < k ==> Classify(songs[i], q) != NoMatch
    ensures |Matching(songs[..k], q)| == k
  {
    if k > 0 {
      MatchRunCount(songs, q, k - 1);
      assert songs[..k][..k - 1] == songs[..k - 1];
    }
  }

  /** When the first 200 songs all match, the loop stops after the 200th. */
  lemma MatchRunStopsScan(songs: seq<Song>, q: string)
    requires |songs| >= MaxSearchResults
    requires forall i :: 0 <= i < MaxSearchResults ==> Classify(songs[i], q) != NoMatch
    ensures ScannedCount(songs, q) == MaxSearchResults
  {
    forall k | 1 <= k < MaxSearchResults ensures |Matching(songs[..k], q)| < MaxSearchResults {
      MatchRunCount(songs, q, k);
    }
    MatchRunCount(songs, q, MaxSearchResults);
    ScannedCountIs(songs, q, MaxSearchResults);
  }

  /** A song that only the unscanned rest of the catalog holds is not returned. */
  lemma UnscannedSongIsMissing(songs: seq<Song>, query: string, x: Song)
    requires !IsBlank(query)
    requires x !in songs[..ScannedCount(songs, NormalizeQuery(query))]
    ensures x !in Search(songs, query)
  {
    var q := NormalizeQuery(query);
    var p := songs[..ScannedCount(songs, q)];
    MatchingMembers(p, q, x);
    SearchIsScannedMatches(songs, query);
    NotInPermutation(Matching(p, q), Search(songs, query), x);
  }

  lemma NotInPermutation<T>(a: seq<T>, b: seq<T>, x: T)
    requires multiset(a) == multiset(b)
    requires x !in a
    ensures x !in b
  {
    assert x !in multiset(a);
  }

  /** A non-empty list of code matches drawn from a catalog with a single code
      match holds that match. */
  lemma OnlyCodeMatchLeads(f: seq<Song>, songs: seq<Song>, q: string, c: Song)
    requires |f| > 0
    requires forall x :: x in f ==> x in songs && Rank(Classify(x, q)) <= 0
    requires forall x :: x in songs && Classify(x, q) == CodeMatch ==> x == c
    ensures c in f
  {
    assert f[0] in f;
  }

  /** The only code match of a catalog is in the full search. */
  lemma SoleCodeMatchIsFound(songs: seq<Song>, query: string, c: Song)
    requires !IsBlank(query)
    requires c in songs && Classify(c, NormalizeQuery(query)) == CodeMatch
    requires forall x :: x in songs && Classify(x, NormalizeQuery(query)) == CodeMatch ==> x == c
    ensures c in FullSearch(songs, query)
  {
    var q := NormalizeQuery(query);
    var f := FullSearch(songs, query);
    if c !in f {
      FullSearchKeepsBest(songs, query, c);
      FullSearchMembers(songs, query);
      OnlyCodeMatchLeads(f, songs, q, c);
    }
  }

  /** The early stop loses a code match: when the first 200 songs of a catalog all
      match, the loop stops there, so the catalog's only code-prefix match, placed
      further down, is missing from the result, although the full search returns it. */
  lemma EarlyStopDropsCodeMatch(songs: seq<Song>, query: string, c: Song)
    requires !IsBlank(query)
    requires |songs| >= MaxSearchResults
    requires forall i :: 0 <= i < MaxSearchResults ==> Classify(songs[i], NormalizeQuery(query)) != NoMatch
    requires c in songs && c !in songs[..MaxSearchResults]
    requires Classify(c, NormalizeQuery(query)) == CodeMatch
    requires forall x :: x in songs && Classify(x, NormalizeQuery(query)) == CodeMatch ==> x == c
    ensures c !in Search(songs, query)
    ensures c in FullSearch(songs, query)
  {
    MatchRunStopsScan(songs, NormalizeQuery(query));
    UnscannedSongIsMissing(songs, query, c);
    SoleCodeMatchIsFound(songs, query, c);
  }

  /** `n` twos: distinct codes for distinct `n`, none starting with "1". */
  function Twos(n: nat): (r: string)
    ensures |r| == n && forall i :: 0 <= i < n ==> r[i] == '2'
  {
    seq(n, _ => '2')
  }

  /** The `i`-th song of the example catalog: by "a", titled "1", with code `i + 1` twos. */
  function TitleSong(i: nat): Song {
    LocalSong(Twos(i + 1), Twos(i + 1) + ".mp4", "a", "1")
  }

  /** The song the example loses: by "b", untitled, with code "1". */
  function CodeSong(): Song {
    LocalSong("1", "1.mp4", "b", "")
  }

  /** A catalog `reload` can publish, showing the loss: 200 title matches by "a" with
      distinct codes, then the code match by "b". Its codes are unique and it is in
      display order, which `Reload` guarantees of every catalog it publishes. */
  function EarlyStopCatalog(): (songs: seq<Song>)
    ensures |songs| == MaxSearchResults + 1
    ensures forall i :: 0 <= i < MaxSearchResults ==> songs[i] == TitleSong(i)
    ensures songs[MaxSearchResults] == CodeSong()
  {
    seq(MaxSearchResults, i requires 0 <= i < MaxSearchResults => TitleSong(i)) + [CodeSong()]
  }

  /** How the query "1" classifies the songs of the example. */
  lemma ExampleSongsClassify(i: nat)
    ensures NormalizeQuery("1") == "1"
    ensures Classify(TitleSong(i), "1") == TitleMatch
    ensures Classify(CodeSong(), "1") == CodeMatch
  {
    assert "1"[..0] == "";
    assert Trim("1") == "1";
    assert Lower("1") == "1";
    assert RemoveDiacritics("1") == "1";
    assert StartsWith("1", "1");
    assert CodeLower(TitleSong(i))[0] == '2';
    assert Lower("1") == "1";
    assert TitleNormalized(TitleSong(i)) == "1";
  }

  /** The example catalog has unique codes and is sorted by lower-case artist and
      title: the two invariants of a published catalog. */
  lemma EarlyStopCatalogIsPublishable()
    ensures UniqueCodes(EarlyStopCatalog())
    ensures Sorted(EarlyStopCatalog(), DisplayKey)
  {
    var songs := EarlyStopCatalog();
    forall i, j | 0 <= i < j < |songs| ensures songs[i].code != songs[j].code {
      if j == MaxSearchResults {
        assert songs[i].code[0] == '2';
      } else {
        assert |songs[i].code| != |songs[j].code|;
      }
    }
    assert Lower("a") == "a" && Lower("1") == "1" && Lower("b") == "b" && Lower("") == "";
    assert KeyLe(SortKey("a", "1"), SortKey("a", "1")) by {
      KeyLeRefl(SortKey("a", "1"));
    }
    assert KeyLe(SortKey("a", "1"), SortKey("b", ""));
    forall i, j | 0 <= i < j < |songs| ensures KeyLe(DisplayKey(songs[i]), DisplayKey(songs[j])) {
      assert DisplayKey(songs[i]) == SortKey("a", "1");
    }
  }

  /** The first 200 songs of the example are title matches, none of them the code
      song, and the code song is the catalog's only code match. */
  lemma EarlyStopCatalogMatches()
    ensures forall i :: 0 <= i < MaxSearchResults ==> Classify(EarlyStopCatalog()[i], "1") == TitleMatch
    ensures CodeSong() !in EarlyStopCatalog()[..MaxSearchResults]
    ensures forall x :: x in EarlyStopCatalog() && Classify(x, "1") == CodeMatch ==> x == CodeSong()
  {
    var songs := EarlyStopCatalog();
    forall i | 0 <= i < MaxSearchResults ensures Classify(songs[i], "1") == TitleMatch {
      ExampleSongsClassify(i);
    }
    forall k | 0 <= k < MaxSearchResults ensures songs[..MaxSearchResults][k] != CodeSong() {
      assert songs[k].code[0] == '2';
    }
    forall x | x in songs && Classify(x, "1") == CodeMatch ensures x == CodeSong() {
      var k :| 0 <= k < |songs| && songs[k] == x;
      if k < MaxSearchResults {
        assert false;
      }
    }
  }

  /** The concrete loss: on the example catalog the query "1" does not return the song
      with code "1", while the full search does. */
  lemma EarlyStopExample()
    ensures UniqueCodes(EarlyStopCatalog()) && Sorted(EarlyStopCatalog(), DisplayKey)
    ensures CodeSong() in EarlyStopCatalog()
    ensures CodeSong() !in Search(EarlyStopCatalog(), "1")
    ensures CodeSong() in FullSearch(EarlyStopCatalog(), "1")
  {
    EarlyStopCatalogIsPublishable();
    EarlyStopCatalogMatches();
    ExampleSongsClassify(0);
    assert !IsBlank("1") by {
      assert !IsWhitespace("1"[0]);
    }
    assert EarlyStopCatalog()[MaxSearchResults] == CodeSong();
    EarlyStopDropsCodeMatch(EarlyStopCatalog(), "1", CodeSong());
  }

  /** Diacritics in the catalog do not hide a song: "P\U{E3}o" is found by "pao". */
  lemma DiacriticsAreIgnored()
    ensures Classify(LocalSong("9", "9.mp4", "", "P\U{E3}o"), NormalizeQuery("pao")) == TitleMatch
  {
    NormalizedQueryExample();
    NormalizedTitleExample();
    assert Lower("9") == "9";
  }

  /** A query of lower-case ASCII letters and punctuation after 'Z' is already
      normalized. */
  lemma LowerAsciiQueryIsNormal(s: string)
    requires forall i :: 0 <= i < |s| ==> 'Z' < s[i] < '\U{80}'
    ensures NormalizeQuery(s) == s
  {
    assert TrimStart(s) == s;
    assert TrimEnd(s) == s;
    LowerKeepsLowerAscii(s);
    RemoveDiacriticsKeepsAscii(s);
  }

  lemma NormalizedQueryExample()
    ensures NormalizeQuery("pao") == "pao"
  {
    LowerAsciiQueryIsNormal("pao");
  }

  lemma NormalizedTitleExample()
    ensures TitleNormalized(LocalSong("9", "9.mp4", "", "P\U{E3}o")) == "pao"
  {
    var l := Lower("P\U{E3}o");
    assert l[0] == 'p' && l[1] == '\U{E3}' && l[2] == 'o';
    assert l == "p\U{E3}o";
    assert RemoveDiacritics("p") == "p" by {
      RemoveDiacriticsKeepsAscii("p");
    }
    assert l[..2] == "p\U{E3}";
    assert l[..2][..1] == "p";
    assert RemoveDiacritics(l[..2]) == "pa";
  }

  // ---------------------------------------------------------------------------
  // reload: read both catalogs, merge them, sort for display
  // ---------------------------------------------------------------------------

  /** The error recorded when there is nowhere to read the local catalog from. */
  const NoLocalSourceError: string := "No video source configured"

  /** Where `reload` reads the local catalog: the picked folder when one is
      persisted, else the directory of the test folder or USB stick, else nowhere.
      A failed read of the picked folder is not retried on the directory. */
  function LocalRead(env: Environment): (r: Option<Result<seq<Song>>>)
    ensures HasPersistedFolder(env) ==> r == Some(LocalCsv.ReadFromDocumentFolder(env.tree))
    ensures !HasPersistedFolder(env) && GetVideoSourceDirectory(env).Some? ==>
      r == Some(LocalCsv.ReadFromDirectory(GetVideoSourceDirectory(env).value))
    ensures r.None? <==>
      !HasPersistedFolder(env) && !IsTestFolderAvailable(env) && !IsUsbStorageAvailable(env)
  {
    match GetPersistedTreeUri(env)
    case Some(_) => Some(LocalCsv.ReadFromDocumentFolder(env.tree))
    case None =>
      match GetVideoSourceDirectory(env)
      case Some(dir) => Some(LocalCsv.ReadFromDirectory(dir))
      case None => None
  }

  /** What `reload` keeps of one source: its songs, and its error message, which is
      `null` both on success and for an exception without a message. */
  datatype SourceOutcome = SourceOutcome(songs: seq<Song>, error: Option<string>)

  /** The `fold` of a source's result. */
  function Outcome(r: Result<seq<Song>>): (o: SourceOutcome)
    ensures r.Success? ==> o.songs == r.value && o.error.None?
    ensures r.Failure? ==> o.songs == [] && o.error == r.message
  {
    match r
    case Success(songs) => SourceOutcome(songs, None)
    case Failure(m) => SourceOutcome([], m)
  }

  function LocalOutcome(env: Environment): SourceOutcome {
    match LocalRead(env)
    case Some(r) => Outcome(r)
    case None => SourceOutcome([], Some(NoLocalSourceError))
  }

  function YouTubeOutcome(listing: YouTubeCsv.Listing): SourceOutcome {
    Outcome(YouTubeCsv.LoadSongs(listing))
  }

  /** A code is among a list's codes exactly when the list has a last song with it. */
  lemma LastWithCodeIsMembership(songs: seq<Song>, c: string)
    ensures LastWithCode(songs, c).Some? <==> c in Codes(songs)
  {
    if c in Codes(songs) {
      var x :| x in songs && x.code == c;
      var k :| 0 <= k < |songs| && songs[k] == x;
    }
  }

  /** The last song with a code in `a ++ b` is the last one in `b`, if `b` has one. */
  lemma {:induction false} LastWithCodeConcat(a: seq<Song>, b: seq<Song>, c: string)
    ensures LastWithCode(a + b, c) ==
      (if LastWithCode(b, c).Some? then LastWithCode(b, c) else LastWithCode(a, c))
  {
    if |b| == 0 {
      assert a + b == a;
    } else {
      assert (a + b)[..|a + b| - 1] == a + b[..|b| - 1];
      LastWithCodeConcat(a, b[..|b| - 1], c);
    }
  }

  /** `(youtube + local).associateBy { it.code }.values`: one song per code of
      either catalog, and the local song wherever both have the code, in the order
      in which the codes first appear in `youtube + local`. */
  function MergeCatalogs(youtube: seq<Song>, local: seq<Song>): (t: Table)
    ensures UniqueCodes(t)
    ensures Codes(t) == Codes(youtube) + Codes(local)
    ensures forall c :: c in Codes(local) ==> Get(t, c) == LastWithCode(local, c)
    ensures forall c :: c !in Codes(local) ==> Get(t, c) == LastWithCode(youtube, c)
    ensures CodeList(t) == FirstAppearances({}, youtube + local)
  {
    var t := PutAll([], youtube + local);
    PutAllUnique([], youtube + local);
    PutAllCodes([], youtube + local);
    PutAllOrderFromEmpty(youtube + local);
    assert Codes([]) == {};
    assert Codes(youtube + local) == Codes(youtube) + Codes(local) by {
      assert forall x :: x in youtube + local <==> x in youtube || x in local;
    }
    forall c ensures Get(t, c) == (if c in Codes(local) then LastWithCode(local, c) else LastWithCode(youtube, c)) {
      PutAllLastWins([], youtube + local, c);
      LastWithCodeConcat(youtube, local, c);
      LastWithCodeIsMembership(local, c);
      LastWithCodeIsMembership(youtube, c);
    }
    t
  }

  /** `compareBy({ it.artist.lowercase() }, { it.title.lowercase() })`. */
  function DisplayKey(s: Song): SortKey {
    SortKey(Lower(s.artist), Lower(s.title))
  }

  /** Reordering does not change the set of codes. */
  lemma CodesPermutation(a: Table, b: Table)
    requires multiset(a) == multiset(b)
    ensures Codes(a) == Codes(b)
  {
    forall x ensures x in a <==> x in b {
      assert x in a <==> x in multiset(a);
      assert x in b <==> x in multiset(b);
    }
  }

  /** The catalog `reload` publishes, and the error it returns. */
  datatype ReloadResult = ReloadResult(songs: seq<Song>, error: Option<string>)

  /** `reload()`, given the storage environment and what the YouTube repository
      listing returns. The new catalog is the merge of both sources sorted by
      lower-case artist and title, published even when empty (songs with equal
      keys keep their merged order, since `sortedWith` is stable); the error is `null`
      unless the catalog is empty, and is then the non-null error messages of the
      two sources joined with "; ". */
  function Reload(env: Environment, listing: YouTubeCsv.Listing): (r: ReloadResult)
    ensures Sorted(r.songs, DisplayKey)
    ensures var merged := MergeCatalogs(YouTubeOutcome(listing).songs, LocalOutcome(env).songs);
      forall k :: WithKey(r.songs, DisplayKey, k) == WithKey(merged, DisplayKey, k)
    ensures UniqueCodes(r.songs)
    ensures Codes(r.songs) == Codes(YouTubeOutcome(listing).songs) + Codes(LocalOutcome(env).songs)
    ensures forall c :: c in Codes(LocalOutcome(env).songs) ==>
      Get(r.songs, c) == LastWithCode(LocalOutcome(env).songs, c)
    ensures forall c :: c !in Codes(LocalOutcome(env).songs) ==>
      Get(r.songs, c) == LastWithCode(YouTubeOutcome(listing).songs, c)
    ensures r.error.None? <==> |r.songs| > 0
    ensures r.error.Some? ==>
      r.error.value == Join(NotNulls([LocalOutcome(env).error, YouTubeOutcome(listing).error]), "; ")
  {
    var local := LocalOutcome(env);
    var youtube := YouTubeOutcome(listing);
    var merged := MergeCatalogs(youtube.songs, local.songs);
    var all := SortBy(merged, DisplayKey);
    UniqueCodesPermutation(merged, all);
    CodesPermutation(merged, all);
    assert forall c :: Get(all, c) == Get(merged, c) by {
      forall c ensures Get(all, c) == Get(merged, c) {
        GetPermutation(merged, all, c);
      }
    }
    var error := if |all| == 0 then Some(Join(NotNulls([local.error, youtube.error]), "; ")) else None;
    ReloadResult(all, error)
  }

  /** A successful source yields at least one song, with unique codes. */
  lemma SuccessfulSourcesHaveSongs(env: Environment, listing: YouTubeCsv.Listing)
    ensures LocalRead(env).Some? && LocalRead(env).value.Success? ==>
      |LocalOutcome(env).songs| > 0 && UniqueCodes(LocalOutcome(env).songs)
    ensures YouTubeCsv.LoadSongs(listing).Success? ==>
      |YouTubeOutcome(listing).songs| > 0 && UniqueCodes(YouTubeOutcome(listing).songs)
  {
  }

  /** A list without codes is empty. */
  lemma NoCodesNoSongs(t: seq<Song>)
    ensures Codes(t) == {} <==> |t| == 0
  {
    if |t| > 0 {
      assert t[0].code in Codes(t);
    }
  }

  /** `reload` reports an error exactly when both sources failed: the local
      catalog could not be read (or there was nowhere to read it from) and the
      YouTube catalog could not be loaded. */
  lemma ReloadFailsIffBothSourcesFail(env: Environment, listing: YouTubeCsv.Listing)
    ensures Reload(env, listing).error.Some? <==>
      && (LocalRead(env).None? || LocalRead(env).value.Failure?)
      && YouTubeCsv.LoadSongs(listing).Failure?
  {
    var r := Reload(env, listing);
    SuccessfulSourcesHaveSongs(env, listing);
    NoCodesNoSongs(r.songs);
    NoCodesNoSongs(LocalOutcome(env).songs);
    NoCodesNoSongs(YouTubeOutcome(listing).songs);
  }

  /** A song of a list with unique codes is the last song with its code. */
  lemma UniqueSongIsLast(t: seq<Song>, s: Song)
    requires UniqueCodes(t) && s in t
    ensures LastWithCode(t, s.code) == Some(s)
  {
    var k :| 0 <= k < |t| && t[k] == s;
    var x := LastWithCode(t, s.code);
    var j :| 0 <= j < |t| && t[j] == x.value;
  }

  /** Local songs take priority: every song of a successful local read is in the
      new catalog. */
  lemma LocalSongsAreKept(env: Environment, listing: YouTubeCsv.Listing, s: Song)
    requires s in LocalOutcome(env).songs
    ensures s in Reload(env, listing).songs
  {
    var local := LocalOutcome(env).songs;
    LocalOutcomeUnique(env);
    UniqueSongIsLast(local, s);
    assert s.code in Codes(local);
    var r := Reload(env, listing).songs;
    assert Get(r, s.code) == Some(s);
    GetIsMembership(r, s.code);
  }

  /** The local catalog has unique codes, whatever the read gave. */
  lemma LocalOutcomeUnique(env: Environment)
    ensures UniqueCodes(LocalOutcome(env).songs)
  {
  }

  /** A YouTube song is in the new catalog exactly when no local song has its code. */
  lemma YouTubeSongKeptIffCodeNotLocal(env: Environment, listing: YouTubeCsv.Listing, s: Song)
    requires s in YouTubeOutcome(listing).songs
    ensures s in Reload(env, listing).songs <==> s.code !in Codes(LocalOutcome(env).songs)
  {
    var local := LocalOutcome(env).songs;
    var youtube := YouTubeOutcome(listing).songs;
    var r := Reload(env, listing);
    SuccessfulSourcesHaveSongs(env, listing);
    YouTubeCsv.LoadedSongsAreRemote(listing);
    if s.code !in Codes(local) {
      UniqueSongIsLast(youtube, s);
      GetIsMembership(r.songs, s.code);
    } else if s in r.songs {
      StoredSongIsFound(r.songs, s);
      LocalSongsAreLocal(env);
    }
  }

  /** The local catalog holds no YouTube song. */
  lemma LocalSongsAreLocal(env: Environment)
    ensures forall s :: s in LocalOutcome(env).songs ==> !IsYouTube(s)
  {
  }

  /** With no local source and a failed YouTube load, the error names both. */
  lemma NoSourceAndFailedLoadError(env: Environment, listing: YouTubeCsv.Listing, m: string)
    requires LocalRead(env).None?
    requires YouTubeCsv.LoadSongs(listing) == Failure(Some(m))
    ensures Reload(env, listing).error == Some(NoLocalSourceError + "; " + m)
  {
    ReloadFailsIffBothSourcesFail(env, listing);
    var parts := [NoLocalSourceError, m];
    assert NotNulls([Some(NoLocalSourceError), Some(m)]) == parts;
    assert parts[..1] == [NoLocalSourceError];
    assert Join(parts, "; ") == NoLocalSourceError + "; " + m;
  }

  /** Failures whose exceptions carry no message give an empty error text, not
      `null`: the catalog is empty, so an error is reported all the same. */
  lemma SilentFailuresGiveEmptyError(env: Environment, listing: YouTubeCsv.Listing)
    requires LocalRead(env) == Some(Failure(None))
    requires YouTubeCsv.LoadSongs(listing) == Failure(None)
    ensures Reload(env, listing).error == Some("")
  {
    ReloadFailsIffBothSourcesFail(env, listing);
    assert NotNulls([LocalOutcome(env).error, YouTubeOutcome(listing).error]) == [];
  }
}
