/**
 * The track records the collage pipeline works on, and `sortTracks`:
 * a stable in-place sort of the track array under one of four keys.
 */
module Tracks {
  import opened Wrappers
  import opened Sequences
  import opened Strings

  datatype Image = Image(url: string)

  /** An album: its name, its release date as a comparable key, and its cover images (largest first). */
  datatype Album = Album(name: string, releaseDate: int, images: seq<Image>)

  datatype Track = Track(name: string, popularity: int, album: Album)

  datatype SortKey = Popularity | ReleaseDate | AlbumName | MostPlayed

  /** The switch in sortTracks: one of the four known key names, or nothing. */
  function ParseSortKey(sortBy: string): (k: Option<SortKey>)
    ensures k == Some(Popularity) <==> sortBy == "popularity"
    ensures k == Some(ReleaseDate) <==> sortBy == "release_date"
    ensures k == Some(AlbumName) <==> sortBy == "album_name"
    ensures k == Some(MostPlayed) <==> sortBy == "most_played"
  {
    if sortBy == "popularity" then Some(Popularity)
    else if sortBy == "release_date" then Some(ReleaseDate)
    else if sortBy == "album_name" then Some(AlbumName)
    else if sortBy == "most_played" then Some(MostPlayed)
    else None
  }

  /**
   * The comparator handed to Array.prototype.sort for each key. The
   * "album_name" key compares the TRACK names, as the code does.
   */
  function Comparator(key: SortKey, a: Track, b: Track): (r: int)
    ensures key == Popularity ==> (r < 0 <==> a.popularity > b.popularity)
    ensures key == ReleaseDate ==> (r < 0 <==> a.album.releaseDate > b.album.releaseDate)
    ensures key == AlbumName ==> (r < 0 <==> LexLess(a.name, b.name)) && (r == 0 <==> a.name == b.name)
    ensures key == MostPlayed ==> r == 0
  {
    match key
    case Popularity => b.popularity - a.popularity
    case ReleaseDate => b.album.releaseDate - a.album.releaseDate
    case AlbumName => LocaleCompare(a.name, b.name)
    case MostPlayed => 0
  }

  /** a must come strictly before b: the comparator is negative. */
  predicate Precedes(key: SortKey, a: Track, b: Track) {
    Comparator(key, a, b) < 0
  }

  /** The value a key reads from a track; tracks with equal values are ties. */
  datatype KeyValue = Number(n: int) | Text(s: string) | Unkeyed

  function KeyOf(key: SortKey, t: Track): KeyValue {
    match key
    case Popularity => Number(t.popularity)
    case ReleaseDate => Number(t.album.releaseDate)
    case AlbumName => Text(t.name)
    case MostPlayed => Unkeyed
  }

  // ---------------------------------------------------------------------
  // The comparator is a strict weak order whose ties are equal key values.
  // ---------------------------------------------------------------------

  lemma PrecedesIrreflexive(key: SortKey, a: Track)
    ensures !Precedes(key, a, a)
  {
  }

  lemma PrecedesTiesAreEqualKeys(key: SortKey, a: Track, b: Track)
    ensures !Precedes(key, a, b) && !Precedes(key, b, a) <==> KeyOf(key, a) == KeyOf(key, b)
  {
  }

  lemma PrecedesAsymmetric(key: SortKey, a: Track, b: Track)
    ensures Precedes(key, a, b) ==> !Precedes(key, b, a)
  {
  }

  /** "Not after" is transitive: the incomparability needed for sorting by insertion. */
  lemma NotPrecedesTransitive(key: SortKey, a: Track, b: Track, c: Track)
    requires !Precedes(key, a, b) && !Precedes(key, b, c)
    ensures !Precedes(key, a, c)
  {
    if key == AlbumName && LexLess(a.name, c.name) {
      LexLessTotal(a.name, b.name);
      LexLessTotal(b.name, c.name);
      if LexLess(b.name, a.name) {
        LexLessTransitive(b.name, a.name, c.name);
      }
      if LexLess(c.name, b.name) {
        LexLessTransitive(a.name, c.name, b.name);
      }
    }
  }

  // ---------------------------------------------------------------------
  // The sort, as a function: stable insertion of each element in turn.
  // ---------------------------------------------------------------------

  /** Inserts x after every element it does not strictly precede. */
  function Insert(key: SortKey, s: seq<Track>, x: Track): (r: seq<Track>)
    ensures |r| == |s| + 1
  {
    if s == [] then [x]
    else if Precedes(key, x, s[|s| - 1]) then Insert(key, s[..|s| - 1], x) + [s[|s| - 1]]
    else s + [x]
  }

  lemma {:induction false} InsertPermutes(key: SortKey, s: seq<Track>, x: Track)
    ensures multiset(Insert(key, s, x)) == multiset(s) + multiset{x}
  {
    if s != [] && Precedes(key, x, s[|s| - 1]) {
      var init, last := s[..|s| - 1], s[|s| - 1];
      InsertPermutes(key, init, x);
      SeqSplitLast(s);
      assert multiset(Insert(key, init, x) + [last]) == multiset(Insert(key, init, x)) + multiset{last};
    }
  }

  function InsertionSort(key: SortKey, s: seq<Track>): (r: seq<Track>)
    ensures |r| == |s|
  {
    if s == [] then [] else Insert(key, InsertionSort(key, s[..|s| - 1]), s[|s| - 1])
  }

  /** No track is followed by one that strictly precedes it. */
  predicate SortedBy(key: SortKey, s: seq<Track>) {
    forall i, j :: 0 <= i < j < |s| ==> !Precedes(key, s[j], s[i])
  }

  /** The tracks of s whose key reads v, in the order of s. */
  function WithKey(key: SortKey, s: seq<Track>, v: KeyValue): seq<Track> {
    if s == [] then [] else WithKey(key, s[..|s| - 1], v) + Keep(key, s[|s| - 1], v)
  }

  function Keep(key: SortKey, t: Track, v: KeyValue): seq<Track> {
    if KeyOf(key, t) == v then [t] else []
  }

  lemma {:induction false} SortPermutes(key: SortKey, s: seq<Track>)
    ensures multiset(InsertionSort(key, s)) == multiset(s)
  {
    if s != [] {
      var init, last := s[..|s| - 1], s[|s| - 1];
      SortPermutes(key, init);
      InsertPermutes(key, InsertionSort(key, init), last);
      SeqSplitLast(s);
    }
  }

  lemma {:induction false} InsertSorted(key: SortKey, s: seq<Track>, x: Track)
    requires SortedBy(key, s)
    ensures SortedBy(key, Insert(key, s, x))
  {
    if s != [] {
      var init, last := s[..|s| - 1], s[|s| - 1];
      if Precedes(key, x, last) {
        InsertSorted(key, init, x);
        InsertBeforeLastSorted(key, s, x);
      } else {
        AppendSorted(key, s, x);
      }
    }
  }

  /** x goes in front of the last element: the last element still ends the result. */
  lemma InsertBeforeLastSorted(key: SortKey, s: seq<Track>, x: Track)
    requires s != [] && SortedBy(key, s) && Precedes(key, x, s[|s| - 1])
    requires SortedBy(key, Insert(key, s[..|s| - 1], x))
    ensures SortedBy(key, Insert(key, s, x))
  {
    var init, last := s[..|s| - 1], s[|s| - 1];
    var r := Insert(key, init, x);
    InsertPermutes(key, init, x);
    forall e | e in r
      ensures !Precedes(key, last, e)
    {
      assert e in multiset(r);
      if e == x {
        PrecedesAsymmetric(key, x, last);
      } else {
        assert e in multiset(init);
        var i :| 0 <= i < |init| && init[i] == e;
        assert s[i] == e;
      }
    }
    var r' := r + [last];
    assert Insert(key, s, x) == r';
    forall i, j | 0 <= i < j < |r'|
      ensures !Precedes(key, r'[j], r'[i])
    {
      if j == |r'| - 1 {
        assert r'[i] in r;
      } else {
        assert r'[i] == r[i] && r'[j] == r[j];
      }
    }
  }

  /** x stays after the last element: it comes after everything. */
  lemma AppendSorted(key: SortKey, s: seq<Track>, x: Track)
    requires s != [] && SortedBy(key, s) && !Precedes(key, x, s[|s| - 1])
    ensures SortedBy(key, Insert(key, s, x))
  {
    var last := s[|s| - 1];
    var r := s + [x];
    assert Insert(key, s, x) == r;
    forall i, j | 0 <= i < j < |r|
      ensures !Precedes(key, r[j], r[i])
    {
      if j == |s| && i < |s| - 1 {
        NotPrecedesTransitive(key, x, last, s[i]);
      }
    }
  }

  /** The sorted sequence is ordered by the comparator. */
  lemma {:induction false} SortSorts(key: SortKey, s: seq<Track>)
    ensures SortedBy(key, InsertionSort(key, s))
  {
    if s != [] {
      SortSorts(key, s[..|s| - 1]);
      InsertSorted(key, InsertionSort(key, s[..|s| - 1]), s[|s| - 1]);
    }
  }

  /**
   * What sortedness means per key: popularity and release date do not
   * increase along the result, and track names do not decrease.
   */
  lemma SortedMeaning(key: SortKey, s: seq<Track>, i: nat, j: nat)
    requires SortedBy(key, s) && i < j < |s|
    ensures key == Popularity ==> s[i].popularity >= s[j].popularity
    ensures key == ReleaseDate ==> s[i].album.releaseDate >= s[j].album.releaseDate
    ensures key == AlbumName ==> !LexLess(s[j].name, s[i].name)
  {
    assert !Precedes(key, s[j], s[i]);
  }

  lemma WithKeyAppend(key: SortKey, s: seq<Track>, x: Track, v: KeyValue)
    ensures WithKey(key, s + [x], v) == WithKey(key, s, v) + Keep(key, x, v)
  {
    assert (s + [x])[..|s|] == s;
  }

  lemma {:induction false} InsertStable(key: SortKey, s: seq<Track>, x: Track, v: KeyValue)
    ensures WithKey(key, Insert(key, s, x), v) == WithKey(key, s + [x], v)
  {
    if s != [] {
      var init, last := s[..|s| - 1], s[|s| - 1];
      if Precedes(key, x, last) {
        PrecedesTiesAreEqualKeys(key, x, last);
        assert Keep(key, x, v) + Keep(key, last, v) == Keep(key, last, v) + Keep(key, x, v);
        calc {
          WithKey(key, Insert(key, s, x), v);
          { assert Insert(key, s, x) == Insert(key, init, x) + [last]; }
          WithKey(key, Insert(key, init, x) + [last], v);
          { WithKeyAppend(key, Insert(key, init, x), last, v); }
          WithKey(key, Insert(key, init, x), v) + Keep(key, last, v);
          { InsertStable(key, init, x, v); WithKeyAppend(key, init, x, v); }
          WithKey(key, init, v) + Keep(key, x, v) + Keep(key, last, v);
          WithKey(key, init, v) + Keep(key, last, v) + Keep(key, x, v);
          { WithKeyAppend(key, init, last, v); assert init + [last] == s; }
          WithKey(key, s, v) + Keep(key, x, v);
          { WithKeyAppend(key, s, x, v); }
          WithKey(key, s + [x], v);
        }
      }
    }
  }

  /** Stability: among ties (equal key values) the input order survives. */
  lemma {:induction false} SortStable(key: SortKey, s: seq<Track>, v: KeyValue)
    ensures WithKey(key, InsertionSort(key, s), v) == WithKey(key, s, v)
  {
    if s != [] {
      var init, last := s[..|s| - 1], s[|s| - 1];
      calc {
        WithKey(key, InsertionSort(key, s), v);
        WithKey(key, Insert(key, InsertionSort(key, init), last), v);
        { InsertStable(key, InsertionSort(key, init), last, v); }
        WithKey(key, InsertionSort(key, init) + [last], v);
        { WithKeyAppend(key, InsertionSort(key, init), last, v); }
        WithKey(key, InsertionSort(key, init), v) + Keep(key, last, v);
        { SortStable(key, init, v); }
        WithKey(key, init, v) + Keep(key, last, v);
        WithKey(key, s, v);
      }
    }
  }

  lemma SortPrefixStep(key: SortKey, s: seq<Track>, i: nat)
    requires i < |s|
    ensures InsertionSort(key, s[..i + 1]) == Insert(key, InsertionSort(key, s[..i]), s[i])
  {
    assert s[..i + 1][..i] == s[..i];
  }

  /**
   * Insert places x right after the longest prefix whose following elements
   * x all strictly precedes.
   */
  lemma {:induction false} InsertAsSplice(key: SortKey, s: seq<Track>, x: Track, j: nat)
    requires j <= |s|
    requires forall k :: j <= k < |s| ==> Precedes(key, x, s[k])
    requires j == 0 || !Precedes(key, x, s[j - 1])
    ensures Insert(key, s, x) == s[..j] + [x] + s[j..]
    decreases |s|
  {
    if |s| > j {
      var init := s[..|s| - 1];
      InsertAsSplice(key, init, x, j);
      assert init[..j] == s[..j] && init[j..] + [s[|s| - 1]] == s[j..];
    }
  }

  // ---------------------------------------------------------------------
  // sortTracks itself: the array is sorted in place and returned.
  // ---------------------------------------------------------------------

  /**
   * Sorts `tracks` in place for a known comparator key and returns whether
   * the array itself is returned (true) or nothing is (false, an unknown key).
   * "most_played" returns the array untouched.
   */
  method SortTracks(tracks: array<Track>, sortBy: string) returns (returnsArray: bool)
    modifies tracks
    ensures returnsArray <==> ParseSortKey(sortBy).Some?
    ensures match ParseSortKey(sortBy)
      case Some(key) => key != MostPlayed ==> tracks[..] == InsertionSort(key, old(tracks[..]))
      case None => true
    ensures ParseSortKey(sortBy) in {None, Some(MostPlayed)} ==> tracks[..] == old(tracks[..])
  {
    var key := ParseSortKey(sortBy);
    match key {
      case None => returnsArray := false;
      case Some(MostPlayed) => returnsArray := true;
      case Some(k) =>
        StableSortInPlace(tracks, k);
        returnsArray := true;
    }
  }

  /** Array.prototype.sort with a comparator: stable, in place. */
  method StableSortInPlace(a: array<Track>, key: SortKey)
    modifies a
    ensures a[..] == InsertionSort(key, old(a[..]))
  {
    ghost var input := a[..];
    var i := 0;
    while i < a.Length
      invariant 0 <= i <= a.Length
      invariant a[..i] == InsertionSort(key, input[..i])
      invariant a[i..] == input[i..]
    {
      ghost var before := a[..];
      InsertAt(a, i, key);
      SortStep(key, input, before, a[..], i);
      i := i + 1;
    }
    assert input[..a.Length] == input;
  }

  /** One outer step: inserting element i extends the sorted prefix and keeps the rest. */
  lemma SortStep(key: SortKey, input: seq<Track>, before: seq<Track>, after: seq<Track>, i: nat)
    requires |before| == |input| == |after| && i < |input|
    requires before[..i] == InsertionSort(key, input[..i]) && before[i..] == input[i..]
    requires after[..i + 1] == Insert(key, before[..i], before[i]) && after[i + 1..] == before[i + 1..]
    ensures after[..i + 1] == InsertionSort(key, input[..i + 1]) && after[i + 1..] == input[i + 1..]
  {
    assert before[i] == before[i..][0] == input[i..][0] == input[i];
    assert before[i + 1..] == before[i..][1..] && input[i + 1..] == input[i..][1..];
    SortPrefixStep(key, input, i);
  }

  /** One pass of the sort: moves a[i] left into the sorted prefix a[..i]. */
  method InsertAt(a: array<Track>, i: nat, key: SortKey)
    requires i < a.Length
    modifies a
    ensures a[..i + 1] == Insert(key, old(a[..i]), old(a[i]))
    ensures a[i + 1..] == old(a[i + 1..])
  {
    ghost var sorted := a[..i];
    ghost var tail := a[i + 1..];
    var x := a[i];
    var j := i;
    while j > 0 && Precedes(key, x, a[j - 1])
      invariant 0 <= j <= i
      invariant a[..j] == sorted[..j]
      invariant a[j + 1..i + 1] == sorted[j..]
      invariant a[i + 1..] == tail
      invariant forall k :: j <= k < i ==> Precedes(key, x, sorted[k])
    {
      a[j] := a[j - 1];
      j := j - 1;
      assert a[j + 1..i + 1] == [a[j + 1]] + a[j + 2..i + 1];
    }
    InsertAsSplice(key, sorted, x, j);
    a[j] := x;
    Assemble(a[..], sorted, x, j, i);
  }

  /** A prefix made of sorted[..j], then x, then sorted[j..]. */
  lemma Assemble(b: seq<Track>, sorted: seq<Track>, x: Track, j: nat, i: nat)
    requires j <= i < |b| && |sorted| == i
    requires b[..j] == sorted[..j] && b[j] == x && b[j + 1..i + 1] == sorted[j..]
    ensures b[..i + 1] == sorted[..j] + [x] + sorted[j..]
  {
    assert b[..i + 1] == b[..j] + [b[j]] + b[j + 1..i + 1];
  }
}
