/** Two-sided statements of the scans in `Patterns`: where the anchored
    patterns put their groups and when they fail, and which occurrence the
    whole-word status search and the case-sensitive URL search return. */
module PatternSpecs {
  import opened Text
  import opened Patterns

  // ---------------------------------------------------------------------
  // `^\s*\S+\s+(https://[^\s]+)`

  /** The leading whitespace, the first field and the whitespace after it are
      forced: a second field can only start where the scan lands. */
  lemma SecondFieldForced(s: string, c: nat)
    requires SecondFieldAt(s, c)
    ensures SpaceEnd(s, 0) < NonSpaceEnd(s, SpaceEnd(s, 0)) < c
    ensures c == SpaceEnd(s, NonSpaceEnd(s, SpaceEnd(s, 0)))
  {
    var a: nat, b: nat :| a < b < c && SpacesIn(s, 0, a) && NonSpacesIn(s, a, b) && SpacesIn(s, b, c);
    SpaceEndAt(s, 0, a);
    NonSpaceEndAt(s, a, b);
    SpaceEndAt(s, b, c);
  }

  /** A line has at most one second field. */
  lemma SecondFieldUnique(s: string, c: nat, c': nat)
    requires SecondFieldAt(s, c) && SecondFieldAt(s, c')
    ensures c == c'
  {
    SecondFieldForced(s, c);
    SecondFieldForced(s, c');
  }

  /** The URL group is found exactly when the second field begins with
      `https://` (any case) and one more non-whitespace character, and it is then
      that whole field; with no second field there is no match. */
  lemma SecondFieldSpec(s: string)
    ensures SecondFieldUrl(s).Some? ==> SecondFieldAt(s, SecondFieldUrl(s).value.0)
    ensures forall c: nat :: SecondFieldAt(s, c) ==>
      SecondFieldUrl(s) == if UrlStartsAt(s, c) then Some((c, NonSpaceEnd(s, c + 8))) else None
  {
    var a := SpaceEnd(s, 0);
    if a < |s| {
      var b := NonSpaceEnd(s, a);
      var c := SpaceEnd(s, b);
      SpaceRun(s, 0);
      NonSpaceRun(s, a);
      SpaceRun(s, b);
      if b < c && c < |s| {
        assert SpacesIn(s, 0, a) && NonSpacesIn(s, a, b) && SpacesIn(s, b, c);
        assert SecondFieldAt(s, c);
      }
    }
    forall c: nat | SecondFieldAt(s, c)
      ensures SecondFieldUrl(s) == if UrlStartsAt(s, c) then Some((c, NonSpaceEnd(s, c + 8))) else None
    {
      SecondFieldForced(s, c);
    }
  }

  /** The URL group read off a line the fields of which are known. */
  lemma SecondFieldOf(s: string, a: nat, b: nat, c: nat, e: nat)
    requires a < b < c && c + 9 <= e <= |s|
    requires SpacesIn(s, 0, a) && NonSpacesIn(s, a, b) && SpacesIn(s, b, c)
    requires MatchesCIAt(s, c, "https://") && NonSpacesIn(s, c, e) && (e == |s| || IsSpace(s[e]))
    ensures SecondFieldUrl(s) == Some((c, e))
  {
    assert SecondFieldAt(s, c);
    SecondFieldSpec(s);
    NonSpaceEndAt(s, c + 8, e);
  }

  // ---------------------------------------------------------------------
  // Patterns 1 and 2

  /** `c` is where patterns 1 (`marked`) and 2 put their groups: the URL is the
      second field, the gap after it has the pattern's shape, and a status word
      starts where the gap ends. */
  predicate AnchoredAt(s: string, marked: bool, c: Capture) {
    && SecondFieldUrl(s) == Some((c.urlStart, c.urlEnd))
    && GapShape(s, c.urlEnd, c.statusStart, marked)
    && StatusAt(s, c.statusStart, FullWords) == Some(c.statusLen)
  }

  /** A status word starts with a letter: not whitespace and not the marker. */
  lemma StatusStart(s: string, r: nat, w: Words)
    requires StatusAt(s, r, w).Some?
    ensures r < |s| && !IsSpace(s[r]) && s[r] != Marker
  {
    if MatchesCIAt(s, r, "building") {
      FirstLetter(s, r, "building");
    } else if MatchesCIAt(s, r, "build") {
      FirstLetter(s, r, "build");
    } else if MatchesCIAt(s, r, "queued") {
      FirstLetter(s, r, "queued");
    } else {
      FirstLetter(s, r, "queue");
    }
    assert 'a' <= s[r] <= 'z' || 'A' <= s[r] <= 'Z';
  }

  lemma FirstLetter(s: string, r: nat, w: string)
    requires MatchesCIAt(s, r, w) && |w| > 0
    ensures r < |s| && CharMatchesCI(s[r], w[0])
  {
    assert CharMatchesCI(s[r + 0], w[0]);
  }

  /** A full status word placed at `r` is what the alternation takes there. */
  lemma StatusAtWord(s: string, r: nat, n: nat)
    requires r + n <= |s| && IsFullStatus(s[r..r + n])
    ensures StatusAt(s, r, FullWords) == Some(n)
  {
    if EqualsCI(s[r..r + n], "building") {
      SliceMatchesCI(s, r, "building");
    } else {
      SliceMatchesCI(s, r, "queued");
      FirstLetter(s, r, "queued");
      if MatchesCIAt(s, r, "building") {
        FirstLetter(s, r, "building");
        assert false;
      }
    }
  }

  lemma AnchoredSound(s: string, marked: bool)
    requires Anchored(s, marked).Some?
    ensures AnchoredAt(s, marked, Anchored(s, marked).value)
  {
    var g := SecondFieldUrl(s).value;
    var f := SpaceEnd(s, g.1);
    SpaceRun(s, g.1);
    if marked {
      SpaceRun(s, f + 1);
      assert SpacesIn(s, g.1, f) && SpacesIn(s, f + 1, Anchored(s, marked).value.statusStart);
    }
  }

  /** The whitespace runs of a gap of pattern 1 are taken whole. */
  lemma MarkedGapEnds(s: string, e: nat, r: nat)
    requires GapShape(s, e, r, true) && r < |s| && !IsSpace(s[r])
    ensures e < SpaceEnd(s, e) < |s| && s[SpaceEnd(s, e)] == Marker && SpaceEnd(s, SpaceEnd(s, e) + 1) == r
  {
    var m: nat :| e < m < r && SpacesIn(s, e, m) && s[m] == Marker && SpacesIn(s, m + 1, r);
    SpaceEndAt(s, e, m);
    SpaceEndAt(s, m + 1, r);
  }

  /** The whitespace run of a gap of pattern 2 is taken whole. */
  lemma BareGapEnds(s: string, e: nat, r: nat)
    requires GapShape(s, e, r, false) && r < |s| && !IsSpace(s[r])
    ensures e < SpaceEnd(s, e) == r
  {
    SpaceEndAt(s, e, r);
  }

  lemma AnchoredComplete(s: string, marked: bool, c: Capture)
    requires AnchoredAt(s, marked, c)
    ensures Anchored(s, marked) == Some(c)
  {
    StatusStart(s, c.statusStart, FullWords);
    if marked {
      MarkedComplete(s, c);
    } else {
      BareGapEnds(s, c.urlEnd, c.statusStart);
    }
  }

  lemma MarkedComplete(s: string, c: Capture)
    requires AnchoredAt(s, true, c) && c.statusStart < |s| && !IsSpace(s[c.statusStart])
    ensures Anchored(s, true) == Some(c)
  {
    MarkedGapEnds(s, c.urlEnd, c.statusStart);
  }

  /** Patterns 1 and 2 succeed exactly at the place `AnchoredAt` describes, and
      there is at most one such place; without a second-field URL they fail. */
  lemma AnchoredSpec(s: string, marked: bool)
    ensures SecondFieldUrl(s).None? ==> Anchored(s, marked).None?
    ensures Anchored(s, marked).Some? ==> AnchoredAt(s, marked, Anchored(s, marked).value)
    ensures forall c :: AnchoredAt(s, marked, c) ==> Anchored(s, marked) == Some(c)
  {
    if Anchored(s, marked).Some? {
      AnchoredSound(s, marked);
    }
    forall c | AnchoredAt(s, marked, c) ensures Anchored(s, marked) == Some(c) {
      AnchoredComplete(s, marked, c);
    }
  }

  // ---------------------------------------------------------------------
  // `\b(Building|Queued|building|queued)\b`

  /** Tried at one position, the search succeeds exactly when a whole-word
      status starts there. */
  lemma WordStatusAtSpec(s: string, r: nat)
    requires r <= |s|
    ensures WordStatusAt(s, r).Some? ==> WholeWordAt(s, r, WordStatusAt(s, r).value)
    ensures WordStatusAt(s, r).None? ==> forall n :: !WholeWordAt(s, r, n)
  {
    forall n | WholeWordAt(s, r, n) ensures WordStatusAt(s, r).Some? {
      if EqualsCI(s[r..r + n], "building") {
        SliceMatchesCI(s, r, "building");
      } else {
        SliceMatchesCI(s, r, "queued");
      }
    }
  }

  lemma {:induction false} WordStatusFromSpec(s: string, r: nat)
    requires r <= |s|
    ensures WordStatusFrom(s, r).None? <==> forall q :: r <= q <= |s| ==> WordStatusAt(s, q).None?
    ensures WordStatusFrom(s, r).Some? ==>
      exists q :: r <= q <= |s| && WordStatusAt(s, q).Some?
        && WordStatusFrom(s, r).value == s[q..q + WordStatusAt(s, q).value]
        && forall p :: r <= p < q ==> WordStatusAt(s, p).None?
    decreases |s| - r
  {
    if WordStatusAt(s, r).Some? {
      assert r <= r <= |s| && WordStatusAt(s, r).Some?;
    } else if r < |s| {
      WordStatusFromSpec(s, r + 1);
      if WordStatusFrom(s, r + 1).Some? {
        var q :| r + 1 <= q <= |s| && WordStatusAt(s, q).Some?
          && WordStatusFrom(s, r + 1).value == s[q..q + WordStatusAt(s, q).value]
          && forall p :: r + 1 <= p < q ==> WordStatusAt(s, p).None?;
        assert forall p :: r <= p < q ==> WordStatusAt(s, p).None?;
      }
    }
  }

  /** The search returns the text of the leftmost whole-word status, and fails
      exactly when the line holds none. */
  lemma WordStatusSpec(s: string)
    ensures WordStatus(s).None? <==> forall q: nat, n: nat :: !WholeWordAt(s, q, n)
    ensures WordStatus(s).Some? ==>
      exists q: nat, n: nat :: WholeWordAt(s, q, n) && WordStatus(s).value == s[q..q + n]
        && forall p: nat, m: nat :: p < q ==> !WholeWordAt(s, p, m)
  {
    WordStatusFromSpec(s, 0);
    if WordStatus(s).Some? {
      var q :| 0 <= q <= |s| && WordStatusAt(s, q).Some?
        && WordStatus(s).value == s[q..q + WordStatusAt(s, q).value]
        && forall p :: 0 <= p < q ==> WordStatusAt(s, p).None?;
      var n := WordStatusAt(s, q).value;
      WordStatusAtSpec(s, q);
      forall p: nat, m: nat | p < q ensures !WholeWordAt(s, p, m) {
        WordStatusAtSpec(s, p);
      }
      assert WholeWordAt(s, q, n) && WordStatus(s).value == s[q..q + n];
    } else {
      forall q: nat, n: nat ensures !WholeWordAt(s, q, n) {
        if q <= |s| {
          WordStatusAtSpec(s, q);
        }
      }
    }
  }

  // ---------------------------------------------------------------------
  // `(https://[^\s]+)` without IGNORECASE

  lemma {:induction false} PlainUrlFromSpec(s: string, i: nat)
    requires i <= |s|
    ensures PlainUrlFrom(s, i).None? <==> forall j :: i <= j <= |s| ==> !PlainStartAt(s, j)
    ensures PlainUrlFrom(s, i).Some? ==>
      exists j :: i <= j < |s| && PlainStartAt(s, j) && (forall k :: i <= k < j ==> !PlainStartAt(s, k))
        && PlainUrlFrom(s, i).value == s[j..NonSpaceEnd(s, j + 8)]
    decreases |s| - i
  {
    if PlainStartAt(s, i) {
      assert i <= i < |s| && PlainStartAt(s, i);
    } else if i < |s| {
      PlainUrlFromSpec(s, i + 1);
      if PlainUrlFrom(s, i + 1).Some? {
        var j :| i + 1 <= j < |s| && PlainStartAt(s, j) && (forall k :: i + 1 <= k < j ==> !PlainStartAt(s, k))
          && PlainUrlFrom(s, i + 1).value == s[j..NonSpaceEnd(s, j + 8)];
        assert forall k :: i <= k < j ==> !PlainStartAt(s, k);
      }
    }
  }

  /** The aggressive stage's URL is the leftmost `https://` followed by a
      non-whitespace character, taken up to the next whitespace or the end;
      the search fails exactly when there is no such start. */
  lemma PlainUrlSpec(s: string)
    ensures PlainUrl(s).None? <==> forall j: nat :: !PlainStartAt(s, j)
    ensures PlainUrl(s).Some? ==> PlainUrlAt(s, PlainUrl(s).value)
  {
    PlainUrlFromSpec(s, 0);
    if PlainUrl(s).Some? {
      PlainUrlFound(s);
    }
  }

  /** `url` is the text of the leftmost plain URL of `s`, taken whole. */
  predicate PlainUrlAt(s: string, url: string) {
    exists j: nat :: j < |s| && PlainStartAt(s, j) && (forall k: nat :: k < j ==> !PlainStartAt(s, k))
      && OccursAt(s, url, j) && (j + |url| == |s| || IsSpace(s[j + |url|]))
  }

  lemma PlainUrlFound(s: string)
    requires PlainUrl(s).Some?
    ensures PlainUrlAt(s, PlainUrl(s).value)
  {
    PlainUrlFromSpec(s, 0);
    var j :| 0 <= j < |s| && PlainStartAt(s, j) && (forall k :: 0 <= k < j ==> !PlainStartAt(s, k))
      && PlainUrl(s).value == s[j..NonSpaceEnd(s, j + 8)];
    PlainUrlWitness(s, j, PlainUrl(s).value);
  }

  lemma PlainUrlWitness(s: string, j: nat, url: string)
    requires j < |s| && PlainStartAt(s, j) && (forall k :: 0 <= k < j ==> !PlainStartAt(s, k))
    requires url == s[j..NonSpaceEnd(s, j + 8)]
    ensures PlainUrlAt(s, url)
  {
    NonSpaceRun(s, j + 8);
    assert OccursAt(s, url, j);
  }
}
