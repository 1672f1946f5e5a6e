/** Worked cases of the row patterns.  A row laid out as the CLI prints it
    is parsed by the first pattern into its URL and its status.  A line whose
    URL text itself contains a status word is parsed by the fourth primary
    pattern (the same as the second fallback pattern),
    `(https://[^\s]+).*?(status)`, which needs no whitespace before the
    status, so the captured URL is cut short. */
module PatternCases {
  import opened Text
  import opened Patterns
  import opened PatternSpecs

  // ---------------------------------------------------------------------
  // A typical row

  /** A listing row: optional indentation, a first column (the age), the URL,
      the marker and the status, then the remaining columns. */
  function Row(w0: string, age: string, w1: string, url: string, w2: string, w3: string,
               status: string, rest: string): (line: string)
    ensures |line| == |w0| + |age| + |w1| + |url| + |w2| + 1 + |w3| + |status| + |rest|
  {
    w0 + age + w1 + url + w2 + [Marker] + w3 + status + rest
  }

  /** The pieces of a typical row: whitespace where the CLI pads its columns,
      a non-blank first column, a URL and a full status word. */
  predicate TypicalParts(w0: string, age: string, w1: string, url: string, w2: string, w3: string,
                         status: string) {
    && AllSpace(w0) && age != [] && NoSpace(age) && w1 != [] && AllSpace(w1)
    && IsCapturedUrl(url) && w2 != [] && AllSpace(w2) && AllSpace(w3) && IsFullStatus(status)
  }

  /** Where each piece of a row lies in it. */
  lemma RowIndex(w0: string, age: string, w1: string, url: string, w2: string, w3: string,
                 status: string, rest: string)
    ensures var line := Row(w0, age, w1, url, w2, w3, status, rest);
      var c := |w0| + |age| + |w1|;
      var m := c + |url| + |w2|;
      var r := m + 1 + |w3|;
      && (forall k :: 0 <= k < |w0| ==> line[k] == w0[k])
      && (forall k :: 0 <= k < |age| ==> line[|w0| + k] == age[k])
      && (forall k :: 0 <= k < |w1| ==> line[|w0| + |age| + k] == w1[k])
      && (forall k :: 0 <= k < |url| ==> line[c + k] == url[k])
      && (forall k :: 0 <= k < |w2| ==> line[c + |url| + k] == w2[k])
      && line[m] == Marker
      && (forall k :: 0 <= k < |w3| ==> line[m + 1 + k] == w3[k])
      && line[c..c + |url|] == url
      && line[r..r + |status|] == status
  {
  }

  /** In a typical row the URL is the second field, taken whole. */
  lemma TypicalSecondField(w0: string, age: string, w1: string, url: string, w2: string, w3: string,
                           status: string, rest: string)
    requires TypicalParts(w0, age, w1, url, w2, w3, status)
    ensures var c := |w0| + |age| + |w1|;
      SecondFieldUrl(Row(w0, age, w1, url, w2, w3, status, rest)) == Some((c, c + |url|))
  {
    RowIndex(w0, age, w1, url, w2, w3, status, rest);
    FieldsOf(Row(w0, age, w1, url, w2, w3, status, rest), w0, age, w1, url, w2[0]);
  }

  /** The same on any line that holds those pieces where a row holds them. */
  lemma FieldsOf(line: string, w0: string, age: string, w1: string, url: string, sp: char)
    requires AllSpace(w0) && age != [] && NoSpace(age) && w1 != [] && AllSpace(w1) && IsCapturedUrl(url) && IsSpace(sp)
    requires |w0| + |age| + |w1| + |url| < |line|
    requires forall k :: 0 <= k < |w0| ==> line[k] == w0[k]
    requires forall k :: 0 <= k < |age| ==> line[|w0| + k] == age[k]
    requires forall k :: 0 <= k < |w1| ==> line[|w0| + |age| + k] == w1[k]
    requires forall k :: 0 <= k < |url| ==> line[|w0| + |age| + |w1| + k] == url[k]
    requires line[|w0| + |age| + |w1| + |url|] == sp
    ensures var c := |w0| + |age| + |w1|;
      SecondFieldUrl(line) == Some((c, c + |url|))
  {
    var c := |w0| + |age| + |w1|;
    assert SpacesIn(line, 0, |w0|);
    forall k | |w0| <= k < |w0| + |age| ensures !IsSpace(line[k]) {
      assert line[k] == age[k - |w0|];
    }
    forall k | |w0| + |age| <= k < c ensures IsSpace(line[k]) {
      assert line[k] == w1[k - |w0| - |age|];
    }
    forall k | c <= k < c + |url| ensures !IsSpace(line[k]) {
      assert line[k] == url[k - c];
    }
    assert MatchesCIAt(line, c, "https://") by {
      forall k | 0 <= k < 8 ensures CharMatchesCI(line[c + k], "https://"[k]) {
        assert line[c + k] == url[k];
      }
    }
    SecondFieldOf(line, |w0|, |w0| + |age|, c, c + |url|);
  }

  /** In a typical row the marker and the status follow the URL as pattern 1 demands. */
  lemma TypicalTail(w0: string, age: string, w1: string, url: string, w2: string, w3: string,
                    status: string, rest: string)
    requires TypicalParts(w0, age, w1, url, w2, w3, status)
    ensures var e := |w0| + |age| + |w1| + |url|;
      var r := e + |w2| + 1 + |w3|;
      var line := Row(w0, age, w1, url, w2, w3, status, rest);
      GapShape(line, e, r, true) && StatusAt(line, r, FullWords) == Some(|status|)
  {
    var line := Row(w0, age, w1, url, w2, w3, status, rest);
    var e := |w0| + |age| + |w1| + |url|;
    var m := e + |w2|;
    var r := m + 1 + |w3|;
    RowIndex(w0, age, w1, url, w2, w3, status, rest);
    assert SpacesIn(line, e, m) && SpacesIn(line, m + 1, r);
    StatusAtWord(line, r, |status|);
  }

  /** The first pattern, `^\s*\S+\s+(https://[^\s]+)\s+●\s*(status)`,
      parses a typical row into its URL and its status as printed. */
  lemma TypicalRow(w0: string, age: string, w1: string, url: string, w2: string, w3: string,
                   status: string, rest: string)
    requires TypicalParts(w0, age, w1, url, w2, w3, status)
    ensures PrimaryRow(Row(w0, age, w1, url, w2, w3, status, rest)) == Some(Deployment(url, status))
  {
    var line := Row(w0, age, w1, url, w2, w3, status, rest);
    var c := |w0| + |age| + |w1|;
    var e := c + |url|;
    var r := e + |w2| + 1 + |w3|;
    TypicalSecondField(w0, age, w1, url, w2, w3, status, rest);
    TypicalTail(w0, age, w1, url, w2, w3, status, rest);
    var cap := Capture(c, e, r, |status|);
    assert AnchoredAt(line, true, cap);
    AnchoredSpec(line, true);
    RowIndex(w0, age, w1, url, w2, w3, status, rest);
    var rs := Results(PrimaryPatterns, line);
    assert rs[0] == Some(Deployment(url, status));
  }

  // ---------------------------------------------------------------------
  // A URL cut short

  const CutLine: string := "https://abuilding"

  /** Every character of the line is printable ASCII, so neither whitespace nor the marker. */
  lemma Printable()
    ensures forall k :: 0 <= k < |CutLine| ==> '!' <= CutLine[k] <= '~'
  {
  }

  /** After its first character the line holds no `h`, and after `https://ab` no `q`. */
  lemma Letters()
    ensures forall k :: 1 <= k < |CutLine| ==> CutLine[k] != 'h' && CutLine[k] != 'H'
    ensures forall k :: 10 <= k < |CutLine| ==> CutLine[k] != 'q' && CutLine[k] != 'Q'
  {
  }

  /** The line holds no whitespace. */
  lemma {:induction false} NoSpaceFrom(i: nat)
    requires i <= |CutLine|
    ensures NonSpaceEnd(CutLine, i) == |CutLine|
    decreases |CutLine| - i
  {
    if i < |CutLine| {
      Printable();
      assert !IsSpace(CutLine[i]);
      NoSpaceFrom(i + 1);
    }
  }

  /** The status word at the tenth character. */
  lemma StatusInside()
    ensures StatusAt(CutLine, 9, FullWords) == Some(8)
  {
    forall k | 0 <= k < 8 ensures CharMatchesCI(CutLine[9 + k], "building"[k]) {
      assert CutLine[9 + k] == "building"[k];
    }
  }

  /** No status word starts anywhere after the tenth character. */
  lemma NoStatusAfter(v: nat)
    requires 10 <= v <= |CutLine|
    ensures StatusAt(CutLine, v, FullWords).None?
  {
    if v + 6 <= |CutLine| {
      Letters();
      assert !CharMatchesCI(CutLine[v + 0], "queued"[0]);
    }
  }

  /** The gap finds no status from `v` on. */
  lemma {:induction false} NoGapAfter(v: nat)
    requires 10 <= v <= |CutLine|
    ensures LazyGap(CutLine, v, Bare, FullWords).None?
    decreases |CutLine| - v
  {
    NoStatusAfter(v);
    if v < |CutLine| {
      NoGapAfter(v + 1);
    }
  }

  /** From any end at or after the tenth character, the URL group gives back
      characters down to `https://a`. */
  lemma {:induction false} CutFrom(u: nat)
    requires 9 <= u <= |CutLine|
    ensures ShortenUrl(CutLine, 0, u, Bare, FullWords) == Some(Capture(0, 9, 9, 8))
    decreases u
  {
    if u == 9 {
      StatusInside();
    } else {
      NoGapAfter(u);
      CutFrom(u - 1);
    }
  }

  /** The URL group can start at the beginning of the line. */
  lemma CutUrlStarts()
    ensures UrlStartsAt(CutLine, 0)
  {
    forall k | 0 <= k < 8 ensures CharMatchesCI(CutLine[0 + k], "https://"[k]) {
      assert CutLine[k] == "https://"[k];
    }
    Printable();
  }

  /** The match that starts at the beginning of the line. */
  lemma CutCapture()
    ensures CaptureAt(CutLine, 0, Bare, FullWords) == Some(Capture(0, 9, 9, 8))
  {
    CutUrlStarts();
    NoSpaceFrom(8);
    CutFrom(|CutLine|);
  }

  /** The search stops at the first start, where there is a match. */
  lemma CutSearch()
    ensures Search(CutLine, Bare, FullWords) == Some(Capture(0, 9, 9, 8))
  {
    CutCapture();
  }

  /** The greedy URL group gives characters back until the status word inside
      the URL can be taken. */
  lemma BareTailCutsUrl()
    ensures Apply(UnanchoredPattern(Bare, FullWords), CutLine) == Some(Deployment("https://a", "building"))
  {
    CutSearch();
    CutGroups();
  }

  /** The text of the two groups of that match. */
  lemma CutGroups()
    ensures WellFormed(CutLine, Capture(0, 9, 9, 8), FullWords)
    ensures Groups(CutLine, Capture(0, 9, 9, 8), FullWords) == Deployment("https://a", "building")
  {
    CutCapture();
    CutSlices();
  }

  lemma CutSlices()
    ensures CutLine[0..9] == "https://a" && CutLine[9..17] == "building"
  {
  }

  // ---------------------------------------------------------------------
  // The patterns tried before it fail on this line

  /** Only the first character can start a URL group. */
  lemma NoUrlAfter(i: nat)
    requires 1 <= i <= |CutLine|
    ensures !UrlStartsAt(CutLine, i)
  {
    if i + 8 < |CutLine| {
      Letters();
      assert !CharMatchesCI(CutLine[i + 0], "https://"[0]);
    }
  }

  /** A tail that needs whitespace or the marker never matches on this line. */
  lemma {:induction false} NoTailGap(v: nat, t: Tail)
    requires v <= |CutLine| && t != Bare
    ensures LazyGap(CutLine, v, t, FullWords).None?
    decreases |CutLine| - v
  {
    if v < |CutLine| {
      Printable();
      assert !IsSpace(CutLine[v]) && CutLine[v] != Marker;
      NoTailGap(v + 1, t);
    }
  }

  lemma {:induction false} NoTailCut(u: nat, t: Tail)
    requires 9 <= u <= |CutLine| && t != Bare
    ensures ShortenUrl(CutLine, 0, u, t, FullWords).None?
    decreases u
  {
    NoTailGap(u, t);
    if u > 9 {
      NoTailCut(u - 1, t);
    }
  }

  lemma {:induction false} NoTailSearch(i: nat, t: Tail)
    requires i <= |CutLine| && t != Bare
    ensures SearchFrom(CutLine, i, t, FullWords).None?
    decreases |CutLine| - i
  {
    if i == 0 {
      NoSpaceFrom(8);
      NoTailCut(|CutLine|, t);
    } else {
      NoUrlAfter(i);
    }
    if i < |CutLine| {
      NoTailSearch(i + 1, t);
    }
  }

  /** The line has a single field, so the anchored patterns fail. */
  lemma NoSecondField()
    ensures SecondFieldUrl(CutLine).None?
  {
    NoSpaceFrom(0);
    Printable();
    assert !IsSpace(CutLine[0]);
  }

  /** The header pass takes the cut URL from its fourth pattern, after the
      two anchored patterns and the `\s+` pattern fail. */
  lemma PrimaryRowCutsUrl()
    ensures PrimaryRow(CutLine) == Some(Deployment("https://a", "building"))
  {
    var rs := Results(PrimaryPatterns, CutLine);
    NoSecondField();
    NoTailSearch(0, Spaced);
    BareTailCutsUrl();
    assert rs[0].None? && rs[1].None? && rs[2].None?;
    assert rs[3] == Some(Deployment("https://a", "building"));
  }

  /** The fallback takes the same cut URL from its second pattern, after the
      marker pattern fails. */
  lemma FallbackRowCutsUrl()
    ensures FallbackRow(CutLine) == Some(Deployment("https://a", "building"))
  {
    var rs := Results(FallbackPatterns, CutLine);
    NoTailSearch(0, Marked);
    BareTailCutsUrl();
    assert rs[0].None?;
    assert rs[1] == Some(Deployment("https://a", "building"));
  }
}
