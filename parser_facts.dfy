/** What `parse_deployments` promises, proved about the specification
    functions of `Parser`: where the header is, which rows the first pass
    examines and how many, the shape of every record, when the fallback and
    the aggressive stage run and what they may add. */
module ParserFacts {
  import opened Text
  import opened Patterns
  import opened Parser

  // ---------------------------------------------------------------------
  // The header and the data rows

  /** The kind of each line says whether its stripped text is blank and
      whether it names a column. */
  lemma KindsMeaning(lines: seq<string>)
    ensures forall j :: 0 <= j < |lines| ==>
              (Kinds(lines)[j] == BlankLine <==> Strip(lines[j]) == "")
              && (Kinds(lines)[j] == HeaderLine <==> IsHeaderLine(Strip(lines[j])))
  {
    BlankIsNoHeader();
    forall j | 0 <= j < |lines|
      ensures Kinds(lines)[j] == BlankLine <==> Strip(lines[j]) == ""
      ensures Kinds(lines)[j] == HeaderLine <==> IsHeaderLine(Strip(lines[j]))
    {
      assert Kinds(lines)[j] == KindOf(lines[j]);
    }
  }

  /** Blank text names no column. */
  lemma BlankIsNoHeader()
    ensures !IsHeaderLine("")
  {
  }

  /** The first line at or after `i` that names a column. */
  function FirstHeaderFrom(kinds: seq<LineKind>, i: nat): (h: Option<nat>)
    requires i <= |kinds|
    ensures h.Some? ==> i <= h.value < |kinds| && kinds[h.value] == HeaderLine
    ensures h.Some? ==> forall j :: i <= j < h.value ==> kinds[j] != HeaderLine
    ensures h.None? ==> forall j :: i <= j < |kinds| ==> kinds[j] != HeaderLine
    decreases |kinds| - i
  {
    if i == |kinds| then None
    else if kinds[i] == HeaderLine then Some(i)
    else FirstHeaderFrom(kinds, i + 1)
  }

  /** The first line of the output whose stripped text names a column. */
  function FirstHeader(lines: seq<string>): (h: Option<nat>) {
    FirstHeaderFrom(Kinds(lines), 0)
  }

  lemma FirstHeaderSpec(lines: seq<string>)
    ensures FirstHeader(lines).Some? ==>
              FirstHeader(lines).value < |lines| && IsHeaderLine(Strip(lines[FirstHeader(lines).value]))
              && forall j :: 0 <= j < FirstHeader(lines).value ==> !IsHeaderLine(Strip(lines[j]))
    ensures FirstHeader(lines).None? ==> forall j :: 0 <= j < |lines| ==> !IsHeaderLine(Strip(lines[j]))
  {
    KindsMeaning(lines);
  }

  /** The indices at or after `i` of the lines that are not blank, in order. */
  function NonBlankFrom(kinds: seq<LineKind>, i: nat): (r: seq<nat>)
    requires i <= |kinds|
    ensures forall k :: 0 <= k < |r| ==> i <= r[k] < |kinds| && kinds[r[k]] != BlankLine
    decreases |kinds| - i
  {
    if i == |kinds| then []
    else if kinds[i] == BlankLine then NonBlankFrom(kinds, i + 1)
    else [i] + NonBlankFrom(kinds, i + 1)
  }

  function Take(s: seq<nat>, n: nat): (r: seq<nat>)
    ensures |r| <= n && r <= s
    ensures |s| <= n ==> r == s
  {
    if |s| <= n then s else s[..n]
  }

  lemma TakeCons(x: nat, rest: seq<nat>, n: nat)
    requires n > 0
    ensures Take([x] + rest, n) == [x] + Take(rest, n - 1)
  {
    if |rest| + 1 > n {
      assert ([x] + rest)[..n] == [x] + rest[..n - 1];
    }
  }

  /** Before the header: nothing is collected, and the loop carries on just
      after the first header line, if there is one. */
  lemma {:induction false} SeekingPhase(kinds: seq<LineKind>, i: nat)
    requires i <= |kinds|
    ensures FirstHeaderFrom(kinds, i).None? ==> ScanFrom(kinds, i, Scan([], false, 0)) == Scan([], false, 0)
    ensures FirstHeaderFrom(kinds, i).Some? ==>
              ScanFrom(kinds, i, Scan([], false, 0))
              == ScanFrom(kinds, FirstHeaderFrom(kinds, i).value + 1, Scan([], true, 0))
    decreases |kinds| - i
  {
    if i < |kinds| {
      if kinds[i] == HeaderLine {
        ScanHeader(kinds, i, Scan([], false, 0));
      } else {
        ScanSkip(kinds, i, Scan([], false, 0));
        SeekingPhase(kinds, i + 1);
      }
    }
  }

  /** After the header: every non-blank line is a data row, up to the cap. */
  lemma {:induction false} ParsingPhase(kinds: seq<LineKind>, i: nat, rows: seq<nat>, count: nat)
    requires i <= |kinds| && count <= MaxParseRows
    ensures Collected(kinds, i, rows, count)
    decreases |kinds| - i
  {
    if i == |kinds| {
      assert rows + [] == rows;
    } else if kinds[i] == BlankLine {
      ParsingPhase(kinds, i + 1, rows, count);
      BlankStep(kinds, i, rows, count);
    } else if count == MaxParseRows {
      ScanRow(kinds, i, Scan(rows, true, count));
      assert rows + [] == rows;
    } else {
      ParsingPhase(kinds, i + 1, rows + [i], count + 1);
      RowStep(kinds, i, rows, count);
    }
  }

  /** From line `i` on, with the header seen, the scan collects the next
      non-blank lines up to the cap. */
  predicate Collected(kinds: seq<LineKind>, i: nat, rows: seq<nat>, count: nat)
    requires i <= |kinds| && count <= MaxParseRows
  {
    ScanFrom(kinds, i, Scan(rows, true, count)).headerFound
    && ScanFrom(kinds, i, Scan(rows, true, count)).rows == rows + Collect(kinds, i, MaxParseRows - count)
  }

  /** The next `n` non-blank lines at or after `i`. */
  function Collect(kinds: seq<LineKind>, i: nat, n: nat): (rows: seq<nat>)
    requires i <= |kinds|
    decreases |kinds| - i
  {
    if i == |kinds| then []
    else if kinds[i] == BlankLine then Collect(kinds, i + 1, n)
    else if n == 0 then []
    else [i] + Collect(kinds, i + 1, n - 1)
  }

  lemma {:induction false} CollectIsTake(kinds: seq<LineKind>, i: nat, n: nat)
    requires i <= |kinds|
    ensures Collect(kinds, i, n) == Take(NonBlankFrom(kinds, i), n)
    decreases |kinds| - i
  {
    if i == |kinds| {
    } else if kinds[i] == BlankLine {
      CollectIsTake(kinds, i + 1, n);
    } else if n > 0 {
      CollectIsTake(kinds, i + 1, n - 1);
      TakeCons(i, NonBlankFrom(kinds, i + 1), n);
    }
  }

  lemma BlankStep(kinds: seq<LineKind>, i: nat, rows: seq<nat>, count: nat)
    requires i < |kinds| && kinds[i] == BlankLine && count <= MaxParseRows
    requires Collected(kinds, i + 1, rows, count)
    ensures Collected(kinds, i, rows, count)
  {
    ScanSkip(kinds, i, Scan(rows, true, count));
  }

  lemma RowStep(kinds: seq<LineKind>, i: nat, rows: seq<nat>, count: nat)
    requires i < |kinds| && kinds[i] != BlankLine && count < MaxParseRows
    requires Collected(kinds, i + 1, rows + [i], count + 1)
    ensures Collected(kinds, i, rows, count)
  {
    ScanRow(kinds, i, Scan(rows, true, count));
    assert rows + [i] + Collect(kinds, i + 1, MaxParseRows - (count + 1))
        == rows + ([i] + Collect(kinds, i + 1, MaxParseRows - (count + 1)));
  }

  /** The first ten non-blank lines after the first header, if there is one. */
  function DataRows(lines: seq<string>): (rows: seq<nat>) {
    match FirstHeader(lines)
    case None => []
    case Some(h) => Take(NonBlankFrom(Kinds(lines), h + 1), MaxParseRows)
  }

  /** The header is found exactly when some stripped line names a column; the
      rows examined are the first ten non-blank lines after the first such
      line, keyword lines included, and no others. */
  lemma PrimaryRows(lines: seq<string>)
    ensures Scanned(lines).headerFound <==> exists h :: 0 <= h < |lines| && IsHeaderLine(Strip(lines[h]))
    ensures Scanned(lines).rows == DataRows(lines)
  {
    var kinds := Kinds(lines);
    SeekingPhase(kinds, 0);
    FirstHeaderSpec(lines);
    match FirstHeader(lines)
    case None =>
    case Some(h) =>
      ParsingPhase(kinds, h + 1, [], 0);
      assert Collected(kinds, h + 1, [], 0);
      CollectIsTake(kinds, h + 1, MaxParseRows);
      assert [] + Collect(kinds, h + 1, MaxParseRows) == Collect(kinds, h + 1, MaxParseRows);
  }

  /** Every data row is a non-blank line after the first header, and at most ten are. */
  lemma DataRowsAfterHeader(lines: seq<string>)
    ensures |Scanned(lines).rows| <= MaxParseRows
    ensures forall k :: 0 <= k < |Scanned(lines).rows| ==>
              FirstHeader(lines).Some? && FirstHeader(lines).value < Scanned(lines).rows[k] < |lines|
              && Strip(lines[Scanned(lines).rows[k]]) != ""
  {
    PrimaryRows(lines);
    KindsMeaning(lines);
  }

  // ---------------------------------------------------------------------
  // The records of the header-anchored pass

  /** The number of non-empty parts. */
  function NonEmptyParts(parts: seq<seq<Deployment>>): (n: nat) {
    if |parts| == 0 then 0
    else NonEmptyParts(parts[..|parts| - 1]) + (if parts[|parts| - 1] == [] then 0 else 1)
  }

  lemma {:induction false} ConcatCount(parts: seq<seq<Deployment>>)
    requires forall j :: 0 <= j < |parts| ==> |parts[j]| <= 1
    ensures |Concat(parts)| == NonEmptyParts(parts) <= |parts|
    ensures (forall j :: 0 <= j < |parts| ==> parts[j] != []) ==> |Concat(parts)| == |parts|
    decreases |parts|
  {
    if |parts| > 0 {
      var front := parts[..|parts| - 1];
      assert forall j :: 0 <= j < |front| ==> front[j] == parts[j];
      ConcatCount(front);
    }
  }

  /** Every record of a concatenation comes from one of its parts. */
  lemma {:induction false} ConcatMember(parts: seq<seq<Deployment>>, d: Deployment)
    requires d in Concat(parts)
    ensures exists k :: 0 <= k < |parts| && d in parts[k]
    decreases |parts|
  {
    var front := parts[..|parts| - 1];
    if d !in parts[|parts| - 1] {
      ConcatMember(front, d);
      var k :| 0 <= k < |front| && d in front[k];
      assert front[k] == parts[k];
    }
  }

  /** One data row yields the first of the five patterns that matches it, or nothing. */
  lemma RowRecordsShape(lines: seq<string>, rows: seq<nat>)
    requires forall k :: 0 <= k < |rows| ==> rows[k] < |lines|
    ensures |RowRecords(lines, rows)| <= |rows|
    ensures forall d :: d in RowRecords(lines, rows) ==>
              exists k :: 0 <= k < |rows| && PrimaryRow(lines[rows[k]]) == Some(d)
  {
    var parts := RowParts(lines, rows);
    ConcatCount(parts);
    forall d | d in RowRecords(lines, rows)
      ensures exists k :: 0 <= k < |rows| && PrimaryRow(lines[rows[k]]) == Some(d)
    {
      ConcatMember(parts, d);
      var k :| 0 <= k < |parts| && d in parts[k];
      assert PrimaryRow(lines[rows[k]]) == Some(d);
    }
  }

  /** Without a header the first pass adds nothing; with one it adds at most ten records. */
  lemma PrimaryBound(lines: seq<string>)
    ensures |PrimaryRecords(lines)| <= MaxParseRows
    ensures !Scanned(lines).headerFound ==> PrimaryRecords(lines) == []
  {
    PrimaryRows(lines);
    ScannedRows(lines);
    RowRecordsShape(lines, Scanned(lines).rows);
    FirstHeaderSpec(lines);
  }

  // ---------------------------------------------------------------------
  // The shape of every record

  /** A record's URL has the captured shape and its status is a status word
      exactly as it appeared. */
  predicate ValidRecord(d: Deployment) {
    IsCapturedUrl(d.url) && IsStatusText(d.status)
  }

  predicate AllValid(ds: seq<Deployment>) {
    forall k :: 0 <= k < |ds| ==> ValidRecord(ds[k])
  }

  lemma AllValidConcat(a: seq<Deployment>, b: seq<Deployment>)
    requires AllValid(a) && AllValid(b)
    ensures AllValid(a + b)
  {
    forall k | 0 <= k < |a + b| ensures ValidRecord((a + b)[k]) {
      if k < |a| { assert (a + b)[k] == a[k]; } else { assert (a + b)[k] == b[k - |a|]; }
    }
  }

  lemma {:induction false} ConcatValid(parts: seq<seq<Deployment>>)
    requires forall j :: 0 <= j < |parts| ==> AllValid(parts[j])
    ensures AllValid(Concat(parts))
    decreases |parts|
  {
    if |parts| > 0 {
      var front := parts[..|parts| - 1];
      assert forall j :: 0 <= j < |front| ==> front[j] == parts[j];
      ConcatValid(front);
      AllValidConcat(Concat(front), parts[|parts| - 1]);
    }
  }

  lemma RowRecordsValid(lines: seq<string>, rows: seq<nat>)
    requires forall k :: 0 <= k < |rows| ==> rows[k] < |lines|
    ensures AllValid(RowRecords(lines, rows))
  {
    var parts := RowParts(lines, rows);
    forall k | 0 <= k < |parts| ensures AllValid(parts[k]) {
      var d := PrimaryRow(lines[rows[k]]);
      assert parts[k] == AsRecords(d);
    }
    ConcatValid(parts);
  }

  /** A status the neighbour search returns is a full status word. */
  lemma {:induction false} NeighbourFromFull(statuses: seq<Option<string>>, i: nat, j: nat, hi: nat)
    requires j <= hi <= |statuses|
    requires forall m :: 0 <= m < |statuses| && statuses[m].Some? ==> IsFullStatus(statuses[m].value)
    ensures NeighbourFrom(statuses, i, j, hi).Some? ==> IsFullStatus(NeighbourFrom(statuses, i, j, hi).value)
    decreases hi - j
  {
    if j < hi && !(j != i && statuses[j].Some?) {
      NeighbourFromFull(statuses, i, j + 1, hi);
    }
  }

  lemma FallbackLineValid(lines: seq<string>, i: nat)
    requires i < |lines|
    ensures AllValid(FallbackLine(lines, i))
    ensures forall k :: 0 <= k < |FallbackLine(lines, i)| ==> IsFullStatus(FallbackLine(lines, i)[k].status)
  {
    var r := FallbackLine(lines, i);
    if r != [] {
      var d := r[0];
      if FallbackRow(lines[i]).None? {
        var lo, hi := WindowStart(i), WindowEnd(i, |lines|);
        assert lo <= hi;
        var statuses := Statuses(lines);
        assert forall m :: 0 <= m < |statuses| ==> statuses[m] == LineStatus(lines, m);
        NeighbourFromFull(statuses, i, lo, hi);
        assert IsFullStatus(d.status);
      }
      assert ValidRecord(d) && IsFullStatus(d.status);
      assert r == [d];
    }
  }

  lemma FallbackValid(lines: seq<string>)
    ensures AllValid(Fallback(lines))
  {
    var parts := FallbackLines(lines);
    forall j | 0 <= j < |parts| ensures AllValid(parts[j]) {
      FallbackLineValid(lines, j);
    }
    ConcatValid(parts);
  }

  /** A case-sensitive `https://` is also a case-insensitive one. */
  lemma PlainUrlCaptured(url: string)
    requires |url| >= 9 && StartsWith(url, "https://") && NoSpace(url)
    ensures IsCapturedUrl(url)
  {
    assert forall k :: 0 <= k < 8 ==> url[k] == "https://"[k];
  }

  lemma GuessForValid(line: string, k: nat, autoConfirm: bool)
    ensures AllValid(GuessFor(line, k, autoConfirm))
  {
    var g := GuessFor(line, k, autoConfirm);
    if g != [] {
      PlainUrlCaptured(g[0].url);
      assert EqualsCI(g[0].status, if k == 0 then "building" else "queued");
    }
  }

  lemma {:induction false} AggressiveUpToValid(cands: seq<string>, k: nat, autoConfirm: bool)
    requires k <= |cands|
    ensures AllValid(AggressiveUpTo(cands, k, autoConfirm))
    decreases k
  {
    if k > 0 {
      AggressiveUpToValid(cands, k - 1, autoConfirm);
      GuessForValid(cands[k - 1], k - 1, autoConfirm);
      AllValidConcat(AggressiveUpTo(cands, k - 1, autoConfirm), GuessFor(cands[k - 1], k - 1, autoConfirm));
    }
  }

  /** Every record of every stage has a captured URL and a status word as written. */
  lemma ParseValid(lines: seq<string>, autoConfirm: bool)
    ensures AllValid(Parse(lines, autoConfirm))
  {
    ScannedRows(lines);
    RowRecordsValid(lines, Scanned(lines).rows);
    FallbackValid(lines);
    AllValidConcat(PrimaryRecords(lines), Fallback(lines));
    AggressiveUpToValid(Candidates(lines), |Candidates(lines)|, autoConfirm);
    AllValidConcat(Structured(lines), Aggressive(lines, autoConfirm));
  }

  // ---------------------------------------------------------------------
  // The headerless fallback

  /** The fallback contributes exactly when no header was seen; then it is the
      whole structured result. */
  lemma FallbackGating(lines: seq<string>)
    ensures Scanned(lines).headerFound ==> Structured(lines) == PrimaryRecords(lines)
    ensures !Scanned(lines).headerFound ==> Structured(lines) == Fallback(lines)
  {
    PrimaryBound(lines);
  }

  /** Lines that are blank, start with `>` or with the help text, and lines
      without a case-sensitive `https://`, add nothing. */
  lemma FallbackSkips(lines: seq<string>, i: nat)
    requires i < |lines|
    requires IsFallbackNoise(Strip(lines[i])) || !Contains(lines[i], "https://")
    ensures FallbackLine(lines, i) == []
  {
  }

  /** No row cap: the fallback yields one record for every line that has one,
      however many there are. */
  lemma FallbackNoRowCap(lines: seq<string>)
    ensures |Fallback(lines)| == NonEmptyParts(FallbackLines(lines))
    ensures (forall i :: 0 <= i < |lines| ==> FallbackLine(lines, i) != []) ==> |Fallback(lines)| == |lines|
  {
    var parts := FallbackLines(lines);
    assert forall j :: 0 <= j < |parts| ==> parts[j] == FallbackLine(lines, j);
    ConcatCount(parts);
  }

  // ---------------------------------------------------------------------
  // The neighbour search

  /** Line `j` is one the search for line `i` looks at: two lines either side, clipped. */
  predicate InWindow(i: nat, j: nat, n: nat) {
    j != i && j < n && i <= j + 2 && j <= i + 2
  }

  lemma {:induction false} NeighbourFromSpec(statuses: seq<Option<string>>, i: nat, j: nat, hi: nat)
    requires j <= hi <= |statuses|
    ensures NeighbourFrom(statuses, i, j, hi).None? <==>
              forall m :: j <= m < hi && m != i ==> statuses[m].None?
    ensures NeighbourFrom(statuses, i, j, hi).Some? ==>
              exists m :: j <= m < hi && m != i && statuses[m] == NeighbourFrom(statuses, i, j, hi)
                          && forall m' :: j <= m' < m && m' != i ==> statuses[m'].None?
    decreases hi - j
  {
    if j < hi {
      NeighbourFromSpec(statuses, i, j + 1, hi);
      if !(j != i && statuses[j].Some?) {
        var r := NeighbourFrom(statuses, i, j + 1, hi);
        if r.Some? {
          var m :| j + 1 <= m < hi && m != i && statuses[m] == r
                   && forall m' :: j + 1 <= m' < m && m' != i ==> statuses[m'].None?;
          assert forall m' :: j <= m' < m && m' != i ==> statuses[m'].None?;
        }
      }
    }
  }

  /** The search takes the status of the first window line, in index order,
      that has a whole-word status, and finds none only when no window line has one. */
  lemma NeighbourWindow(lines: seq<string>, i: nat)
    requires i < |lines|
    ensures NeighbourStatus(lines, i).None? <==>
              forall j :: InWindow(i, j, |lines|) ==> LineStatus(lines, j).None?
    ensures NeighbourStatus(lines, i).Some? ==>
              exists j :: InWindow(i, j, |lines|) && LineStatus(lines, j) == NeighbourStatus(lines, i)
                          && forall j' :: j' < j && InWindow(i, j', |lines|) ==> LineStatus(lines, j').None?
  {
    var lo, hi := WindowStart(i), WindowEnd(i, |lines|);
    var statuses := Statuses(lines);
    NeighbourFromSpec(statuses, i, lo, hi);
    assert forall j :: 0 <= j < |lines| ==> statuses[j] == LineStatus(lines, j);
    assert forall j :: InWindow(i, j, |lines|) <==> lo <= j < hi && j != i;
  }

  /** A bare-URL line without a neighbouring status adds nothing; with one,
      it adds the URL and that status. */
  lemma BareUrlLine(lines: seq<string>, i: nat)
    requires i < |lines| && !IsFallbackNoise(Strip(lines[i])) && Contains(lines[i], "https://")
    requires FallbackRow(lines[i]).None? && LeadingUrl(lines[i]).Some?
    ensures NeighbourStatus(lines, i).None? ==> FallbackLine(lines, i) == []
    ensures NeighbourStatus(lines, i).Some? ==>
              FallbackLine(lines, i) == [Deployment(LeadingUrl(lines[i]).value, NeighbourStatus(lines, i).value)]
  {
  }

  // ---------------------------------------------------------------------
  // The aggressive stage

  lemma {:induction false} AggressiveUpToBound(cands: seq<string>, k: nat, autoConfirm: bool)
    requires k <= |cands|
    ensures |AggressiveUpTo(cands, k, autoConfirm)| <= k
    ensures !autoConfirm ==> AggressiveUpTo(cands, k, autoConfirm) == []
    decreases k
  {
    if k > 0 {
      AggressiveUpToBound(cands, k - 1, autoConfirm);
    }
  }

  /** Without the opt-in flag the aggressive stage adds nothing; with it, at most three guesses. */
  lemma AggressiveGate(lines: seq<string>, autoConfirm: bool)
    ensures |Aggressive(lines, autoConfirm)| <= 3
    ensures !autoConfirm ==> Aggressive(lines, autoConfirm) == []
    ensures !autoConfirm ==> Parse(lines, autoConfirm) == Structured(lines)
  {
    AggressiveUpToBound(Candidates(lines), |Candidates(lines)|, autoConfirm);
  }

  /** The aggressive stage runs only on an empty result; otherwise the result is what the first two stages found. */
  lemma AggressiveOnlyWhenEmpty(lines: seq<string>, autoConfirm: bool)
    ensures |Structured(lines)| > 0 ==> Parse(lines, autoConfirm) == Structured(lines)
    ensures |UrlLines(lines)| < 3 ==> Parse(lines, autoConfirm) == Structured(lines)
    ensures AggressiveTriggered(lines) ==> Parse(lines, autoConfirm) == Aggressive(lines, autoConfirm)
  {
    if AggressiveTriggered(lines) {
      assert Structured(lines) == [];
      assert [] + Aggressive(lines, autoConfirm) == Aggressive(lines, autoConfirm);
    }
  }

  /** A URL the aggressive regex finds is a case-sensitive `https://` in the line. */
  lemma PlainUrlContains(s: string)
    requires PlainUrl(s).Some?
    ensures Contains(s, "https://")
  {
    var url := PlainUrl(s).value;
    var p :| 0 <= p <= |s| && OccursAt(s, url, p);
    assert s[p..p + 8] == url[..8];
    assert OccursAt(s, "https://", p);
  }

  /** With the flag on and a URL on each of the first three URL lines, the
      guesses are Building, Queued, Queued, in the order of the lines. */
  lemma AggressiveGuesses(lines: seq<string>)
    requires |UrlLines(lines)| >= 3
    requires forall k :: 0 <= k < 3 ==> PlainUrl(UrlLines(lines)[k]).Some?
    ensures Aggressive(lines, true) == [
              Deployment(PlainUrl(UrlLines(lines)[0]).value, "Building"),
              Deployment(PlainUrl(UrlLines(lines)[1]).value, "Queued"),
              Deployment(PlainUrl(UrlLines(lines)[2]).value, "Queued")]
  {
    var c := Candidates(lines);
    assert |c| == 3 && forall k :: 0 <= k < 3 ==> c[k] == UrlLines(lines)[k];
    var g := seq(3, k requires 0 <= k < 3 => Deployment(PlainUrl(c[k]).value, AssumedStatus(k)));
    forall k | 0 <= k < 3 ensures GuessFor(c[k], k, true) == [g[k]] {
      PlainUrlContains(c[k]);
    }
    assert AggressiveUpTo(c, 1, true) == [g[0]];
    assert AggressiveUpTo(c, 2, true) == [g[0], g[1]];
    assert AggressiveUpTo(c, 3, true) == [g[0], g[1], g[2]];
  }

  /** With a header, the parser returns at most ten records. */
  lemma HeaderBound(lines: seq<string>, autoConfirm: bool)
    requires Scanned(lines).headerFound
    ensures |Parse(lines, autoConfirm)| <= MaxParseRows
  {
    PrimaryBound(lines);
    AggressiveGate(lines, autoConfirm);
    if AggressiveTriggered(lines) {
      assert Structured(lines) == [];
    }
  }
}
