/** `parse_deployments`: the header-anchored pass, the headerless fallback
    with its neighbour search, and the aggressive stage.  Each pass is a
    method with the loops of the script, proved equal to a specification
    function; the properties of those functions are in `ParserFacts`. */
module Parser {
  import opened Text
  import opened Patterns

  /** `MAX_PARSE_ROWS`: data rows the header-anchored pass examines. */
  const MaxParseRows: nat := 10

  /** The header test, on the stripped line: any of five keywords, case-sensitive. */
  predicate IsHeaderLine(stripped: string) {
    || Contains(stripped, "Age") || Contains(stripped, "Deployment") || Contains(stripped, "Status")
    || Contains(stripped, "Environment") || Contains(stripped, "Duration")
  }

  /** The records a row yields: none or one. */
  function AsRecords(d: Option<Deployment>): (r: seq<Deployment>)
    ensures |r| <= 1 && (r == [] <==> d.None?)
    ensures d.Some? ==> r == [d.value]
  {
    match d
    case Some(x) => [x]
    case None => []
  }

  // ---------------------------------------------------------------------
  // The header-anchored pass

  /** How the first loop treats a line, before any state is consulted. */
  datatype LineKind = BlankLine | HeaderLine | OtherLine

  /** Blank once stripped, naming a column, or anything else. */
  function KindOf(line: string): (k: LineKind)
    ensures k == BlankLine <==> Strip(line) == ""
    ensures k == HeaderLine <==> Strip(line) != "" && IsHeaderLine(Strip(line))
  {
    var stripped := Strip(line);
    if stripped == "" then BlankLine else if IsHeaderLine(stripped) then HeaderLine else OtherLine
  }

  function Kinds(lines: seq<string>): (r: seq<LineKind>)
    ensures |r| == |lines|
  {
    seq(|lines|, i requires 0 <= i < |lines| => KindOf(lines[i]))
  }

  /** The variables of the first loop, with the data rows it hands to the
      patterns in place of the records (`start_parsing` always equals
      `header_found`). */
  datatype Scan = Scan(rows: seq<nat>, headerFound: bool, parseCount: nat)

  /** The first loop run from line `i` on: blank lines are skipped, the first
      line naming a column is the header, every later non-blank line is a data
      row, and the eleventh data row stops the loop. */
  function ScanFrom(kinds: seq<LineKind>, i: nat, st: Scan): (r: Scan)
    requires i <= |kinds|
    decreases |kinds| - i
  {
    if i == |kinds| then st
    else if kinds[i] == BlankLine then ScanFrom(kinds, i + 1, st)
    else if !st.headerFound && kinds[i] == HeaderLine then ScanFrom(kinds, i + 1, st.(headerFound := true))
    else if !st.headerFound then ScanFrom(kinds, i + 1, st)
    else if st.parseCount + 1 > MaxParseRows then st.(parseCount := st.parseCount + 1)
    else ScanFrom(kinds, i + 1, Scan(st.rows + [i], true, st.parseCount + 1))
  }

  function Scanned(lines: seq<string>): (r: Scan) {
    ScanFrom(Kinds(lines), 0, Scan([], false, 0))
  }

  /** The loop only appends data rows, and each is a line at or after `i`. */
  lemma {:induction false} ScanFromRows(kinds: seq<LineKind>, i: nat, st: Scan)
    requires i <= |kinds|
    ensures st.rows <= ScanFrom(kinds, i, st).rows
    ensures forall k :: |st.rows| <= k < |ScanFrom(kinds, i, st).rows| ==> i <= ScanFrom(kinds, i, st).rows[k] < |kinds|
    decreases |kinds| - i
  {
    if i < |kinds| {
      var next := if kinds[i] == BlankLine || !st.headerFound then st.(headerFound := st.headerFound || kinds[i] == HeaderLine)
                  else Scan(st.rows + [i], true, st.parseCount + 1);
      if kinds[i] != BlankLine && st.headerFound && st.parseCount + 1 > MaxParseRows {
        assert ScanFrom(kinds, i, st).rows == st.rows;
      } else {
        assert ScanFrom(kinds, i, st) == ScanFrom(kinds, i + 1, next);
        ScanFromRows(kinds, i + 1, next);
      }
    }
  }

  /** One step of the first loop on a line it passes over. */
  lemma ScanSkip(kinds: seq<LineKind>, i: nat, st: Scan)
    requires i < |kinds| && (kinds[i] == BlankLine || (!st.headerFound && kinds[i] == OtherLine))
    ensures ScanFrom(kinds, i, st) == ScanFrom(kinds, i + 1, st)
  {
  }

  /** One step of the first loop on the header line. */
  lemma ScanHeader(kinds: seq<LineKind>, i: nat, st: Scan)
    requires i < |kinds| && !st.headerFound && kinds[i] == HeaderLine
    ensures ScanFrom(kinds, i, st) == ScanFrom(kinds, i + 1, st.(headerFound := true))
  {
  }

  /** One step of the first loop on a data row, under the cap and at it. */
  lemma ScanRow(kinds: seq<LineKind>, i: nat, st: Scan)
    requires i < |kinds| && st.headerFound && kinds[i] != BlankLine
    ensures st.parseCount + 1 <= MaxParseRows ==>
              ScanFrom(kinds, i, st) == ScanFrom(kinds, i + 1, Scan(st.rows + [i], true, st.parseCount + 1))
    ensures st.parseCount + 1 > MaxParseRows ==> ScanFrom(kinds, i, st) == st.(parseCount := st.parseCount + 1)
  {
  }

  /** Every data row is a line of the output. */
  lemma ScannedRows(lines: seq<string>)
    ensures forall k :: 0 <= k < |Scanned(lines).rows| ==> Scanned(lines).rows[k] < |lines|
  {
    ScanFromRows(Kinds(lines), 0, Scan([], false, 0));
  }

  /** The records of `parts`, one part after another. */
  function Concat(parts: seq<seq<Deployment>>): (ds: seq<Deployment>) {
    if |parts| == 0 then [] else Concat(parts[..|parts| - 1]) + parts[|parts| - 1]
  }

  lemma ConcatSnoc(parts: seq<seq<Deployment>>, i: nat)
    requires i < |parts|
    ensures Concat(parts[..i + 1]) == Concat(parts[..i]) + parts[i]
  {
    assert parts[..i + 1][..i] == parts[..i];
  }

  /** The records the patterns find on the given data rows, in order. */
  function RowRecords(lines: seq<string>, rows: seq<nat>): (r: seq<Deployment>)
    requires forall k :: 0 <= k < |rows| ==> rows[k] < |lines|
  {
    Concat(RowParts(lines, rows))
  }

  /** What each data row adds, row by row. */
  function RowParts(lines: seq<string>, rows: seq<nat>): (r: seq<seq<Deployment>>)
    requires forall k :: 0 <= k < |rows| ==> rows[k] < |lines|
    ensures |r| == |rows|
  {
    seq(|rows|, k requires 0 <= k < |rows| => AsRecords(PrimaryRow(lines[rows[k]])))
  }

  /** One more data row appends what it yields. */
  lemma RowRecordsSnoc(lines: seq<string>, rows: seq<nat>, i: nat)
    requires forall k :: 0 <= k < |rows| ==> rows[k] < |lines|
    requires i < |lines|
    ensures RowRecords(lines, rows + [i]) == RowRecords(lines, rows) + AsRecords(PrimaryRow(lines[i]))
  {
    var parts := RowParts(lines, rows + [i]);
    assert parts[..|rows|] == RowParts(lines, rows);
    ConcatSnoc(parts, |rows|);
    assert parts[..|rows| + 1] == parts;
  }

  function PrimaryRecords(lines: seq<string>): (ds: seq<Deployment>) {
    ScannedRows(lines);
    RowRecords(lines, Scanned(lines).rows)
  }

  /** The inner loop over a pattern list: the first pattern that matches gives the record. */
  method MatchFirst(ps: seq<Pattern>, line: string) returns (d: Option<Deployment>)
    ensures d == FirstMatch(ps, line)
  {
    d := None;
    ghost var rs := Results(ps, line);
    for k := 0 to |ps|
      invariant d.None?
      invariant FirstSomeFrom(rs, k) == FirstMatch(ps, line)
    {
      var m := Apply(ps[k], line);
      assert m == rs[k];
      if m.Some? {
        d := m;
        break;
      }
    }
  }

  /** The pattern loop of the header-anchored pass on one data row. */
  method MatchPrimaryRow(line: string) returns (d: Option<Deployment>)
    ensures d == PrimaryRow(line)
  {
    d := MatchFirst(PrimaryPatterns, line);
  }

  /** The header-anchored pass: the records it appends and whether a header was seen. */
  method PrimaryPass(lines: seq<string>) returns (deployments: seq<Deployment>, headerFound: bool)
    ensures deployments == PrimaryRecords(lines)
    ensures headerFound == Scanned(lines).headerFound
  {
    deployments := [];
    headerFound := false;
    var startParsing := false;
    var parseCount: nat := 0;
    ghost var rows: seq<nat> := [];
    ghost var kinds := Kinds(lines);
    ghost var whole := ScanFrom(kinds, 0, Scan([], false, 0));
    assert whole == Scanned(lines);
    for i := 0 to |lines|
      invariant startParsing == headerFound
      invariant forall k :: 0 <= k < |rows| ==> rows[k] < i
      invariant whole == ScanFrom(kinds, i, Scan(rows, headerFound, parseCount))
      invariant deployments == RowRecords(lines, rows)
    {
      ghost var st := Scan(rows, headerFound, parseCount);
      assert kinds[i] == KindOf(lines[i]);
      var line := Strip(lines[i]);
      if line == "" {
        ScanSkip(kinds, i, st);
        continue;
      }
      if !headerFound && IsHeaderLine(line) {
        ScanHeader(kinds, i, st);
        headerFound := true;
        startParsing := true;
        continue;
      }
      if !startParsing {
        ScanSkip(kinds, i, st);
        continue;
      }
      ScanRow(kinds, i, st);
      parseCount := parseCount + 1;
      if parseCount > MaxParseRows {
        break;
      }
      var row := MatchPrimaryRow(lines[i]);
      RowRecordsSnoc(lines, rows, i);
      rows := rows + [i];
      if row.Some? {
        deployments := deployments + [row.value];
      }
    }
  }

  // ---------------------------------------------------------------------
  // The headerless fallback

  /** The lines the neighbour search looks at around line `i`: indices
      `i-2 .. i+2` clipped to the output (`i` itself is skipped). */
  function WindowStart(i: nat): (lo: nat) {
    if i >= 2 then i - 2 else 0
  }

  function WindowEnd(i: nat, n: nat): (hi: nat) {
    if i + 3 <= n then i + 3 else n
  }

  /** The whole-word status of line `j`, searched in its stripped text. */
  function LineStatus(lines: seq<string>, j: nat): (status: Option<string>)
    requires j < |lines|
  {
    WordStatus(Strip(lines[j]))
  }

  /** The whole-word status of every line, line by line. */
  function Statuses(lines: seq<string>): (r: seq<Option<string>>)
    ensures |r| == |lines|
  {
    seq(|lines|, j requires 0 <= j < |lines| => LineStatus(lines, j))
  }

  /** The neighbour loop from index `j` on: the first line other than `i` with a status. */
  function NeighbourFrom(statuses: seq<Option<string>>, i: nat, j: nat, hi: nat): (status: Option<string>)
    requires j <= hi <= |statuses|
    decreases hi - j
  {
    if j == hi then None
    else if j != i && statuses[j].Some? then statuses[j]
    else NeighbourFrom(statuses, i, j + 1, hi)
  }

  function NeighbourStatus(lines: seq<string>, i: nat): (status: Option<string>) {
    var lo, hi := WindowStart(i), WindowEnd(i, |lines|);
    if lo <= hi then NeighbourFrom(Statuses(lines), i, lo, hi) else None
  }

  /** The neighbour search for a line that holds only a URL. */
  method FindNeighbourStatus(lines: seq<string>, i: nat) returns (status: Option<string>)
    ensures status == NeighbourStatus(lines, i)
  {
    status := None;
    ghost var statuses := Statuses(lines);
    var lo, hi := WindowStart(i), WindowEnd(i, |lines|);
    if lo > hi {
      return;
    }
    for j := lo to hi
      invariant status.None?
      invariant NeighbourFrom(statuses, i, j, hi) == NeighbourStatus(lines, i)
    {
      if i == j {
        continue;
      }
      var found := WordStatus(Strip(lines[j]));
      assert found == statuses[j];
      if found.Some? {
        status := found;
        break;
      }
    }
  }

  /** Lines the fallback passes over: blank, a `>` hint, or the closing help text. */
  predicate IsFallbackNoise(stripped: string) {
    stripped == "" || StartsWith(stripped, ">") || StartsWith(stripped, "You can learn more")
  }

  /** The records line `i` adds in the fallback: a same-line match, or a bare
      leading URL paired with a neighbour's status. */
  function FallbackLine(lines: seq<string>, i: nat): (r: seq<Deployment>)
    requires i < |lines|
    ensures |r| <= 1
  {
    if IsFallbackNoise(Strip(lines[i])) || !Contains(lines[i], "https://") then []
    else match FallbackRow(lines[i])
      case Some(d) => [d]
      case None =>
        match LeadingUrl(lines[i])
        case None => []
        case Some(url) => AsRecords(
          match NeighbourStatus(lines, i)
          case Some(status) => Some(Deployment(url, status))
          case None => None)
  }

  /** What each line adds in the fallback, line by line. */
  function FallbackLines(lines: seq<string>): (r: seq<seq<Deployment>>)
    ensures |r| == |lines|
  {
    seq(|lines|, i requires 0 <= i < |lines| => FallbackLine(lines, i))
  }

  function Fallback(lines: seq<string>): (ds: seq<Deployment>) {
    Concat(FallbackLines(lines))
  }

  /** The loop over the two-group fallback patterns on one line. */
  method MatchFallbackRow(line: string) returns (d: Option<Deployment>)
    ensures d == FallbackRow(line)
  {
    d := MatchFirst(FallbackPatterns, line);
  }

  /** The fallback pass.  Its row counter is tested but never incremented,
      so it visits every line. */
  method FallbackPass(lines: seq<string>) returns (deployments: seq<Deployment>)
    ensures deployments == Fallback(lines)
  {
    deployments := [];
    var parseCount := 0;
    ghost var parts := FallbackLines(lines);
    for i := 0 to |lines|
      invariant parseCount == 0
      invariant deployments == Concat(parts[..i])
    {
      if parseCount >= MaxParseRows {
        break;
      }
      ConcatSnoc(parts, i);
      var line := Strip(lines[i]);
      if line == "" || StartsWith(line, ">") || StartsWith(line, "You can learn more") {
        continue;
      }
      if Contains(lines[i], "https://") {
        var row := MatchFallbackRow(lines[i]);
        if row.Some? {
          deployments := deployments + [row.value];
        } else {
          var url := LeadingUrl(lines[i]);
          if url.Some? {
            var status := FindNeighbourStatus(lines, i);
            if status.Some? {
              deployments := deployments + [Deployment(url.value, status.value)];
            }
          }
        }
      }
    }
    assert parts[..|lines|] == parts;
  }

  // ---------------------------------------------------------------------
  // The aggressive stage

  /** `[l.strip() for l in lines if 'https://' in l and l.strip()]`. */
  function UrlLines(lines: seq<string>): (r: seq<string>)
    ensures |r| <= |lines|
    ensures forall k :: 0 <= k < |r| ==> r[k] != ""
  {
    if |lines| == 0 then []
    else
      var stripped := Strip(lines[|lines| - 1]);
      var keep := if Contains(lines[|lines| - 1], "https://") && stripped != "" then [stripped] else [];
      UrlLines(lines[..|lines| - 1]) + keep
  }

  /** The URL lines the aggressive stage looks at: the first three. */
  function Candidates(lines: seq<string>): (r: seq<string>)
    ensures |r| <= 3
  {
    var all := UrlLines(lines);
    if |all| <= 3 then all else all[..3]
  }

  /** The status guessed for the `k`-th candidate. */
  function AssumedStatus(k: nat): (status: string) {
    if k == 0 then "Building" else "Queued"
  }

  /** What the `k`-th candidate adds: a guess, kept only with the opt-in flag. */
  function GuessFor(line: string, k: nat, autoConfirm: bool): (r: seq<Deployment>)
    ensures |r| <= 1
  {
    if Contains(line, "https://") && PlainUrl(line).Some? && autoConfirm
    then [Deployment(PlainUrl(line).value, AssumedStatus(k))]
    else []
  }

  function AggressiveUpTo(cands: seq<string>, k: nat, autoConfirm: bool): (ds: seq<Deployment>)
    requires k <= |cands|
  {
    if k == 0 then [] else AggressiveUpTo(cands, k - 1, autoConfirm) + GuessFor(cands[k - 1], k - 1, autoConfirm)
  }

  function Aggressive(lines: seq<string>, autoConfirm: bool): (ds: seq<Deployment>) {
    AggressiveUpTo(Candidates(lines), |Candidates(lines)|, autoConfirm)
  }

  /** The aggressive stage's loop over the first three URL lines. */
  method AggressivePass(lines: seq<string>, autoConfirm: bool) returns (deployments: seq<Deployment>)
    ensures deployments == Aggressive(lines, autoConfirm)
  {
    deployments := [];
    var urlLines := UrlLines(lines);
    var firstThree := if |urlLines| <= 3 then urlLines else urlLines[..3];
    for i := 0 to |firstThree|
      invariant deployments == AggressiveUpTo(firstThree, i, autoConfirm)
    {
      var urlLine := firstThree[i];
      if Contains(urlLine, "https://") {
        var urlMatch := PlainUrl(urlLine);
        if urlMatch.Some? {
          var assumedStatus := if i == 0 then "Building" else "Queued";
          if autoConfirm {
            deployments := deployments + [Deployment(urlMatch.value, assumedStatus)];
          }
        }
      }
    }
  }

  // ---------------------------------------------------------------------
  // The three stages together

  /** What the header pass and, without a header, the fallback found. */
  function Structured(lines: seq<string>): (ds: seq<Deployment>) {
    if Scanned(lines).headerFound then PrimaryRecords(lines) else PrimaryRecords(lines) + Fallback(lines)
  }

  /** The aggressive stage runs when nothing was found and at least three lines hold a URL. */
  predicate AggressiveTriggered(lines: seq<string>) {
    |Structured(lines)| == 0 && |UrlLines(lines)| >= 3
  }

  function Parse(lines: seq<string>, autoConfirm: bool): (ds: seq<Deployment>) {
    var found := Structured(lines);
    if AggressiveTriggered(lines) then found + Aggressive(lines, autoConfirm) else found
  }

  /** The whole parser on the lister's raw text. */
  function ParseOutput(output: string, autoConfirm: bool): (ds: seq<Deployment>) {
    Parse(Split(output, '\n'), autoConfirm)
  }

  /** `parse_deployments`, with the opt-in flag read from the environment passed in. */
  method ParseDeployments(output: string, autoConfirm: bool) returns (deployments: seq<Deployment>)
    ensures deployments == ParseOutput(output, autoConfirm)
  {
    var lines := Split(output, '\n');
    var headerFound;
    deployments, headerFound := PrimaryPass(lines);
    if !headerFound {
      var more := FallbackPass(lines);
      deployments := deployments + more;
    }
    if |deployments| == 0 && |UrlLines(lines)| >= 3 {
      var guesses := AggressivePass(lines, autoConfirm);
      deployments := deployments + guesses;
    }
  }
}
