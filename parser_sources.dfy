/** Where the records of `parse_deployments` come from: every URL, and every
    status the first two stages return, is text of one of the lines as it
    stands (nothing is rewritten or case-normalised), and the aggressive
    stage pairs a URL from one of its candidate lines with the status it
    assumes for that line's position. */
module ParserSources {
  import opened Text
  import opened Patterns
  import opened Parser
  import opened ParserFacts

  /** `t` appears, as it stands, in one of the lines. */
  predicate OnSomeLine(t: string, lines: seq<string>) {
    exists j :: 0 <= j < |lines| && IsSubstring(t, lines[j])
  }

  /** Both groups of `d` are text of the lines. */
  predicate AsCaptured(d: Deployment, lines: seq<string>) {
    OnSomeLine(d.url, lines) && OnSomeLine(d.status, lines)
  }

  lemma SubstringTrans(t: string, u: string, s: string)
    requires IsSubstring(t, u) && IsSubstring(u, s)
    ensures IsSubstring(t, s)
  {
    var i :| 0 <= i <= |u| && OccursAt(u, t, i);
    var j :| 0 <= j <= |s| && OccursAt(s, u, j);
    forall p | 0 <= p < |t| ensures s[j + i + p] == t[p] {
      assert s[j..j + |u|][i + p] == u[i + p];
      assert u[i..i + |t|][p] == t[p];
    }
    assert s[j + i..j + i + |t|] == t;
    assert OccursAt(s, t, j + i);
  }

  /** Text of a stripped line is text of the line. */
  lemma InStripped(t: string, s: string)
    requires IsSubstring(t, Strip(s))
    ensures IsSubstring(t, s)
  {
    var a, b := StripSlice(s);
    assert OccursAt(s, Strip(s), a);
    SubstringTrans(t, Strip(s), s);
  }

  /** The header pass returns the groups of its data rows. */
  lemma PrimaryCaptured(lines: seq<string>)
    ensures forall d :: d in PrimaryRecords(lines) ==> AsCaptured(d, lines)
  {
    var rows := Scanned(lines).rows;
    ScannedRows(lines);
    RowRecordsShape(lines, rows);
    forall d | d in PrimaryRecords(lines) ensures AsCaptured(d, lines) {
      var k :| 0 <= k < |rows| && PrimaryRow(lines[rows[k]]) == Some(d);
      assert IsSubstring(d.url, lines[rows[k]]) && IsSubstring(d.status, lines[rows[k]]);
    }
  }

  /** A status the neighbour search returns is text of a window line. */
  lemma NeighbourCaptured(lines: seq<string>, i: nat)
    requires i < |lines| && NeighbourStatus(lines, i).Some?
    ensures OnSomeLine(NeighbourStatus(lines, i).value, lines)
  {
    NeighbourWindow(lines, i);
    var j: nat :| InWindow(i, j, |lines|) && LineStatus(lines, j) == NeighbourStatus(lines, i);
    InStripped(NeighbourStatus(lines, i).value, lines[j]);
  }

  /** A record the fallback adds for line `i` is a same-line match, or the
      leading URL of line `i` with a neighbour's status. */
  lemma FallbackLineCaptured(lines: seq<string>, i: nat)
    requires i < |lines|
    ensures forall d :: d in FallbackLine(lines, i) ==> AsCaptured(d, lines)
  {
    var r := FallbackLine(lines, i);
    if r != [] {
      var d := r[0];
      assert r == [d];
      if FallbackRow(lines[i]).Some? {
        assert IsSubstring(d.url, lines[i]) && IsSubstring(d.status, lines[i]);
      } else {
        assert OccursAt(lines[i], d.url, 0);
        assert IsSubstring(d.url, lines[i]);
        NeighbourCaptured(lines, i);
      }
    }
  }

  lemma FallbackCaptured(lines: seq<string>)
    ensures forall d :: d in Fallback(lines) ==> AsCaptured(d, lines)
  {
    var parts := FallbackLines(lines);
    forall d | d in Fallback(lines) ensures AsCaptured(d, lines) {
      ConcatMember(parts, d);
      var k :| 0 <= k < |parts| && d in parts[k];
      FallbackLineCaptured(lines, k);
    }
  }

  /** Every URL line is one of the lines, stripped. */
  lemma {:induction false} UrlLinesFrom(lines: seq<string>)
    ensures forall k :: 0 <= k < |UrlLines(lines)| ==>
              exists j :: 0 <= j < |lines| && UrlLines(lines)[k] == Strip(lines[j])
    decreases |lines|
  {
    if |lines| > 0 {
      var front := lines[..|lines| - 1];
      UrlLinesFrom(front);
      var u := UrlLines(lines);
      var last := lines[|lines| - 1];
      assert u == UrlLines(front) + if Contains(last, "https://") && Strip(last) != "" then [Strip(last)] else [];
      forall k | 0 <= k < |u| ensures exists j :: 0 <= j < |lines| && u[k] == Strip(lines[j]) {
        if k < |UrlLines(front)| {
          var j :| 0 <= j < |front| && UrlLines(front)[k] == Strip(front[j]);
          assert front[j] == lines[j];
          assert u[k] == Strip(lines[j]);
        } else {
          assert u[k] == Strip(lines[|lines| - 1]);
        }
      }
    } else {
      assert UrlLines(lines) == [];
    }
  }

  /** The `k`-th guess pairs the URL of the `k`-th candidate with the status
      assumed for position `k`. */
  lemma {:induction false} AggressiveUpToMember(cands: seq<string>, n: nat, autoConfirm: bool, d: Deployment)
    requires n <= |cands| && d in AggressiveUpTo(cands, n, autoConfirm)
    ensures exists k :: 0 <= k < n && PlainUrl(cands[k]) == Some(d.url) && d.status == AssumedStatus(k)
    decreases n
  {
    if d !in GuessFor(cands[n - 1], n - 1, autoConfirm) {
      AggressiveUpToMember(cands, n - 1, autoConfirm, d);
    }
  }

  /** Every record of the parser is text of the lines, except the assumed
      status of an aggressive guess, which goes with the URL of the candidate
      line at that position. */
  lemma ParseAsCaptured(lines: seq<string>, autoConfirm: bool)
    ensures forall d :: d in Structured(lines) ==> AsCaptured(d, lines)
    ensures forall d :: d in Aggressive(lines, autoConfirm) ==>
              OnSomeLine(d.url, lines)
              && exists k :: 0 <= k < |Candidates(lines)| && PlainUrl(Candidates(lines)[k]) == Some(d.url)
                             && d.status == AssumedStatus(k)
    ensures forall d :: d in Parse(lines, autoConfirm) ==> d in Structured(lines) || d in Aggressive(lines, autoConfirm)
  {
    PrimaryCaptured(lines);
    FallbackCaptured(lines);
    var cands := Candidates(lines);
    UrlLinesFrom(lines);
    forall d | d in Aggressive(lines, autoConfirm)
      ensures OnSomeLine(d.url, lines)
      ensures exists k :: 0 <= k < |cands| && PlainUrl(cands[k]) == Some(d.url) && d.status == AssumedStatus(k)
    {
      AggressiveUpToMember(cands, |cands|, autoConfirm, d);
      var k :| 0 <= k < |cands| && PlainUrl(cands[k]) == Some(d.url) && d.status == AssumedStatus(k);
      assert cands[k] == UrlLines(lines)[k];
      var j :| 0 <= j < |lines| && UrlLines(lines)[k] == Strip(lines[j]);
      InStripped(d.url, lines[j]);
    }
  }
}
