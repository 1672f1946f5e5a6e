/** The regular expressions of `parse_deployments`, each written out as the
    scan Python's `re.search` performs for it: start positions are tried left
    to right, greedy groups take the longest run first and give characters
    back one at a time, and a lazy `.*?` takes one more character (never a
    newline) only when the rest of the pattern fails where it stands.  All
    patterns here are used with `re.IGNORECASE` except `PlainUrl`, which models
    the case-sensitive regex of the aggressive stage. */
module Patterns {
  import opened Text

  /** One parsed row: the deployment URL and the status text as captured. */
  datatype Deployment = Deployment(url: string, status: string)

  /** A URL group as the patterns capture it: `https://` (any case) followed by
      at least one non-whitespace character, and nothing but non-whitespace. */
  predicate IsCapturedUrl(url: string) {
    |url| >= 9 && MatchesCIAt(url, 0, "https://") && NoSpace(url)
  }

  /** The status group: Building or Queued in any case, or the truncated Build
      or Queue of the fifth primary pattern. */
  predicate IsStatusText(status: string) {
    EqualsCI(status, "building") || EqualsCI(status, "queued")
    || EqualsCI(status, "build") || EqualsCI(status, "queue")
  }

  predicate IsFullStatus(status: string) {
    EqualsCI(status, "building") || EqualsCI(status, "queued")
  }

  predicate IsSubstring(t: string, s: string) {
    exists k :: 0 <= k <= |s| && OccursAt(s, t, k)
  }

  /** The two status alternations: `(Building|Queued|building|queued)` and
      `(Build|Queue|build|queue)`.  Under IGNORECASE the lower-case
      alternatives repeat the capitalised ones. */
  datatype Words = FullWords | TruncatedWords

  /** The length of the status word the alternation matches at `r`, trying the
      alternatives in the pattern's order. */
  function StatusAt(s: string, r: nat, w: Words): (len: Option<nat>)
    ensures len.Some? ==> r + len.value <= |s|
  {
    match w
    case FullWords =>
      if MatchesCIAt(s, r, "building") then Some(8)
      else if MatchesCIAt(s, r, "queued") then Some(6)
      else None
    case TruncatedWords =>
      if MatchesCIAt(s, r, "build") then Some(5)
      else if MatchesCIAt(s, r, "queue") then Some(5)
      else None
  }

  /** What the alternation matches is one of its words, ignoring case. */
  lemma StatusWord(s: string, r: nat, w: Words)
    requires StatusAt(s, r, w).Some?
    ensures w == FullWords ==> IsFullStatus(s[r..r + StatusAt(s, r, w).value])
    ensures IsStatusText(s[r..r + StatusAt(s, r, w).value])
  {
    match w
    case FullWords =>
      if MatchesCIAt(s, r, "building") { MatchesCISlice(s, r, "building"); }
      else { MatchesCISlice(s, r, "queued"); }
    case TruncatedWords =>
      if MatchesCIAt(s, r, "build") { MatchesCISlice(s, r, "build"); }
      else { MatchesCISlice(s, r, "queue"); }
  }

  /** U+25CF, the marker the platform's CLI prints before a status. */
  const Marker: char := '\U{25CF}'

  /** What follows the lazy `.*?` in a pattern: `\s+(status)`, `(status)`
      directly, or `●\s*(status)`. */
  datatype Tail = Spaced | Bare | Marked

  /** The tail matched from `q` on: where the status group starts and its length.
      The whitespace runs are taken whole; giving back whitespace cannot help,
      because a status word starts with a letter. */
  function TailAt(s: string, q: nat, t: Tail, w: Words): (m: Option<(nat, nat)>)
    requires q <= |s|
    ensures m.Some? ==> q <= m.value.0 && StatusAt(s, m.value.0, w) == Some(m.value.1)
  {
    match t
    case Bare =>
      (match StatusAt(s, q, w)
       case Some(n) => Some((q, n))
       case None => None)
    case Spaced =>
      if q < |s| && IsSpace(s[q]) then
        var r := SpaceEnd(s, q);
        match StatusAt(s, r, w)
        case Some(n) => Some((r, n))
        case None => None
      else None
    case Marked =>
      if q < |s| && s[q] == Marker then
        var r := SpaceEnd(s, q + 1);
        match StatusAt(s, r, w)
        case Some(n) => Some((r, n))
        case None => None
      else None
  }

  /** The lazy `.*?` starting at `q`: the tail is tried here first, and `.`
      (any character but a newline) consumes one more character only on failure. */
  function LazyGap(s: string, q: nat, t: Tail, w: Words): (m: Option<(nat, nat)>)
    requires q <= |s|
    ensures m.Some? ==> q <= m.value.0 && StatusAt(s, m.value.0, w) == Some(m.value.1)
    decreases |s| - q
  {
    match TailAt(s, q, t, w)
    case Some(m) => Some(m)
    case None => if q < |s| && s[q] != '\n' then LazyGap(s, q + 1, t, w) else None
  }

  /** With the `\s+` tail, the status word comes after at least one whitespace
      character. */
  lemma {:induction false} GapSpaced(s: string, q: nat, w: Words)
    requires q <= |s| && LazyGap(s, q, Spaced, w).Some?
    ensures q < LazyGap(s, q, Spaced, w).value.0 && IsSpace(s[LazyGap(s, q, Spaced, w).value.0 - 1])
    decreases |s| - q
  {
    if TailAt(s, q, Spaced, w).Some? {
      SpaceRun(s, q);
    } else {
      GapSpaced(s, q + 1, w);
    }
  }

  /** Where a successful match put its two groups. */
  datatype Capture = Capture(urlStart: nat, urlEnd: nat, statusStart: nat, statusLen: nat)

  /** The groups lie inside `s`, the URL group has the captured-URL shape, and
      the status group is a word of `w`. */
  predicate WellFormed(s: string, c: Capture, w: Words) {
    && c.urlStart + 9 <= c.urlEnd <= |s|
    && MatchesCIAt(s, c.urlStart, "https://")
    && (forall k :: c.urlStart <= k < c.urlEnd ==> !IsSpace(s[k]))
    && StatusAt(s, c.statusStart, w) == Some(c.statusLen)
  }

  /** The text of the two groups. */
  function Groups(s: string, c: Capture, w: Words): (d: Deployment)
    requires WellFormed(s, c, w)
    ensures IsCapturedUrl(d.url) && IsStatusText(d.status)
    ensures w == FullWords ==> IsFullStatus(d.status)
    ensures IsSubstring(d.url, s) && IsSubstring(d.status, s)
  {
    var url := s[c.urlStart..c.urlEnd];
    assert MatchesCIAt(url, 0, "https://") by {
      forall k | 0 <= k < 8 ensures CharMatchesCI(url[k], "https://"[k]) {
        assert url[k] == s[c.urlStart + k];
      }
    }
    assert NoSpace(url) by {
      forall k | 0 <= k < |url| ensures !IsSpace(url[k]) {
        assert url[k] == s[c.urlStart + k];
      }
    }
    var status := s[c.statusStart..c.statusStart + c.statusLen];
    StatusWord(s, c.statusStart, w);
    assert OccursAt(s, url, c.urlStart);
    assert OccursAt(s, status, c.statusStart);
    Deployment(url, status)
  }

  /** A character that matches a pattern character of `https://` is not whitespace. */
  lemma HttpsNoSpace(s: string, i: nat)
    requires MatchesCIAt(s, i, "https://")
    ensures forall k :: i <= k < i + 8 ==> !IsSpace(s[k])
  {
    forall k | i <= k < i + 8 ensures !IsSpace(s[k]) {
      assert CharMatchesCI(s[i + (k - i)], "https://"[k - i]);
    }
  }

  /** `https://` (any case) at `i` followed by a non-whitespace character: the
      start of `(https://[^\s]+)`. */
  predicate UrlStartsAt(s: string, i: nat) {
    MatchesCIAt(s, i, "https://") && i + 8 < |s| && !IsSpace(s[i + 8])
  }

  /** The backtracking of `[^\s]+`: the URL group ends at `u`; when the rest of
      the pattern fails, one character is given back, down to `urlStart + 9`. */
  function ShortenUrl(s: string, urlStart: nat, u: nat, t: Tail, w: Words): (c: Option<Capture>)
    requires urlStart + 9 <= u <= |s|
    ensures c.Some? ==> c.value.urlStart == urlStart && urlStart + 9 <= c.value.urlEnd <= u
    ensures c.Some? ==> LazyGap(s, c.value.urlEnd, t, w) == Some((c.value.statusStart, c.value.statusLen))
    decreases u
  {
    match LazyGap(s, u, t, w)
    case Some(m) => Some(Capture(urlStart, u, m.0, m.1))
    case None => if u > urlStart + 9 then ShortenUrl(s, urlStart, u - 1, t, w) else None
  }

  /** The match whose URL group starts at `i`: the longest URL the rest of
      the pattern accepts, after backtracking. */
  function CaptureAt(s: string, i: nat, t: Tail, w: Words): (c: Option<Capture>)
    requires i <= |s|
    ensures c.Some? ==> WellFormed(s, c.value, w) && i == c.value.urlStart && UrlStartsAt(s, i)
  {
    if UrlStartsAt(s, i) then
      var r := ShortenUrl(s, i, NonSpaceEnd(s, i + 8), t, w);
      if r.Some? then CapturedShape(s, i, t, w); r else None
    else None
  }

  /** What the backtracked URL group and the gap after it make of a capture. */
  lemma CapturedShape(s: string, i: nat, t: Tail, w: Words)
    requires UrlStartsAt(s, i)
    requires ShortenUrl(s, i, NonSpaceEnd(s, i + 8), t, w).Some?
    ensures WellFormed(s, ShortenUrl(s, i, NonSpaceEnd(s, i + 8), t, w).value, w)
  {
    var e := NonSpaceEnd(s, i + 8);
    var c := ShortenUrl(s, i, e, t, w).value;
    HttpsNoSpace(s, i);
    NonSpaceRun(s, i + 8);
    assert forall k :: i <= k < c.urlEnd ==> !IsSpace(s[k]);
  }

  /** `re.search` of `(https://[^\s]+).*?` followed by the tail, trying every
      start from `i` on. */
  function SearchFrom(s: string, i: nat, t: Tail, w: Words): (c: Option<Capture>)
    requires i <= |s|
    ensures c.Some? ==> i <= c.value.urlStart <= |s| && CaptureAt(s, c.value.urlStart, t, w) == c
    decreases |s| - i
  {
    var here := CaptureAt(s, i, t, w);
    if here.Some? then here
    else if i < |s| then SearchFrom(s, i + 1, t, w)
    else None
  }

  /** `re.search` of one of the unanchored patterns over the whole line. */
  function Search(s: string, t: Tail, w: Words): (c: Option<Capture>)
    ensures c.Some? ==> WellFormed(s, c.value, w)
  {
    SearchFrom(s, 0, t, w)
  }

  /** Every character of `s[i..j]` is whitespace (and inside `s`). */
  predicate SpacesIn(s: string, i: nat, j: nat) {
    forall k :: i <= k < j ==> k < |s| && IsSpace(s[k])
  }

  /** No character of `s[i..j]` is whitespace (and all are inside `s`). */
  predicate NonSpacesIn(s: string, i: nat, j: nat) {
    forall k :: i <= k < j ==> k < |s| && !IsSpace(s[k])
  }

  /** Position `c` starts the second whitespace-separated field of `s`:
      `s[..c]` is optional whitespace, a first field, and whitespace. */
  predicate SecondFieldAt(s: string, c: nat) {
    c < |s| && !IsSpace(s[c])
    && exists a: nat, b: nat :: a < b < c && SpacesIn(s, 0, a) && NonSpacesIn(s, a, b) && SpacesIn(s, b, c)
  }

  /** What lies between the URL group ending at `e` and the status starting at
      `r` in the anchored patterns: `\s+` when unmarked, `\s+●\s*` when marked. */
  predicate GapShape(s: string, e: nat, r: nat, marked: bool) {
    e < r <= |s|
    && if marked then exists m: nat :: e < m < r && SpacesIn(s, e, m) && s[m] == Marker && SpacesIn(s, m + 1, r)
       else SpacesIn(s, e, r)
  }

  /** `^\s*\S+\s+(https://[^\s]+)`: the URL group of the two anchored patterns
      is the whole second whitespace-separated field.  Each run is forced: a
      shorter `\s*`, `\S+`, `\s+` or `[^\s]+` leaves a character the next item
      cannot match. */
  function SecondFieldUrl(s: string): (r: Option<(nat, nat)>)
    ensures r.Some? ==> r.value.0 + 9 <= r.value.1 <= |s| && UrlStartsAt(s, r.value.0)
    ensures r.Some? ==> forall k :: r.value.0 <= k < r.value.1 ==> !IsSpace(s[k])
    ensures r.Some? ==> r.value.1 == |s| || IsSpace(s[r.value.1])
  {
    var a := SpaceEnd(s, 0);
    if a == |s| then None
    else
      var b := NonSpaceEnd(s, a);
      var c := SpaceEnd(s, b);
      if c == b || !UrlStartsAt(s, c) then None
      else
        HttpsNoSpace(s, c);
        NonSpaceRun(s, c + 8);
        Some((c, NonSpaceEnd(s, c + 8)))
  }

  /** Patterns 1 and 2 of the header-anchored pass:
      `^\s*\S+\s+(https://[^\s]+)\s+●\s*(status)` when `marked`, and
      `^\s*\S+\s+(https://[^\s]+)\s+(status)` otherwise. */
  function Anchored(s: string, marked: bool): (c: Option<Capture>)
    ensures c.Some? ==> WellFormed(s, c.value, FullWords)
  {
    match SecondFieldUrl(s)
    case None => None
    case Some(g) =>
      var f := SpaceEnd(s, g.1);
      if f == g.1 then None
      else
        match TailAt(s, f, if marked then Marked else Bare, FullWords)
        case Some(m) => Some(Capture(g.0, g.1, m.0, m.1))
        case None => None
  }

  /** A two-group pattern of the row parsers: one of the anchored patterns 1
      and 2, or `(https://[^\s]+).*?` followed by a tail. */
  datatype Pattern = AnchoredPattern(marked: bool) | UnanchoredPattern(tail: Tail, words: Words)

  /** `re.search(pattern, line, re.IGNORECASE)` and the text of its two groups. */
  function Apply(p: Pattern, line: string): (d: Option<Deployment>)
    ensures d.Some? ==> IsCapturedUrl(d.value.url) && IsStatusText(d.value.status)
    ensures d.Some? && (p.AnchoredPattern? || p.words == FullWords) ==> IsFullStatus(d.value.status)
    ensures d.Some? ==> IsSubstring(d.value.url, line) && IsSubstring(d.value.status, line)
  {
    match p
    case AnchoredPattern(marked) =>
      (match Anchored(line, marked)
       case Some(c) => Some(Groups(line, c, FullWords))
       case None => None)
    case UnanchoredPattern(tail, words) =>
      match Search(line, tail, words)
      case Some(c) => Some(Groups(line, c, words))
      case None => None
  }

  /** The five patterns of the header-anchored pass, in the order they are tried. */
  const PrimaryPatterns: seq<Pattern> := [
    AnchoredPattern(true),                  // ^\s*\S+\s+(https://[^\s]+)\s+●\s*(status)
    AnchoredPattern(false),                 // ^\s*\S+\s+(https://[^\s]+)\s+(status)
    UnanchoredPattern(Spaced, FullWords),   // (https://[^\s]+).*?\s+(status)
    UnanchoredPattern(Bare, FullWords),     // (https://[^\s]+).*?(status)
    UnanchoredPattern(Spaced, TruncatedWords) // (https://[^\s]+).*?\s+(Build|Queue|build|queue)
  ]

  /** The two-group patterns of the headerless fallback, in order; its third
      pattern, with one group, is `LeadingUrl`. */
  const FallbackPatterns: seq<Pattern> := [
    UnanchoredPattern(Marked, FullWords),   // (https://[^\s]+).*?●\s*(status)
    UnanchoredPattern(Bare, FullWords)      // (https://[^\s]+).*?(status)
  ]

  /** What each pattern of `ps` finds on `line`, pattern by pattern. */
  function Results(ps: seq<Pattern>, line: string): (rs: seq<Option<Deployment>>)
    ensures |rs| == |ps|
  {
    seq(|ps|, j requires 0 <= j < |ps| => Apply(ps[j], line))
  }

  /** The first result of `rs[k..]` that is a match. */
  function FirstSomeFrom(rs: seq<Option<Deployment>>, k: nat): (d: Option<Deployment>)
    requires k <= |rs|
    decreases |rs| - k
  {
    if k == |rs| then None
    else if rs[k].Some? then rs[k] else FirstSomeFrom(rs, k + 1)
  }

  /** First match wins: the groups of the first pattern of `ps`, in order, that matches. */
  function FirstMatch(ps: seq<Pattern>, line: string): (d: Option<Deployment>) {
    FirstSomeFrom(Results(ps, line), 0)
  }

  lemma {:induction false} FirstSomeFromSpec(rs: seq<Option<Deployment>>, k: nat)
    requires k <= |rs|
    ensures FirstSomeFrom(rs, k).Some? ==>
              exists j :: k <= j < |rs| && rs[j] == FirstSomeFrom(rs, k)
                          && forall i :: k <= i < j ==> rs[i].None?
    ensures FirstSomeFrom(rs, k).None? ==> forall j :: k <= j < |rs| ==> rs[j].None?
    decreases |rs| - k
  {
    if k < |rs| && rs[k].None? {
      FirstSomeFromSpec(rs, k + 1);
      var later := FirstSomeFrom(rs, k + 1);
      if later.Some? {
        var j :| k + 1 <= j < |rs| && rs[j] == later && forall i :: k + 1 <= i < j ==> rs[i].None?;
        assert forall i :: k <= i < j ==> rs[i].None?;
      }
    }
  }

  /** The first pattern of `ps`, in order, that matches `line` gives the
      groups, and nothing is found only when no pattern matches. */
  lemma FirstMatchSpec(ps: seq<Pattern>, line: string)
    ensures FirstMatch(ps, line).Some? ==>
              exists j :: 0 <= j < |ps| && Apply(ps[j], line) == FirstMatch(ps, line)
                          && forall i :: 0 <= i < j ==> Apply(ps[i], line).None?
    ensures FirstMatch(ps, line).None? ==> forall j :: 0 <= j < |ps| ==> Apply(ps[j], line).None?
  {
    var rs := Results(ps, line);
    FirstSomeFromSpec(rs, 0);
    assert forall j :: 0 <= j < |ps| ==> rs[j] == Apply(ps[j], line);
  }

  /** The record a data row of the header-anchored pass yields, if any. */
  function PrimaryRow(line: string): (d: Option<Deployment>)
    ensures d.Some? ==> IsCapturedUrl(d.value.url) && IsStatusText(d.value.status)
    ensures d.Some? ==> IsSubstring(d.value.url, line) && IsSubstring(d.value.status, line)
  {
    FirstMatchSpec(PrimaryPatterns, line);
    FirstMatch(PrimaryPatterns, line)
  }

  /** The record the two-group fallback patterns find on one line, if any. */
  function FallbackRow(line: string): (d: Option<Deployment>)
    ensures d.Some? ==> IsCapturedUrl(d.value.url) && IsFullStatus(d.value.status)
    ensures d.Some? ==> IsSubstring(d.value.url, line) && IsSubstring(d.value.status, line)
  {
    FirstMatchSpec(FallbackPatterns, line);
    FirstMatch(FallbackPatterns, line)
  }

  /** The third fallback pattern, `^(https://[^\s]+)`: a URL at the very start
      of the unstripped line, taken as far as the first whitespace. */
  function LeadingUrl(line: string): (url: Option<string>)
    ensures url.Some? ==> IsCapturedUrl(url.value) && StartsWith(line, url.value)
    ensures url.Some? ==> |url.value| == |line| || IsSpace(line[|url.value|])
    ensures url.None? <==> !UrlStartsAt(line, 0)
  {
    if UrlStartsAt(line, 0) then
      var e := NonSpaceEnd(line, 8);
      var url := line[..e];
      HttpsNoSpace(line, 0);
      NonSpaceRun(line, 8);
      assert forall k :: 0 <= k < |url| ==> url[k] == line[k];
      assert MatchesCIAt(url, 0, "https://");
      Some(url)
    else None
  }

  /** A word character for `\b`.  (Python also counts every non-ASCII letter
      and digit; see README.) */
  predicate IsWordChar(c: char) {
    ('a' <= c <= 'z') || ('A' <= c <= 'Z') || ('0' <= c <= '9') || c == '_'
  }

  /** `\b` at position `i`. */
  predicate BoundaryAt(s: string, i: nat)
    requires i <= |s|
  {
    (i > 0 && IsWordChar(s[i - 1])) != (i < |s| && IsWordChar(s[i]))
  }

  /** A whole-word status of length `n` at `r`: a word boundary on both sides. */
  predicate WholeWordAt(s: string, r: nat, n: nat) {
    r + n <= |s| && BoundaryAt(s, r) && BoundaryAt(s, r + n) && IsFullStatus(s[r..r + n])
  }

  /** `\b(Building|Queued|building|queued)\b` tried at `r`: the length of the word. */
  function WordStatusAt(s: string, r: nat): (len: Option<nat>)
    requires r <= |s|
    ensures len.Some? ==> r + len.value <= |s| && IsFullStatus(s[r..r + len.value])
  {
    if !BoundaryAt(s, r) then None
    else if MatchesCIAt(s, r, "building") && BoundaryAt(s, r + 8) then
      MatchesCISlice(s, r, "building"); Some(8)
    else if MatchesCIAt(s, r, "queued") && BoundaryAt(s, r + 6) then
      MatchesCISlice(s, r, "queued"); Some(6)
    else None
  }

  function WordStatusFrom(s: string, r: nat): (status: Option<string>)
    requires r <= |s|
    ensures status.Some? ==> IsFullStatus(status.value) && IsSubstring(status.value, s)
    decreases |s| - r
  {
    match WordStatusAt(s, r)
    case Some(n) => assert OccursAt(s, s[r..r + n], r); Some(s[r..r + n])
    case None => if r < |s| then WordStatusFrom(s, r + 1) else None
  }

  /** `re.search(r'\b(Building|Queued|building|queued)\b', s, re.IGNORECASE)`:
      the status word as it appears in `s`, leftmost first. */
  function WordStatus(s: string): (status: Option<string>)
    ensures status.Some? ==> IsFullStatus(status.value) && IsSubstring(status.value, s)
  {
    WordStatusFrom(s, 0)
  }

  /** The case-sensitive URL regex can start at `i`: `https://` and a non-whitespace character. */
  predicate PlainStartAt(s: string, i: nat) {
    i + 8 < |s| && s[i..i + 8] == "https://" && !IsSpace(s[i + 8])
  }

  /** `re.search(r'(https://[^\s]+)', s)` without IGNORECASE, from start `i` on. */
  function PlainUrlFrom(s: string, i: nat): (url: Option<string>)
    requires i <= |s|
    ensures url.Some? ==> |url.value| >= 9 && StartsWith(url.value, "https://") && NoSpace(url.value)
    ensures url.Some? ==> IsSubstring(url.value, s)
    decreases |s| - i
  {
    if PlainStartAt(s, i) then
      var e := NonSpaceEnd(s, i + 8);
      NonSpaceRun(s, i + 8);
      assert i + 9 <= e;
      var url := s[i..e];
      assert url[..8] == s[i..i + 8];
      assert forall k :: 0 <= k < |url| ==> url[k] == s[i + k];
      assert OccursAt(s, url, i);
      Some(url)
    else if i < |s| then PlainUrlFrom(s, i + 1)
    else None
  }

  /** The case-sensitive URL regex of the aggressive stage over the whole line. */
  function PlainUrl(s: string): (url: Option<string>)
    ensures url.Some? ==> |url.value| >= 9 && StartsWith(url.value, "https://") && NoSpace(url.value)
    ensures url.Some? ==> IsSubstring(url.value, s)
  {
    PlainUrlFrom(s, 0)
  }
}
