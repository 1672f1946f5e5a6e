/** The order in which the scans of `Patterns` try their alternatives, which
    is the order of Python's backtracking matcher: the leftmost start of the
    URL group, then the longest URL group, then the shortest gap `.*?`.

    The facts are stated over tables of the scans' results, one entry per
    position of the line (`Tails`, `Gaps`, `Captures`), and proved by two
    generic searches over such tables: the first match going up and the
    last match going down. */
module PatternFacts {
  import opened Text
  import opened Patterns
  import opened Parser

  // ---------------------------------------------------------------------
  // Searching a table

  /** `sh[v]` is `g[v]` when that is a match, and otherwise what `sh` holds
      one position up, while `v < hi`. */
  ghost predicate UpStep<T>(g: seq<Option<T>>, sh: seq<Option<T>>, v: nat, hi: nat)
    requires v <= hi < |g| && |sh| == |g|
  {
    if g[v].Some? then sh[v] == g[v] else if v < hi then sh[v] == sh[v + 1] else sh[v].None?
  }

  /** Going up from `q`, the first match of `g` before `hi` is taken. */
  lemma {:induction false} Ascend<T>(g: seq<Option<T>>, sh: seq<Option<T>>, q: nat, hi: nat)
    requires q <= hi < |g| && |sh| == |g|
    requires forall v :: q <= v <= hi ==> UpStep(g, sh, v, hi)
    ensures sh[q].Some? ==> exists r :: q <= r <= hi && sh[q] == g[r] && forall k :: q <= k < r ==> g[k].None?
    ensures sh[q].None? ==> forall r :: q <= r <= hi ==> g[r].None?
    decreases hi - q
  {
    assert UpStep(g, sh, q, hi);
    if g[q].Some? {
      assert q <= q <= hi && sh[q] == g[q];
    } else if q < hi {
      Ascend(g, sh, q + 1, hi);
      if sh[q].Some? {
        var r :| q + 1 <= r <= hi && sh[q + 1] == g[r] && forall k :: q + 1 <= k < r ==> g[k].None?;
        assert forall k :: q <= k < r ==> g[k].None?;
      }
    }
  }

  /** `sh[v]` captures the URL up to `v` when the gap table `g` matches at
      `v`, and otherwise what `sh` holds one position down, while `v > lo`. */
  predicate DownStep(g: seq<Option<(nat, nat)>>, sh: seq<Option<Capture>>, urlStart: nat, lo: nat, v: nat)
    requires lo <= v < |g| && |sh| == |g|
  {
    if g[v].Some? then sh[v] == Some(Capture(urlStart, v, g[v].value.0, g[v].value.1))
    else if v > lo then sh[v] == sh[v - 1]
    else sh[v].None?
  }

  /** Going down from `u`, the last position of `g` with a match is taken. */
  lemma {:induction false} Descend(g: seq<Option<(nat, nat)>>, sh: seq<Option<Capture>>, urlStart: nat, lo: nat, u: nat)
    requires lo <= u < |g| && |sh| == |g|
    requires forall v :: lo <= v <= u ==> DownStep(g, sh, urlStart, lo, v)
    ensures sh[u].Some? ==>
              var c := sh[u].value;
              c.urlStart == urlStart && lo <= c.urlEnd <= u && g[c.urlEnd] == Some((c.statusStart, c.statusLen))
              && forall v :: c.urlEnd < v <= u ==> g[v].None?
    ensures sh[u].None? ==> forall v :: lo <= v <= u ==> g[v].None?
    decreases u
  {
    assert DownStep(g, sh, urlStart, lo, u);
    if g[u].None? && u > lo {
      Descend(g, sh, urlStart, lo, u - 1);
    }
  }

  // ---------------------------------------------------------------------
  // The tables of one line

  /** What the tail of a pattern matches at each position of `s`. */
  function Tails(s: string, t: Tail, w: Words): (g: seq<Option<(nat, nat)>>)
    ensures |g| == |s| + 1
  {
    seq(|s| + 1, v requires 0 <= v <= |s| => TailAt(s, v, t, w))
  }

  /** What `.*?` followed by the tail matches from each position of `s`. */
  function Gaps(s: string, t: Tail, w: Words): (g: seq<Option<(nat, nat)>>)
    ensures |g| == |s| + 1
  {
    seq(|s| + 1, v requires 0 <= v <= |s| => LazyGap(s, v, t, w))
  }

  /** The match of a URL group from `urlStart` ending at each position up
      to `e`, after backtracking. */
  function Shortened(s: string, urlStart: nat, e: nat, t: Tail, w: Words): (g: seq<Option<Capture>>)
    requires e <= |s|
    ensures |g| == |s| + 1
  {
    seq(|s| + 1, u requires 0 <= u <= |s| =>
          if urlStart + 9 <= u <= e then ShortenUrl(s, urlStart, u, t, w) else None)
  }

  /** The match whose URL group starts at each position of `s`. */
  function Captures(s: string, t: Tail, w: Words): (g: seq<Option<Capture>>)
    ensures |g| == |s| + 1
  {
    seq(|s| + 1, i requires 0 <= i <= |s| => CaptureAt(s, i, t, w))
  }

  /** The search from each position of `s`. */
  function Searches(s: string, t: Tail, w: Words): (g: seq<Option<Capture>>)
    ensures |g| == |s| + 1
  {
    seq(|s| + 1, i requires 0 <= i <= |s| => SearchFrom(s, i, t, w))
  }

  lemma TailsAt(s: string, v: nat, t: Tail, w: Words)
    requires v <= |s|
    ensures Tails(s, t, w)[v] == TailAt(s, v, t, w)
  {
  }

  lemma GapsAt(s: string, v: nat, t: Tail, w: Words)
    requires v <= |s|
    ensures Gaps(s, t, w)[v] == LazyGap(s, v, t, w)
  {
  }

  lemma CapturesAt(s: string, i: nat, t: Tail, w: Words)
    requires i <= |s|
    ensures Captures(s, t, w)[i] == CaptureAt(s, i, t, w)
  {
  }

  lemma SearchesAt(s: string, i: nat, t: Tail, w: Words)
    requires i <= |s|
    ensures Searches(s, t, w)[i] == SearchFrom(s, i, t, w)
  {
  }

  // ---------------------------------------------------------------------
  // `.*?`

  /** The end of the run from `q` that `.` can cross: up to the first newline. */
  function LineEnd(s: string, q: nat): (e: nat)
    requires q <= |s|
    ensures q <= e <= |s|
    ensures forall k :: q <= k < e ==> s[k] != '\n'
    ensures e == |s| || s[e] == '\n'
    decreases |s| - q
  {
    if q < |s| && s[q] != '\n' then LineEnd(s, q + 1) else q
  }

  lemma GapHere(s: string, v: nat, t: Tail, w: Words)
    requires v <= |s| && TailAt(s, v, t, w).Some?
    ensures LazyGap(s, v, t, w) == TailAt(s, v, t, w)
  {
  }

  lemma GapOn(s: string, v: nat, t: Tail, w: Words)
    requires v < |s| && s[v] != '\n' && TailAt(s, v, t, w).None?
    ensures LazyGap(s, v, t, w) == LazyGap(s, v + 1, t, w)
  {
  }

  lemma GapStop(s: string, v: nat, t: Tail, w: Words)
    requires v <= |s| && !(v < |s| && s[v] != '\n') && TailAt(s, v, t, w).None?
    ensures LazyGap(s, v, t, w).None?
  {
  }

  lemma GapHit(s: string, v: nat, t: Tail, w: Words)
    requires v <= |s| && Tails(s, t, w)[v].Some?
    ensures Gaps(s, t, w)[v] == Tails(s, t, w)[v]
  {
    TailsAt(s, v, t, w);
    GapHere(s, v, t, w);
    GapsAt(s, v, t, w);
  }

  lemma GapMiss(s: string, v: nat, t: Tail, w: Words)
    requires v < |s| && s[v] != '\n' && Tails(s, t, w)[v].None?
    ensures Gaps(s, t, w)[v] == Gaps(s, t, w)[v + 1]
  {
    TailsAt(s, v, t, w);
    GapOn(s, v, t, w);
    GapsAt(s, v, t, w);
    GapsAt(s, v + 1, t, w);
  }

  lemma GapEnd(s: string, v: nat, t: Tail, w: Words)
    requires v <= |s| && !(v < |s| && s[v] != '\n') && Tails(s, t, w)[v].None?
    ensures Gaps(s, t, w)[v].None?
  {
    TailsAt(s, v, t, w);
    GapStop(s, v, t, w);
    GapsAt(s, v, t, w);
  }

  lemma GapStep(s: string, v: nat, hi: nat, t: Tail, w: Words)
    requires v <= hi <= |s|
    requires v < hi <==> v < |s| && s[v] != '\n'
    ensures UpStep(Tails(s, t, w), Gaps(s, t, w), v, hi)
  {
    if Tails(s, t, w)[v].Some? {
      GapHit(s, v, t, w);
    } else if v < hi {
      GapMiss(s, v, t, w);
    } else {
      GapEnd(s, v, t, w);
    }
  }

  /** `.*?` is lazy: the tail is taken at the first position from `q` where it
      matches, and the gap fails only when the tail matches nowhere before the
      next newline. */
  lemma LazyGapSpec(s: string, q: nat, t: Tail, w: Words)
    requires q <= |s|
    ensures LazyGap(s, q, t, w).Some? ==>
              exists r :: q <= r <= LineEnd(s, q) && Tails(s, t, w)[r] == LazyGap(s, q, t, w)
                          && forall k :: q <= k < r ==> Tails(s, t, w)[k].None?
    ensures LazyGap(s, q, t, w).None? ==> forall r :: q <= r <= LineEnd(s, q) ==> Tails(s, t, w)[r].None?
  {
    var g, sh, hi := Tails(s, t, w), Gaps(s, t, w), LineEnd(s, q);
    forall v | q <= v <= hi
      ensures UpStep(g, sh, v, hi)
    {
      GapStep(s, v, hi, t, w);
    }
    Ascend(g, sh, q, hi);
    GapsAt(s, q, t, w);
  }

  // ---------------------------------------------------------------------
  // `[^\s]+`

  lemma ShortenHere(s: string, urlStart: nat, v: nat, t: Tail, w: Words)
    requires urlStart + 9 <= v <= |s| && LazyGap(s, v, t, w).Some?
    ensures ShortenUrl(s, urlStart, v, t, w)
            == Some(Capture(urlStart, v, LazyGap(s, v, t, w).value.0, LazyGap(s, v, t, w).value.1))
  {
  }

  lemma ShortenOn(s: string, urlStart: nat, v: nat, t: Tail, w: Words)
    requires urlStart + 9 < v <= |s| && LazyGap(s, v, t, w).None?
    ensures ShortenUrl(s, urlStart, v, t, w) == ShortenUrl(s, urlStart, v - 1, t, w)
  {
  }

  lemma ShortenStop(s: string, urlStart: nat, t: Tail, w: Words)
    requires urlStart + 9 <= |s| && LazyGap(s, urlStart + 9, t, w).None?
    ensures ShortenUrl(s, urlStart, urlStart + 9, t, w).None?
  {
  }

  lemma ShortenedAt(s: string, urlStart: nat, e: nat, v: nat, t: Tail, w: Words)
    requires urlStart + 9 <= v <= e <= |s|
    ensures Shortened(s, urlStart, e, t, w)[v] == ShortenUrl(s, urlStart, v, t, w)
  {
  }

  lemma ShortenHit(s: string, urlStart: nat, e: nat, v: nat, t: Tail, w: Words)
    requires urlStart + 9 <= v <= e <= |s| && Gaps(s, t, w)[v].Some?
    ensures Shortened(s, urlStart, e, t, w)[v]
            == Some(Capture(urlStart, v, Gaps(s, t, w)[v].value.0, Gaps(s, t, w)[v].value.1))
  {
    assert LazyGap(s, v, t, w) == Gaps(s, t, w)[v] by { GapsAt(s, v, t, w); }
    assert Shortened(s, urlStart, e, t, w)[v] == ShortenUrl(s, urlStart, v, t, w) by {
      ShortenedAt(s, urlStart, e, v, t, w);
    }
    ShortenHere(s, urlStart, v, t, w);
  }

  lemma ShortenMiss(s: string, urlStart: nat, e: nat, v: nat, t: Tail, w: Words)
    requires urlStart + 9 < v <= e <= |s| && Gaps(s, t, w)[v].None?
    ensures Shortened(s, urlStart, e, t, w)[v] == Shortened(s, urlStart, e, t, w)[v - 1]
  {
    assert LazyGap(s, v, t, w).None? by { GapsAt(s, v, t, w); }
    assert Shortened(s, urlStart, e, t, w)[v] == ShortenUrl(s, urlStart, v, t, w) by {
      ShortenedAt(s, urlStart, e, v, t, w);
    }
    assert Shortened(s, urlStart, e, t, w)[v - 1] == ShortenUrl(s, urlStart, v - 1, t, w) by {
      ShortenedAt(s, urlStart, e, v - 1, t, w);
    }
    ShortenOn(s, urlStart, v, t, w);
  }

  lemma ShortenLow(s: string, urlStart: nat, e: nat, t: Tail, w: Words)
    requires urlStart + 9 <= e <= |s| && ShortenUrl(s, urlStart, urlStart + 9, t, w).None?
    ensures Shortened(s, urlStart, e, t, w)[urlStart + 9].None?
  {
    ShortenedAt(s, urlStart, e, urlStart + 9, t, w);
  }

  lemma ShortenEnd(s: string, urlStart: nat, e: nat, t: Tail, w: Words)
    requires urlStart + 9 <= e <= |s| && Gaps(s, t, w)[urlStart + 9].None?
    ensures Shortened(s, urlStart, e, t, w)[urlStart + 9].None?
  {
    GapsAt(s, urlStart + 9, t, w);
    ShortenStop(s, urlStart, t, w);
    ShortenLow(s, urlStart, e, t, w);
  }

  lemma ShortenStep(s: string, urlStart: nat, e: nat, v: nat, t: Tail, w: Words)
    requires urlStart + 9 <= v <= e <= |s|
    ensures DownStep(Gaps(s, t, w), Shortened(s, urlStart, e, t, w), urlStart, urlStart + 9, v)
  {
    if Gaps(s, t, w)[v].Some? {
      ShortenHit(s, urlStart, e, v, t, w);
    } else if v > urlStart + 9 {
      ShortenMiss(s, urlStart, e, v, t, w);
    } else {
      ShortenEnd(s, urlStart, e, t, w);
    }
  }

  /** `[^\s]+` is greedy: the URL group ends at the largest end, at most `u`,
      from which the rest of the pattern matches, and the match fails only
      when no end from `urlStart + 9` to `u` lets it. */
  lemma ShortenUrlSpec(s: string, urlStart: nat, u: nat, t: Tail, w: Words)
    requires urlStart + 9 <= u <= |s|
    ensures ShortenUrl(s, urlStart, u, t, w).Some? ==>
              var c := ShortenUrl(s, urlStart, u, t, w).value;
              Gaps(s, t, w)[c.urlEnd] == Some((c.statusStart, c.statusLen))
              && forall v :: c.urlEnd < v <= u ==> Gaps(s, t, w)[v].None?
    ensures ShortenUrl(s, urlStart, u, t, w).None? ==>
              forall v :: urlStart + 9 <= v <= u ==> Gaps(s, t, w)[v].None?
  {
    var g, sh, lo := Gaps(s, t, w), Shortened(s, urlStart, u, t, w), urlStart + 9;
    forall v | lo <= v <= u
      ensures DownStep(g, sh, urlStart, lo, v)
    {
      ShortenStep(s, urlStart, u, v, t, w);
    }
    Descend(g, sh, urlStart, lo, u);
    assert sh[u] == ShortenUrl(s, urlStart, u, t, w);
  }

  // ---------------------------------------------------------------------
  // `re.search`

  lemma SearchHit(s: string, i: nat, t: Tail, w: Words)
    requires i <= |s| && Captures(s, t, w)[i].Some?
    ensures Searches(s, t, w)[i] == Captures(s, t, w)[i]
  {
    CapturesAt(s, i, t, w);
    SearchesAt(s, i, t, w);
  }

  lemma SearchOn(s: string, i: nat, t: Tail, w: Words)
    requires i < |s| && CaptureAt(s, i, t, w).None?
    ensures SearchFrom(s, i, t, w) == SearchFrom(s, i + 1, t, w)
  {
  }

  lemma SearchMiss(s: string, i: nat, t: Tail, w: Words)
    requires i < |s| && Captures(s, t, w)[i].None?
    ensures Searches(s, t, w)[i] == Searches(s, t, w)[i + 1]
  {
    CapturesAt(s, i, t, w);
    SearchOn(s, i, t, w);
    SearchesAt(s, i, t, w);
    SearchesAt(s, i + 1, t, w);
  }

  lemma SearchEnd(s: string, t: Tail, w: Words)
    requires Captures(s, t, w)[|s|].None?
    ensures Searches(s, t, w)[|s|].None?
  {
    CapturesAt(s, |s|, t, w);
    SearchesAt(s, |s|, t, w);
  }

  lemma SearchStep(s: string, i: nat, t: Tail, w: Words)
    requires i <= |s|
    ensures UpStep(Captures(s, t, w), Searches(s, t, w), i, |s|)
  {
    if Captures(s, t, w)[i].Some? {
      SearchHit(s, i, t, w);
    } else if i < |s| {
      SearchMiss(s, i, t, w);
    } else {
      SearchEnd(s, t, w);
    }
  }

  /** `re.search` tries the starts left to right: the match is the one at the
      first start that has one, and there is none only when no start has one. */
  lemma SearchFromSpec(s: string, i: nat, t: Tail, w: Words)
    requires i <= |s|
    ensures SearchFrom(s, i, t, w).Some? ==>
              var c := SearchFrom(s, i, t, w).value;
              Captures(s, t, w)[c.urlStart] == Some(c)
              && forall j :: i <= j < c.urlStart ==> Captures(s, t, w)[j].None?
    ensures SearchFrom(s, i, t, w).None? ==> forall j :: i <= j <= |s| ==> Captures(s, t, w)[j].None?
  {
    var g, sh := Captures(s, t, w), Searches(s, t, w);
    forall v | i <= v <= |s|
      ensures UpStep(g, sh, v, |s|)
    {
      SearchStep(s, v, t, w);
    }
    Ascend(g, sh, i, |s|);
    SearchesAt(s, i, t, w);
    if sh[i].Some? {
      var r :| i <= r <= |s| && sh[i] == g[r] && forall k :: i <= k < r ==> g[k].None?;
      CapturesAt(s, r, t, w);
    }
  }

  /** The three choices of an unanchored pattern together: no start before
      the URL group's has a match; the URL group is the longest run of
      non-whitespace from its start that lets the rest match; and the status
      group comes from the first place after it where the tail matches. */
  lemma SearchOrder(s: string, t: Tail, w: Words)
    requires Search(s, t, w).Some?
    ensures var c := Search(s, t, w).value;
            && (forall j :: 0 <= j < c.urlStart ==> Captures(s, t, w)[j].None?)
            && UrlStartsAt(s, c.urlStart)
            && c.urlEnd <= NonSpaceEnd(s, c.urlStart + 8)
            && (forall v :: c.urlEnd < v <= NonSpaceEnd(s, c.urlStart + 8) ==> Gaps(s, t, w)[v].None?)
            && Gaps(s, t, w)[c.urlEnd] == Some((c.statusStart, c.statusLen))
  {
    var c := Search(s, t, w).value;
    SearchFromSpec(s, 0, t, w);
    CapturesAt(s, c.urlStart, t, w);
    var e := NonSpaceEnd(s, c.urlStart + 8);
    assert CaptureAt(s, c.urlStart, t, w) == ShortenUrl(s, c.urlStart, e, t, w);
    ShortenUrlSpec(s, c.urlStart, e, t, w);
  }
}
