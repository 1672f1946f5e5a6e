/** Characters and string operations the cleanup script takes from Python:
    `str.isspace` (also what `\s` matches in a `str` regular expression),
    `str.strip`, `str.split` on one character, `in` on strings,
    `str.startswith`, and the case folding `re.IGNORECASE` applies. */
module Text {

  datatype Option<+T> = None | Some(value: T)

  /** Python's `str.isspace()` for one character; `re` uses the same set for `\s`. */
  predicate IsSpace(c: char) {
    ('\t' <= c <= '\r') || ('\U{1C}' <= c <= ' ')
    || c == '\U{85}' || c == '\U{A0}' || c == '\U{1680}'
    || ('\U{2000}' <= c <= '\U{200A}')
    || c == '\U{2028}' || c == '\U{2029}' || c == '\U{202F}' || c == '\U{205F}' || c == '\U{3000}'
  }

  predicate AllSpace(s: string) {
    forall k :: 0 <= k < |s| ==> IsSpace(s[k])
  }

  predicate NoSpace(s: string) {
    forall k :: 0 <= k < |s| ==> !IsSpace(s[k])
  }

  /** The end of the run of whitespace that starts at `i` (`i` itself when `s[i]` is not whitespace). */
  function SpaceEnd(s: string, i: nat): (j: nat)
    requires i <= |s|
    ensures i <= j <= |s|
    decreases |s| - i
  {
    if i < |s| && IsSpace(s[i]) then SpaceEnd(s, i + 1) else i
  }

  /** `SpaceEnd` stops at the first character that is not whitespace. */
  lemma {:induction false} SpaceRun(s: string, i: nat)
    requires i <= |s|
    ensures forall k :: i <= k < SpaceEnd(s, i) ==> IsSpace(s[k])
    ensures SpaceEnd(s, i) == |s| || !IsSpace(s[SpaceEnd(s, i)])
    decreases |s| - i
  {
    if i < |s| && IsSpace(s[i]) {
      SpaceRun(s, i + 1);
    }
  }

  /** The end of the run of non-whitespace characters that starts at `i`. */
  function NonSpaceEnd(s: string, i: nat): (j: nat)
    requires i <= |s|
    ensures i <= j <= |s|
    decreases |s| - i
  {
    if i < |s| && !IsSpace(s[i]) then NonSpaceEnd(s, i + 1) else i
  }

  /** `NonSpaceEnd` stops at the first whitespace character. */
  lemma {:induction false} NonSpaceRun(s: string, i: nat)
    requires i <= |s|
    ensures forall k :: i <= k < NonSpaceEnd(s, i) ==> !IsSpace(s[k])
    ensures NonSpaceEnd(s, i) == |s| || IsSpace(s[NonSpaceEnd(s, i)])
    decreases |s| - i
  {
    if i < |s| && !IsSpace(s[i]) {
      NonSpaceRun(s, i + 1);
    }
  }

  /** A whitespace run from `i` that ends at `j`, where the next character is
      not whitespace, is the one `SpaceEnd` finds. */
  lemma {:induction false} SpaceEndAt(s: string, i: nat, j: nat)
    requires i <= j <= |s|
    requires forall k :: i <= k < j ==> IsSpace(s[k])
    requires j == |s| || !IsSpace(s[j])
    ensures SpaceEnd(s, i) == j
    decreases j - i
  {
    if i < j {
      SpaceEndAt(s, i + 1, j);
    }
  }

  /** Likewise for a run of non-whitespace that ends at `j`. */
  lemma {:induction false} NonSpaceEndAt(s: string, i: nat, j: nat)
    requires i <= j <= |s|
    requires forall k :: i <= k < j ==> !IsSpace(s[k])
    requires j == |s| || IsSpace(s[j])
    ensures NonSpaceEnd(s, i) == j
    decreases j - i
  {
    if i < j {
      NonSpaceEndAt(s, i + 1, j);
    }
  }

  /** `s` without its leading whitespace. */
  function StripLeft(s: string): (t: string)
    decreases |s|
  {
    if |s| > 0 && IsSpace(s[0]) then StripLeft(s[1..]) else s
  }

  /** `s` without its trailing whitespace. */
  function StripRight(s: string): (t: string)
    decreases |s|
  {
    if |s| > 0 && IsSpace(s[|s| - 1]) then StripRight(s[..|s| - 1]) else s
  }

  /** Python's `str.strip()`: `s` without its leading and trailing whitespace. */
  function Strip(s: string): (t: string) {
    StripRight(StripLeft(s))
  }

  /** Stripping the left drops a (possibly empty) run of whitespace, `s[..a]`. */
  lemma {:induction false} StripLeftSlice(s: string) returns (a: nat)
    ensures a <= |s| && StripLeft(s) == s[a..]
    ensures forall k :: 0 <= k < a ==> IsSpace(s[k])
    ensures StripLeft(s) == "" || !IsSpace(StripLeft(s)[0])
    decreases |s|
  {
    if |s| > 0 && IsSpace(s[0]) {
      var t := s[1..];
      var a' := StripLeftSlice(t);
      a := a' + 1;
      assert t[a'..] == s[a..];
      forall k | 0 <= k < a ensures IsSpace(s[k]) {
        if k > 0 {
          assert s[k] == t[k - 1];
        }
      }
    } else {
      a := 0;
      assert s == s[0..];
    }
  }

  /** Stripping the right drops a (possibly empty) run of whitespace, `s[b..]`. */
  lemma {:induction false} StripRightSlice(s: string) returns (b: nat)
    ensures b <= |s| && StripRight(s) == s[..b]
    ensures forall k :: b <= k < |s| ==> IsSpace(s[k])
    ensures StripRight(s) == "" || !IsSpace(StripRight(s)[|StripRight(s)| - 1])
    decreases |s|
  {
    var n := |s|;
    if n > 0 && IsSpace(s[n - 1]) {
      var t := s[..n - 1];
      b := StripRightSlice(t);
      assert t[..b] == s[..b];
      assert forall k :: b <= k < n - 1 ==> s[k] == t[k];
    } else {
      b := n;
      assert s == s[..n];
    }
  }

  /** Stripping removes whitespace at both ends, `s[..a]` and `s[b..]`, and nothing else. */
  lemma StripSlice(s: string) returns (a: nat, b: nat)
    ensures a <= b <= |s| && Strip(s) == s[a..b]
    ensures forall k :: 0 <= k < a ==> IsSpace(s[k])
    ensures forall k :: b <= k < |s| ==> IsSpace(s[k])
  {
    a := StripLeftSlice(s);
    var t := s[a..];
    var c := StripRightSlice(t);
    b := a + c;
    assert t[..c] == s[a..b];
    forall k | b <= k < |s| ensures IsSpace(s[k]) {
      assert s[k] == t[k - a];
    }
  }

  /** A non-blank stripped string starts and ends with non-whitespace. */
  lemma StripEnds(s: string)
    ensures Strip(s) == "" || (!IsSpace(Strip(s)[0]) && !IsSpace(Strip(s)[|Strip(s)| - 1]))
  {
    var t := StripLeft(s);
    var a := StripLeftSlice(s);
    var b := StripRightSlice(t);
    if Strip(s) != "" {
      assert Strip(s)[0] == t[0];
    }
  }

  /** A stripped string is blank exactly when the whole string is whitespace. */
  lemma StripEmpty(s: string)
    ensures |Strip(s)| <= |s|
    ensures Strip(s) == "" <==> AllSpace(s)
  {
    var a, b := StripSlice(s);
    if Strip(s) == "" {
      assert a == b;
    } else {
      StripEnds(s);
      assert Strip(s)[0] == s[a];
      assert !AllSpace(s);
    }
  }

  /** Stripping changes nothing in a string that neither starts nor ends with whitespace. */
  lemma StripUnchanged(s: string)
    requires s != "" && !IsSpace(s[0]) && !IsSpace(s[|s| - 1])
    ensures Strip(s) == s
  {
  }

  /** `sub` occurs in `s` at position `k`. */
  predicate OccursAt(s: string, sub: string, k: nat) {
    k + |sub| <= |s| && s[k..k + |sub|] == sub
  }

  /** Python's `sub in s` (case-sensitive). */
  predicate Contains(s: string, sub: string) {
    exists k :: 0 <= k <= |s| && OccursAt(s, sub, k)
  }

  /** Python's `s.startswith(p)` (case-sensitive). */
  predicate StartsWith(s: string, p: string) {
    |p| <= |s| && s[..|p|] == p
  }

  /** Python's `s.split(sep)` for a one-character separator: all the pieces
      between separators, in order, including empty ones. */
  function Split(s: string, sep: char): (parts: seq<string>)
    ensures |parts| >= 1
    decreases |s|
  {
    if |s| == 0 then [""]
    else
      var rest := Split(s[1..], sep);
      if s[0] == sep then [""] + rest
      else [[s[0]] + rest[0]] + rest[1..]
  }

  /** No piece of a split holds the separator. */
  lemma {:induction false} SplitPieces(s: string, sep: char)
    ensures forall k :: 0 <= k < |Split(s, sep)| ==> sep !in Split(s, sep)[k]
    decreases |s|
  {
    if |s| > 0 {
      SplitPieces(s[1..], sep);
      var rest := Split(s[1..], sep);
      if s[0] != sep {
        var parts := [[s[0]] + rest[0]] + rest[1..];
        assert Split(s, sep) == parts;
        forall k | 0 <= k < |parts| ensures sep !in parts[k] {
          if k > 0 { assert parts[k] == rest[k]; }
        }
      }
    }
  }

  /** `sep.join(parts)`. */
  function Join(parts: seq<string>, sep: char): (joined: string)
    decreases |parts|
  {
    if |parts| == 0 then ""
    else if |parts| == 1 then parts[0]
    else parts[0] + [sep] + Join(parts[1..], sep)
  }

  /** Joining the pieces of a split gives back the text. */
  lemma {:induction false} JoinSplit(s: string, sep: char)
    ensures Join(Split(s, sep), sep) == s
    decreases |s|
  {
    if |s| > 0 {
      var rest := Split(s[1..], sep);
      JoinSplit(s[1..], sep);
      if s[0] == sep {
        assert Split(s, sep) == [""] + rest;
        if |rest| == 1 {
          assert Join(Split(s, sep), sep) == "" + [sep] + rest[0];
        } else {
          assert ([""] + rest)[1..] == rest;
        }
        assert s == [s[0]] + s[1..];
      } else {
        var parts := [[s[0]] + rest[0]] + rest[1..];
        assert Split(s, sep) == parts;
        if |rest| == 1 {
          assert Join(parts, sep) == [s[0]] + rest[0];
        } else {
          assert parts[1..] == rest[1..];
          assert Join(rest, sep) == rest[0] + [sep] + Join(rest[1..], sep);
          assert Join(parts, sep) == [s[0]] + rest[0] + [sep] + Join(rest[1..], sep);
        }
        assert s == [s[0]] + s[1..];
      }
    }
  }

  /** Splitting one character followed by `s`. */
  lemma SplitCons(c: char, s: string, sep: char)
    ensures Split([c] + s, sep) == if c == sep then [""] + Split(s, sep)
                                   else [[c] + Split(s, sep)[0]] + Split(s, sep)[1..]
  {
    assert ([c] + s)[1..] == s;
  }

  /** Splitting text that starts with a separator-free piece `a` glues `a` to the first piece. */
  lemma {:induction false} SplitPrefix(a: string, b: string, sep: char)
    requires sep !in a
    ensures Split(a + b, sep) == [a + Split(b, sep)[0]] + Split(b, sep)[1..]
    decreases |a|
  {
    var pb := Split(b, sep);
    if |a| > 0 {
      var a' := a[1..];
      SplitPrefix(a', b, sep);
      assert a + b == [a[0]] + (a' + b);
      SplitCons(a[0], a' + b, sep);
      GlueFront(a[0], a', pb[0], pb[1..]);
      assert [a[0]] + a' == a;
    } else {
      assert a == "" && a + b == b && a + pb[0] == pb[0];
      assert pb == [pb[0]] + pb[1..];
    }
  }

  /** The sequence algebra behind `SplitPrefix`. */
  lemma GlueFront(c: char, a: string, p: string, rest: seq<string>)
    ensures [[c] + ([a + p] + rest)[0]] + ([a + p] + rest)[1..] == [[c] + a + p] + rest
  {
    assert ([a + p] + rest)[1..] == rest;
    assert [c] + (a + p) == [c] + a + p;
  }

  /** Splitting joined separator-free pieces gives the pieces back. */
  lemma {:induction false} SplitJoin(parts: seq<string>, sep: char)
    requires |parts| >= 1
    requires forall k :: 0 <= k < |parts| ==> sep !in parts[k]
    ensures Split(Join(parts, sep), sep) == parts
    decreases |parts|
  {
    if |parts| == 1 {
      SplitPrefix(parts[0], "", sep);
      assert parts[0] + "" == parts[0];
    } else {
      var tail := Join(parts[1..], sep);
      SplitJoin(parts[1..], sep);
      assert Join(parts, sep) == parts[0] + ([sep] + tail);
      SplitPrefix(parts[0], [sep] + tail, sep);
      assert ([sep] + tail)[1..] == tail;
      assert Split([sep] + tail, sep) == [""] + parts[1..];
      assert parts[0] + "" == parts[0];
      assert parts == [parts[0]] + parts[1..];
    }
  }

  /** Text joined at a separator splits into the pieces of either side, in order. */
  lemma {:induction false} SplitAround(a: string, b: string, sep: char)
    ensures Split(a + [sep] + b, sep) == Split(a, sep) + Split(b, sep)
    decreases |a|
  {
    if |a| == 0 {
      assert a + [sep] + b == [sep] + b;
      SplitCons(sep, b, sep);
    } else {
      var a' := a[1..];
      SplitAround(a', b, sep);
      assert a == [a[0]] + a';
      assert a + [sep] + b == [a[0]] + (a' + [sep] + b);
      SplitAroundStep(a[0], a', b, sep);
    }
  }

  /** The inductive step of `SplitAround`: one more character in front. */
  lemma SplitAroundStep(c: char, a: string, b: string, sep: char)
    requires Split(a + [sep] + b, sep) == Split(a, sep) + Split(b, sep)
    ensures Split([c] + (a + [sep] + b), sep) == Split([c] + a, sep) + Split(b, sep)
  {
    SplitCons(c, a + [sep] + b, sep);
    SplitCons(c, a, sep);
    GluePieces(c, sep, Split(a, sep), Split(b, sep));
  }

  /** The sequence algebra behind `SplitAroundStep`. */
  lemma GluePieces(c: char, sep: char, ra: seq<string>, rb: seq<string>)
    requires |ra| >= 1
    ensures (if c == sep then [""] + (ra + rb) else [[c] + (ra + rb)[0]] + (ra + rb)[1..])
            == (if c == sep then [""] + ra else [[c] + ra[0]] + ra[1..]) + rb
  {
    if c != sep {
      assert (ra + rb)[0] == ra[0] && (ra + rb)[1..] == ra[1..] + rb;
    }
  }

  /** The one-to-one lower-case mapping `re.IGNORECASE` applies to a text character,
      on the characters whose image is an ASCII letter: A-Z, U+0130 and the Kelvin sign U+212A. */
  function FoldCase(c: char): (f: char)
    ensures 'a' <= f <= 'z' && !('a' <= c <= 'z') ==> 'A' <= c <= 'Z' || c == '\U{130}' || c == '\U{212A}'
    ensures !('A' <= c <= 'Z') && c != '\U{130}' && c != '\U{212A}' ==> f == c
  {
    if 'A' <= c <= 'Z' then (c as int + 32) as char
    else if c == '\U{130}' then 'i'
    else if c == '\U{212A}' then 'k'
    else c
  }

  /** Text character `c` matches pattern character `p` (a lower-case letter or a
      non-letter) under `re.IGNORECASE`; `re` also pairs i with U+0131 and s with U+017F. */
  predicate CharMatchesCI(c: char, p: char) {
    var f := FoldCase(c);
    f == p || (p == 'i' && f == '\U{131}') || (p == 's' && f == '\U{17F}')
  }

  /** The lower-case pattern word `w` matches `s` at `i`, ignoring case. */
  predicate MatchesCIAt(s: string, i: nat, w: string) {
    i + |w| <= |s| && forall k :: 0 <= k < |w| ==> CharMatchesCI(s[i + k], w[k])
  }

  /** `t` is the lower-case word `w`, ignoring case. */
  predicate EqualsCI(t: string, w: string) {
    |t| == |w| && MatchesCIAt(t, 0, w)
  }

  /** A case-insensitive match at `i` is the whole of the slice it covers matching as a word. */
  lemma MatchesCISlice(s: string, i: nat, w: string)
    requires MatchesCIAt(s, i, w)
    ensures EqualsCI(s[i..i + |w|], w)
  {
    var t := s[i..i + |w|];
    assert forall k :: 0 <= k < |w| ==> t[k] == s[i + k];
  }

  /** The converse: a slice that equals `w` ignoring case is a match at its start. */
  lemma SliceMatchesCI(s: string, i: nat, w: string)
    requires i + |w| <= |s| && EqualsCI(s[i..i + |w|], w)
    ensures MatchesCIAt(s, i, w)
  {
    var t := s[i..i + |w|];
    assert forall k :: 0 <= k < |w| ==> t[k] == s[i + k];
  }

  /** Any character matches itself as a lower-case pattern letter or a non-letter. */
  lemma SelfMatchesCI(s: string)
    requires forall k :: 0 <= k < |s| ==> !('A' <= s[k] <= 'Z') && s[k] != '\U{130}' && s[k] != '\U{212A}'
    ensures MatchesCIAt(s, 0, s)
  {
  }
}
