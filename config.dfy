/** The settings the script reads from its environment, given here as
    strings: the project lists (`get_project_list`) and the opt-in for the
    aggressive stage of the parser. */
module Config {
  import opened Text

  /** `[p.strip() for p in value.split(',') if p.strip()]`. */
  function Entries(value: string): (entries: seq<string>) {
    Kept(Split(value, ','))
  }

  /** The stripped pieces that are not blank, in order. */
  function Kept(pieces: seq<string>): (kept: seq<string>)
    decreases |pieces|
  {
    if |pieces| == 0 then []
    else
      var p := Strip(pieces[0]);
      (if p != "" then [p] else []) + Kept(pieces[1..])
  }

  /** `get_project_list`, with `INPUT_PROJECTS` and `DEFAULT_PROJECTS` given
      (an unset variable is the empty string).  Every entry is a proper
      project name. */
  function ProjectList(inputProjects: string, defaultProjects: string): (projects: seq<string>)
    ensures forall k :: 0 <= k < |projects| ==> IsEntry(projects[k])
  {
    SplitPieces(Strip(inputProjects), ',');
    KeptEntries(Split(Strip(inputProjects), ','));
    SplitPieces(Strip(defaultProjects), ',');
    KeptEntries(Split(Strip(defaultProjects), ','));
    var input := Strip(inputProjects);
    if input != "" then Entries(input)
    else
      var fallback := Strip(defaultProjects);
      if fallback != "" then Entries(fallback) else []
  }

  /** A project name as the list holds it: not blank, no surrounding
      whitespace, no comma. */
  predicate IsEntry(p: string) {
    p != "" && Strip(p) == p && ',' !in p
  }

  lemma StripIdempotent(s: string)
    ensures Strip(Strip(s)) == Strip(s)
  {
    StripEnds(s);
    if Strip(s) != "" {
      StripUnchanged(Strip(s));
    }
  }

  lemma StripKeepsOut(s: string, c: char)
    requires c !in s
    ensures c !in Strip(s)
  {
    var a, b := StripSlice(s);
  }

  lemma {:induction false} KeptEntries(pieces: seq<string>)
    requires forall j :: 0 <= j < |pieces| ==> ',' !in pieces[j]
    ensures forall k :: 0 <= k < |Kept(pieces)| ==> IsEntry(Kept(pieces)[k])
    decreases |pieces|
  {
    if |pieces| > 0 {
      var p := Strip(pieces[0]);
      KeptEntries(pieces[1..]);
      StripIdempotent(pieces[0]);
      StripKeepsOut(pieces[0], ',');
      var r := Kept(pieces);
      forall k | 0 <= k < |r| ensures IsEntry(r[k]) {
        if p != "" && k == 0 {
          assert r[0] == p;
        } else {
          var rest := Kept(pieces[1..]);
          assert r[k] == rest[if p != "" then k - 1 else k];
        }
      }
    }
  }

  /** `INPUT_PROJECTS` wins whenever it is not blank, even if it names no
      project; otherwise `DEFAULT_PROJECTS` is read as if it were the input. */
  lemma InputPrecedence(inputProjects: string, default1: string, default2: string)
    ensures Strip(inputProjects) != "" ==>
              ProjectList(inputProjects, default1) == ProjectList(inputProjects, default2)
    ensures Strip(inputProjects) == "" ==>
              ProjectList(inputProjects, default1) == ProjectList(default1, "")
  {
  }

  lemma {:induction false} KeptAll(ps: seq<string>)
    requires forall k :: 0 <= k < |ps| ==> IsEntry(ps[k])
    ensures Kept(ps) == ps
    decreases |ps|
  {
    if |ps| > 0 {
      KeptAll(ps[1..]);
      assert [ps[0]] + ps[1..] == ps;
    }
  }

  /** A join starts with its first piece and ends with its last. */
  lemma {:induction false} JoinEnds(ps: seq<string>, sep: char)
    requires |ps| >= 1
    ensures |ps[0]| <= |Join(ps, sep)| && Join(ps, sep)[..|ps[0]|] == ps[0]
    ensures |ps[|ps| - 1]| <= |Join(ps, sep)|
            && Join(ps, sep)[|Join(ps, sep)| - |ps[|ps| - 1]|..] == ps[|ps| - 1]
    decreases |ps|
  {
    if |ps| > 1 {
      var rest := Join(ps[1..], sep);
      JoinEnds(ps[1..], sep);
      assert Join(ps, sep) == ps[0] + [sep] + rest;
      assert (ps[0] + [sep] + rest)[..|ps[0]|] == ps[0];
      var last := ps[|ps| - 1];
      assert ps[1..][|ps| - 2] == last;
      assert (ps[0] + [sep] + rest)[|ps[0] + [sep] + rest| - |last|..] == rest[|rest| - |last|..];
    }
  }

  /** Writing a non-empty list of project names comma-separated gives the
      same list back, whatever the default. */
  lemma ProjectListRoundTrip(ps: seq<string>, defaultProjects: string)
    requires |ps| >= 1
    requires forall k :: 0 <= k < |ps| ==> IsEntry(ps[k])
    ensures ProjectList(Join(ps, ','), defaultProjects) == ps
  {
    var s := Join(ps, ',');
    var first, last := ps[0], ps[|ps| - 1];
    JoinEnds(ps, ',');
    StripEnds(first);
    StripEnds(last);
    assert s[0] == s[..|first|][0] == first[0];
    assert s[|s| - 1] == s[|s| - |last|..][|last| - 1] == last[|last| - 1];
    StripUnchanged(s);
    SplitJoin(ps, ',');
    KeptAll(ps);
  }

  // ---------------------------------------------------------------------
  // AUTO_CONFIRM_AGGRESSIVE_CLEANUP

  /** `str.lower()` on one character, for the ASCII letters. */
  function LowerChar(c: char): (l: char) {
    if 'A' <= c <= 'Z' then (c as int + 32) as char else c
  }

  function Lower(s: string): (l: seq<char>) {
    seq(|s|, k requires 0 <= k < |s| => LowerChar(s[k]))
  }

  /** `value.lower() in ['true', '1', 'yes']`. */
  predicate AutoConfirmSet(value: string) {
    var l := Lower(value);
    l == "true" || l == "1" || l == "yes"
  }

  /** The opt-in ignores the case of ASCII letters, but nothing else: no
      whitespace is allowed, and only the three words are accepted. */
  lemma AutoConfirmIgnoresCase(v: string, w: string)
    requires |v| == |w| && forall k :: 0 <= k < |v| ==> LowerChar(v[k]) == LowerChar(w[k])
    ensures AutoConfirmSet(v) <==> AutoConfirmSet(w)
  {
    assert Lower(v) == Lower(w);
  }

  lemma AutoConfirmWords(v: string)
    ensures AutoConfirmSet(v) ==> NoSpace(v) && (|v| == 1 || |v| == 3 || |v| == 4)
    ensures AutoConfirmSet(v) <==> (|v| == 1 && v[0] == '1')
                                   || (|v| == 3 && LowerChar(v[0]) == 'y' && LowerChar(v[1]) == 'e' && LowerChar(v[2]) == 's')
                                   || (|v| == 4 && LowerChar(v[0]) == 't' && LowerChar(v[1]) == 'r'
                                                && LowerChar(v[2]) == 'u' && LowerChar(v[3]) == 'e')
  {
    var l := Lower(v);
    if AutoConfirmSet(v) {
      forall k | 0 <= k < |v| ensures !IsSpace(v[k]) {
        assert l[k] == LowerChar(v[k]);
      }
    }
    if |v| == 1 {
      assert l == [LowerChar(v[0])];
    } else if |v| == 3 {
      assert l == [LowerChar(v[0]), LowerChar(v[1]), LowerChar(v[2])];
    } else if |v| == 4 {
      assert l == [LowerChar(v[0]), LowerChar(v[1]), LowerChar(v[2]), LowerChar(v[3])];
    }
  }
}
