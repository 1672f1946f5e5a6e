/** How `list_deployments` stitches one command's standard output and
    standard error into the text the parser reads (the table may come on
    either stream). */
module Listing {
  import opened Text

  /** The combined output of one command, or `None` when it is blank, in
      which case the script goes on to the next way of running the command.
      It is rejected exactly when both streams are whitespace only. */
  function Combined(stdout: string, stderr: string): (output: Option<string>)
    ensures output.None? <==> AllSpace(stdout) && AllSpace(stderr)
    ensures output.Some? ==> Strip(output.value) != ""
  {
    if stderr != "" then
      var combined := stdout + "\n" + stderr;
      StripEmpty(combined);
      AllSpaceAppend(stdout, "\n");
      AllSpaceAppend(stdout + "\n", stderr);
      if Strip(combined) != "" then Some(combined) else None
    else
      StripEmpty(stdout);
      if Strip(stdout) != "" then Some(stdout) else None
  }

  lemma AllSpaceAppend(a: string, b: string)
    ensures AllSpace(a + b) <==> AllSpace(a) && AllSpace(b)
  {
    if AllSpace(a + b) {
      forall k | 0 <= k < |a| ensures IsSpace(a[k]) {
        assert a[k] == (a + b)[k];
      }
      forall k | 0 <= k < |b| ensures IsSpace(b[k]) {
        assert b[k] == (a + b)[|a| + k];
      }
    }
  }

  /** The parser sees the lines of standard output followed by the lines of
      standard error (an empty standard output still adds one empty line). */
  lemma CombinedLines(stdout: string, stderr: string)
    requires Combined(stdout, stderr).Some?
    ensures stderr == "" ==> Combined(stdout, stderr).value == stdout
    ensures stderr != "" ==>
              Split(Combined(stdout, stderr).value, '\n') == Split(stdout, '\n') + Split(stderr, '\n')
  {
    if stderr != "" {
      SplitAround(stdout, stderr, '\n');
    }
  }
}
