/** The part of `main` that decides the outcome of a run: the early exits,
    the per-project totals and the exit code.  Everything the script learns
    from outside (whether the CLI answers, the token, the two project lists,
    the opt-in, each project's listing, which projects raise, what each
    deletion returns) is a field of `World`. */
module Run {
  import opened Text
  import opened Patterns
  import opened Parser
  import opened Cleanup
  import opened Config

  datatype World = World(
    cliAvailable: bool,              // `check_vercel_cli()`
    token: Option<string>,           // `VERCEL_CLI_TOKEN`
    inputProjects: string,           // `INPUT_PROJECTS`, "" when unset
    defaultProjects: string,         // `DEFAULT_PROJECTS`, "" when unset
    autoConfirm: string,             // `AUTO_CONFIRM_AGGRESSIVE_CLEANUP`, "" when unset
    listing: nat -> Option<string>,  // `list_deployments` for the project at each position
    raised: nat -> bool,             // whether handling the project at each position raises
    deleteOk: nat -> nat -> bool)    // `delete_deployment` for each project and record position

  /** The token check of `main`: unset and empty are both missing. */
  predicate HasToken(w: World) {
    w.token.Some? && w.token.value != ""
  }

  function Projects(w: World): (projects: seq<string>) {
    ProjectList(w.inputProjects, w.defaultProjects)
  }

  /** What project `i` adds to the totals: nothing when it raises. */
  function ProjectTally(w: World, i: nat): (tally: Tally) {
    if w.raised(i) then Tally(0, 0)
    else Outcome(Records(w.listing(i), AutoConfirmSet(w.autoConfirm)), w.deleteOk(i))
  }

  /** What each of the first `n` projects adds, in order. */
  function Tallies(w: World, n: nat): (ts: seq<Tally>)
    ensures |ts| == n
  {
    seq(n, i requires 0 <= i < n => ProjectTally(w, i))
  }

  /** The sum of a sequence of tallies. */
  function Sum(ts: seq<Tally>): (tally: Tally)
    decreases |ts|
  {
    if |ts| == 0 then Tally(0, 0)
    else
      var before, here := Sum(ts[..|ts| - 1]), ts[|ts| - 1];
      Tally(before.success + here.success, before.attempted + here.attempted)
  }

  /** The totals over the first `n` projects. */
  function Totals(w: World, n: nat): (tally: Tally) {
    Sum(Tallies(w, n))
  }

  lemma TotalsSnoc(w: World, n: nat)
    ensures Totals(w, n + 1) == Tally(Totals(w, n).success + ProjectTally(w, n).success,
                                      Totals(w, n).attempted + ProjectTally(w, n).attempted)
  {
    assert Tallies(w, n + 1)[..n] == Tallies(w, n);
  }

  /** The exit status `main` ends with. */
  function ExitCode(w: World): (code: int) {
    if !w.cliAvailable || !HasToken(w) then 1
    else if |Projects(w)| == 0 then 0
    else
      var t := Totals(w, |Projects(w)|);
      if t.success < t.attempted then 1 else 0
  }

  /** `main`, from the CLI check to the exit status; the totals are those
      of the project loop, and zero when the run stops before it. */
  method Run(w: World) returns (exitCode: int, totals: Tally)
    ensures exitCode == ExitCode(w)
    ensures totals == if w.cliAvailable && HasToken(w) then Totals(w, |Projects(w)|) else Tally(0, 0)
  {
    totals := Tally(0, 0);
    if !w.cliAvailable {
      return 1, totals;
    }
    if w.token.None? || w.token.value == "" {
      return 1, totals;
    }
    var projects := ProjectList(w.inputProjects, w.defaultProjects);
    if |projects| == 0 {
      return 0, totals;
    }
    var autoConfirm := AutoConfirmSet(w.autoConfirm);
    for i := 0 to |projects|
      invariant totals == Totals(w, i)
    {
      TotalsSnoc(w, i);
      if w.raised(i) {
        continue;
      }
      var success, attempted, trace := CleanupProject(w.listing(i), autoConfirm, w.deleteOk(i));
      totals := Tally(totals.success + success, totals.attempted + attempted);
    }
    exitCode := if totals.success < totals.attempted then 1 else 0;
  }

  // ---------------------------------------------------------------------
  // What the run promises

  /** A project's attempts all succeeded: it raised, or every record after
      its first was deleted. */
  predicate AllDeleted(w: World, i: nat) {
    w.raised(i)
    || forall k :: 1 <= k < |Records(w.listing(i), AutoConfirmSet(w.autoConfirm))| ==> w.deleteOk(i)(k)
  }

  /** A sum never counts more successes than attempts when no part does, and
      they are equal exactly when they are equal in every part. */
  lemma {:induction false} SumBound(ts: seq<Tally>)
    requires forall k :: 0 <= k < |ts| ==> ts[k].success <= ts[k].attempted
    ensures Sum(ts).success <= Sum(ts).attempted
    ensures Sum(ts).success == Sum(ts).attempted <==> forall k :: 0 <= k < |ts| ==> ts[k].success == ts[k].attempted
    decreases |ts|
  {
    if |ts| > 0 {
      var front := ts[..|ts| - 1];
      assert forall k :: 0 <= k < |front| ==> front[k] == ts[k];
      SumBound(front);
    }
  }

  /** The totals never count more successes than attempts, and are equal
      exactly when every project's attempts all succeeded. */
  lemma TotalsBound(w: World, n: nat)
    ensures Totals(w, n).success <= Totals(w, n).attempted
    ensures Totals(w, n).success == Totals(w, n).attempted <==> forall i :: 0 <= i < n ==> AllDeleted(w, i)
  {
    var ts := Tallies(w, n);
    forall k | 0 <= k < n
      ensures ts[k].success <= ts[k].attempted
      ensures ts[k].success == ts[k].attempted <==> AllDeleted(w, k)
    {
      ProjectTallyBound(w, k);
    }
    SumBound(ts);
  }

  /** One project's successes never exceed its attempts, and equal them
      exactly when its attempts all succeeded. */
  lemma ProjectTallyBound(w: World, i: nat)
    ensures ProjectTally(w, i).success <= ProjectTally(w, i).attempted
    ensures ProjectTally(w, i).success == ProjectTally(w, i).attempted <==> AllDeleted(w, i)
  {
    if !w.raised(i) {
      OutcomeBound(Records(w.listing(i), AutoConfirmSet(w.autoConfirm)), w.deleteOk(i));
    }
  }

  /** The exit status is 0 or 1; it is 1 without the CLI or the token; with
      both it is 0 when no project is configured and otherwise exactly when
      every attempted deletion of every project that did not raise succeeded. */
  lemma ExitCodeMeaning(w: World)
    ensures ExitCode(w) == 0 || ExitCode(w) == 1
    ensures !w.cliAvailable || !HasToken(w) ==> ExitCode(w) == 1
    ensures w.cliAvailable && HasToken(w) && |Projects(w)| == 0 ==> ExitCode(w) == 0
    ensures w.cliAvailable && HasToken(w) && |Projects(w)| > 0 ==>
              (ExitCode(w) == 0 <==> forall i :: 0 <= i < |Projects(w)| ==> AllDeleted(w, i))
    ensures w.cliAvailable && HasToken(w) && |Projects(w)| > 0 ==>
              (ExitCode(w) == 1 <==> Totals(w, |Projects(w)|).success < Totals(w, |Projects(w)|).attempted)
  {
    TotalsBound(w, |Projects(w)|);
  }
}
