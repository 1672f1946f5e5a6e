/** `cleanup_project_deployments`: parse the listing of one project, keep the
    first record (the newest deployment) and try to delete every other one,
    in order, pausing between two deletions.  The listing and the outcome of
    each deletion come from outside (the Vercel CLI) and are parameters; the
    deletions and pauses are recorded in a ghost trace. */
module Cleanup {
  import opened Text
  import opened Patterns
  import opened Parser

  /** What the loop does to the outside world, in order. */
  datatype Event = Delete(url: string) | Sleep

  /** Successful deletions and attempted deletions, in the order the script returns them. */
  datatype Tally = Tally(success: nat, attempted: nat)

  /** The records the script works on: none when the listing is missing or
      empty, otherwise whatever `parse_deployments` finds in it. */
  function Records(output: Option<string>, autoConfirm: bool): (recs: seq<Deployment>) {
    if output.None? || output.value == "" then [] else ParseOutput(output.value, autoConfirm)
  }

  /** The URLs of the records, in order. */
  function Urls(recs: seq<Deployment>): (u: seq<string>)
    ensures |u| == |recs|
  {
    seq(|recs|, k requires 0 <= k < |recs| => recs[k].url)
  }

  lemma UrlsSnoc(recs: seq<Deployment>, i: nat)
    requires 1 <= i < |recs|
    ensures Urls(recs)[1..i + 1] == Urls(recs)[1..i] + [recs[i].url]
  {
    assert Urls(recs)[1..i + 1][i - 1] == recs[i].url;
  }

  /** How many of the positions `lo .. hi-1` the deleter reports as deleted. */
  function CountOk(ok: nat -> bool, lo: nat, hi: nat): (n: nat)
    decreases hi
  {
    if hi <= lo then 0 else CountOk(ok, lo, hi - 1) + (if ok(hi - 1) then 1 else 0)
  }

  /** The counts for a parse: every record but the first is attempted, and
      `ok(k)` says whether deleting record `k` (from 0) succeeds. */
  function Outcome(recs: seq<Deployment>, ok: nat -> bool): (tally: Tally) {
    if |recs| == 0 then Tally(0, 0) else Tally(CountOk(ok, 1, |recs|), |recs| - 1)
  }

  /** Deleting `urls` in order with a pause between any two deletions and none
      before the first or after the last: deletions at the even positions,
      pauses at the odd ones. */
  function Spaced(urls: seq<string>): (trace: seq<Event>) {
    if |urls| == 0 then []
    else seq(2 * |urls| - 1, k requires 0 <= k < 2 * |urls| - 1 =>
               if k % 2 == 0 then Delete(urls[k / 2]) else Sleep)
  }

  /** The trace of the script for a parse: the URLs of every record but the first, spaced. */
  function Trace(recs: seq<Deployment>): (trace: seq<Event>) {
    if |recs| == 0 then [] else Spaced(Urls(recs)[1..])
  }

  /** One more deletion at the end adds a pause and that deletion. */
  lemma SpacedSnoc(urls: seq<string>, url: string)
    ensures |urls| == 0 ==> Spaced(urls + [url]) == [Delete(url)]
    ensures |urls| > 0 ==> Spaced(urls + [url]) == Spaced(urls) + [Sleep, Delete(url)]
  {
    var a, b := Spaced(urls + [url]), Spaced(urls) + [Sleep, Delete(url)];
    if |urls| > 0 {
      assert |a| == |b|;
      forall k | 0 <= k < |a| ensures a[k] == b[k] {
        if k < 2 * |urls| - 1 {
          assert (urls + [url])[k / 2] == urls[k / 2];
        } else if k == 2 * |urls| {
          assert k / 2 == |urls|;
        }
      }
    }
  }

  /** `cleanup_project_deployments` for a listing already fetched (`output`,
      `None` when it could not be fetched), with the deleter as an oracle. */
  method CleanupProject(output: Option<string>, autoConfirm: bool, ok: nat -> bool)
    returns (success: nat, attempted: nat, ghost trace: seq<Event>)
    ensures Tally(success, attempted) == Outcome(Records(output, autoConfirm), ok)
    ensures trace == Trace(Records(output, autoConfirm))
  {
    if output.None? || output.value == "" {
      return 0, 0, [];
    }
    var recs := ParseDeployments(output.value, autoConfirm);
    if |recs| == 0 {
      return 0, 0, [];
    }
    success, attempted, trace := DeleteAllButFirst(recs, ok);
  }

  /** The retention loop: skip the first record, try to delete the others in
      order, pause after each deletion but the last. */
  method DeleteAllButFirst(recs: seq<Deployment>, ok: nat -> bool)
    returns (success: nat, attempted: nat, ghost trace: seq<Event>)
    ensures Tally(success, attempted) == Outcome(recs, ok)
    ensures trace == Trace(recs)
  {
    trace := [];
    ghost var urls := Urls(recs);
    success, attempted := 0, 0;
    for i := 0 to |recs|
      invariant attempted == (if i == 0 then 0 else i - 1)
      invariant success == CountOk(ok, 1, i)
      invariant i <= 1 ==> trace == []
      invariant 1 < i < |recs| ==> trace == Spaced(urls[1..i]) + [Sleep]
      invariant 1 < i == |recs| ==> trace == Spaced(urls[1..i])
    {
      if i == 0 {
        continue;
      }
      attempted := attempted + 1;
      if ok(i) {
        success := success + 1;
      }
      UrlsSnoc(recs, i);
      SpacedSnoc(urls[1..i], recs[i].url);
      trace := trace + [Delete(recs[i].url)];
      if i + 1 < |recs| {
        trace := trace + [Sleep];
      }
    }
    if |recs| > 0 {
      assert urls[1..|recs|] == urls[1..];
    }
  }

  // ---------------------------------------------------------------------
  // What the loop promises

  /** At most every attempt succeeds, and all succeed exactly when the deleter
      reports success for every position tried. */
  lemma {:induction false} CountOkBound(ok: nat -> bool, lo: nat, hi: nat)
    requires lo <= hi
    ensures CountOk(ok, lo, hi) <= hi - lo
    ensures CountOk(ok, lo, hi) == hi - lo <==> forall k :: lo <= k < hi ==> ok(k)
    decreases hi
  {
    if lo < hi {
      CountOkBound(ok, lo, hi - 1);
    }
  }

  /** `success <= attempted`, `attempted` is one less than the records found
      (none when nothing was found), and nothing failed exactly when every
      record after the first was deleted. */
  lemma OutcomeBound(recs: seq<Deployment>, ok: nat -> bool)
    ensures Outcome(recs, ok).success <= Outcome(recs, ok).attempted
    ensures Outcome(recs, ok).attempted == if |recs| == 0 then 0 else |recs| - 1
    ensures Outcome(recs, ok).success == Outcome(recs, ok).attempted
            <==> forall k :: 1 <= k < |recs| ==> ok(k)
  {
    if |recs| > 0 {
      CountOkBound(ok, 1, |recs|);
    }
  }

  /** A missing or empty listing, or one with no records, deletes nothing. */
  lemma NothingFound(output: Option<string>, autoConfirm: bool, ok: nat -> bool)
    requires output.None? || output.value == "" || ParseOutput(output.value, autoConfirm) == []
    ensures Outcome(Records(output, autoConfirm), ok) == Tally(0, 0)
    ensures Trace(Records(output, autoConfirm)) == []
  {
  }

  /** The URLs deleted, in the order they are deleted. */
  function Deleted(trace: seq<Event>): (urls: seq<string>)
    decreases |trace|
  {
    if |trace| == 0 then []
    else Deleted(trace[..|trace| - 1]) + (match trace[|trace| - 1] case Delete(u) => [u] case Sleep => [])
  }

  /** The number of pauses. */
  function Sleeps(trace: seq<Event>): (n: nat)
    decreases |trace|
  {
    if |trace| == 0 then 0
    else Sleeps(trace[..|trace| - 1]) + (if trace[|trace| - 1] == Sleep then 1 else 0)
  }

  lemma {:induction false} DeletedAppend(a: seq<Event>, b: seq<Event>)
    ensures Deleted(a + b) == Deleted(a) + Deleted(b)
    ensures Sleeps(a + b) == Sleeps(a) + Sleeps(b)
    decreases |b|
  {
    if |b| == 0 {
      assert a + b == a;
    } else {
      var b' := b[..|b| - 1];
      DeletedAppend(a, b');
      assert (a + b)[..|a + b| - 1] == a + b';
    }
  }

  /** A spaced trace deletes exactly the given URLs, in order, and pauses one
      time fewer than it deletes. */
  lemma {:induction false} SpacedDeletes(urls: seq<string>)
    ensures Deleted(Spaced(urls)) == urls
    ensures Sleeps(Spaced(urls)) == if |urls| == 0 then 0 else |urls| - 1
    decreases |urls|
  {
    if |urls| > 0 {
      var front, last := urls[..|urls| - 1], urls[|urls| - 1];
      assert urls == front + [last];
      SpacedSnoc(front, last);
      SpacedDeletes(front);
      if |front| == 0 {
        assert Spaced(urls) == [Delete(last)];
        assert [Delete(last)][..0] == [];
      } else {
        DeletedAppend(Spaced(front), [Sleep, Delete(last)]);
        assert [Sleep, Delete(last)][..1] == [Sleep];
        assert [Sleep][..0] == [];
      }
    }
  }

  /** Every pause sits between two deletions: never first, never last. */
  lemma SpacedPauses(urls: seq<string>)
    ensures forall k :: 0 <= k < |Spaced(urls)| && Spaced(urls)[k] == Sleep ==>
              0 < k < |Spaced(urls)| - 1 && Spaced(urls)[k - 1].Delete? && Spaced(urls)[k + 1].Delete?
  {
    if |urls| > 0 {
      var t := Spaced(urls);
      forall k | 0 <= k < |t| && t[k] == Sleep
        ensures 0 < k < |t| - 1 && t[k - 1].Delete? && t[k + 1].Delete?
      {
        assert k % 2 == 1;
      }
    }
  }

  /** Retention: the first record is kept, records 2..n are deleted in order,
      there are n-2 pauses for n >= 2 records, and each pause separates two
      deletions. */
  lemma Retention(recs: seq<Deployment>)
    requires |recs| >= 1
    ensures Deleted(Trace(recs)) == Urls(recs)[1..]
    ensures forall k :: 0 <= k < |Deleted(Trace(recs))| ==> Deleted(Trace(recs))[k] == recs[k + 1].url
    ensures Sleeps(Trace(recs)) == if |recs| == 1 then 0 else |recs| - 2
    ensures forall k :: 0 <= k < |Trace(recs)| && Trace(recs)[k] == Sleep ==>
              0 < k < |Trace(recs)| - 1 && Trace(recs)[k - 1].Delete? && Trace(recs)[k + 1].Delete?
  {
    SpacedDeletes(Urls(recs)[1..]);
    SpacedPauses(Urls(recs)[1..]);
  }
}
