# Vercel deployment cleanup: a verified model

`scripts/cleanup_vercel_deployments.py` is run by a CI workflow to cancel
stuck Vercel deployments. For each configured project it lists the
project's deployments with the Vercel CLI and parses the table the CLI
prints into `(url, status)` pairs of deployments still `Building` or
`Queued`. It keeps the first pair (the newest deployment) and deletes every
other one, pausing between deletions. The process exits with status 1 when
any deletion failed.

This project models the logic of that script in Dafny and proves what it
promises:

- `Text`: the Python string operations the script relies on: `str.strip`
  (Python's whitespace set), `str.split` on one character, `in`,
  `startswith`, and the case-insensitive character matching of
  `re.IGNORECASE`.
- `Patterns`: every regular expression of `parse_deployments`, written out
  as the scan Python's backtracking matcher performs for it. Start
  positions are tried left to right. The greedy `[^\s]+` URL group takes
  the longest run first and gives characters back one at a time. The lazy
  `.*?` takes one more character (never a newline) only when the rest of
  the pattern fails. Patterns 1 and 2 are anchored by `^\s*\S+\s+`.
  Patterns 3 and 5 need whitespace before the status; pattern 4 and the
  second fallback pattern do not.
- `PatternFacts`: the order of that search, stated over tables with one
  entry per position of the line. The match is the leftmost start, then the
  longest URL group, then the shortest gap.
- `PatternSpecs`: two-sided statements of the anchored patterns, the
  whole-word status search and the case-sensitive URL search. Each says
  where the match is and exactly when there is none.
- `PatternCases`: worked rows. A row laid out the way the CLI prints it
  yields its URL and status from pattern 1. On the line
  `https://abuilding`, pattern 4 (and the second fallback pattern)
  captures the URL `https://a` and the status `building`, cut out of the
  URL text.
- `Parser`: the three stages of `parse_deployments`, as methods with the
  script's loops, flags and counters. Each is proved equal to a
  specification function:
  - the header-anchored pass, with its ten-row cap;
  - the headerless fallback, with its neighbour search;
  - the opt-in aggressive stage.
- `ParserFacts`: the properties of those functions (where the header is,
  which rows are examined, the shape of every record, when the later
  stages run and what they may add).
- `ParserSources`: where each record's text comes from. Every URL, and
  every status of the first two stages, is text of one of the lines as it
  stands.
- `Cleanup`: `cleanup_project_deployments`. The listing is a parameter and
  the deleter is an oracle. Deletions and pauses are recorded in a ghost
  trace.
- `Config`: `get_project_list`, and the opt-in
  `AUTO_CONFIRM_AGGRESSIVE_CLEANUP`.
- `Listing`: how `list_deployments` stitches standard output and standard
  error together.
- `Run`: the early exits, the totals and the exit status of `main`.
  Everything `main` learns from outside is a field of `Run.World`: whether
  the CLI answers, the token, the environment strings, each project's
  listing, which projects raise, and each deletion's outcome.

Where the code and its own messages disagree, the model follows the code.
The fallback announces that it parses at most ten lines, and it tests a
row counter against 10. That counter is never incremented, so the fallback
visits every line (`ParserFacts.FallbackNoRowCap`).

## Model

| member | source | states |
|---|---|---|
| Patterns.StatusAt | scripts/cleanup_vercel_deployments.py:241-249 | What the status alternation matches at a position lies inside the line. |
| Patterns.StatusWord | scripts/cleanup_vercel_deployments.py:241-249 | The status alternation matches one of its words ignoring case: Building/Queued for patterns 1–4, which also admit Build/Queue for pattern 5. |
| Patterns.TailAt | scripts/cleanup_vercel_deployments.py:241-249 | A tail matched from a position puts the status group at or after it, where the alternation matches. |
| Patterns.LazyGap | scripts/cleanup_vercel_deployments.py:245-249 | Where the lazy gap succeeds, the status group starts at or after the gap's start and the alternation matches there. |
| Patterns.GapSpaced | scripts/cleanup_vercel_deployments.py:245 | With the `\s+` tail (patterns 3 and 5), the status group starts after the gap and right after a whitespace character. |
| Patterns.Groups | scripts/cleanup_vercel_deployments.py:256-257 | The two groups of any match are a URL (`https://` in any case followed by at least one more non-whitespace character, all non-whitespace) and a status word as it appears. Both are substrings of the line. |
| Patterns.ShortenUrl | scripts/cleanup_vercel_deployments.py:245-249 | Backtracking keeps the URL group's start and at least 9 characters, ends it no later than it began, and the lazy gap succeeds from where it ends. |
| Patterns.CaptureAt | scripts/cleanup_vercel_deployments.py:245-249 | A match whose URL group starts at a position is well formed: the group begins there with `https://` and a non-whitespace character. |
| Patterns.SearchFrom | scripts/cleanup_vercel_deployments.py:254 | A match found from a start position is the match at some later or equal start. |
| Patterns.Search | scripts/cleanup_vercel_deployments.py:254 | `re.search` of an unanchored pattern returns only well-formed groups. |
| Patterns.SecondFieldUrl | scripts/cleanup_vercel_deployments.py:241-243 | When the anchored prefix matches, the URL group starts where `https://` (any case) is followed by a non-whitespace character. It spans at least 9 non-whitespace characters and ends at whitespace or at the end of the line. |
| PatternSpecs.SecondFieldSpec | scripts/cleanup_vercel_deployments.py:241-243 | The URL group is found exactly when the second whitespace-separated field begins with `https://` (any case) and one more non-whitespace character. It then starts at that field and runs to the field's end. With no second field there is no match. |
| PatternSpecs.SecondFieldUnique | scripts/cleanup_vercel_deployments.py:241-243 | A line has at most one second field: the leading `\s*`, the first `\S+` and the `\s+` after it are forced. |
| PatternSpecs.SecondFieldOf | scripts/cleanup_vercel_deployments.py:241-243 | A line made of optional whitespace, a field, whitespace and a URL field ending at whitespace or the line's end gives exactly that URL field. |
| Patterns.Anchored | scripts/cleanup_vercel_deployments.py:241-243 | Patterns 1 and 2 capture only well-formed groups: a captured-shape URL and a Building/Queued word (any case). |
| PatternSpecs.AnchoredSpec | scripts/cleanup_vercel_deployments.py:241-243 | Patterns 1 and 2 match exactly at the capture where the URL group is the second-field URL. It is followed by `\s+` (pattern 2) or `\s+●\s*` (pattern 1) and a Building/Queued word. That capture is the match, there is at most one, and without a second-field URL both patterns fail. |
| PatternSpecs.StatusStart | scripts/cleanup_vercel_deployments.py:241-249 | A status word starts with a letter, never with whitespace or `●`. So the whitespace before it is always taken whole. |
| PatternSpecs.StatusAtWord | scripts/cleanup_vercel_deployments.py:241-249 | A Building/Queued word (any case) placed at a position is what the alternation takes there, with its whole length. |
| PatternCases.TypicalRow | scripts/cleanup_vercel_deployments.py:241 | A row as the CLI prints it yields `Deployment(url, status)` from pattern 1, both exactly as printed. The row is indentation, the age column, whitespace, the URL, whitespace, `●`, optional whitespace, Building/Queued and the remaining columns. |
| Patterns.Apply | scripts/cleanup_vercel_deployments.py:253-258 | A match of any pattern gives a captured-shape URL and a status word, both taken from the line. The status is Building/Queued (any case) for every pattern but the fifth. |
| Patterns.FirstMatchSpec | scripts/cleanup_vercel_deployments.py:252-261 | First match wins: the record comes from the first pattern, in list order, that matches. Nothing is found only when no pattern matches. |
| Patterns.PrimaryRow | scripts/cleanup_vercel_deployments.py:239-261 | A data row yields at most one record, with a captured-shape URL and a status word, both substrings of the row. |
| Patterns.FallbackRow | scripts/cleanup_vercel_deployments.py:284-302 | The two two-group fallback patterns yield a captured-shape URL and a full status word from the line. |
| Patterns.LeadingUrl | scripts/cleanup_vercel_deployments.py:289 | `^(https://[^\s]+)` captures a URL at the very start of the unstripped line, up to the first whitespace. It matches exactly when the line starts with `https://` (any case) followed by a non-whitespace character. |
| Patterns.WordStatusAt | scripts/cleanup_vercel_deployments.py:313-316 | Tried at one position, the whole-word search matches a Building/Queued word (any case) inside the line. |
| Patterns.WordStatus | scripts/cleanup_vercel_deployments.py:313-316 | A status the whole-word search returns is a Building/Queued word (any case) exactly as it appears in the line. |
| PatternSpecs.WordStatusAtSpec | scripts/cleanup_vercel_deployments.py:313-316 | At one position the search succeeds exactly when a whole-word status starts there, with `\b` on both sides. |
| PatternSpecs.WordStatusSpec | scripts/cleanup_vercel_deployments.py:313-316 | The search returns the text of the leftmost whole-word Building/Queued (any case), and fails exactly when the text holds none. |
| Patterns.PlainUrl | scripts/cleanup_vercel_deployments.py:339-341 | The case-sensitive URL regex of the aggressive stage returns a substring starting with lower-case `https://` followed by at least one more non-whitespace character. |
| PatternSpecs.PlainUrlSpec | scripts/cleanup_vercel_deployments.py:339-341 | The aggressive URL is taken at the leftmost case-sensitive `https://` followed by a non-whitespace character, and runs to the next whitespace or the end. The search fails exactly when there is no such start. |
| PatternFacts.LazyGapSpec | scripts/cleanup_vercel_deployments.py:245-249 | `.*?` is lazy: the status is taken at the first position from the gap's start where the tail matches. The gap fails only when the tail matches nowhere before the next newline. |
| PatternFacts.ShortenUrlSpec | scripts/cleanup_vercel_deployments.py:245-249 | `[^\s]+` is greedy with backtracking: the URL group ends at the largest end from which the rest of the pattern matches. It fails only when no end of at least 9 characters lets it. |
| PatternFacts.SearchFromSpec | scripts/cleanup_vercel_deployments.py:254 | `re.search` tries start positions left to right and returns the match at the first start that has one, or none when no start has one. |
| PatternFacts.SearchOrder | scripts/cleanup_vercel_deployments.py:286-287 | The three choices together: no earlier start matches, the URL group is the longest non-whitespace run that works, and the status comes from the first place after it where the tail matches. |
| PatternCases.BareTailCutsUrl | scripts/cleanup_vercel_deployments.py:247 | On `https://abuilding`, pattern 4 captures the URL `https://a` and the status `building`, cut out of the URL. |
| PatternCases.PrimaryRowCutsUrl | scripts/cleanup_vercel_deployments.py:239-261 | On that row patterns 1–3 fail and the header pass records the cut URL from pattern 4. |
| PatternCases.FallbackRowCutsUrl | scripts/cleanup_vercel_deployments.py:284-302 | On that line the marker pattern fails and the fallback records the same cut URL from its second pattern. |
| Parser.MatchFirst | scripts/cleanup_vercel_deployments.py:252-261 | The pattern loop with its `break` returns the first pattern's match. |
| Parser.PrimaryPass | scripts/cleanup_vercel_deployments.py:209-264 | The header-anchored loop with its flags and counter. Its records are the first-match records of its data rows, and its header flag is that of the scan. |
| Parser.FindNeighbourStatus | scripts/cleanup_vercel_deployments.py:307-320 | The neighbour loop, which skips line `i` and breaks on the first hit, computes the neighbour status. |
| Parser.FallbackLine | scripts/cleanup_vercel_deployments.py:276-323 | Each line adds at most one record in the fallback. |
| Parser.FallbackPass | scripts/cleanup_vercel_deployments.py:266-326 | The fallback loop: its counter stays 0, and its records are those of every line in order. |
| Parser.UrlLines | scripts/cleanup_vercel_deployments.py:333 | The stripped URL lines are non-blank and no more than the lines. |
| Parser.Candidates | scripts/cleanup_vercel_deployments.py:337 | The aggressive stage looks at no more than three URL lines. |
| Parser.AggressivePass | scripts/cleanup_vercel_deployments.py:333-354 | The aggressive loop appends a guess for each of the first three URL lines that the URL regex matches, but only with the opt-in flag. |
| Parser.ParseDeployments | scripts/cleanup_vercel_deployments.py:189-360 | `parse_deployments` runs the three stages under their gates and returns `ParseOutput`, which is `Parse` of the output split at newlines. |
| Parser.KindOf | scripts/cleanup_vercel_deployments.py:221-225 | A line is blank exactly when its strip is empty. It is a header candidate (`IsHeaderLine`) exactly when its stripped text is non-blank and contains Age, Deployment, Status, Environment or Duration (case-sensitive). |
| ParserFacts.FirstHeaderSpec | scripts/cleanup_vercel_deployments.py:214-225 | The header is the first line whose stripped text contains Age, Deployment, Status, Environment or Duration (case-sensitive). No line before it does. |
| ParserFacts.PrimaryRows | scripts/cleanup_vercel_deployments.py:209-236 | A header is found exactly when some stripped line names a column. The rows examined are exactly the first ten non-blank lines after the first header, keyword lines included. |
| ParserFacts.DataRowsAfterHeader | scripts/cleanup_vercel_deployments.py:214-236 | Every examined row is a non-blank line strictly after the header, and at most ten are. |
| ParserFacts.RowRecordsShape | scripts/cleanup_vercel_deployments.py:252-264 | Each examined row gives at most one record, and every record is the first-match record of some examined row. |
| ParserFacts.PrimaryBound | scripts/cleanup_vercel_deployments.py:209-264 | Without a header the first pass adds nothing; with one it adds at most ten records. |
| ParserFacts.ParseValid | scripts/cleanup_vercel_deployments.py:241-351 | Every record of `Parse` has a captured-shape URL and a status word. For the first two stages that is Building/Queued/Build/Queue (any case); for the aggressive stage it is the assumed Building or Queued. |
| ParserSources.ParseAsCaptured | scripts/cleanup_vercel_deployments.py:252-351 | Every URL and status of `Structured` (header pass and fallback) is text of one of the lines as it stands, so nothing is rewritten or case-normalised. Every record of `Aggressive` pairs the URL the case-sensitive regex finds on candidate line k with the status assumed for position k. Every record of `Parse` comes from one of the two. |
| ParserSources.NeighbourCaptured | scripts/cleanup_vercel_deployments.py:307-320 | A status the neighbour search returns is text of a window line. |
| ParserSources.UrlLinesFrom | scripts/cleanup_vercel_deployments.py:333 | Every URL line of the aggressive stage is one of the lines, stripped. |
| ParserSources.AggressiveUpToMember | scripts/cleanup_vercel_deployments.py:337-351 | The guess for candidate k is the URL the regex finds on that line, paired with the status assumed for position k. |
| ParserFacts.FallbackGating | scripts/cleanup_vercel_deployments.py:266 | `Fallback` contributes only when no header was found, and then it is all of `Structured`, the records of the first two stages. |
| ParserFacts.FallbackSkips | scripts/cleanup_vercel_deployments.py:276-283 | Lines that are blank, start with `>` or with `You can learn more` after stripping, or lack a case-sensitive `https://`, add nothing. |
| ParserFacts.FallbackNoRowCap | scripts/cleanup_vercel_deployments.py:271-275 | The fallback has no row cap: the record count is the number of lines that yield one, however many there are. |
| ParserFacts.NeighbourWindow | scripts/cleanup_vercel_deployments.py:307-320 | The search for line i takes the status of the first line, in index order among i-2, i-1, i+1 and i+2 within bounds, whose stripped text has a whole-word status. It finds none only when no such line has one. |
| ParserFacts.BareUrlLine | scripts/cleanup_vercel_deployments.py:303-323 | A line holding only a leading URL adds the URL paired with the neighbour status, and nothing when there is none. |
| ParserFacts.AggressiveGate | scripts/cleanup_vercel_deployments.py:349-354 | Without the opt-in flag `Aggressive` is empty and `Parse` is `Structured`. Otherwise it adds at most three records. |
| ParserFacts.AggressiveOnlyWhenEmpty | scripts/cleanup_vercel_deployments.py:329 | The aggressive stage runs only when the first two stages found nothing and at least three lines hold `https://`. Otherwise `Parse` is `Structured`, and when it runs `Parse` is `Aggressive`. |
| ParserFacts.AggressiveGuesses | scripts/cleanup_vercel_deployments.py:337-351 | With the flag on, and a URL on each of the first three URL lines, the guesses are Building, Queued, Queued, in line order. |
| ParserFacts.PlainUrlContains | scripts/cleanup_vercel_deployments.py:338-340 | A line on which the aggressive regex finds a URL contains `https://`, so the containment test before the regex never rejects a line the regex matches. |
| ParserFacts.HeaderBound | scripts/cleanup_vercel_deployments.py:212-236 | With a header, the parser returns at most ten records. |
| Cleanup.CleanupProject | scripts/cleanup_vercel_deployments.py:396-448 | The counts are `Outcome` of the records the script works on (`Records`). The trace is `Trace` of them: the deletions of every record but the first, spaced by pauses. For a missing or empty listing both are empty. |
| Cleanup.DeleteAllButFirst | scripts/cleanup_vercel_deployments.py:427-448 | The retention loop returns `(success, attempted)` of the outcome and records the spaced trace. |
| Cleanup.CountOkBound | scripts/cleanup_vercel_deployments.py:437-438 | Successes never exceed attempts, and equal them exactly when every attempted deletion succeeds. |
| Cleanup.OutcomeBound | scripts/cleanup_vercel_deployments.py:427-448 | In `Outcome`, `attempted` is one less than the records found (0 when none), `success <= attempted`, and they are equal exactly when every record after the first is deleted. |
| Cleanup.NothingFound | scripts/cleanup_vercel_deployments.py:408-420 | A missing or empty listing, or one whose parse finds no records, gives `Records` whose `Outcome` is (0, 0) and whose `Trace` deletes nothing. |
| Cleanup.Retention | scripts/cleanup_vercel_deployments.py:430-445 | In `Trace`, the first record is never deleted, and records 2..n are deleted in order. There are n-2 pauses for n ≥ 2, each between two deletions, none after the last. |
| Config.ProjectList | scripts/cleanup_vercel_deployments.py:52-70 | Every project name returned is non-blank, trimmed and free of commas. |
| Config.InputPrecedence | scripts/cleanup_vercel_deployments.py:55-66 | A non-blank `INPUT_PROJECTS` decides the list whatever the default, even when it names no project. Otherwise `DEFAULT_PROJECTS` is read the same way. |
| Config.ProjectListRoundTrip | scripts/cleanup_vercel_deployments.py:57 | Joining proper project names with commas and reading the result back gives the same list. |
| Config.AutoConfirmWords | scripts/cleanup_vercel_deployments.py:349 | `AutoConfirmSet` holds exactly for `1`, `yes` or `true` in any letter case, with no surrounding whitespace. |
| Config.AutoConfirmIgnoresCase | scripts/cleanup_vercel_deployments.py:349 | Two values that differ only in the case of letters set the opt-in alike. |
| Listing.Combined | scripts/cleanup_vercel_deployments.py:166-176 | The stitched output is rejected exactly when both streams are whitespace only, and an accepted output is non-blank after stripping. |
| Listing.CombinedLines | scripts/cleanup_vercel_deployments.py:166-170 | The parser sees the lines of standard output followed by those of standard error, and only standard output when standard error is empty. |
| Run.Run | scripts/cleanup_vercel_deployments.py:470-529 | `main` returns the exit status, with totals summed over the projects that did not raise. The totals are zero when it stops before the project loop. |
| Run.ProjectTallyBound | scripts/cleanup_vercel_deployments.py:497-506 | `ProjectTally`: a project contributes no more successes than attempts, and equally many exactly when it raised or every attempted deletion succeeded. |
| Run.TotalsBound | scripts/cleanup_vercel_deployments.py:493-506 | `Totals` never count more successes than attempts, and are equal exactly when every project's attempts all succeeded. |
| Run.ExitCodeMeaning | scripts/cleanup_vercel_deployments.py:524-529 | `ExitCode` is 0 or 1. It is 1 without the CLI or the token, and 0 with no project configured. Otherwise it is 1 exactly when `total_success < total_attempted`, which happens exactly when some attempted deletion failed. |

## Left out

- Running the Vercel CLI is not modelled.
  - `check_vercel_cli` becomes the `cliAvailable` field of `Run.World`.
  - The command probing of `list_deployments` (lines 77–164 and 176–186), with its timeouts and exceptions, becomes the `listing` oracle. Only the stitching of one command's output (`Listing.Combined`) is modelled.
  - `delete_deployment` becomes the `deleteOk` oracle.
- Run.World: `deleteOk` is indexed by project position and record position, not by URL, so the oracle may answer differently for two records with equal URLs.
- Logging, the verbose dumps and `traceback` are output side effects with no effect on any result, so they are left out.
- Environment reads (`os.getenv`, `sys.version`, `os.uname`, `os.getcwd`) become parameters. `VERCEL_CLEANUP_VERBOSE` only controls logging and is left out.
- `time.sleep(1)` is the ghost event `Cleanup.Sleep`; real time is not modelled.
- Exceptions: a project whose handling raises contributes nothing (`raised` in `Run.World`). Which exception, and where it arises, is not modelled.
- `sys.exit` is modelled as the returned exit status of `Run.Run`.
- Patterns.IsWordChar: `\b` in the neighbour search counts ASCII letters, digits and `_` as word characters. Python also counts every other Unicode letter and digit, so a status word directly beside a non-ASCII letter may be accepted here and rejected by Python.
- Config.AutoConfirmSet: `str.lower()` is modelled on ASCII letters only. This decides membership in `true`/`1`/`yes` exactly as Python does, because no other character lowers to one of those letters.
- Text.FoldCase: `re.IGNORECASE` folding is modelled for the letters that occur in the patterns. That covers A–Z and U+0130 and U+212A, plus the extra equivalents U+0131 for `i` and U+017F for `s`. Other Unicode case equivalences cannot affect these patterns.
