# git-commit-gen in Dafny

A model of the commit wizard of git-commit-gen (`index.js`). The wizard looks at the
repository's staging area and, when nothing is staged, offers to stage everything or a
chosen set of files. It then asks for a commit type and a subject, assembles
`<type>: <subject>`, has the message linted, asks whether to commit anyway when the
lint fails, asks for a final confirmation, and commits.

Modules, one per part of the program:

- `Text` (`text.dfy`): the JavaScript string operations the wizard uses. These are
  `trim`, `length` in UTF-16 code units, and `split`/`join` on one character.
- `Lint` (`lint.dfy`): the result record of `validateCommitMessage` and
  `formatCommitlintError`, the filter that keeps only the diagnostic lines of a linter
  report.
- `Message` (`message.dfy`): the commit types offered, the subject prompt's `validate`
  callback, the header `type + ": " + trim(subject)` and a parser that takes a header
  apart again.
- `Git` (`git.dfy`): the version-control backend. `Repo` is a class holding the staging
  area, the paths with unstaged changes and a log of every `add` and `commit` call.
- `Staging` (`staging.dfy`): `handleStagingArea`, as a method that changes the `Repo`.
- `Workflow` (`workflow.dfy`): `run`, as a method that changes the `Repo` and returns
  how the run ends (`Outcome`) and the exit code of each ending.
- `Report` (`workflow.dfy`): a failing linter report line by line, and what the wizard
  shows of it.
- `Scenarios` (`workflow.dfy`): three whole runs on concrete inputs.

Every answer the user gives is a parameter. So are the status snapshots git returns,
the linter's verdict on a message and the backend's answer to `commit`. A status query
that throws, or gives nothing back, is `None`.

Three details of `index.js` the model keeps:

- When files are already staged, `handleStagingArea` queries git again and returns that
  fresh status (`refreshed`), not the status it read first.
- A failed linter run carries the captured standard output, or the exception's message
  when that output is empty.
- The subject length limit counts UTF-16 code units (`message.length`).

## Model

| member | source | states |
|---|---|---|
| Text.TrimStart | index.js:146 | the leading-whitespace cut of `trim`: the result is a suffix of the input, everything cut off is whitespace, and the result does not start with whitespace |
| Text.TrimEnd | index.js:146 | the trailing-whitespace cut of `trim`: the result is a prefix of the input, everything cut off is whitespace, and the result does not end with whitespace |
| Text.Trim | index.js:146 | `trim(s)` is no longer than `s`, and neither starts nor ends with whitespace |
| Text.TrimIsTrimmedSlice | index.js:146 | `trim(s)` is a slice `s[i..j]` with only whitespace outside it, and it neither starts nor ends with whitespace |
| Text.TrimEmptyIff | index.js:146-147 | `trim(s)` is empty exactly when every character of `s` is whitespace |
| Text.TrimIdempotent | index.js:156 | trimming an already trimmed string changes nothing |
| Text.Utf16Length | index.js:150 | `length` counts UTF-16 code units: between the number of characters and twice that, and equal to it when every character is in the Basic Multilingual Plane |
| Text.Split | index.js:33 | `split('\n')` gives at least one piece, and no piece contains the separator |
| Text.Join | index.js:37 | `join('\n')` of no lines is empty; the first line comes first and, when more follow, the separator right after it; one line without the separator gives a result without it |
| Text.JoinSplit | index.js:33-37 | joining the pieces of a split gives back the original text |
| Text.SplitJoin | index.js:33-37 | splitting the join of a non-empty list of separator-free lines gives back that list |
| Lint.ValidateCommitMessage | index.js:18-29 | a message is valid exactly when the linter run succeeds; on failure the error is the captured output, or the exception's message when that output is absent or empty |
| Lint.IsDiagnostic | index.js:35 | a line made only of whitespace is never a diagnostic line |
| Lint.DashLineIsDiagnostic | index.js:35 | a line whose first character after leading whitespace is `-` is a diagnostic line |
| Lint.KeepDiagnostics | index.js:34-36 | the filter's result is a subsequence of the lines and holds only diagnostic lines |
| Lint.KeepDiagnosticsCounts | index.js:34-36 | the filter holds each diagnostic line as many times as the input does, and no other line |
| Lint.FormatCommitlintError | index.js:32-38 | the lines of the formatted report are exactly the diagnostic input lines in their order; with none the report is empty |
| Lint.FormatIdempotent | index.js:32-38 | formatting an already formatted report returns it unchanged |
| Message.CommitTypesAllowed | index.js:7-15 | every type offered by the type prompt is in the linter's type allow-list and contains no colon |
| Message.ValidateSubject | index.js:145-152 | "Message cannot be empty!" exactly when the answer is all whitespace; "Message too short!" exactly when it is not, but its trimmed form is shorter than 3 code units; accepted exactly when the trimmed form has at least 3 |
| Message.Assemble | index.js:156 | the message starts with `type + ": "`, is no longer than that prefix plus the answer, and the part after the prefix neither starts nor ends with whitespace |
| Message.ParseTypePrefix | index.js:156 | a header of a colon-free type, ": " and any rest parses back into that type and that rest |
| Message.ParseAssembled | index.js:156 | splitting `type + ": " + trim(subject)` at its first ": " gives back the type and the trimmed subject, for any type without a colon |
| Message.AcceptedHeaderRoundTrip | index.js:145-156 | for a listed type and an accepted subject, the message starts with `type + ": "`, and the rest is already trimmed, at least 3 code units long and accepted by the validator as it is |
| Message.RejectsEmptySubject | index.js:147 | the empty answer is refused as empty |
| Message.RejectsBlankSubject | index.js:146-147 | an answer of two spaces is refused as empty |
| Message.RejectsShortSubject | index.js:150 | "ab" is refused as too short |
| Message.AcceptsThreeLetterSubject | index.js:151 | "abc" is accepted |
| Message.AssembleExample | index.js:156 | type `feat` with subject "  add login  " gives "feat: add login" |
| Git.Picked | index.js:89 | `add('.')` picks every path with unstaged changes; `add(list)` picks exactly the listed paths |
| Git.Repo.Add | index.js:107 | an `add` puts the picked paths in the staging area, takes them out of the unstaged changes, and logs the call; nothing else changes |
| Git.Repo.Commit | index.js:201 | a `commit` logs exactly one call with the given message and answers with the backend's reply; the staging area is untouched |
| Staging.Candidates | index.js:93 | the checkbox offers the unstaged paths when there are any, otherwise the paths of the changed files |
| Staging.HandleStagingArea | index.js:41-121 | no status or no change: null and nothing staged. Something staged: no add, the fresh status. Stage-all: one `add('.')`. Empty pick: null, no add. Otherwise one `add` of exactly the picked files. Only offered files get staged. With a snapshot that describes the repository, the staging area ends up holding every listed change, or exactly the picked files. `StagingEffect` sums up the change to the staging area, the unstaged paths and the add log |
| Workflow.ExitCode | index.js:176-213 | exit status 1 exactly for the fatal ending, 0 for the others |
| Workflow.Run | index.js:123-215 | `commit` is called at most once, exactly when staging returned a status, the lint passed or the override was accepted, and the final confirmation was accepted, and always with `type + ": " + trim(subject)`. No status: early return, no report shown. A failed lint shows the filtered report. A declined question ends cleanly. A failing commit ends with status 1. Only the staging step changes the staging area and the unstaged paths, by at most one `add`, as `Staging.StagingEffect` spells out: stage-all empties the unstaged paths into the staging area, a pick moves exactly the picked paths |
| Workflow.Conclude | index.js:158-213 | after staging: `commit` is called once with the message exactly when the lint passed or the override was accepted and the final confirmation was accepted; a failed lint shows the filtered report; a declined question cancels; the commit's answer decides the ending; the staging area is untouched |
| Report.HelpLineHidden | index.js:34-36 | commitlint's help line is not a diagnostic line |
| Report.KeepReportShape | index.js:34-36 | in a report of two diagnostic lines, a non-diagnostic one, a diagnostic one and two more non-diagnostic ones, the filter keeps the first, second and fourth |
| Report.ReportFiltered | index.js:32-38 | for commitlint's report of one failed rule, the text shown is its input line, the failed rule and the summary, joined by line feeds |
| Scenarios.StageAllThenCommit | index.js:123-215 | nothing staged, one changed file, stage-all, type `fix`, a clean lint and a confirmation: the file is staged and `commit` is called once with "fix: null pointer on load" |
| Scenarios.OverrideDeclined | index.js:162-179 | a failed lint and a declined override: the report's input line, failed rule and summary are shown, there is no commit call, and the exit status is 0 |
| Scenarios.CommitFails | index.js:201-213 | everything accepted, but the commit throws: one commit call, no hash, exit status 1 |

## Left out

- Terminal output is not modelled: prompts, colours and log lines. That includes the
  list of changed files, the display filter on `working_dir` and the 8-character
  hash prefix. Prompt answers are parameters.
- The re-asking of the subject prompt belongs to the prompt library. `Workflow.Run`
  requires the answer it receives to be one the validator accepts. The type answer
  likewise comes from the list of commit types.
- The order of the calls in time (async/await) is not modelled. Neither is
  `process.exit` stopping the process; each exit becomes an `Outcome`.
- The real git backend is not modelled. A status snapshot is an input, not computed
  from the repository. `Repo.Mirrors` states when a snapshot describes the repository.
- `add('.')` picking up untracked files, ignore rules and the like are not modelled.
  `add('.')` stages exactly the paths the `Repo` holds as unstaged changes.
- Git.Repo.Commit: does not model what a created commit does to the staging area,
  because the model only logs commit calls.
- Staging.HandleStagingArea: does not model `git.add` throwing, which the source would
  turn into a `null` result. `add` always succeeds here.
- Absent status fields (`status.staged || []`) are not modelled. A snapshot always
  carries its three lists.
- The external linter process and its rules are not modelled: the `npx commitlint`
  command, the shell command it runs on the interpolated message, and the rule set. The
  linter is a function parameter giving a `LintRun` for each message. The type
  allow-list appears only as `Message.LintTypeEnum`. The subject-case rules are not
  modelled.
- A report whose error text is absent (`error.message` undefined) is not modelled. It
  would make `formatCommitlintError` throw inside `run`.
- Strings are sequences of Unicode scalar values. A lone surrogate cannot be
  represented.
