/** `run`: staging, composing the message, linting it, the override question, the final
    confirmation and the commit. Every prompt answer, the linter and the backend's
    answer to `commit` are inputs; `process.exit` and the early `return` become the
    outcome. */
module Workflow {
  import opened Wrappers
  import opened Git
  import opened Lint
  import opened Message
  import opened Staging

  /** How a run ends. `NoCommit`: staging gave nothing back and `run` returned early.
      `Cancelled`: the user declined the override or the final confirmation
      (`process.exit(0)`). `Committed`: the commit was created and its hash is returned.
      `Crashed`: something threw, here the commit (`process.exit(1)`). */
  datatype Outcome = NoCommit | Cancelled | Committed(hash: string) | Crashed(error: string)

  /** The process exit status of each outcome. */
  function ExitCode(outcome: Outcome): (code: nat)
    ensures code == 1 <==> outcome.Crashed?
    ensures code == 0 <==> !outcome.Crashed?
  {
    if outcome.Crashed? then 1 else 0
  }

  /** The commit goes ahead: staging gave a status back, the lint passed or the user
      chose to commit anyway, and the final confirmation was accepted. */
  predicate CommitAllowed(stagingDone: bool, validation: Validation, proceedAnyway: bool, confirmCommit: bool)
  {
    stagingDone && (validation.Valid? || proceedAnyway) && confirmCommit
  }

  /** `run`. The staging inputs are those of `HandleStagingArea`; `commitType` and
      `subject` are the answers to the type list and the subject prompt (which asks
      again until its validator accepts); `linter` is what the external linter reports
      on a message; `proceedAnyway` and `confirmCommit` are the answers to "Commit
      anyway?" and "Proceed with commit?"; `reply` is the backend's answer to `commit`.
      `diagnostics` is the filtered linter report shown to the user, if any. */
  method Run(repo: Repo, snapshot: Option<Status>, stageAll: bool, selection: seq<Path>,
             refreshed: Option<Status>, commitType: string, subject: string,
             linter: string -> LintRun, proceedAnyway: bool, confirmCommit: bool,
             reply: CommitReply)
      returns (outcome: Outcome, diagnostics: Option<string>)
    requires snapshot.Some? ==> forall p :: p in selection ==> p in Candidates(snapshot.value)
    requires commitType in CommitTypes
    requires ValidateSubject(subject).Accept?
    modifies repo
    ensures var message := Assemble(commitType, subject);
            var stagingDone := StagingProceeds(snapshot, stageAll, selection) && refreshed.Some?;
            var validation := ValidateCommitMessage(linter(message));
            var commits := CommitAllowed(stagingDone, validation, proceedAnyway, confirmCommit);
            // commit is called at most once, only when allowed, and with the assembled message
            && repo.commitCalls == old(repo.commitCalls) + (if commits then [message] else [])
            // staging gave nothing back: return early, no lint, no commit
            && (!stagingDone ==> outcome == NoCommit && diagnostics == None)
            // a failed lint shows the filtered report; a passed one shows none
            && (stagingDone && validation.Invalid? ==> diagnostics == Some(FormatCommitlintError(validation.error)))
            && (stagingDone && validation.Valid? ==> diagnostics == None)
            // declining the override or the final confirmation cancels cleanly
            && (stagingDone && !commits ==> outcome == Cancelled)
            // the commit's answer decides between success and the fatal exit
            && (commits && reply.Created? ==> outcome == Committed(reply.hash))
            && (commits && reply.Failed? ==> outcome == Crashed(reply.error))
    ensures ExitCode(outcome) == 1 <==> |repo.commitCalls| > |old(repo.commitCalls)| && reply.Failed?
    // the staging area changes only in the staging step, by at most one add
    ensures StagingEffect(snapshot, stageAll, selection,
                          old(repo.staged), old(repo.worktree), old(repo.adds),
                          repo.staged, repo.worktree, repo.adds)
  {
    var status := HandleStagingArea(repo, snapshot, stageAll, selection, refreshed);
    if status.None? {
      return NoCommit, None;
    }
    ghost var staged, worktree, adds := repo.staged, repo.worktree, repo.adds;
    var commitMsg := Assemble(commitType, subject);
    outcome, diagnostics := Conclude(repo, commitMsg, linter, proceedAnyway, confirmCommit, reply);
    assert repo.staged == staged && repo.worktree == worktree && repo.adds == adds;
    ghost var validation := ValidateCommitMessage(linter(commitMsg));
    ghost var commits := (validation.Valid? || proceedAnyway) && confirmCommit;
    assert |repo.commitCalls| > |old(repo.commitCalls)| <==> commits;
    assert outcome.Crashed? <==> commits && reply.Failed?;
  }

  /** The part of `run` after staging: lint the message, show the filtered report when
      the lint fails, ask whether to commit anyway and whether to proceed, and commit. */
  method Conclude(repo: Repo, commitMsg: string, linter: string -> LintRun,
                  proceedAnyway: bool, confirmCommit: bool, reply: CommitReply)
      returns (outcome: Outcome, diagnostics: Option<string>)
    modifies repo
    ensures var validation := ValidateCommitMessage(linter(commitMsg));
            var commits := (validation.Valid? || proceedAnyway) && confirmCommit;
            && repo.commitCalls == old(repo.commitCalls) + (if commits then [commitMsg] else [])
            && (validation.Invalid? ==> diagnostics == Some(FormatCommitlintError(validation.error)))
            && (validation.Valid? ==> diagnostics == None)
            && (!commits ==> outcome == Cancelled)
            && (commits && reply.Created? ==> outcome == Committed(reply.hash))
            && (commits && reply.Failed? ==> outcome == Crashed(reply.error))
    ensures repo.staged == old(repo.staged) && repo.worktree == old(repo.worktree)
    ensures repo.adds == old(repo.adds)
  {
    diagnostics := None;
    var validation := ValidateCommitMessage(linter(commitMsg));
    if validation.Invalid? {
      diagnostics := Some(FormatCommitlintError(validation.error));
      if !proceedAnyway {
        return Cancelled, diagnostics;
      }
    }

    if !confirmCommit {
      return Cancelled, diagnostics;
    }

    var commitResult := repo.Commit(commitMsg, reply);
    match commitResult
    case Created(hash) =>
      outcome := Committed(hash);
    case Failed(error) =>
      outcome := Crashed(error);
  }
}

/** A linter report as the commitlint command line prints it, and what the wizard shows
    of it. */
module Report {
  import opened Text
  import opened Lint

  // A failing linter report, line by line: the input echo, one failed rule, a blank line,
  // the summary, a help line and the trailing blank line.
  const InputLine: string := "\U{29D7}   input: fix: null pointer on load"
  const RuleLine: string := "\U{2716}   scope may not be empty [scope-empty]"
  const SummaryLine: string := "\U{2716}   found 1 problems, 0 warnings"
  const HelpLine: string := "\U{24D8}   Get help: https://commitlint.js.org"
  const ReportLines: seq<string> := [InputLine, RuleLine, "", SummaryLine, HelpLine, ""]
  /** The diagnostic lines of that report. */
  const ShownLines: seq<string> := [InputLine, RuleLine, SummaryLine]

  // Facts about single lines of the report, one per lemma so each proof stays small.

  lemma HelpLineHasNoErrorMark()
    ensures ErrorMark !in HelpLine
  {
  }

  lemma HelpLineHasNoSummaryMark()
    ensures SummaryMark !in HelpLine
  {
  }

  lemma HelpLineIsTrimmed()
    ensures Trim(HelpLine) == HelpLine && HelpLine[0] != '-'
  {
    TrimStartNoOp(HelpLine);
    TrimEndNoOp(HelpLine);
  }

  /** The help line carries no marker and does not start with a dash. */
  lemma HelpLineHidden()
    ensures !IsDiagnostic(HelpLine)
  {
    HelpLineHasNoErrorMark();
    HelpLineHasNoSummaryMark();
    HelpLineIsTrimmed();
  }

  lemma InputLineIsOneLine()
    ensures '\n' !in InputLine
  {
  }

  lemma RuleLineIsOneLine()
    ensures '\n' !in RuleLine
  {
  }

  lemma SummaryLineIsOneLine()
    ensures '\n' !in SummaryLine
  {
  }

  lemma HelpLineIsOneLine()
    ensures '\n' !in HelpLine
  {
  }

  lemma InputLineShown()
    ensures IsDiagnostic(InputLine)
  {
    assert InputLine[0] == SummaryMark;
  }

  lemma RuleLineShown()
    ensures IsDiagnostic(RuleLine)
  {
    assert RuleLine[0] == ErrorMark;
  }

  lemma SummaryLineShown()
    ensures IsDiagnostic(SummaryLine)
  {
    assert SummaryLine[0] == ErrorMark;
  }

  /** The report splits back into its lines. */
  lemma ReportSplits()
    ensures Split(Join(ReportLines, '\n'), '\n') == ReportLines
  {
    InputLineIsOneLine();
    RuleLineIsOneLine();
    SummaryLineIsOneLine();
    HelpLineIsOneLine();
    SplitJoin(ReportLines, '\n');
  }

  /** The filter on a line followed by more lines. */
  lemma KeepFirst(line: string, rest: seq<string>)
    ensures KeepDiagnostics([line] + rest)
            == (if IsDiagnostic(line) then [line] else []) + KeepDiagnostics(rest)
  {
    assert ([line] + rest)[1..] == rest;
  }

  /** The tail of the report: a blank line, the summary and two lines that are not
      diagnostics leave the summary alone. */
  lemma KeepReportTail(c: string, d: string, e: string, f: string)
    requires !IsDiagnostic(c) && IsDiagnostic(d) && !IsDiagnostic(e) && !IsDiagnostic(f)
    ensures KeepDiagnostics([c, d, e, f]) == [d]
  {
    var r3: seq<string> := [f];
    var r2 := [e] + r3;
    var r1 := [d] + r2;
    assert [c] + r1 == [c, d, e, f];
    KeepFirst(f, []);
    assert [f] + [] == r3;
    assert KeepDiagnostics(r3) == [];
    KeepFirst(e, r3);
    assert KeepDiagnostics(r2) == [];
    KeepFirst(d, r2);
    assert KeepDiagnostics(r1) == [d];
    KeepFirst(c, r1);
  }

  /** In a report shaped like this one (two diagnostic lines, a blank one, a diagnostic
      one and two more that are not), the filter keeps the first, second and fourth. */
  lemma KeepReportShape(a: string, b: string, c: string, d: string, e: string, f: string)
    requires IsDiagnostic(a) && IsDiagnostic(b) && !IsDiagnostic(c)
    requires IsDiagnostic(d) && !IsDiagnostic(e) && !IsDiagnostic(f)
    ensures KeepDiagnostics([a, b, c, d, e, f]) == [a, b, d]
  {
    var r2 := [c, d, e, f];
    var r1 := [b] + r2;
    assert [a] + r1 == [a, b, c, d, e, f];
    KeepReportTail(c, d, e, f);
    KeepFirst(b, r2);
    assert KeepDiagnostics(r1) == [b, d];
    KeepFirst(a, r1);
  }

  /** Of the report's lines the filter keeps the input echo, the failed rule and the
      summary, and drops the blank lines and the help line. */
  lemma ReportLinesKept()
    ensures KeepDiagnostics(ReportLines) == ShownLines
  {
    InputLineShown();
    RuleLineShown();
    SummaryLineShown();
    HelpLineHidden();
    assert !IsDiagnostic("");
    KeepReportShape(InputLine, RuleLine, "", SummaryLine, HelpLine, "");
  }

  /** The report shown for the linter's output is its three diagnostic lines. */
  lemma ReportFiltered()
    ensures FormatCommitlintError(Join(ReportLines, '\n')) == Join(ShownLines, '\n')
  {
    ReportSplits();
    ReportLinesKept();
  }
}

/** Whole runs on concrete inputs, each against a fresh repository. */
module Scenarios {
  import opened Wrappers
  import opened Text
  import opened Git
  import opened Lint
  import opened Message
  import opened Staging
  import opened Workflow
  import opened Report

  const Subject: string := "null pointer on load"
  const Hash: string := "c0ffee"
  const CommitError: string := "index.lock exists"

  lemma SubjectIsTrimmed()
    ensures Trim(Subject) == Subject
  {
    TrimStartNoOp(Subject);
    TrimEndNoOp(Subject);
  }

  lemma SubjectIsAccepted()
    ensures ValidateSubject(Subject) == Accept
  {
    SubjectIsTrimmed();
  }

  lemma SubjectMessage()
    ensures Assemble("fix", Subject) == "fix: null pointer on load"
  {
    SubjectIsTrimmed();
  }

  /** The subject typed in these runs, as the subject prompt hands it over: accepted by
      its validator. */
  method TypeSubject() returns (subject: string)
    ensures ValidateSubject(subject) == Accept
    ensures Assemble("fix", subject) == "fix: null pointer on load"
  {
    subject := Subject;
    SubjectIsAccepted();
    SubjectMessage();
  }

  /** Nothing staged, one unstaged file, "stage all" accepted, type `fix`, a clean lint
      and the commit confirmed: the file is staged and `commit` is called exactly once,
      with "fix: null pointer on load". */
  method StageAllThenCommit() returns (staged: set<Path>, calls: seq<string>, outcome: Outcome)
    ensures staged == {"a.txt"}
    ensures calls == ["fix: null pointer on load"]
    ensures outcome == Committed(Hash) && ExitCode(outcome) == 0
  {
    var repo := new Repo({}, {"a.txt"});
    var snapshot := Status([], ["a.txt"], [FileEntry("a.txt", 'M')]);
    var after := Status(["a.txt"], [], [FileEntry("a.txt", 'M')]);
    var subject := TypeSubject();
    var diagnostics;
    outcome, diagnostics := Run(repo, Some(snapshot), true, [], Some(after), "fix", subject,
                                (m: string) => Clean, false, true, Created(Hash));
    staged, calls := repo.staged, repo.commitCalls;
  }

  /** The linter of this run, rejecting every message with the report above; what it
      shows after filtering is the three diagnostic lines. */
  method RejectingLinter() returns (linter: string -> LintRun)
    ensures forall m :: linter(m).Rejected? && linter(m).stdout.Some?
    ensures forall m :: ValidateCommitMessage(linter(m)).Invalid?
    ensures forall m :: FormatCommitlintError(ValidateCommitMessage(linter(m)).error) == Join(ShownLines, '\n')
  {
    var report := Join(ReportLines, '\n');
    assert report != [] by { assert |Join(ReportLines, '\n')| >= |ReportLines[0]|; }
    ReportFiltered();
    linter := (m: string) => Rejected(Some(report), "Command failed");
  }

  /** The lint fails and the user declines to commit anyway: the three diagnostic lines
      of the report are shown, `commit` is never called, and the process exits with
      status 0. */
  method OverrideDeclined() returns (calls: seq<string>, outcome: Outcome, shown: Option<string>)
    ensures calls == [] && outcome == Cancelled && ExitCode(outcome) == 0
    ensures shown == Some(Join(ShownLines, '\n'))
  {
    var repo := new Repo({"a.txt"}, {});
    var snapshot := Status(["a.txt"], [], [FileEntry("a.txt", ' ')]);
    var subject := TypeSubject();
    var linter := RejectingLinter();
    outcome, shown := Run(repo, Some(snapshot), false, [], Some(snapshot), "fix", subject,
                          linter, false, true, Created(Hash));
    calls := repo.commitCalls;
  }

  /** Every answer says yes and the lint passes, but the backend's commit throws: one
      commit call, no hash, and the process exits with status 1. */
  method CommitFails() returns (calls: seq<string>, outcome: Outcome)
    ensures calls == ["fix: null pointer on load"]
    ensures outcome == Crashed(CommitError) && ExitCode(outcome) == 1
  {
    var repo := new Repo({"a.txt"}, {});
    var snapshot := Status(["a.txt"], [], [FileEntry("a.txt", ' ')]);
    var subject := TypeSubject();
    var diagnostics;
    outcome, diagnostics := Run(repo, Some(snapshot), false, [], Some(snapshot), "fix", subject,
                                (m: string) => Clean, false, true, Failed(CommitError));
    calls := repo.commitCalls;
  }
}
