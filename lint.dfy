/** The adapter around the external commit-message linter: the result of one linter run
    (`validateCommitMessage`) and the filter that keeps only the diagnostic lines of its
    report (`formatCommitlintError`). */
module Lint {
  import opened Text
  import opened Wrappers

  /** What one run of the external linter process reports: a zero exit status, or a
      non-zero one with the captured standard output (absent when none was captured) and
      the exception's message. */
  datatype LintRun = Clean | Rejected(stdout: Option<string>, errorMessage: string)

  /** The `{ isValid, error }` record handed back to the workflow. */
  datatype Validation = Valid | Invalid(error: string)

  /** `validateCommitMessage`: a clean run is valid; a rejected one is invalid and carries
      the captured output, or the exception message when that output is absent or empty
      (JavaScript's `||` treats "" as false). */
  function ValidateCommitMessage(run: LintRun): (v: Validation)
    ensures v.Valid? <==> run.Clean?
    ensures run.Rejected? && run.stdout.Some? && run.stdout.value != [] ==> v.error == run.stdout.value
    ensures run.Rejected? && (run.stdout.None? || run.stdout.value == []) ==> v.error == run.errorMessage
  {
    match run
    case Clean => Valid
    case Rejected(Some(out), msg) => if out != [] then Invalid(out) else Invalid(msg)
    case Rejected(None, msg) => Invalid(msg)
  }

  /** The error marker the linter prints in front of each failed rule. */
  const ErrorMark: char := '\U{2716}'
  /** The marker the linter prints in front of its summary line. */
  const SummaryMark: char := '\U{29D7}'

  /** A line worth showing: it contains an error or summary marker, or, once trimmed, it
      starts with a dash (a bullet with details). */
  predicate IsDiagnostic(line: string)
    ensures IsDiagnostic(line) ==> !AllWhitespace(line)
  {
    TrimEmptyIff(line);
    ErrorMark in line || SummaryMark in line
    || (Trim(line) != [] && Trim(line)[0] == '-')
  }

  /** A line whose first character after leading whitespace is a dash is a diagnostic
      line, whatever follows the dash. */
  lemma DashLineIsDiagnostic(line: string, i: nat)
    requires i < |line| && line[i] == '-' && AllWhitespace(line[..i])
    ensures IsDiagnostic(line)
  {
    var t := TrimStart(line);
    assert t == line[i..];
    var r := TrimEnd(t);
    assert r != [] by {
      assert t[0] == '-';
    }
    assert Trim(line) == r && r[0] == t[0];
  }

  /** `a` is `b` with some elements removed, the rest kept in order. */
  predicate IsSubsequence<T(==)>(a: seq<T>, b: seq<T>)
  {
    if a == [] then true
    else if b == [] then false
    else if a[0] == b[0] then IsSubsequence(a[1..], b[1..])
    else IsSubsequence(a, b[1..])
  }

  /** The `filter` step: keeps the diagnostic lines, in order. The result is a
      subsequence of the input and holds only diagnostic lines. */
  function KeepDiagnostics(lines: seq<string>): (kept: seq<string>)
    ensures IsSubsequence(kept, lines)
    ensures forall k :: 0 <= k < |kept| ==> IsDiagnostic(kept[k])
  {
    if lines == [] then []
    else
      var rest := KeepDiagnostics(lines[1..]);
      assert lines == [lines[0]] + lines[1..];
      if IsDiagnostic(lines[0]) then [lines[0]] + rest else rest
  }

  /** `formatCommitlintError`: split the report into lines, keep the diagnostic ones and
      join them back with line feeds. The lines of the result are exactly the diagnostic
      lines of the report, in their order; with none the result is empty. */
  function FormatCommitlintError(error: string): (shown: string)
    ensures var kept := KeepDiagnostics(Split(error, '\n'));
            && (kept == [] ==> shown == [])
            && (kept != [] ==> Split(shown, '\n') == kept)
  {
    var pieces := Split(error, '\n');
    var kept := KeepDiagnostics(pieces);
    KeepDiagnosticsCounts(pieces);
    assert forall k :: 0 <= k < |kept| ==> '\n' !in kept[k] by {
      forall k | 0 <= k < |kept| ensures '\n' !in kept[k] {
        assert multiset(kept)[kept[k]] > 0;
      }
    }
    if kept != [] then SplitJoin(kept, '\n'); Join(kept, '\n') else Join(kept, '\n')
  }

  /** The filter drops no diagnostic line: it holds every diagnostic line as often as
      the input does, and no other line. */
  lemma {:induction false} KeepDiagnosticsCounts(lines: seq<string>)
    ensures var kept := KeepDiagnostics(lines);
            forall line :: multiset(kept)[line] == if IsDiagnostic(line) then multiset(lines)[line] else 0
  {
    if lines != [] {
      KeepDiagnosticsCounts(lines[1..]);
      assert lines == [lines[0]] + lines[1..];
    }
  }

  lemma {:induction false} KeepAllDiagnostics(lines: seq<string>)
    requires forall k :: 0 <= k < |lines| ==> IsDiagnostic(lines[k])
    ensures KeepDiagnostics(lines) == lines
  {
    if lines != [] {
      KeepAllDiagnostics(lines[1..]);
      assert [lines[0]] + lines[1..] == lines;
    }
  }

  /** Formatting an already formatted report changes nothing. */
  lemma FormatIdempotent(error: string)
    ensures FormatCommitlintError(FormatCommitlintError(error)) == FormatCommitlintError(error)
  {
    var once := FormatCommitlintError(error);
    var kept := KeepDiagnostics(Split(error, '\n'));
    if kept == [] {
      assert Split(once, '\n') == [[]];
      assert Trim([]) == [];
      assert !IsDiagnostic([]);
    } else {
      KeepAllDiagnostics(kept);
    }
  }
}
