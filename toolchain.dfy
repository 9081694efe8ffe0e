/**
 * `LintToolchain.run`: the linters in a fixed order, each stage's records handed
 * on with `yield from`. The outputs of the tools are inputs here; bandit's
 * records arrive already made.
 */
module Toolchain {
  import opened Text
  import opened Annotations
  import opened LineParsers
  import opened BlackErrors
  import opened Pydocstyle
  import opened DiffScanner

  /** What each tool printed, decoded, and the records bandit produced. */
  datatype ToolOutputs = ToolOutputs(
    isortStdout: string,
    blackStdout: string,
    blackStderr: string,
    flake8Stdout: string,
    mypyStdout: string,
    pylintStdout: string,
    pydocstyleStdout: string,
    bandit: seq<Annotation>)

  /** The tools `run` drives, as they name themselves in `source`. */
  const ToolNames: set<string> := {"isort", "black", "flake8", "mypy", "pylint", "pydocstyle"}

  /** What every record of the parsers looks like. */
  predicate Normalised(a: Annotation) {
    a.level in LEVELS && a.source in ToolNames
  }

  /** A `--- ` or `@@` line of a diff that the scanner cannot take apart. */
  predicate DiffFails(stdout: string) {
    exists j :: 0 <= j < |Lines(stdout)| && Fatal(Classify(Lines(stdout)[j]))
  }

  /** A line of black's stderr that does not unpack. */
  predicate ComplaintFails(stderr: string) {
    exists j :: 0 <= j < |Lines(stderr)| && BlackErrorLine(Lines(stderr)[j]).Fail?
  }

  /** Every record from a diff scanner is normalised. */
  lemma DiffNormalised(tool: DiffTool, lines: seq<string>)
    requires tool.source in ToolNames
    ensures forall a :: a in DiffRecords(tool, lines).records ==> Normalised(a)
  {
  }

  /** `lint_isort`: the diffs isort printed; it raises exactly when one of its headers cannot be taken apart. */
  function LintIsort(out: ToolOutputs): (y: Yielded)
    ensures y.Raised? <==> DiffFails(out.isortStdout)
    ensures forall a :: a in y.records ==> Normalised(a)
  {
    DiffRecordsRaise(Isort, Lines(out.isortStdout));
    DiffNormalised(Isort, Lines(out.isortStdout));
    DiffRecords(Isort, Lines(out.isortStdout))
  }

  /**
   * `lint_black`: the complaints on black's stderr first, then the diffs on its
   * stdout; it raises exactly when either cannot be taken apart.
   */
  function LintBlack(out: ToolOutputs): (y: Yielded)
    ensures y.Raised? <==> ComplaintFails(out.blackStderr) || DiffFails(out.blackStdout)
    ensures forall a :: a in y.records ==> Normalised(a)
  {
    DiffRecordsRaise(Black, Lines(out.blackStdout));
    DiffNormalised(Black, Lines(out.blackStdout));
    BlackErrorsShaped(Lines(out.blackStderr));
    Then(LintBlackErrors(out.blackStderr), DiffRecords(Black, Lines(out.blackStdout)))
  }

  /**
   * The stages that never raise, in their order in `run`: flake8, mypy, pylint,
   * pydocstyle, bandit. Every record bandit did not make is normalised.
   */
  function Quiet(out: ToolOutputs): (r: seq<Annotation>)
    ensures forall a :: a in r ==> a in out.bandit || Normalised(a)
  {
    CollectKeeps(Lines(out.flake8Stdout), Flake8Record, Normalised);
    CollectKeeps(Lines(out.mypyStdout), MypyRecord, Normalised);
    CollectKeeps(Lines(out.pylintStdout), PylintRecord, Normalised);
    var p := PydocstyleRecords(Lines(out.pydocstyleStdout));
    assert forall a :: a in p ==> Normalised(a);
    LintFlake8(out.flake8Stdout) + LintMypy(out.mypyStdout) + LintPylint(out.pylintStdout)
      + PydocstyleRecords(Lines(out.pydocstyleStdout)) + out.bandit
  }

  /**
   * `run`: every stage in sequence; a raise in isort or black ends the run there.
   * The run raises exactly when isort's diff, black's stderr or black's diff has a
   * line the parser cannot take apart, and every record bandit did not make
   * carries a severity in `LEVELS` and the name of the tool that made it.
   */
  function Run(out: ToolOutputs): (y: Yielded)
    ensures y.Raised? <==> DiffFails(out.isortStdout) || ComplaintFails(out.blackStderr) || DiffFails(out.blackStdout)
    ensures forall a :: a in y.records ==> a in out.bandit || Normalised(a)
  {
    ThreeStagesKeep(LintIsort(out), LintBlack(out), Quiet(out), out.bandit);
    Then(LintIsort(out), Then(LintBlack(out), Finished(Quiet(out))))
  }

  /** Three stages in sequence, the last of which cannot raise, hand on their records in order when none raises. */
  lemma ThreeStages(first: Yielded, second: Yielded, rest: seq<Annotation>)
    requires Then(first, Then(second, Finished(rest))).Finished?
    ensures first.Finished? && second.Finished?
    ensures Then(first, Then(second, Finished(rest))).records == first.records + second.records + rest
  {
    assert first.records + (second.records + rest) == first.records + second.records + rest;
  }

  /** A run that does not raise hands on every stage's records, stage after stage, in the order of `run`; black's complaints come before its diffs. */
  lemma RunInOrder(out: ToolOutputs)
    requires Run(out).Finished?
    ensures Run(out).records == LintIsort(out).records + LintBlack(out).records + Quiet(out)
    ensures LintBlack(out).records == LintBlackErrors(out.blackStderr).records + DiffRecords(Black, Lines(out.blackStdout)).records
  {
    ThreeStages(LintIsort(out), LintBlack(out), Quiet(out));
  }

  /** When isort's diff raises, no other tool's record is handed on. */
  lemma IsortRaiseEndsRun(out: ToolOutputs)
    requires LintIsort(out).Raised?
    ensures Run(out) == LintIsort(out)
  {
  }

  /** When black's stderr raises, black's diff is never read and the run ends there. */
  lemma BlackErrorsRaiseEndsRun(out: ToolOutputs)
    requires LintIsort(out).Finished? && LintBlackErrors(out.blackStderr).Raised?
    ensures LintBlack(out) == LintBlackErrors(out.blackStderr)
    ensures Run(out) == Raised(LintIsort(out).records + LintBlackErrors(out.blackStderr).records)
  {
  }

  /** What holds of every record of each of three stages holds of every record of their sequence. */
  lemma ThreeStagesKeep(first: Yielded, second: Yielded, rest: seq<Annotation>, bandit: seq<Annotation>)
    requires forall a :: a in first.records ==> Normalised(a)
    requires forall a :: a in second.records ==> Normalised(a)
    requires forall a :: a in rest ==> a in bandit || Normalised(a)
    ensures forall a :: a in Then(first, Then(second, Finished(rest))).records ==> a in bandit || Normalised(a)
  {
  }
}
