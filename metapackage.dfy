/**
 * The metapackage manager: it builds a bundle's metapackage in a fresh
 * temporary directory, previews the change with a dry run, asks the user,
 * and installs or removes the metapackage. Each operation is specified by
 * the run it has (the value it returns or the error it raises, and its
 * effects in order), and the methods of `MetapackageManager` are proved to
 * have exactly that run.
 */
module Metapackage {
  import opened Optional
  import opened Bundles
  import opened Control
  import opened Effects

  /**
   * `CommandError(message, stderr, stdout)`, `UserAbortError(message,
   * exit_code)`, and a `KeyboardInterrupt` that no handler of this class
   * turns into either (it is not an `Exception`).
   */
  datatype MetaError =
    | CommandError(message: string, stderr: string, stdout: string)
    | UserAbortError(message: string, exitCode: int)
    | KeyboardInterrupt

  const EquivsMissing := "equivs-build not found. Please install equivs package: sudo apt install equivs"
  const NoDebBuilt := "equivs-build did not generate a .deb file"
  const BuildFailedPrefix := "Failed to build metapackage: "
  const DryRunInterruptedMessage := "Dry-run interrupted by user."
  const CancelledMessage := "Operation cancelled by user."
  const RemovalInterruptedMessage := "Removal interrupted by user."
  const RecoveryAdvice :=
    "\n\nThe bundle definition has been updated, but the system may be in an inconsistent state.\n"
    + "You may need to run 'bdapt sync <bundle>' to reinstall or 'bdapt del -f <bundle>' to clean up."
  const InstallInterruptedMessage :=
    "Installation interrupted by user.\n\nThe system may be in an inconsistent state.\n"
    + "You may need to run 'bdapt sync <bundle>' to reinstall or 'bdapt del -f <bundle>' to clean up."

  /** A failed apt command's `CommandError`, raised again as it is. */
  function Reraised(f: CmdFailure): MetaError {
    CommandError(f.message, f.stderr, f.stdout)
  }

  /** What `_build_metapackage` returns (the .deb, found in directory `dir`) or raises. */
  datatype BuildOutcome = DebReady(dir: nat) | BuildRaised(error: MetaError)

  /**
   * `_build_metapackage` when mkdtemp hands out directory `d`: the missing
   * tool is reported before any directory exists; a failed build and a
   * build without a .deb remove the directory (the latter twice: once
   * before raising and once in the handler that re-raises). An interrupt
   * of equivs-build passes both handlers and leaves the directory behind.
   */
  function BuildRun(name: string, b: Bundle, w: World, d: nat): Run<BuildOutcome> {
    if !w.equivsInstalled then Run(BuildRaised(CommandError(EquivsMissing, "", "")), [])
    else
      var start := [TempCreated(d), BuildRan(d, ControlFile(Stripped, name, b, w.now))];
      match w.build
      case Built => Run(DebReady(d), start)
      case BuildFailed(f) =>
        Run(BuildRaised(CommandError(BuildFailedPrefix + f.message, "", "")), start + [TempRemoved(d)])
      case NoDeb => Run(BuildRaised(CommandError(NoDebBuilt, "", "")), start + [TempRemoved(d), TempRemoved(d)])
      case BuildInterrupted => Run(BuildRaised(KeyboardInterrupt), start)
  }

  /** What `prepare_metapackage_install` returns (the pair, or None) or raises. */
  datatype Prepared = Proceed(dir: nat) | Skipped | Aborted(error: MetaError)

  /**
   * `prepare_metapackage_install` when mkdtemp hands out directory `d`. An
   * interrupt at the prompt is caught by neither handler, so it leaves the
   * directory behind.
   */
  function PrepareRun(name: string, b: Bundle, nonInteractive: bool, ignoreErrors: bool, w: World, d: nat): Run<Prepared> {
    var build := BuildRun(name, b, w, d);
    if build.result.BuildRaised? then Run(Aborted(build.result.error), build.events)
    else
      var dry := build.events + [DryRan(Deb(d))];
      match w.dryRun
      case DryRunFailed(f) => Run(if ignoreErrors then Skipped else Aborted(Reraised(f)), dry + [TempRemoved(d)])
      case DryRunInterrupted => Run(Aborted(UserAbortError(DryRunInterruptedMessage, 130)), dry + [TempRemoved(d)])
      case NoChanges => Run(Skipped, dry + [TempRemoved(d)])
      case Changes(summary) =>
        if nonInteractive then Run(Proceed(d), dry)
        else if Confirms(w.response) then Run(Proceed(d), dry + [Asked(summary, true)])
        else if w.response.PromptInterrupted? then Run(Aborted(KeyboardInterrupt), dry + [Asked(summary, false)])
        else Run(Aborted(UserAbortError(CancelledMessage, 1)), dry + [Asked(summary, false), TempRemoved(d)])
  }

  /** `complete_metapackage_install`: the install, then the directory's removal whatever happened. */
  function CompleteRun(dir: nat, ignoreErrors: bool, w: World): Run<Option<MetaError>> {
    var events := [Applied(Install(Deb(dir)), w.apply.ApplyOk?), TempRemoved(dir)];
    match w.apply
    case ApplyOk => Run(None, events)
    case ApplyFailed(f) =>
      Run(if ignoreErrors then None else Some(CommandError(f.message + RecoveryAdvice, f.stderr, f.stdout)), events)
    case ApplyInterrupted => Run(Some(UserAbortError(InstallInterruptedMessage, 130)), events)
  }

  /** `remove_metapackage`: `apt install bdapt-<name>-` after a dry run and, if interactive, a prompt. */
  function RemovalRun(name: string, nonInteractive: bool, ignoreErrors: bool, w: World): Run<Option<MetaError>> {
    var target := Spec(RemovalSpec(name));
    var dry := [DryRan(target)];
    match w.dryRun
    case DryRunFailed(f) => Run(if ignoreErrors then None else Some(Reraised(f)), dry)
    case DryRunInterrupted => Run(Some(UserAbortError(DryRunInterruptedMessage, 130)), dry)
    case NoChanges => Run(None, dry)
    case Changes(summary) =>
      if !nonInteractive && !Confirms(w.response) then
        var error := if w.response.PromptInterrupted? then KeyboardInterrupt else UserAbortError(CancelledMessage, 1);
        Run(Some(error), dry + [Asked(summary, false)])
      else
        var asked := if nonInteractive then [] else [Asked(summary, true)];
        var events := dry + asked + [Applied(Install(target), w.apply.ApplyOk?)];
        match w.apply
        case ApplyOk => Run(None, events)
        case ApplyFailed(f) => Run(if ignoreErrors then None else Some(Reraised(f)), events)
        case ApplyInterrupted => Run(Some(UserAbortError(RemovalInterruptedMessage, 130)), events)
  }

  /**
   * A build succeeds exactly when the tool is there and builds; it raises
   * `KeyboardInterrupt` exactly when equivs-build was interrupted. It
   * leaves its directory behind in those two cases only: when it hands out
   * the .deb, and when it was interrupted.
   */
  lemma BuildReleases(name: string, b: Bundle, w: World, d: nat, live: set<nat>)
    requires d !in live
    ensures var run := BuildRun(name, b, w, d);
      && (run.result.DebReady? <==> w.equivsInstalled && w.build.Built?)
      && (run.result == BuildRaised(KeyboardInterrupt) <==> w.equivsInstalled && w.build.BuildInterrupted?)
      && (run.result.DebReady? ==> run.result.dir == d)
      && LeftOver(live, run.events) ==
           (if run.result.DebReady? || run.result == BuildRaised(KeyboardInterrupt) then live + {d} else live)
      && !Saves(run.events) && !Applies(run.events)
  {
    var run := BuildRun(name, b, w, d);
    if w.equivsInstalled {
      var mid := [BuildRan(d, ControlFile(Stripped, name, b, w.now))];
      LeftOverBracket(live, d, mid, []);
      match w.build
      case Built =>
        assert run.events == [TempCreated(d)] + mid;
      case BuildInterrupted =>
        assert run.events == [TempCreated(d)] + mid;
      case BuildFailed(_) =>
        assert run.events == [TempCreated(d)] + mid + [TempRemoved(d)] + [];
      case NoDeb =>
        LeftOverBracket(live, d, mid, []);
        var once := [TempCreated(d)] + mid + [TempRemoved(d)] + [];
        assert run.events == once + [TempRemoved(d)];
        LeftOverConcat(live, once, [TempRemoved(d)]);
        assert LeftOver(live - {d}, [TempRemoved(d)]) == live - {d} by {
          assert [TempRemoved(d)][1..] == [];
        }
    }
  }

  /**
   * `prepare_metapackage_install` hands back the .deb exactly when the
   * build succeeded, the dry run reported changes, and the run is
   * non-interactive or the user accepted; a refusal raises
   * `UserAbortError` with exit code 1, an ignored dry-run failure returns
   * None, and `KeyboardInterrupt` comes out exactly when the build or the
   * prompt was interrupted.
   */
  lemma PrepareProceeds(name: string, b: Bundle, nonInteractive: bool, ignoreErrors: bool, w: World, d: nat)
    ensures var r := PrepareRun(name, b, nonInteractive, ignoreErrors, w, d).result;
      && (r.Proceed? <==>
           w.equivsInstalled && w.build.Built? && w.dryRun.Changes? && (nonInteractive || Confirms(w.response)))
      && (r.Proceed? ==> r.dir == d)
      && (w.equivsInstalled && w.build.Built? && w.dryRun.Changes? && !nonInteractive && w.response.Typed? && !Accepts(w.response.line) ==>
            r == Aborted(UserAbortError(CancelledMessage, 1)))
      && (r == Aborted(KeyboardInterrupt) <==>
           && w.equivsInstalled
           && (|| w.build.BuildInterrupted?
               || (w.build.Built? && w.dryRun.Changes? && !nonInteractive && w.response.PromptInterrupted?)))
      && (w.equivsInstalled && w.build.Built? && w.dryRun.DryRunFailed? && ignoreErrors ==> r == Skipped)
  {
  }

  /** The prepare ends with its directory still there: the .deb is handed back, or an interrupt escaped. */
  predicate Keeps(r: Prepared) {
    r.Proceed? || r == Aborted(KeyboardInterrupt)
  }

  /** The events of a prepare whose build succeeded: after the build, a dry run and perhaps a prompt. */
  lemma PrepareAfterBuild(name: string, b: Bundle, nonInteractive: bool, ignoreErrors: bool, w: World, d: nat)
    requires w.equivsInstalled && w.build.Built?
    ensures var run := PrepareRun(name, b, nonInteractive, ignoreErrors, w, d);
      var mid := [BuildRan(d, ControlFile(Stripped, name, b, w.now)), DryRan(Deb(d))]
        + (if w.dryRun.Changes? && !nonInteractive then [Asked(w.dryRun.summary, Confirms(w.response))] else []);
      && NoTemp(mid) && !Saves(mid) && !Applies(mid)
      && (Keeps(run.result) ==> run.events == [TempCreated(d)] + mid)
      && (!Keeps(run.result) ==> run.events == [TempCreated(d)] + mid + [TempRemoved(d)] + [])
  {
  }

  /**
   * Every way out of `prepare_metapackage_install` other than handing back
   * the .deb or an escaping `KeyboardInterrupt` removes the directory;
   * nothing is saved or installed.
   */
  lemma PrepareReleases(name: string, b: Bundle, nonInteractive: bool, ignoreErrors: bool, w: World, d: nat, live: set<nat>)
    requires d !in live
    ensures var run := PrepareRun(name, b, nonInteractive, ignoreErrors, w, d);
      && LeftOver(live, run.events) == (if Keeps(run.result) then live + {d} else live)
      && !Saves(run.events) && !Applies(run.events)
  {
    if !(w.equivsInstalled && w.build.Built?) {
      BuildReleases(name, b, w, d, live);
    } else {
      var run := PrepareRun(name, b, nonInteractive, ignoreErrors, w, d);
      var mid := [BuildRan(d, ControlFile(Stripped, name, b, w.now)), DryRan(Deb(d))]
        + (if w.dryRun.Changes? && !nonInteractive then [Asked(w.dryRun.summary, Confirms(w.response))] else []);
      PrepareAfterBuild(name, b, nonInteractive, ignoreErrors, w, d);
      LeftOverBracket(live, d, mid, []);
      var tail := if Keeps(run.result) then mid else mid + [TempRemoved(d)];
      assert run.events == [TempCreated(d)] + tail;
      assert !Saves(tail) && !Applies(tail) by {
        SavesConcat(mid, [TempRemoved(d)]);
        AppliesConcat(mid, [TempRemoved(d)]);
      }
      SavesConcat([TempCreated(d)], tail);
      AppliesConcat([TempCreated(d)], tail);
    }
  }

  /**
   * Ctrl-C at the prompt of an interactive prepare leaves the temporary
   * directory and the .deb in it behind: the interrupt escapes, and no
   * handler on its way removes the directory.
   */
  lemma PromptInterruptLeaks(name: string, b: Bundle, ignoreErrors: bool, w: World, d: nat, live: set<nat>)
    requires d !in live
    requires w.equivsInstalled && w.build.Built? && w.dryRun.Changes? && w.response.PromptInterrupted?
    ensures var run := PrepareRun(name, b, false, ignoreErrors, w, d);
      run.result == Aborted(KeyboardInterrupt) && d in LeftOver(live, run.events)
  {
    PrepareReleases(name, b, false, ignoreErrors, w, d, live);
  }

  /**
   * `complete_metapackage_install` always removes the directory; an install
   * failure is swallowed when errors are ignored and is otherwise raised
   * again with the recovery advice appended to its message and its
   * captured output kept.
   */
  lemma CompleteReleases(dir: nat, ignoreErrors: bool, w: World, live: set<nat>)
    ensures var run := CompleteRun(dir, ignoreErrors, w);
      && LeftOver(live, run.events) == live - {dir}
      && Applies(run.events) && !Saves(run.events)
      && (run.result.None? <==> w.apply.ApplyOk? || (w.apply.ApplyFailed? && ignoreErrors))
      && (w.apply.ApplyFailed? && !ignoreErrors ==>
           && run.result.value.CommandError?
           && run.result.value.message == w.apply.failure.message + RecoveryAdvice
           && run.result.value.stderr == w.apply.failure.stderr
           && run.result.value.stdout == w.apply.failure.stdout)
  {
    var run := CompleteRun(dir, ignoreErrors, w);
    assert run.events[0].Applied?;
    assert run.events[1..] == [TempRemoved(dir)];
    assert run.events[1..][1..] == [];
    assert LeftOver(live, run.events) == LeftOver(live, [TempRemoved(dir)]);
    assert LeftOver(live, [TempRemoved(dir)]) == LeftOver(live - {dir}, []);
  }

  /**
   * `remove_metapackage` asks apt to remove `bdapt-<name>` and nothing
   * else, and only when the dry run reported changes and the run is
   * non-interactive or the user accepted; it touches no temporary
   * directory and never saves. An interrupt at the prompt escapes as
   * `KeyboardInterrupt`.
   */
  lemma RemovalApplies(name: string, nonInteractive: bool, ignoreErrors: bool, w: World)
    ensures var run := RemovalRun(name, nonInteractive, ignoreErrors, w);
      && (Applies(run.events) <==> w.dryRun.Changes? && (nonInteractive || Confirms(w.response)))
      && (w.dryRun.Changes? && !nonInteractive && w.response.PromptInterrupted? ==> run.result == Some(KeyboardInterrupt))
      && (forall i :: 0 <= i < |run.events| && run.events[i].Applied? ==>
            run.events[i].call == Install(Spec(MetapackageName(name) + "-")))
      && NoTemp(run.events) && !Saves(run.events)
  {
    var run := RemovalRun(name, nonInteractive, ignoreErrors, w);
    var target := Spec(RemovalSpec(name));
    if w.dryRun.Changes? && (nonInteractive || Confirms(w.response)) {
      var asked := if nonInteractive then [] else [Asked(w.dryRun.summary, true)];
      assert run.events == [DryRan(target)] + asked + [Applied(Install(target), w.apply.ApplyOk?)];
      assert run.events[|run.events| - 1].Applied?;
    } else if w.dryRun.Changes? {
      assert run.events == [DryRan(target), Asked(w.dryRun.summary, false)];
    } else {
      assert run.events == [DryRan(target)];
    }
  }

  /** The operations of `MetapackageManager`, acting on the host `sys`. */
  class MetapackageManager {
    const sys: System

    constructor (sys: System)
      ensures this.sys == sys
    {
      this.sys := sys;
    }

    /** `_confirm_installation`: show the summary and read the answer, or pass on an interrupt. */
    method ConfirmInstallation(summary: string, w: World) returns (accepted: bool, interrupted: bool)
      modifies sys`trace
      ensures accepted == Confirms(w.response) && interrupted == w.response.PromptInterrupted?
      ensures sys.trace == old(sys.trace) + [Asked(summary, accepted)]
    {
      interrupted := w.response.PromptInterrupted?;
      accepted := !interrupted && Accepts(w.response.line);
      sys.Note(Asked(summary, accepted));
    }

    /** `_check_prerequisites` and `_build_metapackage`. */
    method Build(name: string, b: Bundle, w: World) returns (r: BuildOutcome)
      requires sys.Valid()
      modifies sys
      ensures sys.Valid() && sys.bundles == old(sys.bundles)
      ensures var run := BuildRun(name, b, w, old(sys.nextTemp));
        r == run.result && sys.trace == old(sys.trace) + run.events
      ensures r.DebReady? ==> r.dir !in old(sys.live) && sys.live == old(sys.live) + {r.dir}
      ensures r == BuildRaised(KeyboardInterrupt) ==>
        old(sys.nextTemp) !in old(sys.live) && sys.live == old(sys.live) + {old(sys.nextTemp)}
      ensures r.BuildRaised? && r.error != KeyboardInterrupt ==> sys.live == old(sys.live)
    {
      if !w.equivsInstalled {
        return BuildRaised(CommandError(EquivsMissing, "", ""));
      }
      var d := sys.MakeTemp();
      sys.Note(BuildRan(d, ControlFile(Stripped, name, b, w.now)));
      match w.build
      case Built =>
        r := DebReady(d);
      case BuildFailed(f) =>
        sys.RemoveTemp(d);
        r := BuildRaised(CommandError(BuildFailedPrefix + f.message, "", ""));
      case NoDeb =>
        sys.RemoveTemp(d);
        sys.RemoveTemp(d);
        r := BuildRaised(CommandError(NoDebBuilt, "", ""));
      case BuildInterrupted =>
        r := BuildRaised(KeyboardInterrupt);
    }

    /** `prepare_metapackage_install`. */
    method Prepare(name: string, b: Bundle, nonInteractive: bool, ignoreErrors: bool, w: World) returns (r: Prepared)
      requires sys.Valid()
      modifies sys
      ensures sys.Valid() && sys.bundles == old(sys.bundles)
      ensures var run := PrepareRun(name, b, nonInteractive, ignoreErrors, w, old(sys.nextTemp));
        r == run.result && sys.trace == old(sys.trace) + run.events
      ensures r.Proceed? ==> r.dir !in old(sys.live) && sys.live == old(sys.live) + {r.dir}
      ensures r == Aborted(KeyboardInterrupt) ==>
        old(sys.nextTemp) !in old(sys.live) && sys.live == old(sys.live) + {old(sys.nextTemp)}
      ensures !Keeps(r) ==> sys.live == old(sys.live)
    {
      ghost var t0, build := sys.trace, BuildRun(name, b, w, sys.nextTemp);
      var built := Build(name, b, w);
      if built.BuildRaised? {
        return Aborted(built.error);
      }
      var d := built.dir;
      sys.Note(DryRan(Deb(d)));
      assert sys.trace == t0 + (build.events + [DryRan(Deb(d))]);
      match w.dryRun
      case DryRunFailed(f) =>
        sys.RemoveTemp(d);
        r := if ignoreErrors then Skipped else Aborted(Reraised(f));
      case DryRunInterrupted =>
        sys.RemoveTemp(d);
        r := Aborted(UserAbortError(DryRunInterruptedMessage, 130));
      case NoChanges =>
        sys.RemoveTemp(d);
        r := Skipped;
      case Changes(summary) =>
        r := ConfirmChanges(d, summary, nonInteractive, w);
    }

    /**
     * The end of `prepare_metapackage_install` once the dry run reported
     * changes: unless the run is non-interactive, the prompt; a typed
     * refusal removes directory `d` and raises, and an interrupt passes
     * through and leaves it.
     */
    method ConfirmChanges(d: nat, summary: string, nonInteractive: bool, w: World) returns (r: Prepared)
      requires sys.Valid()
      modifies sys
      ensures sys.Valid() && sys.bundles == old(sys.bundles) && sys.nextTemp == old(sys.nextTemp)
      ensures r == if nonInteractive || Confirms(w.response) then Proceed(d)
        else if w.response.PromptInterrupted? then Aborted(KeyboardInterrupt)
        else Aborted(UserAbortError(CancelledMessage, 1))
      ensures sys.trace == old(sys.trace) + (if nonInteractive then [] else [Asked(summary, Confirms(w.response))])
        + (if Keeps(r) then [] else [TempRemoved(d)])
      ensures sys.live == if Keeps(r) then old(sys.live) else old(sys.live) - {d}
    {
      if !nonInteractive {
        var accepted, interrupted := ConfirmInstallation(summary, w);
        if interrupted {
          return Aborted(KeyboardInterrupt);
        }
        if !accepted {
          sys.RemoveTemp(d);
          return Aborted(UserAbortError(CancelledMessage, 1));
        }
      }
      r := Proceed(d);
    }

    /** `complete_metapackage_install`. */
    method Complete(dir: nat, ignoreErrors: bool, w: World) returns (r: Option<MetaError>)
      requires sys.Valid()
      modifies sys
      ensures sys.Valid() && sys.bundles == old(sys.bundles) && sys.live == old(sys.live) - {dir}
      ensures var run := CompleteRun(dir, ignoreErrors, w);
        r == run.result && sys.trace == old(sys.trace) + run.events
    {
      sys.Note(Applied(Install(Deb(dir)), w.apply.ApplyOk?));
      match w.apply {
        case ApplyOk =>
          r := None;
        case ApplyFailed(f) =>
          r := if ignoreErrors then None else Some(CommandError(f.message + RecoveryAdvice, f.stderr, f.stdout));
        case ApplyInterrupted =>
          r := Some(UserAbortError(InstallInterruptedMessage, 130));
      }
      sys.RemoveTemp(dir);
    }

    /** `remove_metapackage`. */
    method RemoveMetapackage(name: string, nonInteractive: bool, ignoreErrors: bool, w: World) returns (r: Option<MetaError>)
      modifies sys`trace
      ensures var run := RemovalRun(name, nonInteractive, ignoreErrors, w);
        r == run.result && sys.trace == old(sys.trace) + run.events
    {
      var target := Spec(RemovalSpec(name));
      sys.Note(DryRan(target));
      match w.dryRun
      case DryRunFailed(f) =>
        return if ignoreErrors then None else Some(Reraised(f));
      case DryRunInterrupted =>
        return Some(UserAbortError(DryRunInterruptedMessage, 130));
      case NoChanges =>
        return None;
      case Changes(summary) =>
        if !nonInteractive {
          var accepted, interrupted := ConfirmInstallation(summary, w);
          if interrupted {
            return Some(KeyboardInterrupt);
          }
          if !accepted {
            return Some(UserAbortError(CancelledMessage, 1));
          }
        }
        sys.Note(Applied(Install(target), w.apply.ApplyOk?));
        match w.apply
        case ApplyOk =>
          r := None;
        case ApplyFailed(f) =>
          r := if ignoreErrors then None else Some(Reraised(f));
        case ApplyInterrupted =>
          r := Some(UserAbortError(RemovalInterruptedMessage, 130));
    }
  }
}
