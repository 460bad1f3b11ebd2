/**
 * The second bundle manager (`BundleManager` of bundle_manager.py). Every
 * change to a bundle goes through `_install_metapackage`: the metapackage is
 * built, previewed with a dry run, confirmed when there is something to
 * confirm, the bundle is saved, and only then is the metapackage
 * installed. Deleting a bundle removes its metapackage first. Each
 * operation is specified by its run (how it ends and its effects in
 * order), and the methods of `BundleManager` are proved to have exactly
 * that run.
 */
module Manager {
  import opened Optional
  import opened Bundles
  import opened Validators
  import opened Edits
  import opened Control
  import opened Effects
  import Metapackage

  /**
   * How an operation ends: normally, by `typer.Exit(code)`, or by an
   * exception it lets through (`KeyNotFound` is a `KeyError`,
   * `Interrupted` a KeyboardInterrupt at the prompt).
   */
  datatype Status =
    | Completed
    | Exit(code: int)
    | Invalid(error: BundleError)
    | BuildRaised(failure: Metapackage.MetaError)
    | KeyNotFound(key: string)
    | Interrupted

  /** A KeyboardInterrupt during the metapackage build, passed on as the build raised it. */
  const BuildInterrupt := BuildRaised(Metapackage.KeyboardInterrupt)

  /** The temporary directories left after an operation that ends with `s` and whose build got directory `d`. */
  function Remaining(live: set<nat>, d: nat, s: Status): set<nat> {
    if s == BuildInterrupt then live + {d} else live
  }

  /** A step that either hands a value on or ends the operation. */
  datatype Step<T> = Next(value: T) | Stop(status: Status)

  /**
   * `_dry_run_operation`: the summary (None when apt reports nothing to
   * do, or when a failure is ignored), or exit 130 on an interrupt or a
   * failure that is not ignored.
   */
  function Preview(dryRun: DryRunResult, ignoreErrors: bool): (r: Step<Option<string>>)
    ensures r.Stop? <==> dryRun.DryRunInterrupted? || (dryRun.DryRunFailed? && !ignoreErrors)
    ensures r.Stop? ==> r.status == Exit(130)
    ensures r.Next? ==> (r.value.Some? <==> dryRun.Changes?)
    ensures r.Next? && dryRun.Changes? ==> r.value.value == dryRun.summary
  {
    match dryRun
    case Changes(summary) => Next(Some(summary))
    case NoChanges => Next(None)
    case DryRunFailed(_) => if ignoreErrors then Next(None) else Stop(Exit(130))
    case DryRunInterrupted => Stop(Exit(130))
  }

  /** `if summary and not non_interactive`: the user is asked only about a non-empty summary, and only interactively. */
  predicate Asks(summary: Option<string>, nonInteractive: bool) {
    summary.Some? && summary.value != [] && !nonInteractive
  }

  /** The dry run's outcome lets the operation go on, and to a prompt. */
  predicate Prompts(nonInteractive: bool, ignoreErrors: bool, w: World) {
    var p := Preview(w.dryRun, ignoreErrors);
    p.Next? && Asks(p.value, nonInteractive)
  }

  /** The operation gets past the preview and the prompt: the dry run's outcome lets it go on and the user did not decline. */
  predicate GoesAhead(nonInteractive: bool, ignoreErrors: bool, w: World) {
    var p := Preview(w.dryRun, ignoreErrors);
    p.Next? && (Asks(p.value, nonInteractive) ==> Confirms(w.response))
  }

  /** The install command's outcome lets the operation complete: it succeeded, or it failed and errors are ignored. */
  predicate ApplyPasses(apply: ApplyResult, ignoreErrors: bool) {
    apply.ApplyOk? || (apply.ApplyFailed? && ignoreErrors)
  }

  /** The preview, and the prompt when there is one; an interrupt at the prompt passes through. */
  function AskRun(target: Target, nonInteractive: bool, ignoreErrors: bool, w: World): Run<Step<Option<string>>> {
    var p := Preview(w.dryRun, ignoreErrors);
    if p.Stop? then Run(p, [DryRan(target)])
    else if Asks(p.value, nonInteractive) then
      var yes := Confirms(w.response);
      var refusal := if w.response.PromptInterrupted? then Interrupted else Exit(130);
      Run(if yes then p else Stop(refusal), [DryRan(target), Asked(p.value.value, yes)])
    else Run(p, [DryRan(target)])
  }

  /**
   * The preview-and-prompt goes ahead exactly as `GoesAhead` says; it asks
   * exactly when `Prompts` says, and at most once; it stops with
   * `KeyboardInterrupt` passed on exactly when the prompt was interrupted,
   * and with exit code 130 otherwise.
   */
  lemma AskRunGoesAhead(target: Target, nonInteractive: bool, ignoreErrors: bool, w: World)
    ensures var run := AskRun(target, nonInteractive, ignoreErrors, w);
      && (run.result.Next? <==> GoesAhead(nonInteractive, ignoreErrors, w))
      && ((exists i :: 0 <= i < |run.events| && run.events[i].Asked?) <==> Prompts(nonInteractive, ignoreErrors, w))
      && (run.result == Stop(Interrupted) <==> Prompts(nonInteractive, ignoreErrors, w) && w.response.PromptInterrupted?)
      && (run.result.Stop? && run.result.status != Interrupted ==> run.result.status == Exit(130))
      && 1 <= |run.events| <= 2 && run.events[0] == DryRan(target)
      && NoTemp(run.events) && !Saves(run.events) && !Applies(run.events)
  {
    var run := AskRun(target, nonInteractive, ignoreErrors, w);
    assert forall i :: 0 <= i < |run.events| ==> run.events[i].DryRan? || run.events[i].Asked?;
    if Prompts(nonInteractive, ignoreErrors, w) {
      assert run.events[1].Asked?;
    }
  }

  /**
   * `_install_metapackage` when mkdtemp hands out directory `d` and the
   * store holds `store`: the build (whose errors pass through), the
   * preview and prompt, the save of the store with the bundle put under
   * its name, the install, and the removal of the directory when the
   * context is left (an interrupt at the prompt included). An interrupted
   * build passes its `KeyboardInterrupt` on before the context is entered,
   * so nothing removes that directory.
   */
  function InstallRun(name: string, b: Bundle, nonInteractive: bool, ignoreErrors: bool, w: World, d: nat, store: Storage): Run<Status> {
    var build := Metapackage.BuildRun(name, b, w, d);
    if build.result.BuildRaised? then Run(BuildRaised(build.result.error), build.events)
    else
      var ask := AskRun(Deb(d), nonInteractive, ignoreErrors, w);
      if ask.result.Stop? then Run(ask.result.status, build.events + ask.events + [TempRemoved(d)])
      else
        var install := [Saved(store[name := b]), Applied(Install(Deb(d)), w.apply.ApplyOk?), TempRemoved(d)];
        Run(if ApplyPasses(w.apply, ignoreErrors) then Completed else Exit(130), build.events + ask.events + install)
  }

  /** The build succeeds and the preview and prompt let the install go ahead. */
  predicate InstallSaves(nonInteractive: bool, ignoreErrors: bool, w: World) {
    w.equivsInstalled && w.build.Built? && GoesAhead(nonInteractive, ignoreErrors, w)
  }

  /**
   * The install's effects: the store is saved (with the bundle under its
   * name, and nothing else) exactly when the build and the prompt let it
   * go ahead, and always before apt installs; the metapackage is installed
   * exactly then too; the directory is gone afterwards on every path but
   * an interrupted build.
   */
  lemma InstallEffects(name: string, b: Bundle, nonInteractive: bool, ignoreErrors: bool, w: World, d: nat, store: Storage, live: set<nat>)
    requires d !in live
    ensures var run := InstallRun(name, b, nonInteractive, ignoreErrors, w, d, store);
      && (Saves(run.events) <==> InstallSaves(nonInteractive, ignoreErrors, w))
      && (Applies(run.events) <==> InstallSaves(nonInteractive, ignoreErrors, w))
      && SavesOnly(run.events, store[name := b])
      && SavedBeforeApplied(run.events)
      && LeftOver(live, run.events) == Remaining(live, d, run.result)
  {
    var run := InstallRun(name, b, nonInteractive, ignoreErrors, w, d, store);
    var build := Metapackage.BuildRun(name, b, w, d);
    Metapackage.BuildReleases(name, b, w, d, live);
    if build.result.BuildRaised? {
      assert run == Run(BuildRaised(build.result.error), build.events);
    } else {
      assert run.result != BuildInterrupt;
      var ask := AskRun(Deb(d), nonInteractive, ignoreErrors, w);
      AskRunGoesAhead(Deb(d), nonInteractive, ignoreErrors, w);
      var ran := [BuildRan(d, ControlFile(Stripped, name, b, w.now))];
      var mid := ran + ask.events;
      assert NoTemp(mid);
      SavesConcat(ran, ask.events);
      AppliesConcat(ran, ask.events);
      var go := ask.result.Next?;
      var s := if go then [Saved(store[name := b]), Applied(Install(Deb(d)), w.apply.ApplyOk?)] else [];
      assert run.events == [TempCreated(d)] + mid + s + [TempRemoved(d)];
      Bracketed(live, d, mid, go, store[name := b], Install(Deb(d)), w.apply.ApplyOk?);
    }
  }

  /**
   * How `_install_metapackage` ends: it completes exactly when the store
   * was saved and the install passed; a declined prompt exits with 130
   * and an interrupted one passes the `KeyboardInterrupt` on, both before
   * anything is saved or installed; a dry run with nothing to report still
   * saves and installs; the build's `KeyboardInterrupt` comes out exactly
   * when equivs-build was interrupted.
   */
  lemma InstallOutcome(name: string, b: Bundle, nonInteractive: bool, ignoreErrors: bool, w: World, d: nat, store: Storage)
    ensures var run := InstallRun(name, b, nonInteractive, ignoreErrors, w, d, store);
      && (run.result.Completed? <==> InstallSaves(nonInteractive, ignoreErrors, w) && ApplyPasses(w.apply, ignoreErrors))
      && (InstallSaves(nonInteractive, ignoreErrors, w) && !ApplyPasses(w.apply, ignoreErrors) ==> run.result == Exit(130))
      && (w.equivsInstalled && w.build.Built? && !GoesAhead(nonInteractive, ignoreErrors, w) ==>
            run.result == if Prompts(nonInteractive, ignoreErrors, w) && w.response.PromptInterrupted? then Interrupted else Exit(130))
      && (w.equivsInstalled && w.build.Built? && w.dryRun.NoChanges? ==> InstallSaves(nonInteractive, ignoreErrors, w))
      && (!w.equivsInstalled || !w.build.Built? ==> run.result.BuildRaised?)
      && (run.result == BuildInterrupt <==> w.equivsInstalled && w.build.BuildInterrupted?)
  {
  }

  /** A declined prompt ends the install with exit code 130 and neither a save nor an install. */
  lemma InstallDeclined(name: string, b: Bundle, nonInteractive: bool, ignoreErrors: bool, w: World, d: nat, store: Storage)
    requires w.equivsInstalled && w.build.Built? && w.dryRun.Changes? && w.dryRun.summary != []
    requires !nonInteractive && w.response.Typed? && !Accepts(w.response.line)
    ensures var run := InstallRun(name, b, nonInteractive, ignoreErrors, w, d, store);
      run.result == Exit(130) && !Saves(run.events) && !Applies(run.events)
  {
    InstallEffects(name, b, nonInteractive, ignoreErrors, w, d, store, {});
  }

  /**
   * `_remove_metapackage` when the store holds `store`: the preview and
   * prompt for `bdapt-<name>-`, the removal, and then the store saved
   * without the bundle (a `KeyError` when the bundle is not there).
   */
  function RemovalRun(name: string, nonInteractive: bool, ignoreErrors: bool, w: World, store: Storage): Run<Status> {
    var target := Spec(RemovalSpec(name));
    var ask := AskRun(target, nonInteractive, ignoreErrors, w);
    if ask.result.Stop? then Run(ask.result.status, ask.events)
    else
      var applied := ask.events + [Applied(Install(target), w.apply.ApplyOk?)];
      if !ApplyPasses(w.apply, ignoreErrors) then Run(Exit(130), applied)
      else if name !in store then Run(KeyNotFound(name), applied)
      else Run(Completed, applied + [Saved(store - {name})])
  }

  /** The creation checks of `create_bundle`, in order, before the store is read. */
  function CreateChecks(name: string, packages: seq<string>): Check {
    if ValidateBundleName(name).Fail? then ValidateBundleName(name)
    else if ValidatePackageList(packages, "bundle creation").Fail? then ValidatePackageList(packages, "bundle creation")
    else ValidatePackageNames(packages)
  }

  /** The checks of `add_packages`. */
  function AddChecks(packages: seq<string>): Check {
    if ValidatePackageList(packages, "adding packages").Fail? then ValidatePackageList(packages, "adding packages")
    else ValidatePackageNames(packages)
  }

  /** The bundle `create_bundle` makes: the description, and every listed package with the empty spec. */
  function NewBundle(packages: seq<string>, description: string): Bundle {
    Bundle(description, WithEmptySpecs([], packages))
  }

  /** The install, followed on completion by the caller's own save of `after`. */
  function InstallThenSave(name: string, b: Bundle, nonInteractive: bool, ignoreErrors: bool, w: World, d: nat, store: Storage): Run<Status> {
    var install := InstallRun(name, b, nonInteractive, ignoreErrors, w, d, store);
    if install.result.Completed? then Run(Completed, install.events + [Saved(store[name := b])]) else install
  }

  /** `create_bundle`. */
  function CreateRun(name: string, packages: seq<string>, description: string, nonInteractive: bool, ignoreErrors: bool, w: World, d: nat, store: Storage): Run<Status> {
    var check := CreateChecks(name, packages);
    if check.Fail? then Run(Invalid(check.error), [])
    else if name in store then Run(Exit(1), [])
    else InstallThenSave(name, NewBundle(packages, description), nonInteractive, ignoreErrors, w, d, store)
  }

  /** The bundle after `add_packages`: every listed package set to the empty spec. */
  function Added(b: Bundle, packages: seq<string>): Bundle {
    Bundle(b.description, WithEmptySpecs(b.packages, packages))
  }

  /** `add_packages`. */
  function AddRun(name: string, packages: seq<string>, nonInteractive: bool, ignoreErrors: bool, w: World, d: nat, store: Storage): Run<Status> {
    var check := AddChecks(packages);
    if check.Fail? then Run(Invalid(check.error), [])
    else if name !in store then Run(Exit(1), [])
    else InstallThenSave(name, Added(store[name], packages), nonInteractive, ignoreErrors, w, d, store)
  }

  /** `remove_packages`. */
  function RemoveRun(name: string, packages: seq<string>, nonInteractive: bool, ignoreErrors: bool, w: World, d: nat, store: Storage): Run<Status> {
    var check := ValidatePackageList(packages, "removing packages");
    if check.Fail? then Run(Invalid(check.error), [])
    else if name !in store then Run(Exit(1), [])
    else
      var b := store[name];
      if exists p :: p in packages && p !in Names(b.packages) then Run(Exit(1), [])
      else
        var k := FirstUndeletable(b.packages, packages, 0);
        if k < |packages| then Run(KeyNotFound(packages[k]), [])
        else InstallThenSave(name, Bundle(b.description, Without(b.packages, packages)), nonInteractive, ignoreErrors, w, d, store)
  }

  /** `delete_bundle`. */
  function DeleteRun(name: string, nonInteractive: bool, ignoreErrors: bool, w: World, store: Storage): Run<Status> {
    if name !in store then Run(Exit(1), [])
    else
      var removal := RemovalRun(name, nonInteractive, ignoreErrors, w, store);
      if removal.result.Completed? then Run(Completed, removal.events + [Saved(store - {name})]) else removal
  }

  /** `sync_bundle`: the stored bundle is installed again. */
  function SyncRun(name: string, nonInteractive: bool, ignoreErrors: bool, w: World, d: nat, store: Storage): Run<Status> {
    if name !in store then Run(Exit(1), [])
    else InstallRun(name, store[name], nonInteractive, ignoreErrors, w, d, store)
  }
  /**
   * The install followed by the caller's save: the same store is written
   * by both saves, the caller's save only after a completed install, and
   * the temporary directory is gone on every path but an interrupted build.
   */
  lemma InstallThenSaveEffects(name: string, b: Bundle, nonInteractive: bool, ignoreErrors: bool, w: World, d: nat, store: Storage, live: set<nat>)
    requires d !in live
    ensures var run := InstallThenSave(name, b, nonInteractive, ignoreErrors, w, d, store);
      && (run.result.Completed? <==> InstallSaves(nonInteractive, ignoreErrors, w) && ApplyPasses(w.apply, ignoreErrors))
      && (Saves(run.events) <==> InstallSaves(nonInteractive, ignoreErrors, w))
      && (Applies(run.events) <==> InstallSaves(nonInteractive, ignoreErrors, w))
      && SavesOnly(run.events, store[name := b])
      && SavedBeforeApplied(run.events)
      && LeftOver(live, run.events) == Remaining(live, d, run.result)
  {
    var install := InstallRun(name, b, nonInteractive, ignoreErrors, w, d, store);
    InstallEffects(name, b, nonInteractive, ignoreErrors, w, d, store, live);
    InstallOutcome(name, b, nonInteractive, ignoreErrors, w, d, store);
    if install.result.Completed? {
      var last := [Saved(store[name := b])];
      assert last[0].Saved?;
      SavesConcat(install.events, last);
      AppliesConcat(install.events, last);
      SavesOnlyConcat(install.events, last, store[name := b]);
      OrderConcat(install.events, last);
      LeftOverConcat(live, install.events, last);
      assert NoTemp(last);
      LeftOverNoTemp(live, last);
    }
  }
  /** The part of `InstallThenSaveEffects` the state-changing operations need: when the store is written. */
  lemma InstallThenSaveSaves(name: string, b: Bundle, nonInteractive: bool, ignoreErrors: bool, w: World, d: nat, store: Storage)
    ensures Saves(InstallThenSave(name, b, nonInteractive, ignoreErrors, w, d, store).events) <==> InstallSaves(nonInteractive, ignoreErrors, w)
  {
    InstallThenSaveEffects(name, b, nonInteractive, ignoreErrors, w, d, store, {});
  }


  /** The new bundle has the given description, exactly the listed packages, each with the empty spec. */
  lemma NewBundleContents(packages: seq<string>, description: string)
    ensures var b := NewBundle(packages, description);
      && b.description == description
      && (forall p :: p in Names(b.packages) <==> p in packages)
      && (forall p :: p in packages ==> Get(b.packages, p) == Some(EmptySpec))
  {
    assert Names([]) == [];
  }

  /**
   * `create_bundle`: invalid input is refused and an existing name exits
   * with 1, both before anything happens; otherwise the store gains the
   * new bundle (saved before apt installs anything), and the operation
   * completes exactly when the install does.
   */
  lemma CreateEffects(name: string, packages: seq<string>, description: string, nonInteractive: bool, ignoreErrors: bool, w: World, d: nat, store: Storage, live: set<nat>)
    requires d !in live
    ensures var run := CreateRun(name, packages, description, nonInteractive, ignoreErrors, w, d, store);
      && (CreateChecks(name, packages).Fail? ==> run == Run(Invalid(CreateChecks(name, packages).error), []))
      && (CreateChecks(name, packages).Pass? && name in store ==> run == Run(Exit(1), []))
      && (run.result.Completed? <==>
            CreateChecks(name, packages).Pass? && name !in store
            && InstallSaves(nonInteractive, ignoreErrors, w) && ApplyPasses(w.apply, ignoreErrors))
      && (Saves(run.events) <==> CreateChecks(name, packages).Pass? && name !in store && InstallSaves(nonInteractive, ignoreErrors, w))
      && SavesOnly(run.events, store[name := NewBundle(packages, description)])
      && SavedBeforeApplied(run.events)
      && LeftOver(live, run.events) == Remaining(live, d, run.result)
  {
    InstallThenSaveEffects(name, NewBundle(packages, description), nonInteractive, ignoreErrors, w, d, store, live);
  }

  /** The bundle after `add_packages`: listed packages get the empty spec (losing any version), the others stay as they were. */
  lemma AddedContents(b: Bundle, packages: seq<string>, k: string)
    ensures var a := Added(b, packages);
      && a.description == b.description
      && (k in Names(a.packages) <==> k in Names(b.packages) || k in packages)
      && Get(a.packages, k) == if k in packages then Some(EmptySpec) else Get(b.packages, k)
  {
  }

  /**
   * `add_packages`: invalid input is refused and a missing bundle exits
   * with 1 before anything happens; otherwise the store gets the bundle
   * with the packages added, saved before apt installs.
   */
  lemma AddEffects(name: string, packages: seq<string>, nonInteractive: bool, ignoreErrors: bool, w: World, d: nat, store: Storage, live: set<nat>)
    requires d !in live
    ensures var run := AddRun(name, packages, nonInteractive, ignoreErrors, w, d, store);
      && (AddChecks(packages).Fail? ==> run == Run(Invalid(AddChecks(packages).error), []))
      && (AddChecks(packages).Pass? && name !in store ==> run == Run(Exit(1), []))
      && (name in store ==> SavesOnly(run.events, store[name := Added(store[name], packages)]))
      && (run.result.Completed? <==>
            AddChecks(packages).Pass? && name in store
            && InstallSaves(nonInteractive, ignoreErrors, w) && ApplyPasses(w.apply, ignoreErrors))
      && (Saves(run.events) <==> AddChecks(packages).Pass? && name in store && InstallSaves(nonInteractive, ignoreErrors, w))
      && SavedBeforeApplied(run.events)
      && LeftOver(live, run.events) == Remaining(live, d, run.result)
  {
    if name in store {
      InstallThenSaveEffects(name, Added(store[name], packages), nonInteractive, ignoreErrors, w, d, store, live);
    }
  }

  /**
   * How `remove_packages` ends: an empty list is refused, and a missing
   * bundle or a listed package the bundle lacks exits with 1, before
   * anything happens; a package listed twice passes that check and then
   * raises `KeyError` on its second deletion, still before anything
   * happens; it completes only for a stored bundle holding every listed
   * package, each listed once.
   */
  lemma RemoveOutcome(name: string, packages: seq<string>, nonInteractive: bool, ignoreErrors: bool, w: World, d: nat, store: Storage)
    ensures var run := RemoveRun(name, packages, nonInteractive, ignoreErrors, w, d, store);
      && (packages == [] ==> run == Run(Invalid(NoPackages("removing packages")), []))
      && (packages != [] && name !in store ==> run == Run(Exit(1), []))
      && (packages != [] && name in store && (exists p :: p in packages && p !in Names(store[name].packages)) ==>
            run == Run(Exit(1), []))
      && (run.result.KeyNotFound? ==>
            run.events == [] && exists i, j :: 0 <= i < j < |packages| && packages[i] == packages[j] == run.result.key)
      && (run.result.Completed? ==>
            && name in store && (forall p :: p in packages ==> p in Names(store[name].packages))
            && (forall i, j :: 0 <= i < j < |packages| ==> packages[i] != packages[j]))
  {
    if packages != [] && name in store {
      var b := store[name];
      var k := FirstUndeletable(b.packages, packages, 0);
      if !(exists p :: p in packages && p !in Names(b.packages)) && k < |packages| {
        assert packages[k] in packages[..k];
        var i :| 0 <= i < k && packages[..k][i] == packages[k];
        assert packages[i] == packages[k];
      }
      if !(exists p :: p in packages && p !in Names(b.packages)) && k == |packages| {
        forall i, j | 0 <= i < j < |packages| ensures packages[i] != packages[j] {
          assert packages[i] == packages[..j][i];
        }
      }
    }
  }

  /**
   * `remove_packages` goes through: it completes exactly when the list is
   * non-empty, the bundle is stored and holds every listed package, each
   * listed once, and the install goes ahead and passes.
   */
  lemma RemoveCompletes(name: string, packages: seq<string>, nonInteractive: bool, ignoreErrors: bool, w: World, d: nat, store: Storage)
    ensures var run := RemoveRun(name, packages, nonInteractive, ignoreErrors, w, d, store);
      run.result.Completed? <==>
        && packages != [] && name in store && DeletableOnce(store[name].packages, packages)
        && InstallSaves(nonInteractive, ignoreErrors, w) && ApplyPasses(w.apply, ignoreErrors)
  {
    if packages != [] && name in store {
      var b := store[name];
      DeletableOnceFirst(b.packages, packages);
      InstallThenSaveEffects(name, Bundle(b.description, Without(b.packages, packages)), nonInteractive, ignoreErrors, w, d, store, {});
    }
  }

  /**
   * The effects of `remove_packages`: the store is saved exactly when the
   * input is valid and the install goes ahead, and only ever with the bundle
   * without exactly the listed packages, saved before apt installs the new
   * metapackage, and no temporary directory is left behind unless the
   * build was interrupted.
   */
  lemma RemoveEffects(name: string, packages: seq<string>, nonInteractive: bool, ignoreErrors: bool, w: World, d: nat, store: Storage, live: set<nat>)
    requires d !in live
    ensures var run := RemoveRun(name, packages, nonInteractive, ignoreErrors, w, d, store);
      && (name in store ==>
            SavesOnly(run.events, store[name := Bundle(store[name].description, Without(store[name].packages, packages))]))
      && (Saves(run.events) <==>
            && packages != [] && name in store && DeletableOnce(store[name].packages, packages)
            && InstallSaves(nonInteractive, ignoreErrors, w))
      && SavedBeforeApplied(run.events)
      && LeftOver(live, run.events) == Remaining(live, d, run.result)
  {
    if packages != [] && name in store {
      var b := store[name];
      DeletableOnceFirst(b.packages, packages);
      InstallThenSaveEffects(name, Bundle(b.description, Without(b.packages, packages)), nonInteractive, ignoreErrors, w, d, store, live);
    }
  }

  /**
   * How `_remove_metapackage` ends: it completes exactly when the bundle
   * is stored, the preview and prompt let it go ahead and the removal
   * then succeeded or had its failure ignored; with all of that but no
   * stored bundle, the deletion from the store raises `KeyError`.
   */
  lemma RemovalOutcome(name: string, nonInteractive: bool, ignoreErrors: bool, w: World, store: Storage)
    ensures var run := RemovalRun(name, nonInteractive, ignoreErrors, w, store);
      && (run.result.Completed? <==> name in store && GoesAhead(nonInteractive, ignoreErrors, w) && ApplyPasses(w.apply, ignoreErrors))
      && (run.result.KeyNotFound? <==> name !in store && GoesAhead(nonInteractive, ignoreErrors, w) && ApplyPasses(w.apply, ignoreErrors))
  {
    AskRunGoesAhead(Spec(RemovalSpec(name)), nonInteractive, ignoreErrors, w);
  }

  /**
   * The effects of `_remove_metapackage`: apt is asked to remove
   * `bdapt-<name>` (and nothing else) exactly when the preview and prompt
   * let it go ahead; the store is saved, without the bundle, exactly when
   * the operation completes.
   */
  lemma RemovalEffects(name: string, nonInteractive: bool, ignoreErrors: bool, w: World, store: Storage)
    ensures var run := RemovalRun(name, nonInteractive, ignoreErrors, w, store);
      && (Saves(run.events) <==> run.result.Completed?)
      && (Applies(run.events) <==> GoesAhead(nonInteractive, ignoreErrors, w))
      && SavesOnly(run.events, store - {name})
      && (forall i :: 0 <= i < |run.events| && run.events[i].Applied? ==>
            run.events[i].call == Install(Spec(MetapackageName(name) + "-")))
      && NoTemp(run.events)
  {
    var run := RemovalRun(name, nonInteractive, ignoreErrors, w, store);
    var target := Spec(RemovalSpec(name));
    var ask := AskRun(target, nonInteractive, ignoreErrors, w);
    AskRunGoesAhead(target, nonInteractive, ignoreErrors, w);
    assert forall i :: 0 <= i < |ask.events| ==> ask.events[i].DryRan? || ask.events[i].Asked?;
    if GoesAhead(nonInteractive, ignoreErrors, w) {
      var save := ApplyPasses(w.apply, ignoreErrors) && name in store;
      assert run.events == ask.events + [Applied(Install(target), w.apply.ApplyOk?)] + (if save then [Saved(store - {name})] else []);
      AskThenApply(ask.events, Install(target), w.apply.ApplyOk?, save, store - {name});
    }
  }

  /**
   * `delete_bundle`: a missing bundle exits with 1 before anything
   * happens; otherwise apt is asked to remove `bdapt-<name>` (and nothing
   * else), and the bundle leaves the store (and nothing else changes in
   * it) exactly when the operation completes: after the removal went
   * ahead and succeeded or had its failure ignored.
   */
  lemma DeleteEffects(name: string, nonInteractive: bool, ignoreErrors: bool, w: World, store: Storage, live: set<nat>)
    ensures var run := DeleteRun(name, nonInteractive, ignoreErrors, w, store);
      && (name !in store ==> run == Run(Exit(1), []))
      && (run.result.Completed? <==> name in store && GoesAhead(nonInteractive, ignoreErrors, w) && ApplyPasses(w.apply, ignoreErrors))
      && (Saves(run.events) <==> run.result.Completed?)
      && (Applies(run.events) <==> name in store && GoesAhead(nonInteractive, ignoreErrors, w))
      && SavesOnly(run.events, store - {name})
      && (forall i :: 0 <= i < |run.events| && run.events[i].Applied? ==>
            run.events[i].call == Install(Spec(MetapackageName(name) + "-")))
      && LeftOver(live, run.events) == live
  {
    var run := DeleteRun(name, nonInteractive, ignoreErrors, w, store);
    if name in store {
      var removal := RemovalRun(name, nonInteractive, ignoreErrors, w, store);
      RemovalEffects(name, nonInteractive, ignoreErrors, w, store);
      if removal.result.Completed? {
        var last := [Saved(store - {name})];
        assert last[0].Saved?;
        assert run.events == removal.events + last;
        SavesConcat(removal.events, last);
        AppliesConcat(removal.events, last);
        SavesOnlyConcat(removal.events, last, store - {name});
      }
      assert NoTemp(run.events);
      LeftOverNoTemp(live, run.events);
    }
  }

  /** `sync_bundle`: a missing bundle exits with 1; otherwise the store is saved with the same content it had. */
  lemma SyncEffects(name: string, nonInteractive: bool, ignoreErrors: bool, w: World, d: nat, store: Storage, live: set<nat>)
    requires d !in live
    ensures var run := SyncRun(name, nonInteractive, ignoreErrors, w, d, store);
      && (name !in store ==> run == Run(Exit(1), []))
      && SavesOnly(run.events, store)
      && (run.result.Completed? <==> name in store && InstallSaves(nonInteractive, ignoreErrors, w) && ApplyPasses(w.apply, ignoreErrors))
      && SavedBeforeApplied(run.events)
      && LeftOver(live, run.events) == Remaining(live, d, run.result)
  {
    if name in store {
      InstallEffects(name, store[name], nonInteractive, ignoreErrors, w, d, store, live);
      InstallOutcome(name, store[name], nonInteractive, ignoreErrors, w, d, store);
      assert store[name := store[name]] == store;
    }
  }
  /**
   * `BundleManager`: `sys` is the host with its bundle store and apt, and
   * `meta` builds metapackages on the same host, standing for the
   * `MetapackageContext` the source enters.
   */
  class BundleManager {
    const sys: System
    const meta: Metapackage.MetapackageManager

    constructor (sys: System)
      ensures this.sys == sys && meta.sys == sys
    {
      this.sys := sys;
      meta := new Metapackage.MetapackageManager(sys);
    }

    /** `_dry_run_operation`. */
    method DryRunOperation(target: Target, ignoreErrors: bool, w: World) returns (r: Step<Option<string>>)
      modifies sys`trace
      ensures r == Preview(w.dryRun, ignoreErrors)
      ensures sys.trace == old(sys.trace) + [DryRan(target)]
    {
      sys.Note(DryRan(target));
      match w.dryRun {
        case Changes(summary) =>
          r := Next(Some(summary));
        case NoChanges =>
          r := Next(None);
        case DryRunInterrupted =>
          r := Stop(Exit(130));
        case DryRunFailed(_) =>
          if ignoreErrors {
            r := Next(None);
          } else {
            r := Stop(Exit(130));
          }
      }
    }

    /** `_confirm_operation`: None when the user accepts, the interrupt when there is one, exit 130 otherwise. */
    method ConfirmOperation(summary: string, w: World) returns (stop: Option<Status>)
      modifies sys`trace
      ensures stop == if Confirms(w.response) then None
        else if w.response.PromptInterrupted? then Some(Interrupted) else Some(Exit(130))
      ensures sys.trace == old(sys.trace) + [Asked(summary, Confirms(w.response))]
    {
      if w.response.PromptInterrupted? {
        sys.Note(Asked(summary, false));
        return Some(Interrupted);
      }
      var accepted := Accepts(w.response.line);
      sys.Note(Asked(summary, accepted));
      if !accepted {
        return Some(Exit(130));
      }
      stop := None;
    }

    /** The dry run and, when there is a non-empty summary and the run is interactive, the prompt. */
    method PreviewAndConfirm(target: Target, nonInteractive: bool, ignoreErrors: bool, w: World) returns (r: Step<Option<string>>)
      modifies sys`trace
      ensures var run := AskRun(target, nonInteractive, ignoreErrors, w);
        r == run.result && sys.trace == old(sys.trace) + run.events
    {
      r := DryRunOperation(target, ignoreErrors, w);
      if r.Next? && r.value.Some? && r.value.value != [] && !nonInteractive {
        var stop := ConfirmOperation(r.value.value, w);
        if stop.Some? {
          r := Stop(stop.value);
        }
      }
    }

    /** `_install_metapackage`. */
    method InstallMetapackage(name: string, b: Bundle, nonInteractive: bool, ignoreErrors: bool, w: World) returns (r: Status)
      requires sys.Valid() && meta.sys == sys
      modifies sys
      ensures sys.Valid() && sys.live == Remaining(old(sys.live), old(sys.nextTemp), r)
      ensures var run := InstallRun(name, b, nonInteractive, ignoreErrors, w, old(sys.nextTemp), old(sys.bundles));
        r == run.result && sys.trace == old(sys.trace) + run.events
      ensures sys.bundles == if InstallSaves(nonInteractive, ignoreErrors, w) then old(sys.bundles)[name := b] else old(sys.bundles)
    {
      ghost var t0, d := sys.trace, sys.nextTemp;
      ghost var build := Metapackage.BuildRun(name, b, w, d);
      var built := meta.Build(name, b, w);
      if built.BuildRaised? {
        return BuildRaised(built.error);
      }
      var deb := built.dir;
      ghost var ask := AskRun(Deb(deb), nonInteractive, ignoreErrors, w);
      var summary := PreviewAndConfirm(Deb(deb), nonInteractive, ignoreErrors, w);
      AskRunGoesAhead(Deb(deb), nonInteractive, ignoreErrors, w);
      assert sys.trace == t0 + build.events + ask.events;
      if summary.Stop? {
        sys.RemoveTemp(deb);
        assert sys.trace == t0 + (build.events + ask.events + [TempRemoved(d)]);
        return summary.status;
      }
      r := SaveAndInstall(name, b, deb, ignoreErrors, w);
      ghost var install := [Saved(old(sys.bundles)[name := b]), Applied(Install(Deb(d)), w.apply.ApplyOk?), TempRemoved(d)];
      sys.RemoveTemp(deb);
      assert sys.trace == t0 + (build.events + ask.events + install);
    }

    /**
     * The end of `_install_metapackage`, inside the directory's context:
     * the bundle is put into the store and saved, then apt installs the
     * package; an interrupt, or a failure that is not ignored, exits with 130.
     */
    method SaveAndInstall(name: string, b: Bundle, deb: nat, ignoreErrors: bool, w: World) returns (r: Status)
      modifies sys
      ensures sys.nextTemp == old(sys.nextTemp) && sys.live == old(sys.live)
      ensures sys.bundles == old(sys.bundles)[name := b]
      ensures sys.trace == old(sys.trace) + [Saved(old(sys.bundles)[name := b]), Applied(Install(Deb(deb)), w.apply.ApplyOk?)]
      ensures r == if ApplyPasses(w.apply, ignoreErrors) then Completed else Exit(130)
    {
      var storage := sys.Load();
      storage := storage[name := b];
      sys.Save(storage);
      sys.Note(Applied(Install(Deb(deb)), w.apply.ApplyOk?));
      match w.apply {
        case ApplyOk =>
          r := Completed;
        case ApplyInterrupted =>
          r := Exit(130);
        case ApplyFailed(_) =>
          r := if ignoreErrors then Completed else Exit(130);
      }
    }

    /** `_remove_metapackage`. */
    method RemoveMetapackage(name: string, nonInteractive: bool, ignoreErrors: bool, w: World) returns (r: Status)
      modifies sys
      ensures sys.live == old(sys.live) && sys.nextTemp == old(sys.nextTemp)
      ensures var run := RemovalRun(name, nonInteractive, ignoreErrors, w, old(sys.bundles));
        r == run.result && sys.trace == old(sys.trace) + run.events
      ensures sys.bundles == if r.Completed? then old(sys.bundles) - {name} else old(sys.bundles)
    {
      var target := Spec(RemovalSpec(name));
      var summary := PreviewAndConfirm(target, nonInteractive, ignoreErrors, w);
      if summary.Stop? {
        return summary.status;
      }
      sys.Note(Applied(Install(target), w.apply.ApplyOk?));
      if w.apply.ApplyInterrupted? || (w.apply.ApplyFailed? && !ignoreErrors) {
        return Exit(130);
      }
      var storage := sys.Load();
      if name !in storage {
        return KeyNotFound(name);
      }
      storage := storage - {name};
      sys.Save(storage);
      r := Completed;
    }

    /**
     * The tail `create_bundle`, `add_packages` and `remove_packages` share:
     * `_install_metapackage`, then `storage` (loaded before it) saved with
     * the bundle under its name when the install returns.
     */
    method InstallAndSave(name: string, b: Bundle, storage: Storage, nonInteractive: bool, ignoreErrors: bool, w: World)
      returns (r: Status)
      requires sys.Valid() && meta.sys == sys && storage == sys.bundles
      modifies sys
      ensures sys.Valid() && sys.live == Remaining(old(sys.live), old(sys.nextTemp), r)
      ensures var run := InstallThenSave(name, b, nonInteractive, ignoreErrors, w, old(sys.nextTemp), old(sys.bundles));
        && r == run.result && sys.trace == old(sys.trace) + run.events
        && sys.bundles == if Saves(run.events) then old(sys.bundles)[name := b] else old(sys.bundles)
    {
      ghost var d := sys.nextTemp;
      InstallThenSaveSaves(name, b, nonInteractive, ignoreErrors, w, d, storage);
      r := InstallMetapackage(name, b, nonInteractive, ignoreErrors, w);
      if r.Completed? {
        sys.Save(storage[name := b]);
      }
    }

    /** `create_bundle`. */
    method Create(name: string, packages: seq<string>, description: string, nonInteractive: bool, ignoreErrors: bool, w: World)
      returns (r: Status)
      requires sys.Valid() && meta.sys == sys
      modifies sys
      ensures sys.Valid() && sys.live == Remaining(old(sys.live), old(sys.nextTemp), r)
      ensures var run := CreateRun(name, packages, description, nonInteractive, ignoreErrors, w, old(sys.nextTemp), old(sys.bundles));
        && r == run.result && sys.trace == old(sys.trace) + run.events
        && sys.bundles == if Saves(run.events) then old(sys.bundles)[name := NewBundle(packages, description)] else old(sys.bundles)
    {
      var check := CreateChecks(name, packages);
      if check.Fail? {
        return Invalid(check.error);
      }
      var storage := sys.Load();
      if name in storage {
        return Exit(1);
      }
      var specs := SetEmptySpecs([], packages);
      r := InstallAndSave(name, Bundle(description, specs), storage, nonInteractive, ignoreErrors, w);
    }

    /** `add_packages`. */
    method Add(name: string, packages: seq<string>, nonInteractive: bool, ignoreErrors: bool, w: World) returns (r: Status)
      requires sys.Valid() && meta.sys == sys
      modifies sys
      ensures sys.Valid() && sys.live == Remaining(old(sys.live), old(sys.nextTemp), r)
      ensures var run := AddRun(name, packages, nonInteractive, ignoreErrors, w, old(sys.nextTemp), old(sys.bundles));
        && r == run.result && sys.trace == old(sys.trace) + run.events
        && sys.bundles == if Saves(run.events) then old(sys.bundles)[name := Added(old(sys.bundles)[name], packages)] else old(sys.bundles)
    {
      var check := AddChecks(packages);
      if check.Fail? {
        return Invalid(check.error);
      }
      var storage := sys.Load();
      if name !in storage {
        return Exit(1);
      }
      var bundle := storage[name];
      var specs := SetEmptySpecs(bundle.packages, packages);
      r := InstallAndSave(name, Bundle(bundle.description, specs), storage, nonInteractive, ignoreErrors, w);
    }

    /** `remove_packages`: every listed package is checked first, then all are deleted. */
    method Remove(name: string, packages: seq<string>, nonInteractive: bool, ignoreErrors: bool, w: World) returns (r: Status)
      requires sys.Valid() && meta.sys == sys
      modifies sys
      ensures sys.Valid() && sys.live == Remaining(old(sys.live), old(sys.nextTemp), r)
      ensures var run := RemoveRun(name, packages, nonInteractive, ignoreErrors, w, old(sys.nextTemp), old(sys.bundles));
        && r == run.result && sys.trace == old(sys.trace) + run.events
        && sys.bundles == if Saves(run.events) then
             var b := old(sys.bundles)[name];
             old(sys.bundles)[name := Bundle(b.description, Without(b.packages, packages))]
           else old(sys.bundles)
    {
      var check := ValidatePackageList(packages, "removing packages");
      if check.Fail? {
        return Invalid(check.error);
      }
      var storage := sys.Load();
      if name !in storage {
        return Exit(1);
      }
      var bundle := storage[name];
      var i := 0;
      while i < |packages|
        invariant 0 <= i <= |packages|
        invariant forall j :: 0 <= j < i ==> packages[j] in Names(bundle.packages)
      {
        if packages[i] !in Names(bundle.packages) {
          return Exit(1);
        }
        i := i + 1;
      }
      var deletion := DeleteAll(bundle.packages, packages);
      DeletableOnceFirst(bundle.packages, packages);
      if deletion.KeyError? {
        return KeyNotFound(deletion.key);
      }
      r := InstallAndSave(name, Bundle(bundle.description, deletion.packages), storage, nonInteractive, ignoreErrors, w);
    }

    /** `delete_bundle`. */
    method Delete(name: string, nonInteractive: bool, ignoreErrors: bool, w: World) returns (r: Status)
      modifies sys
      ensures sys.live == old(sys.live) && sys.nextTemp == old(sys.nextTemp)
      ensures var run := DeleteRun(name, nonInteractive, ignoreErrors, w, old(sys.bundles));
        r == run.result && sys.trace == old(sys.trace) + run.events
      ensures sys.bundles == if r.Completed? then old(sys.bundles) - {name} else old(sys.bundles)
    {
      var storage := sys.Load();
      if name !in storage {
        return Exit(1);
      }
      r := RemoveMetapackage(name, nonInteractive, ignoreErrors, w);
      if r.Completed? {
        storage := storage - {name};
        sys.Save(storage);
      }
    }

    /** `sync_bundle`: whatever happens, the store keeps its content. */
    method Sync(name: string, nonInteractive: bool, ignoreErrors: bool, w: World) returns (r: Status)
      requires sys.Valid() && meta.sys == sys
      modifies sys
      ensures sys.Valid() && sys.live == Remaining(old(sys.live), old(sys.nextTemp), r) && sys.bundles == old(sys.bundles)
      ensures var run := SyncRun(name, nonInteractive, ignoreErrors, w, old(sys.nextTemp), old(sys.bundles));
        r == run.result && sys.trace == old(sys.trace) + run.events
    {
      var storage := sys.Load();
      if name !in storage {
        return Exit(1);
      }
      r := InstallMetapackage(name, storage[name], nonInteractive, ignoreErrors, w);
      assert storage[name := storage[name]] == storage;
    }
  }
}
