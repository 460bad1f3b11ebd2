/**
 * The first bundle manager (`BundleManager` of bundle.py). It builds the
 * metapackage with equivs in a temporary directory and installs it with
 * `apt install`, with no dry run and no prompt of its own; the bundle store
 * is written only after that install succeeded. Removing packages and
 * deleting a bundle also work out which packages no bundle and no user
 * holds any more. Each operation is specified by its run, and the methods
 * of `LegacyManager` are proved to have exactly that run.
 */
module Legacy {
  import opened Optional
  import opened Bundles
  import opened Validators
  import opened Edits
  import opened Retention
  import opened Control
  import opened Effects

  /** The `BundleError`s the first manager raises; `Wrapped` is `BundleError(f"{context}: {cause}")`. */
  datatype LegacyError =
    | Invalid(error: BundleError)
    | AlreadyExists(name: string)
    | Missing(name: string)
    | EquivsMissing
    | CommandFailed(failure: CmdFailure)
    | NoDebGenerated
    | Wrapped(context: string, cause: LegacyError)

  /** How an operation ends: normally, by a `BundleError`, or by a `KeyboardInterrupt`, which no handler catches. */
  datatype Outcome = Done | Raised(error: LegacyError) | Interrupted

  /** `except Exception as e: raise BundleError(f"{context}: {e}")`; an interrupt is not an `Exception` and passes. */
  function Wrap(context: string, o: Outcome): (r: Outcome)
    ensures r.Done? <==> o.Done?
    ensures r.Interrupted? <==> o.Interrupted?
    ensures o.Raised? ==> r == Raised(Wrapped(context, o.error))
  {
    if o.Raised? then Raised(Wrapped(context, o.error)) else o
  }

  /**
   * `_sync_bundle_metapackage` when the temporary directory is `d`: the
   * name check, the equivs check, then the control file is built with
   * equivs-build and the .deb installed; the directory is removed when
   * the `with` block is left, on every path, an interrupted build included.
   */
  function SyncMetapackageRun(name: string, b: Bundle, nonInteractive: bool, w: World, d: nat): Run<Outcome> {
    var check := LegacyValidateBundleName(name);
    if check.Fail? then Run(Raised(Invalid(check.error)), [])
    else if !w.equivsInstalled then Run(Raised(EquivsMissing), [])
    else
      var start := [TempCreated(d), BuildRan(d, ControlFile(Dedented, name, b, w.now))];
      match w.build
      case BuildFailed(f) => Run(Raised(CommandFailed(f)), start + [TempRemoved(d)])
      case NoDeb => Run(Raised(NoDebGenerated), start + [TempRemoved(d)])
      case BuildInterrupted => Run(Interrupted, start + [TempRemoved(d)])
      case Built =>
        var events := start + [Applied(InstallDeb(d, nonInteractive), w.apply.ApplyOk?), TempRemoved(d)];
        match w.apply
        case ApplyOk => Run(Done, events)
        case ApplyFailed(f) => Run(Raised(CommandFailed(f)), events)
        case ApplyInterrupted => Run(Interrupted, events)
  }

  /** The name is accepted, equivs is there and builds a .deb. */
  predicate Builds(name: string, w: World) {
    LegacyValidateBundleName(name).Pass? && w.equivsInstalled && w.build.Built?
  }

  /** The name is accepted, equivs is there, and a KeyboardInterrupt hits the build or the install. */
  predicate Interrupts(name: string, w: World) {
    && LegacyValidateBundleName(name).Pass? && w.equivsInstalled
    && (w.build.BuildInterrupted? || (w.build.Built? && w.apply.ApplyInterrupted?))
  }

  /**
   * The sync saves nothing, installs only the built .deb (with `-y` when
   * non-interactive), does so exactly when the build got that far, and
   * leaves no temporary directory behind; it returns normally exactly when
   * the install succeeded.
   */
  lemma SyncMetapackageEffects(name: string, b: Bundle, nonInteractive: bool, w: World, d: nat, live: set<nat>)
    requires d !in live
    ensures var run := SyncMetapackageRun(name, b, nonInteractive, w, d);
      && (run.result.Done? <==> Builds(name, w) && w.apply.ApplyOk?)
      && (run.result.Interrupted? <==> Interrupts(name, w))
      && (Applies(run.events) <==> Builds(name, w))
      && (forall i :: 0 <= i < |run.events| && run.events[i].Applied? ==>
            run.events[i] == Applied(InstallDeb(d, nonInteractive), w.apply.ApplyOk?))
      && !Saves(run.events)
      && LeftOver(live, run.events) == live
  {
    var run := SyncMetapackageRun(name, b, nonInteractive, w, d);
    if LegacyValidateBundleName(name).Pass? && w.equivsInstalled {
      var c := BuildRan(d, ControlFile(Dedented, name, b, w.now));
      var mid := if w.build.Built? then [c, Applied(InstallDeb(d, nonInteractive), w.apply.ApplyOk?)] else [c];
      assert run.events == [TempCreated(d)] + mid + [TempRemoved(d)] + [];
      assert NoTemp(mid);
      LeftOverBracket(live, d, mid, []);
      assert w.build.Built? ==> run.events[2].Applied?;
    }
  }

  /** The bundle `create_bundle` makes: the description, and every listed package with the empty spec. */
  function NewBundle(packages: seq<string>, description: string): Bundle {
    Bundle(description, WithEmptySpecs([], packages))
  }

  /** The sync followed, when it returns normally, by the save of `after`; any `BundleError` is wrapped with `context`. */
  function SyncThenSave(name: string, b: Bundle, nonInteractive: bool, w: World, d: nat, after: Storage, context: string): Run<Outcome> {
    var sync := SyncMetapackageRun(name, b, nonInteractive, w, d);
    if sync.result.Done? then Run(Done, sync.events + [Saved(after)])
    else Run(Wrap(context, sync.result), sync.events)
  }

  /** `create_bundle`. */
  function CreateRun(name: string, packages: seq<string>, description: string, nonInteractive: bool, w: World, d: nat, store: Storage): Run<Outcome> {
    var check := LegacyValidateBundleName(name);
    if check.Fail? then Run(Raised(Invalid(check.error)), [])
    else if name in store then Run(Raised(AlreadyExists(name)), [])
    else
      var b := NewBundle(packages, description);
      SyncThenSave(name, b, nonInteractive, w, d, store[name := b], "Failed to create bundle")
  }

  /** The bundle after `add_packages`: every listed package set to the empty spec. */
  function Added(b: Bundle, packages: seq<string>): Bundle {
    Bundle(b.description, WithEmptySpecs(b.packages, packages))
  }

  /** `add_packages`. */
  function AddRun(name: string, packages: seq<string>, nonInteractive: bool, w: World, d: nat, store: Storage): Run<Outcome> {
    if name !in store then Run(Raised(Missing(name)), [])
    else
      var b := Added(store[name], packages);
      SyncThenSave(name, b, nonInteractive, w, d, store[name := b], "Failed to add packages")
  }

  /** The bundle after `remove_packages`: the listed packages it has are deleted, the others only warned about. */
  function Removed(b: Bundle, packages: seq<string>): Bundle {
    Bundle(b.description, Without(b.packages, packages))
  }

  /**
   * The packages `remove_packages` and `delete_bundle` would take off the
   * system once `after` is stored: those of `packages` that no other
   * bundle lists and apt-mark does not report as manual, or all of them
   * when forced; none when the packages are to be kept.
   */
  function Leftovers(packages: seq<string>, name: string, after: Storage, keep: bool, force: bool, w: World): seq<string> {
    if keep then [] else RemovalList(packages, OtherPackages(after, name), force, w.aptMark)
  }

  /**
   * `remove_packages`: after the sync and the save, `sudo apt remove` of
   * the leftovers when there are any; its failure is only warned about,
   * and an interrupt passes through.
   */
  function RemoveRun(name: string, packages: seq<string>, keep: bool, force: bool, nonInteractive: bool, w: World, d: nat, store: Storage): Run<Outcome> {
    if name !in store then Run(Raised(Missing(name)), [])
    else
      var b := Removed(store[name], packages);
      var after := store[name := b];
      var sync := SyncThenSave(name, b, nonInteractive, w, d, after, "Failed to remove packages");
      if !sync.result.Done? then sync
      else
        var leftovers := Leftovers(packages, name, after, keep, force, w);
        if leftovers == [] then sync
        else
          var events := sync.events + [Applied(RemovePackages(leftovers, nonInteractive), w.cleanup.ApplyOk?)];
          Run(if w.cleanup.ApplyInterrupted? then Interrupted else Done, events)
  }

  /**
   * `delete_bundle`: `sudo apt remove bdapt-<name>`, then the store saved
   * without the bundle. The leftover packages are not removed: when there
   * are any, the user is told to run `apt autoremove` (the second result).
   */
  function DeleteRun(name: string, keep: bool, force: bool, nonInteractive: bool, w: World, store: Storage): Run<(Outcome, bool)> {
    if name !in store then Run((Raised(Missing(name)), false), [])
    else
      var events := [Applied(RemovePackages([MetapackageName(name)], nonInteractive), w.apply.ApplyOk?)];
      match w.apply
      case ApplyFailed(f) => Run((Raised(Wrapped("Failed to delete bundle", CommandFailed(f))), false), events)
      case ApplyInterrupted => Run((Interrupted, false), events)
      case ApplyOk =>
        var after := store - {name};
        var hint := Leftovers(Names(store[name].packages), name, after, keep, force, w) != [];
        Run((Done, hint), events + [Saved(after)])
  }

  /** `sync_bundle`. */
  function SyncRun(name: string, nonInteractive: bool, w: World, d: nat, store: Storage): Run<Outcome> {
    if name !in store then Run(Raised(Missing(name)), [])
    else
      var sync := SyncMetapackageRun(name, store[name], nonInteractive, w, d);
      Run(Wrap("Failed to sync bundle", sync.result), sync.events)
  }

  /**
   * The sync followed by the save: the store is written exactly when the
   * operation completes, only with `after`, and only after the metapackage
   * was installed successfully; no temporary directory is left behind.
   */
  lemma SyncThenSaveEffects(name: string, b: Bundle, nonInteractive: bool, w: World, d: nat, after: Storage, context: string, live: set<nat>)
    requires d !in live
    ensures var run := SyncThenSave(name, b, nonInteractive, w, d, after, context);
      && (run.result.Done? <==> Builds(name, w) && w.apply.ApplyOk?)
      && (run.result.Interrupted? <==> Interrupts(name, w))
      && (run.result.Raised? ==> run.result.error.Wrapped? && run.result.error.context == context)
      && (Saves(run.events) <==> run.result.Done?)
      && SavesOnly(run.events, after)
      && AppliedBeforeSaved(run.events)
      && LeftOver(live, run.events) == live
  {
    var sync := SyncMetapackageRun(name, b, nonInteractive, w, d);
    SyncMetapackageEffects(name, b, nonInteractive, w, d, live);
    assert SavesOnly(sync.events, after);
    assert AppliedBeforeSaved(sync.events);
    if sync.result.Done? {
      var last := [Saved(after)];
      assert last[0].Saved?;
      assert AppliedOk(sync.events[2]);
      SavesConcat(sync.events, last);
      SavesOnlyConcat(sync.events, last, after);
      OrderConcat(sync.events, last);
      LeftOverConcat(live, sync.events, last);
      assert NoTemp(last);
      LeftOverNoTemp(live, last);
    }
  }

  /**
   * `create_bundle`: an invalid name or an existing bundle raises before
   * anything happens; otherwise the store gains the new bundle exactly
   * when the metapackage was installed, and only after that install.
   */
  lemma CreateEffects(name: string, packages: seq<string>, description: string, nonInteractive: bool, w: World, d: nat, store: Storage, live: set<nat>)
    requires d !in live
    ensures var run := CreateRun(name, packages, description, nonInteractive, w, d, store);
      && (LegacyValidateBundleName(name).Fail? ==> run == Run(Raised(Invalid(LegacyValidateBundleName(name).error)), []))
      && (LegacyValidateBundleName(name).Pass? && name in store ==> run == Run(Raised(AlreadyExists(name)), []))
      && (run.result.Done? <==> name !in store && Builds(name, w) && w.apply.ApplyOk?)
      && (Saves(run.events) <==> run.result.Done?)
      && SavesOnly(run.events, store[name := NewBundle(packages, description)])
      && AppliedBeforeSaved(run.events)
      && LeftOver(live, run.events) == live
  {
    var b := NewBundle(packages, description);
    SyncThenSaveEffects(name, b, nonInteractive, w, d, store[name := b], "Failed to create bundle", live);
  }

  /**
   * `add_packages`: a missing bundle raises before anything happens;
   * otherwise the bundle with the packages added is stored exactly when
   * its metapackage was installed, and only after that.
   */
  lemma AddEffects(name: string, packages: seq<string>, nonInteractive: bool, w: World, d: nat, store: Storage, live: set<nat>)
    requires d !in live
    ensures var run := AddRun(name, packages, nonInteractive, w, d, store);
      && (name !in store ==> run == Run(Raised(Missing(name)), []))
      && (run.result.Done? <==> name in store && Builds(name, w) && w.apply.ApplyOk?)
      && (Saves(run.events) <==> run.result.Done?)
      && (name in store ==> SavesOnly(run.events, store[name := Added(store[name], packages)]))
      && AppliedBeforeSaved(run.events)
      && LeftOver(live, run.events) == live
  {
    if name in store {
      var b := Added(store[name], packages);
      SyncThenSaveEffects(name, b, nonInteractive, w, d, store[name := b], "Failed to add packages", live);
    }
  }

  /**
   * `remove_packages`: a missing bundle raises before anything happens;
   * otherwise the bundle without the listed packages is stored exactly
   * when its metapackage was installed, and only after that; then apt is
   * asked to remove exactly the leftovers, which never include a package
   * another bundle lists unless forced, and nothing when the packages are
   * kept. A failing `apt remove` does not make the operation fail; the
   * operation completes unless an interrupt cuts that `apt remove` short.
   */
  lemma RemoveEffects(name: string, packages: seq<string>, keep: bool, force: bool, nonInteractive: bool, w: World, d: nat, store: Storage, live: set<nat>)
    requires d !in live
    ensures var run := RemoveRun(name, packages, keep, force, nonInteractive, w, d, store);
      && (name !in store ==> run == Run(Raised(Missing(name)), []))
      && (Saves(run.events) <==> name in store && Builds(name, w) && w.apply.ApplyOk?)
      && (run.result.Done? <==>
            && name in store && Builds(name, w) && w.apply.ApplyOk?
            && !(Leftovers(packages, name, store[name := Removed(store[name], packages)], keep, force, w) != []
                 && w.cleanup.ApplyInterrupted?))
      && (name in store ==> SavesOnly(run.events, store[name := Removed(store[name], packages)]))
      && AppliedBeforeSaved(run.events)
      && LeftOver(live, run.events) == live
  {
    if name in store {
      var b := Removed(store[name], packages);
      var after := store[name := b];
      var sync := SyncThenSave(name, b, nonInteractive, w, d, after, "Failed to remove packages");
      SyncThenSaveEffects(name, b, nonInteractive, w, d, after, "Failed to remove packages", live);
      var leftovers := Leftovers(packages, name, after, keep, force, w);
      if sync.result.Done? && leftovers != [] {
        var last := [Applied(RemovePackages(leftovers, nonInteractive), w.cleanup.ApplyOk?)];
        assert !Saves(last) && NoTemp(last) && SavesOnly(last, after);
        SavesConcat(sync.events, last);
        SavesOnlyConcat(sync.events, last, after);
        OrderConcat(sync.events, last);
        LeftOverConcat(live, sync.events, last);
        LeftOverNoTemp(live, last);
      }
    }
  }

  /**
   * The only `apt remove` of package names `remove_packages` runs is the
   * one for the leftovers: packages that were asked to be removed, and,
   * unless forced, none that another bundle lists.
   */
  lemma RemoveTakesLeftovers(name: string, packages: seq<string>, keep: bool, force: bool, nonInteractive: bool, w: World, d: nat, store: Storage)
    ensures var run := RemoveRun(name, packages, keep, force, nonInteractive, w, d, store);
      forall i :: 0 <= i < |run.events| && run.events[i].Applied? && run.events[i].call.RemovePackages? ==>
        && name in store && !keep
        && run.events[i].call.packages == Leftovers(packages, name, store[name := Removed(store[name], packages)], keep, force, w)
        && (forall p :: p in run.events[i].call.packages ==> p in packages)
        && (!force ==> forall p :: p in run.events[i].call.packages ==> p !in OtherPackages(store, name))
  {
    if name in store {
      var b := Removed(store[name], packages);
      var after := store[name := b];
      var sync := SyncThenSave(name, b, nonInteractive, w, d, after, "Failed to remove packages");
      SyncMetapackageEffects(name, b, nonInteractive, w, d, {});
      assert forall i :: 0 <= i < |sync.events| && sync.events[i].Applied? ==> !sync.events[i].call.RemovePackages?;
      var leftovers := Leftovers(packages, name, after, keep, force, w);
      if sync.result.Done? && leftovers != [] {
        RemovalListMembers(packages, OtherPackages(after, name), force, w.aptMark);
        OtherPackagesIgnoresExcluded(store, name, b);
      }
    }
  }

  /**
   * `delete_bundle`: a missing bundle raises before anything happens;
   * otherwise apt is asked to remove `bdapt-<name>` and nothing else, and
   * the bundle leaves the store exactly when that succeeded, and only
   * after it. The autoremove hint is given exactly when some package of
   * the bundle is held by neither another bundle nor the user (or the
   * removal is forced), unless the packages are kept.
   */
  lemma DeleteEffects(name: string, keep: bool, force: bool, nonInteractive: bool, w: World, store: Storage, live: set<nat>)
    ensures var run := DeleteRun(name, keep, force, nonInteractive, w, store);
      && (name !in store ==> run == Run((Raised(Missing(name)), false), []))
      && (run.result.0.Done? <==> name in store && w.apply.ApplyOk?)
      && (Saves(run.events) <==> run.result.0.Done?)
      && SavesOnly(run.events, store - {name})
      && AppliedBeforeSaved(run.events)
      && (forall i :: 0 <= i < |run.events| && run.events[i].Applied? ==>
            run.events[i].call == RemovePackages([MetapackageName(name)], nonInteractive))
      && (run.result.1 <==>
            && run.result.0.Done? && !keep
            && exists p :: p in Names(store[name].packages) && Removable(p, OtherPackages(store, name), force, w.aptMark))
      && LeftOver(live, run.events) == live
  {
    var run := DeleteRun(name, keep, force, nonInteractive, w, store);
    if name in store {
      assert run.events[0].Applied?;
      if w.apply.ApplyOk? {
        assert AppliedOk(run.events[0]) && run.events[1].Saved?;
        var pkgs := Names(store[name].packages);
        var others := OtherPackages(store - {name}, name);
        RemovalListMembers(pkgs, others, force, w.aptMark);
        OtherPackagesIgnoresExcluded(store, name, store[name]);
        var list := RemovalList(pkgs, others, force, w.aptMark);
        if list != [] {
          assert list[0] in list;
        }
      }
      assert NoTemp(run.events);
      LeftOverNoTemp(live, run.events);
    }
  }

  /** `sync_bundle`: a missing bundle raises; the store is never written. */
  lemma SyncEffects(name: string, nonInteractive: bool, w: World, d: nat, store: Storage, live: set<nat>)
    requires d !in live
    ensures var run := SyncRun(name, nonInteractive, w, d, store);
      && (name !in store ==> run == Run(Raised(Missing(name)), []))
      && (run.result.Done? <==> name in store && Builds(name, w) && w.apply.ApplyOk?)
      && !Saves(run.events)
      && LeftOver(live, run.events) == live
  {
    if name in store {
      SyncMetapackageEffects(name, store[name], nonInteractive, w, d, live);
    }
  }
  /** The first manager's `BundleManager`, acting on the host `sys`. */
  class LegacyManager {
    const sys: System

    constructor (sys: System)
      ensures this.sys == sys
    {
      this.sys := sys;
    }

    /** `_sync_bundle_metapackage`. */
    method SyncMetapackage(name: string, b: Bundle, nonInteractive: bool, w: World) returns (r: Outcome)
      requires sys.Valid()
      modifies sys
      ensures sys.Valid() && sys.live == old(sys.live) && sys.bundles == old(sys.bundles)
      ensures var run := SyncMetapackageRun(name, b, nonInteractive, w, old(sys.nextTemp));
        r == run.result && sys.trace == old(sys.trace) + run.events
    {
      var check := LegacyValidateBundleName(name);
      if check.Fail? {
        return Raised(Invalid(check.error));
      }
      if !w.equivsInstalled {
        return Raised(EquivsMissing);
      }
      var d := sys.MakeTemp();
      sys.Note(BuildRan(d, ControlFile(Dedented, name, b, w.now)));
      match w.build {
        case BuildFailed(f) =>
          r := Raised(CommandFailed(f));
        case NoDeb =>
          r := Raised(NoDebGenerated);
        case BuildInterrupted =>
          r := Interrupted;
        case Built =>
          sys.Note(Applied(InstallDeb(d, nonInteractive), w.apply.ApplyOk?));
          match w.apply {
            case ApplyOk =>
              r := Done;
            case ApplyFailed(f) =>
              r := Raised(CommandFailed(f));
            case ApplyInterrupted =>
              r := Interrupted;
          }
      }
      sys.RemoveTemp(d);
    }

    /** `create_bundle`. */
    method Create(name: string, packages: seq<string>, description: string, nonInteractive: bool, w: World) returns (r: Outcome)
      requires sys.Valid()
      modifies sys
      ensures sys.Valid() && sys.live == old(sys.live)
      ensures var run := CreateRun(name, packages, description, nonInteractive, w, old(sys.nextTemp), old(sys.bundles));
        r == run.result && sys.trace == old(sys.trace) + run.events
      ensures sys.bundles == if r.Done? then old(sys.bundles)[name := NewBundle(packages, description)] else old(sys.bundles)
    {
      var check := LegacyValidateBundleName(name);
      if check.Fail? {
        return Raised(Invalid(check.error));
      }
      var storage := sys.Load();
      if name in storage {
        return Raised(AlreadyExists(name));
      }
      var specs := SetEmptySpecs([], packages);
      var bundle := Bundle(description, specs);
      r := SyncMetapackage(name, bundle, nonInteractive, w);
      if r.Done? {
        storage := storage[name := bundle];
        sys.Save(storage);
      } else {
        r := Wrap("Failed to create bundle", r);
      }
    }

    /** `add_packages`. */
    method Add(name: string, packages: seq<string>, nonInteractive: bool, w: World) returns (r: Outcome)
      requires sys.Valid()
      modifies sys
      ensures sys.Valid() && sys.live == old(sys.live)
      ensures var run := AddRun(name, packages, nonInteractive, w, old(sys.nextTemp), old(sys.bundles));
        r == run.result && sys.trace == old(sys.trace) + run.events
      ensures sys.bundles == if r.Done? then old(sys.bundles)[name := Added(old(sys.bundles)[name], packages)] else old(sys.bundles)
    {
      var storage := sys.Load();
      if name !in storage {
        return Raised(Missing(name));
      }
      var bundle := storage[name];
      var specs := SetEmptySpecs(bundle.packages, packages);
      bundle := Bundle(bundle.description, specs);
      storage := storage[name := bundle];
      r := SyncMetapackage(name, bundle, nonInteractive, w);
      if r.Done? {
        sys.Save(storage);
      } else {
        r := Wrap("Failed to add packages", r);
      }
    }

    /** `remove_packages`. */
    method Remove(name: string, packages: seq<string>, keep: bool, force: bool, nonInteractive: bool, w: World) returns (r: Outcome)
      requires sys.Valid()
      modifies sys
      ensures sys.Valid() && sys.live == old(sys.live)
      ensures var run := RemoveRun(name, packages, keep, force, nonInteractive, w, old(sys.nextTemp), old(sys.bundles));
        && r == run.result && sys.trace == old(sys.trace) + run.events
        && sys.bundles == if Saves(run.events) then old(sys.bundles)[name := Removed(old(sys.bundles)[name], packages)] else old(sys.bundles)
    {
      var storage := sys.Load();
      if name !in storage {
        return Raised(Missing(name));
      }
      ghost var t0, d := sys.trace, sys.nextTemp;
      RemoveEffects(name, packages, keep, force, nonInteractive, w, d, storage, {});
      var bundle := storage[name];
      var specs := RemoveListed(bundle.packages, packages);
      bundle := Bundle(bundle.description, specs);
      storage := storage[name := bundle];
      ghost var saved := SyncThenSave(name, bundle, nonInteractive, w, d, storage, "Failed to remove packages");
      r := SyncMetapackage(name, bundle, nonInteractive, w);
      if !r.Done? {
        r := Wrap("Failed to remove packages", r);
        return;
      }
      sys.Save(storage);
      assert sys.trace == t0 + saved.events;
      if !keep {
        var interrupted := RemoveLeftovers(name, packages, force, nonInteractive, w);
        if interrupted {
          r := Interrupted;
        }
      }
    }

    /**
     * The `if not keep_packages` part of `remove_packages`: `sudo apt
     * remove` of the packages no other bundle in the store lists and
     * apt-mark does not report as manual (all of them when forced), when
     * there are any; its failure is only warned about, and whether an
     * interrupt came through is returned.
     */
    method RemoveLeftovers(name: string, packages: seq<string>, force: bool, nonInteractive: bool, w: World) returns (interrupted: bool)
      modifies sys`trace
      ensures var leftovers := Leftovers(packages, name, sys.bundles, false, force, w);
        && sys.trace == old(sys.trace) + (if leftovers == [] then [] else [Applied(RemovePackages(leftovers, nonInteractive), w.cleanup.ApplyOk?)])
        && (interrupted <==> leftovers != [] && w.cleanup.ApplyInterrupted?)
    {
      var current := sys.Load();
      var others := PackagesInOtherBundles(current, name);
      var leftovers := SelectRemovable(packages, others, force, w.aptMark);
      interrupted := false;
      if leftovers != [] {
        sys.Note(Applied(RemovePackages(leftovers, nonInteractive), w.cleanup.ApplyOk?));
        interrupted := w.cleanup.ApplyInterrupted?;
      }
    }

    /** `delete_bundle`: how it ends, and whether it suggests `apt autoremove`. */
    method Delete(name: string, keep: bool, force: bool, nonInteractive: bool, w: World) returns (r: Outcome, hint: bool)
      modifies sys
      ensures sys.live == old(sys.live) && sys.nextTemp == old(sys.nextTemp)
      ensures var run := DeleteRun(name, keep, force, nonInteractive, w, old(sys.bundles));
        (r, hint) == run.result && sys.trace == old(sys.trace) + run.events
      ensures sys.bundles == if r.Done? then old(sys.bundles) - {name} else old(sys.bundles)
    {
      hint := false;
      var storage := sys.Load();
      if name !in storage {
        return Raised(Missing(name)), false;
      }
      var bundle := storage[name];
      sys.Note(Applied(RemovePackages([MetapackageName(name)], nonInteractive), w.apply.ApplyOk?));
      match w.apply {
        case ApplyFailed(f) =>
          return Raised(Wrapped("Failed to delete bundle", CommandFailed(f))), false;
        case ApplyInterrupted =>
          return Interrupted, false;
        case ApplyOk =>
      }
      storage := storage - {name};
      sys.Save(storage);
      r := Done;
      if !keep {
        var current := sys.Load();
        var others := PackagesInOtherBundles(current, name);
        var leftovers := SelectRemovable(Names(bundle.packages), others, force, w.aptMark);
        hint := leftovers != [];
      }
    }

    /** `sync_bundle`. */
    method Sync(name: string, nonInteractive: bool, w: World) returns (r: Outcome)
      requires sys.Valid()
      modifies sys
      ensures sys.Valid() && sys.live == old(sys.live) && sys.bundles == old(sys.bundles)
      ensures var run := SyncRun(name, nonInteractive, w, old(sys.nextTemp), old(sys.bundles));
        r == run.result && sys.trace == old(sys.trace) + run.events
    {
      var storage := sys.Load();
      if name !in storage {
        return Raised(Missing(name));
      }
      r := SyncMetapackage(name, storage[name], nonInteractive, w);
      r := Wrap("Failed to sync bundle", r);
    }

    /** `show_bundle`: the stored bundle, or the error for a missing one. */
    method Show(name: string) returns (r: Outcome, b: Option<Bundle>)
      ensures r.Done? <==> name in sys.bundles
      ensures r.Done? ==> b == Some(sys.bundles[name])
      ensures !r.Done? ==> r == Raised(Missing(name)) && b == None
    {
      var storage := sys.Load();
      if name !in storage {
        return Raised(Missing(name)), None;
      }
      r, b := Done, Some(storage[name]);
    }
  }
}
