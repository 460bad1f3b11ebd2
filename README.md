# bdapt bundles, modelled in Dafny

bdapt manages *bundles*. A bundle is a named group of apt packages, each with an optional version constraint. It is stored in a JSON file. On the system, each bundle is represented by one equivs metapackage, `bdapt-<name>`, which depends on every package of the bundle. Creating, extending, shrinking, syncing or deleting a bundle rebuilds and installs (or removes) that metapackage.

The repository holds three generations of this logic, and all three are modelled here:

- `bdapt/bundle.py` is the first bundle manager, in `legacy.dfy`. It builds the metapackage and installs it with `apt install`, with no preview. It saves the store only after the install succeeded. When packages leave a bundle, it works out which of them no other bundle and no user still needs.
- `bdapt/metapackage.py` is the metapackage layer, in `metapackage.dfy`. It builds in a temporary directory, previews with an apt dry run, asks the user, and installs or removes the metapackage.
- `bdapt/bundle_manager.py` is the second bundle manager, in `manager.dfy`. It runs every change through one install step: build, dry run, prompt, save the store, then install.
- `bdapt/validators.py` holds the name and package checks, in `validators.dfy`.

The shared data lives in the other modules:

- `bundles.dfy`: a bundle's package dict as an insertion-ordered list of distinct keys, the Depends string and the metapackage name.
- `control.dfy`: the rendered control file.
- `retention.dfy`: which packages are kept on the system.
- `edits.dfy`: the loops that edit a bundle's packages.
- `pystr.dfy` and `textwrap.dfy`: the Python string functions they rely on.

The host is the class `Effects.System`. Its fields are the bundle store, the live temporary directories, and a ghost trace of every effect in order: store saves, temporary directories created and removed, dry runs, prompts, builds and apt changes.

Commands and user answers are inputs. A `World` value holds their outcomes: the timestamp, the build (which may be interrupted), the dry run, the answer at the prompt (a typed line, or Ctrl-C, which makes `input()` raise `KeyboardInterrupt`), the apt result and apt-mark's output.

Each operation has two parts:

- A pure function gives its *run*: how it ends, plus the events it appends.
- A method of the manager class changes the `System`. Its contract is proved to equal that run.

Lemmas about the runs state what the source promises: when the store is saved, that it is saved before or after apt changes the system, what it is saved with, that no temporary directory is left behind, and which error ends each failing path.

## Model

| member | source | states |
|---|---|---|
| Validators.ValidateBundleName | bdapt/validators.py:9-34 | An empty name is refused as empty. A 1-character name passes iff it is a lowercase letter or digit. A longer name not ending in a newline passes iff it starts and ends with one and has only `[a-z0-9.-]` between (so any inner newline fails); one ending in a newline passes iff the rest matches, as `re.match` with `$` allows. Every refusal carries the matching error. |
| Validators.LegacyValidateBundleName | bdapt/bundle.py:38-52 | The first manager's check only ever raises the "Invalid bundle name" error. |
| Validators.LegacyAcceptsStrict | bdapt/bundle.py:38-52 | Every name the newer validator accepts, the older one accepts too. |
| Validators.LegacyOnly | bdapt/bundle.py:47-52 | The older check accepts exactly these extra names: the empty name, any other 1-character name, and a lowercase letter or digit followed by a newline. |
| Validators.LegacyExamples | tests/test_bundle.py:10-29 | The accepted and refused names of the bundle tests. |
| Validators.ValidatePackageList | bdapt/validators.py:37-49 | Passes iff the list is non-empty; otherwise fails with the operation's name. |
| Validators.ValidatePackageName | bdapt/validators.py:61-71 | An empty or all-whitespace name gets the blank error. Otherwise the name passes iff its stripped form matches `[a-zA-Z0-9][a-zA-Z0-9+.-]*`, and fails with the invalid-name error carrying the unstripped name. |
| Validators.FirstInvalid | bdapt/validators.py:61 | The index of the first refused package; every package before it passes. |
| Validators.ValidatePackageNames | bdapt/validators.py:52-71 | Passes iff every package passes; otherwise raises the error of a failing package all of whose predecessors pass. |
| PyStr.StripEmpty | bdapt/validators.py:62 | `strip()` gives the empty string iff the string is all whitespace. |
| PyStr.StripPadded | bdapt/bundle_manager.py:58-59 | `strip()` ignores whitespace added on either side. |
| PyStr.JoinSplit | bdapt/bundle.py:184 | Joining the pieces of a split gives the string back. |
| PyStr.SplitJoin | bdapt/bundle.py:184 | Splitting a join of separator-free parts gives the parts back. |
| PyStr.CountJoin | tests/test_models.py:32 | The separator count of a join is the parts' count plus one separator per gap. |
| Textwrap.DedentShaped | bdapt/bundle.py:107-113 | Dedenting lines that share an indentation pad removes exactly that pad and empties the blank lines. |
| Bundles.Get | bdapt/bundle_manager.py:239-243 | Looking up a key finds a value iff the key is in the dict. |
| Bundles.Put | bdapt/bundle.py:258-259 | After the assignment the key maps to the new value and every other key keeps its value. An existing key keeps its place and a new key goes last. |
| Bundles.Delete | bdapt/bundle_manager.py:246-247 | After `del` the key is gone, every other key keeps its value, and the order of the rest is kept. |
| Bundles.WithEmptySpecs | bdapt/bundle.py:225-228 | After the dict comprehension or the assignment loop, the keys are those present before plus those listed. Listed keys have the empty spec, the others are unchanged, and old keys keep their order at the front. |
| Bundles.Without | bdapt/bundle.py:295-301 | Deleting the listed keys leaves exactly the unlisted keys. |
| Bundles.GetWithout | bdapt/bundle.py:295-301 | Deleting listed keys changes the lookups of exactly those keys. |
| Bundles.DeleteIsWithout | bdapt/bundle.py:301 | A single `del` of a present key is the one-key batch deletion. |
| Bundles.WithoutStep | bdapt/bundle.py:295-301 | One loop step, deleting a key only when present, extends the batch by that key. |
| Bundles.DependsCommas | tests/test_models.py:17-32 | With no comma in a name or version, the Depends string has one comma fewer than the bundle has packages. |
| Bundles.DependsEntries | tests/test_models.py:17-32 | Splitting the Depends string at commas gives back each package's apt string in order, each after the first with its leading space. |
| Bundles.JoinRespaced | tests/test_models.py:28-32 | Joining with ", " is joining with "," after a space is put before every part but the first. |
| Bundles.MetapackageNameRoundTrip | bdapt/bundle.py:54-56 | `bdapt-<name>` identifies its bundle: the prefix is removed back to the name, and only that package name maps to the bundle. |
| Edits.SetEmptySpecs | bdapt/bundle_manager.py:206-207 | The assignment loop produces `WithEmptySpecs`. |
| Edits.RemoveListed | bdapt/bundle.py:295-301 | The first manager's loop, which deletes present keys and skips absent ones, produces `Without`. |
| Edits.FirstUndeletable | bdapt/bundle_manager.py:246-247 | The index of the first listed key that is absent or listed before; every earlier key is present and listed once. |
| Edits.DeletableOnceFirst | bdapt/bundle_manager.py:246-247 | Every deletion succeeds iff there is no undeletable key. |
| Edits.DeleteAll | bdapt/bundle_manager.py:246-247 | The `del` loop succeeds iff every listed key is present and listed once, and then gives `Without`. Otherwise it raises `KeyError` for the first undeletable key. |
| Retention.PackagesInOtherBundles | bdapt/bundle.py:188-204 | The loop collects exactly the package keys of every stored bundle other than the excluded one. |
| Retention.OtherPackagesIgnoresExcluded | bdapt/bundle.py:200-202 | Replacing or deleting the excluded bundle does not change the result. |
| Retention.OtherPackagesMember | tests/test_bundle.py:69-96 | A package is reported iff some other stored bundle's dict has it. |
| Retention.ManuallyInstalledListing | bdapt/bundle.py:168-186 | When apt-mark prints one package per line, the check is membership in that list. |
| Retention.ManuallyInstalledSilent | bdapt/bundle.py:184 | With blank apt-mark output, only the empty name counts as manual. |
| Retention.RemovalListMembers | bdapt/bundle.py:308-328 | A package is taken off iff it was listed and is forced, or is neither in another bundle nor manual. The list is no longer than the input. |
| Retention.RemovalListForced | bdapt/bundle.py:308-328 | A forced removal takes every listed package, in order. |
| Retention.RemovalListSparesShared | bdapt/bundle.py:312-318 | Unless forced, a package another bundle lists is never removed. |
| Retention.SelectRemovable | bdapt/bundle.py:308-328 | The selection loop, with its two `continue`s, builds exactly the removal list. |
| Control.Description | bdapt/bundle.py:112 | The description is never empty, and a set description is used as is. |
| Control.DedentIndented | bdapt/bundle.py:107-113 | Dedenting the indented template gives an empty line, then each field line ended by a newline. |
| Control.LegacyControlText | bdapt/bundle.py:94-119 | With single-line values, the first manager's control text is an empty line, then the Package, Version, Maintainer, Architecture and Description lines, then the Depends line when the bundle has packages. |
| Control.MetapackageControlText | bdapt/metapackage.py:51-85 | The metapackage manager's text is those same five lines without the empty one, when the description does not end in whitespace. |
| Control.ControlsAgree | bdapt/metapackage.py:51-85 | The two renderings differ only by the leading empty line. |
| Effects.AcceptsExactly | bdapt/bundle_manager.py:58-61 | The prompt accepts exactly "y" or "yes", in any case, once surrounding whitespace is stripped. |
| Effects.AcceptsPadded | bdapt/metapackage.py:140-154 | Surrounding whitespace does not change the answer. |
| Effects.System.constructor | bdapt/storage.py:56-60 | A store that was never saved loads as empty, with no temporary directory and an empty trace. |
| Effects.System.Load | bdapt/storage.py:56-65 | `load` returns what was last saved. |
| Effects.System.Save | bdapt/storage.py:69-81 | `save` replaces the store's content and records the save. |
| Effects.System.MakeTemp | bdapt/metapackage.py:106 | The new temporary directory is not live before and is live after. |
| Effects.System.RemoveTemp | bdapt/metapackage.py:131-134 | Removal, which ignores errors, leaves the directory not live. |
| Metapackage.BuildReleases | bdapt/metapackage.py:87-138 | The build succeeds iff equivs is installed and builds a .deb, and raises `KeyboardInterrupt` iff equivs-build was interrupted (no handler catches it). It leaves its directory live exactly in those two cases, removes it on every other failure, and never saves or applies. |
| Metapackage.PrepareProceeds | bdapt/metapackage.py:140-222 | Prepare hands back the .deb iff the build succeeded, the dry run reported changes, and the run is non-interactive or the user typed a yes. A typed refusal raises `UserAbortError` with exit code 1, and an ignored dry-run failure returns None. `KeyboardInterrupt` comes out iff the build, or the prompt of an interactive run with changes, was interrupted. |
| Metapackage.PromptInterruptLeaks | bdapt/metapackage.py:152-222 | Ctrl-C at the prompt of an interactive prepare raises `KeyboardInterrupt` and leaves the temporary directory behind. |
| Metapackage.PrepareReleases | bdapt/metapackage.py:156-222 | The directory stays live iff prepare hands back the .deb or a `KeyboardInterrupt` escapes (from the build, or from `input()` at line 152, which the handlers at 216 and 219 do not catch). Every other way out removes it. Prepare never saves or installs. |
| Metapackage.CompleteReleases | bdapt/metapackage.py:224-272 | Complete always removes the directory. An install failure is swallowed when errors are ignored; otherwise it is raised again with the recovery advice appended and the captured output kept. |
| Metapackage.RemovalApplies | bdapt/metapackage.py:274-339 | Remove asks apt to remove only `bdapt-<name>`, iff the dry run reported changes and the run is non-interactive or the user typed a yes. It never saves or touches a directory. An interrupt at the prompt escapes as `KeyboardInterrupt`. |
| Metapackage.MetapackageManager.ConfirmInstallation | bdapt/metapackage.py:140-154 | Accepts iff the user typed a yes, reports an interrupt iff `input()` was interrupted, and records the prompt. |
| Metapackage.MetapackageManager.Build | bdapt/metapackage.py:87-138 | Has exactly the build's run. On success, and on an interrupted build, its directory is newly live; after any other failure nothing stays live. |
| Metapackage.MetapackageManager.Prepare | bdapt/metapackage.py:156-222 | Has exactly the prepare run. Its directory is newly live when the .deb is handed back and when a `KeyboardInterrupt` (build or prompt) escapes; on every other path nothing stays live. |
| Metapackage.MetapackageManager.ConfirmChanges | bdapt/metapackage.py:207-214 | Once the dry run reported changes: the .deb is handed back when the run is non-interactive or the user typed a yes; a typed refusal removes the directory and raises `UserAbortError` with exit code 1; an interrupt leaves the directory and passes `KeyboardInterrupt` on. |
| Metapackage.MetapackageManager.Complete | bdapt/metapackage.py:224-272 | Has exactly the complete run, and the directory is no longer live. |
| Metapackage.MetapackageManager.RemoveMetapackage | bdapt/metapackage.py:274-339 | Has exactly the removal run. |
| Manager.Preview | bdapt/bundle_manager.py:38-52 | The dry-run summary, or None when there is nothing to do or a failure is ignored. An interrupt, or a failure that is not ignored, exits with 130. |
| Manager.AskRunGoesAhead | bdapt/bundle_manager.py:38-64 | Preview and prompt go on iff the dry run lets them and the user, if asked, typed a yes. The user is asked iff the summary is non-empty and the run is interactive, at most once. An interrupt at `input()` (line 58) passes on as `KeyboardInterrupt`; every other stop exits with 130. |
| Manager.InstallEffects | bdapt/bundle_manager.py:66-107 | The store is saved, only with the bundle under its name, iff the build and prompt let it go ahead. It is saved before apt installs. The metapackage is installed exactly then. No directory is left, except the build's own after an interrupted build. |
| Manager.InstallOutcome | bdapt/bundle_manager.py:66-107 | The install completes iff the store was saved and the install succeeded or had its failure ignored. A declined prompt exits with 130 and an interrupted one passes `KeyboardInterrupt` on. A dry run with nothing to report still saves and installs. The build's `KeyboardInterrupt` comes out iff equivs-build was interrupted. |
| Manager.InstallDeclined | bdapt/bundle_manager.py:85-86 | A typed refusal exits with 130, before any save or install. |
| Manager.InstallThenSaveEffects | bdapt/bundle_manager.py:175-180 | The caller's own save after the install writes the same store, and only after a completed install. |
| Manager.NewBundleContents | bdapt/bundle_manager.py:170-174 | The new bundle has the given description and exactly the listed packages, each with the empty spec. |
| Manager.CreateEffects | bdapt/bundle_manager.py:150-182 | Invalid input is refused, and an existing name exits with 1, before any effect. Otherwise the store is saved, only with the new bundle added, iff the build and prompt let the install go ahead; it is saved before apt installs, and create completes iff the install does. |
| Manager.AddedContents | bdapt/bundle_manager.py:206-207 | Listed packages get the empty spec, losing any version; others are unchanged. |
| Manager.AddEffects | bdapt/bundle_manager.py:184-216 | Invalid input is refused, and a missing bundle exits with 1, before any effect. Otherwise the store is saved, only with the extended bundle, iff the build and prompt let the install go ahead; it is saved before apt installs, and add completes iff the install does. |
| Manager.RemoveOutcome | bdapt/bundle_manager.py:218-256 | An empty list is refused. A missing bundle or a missing package exits with 1, and a package listed twice raises `KeyError`, all before any effect. Remove can complete only when every listed package is in the bundle once. |
| Manager.RemoveCompletes | bdapt/bundle_manager.py:218-256 | Remove completes iff the list is non-empty, the bundle is stored and holds every listed package, each listed once, and the install goes ahead and passes. |
| Manager.RemoveEffects | bdapt/bundle_manager.py:238-253 | The store is saved iff the list is non-empty, the bundle holds every listed package once, and the install goes ahead. It only ever gets the bundle without exactly the listed packages, saved before apt installs, and no directory is left unless the build was interrupted. |
| Manager.RemovalOutcome | bdapt/bundle_manager.py:109-148 | `_remove_metapackage` completes iff the bundle is stored, preview and prompt go ahead, and the removal passed. With a missing bundle it raises `KeyError` instead. |
| Manager.RemovalEffects | bdapt/bundle_manager.py:109-148 | Only `bdapt-<name>` is removed, exactly when preview and prompt go ahead. The store is saved, without the bundle, exactly when the operation completes. |
| Manager.DeleteEffects | bdapt/bundle_manager.py:258-280 | A missing bundle exits with 1 before any effect. Otherwise the bundle, and nothing else, leaves the store exactly when the operation completes. |
| Manager.SyncEffects | bdapt/bundle_manager.py:282-302 | A missing bundle exits with 1. Otherwise the store is only ever saved with the content it already had. |
| Manager.BundleManager.constructor | bdapt/bundle_manager.py:23-36 | The manager acts on the given host. |
| Manager.BundleManager.DryRunOperation | bdapt/bundle_manager.py:38-52 | Returns the preview of the dry run and records the dry run. |
| Manager.BundleManager.ConfirmOperation | bdapt/bundle_manager.py:54-64 | Nothing when the user typed a yes; `KeyboardInterrupt` passed on when `input()` was interrupted; exit 130 otherwise. Records the prompt. |
| Manager.BundleManager.PreviewAndConfirm | bdapt/bundle_manager.py:82-86 | Has exactly the preview-and-prompt run. |
| Manager.BundleManager.InstallMetapackage | bdapt/bundle_manager.py:66-107 | Has exactly the install run, and the store becomes what that run saves. The live directories are unchanged, except that an interrupted build leaves its own. |
| Manager.BundleManager.SaveAndInstall | bdapt/bundle_manager.py:89-107 | Saves the store with the bundle under its name, then installs. Completes iff the install passed, and exits with 130 otherwise. |
| Manager.BundleManager.RemoveMetapackage | bdapt/bundle_manager.py:109-148 | Has exactly the removal run, and the store becomes what it saves. |
| Manager.BundleManager.InstallAndSave | bdapt/bundle_manager.py:175-180 | The install followed on completion by the save of the storage loaded before it. |
| Manager.BundleManager.Create | bdapt/bundle_manager.py:150-182 | Has exactly the create run. |
| Manager.BundleManager.Add | bdapt/bundle_manager.py:184-216 | Has exactly the add run. |
| Manager.BundleManager.Remove | bdapt/bundle_manager.py:218-256 | Has exactly the remove run. |
| Manager.BundleManager.Delete | bdapt/bundle_manager.py:258-280 | Has exactly the delete run. |
| Manager.BundleManager.Sync | bdapt/bundle_manager.py:282-302 | Has exactly the sync run, and the store keeps its content. |
| Legacy.Wrap | bdapt/bundle.py:238-240 | A `BundleError` is re-raised with the context prefixed. An interrupt and a normal return pass through unchanged. |
| Legacy.SyncMetapackageEffects | bdapt/bundle.py:121-166 | The sync never saves. It installs only the built .deb, with `-y` when non-interactive, exactly when the build got that far, and leaves no directory (an interrupted build included). It returns normally iff the install succeeded, and is interrupted iff the build or the install was. |
| Legacy.SyncThenSaveEffects | bdapt/bundle.py:230-237 | The store is written iff the operation completes, only with the new store, and only after a successful install. An interrupt of the build or the install comes out unwrapped. No directory is left. |
| Legacy.CreateEffects | bdapt/bundle.py:206-240 | An invalid name or an existing bundle raises before any effect. Otherwise the new bundle is stored exactly when its metapackage was installed, and after it. |
| Legacy.AddEffects | bdapt/bundle.py:242-268 | A missing bundle raises before any effect. Otherwise the extended bundle is stored exactly when installed, and after it. |
| Legacy.RemoveEffects | bdapt/bundle.py:270-353 | A missing bundle raises before any effect. Otherwise the shrunk bundle is stored exactly when installed, and after it. The operation completes iff that happened and no interrupt cut the leftovers' `apt remove` short; a failing `apt remove` does not make it fail. |
| Legacy.RemoveTakesLeftovers | bdapt/bundle.py:308-346 | The only package removal is of the leftovers. Unless forced, it never includes a package another bundle lists, and it removes nothing when the packages are kept. |
| Legacy.DeleteEffects | bdapt/bundle.py:355-416 | A missing bundle raises before any effect. Otherwise only `bdapt-<name>` is removed, and the bundle leaves the store exactly when that succeeded, after it. The autoremove hint is given iff some package is neither shared nor manual (or the removal is forced) and packages are not kept. |
| Legacy.SyncEffects | bdapt/bundle.py:418-437 | A missing bundle raises; the store is never written. |
| Legacy.LegacyManager.constructor | bdapt/bundle.py:26-36 | The manager acts on the given host. |
| Legacy.LegacyManager.SyncMetapackage | bdapt/bundle.py:121-166 | Has exactly the sync run; the store and the live directories are unchanged. |
| Legacy.LegacyManager.Create | bdapt/bundle.py:206-240 | Has exactly the create run. |
| Legacy.LegacyManager.Add | bdapt/bundle.py:242-268 | Has exactly the add run. |
| Legacy.LegacyManager.Remove | bdapt/bundle.py:270-353 | Has exactly the remove run. |
| Legacy.LegacyManager.RemoveLeftovers | bdapt/bundle.py:330-346 | Runs `apt remove` of the leftovers when there are any. Reports an interrupt iff that removal was interrupted. |
| Legacy.LegacyManager.Delete | bdapt/bundle.py:355-416 | Has exactly the delete run, including the autoremove hint. |
| Legacy.LegacyManager.Sync | bdapt/bundle.py:418-437 | Has exactly the sync run. |
| Legacy.LegacyManager.Show | bdapt/bundle.py:453-476 | Returns the stored bundle, or the does-not-exist error for a missing one (tests/test_bundle.py:115-117). |

## Left out

- Console output (rich tables, colours, messages), `list_bundles`, and the formatting of `show_bundle` are not modelled; `Show` returns the bundle it would print.
- `bdapt/cli.py` and `bdapt/rootlock.py` are not part of this model: the command-line layer and the root check sit outside the managers.
- JSON encoding, file locking, the store's `StorageError` on unreadable or unwritable files, and `model_validate` are not modelled. The store is a value that `load` returns as last saved. `save` writes with `sort_keys=True` (bdapt/storage.py:74-79), so a reloaded bundle's packages come back in sorted key order; the model keeps insertion order, so the Depends line built after a reload may list the packages in a different order than the source's.
- `bdapt/models.py` is not part of this model. `PackageSpec`, `Bundle`, `to_apt_string` and `get_depends_string` are modelled from their uses and from `tests/test_models.py`.
- `bdapt/apt_operations.py` (`run_apt_dry_run`, `run_apt_install`, `run_command`) is not part of this model. Their outcomes are inputs in `World`, and an apt-mark that cannot be found is a `None` output.
- `datetime.now()` is an input string: `World.now`.
- `MetapackageContext` is not part of this model. It stands for the build plus the removal of the temporary directory on exit, which `BundleManager.InstallMetapackage` performs directly.
- `bdapt/exceptions.py` is not part of this model. The error classes are datatypes, and a `FileNotFoundError` from a missing command is folded into the command failure.
- `PyStr.Lower` folds ASCII letters only; Python's Unicode case mapping is not modelled.
- An end of input at a prompt (`EOFError` from `input()`) is not modelled: an answer is a typed line or an interrupt.
- The apt-mark queries are not recorded on the trace; only their answers are used.
- A `KeyboardInterrupt` during `which equivs-build` (bdapt/bundle.py:58-66) or during `apt-mark showmanual` (bdapt/bundle.py:177-186) is not modelled: the equivs check and the apt-mark answer are plain inputs.
- Control.LegacyControlText, Control.ControlsAgree: the rendered text is proved equal to the layout only for single-line values (dedent changes multi-line ones); `Control.Text` records the control file by the values it is rendered from.
- Control.MetapackageControlText: only stated for descriptions that do not end in whitespace, because `strip` would cut that whitespace too.
