/**
 * What the bundle managers do to the world outside their own data: the
 * bundle store (a file whose `load` returns what the last `save` wrote, and
 * an empty store before any save), temporary directories, and the apt,
 * apt-mark and equivs-build commands. The commands and the user's answers
 * are not computed here: their outcomes arrive in a `World` value, and
 * every effect is appended to a ghost trace so that the order of saves,
 * prompts and installs can be stated.
 */
module Effects {
  import opened Optional
  import opened PyStr
  import opened Bundles
  import opened Control

  /** What a failed command reports: the message and the captured stderr and stdout. */
  datatype CmdFailure = CmdFailure(message: string, stderr: string, stdout: string)

  /** `equivs-build` in a fresh temporary directory; it can also be cut short by a KeyboardInterrupt. */
  datatype BuildResult = Built | BuildFailed(failure: CmdFailure) | NoDeb | BuildInterrupted

  /** `run_apt_dry_run`: a change summary, None (nothing to change), a CommandError or a KeyboardInterrupt. */
  datatype DryRunResult =
    | Changes(summary: string)
    | NoChanges
    | DryRunFailed(failure: CmdFailure)
    | DryRunInterrupted

  /** What `input()` gives at a `[y/N]` prompt: the typed line, or a KeyboardInterrupt (Ctrl-C). */
  datatype Answer = Typed(line: string) | PromptInterrupted

  /** The command that makes the change: success, a failure, or a KeyboardInterrupt. */
  datatype ApplyResult = ApplyOk | ApplyFailed(failure: CmdFailure) | ApplyInterrupted

  /**
   * The outcomes of everything outside the program for one operation: the
   * timestamp `datetime.now()` formats to, whether `which equivs-build`
   * succeeds, the build, the dry-run, the user's answer at the prompt, the apply step, `apt-mark showmanual <pkg>`'s standard output
   * per package (None when apt-mark itself cannot be found), and the
   * `apt remove` of packages no bundle needs any more.
   */
  datatype World = World(
    now: string,
    equivsInstalled: bool,
    build: BuildResult,
    dryRun: DryRunResult,
    response: Answer,
    apply: ApplyResult,
    aptMark: Option<string -> string>,
    cleanup: ApplyResult)

  /** What apt is asked about: the built .deb in a temporary directory, or a package argument. */
  datatype Target = Deb(dir: nat) | Spec(spec: string)

  /** The apt commands that change the system. */
  datatype AptCall =
    | Install(target: Target)                                  // run_apt_install([target])
    | InstallDeb(dir: nat, assumeYes: bool)                    // sudo apt install <deb> [-y]
    | RemovePackages(packages: seq<string>, assumeYes: bool)   // sudo apt remove <packages> [-y]

  datatype Event =
    | Saved(storage: Storage)
    | TempCreated(dir: nat)
    | TempRemoved(dir: nat)
    | BuildRan(dir: nat, control: ControlFile)
    | DryRan(target: Target)
    | Asked(summary: string, accepted: bool)
    | Applied(call: AptCall, succeeded: bool)

  /** What an operation returns or raises, and the effects it has on the way, in order. */
  datatype Run<T> = Run(result: T, events: seq<Event>)

  /** `response.strip().lower() in ['y', 'yes']`: the confirmation prompt's acceptance rule. */
  predicate Accepts(response: string) {
    Lower(Strip(response)) in ["y", "yes"]
  }

  /** The prompt gets a line, and the line is a yes. */
  predicate Confirms(a: Answer) {
    a.Typed? && Accepts(a.line)
  }

  /** Surrounding whitespace (the newline of the typed line, say) does not change the answer. */
  lemma AcceptsPadded(pre: string, s: string, post: string)
    requires AllSpace(pre) && AllSpace(post)
    ensures Accepts(pre + s + post) == Accepts(s)
  {
    StripPadded(pre, s, post);
  }

  /**
   * The answers the prompt takes as a yes: "y" or "yes" in any mix of
   * cases once the surrounding whitespace is gone; an empty line is a no.
   */
  lemma AcceptsExactly(response: string)
    ensures Accepts(response) <==>
      var t := Strip(response);
      || (|t| == 1 && t[0] in "yY")
      || (|t| == 3 && t[0] in "yY" && t[1] in "eE" && t[2] in "sS")
  {
    var t := Strip(response);
    var l := Lower(t);
    assert forall c: char :: LowerChar(c) == 'y' <==> c in "yY";
    assert forall c: char :: LowerChar(c) == 'e' <==> c in "eE";
    assert forall c: char :: LowerChar(c) == 's' <==> c in "sS";
    assert l == "y" <==> |t| == 1 && LowerChar(t[0]) == 'y';
    assert l == "yes" <==> |t| == 3 && LowerChar(t[0]) == 'y' && LowerChar(t[1]) == 'e' && LowerChar(t[2]) == 's';
  }

  /** Some event of the run saved the store. */
  predicate Saves(run: seq<Event>) {
    exists i :: 0 <= i < |run| && run[i].Saved?
  }

  /** Some event of the run changed the system through apt. */
  predicate Applies(run: seq<Event>) {
    exists i :: 0 <= i < |run| && run[i].Applied?
  }

  /** Every save of the run writes `s`. */
  predicate SavesOnly(run: seq<Event>, s: Storage) {
    forall i :: 0 <= i < |run| && run[i].Saved? ==> run[i].storage == s
  }

  /** Every apt change of the run comes after a save of the store. */
  predicate SavedBeforeApplied(run: seq<Event>) {
    forall j :: 0 <= j < |run| && run[j].Applied? ==> exists i :: 0 <= i < j && run[i].Saved?
  }

  /** An apt change that succeeded. */
  predicate AppliedOk(e: Event) {
    e.Applied? && e.succeeded
  }

  /** Every save of the run comes after an apt change that succeeded. */
  predicate AppliedBeforeSaved(run: seq<Event>) {
    forall j :: 0 <= j < |run| && run[j].Saved? ==> exists i :: 0 <= i < j && AppliedOk(run[i])
  }

  lemma SavesConcat(a: seq<Event>, b: seq<Event>)
    ensures Saves(a + b) <==> Saves(a) || Saves(b)
  {
    if Saves(a + b) {
      var i :| 0 <= i < |a + b| && (a + b)[i].Saved?;
      if i < |a| { assert a[i] == (a + b)[i]; } else { assert b[i - |a|] == (a + b)[i]; }
    }
    if Saves(a) {
      var i :| 0 <= i < |a| && a[i].Saved?;
      assert (a + b)[i] == a[i];
    }
    if Saves(b) {
      var i :| 0 <= i < |b| && b[i].Saved?;
      assert (a + b)[|a| + i] == b[i];
    }
  }

  lemma AppliesConcat(a: seq<Event>, b: seq<Event>)
    ensures Applies(a + b) <==> Applies(a) || Applies(b)
  {
    if Applies(a + b) {
      var i :| 0 <= i < |a + b| && (a + b)[i].Applied?;
      if i < |a| { assert a[i] == (a + b)[i]; } else { assert b[i - |a|] == (a + b)[i]; }
    }
    if Applies(a) {
      var i :| 0 <= i < |a| && a[i].Applied?;
      assert (a + b)[i] == a[i];
    }
    if Applies(b) {
      var i :| 0 <= i < |b| && b[i].Applied?;
      assert (a + b)[|a| + i] == b[i];
    }
  }

  lemma SavesOnlyConcat(a: seq<Event>, b: seq<Event>, s: Storage)
    ensures SavesOnly(a + b, s) <==> SavesOnly(a, s) && SavesOnly(b, s)
  {
    if SavesOnly(a, s) && SavesOnly(b, s) {
      forall i | 0 <= i < |a + b| && (a + b)[i].Saved? ensures (a + b)[i].storage == s {
        if i >= |a| { assert (a + b)[i] == b[i - |a|]; }
      }
    }
    if SavesOnly(a + b, s) {
      forall i | 0 <= i < |a| && a[i].Saved? ensures a[i].storage == s {
        assert (a + b)[i] == a[i];
      }
      forall i | 0 <= i < |b| && b[i].Saved? ensures b[i].storage == s {
        assert (a + b)[|a| + i] == b[i];
      }
    }
  }

  /** A run is ordered when its parts are, and a save in the first part covers every apt change in the second. */
  lemma OrderConcat(a: seq<Event>, b: seq<Event>)
    ensures SavedBeforeApplied(a) && (Saves(a) || SavedBeforeApplied(b)) ==> SavedBeforeApplied(a + b)
    ensures AppliedBeforeSaved(a) && (AppliedBeforeSaved(b) || exists i :: 0 <= i < |a| && AppliedOk(a[i]))
      ==> AppliedBeforeSaved(a + b)
  {
    var ab := a + b;
    if SavedBeforeApplied(a) && (Saves(a) || SavedBeforeApplied(b)) {
      forall j | 0 <= j < |ab| && ab[j].Applied? ensures exists i :: 0 <= i < j && ab[i].Saved? {
        if j < |a| {
          var i :| 0 <= i < j && a[i].Saved?;
          assert ab[i] == a[i];
        } else if Saves(a) {
          var i :| 0 <= i < |a| && a[i].Saved?;
          assert ab[i] == a[i];
        } else {
          assert b[j - |a|] == ab[j];
          var i :| 0 <= i < j - |a| && b[i].Saved?;
          assert ab[|a| + i] == b[i];
        }
      }
    }
    if AppliedBeforeSaved(a) && (AppliedBeforeSaved(b) || exists i :: 0 <= i < |a| && AppliedOk(a[i])) {
      forall j | 0 <= j < |ab| && ab[j].Saved? ensures exists i :: 0 <= i < j && AppliedOk(ab[i]) {
        if j < |a| {
          var i :| 0 <= i < j && AppliedOk(a[i]);
          assert ab[i] == a[i];
        } else if exists i :: 0 <= i < |a| && AppliedOk(a[i]) {
          var i :| 0 <= i < |a| && AppliedOk(a[i]);
          assert ab[i] == a[i];
        } else {
          assert b[j - |a|] == ab[j];
          var i :| 0 <= i < j - |a| && AppliedOk(b[i]);
          assert ab[|a| + i] == b[i];
        }
      }
    }
  }

  /** Saving and then applying, after a prefix that did neither, orders the two and saves only `st`. */
  lemma SaveThenApply(pre: seq<Event>, st: Storage, call: AptCall, ok: bool, post: seq<Event>)
    requires !Saves(pre) && !Applies(pre) && !Saves(post)
    ensures var run := pre + [Saved(st), Applied(call, ok)] + post;
      Saves(run) && Applies(run) && SavesOnly(run, st) && SavedBeforeApplied(run)
  {
    var run := pre + [Saved(st), Applied(call, ok)] + post;
    var n := |pre|;
    assert run[n].Saved? && run[n + 1].Applied?;
    assert forall i :: 0 <= i < n ==> run[i] == pre[i];
    assert forall i :: n + 2 <= i < |run| ==> run[i] == post[i - n - 2];
  }

  /**
   * A preview and prompt, one apt change, and possibly a save of `st`:
   * it applies `call` and nothing else, saves exactly when asked to, and
   * leaves the temporary directories alone.
   */
  lemma AskThenApply(ask: seq<Event>, call: AptCall, ok: bool, save: bool, st: Storage)
    requires forall i :: 0 <= i < |ask| ==> ask[i].DryRan? || ask[i].Asked?
    ensures var run := ask + [Applied(call, ok)] + (if save then [Saved(st)] else []);
      && (Saves(run) <==> save) && Applies(run) && SavesOnly(run, st) && NoTemp(run)
      && (forall i :: 0 <= i < |run| && run[i].Applied? ==> run[i].call == call)
  {
    var run := ask + [Applied(call, ok)] + (if save then [Saved(st)] else []);
    var n := |ask|;
    assert forall i :: 0 <= i < n ==> run[i] == ask[i];
    assert run[n] == Applied(call, ok);
    assert forall i :: n < i < |run| ==> run[i] == Saved(st);
    if save {
      assert run[n + 1].Saved?;
    }
  }

  /**
   * The temporary directories still there after the run's events, when
   * `live` were there before it: a directory counts from its creation to
   * its removal.
   */
  function LeftOver(live: set<nat>, run: seq<Event>): set<nat>
    decreases run
  {
    if run == [] then live
    else
      var next := match run[0]
        case TempCreated(d) => live + {d}
        case TempRemoved(d) => live - {d}
        case _ => live;
      LeftOver(next, run[1..])
  }

  lemma {:induction false} LeftOverConcat(live: set<nat>, a: seq<Event>, b: seq<Event>)
    ensures LeftOver(live, a + b) == LeftOver(LeftOver(live, a), b)
    decreases a
  {
    if a == [] {
      assert a + b == b;
    } else {
      assert (a + b)[1..] == a[1..] + b;
      var next := match a[0]
        case TempCreated(d) => live + {d}
        case TempRemoved(d) => live - {d}
        case _ => live;
      LeftOverConcat(next, a[1..], b);
    }
  }

  /** The run neither creates nor removes a temporary directory. */
  predicate NoTemp(run: seq<Event>) {
    forall i :: 0 <= i < |run| ==> !run[i].TempCreated? && !run[i].TempRemoved?
  }

  lemma {:induction false} LeftOverNoTemp(live: set<nat>, run: seq<Event>)
    requires NoTemp(run)
    ensures LeftOver(live, run) == live
    decreases run
  {
    if run != [] {
      assert NoTemp(run[1..]) by {
        assert forall i :: 0 <= i < |run| - 1 ==> run[1..][i] == run[i + 1];
      }
      LeftOverNoTemp(live, run[1..]);
    }
  }

  /** A directory created, used by events that leave the temporary directories alone, and removed. */
  lemma LeftOverBracket(live: set<nat>, d: nat, mid: seq<Event>, post: seq<Event>)
    requires NoTemp(mid) && NoTemp(post)
    ensures LeftOver(live, [TempCreated(d)] + mid) == live + {d}
    ensures LeftOver(live, [TempCreated(d)] + mid + [TempRemoved(d)] + post) == live - {d}
  {
    LeftOverConcat(live, [TempCreated(d)], mid);
    LeftOverNoTemp(live + {d}, mid);
    LeftOverConcat(live, [TempCreated(d)] + mid, [TempRemoved(d)] + post);
    LeftOverConcat(live + {d}, [TempRemoved(d)], post);
    LeftOverNoTemp(live + {d} - {d}, post);
    assert [TempCreated(d)] + mid + [TempRemoved(d)] + post == [TempCreated(d)] + mid + ([TempRemoved(d)] + post);
  }

  /**
   * A run that creates directory `d`, does what `mid` does, then saves `st`
   * and applies `call` when `go` holds, and removes `d`: it saves and
   * applies exactly when `go` holds, saves before applying, and leaves no
   * directory behind.
   */
  lemma Bracketed(live: set<nat>, d: nat, mid: seq<Event>, go: bool, st: Storage, call: AptCall, ok: bool)
    requires d !in live && NoTemp(mid) && !Saves(mid) && !Applies(mid)
    ensures var s := if go then [Saved(st), Applied(call, ok)] else [];
      var run := [TempCreated(d)] + mid + s + [TempRemoved(d)];
      && (Saves(run) <==> go) && (Applies(run) <==> go)
      && SavesOnly(run, st) && SavedBeforeApplied(run)
      && LeftOver(live, run) == live
  {
    var s := if go then [Saved(st), Applied(call, ok)] else [];
    var pre := [TempCreated(d)] + mid;
    assert NoTemp(mid + s);
    LeftOverBracket(live, d, mid + s, []);
    assert [TempCreated(d)] + mid + s + [TempRemoved(d)] == [TempCreated(d)] + (mid + s) + [TempRemoved(d)] + [];
    SavesConcat([TempCreated(d)], mid);
    AppliesConcat([TempCreated(d)], mid);
    if go {
      SaveThenApply(pre, st, call, ok, [TempRemoved(d)]);
    } else {
      assert pre + s + [TempRemoved(d)] == pre + [TempRemoved(d)];
      SavesConcat(pre, [TempRemoved(d)]);
      AppliesConcat(pre, [TempRemoved(d)]);
    }
  }

  /**
   * The host the managers run on. `bundles` is the content of the bundle
   * store, `nextTemp` names the next temporary directory, `live` holds the
   * temporary directories created and not yet removed, and `trace` every
   * effect in order.
   */
  class System {
    var bundles: Storage
    var nextTemp: nat
    ghost var live: set<nat>
    ghost var trace: seq<Event>

    ghost predicate Valid()
      reads this
    {
      forall d :: d in live ==> d < nextTemp
    }

    /** A host whose store has never been saved: `load` gives the empty store. */
    constructor ()
      ensures Valid() && bundles == map[] && live == {} && trace == []
    {
      bundles := map[];
      nextTemp := 0;
      live := {};
      trace := [];
    }

    /** `store.load()`. */
    method Load() returns (s: Storage)
      ensures s == bundles
    {
      s := bundles;
    }

    /** `store.save(storage)`. */
    method Save(s: Storage)
      modifies this
      ensures bundles == s && nextTemp == old(nextTemp) && live == old(live)
      ensures trace == old(trace) + [Saved(s)]
    {
      bundles := s;
      trace := trace + [Saved(s)];
    }

    /** `tempfile.mkdtemp()`: a directory that no live one shares. */
    method MakeTemp() returns (d: nat)
      requires Valid()
      modifies this
      ensures Valid() && bundles == old(bundles)
      ensures d == old(nextTemp) && nextTemp == old(nextTemp) + 1
      ensures d !in old(live) && live == old(live) + {d}
      ensures trace == old(trace) + [TempCreated(d)]
    {
      d := nextTemp;
      nextTemp := nextTemp + 1;
      live := live + {d};
      trace := trace + [TempCreated(d)];
    }

    /** `shutil.rmtree(d, ignore_errors=True)`: removing a directory that is gone already is no error. */
    method RemoveTemp(d: nat)
      requires Valid()
      modifies this
      ensures Valid() && bundles == old(bundles) && nextTemp == old(nextTemp)
      ensures live == old(live) - {d}
      ensures trace == old(trace) + [TempRemoved(d)]
    {
      live := live - {d};
      trace := trace + [TempRemoved(d)];
    }

    /** A command ran or the user answered: the event goes on the trace and nothing else changes. */
    method Note(e: Event)
      requires !e.Saved? && !e.TempCreated? && !e.TempRemoved?
      modifies this`trace
      ensures trace == old(trace) + [e]
    {
      trace := trace + [e];
    }
  }
}
