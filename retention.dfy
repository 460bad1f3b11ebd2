/**
 * Which packages the first bundle manager takes off the system after
 * removing them from a bundle or deleting the bundle: a package is kept when
 * another bundle still lists it or when apt-mark reports it as manually
 * installed, unless the removal is forced.
 */
module Retention {
  import opened Optional
  import opened PyStr
  import opened Bundles

  /** The packages listed by some bundle other than `exclude`. */
  function OtherPackages(storage: Storage, exclude: string): set<string> {
    set n, p | n in storage && n != exclude && p in Names(storage[n].packages) :: p
  }

  /** Replacing the excluded bundle does not change what the others list. */
  lemma OtherPackagesIgnoresExcluded(storage: Storage, exclude: string, b: Bundle)
    ensures OtherPackages(storage[exclude := b], exclude) == OtherPackages(storage, exclude)
    ensures OtherPackages(storage - {exclude}, exclude) == OtherPackages(storage, exclude)
  {
    var s1 := storage[exclude := b];
    var s2 := storage - {exclude};
    assert forall n :: n != exclude ==> (n in s1 <==> n in storage) && (n in s1 ==> s1[n] == storage[n]);
    assert forall n :: n != exclude ==> (n in s2 <==> n in storage) && (n in s2 ==> s2[n] == storage[n]);
  }

  /** A package is in another bundle exactly when some other bundle's dict has it as a key. */
  lemma OtherPackagesMember(storage: Storage, exclude: string, p: string)
    ensures p in OtherPackages(storage, exclude) <==>
      exists n :: n in storage && n != exclude && Get(storage[n].packages, p).Some?
  {
  }

  /**
   * `_get_packages_in_other_bundles`: the union of the package keys of every
   * stored bundle whose name is not `exclude`.
   */
  method PackagesInOtherBundles(storage: Storage, exclude: string) returns (packages: set<string>)
    ensures packages == OtherPackages(storage, exclude)
  {
    packages := {};
    var done: set<string> := {};
    while done != storage.Keys
      invariant done <= storage.Keys
      invariant packages == set n, p | n in done && n != exclude && p in Names(storage[n].packages) :: p
      decreases |storage.Keys - done|
    {
      var n :| n in storage.Keys - done;
      if n != exclude {
        packages := packages + set p | p in Names(storage[n].packages);
      }
      done := done + {n};
    }
  }

  /**
   * `_is_package_manually_installed`: `apt-mark showmanual <pkg>` is run
   * without checking its exit status and the package must be one of the
   * lines of its stripped output; when apt-mark cannot be found the answer
   * is no.
   */
  predicate ManuallyInstalled(pkg: string, aptMark: Option<string -> string>) {
    aptMark.Some? && pkg in Split(Strip(aptMark.value(pkg)), '\n')
  }

  /** Lines that each hold one word: non-empty and without whitespace. */
  predicate Words(lines: seq<string>) {
    forall i :: 0 <= i < |lines| ==> lines[i] != [] && forall k :: 0 <= k < |lines[i]| ==> !IsSpace(lines[i][k])
  }

  /**
   * When apt-mark prints one package name per line, the check is plain
   * membership in the printed list.
   */
  lemma ManuallyInstalledListing(pkg: string, aptMark: Option<string -> string>, lines: seq<string>)
    requires aptMark.Some? && |lines| >= 1 && Words(lines)
    requires aptMark.value(pkg) == Join("\n", lines) + "\n"
    ensures ManuallyInstalled(pkg, aptMark) <==> pkg in lines
  {
    var out := aptMark.value(pkg);
    StripListing(lines);
    assert Strip(out) == Join("\n", lines);
    assert forall i :: 0 <= i < |lines| ==> '\n' !in lines[i] by {
      assert IsSpace('\n');
    }
    SplitJoin(lines, '\n');
  }

  /** The final newline of a listing is stripped and nothing else is. */
  lemma StripListing(lines: seq<string>)
    requires |lines| >= 1 && Words(lines)
    ensures Strip(Join("\n", lines) + "\n") == Join("\n", lines)
  {
    var j := Join("\n", lines);
    var first, last := lines[0], lines[|lines| - 1];
    assert first != [] && !IsSpace(first[0]);
    assert last != [] && !IsSpace(last[|last| - 1]);
    JoinFirst("\n", lines);
    JoinLast("\n", lines);
    StripNewlines("", j, "\n");
    assert "" + j + "\n" == j + "\n";
  }

  /** Empty output (nothing is marked manual) makes only the empty name manual. */
  lemma ManuallyInstalledSilent(pkg: string, aptMark: Option<string -> string>)
    requires aptMark.Some? && AllSpace(aptMark.value(pkg))
    ensures ManuallyInstalled(pkg, aptMark) <==> pkg == []
  {
    StripEmpty(aptMark.value(pkg));
  }

  /** The loop body of the removal selection: is `pkg` taken off the system? */
  predicate Removable(pkg: string, others: set<string>, force: bool, aptMark: Option<string -> string>) {
    force || (pkg !in others && !ManuallyInstalled(pkg, aptMark))
  }

  /** The packages to remove, in the order asked for (a package asked for twice appears twice). */
  function RemovalList(pkgs: seq<string>, others: set<string>, force: bool, aptMark: Option<string -> string>): seq<string> {
    if pkgs == [] then []
    else
      var init := RemovalList(pkgs[..|pkgs| - 1], others, force, aptMark);
      var last := pkgs[|pkgs| - 1];
      if Removable(last, others, force, aptMark) then init + [last] else init
  }

  /** A package is removed exactly when it was asked for and neither another bundle nor the user holds it. */
  lemma {:induction false} RemovalListMembers(pkgs: seq<string>, others: set<string>, force: bool, aptMark: Option<string -> string>)
    ensures |RemovalList(pkgs, others, force, aptMark)| <= |pkgs|
    ensures forall p :: p in RemovalList(pkgs, others, force, aptMark) <==>
      p in pkgs && Removable(p, others, force, aptMark)
  {
    if pkgs != [] {
      var init := pkgs[..|pkgs| - 1];
      RemovalListMembers(init, others, force, aptMark);
      assert pkgs == init + [pkgs[|pkgs| - 1]];
    }
  }

  /** A forced removal takes every package asked for, in order. */
  lemma {:induction false} RemovalListForced(pkgs: seq<string>, others: set<string>, aptMark: Option<string -> string>)
    ensures RemovalList(pkgs, others, true, aptMark) == pkgs
  {
    if pkgs != [] {
      RemovalListForced(pkgs[..|pkgs| - 1], others, aptMark);
      assert pkgs == pkgs[..|pkgs| - 1] + [pkgs[|pkgs| - 1]];
    }
  }

  /** Nothing another bundle lists is removed unless the removal is forced. */
  lemma RemovalListSparesShared(pkgs: seq<string>, others: set<string>, aptMark: Option<string -> string>, p: string)
    requires p in others
    ensures p !in RemovalList(pkgs, others, false, aptMark)
  {
    RemovalListMembers(pkgs, others, false, aptMark);
  }

  /**
   * The selection loop of `remove_packages` and `delete_bundle`: every
   * package is kept when another bundle lists it or apt-mark reports it as
   * manual, unless forced, and appended to the removal list otherwise.
   */
  method SelectRemovable(pkgs: seq<string>, others: set<string>, force: bool, aptMark: Option<string -> string>)
    returns (remove: seq<string>)
    ensures remove == RemovalList(pkgs, others, force, aptMark)
  {
    remove := [];
    var i := 0;
    while i < |pkgs|
      invariant 0 <= i <= |pkgs|
      invariant remove == RemovalList(pkgs[..i], others, force, aptMark)
    {
      var pkg := pkgs[i];
      assert pkgs[..i + 1][..i] == pkgs[..i];
      if pkg in others && !force {
        i := i + 1;
        continue;
      }
      var manual := ManuallyInstalled(pkg, aptMark);
      if manual && !force {
        i := i + 1;
        continue;
      }
      remove := remove + [pkg];
      i := i + 1;
    }
    assert pkgs[..i] == pkgs;
  }
}
