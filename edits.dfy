/**
 * The loops both bundle managers run over a bundle's package dict: setting
 * every listed package to the empty spec, and deleting listed packages
 * (skipping absent ones in the first manager, crashing on them in the
 * second).
 */
module Edits {
  import opened Bundles

  /** `for pkg in packages: bundle.packages[pkg] = PackageSpec()`. */
  method SetEmptySpecs(m: PackageMap, pkgs: seq<string>) returns (r: PackageMap)
    ensures r == WithEmptySpecs(m, pkgs)
  {
    r := m;
    var i := 0;
    while i < |pkgs|
      invariant 0 <= i <= |pkgs|
      invariant r == WithEmptySpecs(m, pkgs[..i])
    {
      assert pkgs[..i + 1][..i] == pkgs[..i];
      r := Put(r, pkgs[i], EmptySpec);
      i := i + 1;
    }
    assert pkgs[..i] == pkgs;
  }

  /**
   * The first manager's loop: a listed package that is in the bundle is
   * deleted, one that is not (or no longer) is only warned about.
   */
  method RemoveListed(m: PackageMap, pkgs: seq<string>) returns (r: PackageMap)
    ensures r == Without(m, pkgs)
  {
    r := m;
    var i := 0;
    assert r == Without(m, pkgs[..i]) by {
      WithoutNone(m, []);
      assert pkgs[..0] == [];
    }
    while i < |pkgs|
      invariant 0 <= i <= |pkgs|
      invariant r == Without(m, pkgs[..i])
    {
      var pkg := pkgs[i];
      if Get(r, pkg).Some? {
        r := Delete(r, pkg);
      }
      assert r == Without(m, pkgs[..i + 1]) by {
        WithoutStep(m, pkgs, i);
      }
      i := i + 1;
    }
    assert pkgs[..i] == pkgs;
  }

  /** `del bundle.packages[pkg]` either succeeded for every package or raised `KeyError(key)`. */
  datatype Deletion = Deleted(packages: PackageMap) | KeyError(key: string)

  /** Every listed package is in `m`, and none is listed twice. */
  predicate DeletableOnce(m: PackageMap, pkgs: seq<string>) {
    forall i :: 0 <= i < |pkgs| ==> pkgs[i] in Names(m) && pkgs[i] !in pkgs[..i]
  }

  /**
   * From position `i` on, the first listed package that `del` would not
   * find: one not in `m`, or one listed earlier; `|pkgs|` when there is none.
   */
  function FirstUndeletable(m: PackageMap, pkgs: seq<string>, i: nat): (k: nat)
    requires i <= |pkgs|
    ensures i <= k <= |pkgs|
    ensures forall j :: i <= j < k ==> pkgs[j] in Names(m) && pkgs[j] !in pkgs[..j]
    ensures k < |pkgs| ==> pkgs[k] !in Names(m) || pkgs[k] in pkgs[..k]
    decreases |pkgs| - i
  {
    if i == |pkgs| then i
    else if pkgs[i] !in Names(m) || pkgs[i] in pkgs[..i] then i
    else FirstUndeletable(m, pkgs, i + 1)
  }

  /** The deletions all succeed exactly when no listed package is undeletable. */
  lemma DeletableOnceFirst(m: PackageMap, pkgs: seq<string>)
    ensures DeletableOnce(m, pkgs) <==> FirstUndeletable(m, pkgs, 0) == |pkgs|
  {
  }

  lemma DeletableSnoc(m: PackageMap, pkgs: seq<string>, i: nat)
    requires i < |pkgs| && DeletableOnce(m, pkgs[..i])
    requires pkgs[i] in Names(m) && pkgs[i] !in pkgs[..i]
    ensures DeletableOnce(m, pkgs[..i + 1])
  {
    var p := pkgs[..i + 1];
    forall j | 0 <= j < |p|
      ensures p[j] in Names(m) && p[j] !in p[..j]
    {
      assert p[..j] == pkgs[..j];
      if j < i {
        assert pkgs[..i][..j] == pkgs[..j];
        assert pkgs[..i][j] == pkgs[j];
      }
    }
  }

  /**
   * The second manager's loop: `del bundle.packages[pkg]` for every listed
   * package; the first that is absent (never there, or deleted already
   * because it is listed twice) raises `KeyError`.
   */
  method DeleteAll(m: PackageMap, pkgs: seq<string>) returns (r: Deletion)
    ensures r.Deleted? <==> DeletableOnce(m, pkgs)
    ensures r.Deleted? ==> r.packages == Without(m, pkgs)
    ensures r.KeyError? ==> r.key == pkgs[FirstUndeletable(m, pkgs, 0)]
  {
    var cur := m;
    var i := 0;
    assert cur == Without(m, pkgs[..i]) by {
      WithoutNone(m, []);
      assert pkgs[..0] == [];
    }
    while i < |pkgs|
      invariant 0 <= i <= |pkgs|
      invariant DeletableOnce(m, pkgs[..i])
      invariant cur == Without(m, pkgs[..i])
      invariant FirstUndeletable(m, pkgs, i) == FirstUndeletable(m, pkgs, 0)
    {
      var pkg := pkgs[i];
      if Get(cur, pkg).None? {
        assert pkg !in Names(m) || pkg in pkgs[..i] by {
          GetWithout(m, pkgs[..i], pkg);
        }
        assert !DeletableOnce(m, pkgs) by {
          assert pkgs[i] == pkg && pkgs[..i] == pkgs[..i];
        }
        return KeyError(pkg);
      }
      cur := Delete(cur, pkg);
      assert cur == Without(m, pkgs[..i + 1]) by {
        WithoutStep(m, pkgs, i);
      }
      assert DeletableOnce(m, pkgs[..i + 1]) by {
        DeletableSnoc(m, pkgs, i);
      }
      i := i + 1;
    }
    assert pkgs[..i] == pkgs;
    r := Deleted(cur);
  }
}
