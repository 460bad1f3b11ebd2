/**
 * The bundle data model: package specs, a bundle's package dict (a Python
 * dict, so its keys are distinct and keep their insertion order, which the
 * Depends line makes visible), bundles, the stored name -> bundle map, and
 * the name of the metapackage that stands for a bundle on the system.
 */
module Bundles {
  import opened Optional
  import opened PyStr

  /** `PackageSpec`: an optional version constraint, handed to apt verbatim. */
  datatype PackageSpec = PackageSpec(version: Option<string>)

  /** `PackageSpec()`, the spec every package added from the command line gets. */
  const EmptySpec := PackageSpec(None)

  datatype Entry = Entry(name: string, spec: PackageSpec)

  predicate DistinctNames(s: seq<Entry>) {
    forall i, j :: 0 <= i < j < |s| ==> s[i].name != s[j].name
  }

  /** `Bundle.packages`: package name -> spec, distinct names in insertion order. */
  type PackageMap = s: seq<Entry> | DistinctNames(s) witness []

  /** A bundle; the empty description stands for an unset one (both are falsy in Python). */
  datatype Bundle = Bundle(description: string, packages: PackageMap)

  /** `BundleStorage.bundles`: bundle name -> bundle. */
  type Storage = map<string, Bundle>

  function Names(m: seq<Entry>): (r: seq<string>)
    ensures |r| == |m| && forall i :: 0 <= i < |m| ==> r[i] == m[i].name
  {
    seq(|m|, i requires 0 <= i < |m| => m[i].name)
  }

  /** The position of key `k`, or `|m|` when it is absent. */
  function IndexOf(m: seq<Entry>, k: string): (i: nat)
    ensures i <= |m|
    ensures i < |m| ==> m[i].name == k
    ensures forall j :: 0 <= j < i ==> m[j].name != k
  {
    if m == [] then 0
    else if m[0].name == k then 0
    else 1 + IndexOf(m[1..], k)
  }

  /** Two lists with the same keys in the same order find every key at the same place. */
  lemma IndexOfByNames(m: seq<Entry>, m': seq<Entry>, k: string)
    requires Names(m) == Names(m')
    ensures IndexOf(m, k) == IndexOf(m', k)
  {
    var i, i' := IndexOf(m, k), IndexOf(m', k);
    assert forall j :: 0 <= j < |m| ==> m[j].name == Names(m)[j] == m'[j].name;
  }

  /** `m.get(k)`. */
  function Get(m: seq<Entry>, k: string): (r: Option<PackageSpec>)
    ensures r.Some? <==> k in Names(m)
  {
    var i := IndexOf(m, k);
    if i < |m| then Some(m[i].spec) else None
  }

  /** `m[k] = v`: an existing key keeps its place, a new key goes last. */
  function Put(m: PackageMap, k: string, v: PackageSpec): (r: PackageMap)
    ensures Get(r, k) == Some(v)
    ensures forall k' :: k' != k ==> Get(r, k') == Get(m, k')
    ensures k in Names(m) ==> Names(r) == Names(m)
    ensures k !in Names(m) ==> Names(r) == Names(m) + [k]
  {
    var i := IndexOf(m, k);
    if i < |m| then
      var r := m[i := Entry(k, v)];
      assert Names(r) == Names(m);
      assert forall k' :: IndexOf(r, k') == IndexOf(m, k') by {
        forall k' { IndexOfByNames(r, m, k'); }
      }
      r
    else
      var r := m + [Entry(k, v)];
      assert Names(r) == Names(m) + [k];
      assert forall k' :: k' != k ==> IndexOf(r, k') == IndexOf(m, k') + (if k' in Names(m) then 0 else 1) by {
        forall k' | k' != k { IndexOfAppend(m, Entry(k, v), k'); }
      }
      r
  }

  /** `del m[k]`; Python raises KeyError when `k` is absent. */
  function Delete(m: PackageMap, k: string): (r: PackageMap)
    requires k in Names(m)
    ensures k !in Names(r)
    ensures forall k' :: k' != k ==> Get(r, k') == Get(m, k')
    ensures var i := IndexOf(m, k); Names(r) == Names(m)[..i] + Names(m)[i + 1..]
  {
    var i := IndexOf(m, k);
    DeleteAt(m, i);
    m[..i] + m[i + 1..]
  }

  lemma DeleteAt(m: PackageMap, i: nat)
    requires i < |m|
    ensures DistinctNames(m[..i] + m[i + 1..])
    ensures m[i].name !in Names(m[..i] + m[i + 1..])
    ensures Names(m[..i] + m[i + 1..]) == Names(m)[..i] + Names(m)[i + 1..]
    ensures forall k' :: k' != m[i].name ==> Get(m[..i] + m[i + 1..], k') == Get(m, k')
  {
    var r := m[..i] + m[i + 1..];
    CutPositions(m, i);
    assert DistinctNames(r) by {
      forall j, l | 0 <= j < l < |r| ensures r[j].name != r[l].name {
        var j', l' := if j < i then j else j + 1, if l < i then l else l + 1;
        assert r[j] == m[j'] && r[l] == m[l'];
      }
    }
    assert m[i].name !in Names(r) by {
      forall j | 0 <= j < |r| ensures r[j].name != m[i].name {
        assert r[j] == m[if j < i then j else j + 1];
      }
    }
    forall k' | k' != m[i].name
      ensures Get(r, k') == Get(m, k')
    {
      IndexOfRemoved(m, i, k');
      var at := IndexOf(m, k');
      if at < i {
        assert IndexOf(r, k') == at && r[at] == m[at];
      } else if at < |m| {
        assert at != i;
        assert IndexOf(r, k') == at - 1 && r[at - 1] == m[at];
      } else {
        assert IndexOf(r, k') == |r|;
      }
    }
  }

  /** Where the entries of `m` land once position `i` is cut out, and what that does to the names. */
  lemma CutPositions(m: seq<Entry>, i: nat)
    requires i < |m|
    ensures var r := m[..i] + m[i + 1..];
      && |r| == |m| - 1
      && (forall j :: 0 <= j < i ==> r[j] == m[j])
      && (forall j :: i <= j < |r| ==> r[j] == m[j + 1])
      && Names(r) == Names(m)[..i] + Names(m)[i + 1..]
  {
  }

  lemma {:induction false} IndexOfAppend(m: seq<Entry>, e: Entry, k: string)
    requires e.name != k
    ensures IndexOf(m + [e], k) == IndexOf(m, k) + (if k in Names(m) then 0 else 1)
  {
    if m != [] {
      assert (m + [e])[1..] == m[1..] + [e];
      IndexOfAppend(m[1..], e, k);
      assert k in Names(m) <==> m[0].name == k || k in Names(m[1..]);
    }
  }

  lemma {:induction false} IndexOfRemoved(m: seq<Entry>, i: nat, k: string)
    requires i < |m| && m[i].name != k
    ensures IndexOf(m[..i] + m[i + 1..], k) == if IndexOf(m, k) < i then IndexOf(m, k) else IndexOf(m, k) - 1
  {
    if i > 0 && m[0].name != k {
      assert (m[..i] + m[i + 1..])[1..] == m[1..][..i - 1] + m[1..][i..];
      IndexOfRemoved(m[1..], i - 1, k);
    } else if i == 0 {
      assert m[..i] + m[i + 1..] == m[1..];
    }
  }

  /**
   * `{pkg: PackageSpec() for pkg in pkgs}` when `m` is empty, and the
   * `for pkg in pkgs: bundle.packages[pkg] = PackageSpec()` loop otherwise:
   * every listed package ends up with the empty spec, the packages already
   * present keep their order at the front, and nothing else changes.
   */
  function WithEmptySpecs(m: PackageMap, pkgs: seq<string>): (r: PackageMap)
    ensures forall k :: k in Names(r) <==> k in Names(m) || k in pkgs
    ensures forall p :: p in pkgs ==> Get(r, p) == Some(EmptySpec)
    ensures forall k :: k !in pkgs ==> Get(r, k) == Get(m, k)
    ensures |m| <= |r| && Names(r)[..|m|] == Names(m)
  {
    if pkgs == [] then m
    else
      var init := WithEmptySpecs(m, pkgs[..|pkgs| - 1]);
      var last := pkgs[|pkgs| - 1];
      assert forall p :: p in pkgs <==> p in pkgs[..|pkgs| - 1] || p == last;
      var r := Put(init, last, EmptySpec);
      assert Names(r)[..|init|] == Names(init);
      r
  }

  /** The entries whose package is not listed in `ps`, in their order: the dict after deleting every listed key. */
  function Without(m: PackageMap, ps: seq<string>): (r: PackageMap)
    ensures forall k :: k in Names(r) <==> k in Names(m) && k !in ps
    ensures |r| <= |m|
  {
    if m == [] then []
    else
      HeadTail(m);
      var rest := Without(m[1..], ps);
      if m[0].name in ps then rest
      else
        Cons(m[0], rest);
        [m[0]] + rest
  }

  /** A dict's first key is not among the rest, whose entries form a dict. */
  lemma HeadTail(m: PackageMap)
    requires m != []
    ensures DistinctNames(m[1..])
    ensures Names(m) == [m[0].name] + Names(m[1..])
    ensures m[0].name !in Names(m[1..])
  {
    var tail := m[1..];
    assert forall j :: 0 <= j < |tail| ==> tail[j] == m[j + 1];
  }

  /** Putting an entry whose key is new in front of a dict gives a dict. */
  lemma Cons(e: Entry, m: PackageMap)
    requires e.name !in Names(m)
    ensures DistinctNames([e] + m)
    ensures Names([e] + m) == [e.name] + Names(m)
  {
    var r := [e] + m;
    assert forall j :: 0 < j < |r| ==> r[j] == m[j - 1];
    assert forall j :: 0 <= j < |m| ==> m[j].name != e.name;
  }

  /** Deleting listed keys changes the lookups of exactly those keys. */
  lemma {:induction false} GetWithout(m: PackageMap, ps: seq<string>, k: string)
    ensures Get(Without(m, ps), k) == if k in ps then None else Get(m, k)
  {
    if m != [] {
      GetWithout(m[1..], ps, k);
      if m[0].name in ps {
        if k !in ps { assert m[0].name != k; }
      }
    }
  }

  /** A map none of whose keys is listed is left as it is. */
  lemma {:induction false} WithoutNone(m: PackageMap, ps: seq<string>)
    requires forall i :: 0 <= i < |m| ==> m[i].name !in ps
    ensures Without(m, ps) == m
  {
    if m != [] {
      WithoutNone(m[1..], ps);
      assert [m[0]] + m[1..] == m;
    }
  }

  /** `del m[k]` on a present key is deleting the one-element list `[k]`. */
  lemma {:induction false} DeleteIsWithout(m: PackageMap, k: string)
    requires k in Names(m)
    ensures Delete(m, k) == Without(m, [k])
  {
    HeadTail(m);
    var tail: PackageMap := m[1..];
    if m[0].name == k {
      assert Delete(m, k) == tail;
      forall i | 0 <= i < |tail| ensures tail[i].name !in [k] {
        assert tail[i] == m[i + 1];
      }
      WithoutNone(tail, [k]);
    } else {
      DeleteIsWithout(tail, k);
      DeleteCons(m, tail, k);
    }
  }

  /** Deleting a key other than the first keeps the first entry and deletes the key from the rest. */
  lemma DeleteCons(m: PackageMap, tail: PackageMap, k: string)
    requires m != [] && tail == m[1..] && m[0].name != k && k in Names(tail)
    ensures Delete(m, k) == [m[0]] + Delete(tail, k)
  {
    var i := IndexOf(tail, k);
    assert IndexOf(m, k) == i + 1;
    SliceAfterHead(m, i);
  }

  /** Cutting position `i + 1` out of `m` keeps the head and cuts position `i` out of the tail. */
  lemma SliceAfterHead(m: seq<Entry>, i: nat)
    requires i + 1 < |m|
    ensures m[..i + 1] + m[i + 2..] == [m[0]] + (m[1..][..i] + m[1..][i + 1..])
  {
  }

  /** Deleting one more key after a batch is deleting the longer batch. */
  lemma {:induction false} WithoutSnoc(m: PackageMap, ps: seq<string>, k: string)
    ensures Without(Without(m, ps), [k]) == Without(m, ps + [k])
  {
    if m != [] {
      WithoutSnoc(m[1..], ps, k);
    }
  }

  /** Deleting the listed keys one at a time, skipping absent ones, deletes the whole list. */
  lemma WithoutStep(m: PackageMap, ps: seq<string>, i: nat)
    requires i < |ps|
    ensures var w, k := Without(m, ps[..i]), ps[i];
      && (Get(w, k).Some? ==> Delete(w, k) == Without(m, ps[..i + 1]))
      && (Get(w, k).None? ==> w == Without(m, ps[..i + 1]))
  {
    var w, k := Without(m, ps[..i]), ps[i];
    assert ps[..i + 1] == ps[..i] + [k];
    WithoutSnoc(m, ps[..i], k);
    if k in Names(w) {
      DeleteIsWithout(w, k);
    } else {
      WithoutNone(w, [k]);
    }
  }

  /** `PackageSpec.to_apt_string(name)`: `name` or `name (version)`. */
  function AptString(e: Entry): string {
    match e.spec.version
    case None => e.name
    case Some(v) => e.name + " (" + v + ")"
  }

  function AptStrings(m: seq<Entry>): (r: seq<string>)
    ensures |r| == |m| && forall i :: 0 <= i < |m| ==> r[i] == AptString(m[i])
  {
    seq(|m|, i requires 0 <= i < |m| => AptString(m[i]))
  }

  /** `Bundle.get_depends_string()`: the apt strings joined by ", " in package order. */
  function DependsString(m: PackageMap): string {
    Join(", ", AptStrings(m))
  }

  /**
   * When no package name or version holds a comma, the Depends value has
   * exactly one comma fewer than the bundle has packages.
   */
  lemma DependsCommas(m: PackageMap)
    requires |m| >= 1
    requires forall i :: 0 <= i < |m| ==> Count(AptString(m[i]), ',') == 0
    ensures Count(DependsString(m), ',') == |m| - 1
  {
    var parts := AptStrings(m);
    CountJoin(", ", parts, ',');
    NoCommas(parts);
    assert Count(", ", ',') == 1;
  }

  lemma {:induction false} NoCommas(parts: seq<string>)
    requires forall i :: 0 <= i < |parts| ==> Count(parts[i], ',') == 0
    ensures SumCounts(parts, ',') == 0
  {
    if parts != [] {
      NoCommas(parts[1..]);
    }
  }

  /** The apt strings can be read back from the Depends value when none holds a comma. */
  lemma DependsEntries(m: PackageMap)
    requires |m| >= 1
    requires forall i :: 0 <= i < |m| ==> ',' !in AptString(m[i])
    ensures var pieces := Split(DependsString(m), ',');
      |pieces| == |m| && pieces[0] == AptString(m[0])
      && forall i :: 0 < i < |m| ==> pieces[i] == " " + AptString(m[i])
  {
    var parts := AptStrings(m);
    var spaced := Respaced(parts);
    JoinRespaced(parts);
    assert Join(", ", parts) == DependsString(m);
    forall i | 0 <= i < |spaced| ensures ',' !in spaced[i] {
      if i > 0 {
        assert spaced[i] == " " + parts[i];
      }
    }
    SplitJoin(spaced, ',');
    assert Split(DependsString(m), ',') == spaced;
  }

  /** The parts after the first, each with the space of ", " put in front. */
  function Respaced(parts: seq<string>): (r: seq<string>)
    requires |parts| >= 1
    ensures |r| == |parts| && r[0] == parts[0]
    ensures forall i :: 0 < i < |parts| ==> r[i] == " " + parts[i]
  {
    [parts[0]] + seq(|parts| - 1, i requires 0 <= i < |parts| - 1 => " " + parts[i + 1])
  }

  lemma {:induction false} JoinRespaced(parts: seq<string>)
    requires |parts| >= 1
    ensures Join(", ", parts) == Join(",", Respaced(parts))
  {
    if |parts| > 1 {
      var tail := parts[1..];
      JoinRespaced(tail);
      var spacedTail := Respaced(tail);
      var spaced := Respaced(parts);
      assert spaced[1..] == [" " + tail[0]] + spacedTail[1..];
      if |tail| == 1 {
        assert Join(",", spaced) == parts[0] + "," + (" " + tail[0]);
      } else {
        assert Join(",", spaced[1..]) == " " + tail[0] + "," + Join(",", spacedTail[1..]);
        assert Join(",", spacedTail) == tail[0] + "," + Join(",", spacedTail[1..]);
      }
    }
  }

  const MetapackagePrefix := "bdapt-"

  /** `_get_metapackage_name`: the name of the bundle's metapackage on the system. */
  function MetapackageName(bundleName: string): string {
    MetapackagePrefix + bundleName
  }

  /** The bundle a metapackage name belongs to, if it is one of bdapt's. */
  function BundleOf(packageName: string): Option<string> {
    if MetapackagePrefix <= packageName then Some(packageName[|MetapackagePrefix|..]) else None
  }

  /** Metapackage names and bundle names correspond one to one. */
  lemma MetapackageNameRoundTrip(bundleName: string, packageName: string)
    ensures BundleOf(MetapackageName(bundleName)) == Some(bundleName)
    ensures BundleOf(packageName) == Some(bundleName) <==> packageName == MetapackageName(bundleName)
  {
    assert MetapackageName(bundleName)[|MetapackagePrefix|..] == bundleName;
    if BundleOf(packageName) == Some(bundleName) {
      assert packageName == packageName[..|MetapackagePrefix|] + packageName[|MetapackagePrefix|..];
    }
  }

  /** The apt argument that asks for the metapackage's removal: its name followed by "-". */
  function RemovalSpec(bundleName: string): string {
    MetapackageName(bundleName) + "-"
  }
}
