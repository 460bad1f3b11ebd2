/**
 * Input validation: bundle names (the newer `validate_bundle_name` and the
 * older `_validate_bundle_name` of the first bundle manager), package lists
 * and package names. The rules are regular expressions applied with
 * `re.match` and anchored with `^...$`; in Python `$` also matches just
 * before a newline that ends the string, and the model keeps that.
 */
module Validators {
  import opened PyStr

  /** `[a-z0-9]` */
  predicate LowerAlnum(c: char) {
    'a' <= c <= 'z' || '0' <= c <= '9'
  }

  /** `[a-z0-9.-]` */
  predicate NameChar(c: char) {
    LowerAlnum(c) || c == '.' || c == '-'
  }

  /** `[a-zA-Z0-9]` */
  predicate Alnum(c: char) {
    LowerAlnum(c) || 'A' <= c <= 'Z'
  }

  /** `[a-zA-Z0-9+.-]` */
  predicate PackageChar(c: char) {
    Alnum(c) || c == '+' || c == '.' || c == '-'
  }

  /** The three patterns, without their `^` and `$` anchors. */
  datatype Pattern =
    | SingleCharName  // [a-z0-9]
    | MultiCharName   // [a-z0-9][a-z0-9.-]*[a-z0-9]
    | PackageName     // [a-zA-Z0-9][a-zA-Z0-9+.-]*

  /** The strings a pattern matches from end to end. */
  predicate Spells(p: Pattern, s: string) {
    match p
    case SingleCharName => |s| == 1 && LowerAlnum(s[0])
    case MultiCharName =>
      && |s| >= 2 && LowerAlnum(s[0]) && LowerAlnum(s[|s| - 1])
      && forall i :: 0 < i < |s| - 1 ==> NameChar(s[i])
    case PackageName =>
      && |s| >= 1 && Alnum(s[0])
      && forall i :: 0 < i < |s| ==> PackageChar(s[i])
  }

  /** `re.match("^" + p + "$", s)`: the whole string, or all of it but a final newline. */
  predicate Matches(p: Pattern, s: string) {
    Spells(p, s) || (|s| >= 1 && s[|s| - 1] == '\n' && Spells(p, s[..|s| - 1]))
  }

  /** The `BundleError`s the validators raise, one per message. */
  datatype BundleError =
    | EmptyBundleName                 // "Bundle name cannot be empty"
    | BadSingleCharName(name: string) // "... Single character names must be lowercase alphanumeric."
    | BadBundleName(name: string)     // "... Must start and end with alphanumeric."
    | NoPackages(operation: string)   // "At least one package must be specified for <operation>"
    | BlankPackageName                // "Package names cannot be empty or whitespace-only"
    | BadPackageName(pkg: string)     // "Invalid package name '<pkg>'. ..."

  /** A validator returns normally or raises. */
  datatype Check = Pass | Fail(error: BundleError)

  /** `validate_bundle_name`. */
  function ValidateBundleName(name: string): (r: Check)
    ensures r == Fail(EmptyBundleName) <==> name == []
    ensures |name| == 1 ==> (r.Pass? <==> LowerAlnum(name[0]))
    ensures |name| == 1 && r.Fail? ==> r.error == BadSingleCharName(name)
    ensures |name| >= 2 && name[|name| - 1] != '\n' ==>
      (r.Pass? <==>
        && LowerAlnum(name[0]) && LowerAlnum(name[|name| - 1])
        && forall i :: 0 < i < |name| - 1 ==> NameChar(name[i]))
    ensures |name| >= 2 && name[|name| - 1] == '\n' ==>
      (r.Pass? <==> Spells(MultiCharName, name[..|name| - 1]))
    ensures |name| >= 2 && r.Fail? ==> r.error == BadBundleName(name)
  {
    if name == [] then Fail(EmptyBundleName)
    else if |name| == 1 then
      if Matches(SingleCharName, name) then Pass else Fail(BadSingleCharName(name))
    else if Matches(MultiCharName, name) then Pass
    else Fail(BadBundleName(name))
  }

  /** `_validate_bundle_name` of the first bundle manager: the pattern test is skipped for short names. */
  function LegacyValidateBundleName(name: string): (r: Check)
    ensures r.Fail? ==> r.error == BadBundleName(name)
  {
    if !Matches(MultiCharName, name) && |name| > 1 && !Matches(SingleCharName, name) then
      Fail(BadBundleName(name))
    else Pass
  }

  /** Every name the newer validator accepts, the older one accepts too. */
  lemma LegacyAcceptsStrict(name: string)
    requires ValidateBundleName(name).Pass?
    ensures LegacyValidateBundleName(name).Pass?
  {
  }

  /**
   * The names only the older validator accepts: every name of length 0 or
   * 1 that is not a lowercase letter or digit, and a lowercase letter or
   * digit followed by a newline (its single-character pattern lets the
   * newline through).
   */
  lemma {:induction false} LegacyOnly(name: string)
    ensures LegacyValidateBundleName(name).Pass? && ValidateBundleName(name).Fail? <==>
      || (|name| <= 1 && !(|name| == 1 && LowerAlnum(name[0])))
      || (|name| == 2 && LowerAlnum(name[0]) && name[1] == '\n')
  {
    if |name| == 2 && LowerAlnum(name[0]) && name[1] == '\n' {
      assert Spells(SingleCharName, name[..1]);
      assert !Spells(MultiCharName, name);
      assert !Spells(MultiCharName, name[..1]);
    }
    if |name| >= 2 && LegacyValidateBundleName(name).Pass? && ValidateBundleName(name).Fail? {
      assert Matches(SingleCharName, name);
      assert |name| == 2 && LowerAlnum(name[0]) && name[1] == '\n';
    }
  }

  /** The names the bundle tests feed to the older validator. */
  lemma LegacyExamples()
    ensures LegacyValidateBundleName("test").Pass?
    ensures LegacyValidateBundleName("web-stack").Pass?
    ensures LegacyValidateBundleName("app1.dev").Pass?
    ensures LegacyValidateBundleName("a").Pass?
    ensures LegacyValidateBundleName("Test").Fail?
    ensures LegacyValidateBundleName("test_bundle").Fail?
    ensures LegacyValidateBundleName("test bundle").Fail?
    ensures LegacyValidateBundleName("-test").Fail?
  {
    assert Spells(MultiCharName, "test");
    assert Spells(MultiCharName, "web-stack");
    assert Spells(MultiCharName, "app1.dev");
    assert !NameChar("test_bundle"[4]);
    assert !NameChar("test bundle"[4]);
  }

  /** `validate_package_list`: only the empty list is refused. */
  function ValidatePackageList(packages: seq<string>, operation: string): (r: Check)
    ensures r.Pass? <==> |packages| > 0
    ensures r.Fail? ==> r.error == NoPackages(operation)
  {
    if |packages| == 0 then Fail(NoPackages(operation)) else Pass
  }

  /** The check `validate_package_names` makes of one package. */
  function ValidatePackageName(pkg: string): (r: Check)
    ensures AllSpace(pkg) <==> r == Fail(BlankPackageName)
    ensures !AllSpace(pkg) ==>
      var s := Strip(pkg);
      (r.Pass? <==> Alnum(s[0]) && forall i :: 0 < i < |s| ==> PackageChar(s[i]))
    ensures r.Fail? && r.error != BlankPackageName ==> r.error == BadPackageName(pkg)
  {
    StripEmpty(pkg);
    if pkg == [] || Strip(pkg) == [] then Fail(BlankPackageName)
    else
      var s := Strip(pkg);
      assert !IsSpace(s[|s| - 1]);
      if Matches(PackageName, s) then Pass else Fail(BadPackageName(pkg))
  }

  /** The position of the first package `validate_package_names` refuses, or `|packages|` when none is. */
  function FirstInvalid(packages: seq<string>): (i: nat)
    ensures i <= |packages|
    ensures forall j :: 0 <= j < i ==> ValidatePackageName(packages[j]).Pass?
    ensures i < |packages| ==> ValidatePackageName(packages[i]).Fail?
  {
    if packages == [] then 0
    else if ValidatePackageName(packages[0]).Fail? then 0
    else 1 + FirstInvalid(packages[1..])
  }

  /** `validate_package_names`: the packages are checked in order and the first failure is raised. */
  function ValidatePackageNames(packages: seq<string>): (r: Check)
    ensures r.Pass? <==> forall i :: 0 <= i < |packages| ==> ValidatePackageName(packages[i]).Pass?
    ensures r.Fail? ==>
      exists i :: 0 <= i < |packages| && r == ValidatePackageName(packages[i])
        && forall j :: 0 <= j < i ==> ValidatePackageName(packages[j]).Pass?
  {
    var i := FirstInvalid(packages);
    if i < |packages| then ValidatePackageName(packages[i]) else Pass
  }
}
