/**
 * The equivs control file both managers write for a bundle's metapackage.
 * Both start from the same indented template; the first bundle manager
 * only dedents it (so the text starts with an empty line), the metapackage
 * manager also strips it and ends it with one newline. The Depends line is
 * appended when the bundle has packages.
 */
module Control {
  import opened PyStr
  import opened Textwrap
  import opened Bundles

  /** The eight spaces the template's lines are indented by in the source. */
  const Pad := "        "

  /** `bundle.description or f"Generated metapackage for bdapt bundle '{name}'"`. */
  function Description(name: string, b: Bundle): (r: string)
    ensures r != []
    ensures b.description != [] ==> r == b.description
  {
    if b.description != [] then b.description
    else "Generated metapackage for bdapt bundle '" + name + "'"
  }

  /** The five fields, one per line, in the order the template lists them. */
  function FieldLines(name: string, now: string, description: string): (r: seq<string>)
    ensures |r| == 5
  {
    [ "Package: " + MetapackageName(name),
      "Version: 1.0~" + now,
      "Maintainer: bdapt <bdapt@localhost>",
      "Architecture: all",
      "Description: " + description ]
  }

  /** Lines indented by `Pad`, between an empty first line and a last line holding only `Pad`. */
  function Indented(f: seq<string>): (r: seq<string>)
    ensures |r| == |f| + 2
  {
    [[]] + seq(|f|, i requires 0 <= i < |f| => Pad + f[i]) + [Pad]
  }

  /**
   * The triple-quoted f-string: a newline right after the opening quotes,
   * the five indented fields, and the indentation of the closing quotes.
   */
  function Template(name: string, now: string, description: string): string {
    Join("\n", Indented(FieldLines(name, now, description)))
  }

  /** Lines, each ended by a newline. */
  function Lines(f: seq<string>): string {
    Join("\n", f) + "\n"
  }

  /** `f"Depends: {depends}\n"` when the bundle has packages, nothing otherwise. */
  function DependsLine(m: PackageMap): string {
    if |m| > 0 then "Depends: " + DependsString(m) + "\n" else []
  }

  /** `_generate_control_file` of the first bundle manager, at time `now` (formatted `%Y%m%d%H%M%S`). */
  function LegacyControl(name: string, b: Bundle, now: string): string {
    Dedent(Template(name, now, Description(name, b))) + DependsLine(b.packages)
  }

  /** `_generate_control_file_content` of the metapackage manager. */
  function MetapackageControl(name: string, b: Bundle, now: string): string {
    Strip(Dedent(Template(name, now, Description(name, b)))) + "\n" + DependsLine(b.packages)
  }

  /** How the template is turned into the file: dedented only, or dedented and stripped. */
  datatype Layout = Dedented | Stripped

  /**
   * The control file equivs-build is run on, described by what it is
   * rendered from; `Text` gives its content.
   */
  datatype ControlFile = ControlFile(layout: Layout, name: string, bundle: Bundle, now: string)

  function Text(c: ControlFile): string {
    match c.layout
    case Dedented => LegacyControl(c.name, c.bundle, c.now)
    case Stripped => MetapackageControl(c.name, c.bundle, c.now)
  }

  /** Lines that are not empty, hold no line break and start with neither space nor tab. */
  predicate Unindented(f: seq<string>) {
    forall i :: 0 <= i < |f| ==> f[i] != [] && '\n' !in f[i] && !IsIndentChar(f[i][0])
  }

  /** Dedenting indented lines gives them back, after an empty line, each ended by a newline. */
  lemma DedentIndented(f: seq<string>)
    requires |f| >= 1 && Unindented(f)
    ensures Dedent(Join("\n", Indented(f))) == "\n" + Lines(f)
  {
    var lines := Indented(f);
    var body := [[]] + f + [[]];
    assert Normalize(Pad) == [];
    assert Shaped(lines, Pad, body);
    assert body[1] != [];
    DedentShaped(lines, Pad, body);
    JoinSnoc("\n", [[]] + f, []);
    JoinEmptyFirst("\n", f);
  }

  /** The values put into the template hold no line break. */
  predicate SingleLine(name: string, now: string, description: string) {
    '\n' !in name && '\n' !in now && '\n' !in description
  }

  lemma FieldsUnindented(name: string, now: string, description: string)
    requires SingleLine(name, now, description)
    ensures Unindented(FieldLines(name, now, description))
  {
    var f := FieldLines(name, now, description);
    assert '\n' !in MetapackagePrefix;
    assert forall i :: 0 <= i < 5 ==> f[i] != [] && '\n' !in f[i] && !IsIndentChar(f[i][0]);
  }

  /**
   * With single-line values, the first manager's control text is an empty
   * line followed by the Package, Version, Maintainer, Architecture and
   * Description lines in that order, then the Depends line when there are
   * packages.
   */
  lemma LegacyControlText(name: string, b: Bundle, now: string)
    requires SingleLine(name, now, Description(name, b))
    ensures LegacyControl(name, b, now)
      == "\n" + Lines(FieldLines(name, now, Description(name, b))) + DependsLine(b.packages)
  {
    FieldsUnindented(name, now, Description(name, b));
    DedentIndented(FieldLines(name, now, Description(name, b)));
  }

  /** `strip` takes off the empty first line and the final newline, and nothing else. */
  lemma StripLines(f: seq<string>)
    requires |f| >= 1 && f[0] != [] && f[|f| - 1] != []
    requires !IsSpace(f[0][0]) && !IsSpace(f[|f| - 1][|f[|f| - 1]| - 1])
    ensures Strip("\n" + Lines(f)) + "\n" == Lines(f)
  {
    var inner := Join("\n", f);
    assert "\n" + Lines(f) == "\n" + inner + "\n";
    JoinFirst("\n", f);
    JoinLast("\n", f);
    StripNewlines("\n", inner, "\n");
  }

  /**
   * The metapackage manager's control text starts directly with the Package
   * line: the same five lines without the empty first one, provided the
   * description does not end in whitespace (which `strip` would remove).
   */
  lemma MetapackageControlText(name: string, b: Bundle, now: string)
    requires SingleLine(name, now, Description(name, b))
    requires var d := Description(name, b); !IsSpace(d[|d| - 1])
    ensures MetapackageControl(name, b, now)
      == Lines(FieldLines(name, now, Description(name, b))) + DependsLine(b.packages)
  {
    var d := Description(name, b);
    var f := FieldLines(name, now, d);
    FieldsUnindented(name, now, d);
    DedentIndented(f);
    assert f[4][|f[4]| - 1] == d[|d| - 1];
    StripLines(f);
  }

  /** The two renderings differ only in the empty line the first manager puts first. */
  lemma ControlsAgree(name: string, b: Bundle, now: string)
    requires SingleLine(name, now, Description(name, b))
    requires var d := Description(name, b); !IsSpace(d[|d| - 1])
    ensures LegacyControl(name, b, now) == "\n" + MetapackageControl(name, b, now)
  {
    LegacyControlText(name, b, now);
    MetapackageControlText(name, b, now);
  }
}
