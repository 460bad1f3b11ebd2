/**
 * `textwrap.dedent` as Python 3.12 and earlier implement it: lines holding
 * only spaces and tabs are emptied, the longest run of spaces and tabs that
 * starts every other line (the margin) is found, and a non-empty margin is
 * cut from the start of every line. Lines are separated by "\n" only.
 */
module Textwrap {
  import opened Optional
  import opened PyStr

  predicate IsIndentChar(c: char) {
    c == ' ' || c == '\t'
  }

  /** A line that `^[ \t]+$` matches. */
  predicate IsBlank(line: string) {
    line != [] && forall i :: 0 <= i < |line| ==> IsIndentChar(line[i])
  }

  function Normalize(line: string): string {
    if IsBlank(line) then [] else line
  }

  function NormalizeAll(lines: seq<string>): (r: seq<string>)
    ensures |r| == |lines|
    ensures forall i :: 0 <= i < |lines| ==> r[i] == Normalize(lines[i])
  {
    seq(|lines|, i requires 0 <= i < |lines| => Normalize(lines[i]))
  }

  /** The leading spaces and tabs of a line. */
  function Indent(line: string): (r: string)
    ensures |r| <= |line| && r == line[..|r|]
    ensures forall i :: 0 <= i < |r| ==> IsIndentChar(r[i])
    ensures |r| == |line| || !IsIndentChar(line[|r|])
  {
    if line != [] && IsIndentChar(line[0]) then [line[0]] + Indent(line[1..]) else []
  }

  /** The longest common prefix of two strings. */
  function CommonPrefix(a: string, b: string): (r: string)
    ensures |r| <= |a| && |r| <= |b| && r == a[..|r|] && r == b[..|r|]
    ensures |r| == |a| || |r| == |b| || a[|r|] != b[|r|]
  {
    if a != [] && b != [] && a[0] == b[0] then [a[0]] + CommonPrefix(a[1..], b[1..]) else []
  }

  /**
   * The margin: the indents of the non-empty lines, folded from the first
   * line on with `CommonPrefix`; None when every line is empty.
   */
  function Margin(lines: seq<string>): Option<string> {
    if lines == [] then None
    else
      var m := Margin(lines[..|lines| - 1]);
      var last := lines[|lines| - 1];
      if last == [] then m
      else if m.None? then Some(Indent(last))
      else Some(CommonPrefix(m.value, Indent(last)))
  }

  /** `re.sub('(?m)^' + margin, '', ...)` on one line. */
  function StripMargin(line: string, margin: string): string {
    if margin <= line then line[|margin|..] else line
  }

  function StripMarginAll(lines: seq<string>, margin: string): (r: seq<string>)
    ensures |r| == |lines|
    ensures forall i :: 0 <= i < |lines| ==> r[i] == StripMargin(lines[i], margin)
  {
    seq(|lines|, i requires 0 <= i < |lines| => StripMargin(lines[i], margin))
  }

  function Dedent(text: string): string {
    var lines := NormalizeAll(Split(text, '\n'));
    var m := Margin(lines);
    if m.Some? && m.value != [] then Join("\n", StripMarginAll(lines, m.value))
    else Join("\n", lines)
  }

  /**
   * The text is made of lines that are either `pad + body[i]`, where
   * `body[i]` starts with neither space nor tab, or lines that are empty
   * after normalisation and stand for an empty `body[i]`.
   */
  predicate Shaped(lines: seq<string>, pad: string, body: seq<string>) {
    && |lines| == |body|
    && forall i :: 0 <= i < |lines| ==>
         && '\n' !in lines[i]
         && ((body[i] == [] && Normalize(lines[i]) == [])
             || (lines[i] == pad + body[i] && body[i] != [] && !IsIndentChar(body[i][0])))
  }

  lemma {:induction false} IndentAfterPad(pad: string, rest: string)
    requires forall i :: 0 <= i < |pad| ==> IsIndentChar(pad[i])
    requires rest != [] && !IsIndentChar(rest[0])
    ensures Indent(pad + rest) == pad
  {
    if pad == [] {
      assert pad + rest == rest;
    } else {
      assert (pad + rest)[1..] == pad[1..] + rest;
      IndentAfterPad(pad[1..], rest);
    }
  }

  lemma {:induction false} MarginUniform(lines: seq<string>, pad: string)
    requires forall i :: 0 <= i < |lines| ==> lines[i] == [] || Indent(lines[i]) == pad
    ensures Margin(lines) == if exists i :: 0 <= i < |lines| && lines[i] != [] then Some(pad) else None
  {
    if lines != [] {
      var init := lines[..|lines| - 1];
      MarginUniform(init, pad);
      assert forall i :: 0 <= i < |init| ==> init[i] == lines[i];
      if lines[|lines| - 1] == [] {
        if exists i :: 0 <= i < |lines| && lines[i] != [] {
          var i :| 0 <= i < |lines| && lines[i] != [];
          assert init[i] != [];
        }
      } else {
        var m := Margin(init);
        if m.Some? {
          var c := CommonPrefix(pad, pad);
          assert c == pad;
        }
      }
    }
  }

  /** Dedenting shaped lines removes the common pad and empties the blank lines. */
  lemma DedentShaped(lines: seq<string>, pad: string, body: seq<string>)
    requires |lines| >= 1 && Shaped(lines, pad, body)
    requires pad != [] && forall i :: 0 <= i < |pad| ==> IsIndentChar(pad[i])
    requires exists i :: 0 <= i < |body| && body[i] != []
    ensures Dedent(Join("\n", lines)) == Join("\n", body)
  {
    SplitJoin(lines, '\n');
    var norm := NormalizeAll(lines);
    forall i | 0 <= i < |lines|
      ensures norm[i] == [] || Indent(norm[i]) == pad
      ensures norm[i] == [] <==> body[i] == []
      ensures StripMargin(norm[i], pad) == body[i]
    {
      if body[i] != [] && lines[i] == pad + body[i] {
        assert !IsBlank(lines[i]) by { assert lines[i][|pad|] == body[i][0]; }
        IndentAfterPad(pad, body[i]);
      }
    }
    MarginUniform(norm, pad);
    var i :| 0 <= i < |body| && body[i] != [];
    assert norm[i] != [];
    assert StripMarginAll(norm, pad) == body;
  }
}
