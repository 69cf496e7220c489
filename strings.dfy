/** The script's additions to Ruby's String: ANSI colouring and the removal of the
    indentation of a here-document. */
module Strings {
  import opened Text

  const Escape: char := '\U{1B}'

  /** The escape sequence that restores the default colour. */
  const Reset: string := [Escape, '[', '0', 'm']

  /** `colorize(color_code)`: the text between the escape that selects the colour
      and the one that resets it. */
  function Colorize(s: string, colorCode: nat): (r: string)
    ensures var n := |DecimalString(colorCode)|;
      |r| == n + |s| + 7
      && r[..2] == [Escape, '['] && r[|r| - 4..] == Reset
      && AllDigits(r[2..2 + n]) && DigitsValue(r[2..2 + n]) == colorCode
      && r[2 + n] == 'm' && r[3 + n..|r| - 4] == s
  {
    var code := DecimalString(colorCode);
    var r := [Escape, '['] + code + ['m'] + s + Reset;
    assert r[2..2 + |code|] == code;
    r
  }

  /** The colour codes 31, 32 and 35 print as "31", "32" and "35". */
  lemma ColorCodes()
    ensures DecimalString(31) == "31" && DecimalString(32) == "32" && DecimalString(35) == "35"
  {
  }

  function Red(s: string): (r: string)
    ensures r == [Escape] + "[31m" + s + Reset
  {
    ColorCodes();
    Colorize(s, 31)
  }

  function Green(s: string): (r: string)
    ensures r == [Escape] + "[32m" + s + Reset
  {
    ColorCodes();
    Colorize(s, 32)
  }

  function Pink(s: string): (r: string)
    ensures r == [Escape] + "[35m" + s + Reset
  {
    ColorCodes();
    Colorize(s, 35)
  }

  // ---------------------------------------------------------------------------
  // align_to_right

  /** The value `shortest_intendation` starts from; a line indented this much or
      more never lowers it. */
  const NoIndentation: nat := 1000

  /** Length of the leading whitespace run of a line. */
  function LeadingSpace(l: string): (n: nat)
    ensures n <= |l|
    ensures forall i :: 0 <= i < n ==> IsSpace(l[i])
    ensures n < |l| ==> !IsSpace(l[n])
  {
    if |l| == 0 || !IsSpace(l[0]) then 0 else 1 + LeadingSpace(l[1..])
  }

  /** The line matches `^(\s+)\w+`, and then `$1` is its leading whitespace. */
  predicate IsIndentedWord(l: string) {
    0 < LeadingSpace(l) < |l| && IsWordChar(l[LeadingSpace(l)])
  }

  /** `n` is the indentation `align_to_right` removes from `lines`: the shortest
      leading whitespace of a line that starts with whitespace and then a word
      character, or 0 when there is none (ignoring indentations of 1000 or more). */
  predicate IsShortestIndentation(lines: seq<string>, n: nat) {
    (n == 0 <==> forall i :: 0 <= i < |lines| && IsIndentedWord(lines[i]) ==> LeadingSpace(lines[i]) >= NoIndentation)
    && (n > 0 ==> exists i :: 0 <= i < |lines| && IsIndentedWord(lines[i]) && LeadingSpace(lines[i]) == n)
    && (forall i :: 0 <= i < |lines| && IsIndentedWord(lines[i]) ==> n <= LeadingSpace(lines[i]))
  }

  /** At most one indentation fits that description. */
  lemma ShortestIndentationIsUnique(lines: seq<string>, m: nat, n: nat)
    requires IsShortestIndentation(lines, m) && IsShortestIndentation(lines, n)
    ensures m == n
  {
    if m > 0 && n > 0 {
      var i :| 0 <= i < |lines| && IsIndentedWord(lines[i]) && LeadingSpace(lines[i]) == m;
      var j :| 0 <= j < |lines| && IsIndentedWord(lines[j]) && LeadingSpace(lines[j]) == n;
    }
  }

  /** `l[n..-1]`, with the nil Ruby gives for a line shorter than `n` joined as "". */
  function Drop(l: string, n: nat): string {
    if n <= |l| then l[n..] else ""
  }

  /** `lines.map { |l| l[n..-1] }.join` */
  function Unindent(lines: seq<string>, n: nat): string {
    if |lines| == 0 then "" else Drop(lines[0], n) + Unindent(lines[1..], n)
  }

  /** Removing nothing gives the text back. */
  lemma {:induction false} UnindentByNothing(lines: seq<string>)
    ensures Unindent(lines, 0) == Concat(lines)
  {
    if |lines| > 0 {
      UnindentByNothing(lines[1..]);
    }
  }

  function Spaces(n: nat): (r: string)
    ensures |r| == n && forall i :: 0 <= i < n ==> r[i] == ' '
  {
    if n == 0 then "" else " " + Spaces(n - 1)
  }

  function Indent(lines: seq<string>, n: nat): (r: seq<string>)
    ensures |r| == |lines| && forall i :: 0 <= i < |r| ==> r[i] == Spaces(n) + lines[i]
  {
    if |lines| == 0 then [] else [Spaces(n) + lines[0]] + Indent(lines[1..], n)
  }

  /** Removing an indentation that every line has gives the lines without it. */
  lemma {:induction false} UnindentUndoesIndent(lines: seq<string>, n: nat)
    ensures Unindent(Indent(lines, n), n) == Concat(lines)
  {
    if |lines| > 0 {
      var ind := Indent(lines, n);
      assert ind[1..] == Indent(lines[1..], n);
      assert Drop(ind[0], n) == lines[0];
      UnindentUndoesIndent(lines[1..], n);
    }
  }

  /** The loop of `align_to_right` that finds the indentation to remove. */
  method ShortestIndentation(lines: seq<string>) returns (n: nat)
    ensures IsShortestIndentation(lines, n)
  {
    var shortest := NoIndentation;
    for i := 0 to |lines|
      invariant 0 < shortest <= NoIndentation
      invariant forall j :: 0 <= j < i && IsIndentedWord(lines[j]) ==> shortest <= LeadingSpace(lines[j])
      invariant shortest < NoIndentation ==>
                  exists j :: 0 <= j < i && IsIndentedWord(lines[j]) && LeadingSpace(lines[j]) == shortest
      invariant shortest == NoIndentation ==>
                  forall j :: 0 <= j < i && IsIndentedWord(lines[j]) ==> LeadingSpace(lines[j]) >= NoIndentation
    {
      var l := lines[i];
      if IsIndentedWord(l) && LeadingSpace(l) < shortest {
        shortest := LeadingSpace(l);
      }
    }
    n := if shortest == NoIndentation then 0 else shortest;
  }

  /** `align_to_right`: find the indentation, then cut it from every line; a text
      without an indented line comes back unchanged. */
  method AlignToRight(text: string) returns (r: string)
    ensures exists n :: IsShortestIndentation(Lines(text), n) && r == Unindent(Lines(text), n)
    ensures IsShortestIndentation(Lines(text), 0) ==> r == text
  {
    var lines := Lines(text);
    var n := ShortestIndentation(lines);
    r := Unindent(lines, n);
    if IsShortestIndentation(lines, 0) {
      ShortestIndentationIsUnique(lines, 0, n);
      UnindentByNothing(lines);
    }
  }
}
