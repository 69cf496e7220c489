/** The parts of Ruby's String that the script relies on: `split` with no argument,
    `lines`, `include?`, the characters `\s` and `\w` match, and decimal digits. */
module Text {

  /** Ruby's `\s` and the separators of `split`: space, tab, newline, vertical tab,
      form feed and carriage return. */
  predicate IsSpace(c: char) {
    c == ' ' || ('\t' <= c <= '\r')
  }

  /** Ruby's `\w` on an ASCII string. */
  predicate IsWordChar(c: char) {
    ('a' <= c <= 'z') || ('A' <= c <= 'Z') || ('0' <= c <= '9') || c == '_'
  }

  predicate IsDigit(c: char) {
    '0' <= c <= '9'
  }

  predicate NoSpace(s: string) {
    forall i :: 0 <= i < |s| ==> !IsSpace(s[i])
  }

  predicate AllDigits(s: string) {
    forall i :: 0 <= i < |s| ==> IsDigit(s[i])
  }

  /** `t` occurs in `s` at position `k`. */
  predicate OccursAt(s: string, t: string, k: int) {
    0 <= k && k + |t| <= |s| && s[k..k + |t|] == t
  }

  /** Ruby's `s.include?(t)`, and also whether `s` matches the unanchored regular
      expression that is the literal `t`. */
  predicate Contains(s: string, t: string) {
    exists k :: 0 <= k <= |s| - |t| && OccursAt(s, t, k)
  }

  /** `include?` in other words: `s` is some text, then `t`, then some more text. */
  lemma ContainsIsSplit(s: string, t: string)
    ensures Contains(s, t) <==> exists p, q :: s == p + t + q
  {
    if Contains(s, t) {
      var k :| 0 <= k <= |s| - |t| && OccursAt(s, t, k);
      assert s == s[..k] + t + s[k + |t|..];
    }
    if exists p, q :: s == p + t + q {
      var p, q :| s == p + t + q;
      assert s[|p|..|p| + |t|] == t;
      assert OccursAt(s, t, |p|);
    }
  }

  /** An occurrence that starts inside the second part of a concatenation is an
      occurrence in that part. */
  lemma OccursInSuffix(p: string, q: string, t: string, k: int)
    requires |p| <= k && OccursAt(p + q, t, k)
    ensures OccursAt(q, t, k - |p|)
  {
    assert (p + q)[k..k + |t|] == q[k - |p|..k - |p| + |t|];
  }

  // ---------------------------------------------------------------------------
  // split

  /** Length of the leading run of non-whitespace characters. */
  function WordLength(s: string): (n: nat)
    ensures n <= |s|
    ensures forall i :: 0 <= i < n ==> !IsSpace(s[i])
    ensures n < |s| ==> IsSpace(s[n])
  {
    if |s| == 0 || IsSpace(s[0]) then 0 else 1 + WordLength(s[1..])
  }

  /** Ruby's `s.split` with no argument: leading whitespace is ignored, runs of
      whitespace separate the fields, and no field is empty. */
  function Fields(s: string): (r: seq<string>)
    ensures forall i :: 0 <= i < |r| ==> |r[i]| > 0 && NoSpace(r[i])
    decreases |s|
  {
    if |s| == 0 then []
    else if IsSpace(s[0]) then Fields(s[1..])
    else
      var n := WordLength(s);
      assert NoSpace(s[..n]);
      [s[..n]] + Fields(s[n..])
  }

  /** Fields written out with one space between them. */
  function JoinFields(fs: seq<string>): string {
    if |fs| == 0 then ""
    else if |fs| == 1 then fs[0]
    else fs[0] + " " + JoinFields(fs[1..])
  }

  lemma {:induction false} WordLengthOfWord(w: string, rest: string)
    requires |w| > 0 && NoSpace(w)
    requires rest == [] || IsSpace(rest[0])
    ensures WordLength(w + rest) == |w|
    decreases |w|
  {
    if |w| > 1 {
      assert (w + rest)[1..] == w[1..] + rest;
      WordLengthOfWord(w[1..], rest);
    } else {
      assert (w + rest)[1..] == rest;
    }
  }

  /** Splitting fields that were joined with single spaces gives the fields back. */
  lemma {:induction false} FieldsOfJoin(fs: seq<string>)
    requires forall i :: 0 <= i < |fs| ==> |fs[i]| > 0 && NoSpace(fs[i])
    ensures Fields(JoinFields(fs)) == fs
  {
    if |fs| == 0 {
    } else if |fs| == 1 {
      var w := fs[0];
      WordLengthOfWord(w, "");
      assert w + "" == w;
      assert w[..|w|] == w && w[|w|..] == "";
    } else {
      var w, rest := fs[0], JoinFields(fs[1..]);
      var s := w + " " + rest;
      assert s == w + (" " + rest);
      WordLengthOfWord(w, " " + rest);
      assert s[..|w|] == w;
      assert s[|w|..] == " " + rest;
      assert (" " + rest)[1..] == rest;
      FieldsOfJoin(fs[1..]);
    }
  }

  predicate AllSpace(s: string) {
    forall i :: 0 <= i < |s| ==> IsSpace(s[i])
  }

  /** `split` ignores leading whitespace, however long the run. */
  lemma {:induction false} FieldsSkipSpace(sep: string, s: string)
    requires AllSpace(sep)
    ensures Fields(sep + s) == Fields(s)
    decreases |sep|
  {
    if |sep| > 0 {
      assert (sep + s)[1..] == sep[1..] + s;
      FieldsSkipSpace(sep[1..], s);
    } else {
      assert sep + s == s;
    }
  }

  /** A word followed by a run of whitespace is the first field, and the fields
      after it are those of the rest. */
  lemma FieldsOfWordThenSpace(w: string, sep: string, s: string)
    requires |w| > 0 && NoSpace(w)
    requires |sep| > 0 && AllSpace(sep)
    ensures Fields(w + sep + s) == [w] + Fields(s)
  {
    var t := w + sep + s;
    assert t == w + (sep + s);
    WordLengthOfWord(w, sep + s);
    assert t[..|w|] == w && t[|w|..] == sep + s;
    FieldsSkipSpace(sep, s);
  }

  /** Fields, each followed by its own run of whitespace; only the last run may be
      empty. This is how a listing line pads its columns. */
  function SpacedJoin(fs: seq<string>, seps: seq<string>): string
    requires |seps| == |fs|
  {
    if |fs| == 0 then "" else fs[0] + seps[0] + SpacedJoin(fs[1..], seps[1..])
  }

  /** Splitting fields separated by runs of whitespace of any length gives the
      fields back. */
  lemma {:induction false} FieldsOfSpacedJoin(fs: seq<string>, seps: seq<string>)
    requires |seps| == |fs|
    requires forall i :: 0 <= i < |fs| ==> |fs[i]| > 0 && NoSpace(fs[i])
    requires forall i :: 0 <= i < |seps| ==> AllSpace(seps[i])
    requires forall i :: 0 <= i < |seps| - 1 ==> |seps[i]| > 0
    ensures Fields(SpacedJoin(fs, seps)) == fs
  {
    if |fs| > 0 {
      var w, rest := fs[0], SpacedJoin(fs[1..], seps[1..]);
      if |seps[0]| > 0 {
        FieldsOfWordThenSpace(w, seps[0], rest);
        FieldsOfSpacedJoin(fs[1..], seps[1..]);
      } else {
        assert |fs| == 1 && rest == "";
        assert w + seps[0] + rest == w;
        WordLengthOfWord(w, "");
        assert w + "" == w;
        assert w[..|w|] == w && w[|w|..] == "";
      }
    }
  }

  // ---------------------------------------------------------------------------
  // lines

  function Concat(ls: seq<string>): string {
    if |ls| == 0 then "" else ls[0] + Concat(ls[1..])
  }

  /** Length of the first line of `s`, its newline included. */
  function LineLength(s: string): (n: nat)
    ensures n <= |s|
    ensures |s| > 0 ==> n > 0
    ensures forall i :: 0 <= i < n - 1 ==> s[i] != '\n'
    ensures 0 < n < |s| ==> s[n - 1] == '\n'
    ensures n == |s| || s[n - 1] == '\n'
  {
    if |s| == 0 then 0
    else if s[0] == '\n' then 1
    else 1 + LineLength(s[1..])
  }

  /** Ruby's `s.lines`: the text cut after every newline, so that joining the
      pieces gives the text back. */
  function Lines(s: string): (r: seq<string>)
    ensures Concat(r) == s
    decreases |s|
  {
    if |s| == 0 then []
    else
      var n := LineLength(s);
      var r := [s[..n]] + Lines(s[n..]);
      assert r[1..] == Lines(s[n..]);
      assert s == s[..n] + s[n..];
      r
  }

  /** No piece of `Lines(s)` is empty, every piece but the last ends in a newline,
      and no piece has a newline elsewhere. */
  lemma {:induction false} LinesAreCutAfterNewlines(s: string)
    ensures forall i :: 0 <= i < |Lines(s)| ==> |Lines(s)[i]| > 0
    ensures forall i :: 0 <= i < |Lines(s)| - 1 ==> Lines(s)[i][|Lines(s)[i]| - 1] == '\n'
    ensures forall i, j :: 0 <= i < |Lines(s)| && 0 <= j < |Lines(s)[i]| - 1 ==> Lines(s)[i][j] != '\n'
    decreases |s|
  {
    if |s| > 0 {
      var n := LineLength(s);
      var first, rest := s[..n], Lines(s[n..]);
      LinesAreCutAfterNewlines(s[n..]);
      var r := Lines(s);
      assert r == [first] + rest;
      assert |first| > 0;
      assert forall j :: 0 <= j < |first| - 1 ==> first[j] != '\n';
      assert |rest| > 0 ==> first[|first| - 1] == '\n';
      assert forall i :: 1 <= i < |r| ==> r[i] == rest[i - 1];
    }
  }

  /** A line ending in its only newline is the first line of whatever follows it. */
  lemma {:induction false} LineLengthOfLine(l: string, rest: string)
    requires |l| > 0 && l[|l| - 1] == '\n'
    requires forall i :: 0 <= i < |l| - 1 ==> l[i] != '\n'
    ensures LineLength(l + rest) == |l|
    decreases |l|
  {
    if |l| > 1 {
      assert (l + rest)[1..] == l[1..] + rest;
      LineLengthOfLine(l[1..], rest);
    }
  }

  lemma LinesOfLine(l: string, rest: string)
    requires |l| > 0 && l[|l| - 1] == '\n'
    requires forall i :: 0 <= i < |l| - 1 ==> l[i] != '\n'
    ensures Lines(l + rest) == [l] + Lines(rest)
  {
    LineLengthOfLine(l, rest);
    assert (l + rest)[..|l|] == l && (l + rest)[|l|..] == rest;
  }

  // ---------------------------------------------------------------------------
  // decimal numerals

  function DigitValue(c: char): nat
    requires IsDigit(c)
  {
    (c as int - '0' as int) as nat
  }

  /** The number a string of decimal digits denotes. */
  function DigitsValue(s: string): nat
    requires AllDigits(s)
  {
    if |s| == 0 then 0 else 10 * DigitsValue(s[..|s| - 1]) + DigitValue(s[|s| - 1])
  }

  /** Ruby's `n.to_s` for a natural number; it reads back as `n`. */
  function DecimalString(n: nat): (r: string)
    ensures |r| > 0 && AllDigits(r) && DigitsValue(r) == n
  {
    var d := ['0' + (n % 10) as char];
    if n < 10 then d
    else
      var r := DecimalString(n / 10) + d;
      assert r[..|r| - 1] == DecimalString(n / 10);
      r
  }

  /** A numeral without a leading zero is the one `DecimalString` prints. */
  lemma {:induction false} CanonicalNumeral(s: string)
    requires |s| > 0 && AllDigits(s) && s[0] != '0'
    ensures DigitsValue(s) > 0
    ensures DecimalString(DigitsValue(s)) == s
    decreases |s|
  {
    var p, c := s[..|s| - 1], s[|s| - 1];
    if |s| > 1 {
      CanonicalNumeral(p);
      var n := DigitsValue(s);
      assert n == 10 * DigitsValue(p) + DigitValue(c);
      assert n / 10 == DigitsValue(p) && n % 10 == DigitValue(c);
      assert s == p + [c];
    }
  }
}
