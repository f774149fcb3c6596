/**
  The text the screening run writes: one line per matched molecule,
  `mol_name TAB conf_id TAB fit result joined by commas`, ending in a newline,
  with no header. A parser for that text shows the format loses nothing.
 */
module ResultLine {
  import opened Wrappers
  import opened Sequences

  /** One reported match: the molecule, its first fitting conformer, and the fit engine's answer. */
  datatype Match = Match(molName: string, confId: nat, fit: seq<nat>)

  // ---------------------------------------------------------------------
  // Decimal numerals (`str` of a non-negative int)
  // ---------------------------------------------------------------------

  /** `s` is a non-empty string of decimal digits. */
  predicate IsNumeral(s: string) {
    |s| > 0 && forall k :: 0 <= k < |s| ==> '0' <= s[k] <= '9'
  }

  /** The digit character for `d`. */
  function DigitChar(d: nat): char
    requires d < 10
  {
    (48 + d) as char
  }

  /** The value of the digit character `c`. */
  function DigitValue(c: char): nat
    requires '0' <= c <= '9'
  {
    (c as int) - 48
  }

  /** `str(n)` for a non-negative integer. */
  function NatToString(n: nat): (s: string)
    ensures IsNumeral(s)
  {
    if n < 10 then [DigitChar(n)] else NatToString(n / 10) + [DigitChar(n % 10)]
  }

  /** `int(s)` for a string of decimal digits. */
  function ParseNat(s: string): nat
    requires IsNumeral(s)
  {
    if |s| == 1 then DigitValue(s[0])
    else 10 * ParseNat(s[..|s| - 1]) + DigitValue(s[|s| - 1])
  }

  /** Reading back a printed number gives the number. */
  lemma {:induction false} ParseNatToString(n: nat)
    ensures ParseNat(NatToString(n)) == n
  {
    if n >= 10 {
      var s := NatToString(n);
      assert s[..|s| - 1] == NatToString(n / 10);
      ParseNatToString(n / 10);
    }
  }

  /** `map(str, xs)`. */
  function NumeralsOf(xs: seq<nat>): (ss: seq<string>)
    ensures |ss| == |xs|
    ensures forall k :: 0 <= k < |xs| ==> ss[k] == NatToString(xs[k])
  {
    seq(|xs|, k requires 0 <= k < |xs| => NatToString(xs[k]))
  }

  // ---------------------------------------------------------------------
  // `sep.join(parts)` and `s.split(sep)`
  // ---------------------------------------------------------------------

  /** Python's `sep.join(parts)` for a one-character separator. */
  function Join(parts: seq<string>, sep: char): (s: string)
    ensures forall c :: c in s ==> c == sep || exists k :: 0 <= k < |parts| && c in parts[k]
  {
    if |parts| == 0 then ""
    else if |parts| == 1 then parts[0]
    else parts[0] + [sep] + Join(parts[1..], sep)
  }

  /** Python's `s.split(sep)` for a one-character separator. */
  function Split(s: string, sep: char): (parts: seq<string>)
    ensures |parts| > 0
    decreases |s|
  {
    if sep !in s then [s]
    else
      var i := FirstIndex(s, sep);
      [s[..i]] + Split(s[i + 1..], sep)
  }

  /** The separator occurs in the joined string only where `Join` put it. */
  lemma {:induction false} JoinAvoids(parts: seq<string>, sep: char, c: char)
    requires c != sep
    requires forall k :: 0 <= k < |parts| ==> c !in parts[k]
    ensures c !in Join(parts, sep)
  {
    if |parts| > 1 {
      JoinAvoids(parts[1..], sep, c);
    }
  }

  /** The first separator of `p + [sep] + t` is the one after `p` when `p` has none. */
  lemma FirstSeparator(p: string, sep: char, t: string)
    requires sep !in p
    ensures FirstIndex(p + [sep] + t, sep) == |p|
  {
    var s := p + [sep] + t;
    var i := FirstIndex(s, sep);
    assert s[|p|] == sep;
    assert s[..|p|] == p;
  }

  /**
    Splitting a joined string gives back the parts, as long as there is at
    least one part and none contains the separator. (`"".split(",")` is
    `[""]`, so no string splits back to the empty list.)
   */
  lemma {:induction false} SplitJoin(parts: seq<string>, sep: char)
    requires |parts| > 0
    requires forall k :: 0 <= k < |parts| ==> sep !in parts[k]
    ensures Split(Join(parts, sep), sep) == parts
  {
    if |parts| > 1 {
      var t := Join(parts[1..], sep);
      var s := parts[0] + [sep] + t;
      FirstSeparator(parts[0], sep, t);
      assert s[..|parts[0]|] == parts[0];
      assert s[|parts[0]| + 1..] == t;
      SplitJoin(parts[1..], sep);
    }
  }

  // ---------------------------------------------------------------------
  // Result lines
  // ---------------------------------------------------------------------

  /**
    The line written for a match: the molecule name, the conformer id and the
    fit result's indices joined by commas, separated by tabs and ended by a
    newline.
   */
  function FormatLine(m: Match): (line: string)
    ensures |line| > 0 && line[|line| - 1] == '\n'
  {
    Join([m.molName, NatToString(m.confId), Join(NumeralsOf(m.fit), ',')], '\t') + "\n"
  }

  /** All numerals of a list parse as numbers. */
  predicate AllNumerals(ss: seq<string>) {
    forall k :: 0 <= k < |ss| ==> IsNumeral(ss[k])
  }

  /** Read one result line back; `None` when it is not of the written shape. */
  function ParseLine(line: string): Option<Match>
  {
    if |line| == 0 || line[|line| - 1] != '\n' then None
    else
      var fields := Split(line[..|line| - 1], '\t');
      if |fields| != 3 || !IsNumeral(fields[1]) then None
      else
        var items := Split(fields[2], ',');
        if !AllNumerals(items) then None
        else Some(Match(fields[0], ParseNat(fields[1]),
                        seq(|items|, k requires 0 <= k < |items| && AllNumerals(items) => ParseNat(items[k]))))
  }

  /**
    A match can be written and read back unambiguously when its molecule name
    holds no tab and its fit result is non-empty, which every reported match is.
   */
  predicate Writable(m: Match) {
    '\t' !in m.molName && |m.fit| > 0
  }

  /** A numeral holds none of the separator characters. */
  lemma NumeralAvoids(s: string, c: char)
    requires IsNumeral(s) && !('0' <= c <= '9')
    ensures c !in s
  {
  }

  /** The three tab-separated fields of a written line split back apart. */
  lemma LineFields(m: Match)
    requires '\t' !in m.molName
    ensures var line := FormatLine(m);
            && |line| > 0 && line[|line| - 1] == '\n'
            && Split(line[..|line| - 1], '\t') == [m.molName, NatToString(m.confId), Join(NumeralsOf(m.fit), ',')]
  {
    var nums := NumeralsOf(m.fit);
    forall k | 0 <= k < |nums| ensures '\t' !in nums[k] {
      NumeralAvoids(nums[k], '\t');
    }
    JoinAvoids(nums, ',', '\t');
    NumeralAvoids(NatToString(m.confId), '\t');
    var fields := [m.molName, NatToString(m.confId), Join(nums, ',')];
    var line := FormatLine(m);
    assert line[..|line| - 1] == Join(fields, '\t');
    SplitJoin(fields, '\t');
  }

  /** The comma-joined fit result splits back into numerals that parse to the result. */
  lemma FitItems(fit: seq<nat>)
    requires |fit| > 0
    ensures var nums := NumeralsOf(fit);
            && Split(Join(nums, ','), ',') == nums
            && AllNumerals(nums)
            && seq(|nums|, k requires 0 <= k < |nums| && AllNumerals(nums) => ParseNat(nums[k])) == fit
  {
    var nums := NumeralsOf(fit);
    forall k | 0 <= k < |nums| ensures ',' !in nums[k] {
      NumeralAvoids(nums[k], ',');
    }
    SplitJoin(nums, ',');
    var back := seq(|nums|, k requires 0 <= k < |nums| && AllNumerals(nums) => ParseNat(nums[k]));
    forall k | 0 <= k < |fit| ensures back[k] == fit[k] {
      ParseNatToString(fit[k]);
    }
  }

  /** Writing a match and reading the line back gives the match. */
  lemma ParseFormatLine(m: Match)
    requires Writable(m)
    ensures ParseLine(FormatLine(m)) == Some(m)
  {
    LineFields(m);
    FitItems(m.fit);
    ParseNatToString(m.confId);
  }

  /** The text of a screening run: its result lines one after another. */
  function Output(ms: seq<Match>): (text: string)
    ensures |ms| == 0 <==> |text| == 0
  {
    if |ms| == 0 then "" else FormatLine(ms[0]) + Output(ms[1..])
  }

  /** Writing one more match appends its line to the text written so far. */
  lemma {:induction false} OutputAppend(ms: seq<Match>, m: Match)
    ensures Output(ms + [m]) == Output(ms) + FormatLine(m)
  {
    if |ms| == 0 {
      assert Output([m][1..]) == "";
    } else {
      var xs := ms + [m];
      OutputAppend(ms[1..], m);
      assert xs[0] == ms[0] && xs[1..] == ms[1..] + [m];
      assert Output(xs) == FormatLine(ms[0]) + (Output(ms[1..]) + FormatLine(m));
    }
  }

  /** Read a whole output text back into its matches, line by line. */
  function ParseOutput(text: string): Option<seq<Match>>
    decreases |text|
  {
    if |text| == 0 then Some([])
    else if '\n' !in text then None
    else
      var i := FirstIndex(text, '\n');
      match ParseLine(text[..i + 1])
      case None => None
      case Some(m) =>
        match ParseOutput(text[i + 1..])
        case None => None
        case Some(rest) => Some([m] + rest)
  }

  /** Only the final character of a written line is a newline, when the name holds none. */
  lemma FormatLineNewlines(m: Match)
    requires '\n' !in m.molName
    ensures var line := FormatLine(m);
            |line| > 0 && line[|line| - 1] == '\n' && '\n' !in line[..|line| - 1]
  {
    var nums := NumeralsOf(m.fit);
    forall k | 0 <= k < |nums| ensures '\n' !in nums[k] {
      NumeralAvoids(nums[k], '\n');
    }
    JoinAvoids(nums, ',', '\n');
    NumeralAvoids(NatToString(m.confId), '\n');
    var fields := [m.molName, NatToString(m.confId), Join(nums, ',')];
    JoinAvoids(fields, '\t', '\n');
    var line := FormatLine(m);
    assert line[..|line| - 1] == Join(fields, '\t');
  }

  /** A text that starts with a line holding its only newline at the end splits after that line. */
  lemma FirstLineSplits(line: string, rest: string)
    requires |line| > 0 && line[|line| - 1] == '\n' && '\n' !in line[..|line| - 1]
    ensures var text := line + rest;
            && '\n' in text
            && FirstIndex(text, '\n') + 1 == |line|
            && text[..|line|] == line && text[|line|..] == rest
  {
    var p := line[..|line| - 1];
    assert line == p + ['\n'];
    assert line + rest == p + ['\n'] + rest;
    FirstSeparator(p, '\n', rest);
  }

  /** Reading a text that starts with a well-formed line gives that line's match, then the rest. */
  lemma ParseOutputStep(line: string, rest: string, m: Match, tail: seq<Match>)
    requires |line| > 0 && line[|line| - 1] == '\n' && '\n' !in line[..|line| - 1]
    requires ParseLine(line) == Some(m)
    requires ParseOutput(rest) == Some(tail)
    ensures ParseOutput(line + rest) == Some([m] + tail)
  {
    var text := line + rest;
    FirstLineSplits(line, rest);
    var i := FirstIndex(text, '\n');
    assert text[..i + 1] == line && text[i + 1..] == rest;
  }

  /**
    The output text of a run determines its matches: reading it back line by
    line gives exactly the matches written, in order, provided no molecule
    name holds a tab or a newline.
   */
  lemma {:induction false} ParseOutputRoundTrip(ms: seq<Match>)
    requires forall k :: 0 <= k < |ms| ==> Writable(ms[k]) && '\n' !in ms[k].molName
    ensures ParseOutput(Output(ms)) == Some(ms)
  {
    if |ms| > 0 {
      var line := FormatLine(ms[0]);
      assert Output(ms) == line + Output(ms[1..]);
      FormatLineNewlines(ms[0]);
      ParseFormatLine(ms[0]);
      forall k | 0 <= k < |ms[1..]| ensures Writable(ms[1..][k]) && '\n' !in ms[1..][k].molName {
        assert ms[1..][k] == ms[k + 1];
      }
      ParseOutputRoundTrip(ms[1..]);
      ParseOutputStep(line, Output(ms[1..]), ms[0], ms[1..]);
      assert [ms[0]] + ms[1..] == ms;
    }
  }
}
