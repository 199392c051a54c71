/**
 * The grid-size presets of the level editor (Assets/Scripts/Editor/LevelDataEditor.cs): a
 * preset "WxH" is split on 'x' and both parts are parsed as 32-bit integers; anything else
 * falls back to 3 by 3.
 */
module GridPresets {

  import opened Wrappers

  /** The editor's preset list; the last entry leaves the dimensions to the sliders. */
  const GridSizeOptions: seq<string> :=
    ["3x3", "3x4", "4x3", "4x4", "4x5", "5x4", "5x5", "6x4", "6x5", "Custom"]

  /** The (width, height) each of the first nine presets stands for. */
  const PresetSizes: seq<(int, int)> :=
    [(3, 3), (3, 4), (4, 3), (4, 4), (4, 5), (5, 4), (5, 5), (6, 4), (6, 5)]

  const MinInt32: int := -0x8000_0000
  const MaxInt32: int := 0x7fff_ffff

  /** How many times c occurs in s. */
  function Count(s: string, c: char): nat
    decreases |s|
  {
    if |s| == 0 then 0 else (if s[0] == c then 1 else 0) + Count(s[1..], c)
  }

  /** The parts glued back together with the separator between neighbours. */
  function Join(parts: seq<string>, sep: char): string
    requires |parts| >= 1
    decreases |parts|
  {
    if |parts| == 1 then parts[0] else parts[0] + [sep] + Join(parts[1..], sep)
  }

  /**
   * The pieces of s between occurrences of sep, empty pieces included, as the runtime's
   * string split on one character: one more piece than separators, none containing the
   * separator, and joining them gives s back.
   */
  function Split(s: string, sep: char): (parts: seq<string>)
    ensures |parts| == Count(s, sep) + 1
    ensures forall i :: 0 <= i < |parts| ==> sep !in parts[i]
    ensures Join(parts, sep) == s
    decreases |s|
  {
    if |s| == 0 then [""]
    else
      var rest := Split(s[1..], sep);
      assert s == [s[0]] + s[1..];
      if s[0] == sep then
        assert ([""] + rest)[1..] == rest;
        [""] + rest
      else
        var parts := [[s[0]] + rest[0]] + rest[1..];
        assert parts[1..] == rest[1..];
        assert |rest| > 1 ==> Join(rest, sep) == rest[0] + [sep] + Join(rest[1..], sep);
        assert |rest| > 1 ==> Join(parts, sep) == [s[0]] + rest[0] + [sep] + Join(rest[1..], sep);
        parts
  }

  /** Splitting a separator-free prefix followed by t extends the first piece of t's split. */
  lemma {:induction false} SplitAfterPrefix(a: string, t: string, sep: char)
    requires sep !in a
    ensures Split(a + t, sep) == [a + Split(t, sep)[0]] + Split(t, sep)[1..]
    decreases |a|
  {
    var st := Split(t, sep);
    if |a| == 0 {
      assert a + t == t && a + st[0] == st[0];
      assert [st[0]] + st[1..] == st;
    } else {
      assert (a + t)[0] == a[0] && (a + t)[1..] == a[1..] + t;
      SplitAfterPrefix(a[1..], t, sep);
      var rest := Split(a[1..] + t, sep);
      assert rest == [a[1..] + st[0]] + st[1..];
      assert Split(a + t, sep) == [[a[0]] + rest[0]] + rest[1..];
      assert [a[0]] + (a[1..] + st[0]) == a + st[0];
      assert rest[1..] == st[1..];
    }
  }

  /** A string with exactly one separator splits into the text before it and the text after it. */
  lemma SplitInTwo(a: string, b: string, sep: char)
    requires sep !in a && sep !in b
    ensures Split(a + [sep] + b, sep) == [a, b]
  {
    var t := [sep] + b;
    SplitAfterSeparator(b, sep);
    assert a + [sep] + b == a + t;
    SplitAfterPrefix(a, t, sep);
    assert a + "" == a;
  }

  /** A separator followed by separator-free text splits into the empty text and that text. */
  lemma SplitAfterSeparator(b: string, sep: char)
    requires sep !in b
    ensures Split([sep] + b, sep) == ["", b]
  {
    var bs := Split(b, sep);
    assert |bs| == 1 && Join(bs, sep) == bs[0];
    var t := [sep] + b;
    assert t[0] == sep && t[1..] == b;
  }

  predicate IsDigit(c: char)
  {
    '0' <= c <= '9'
  }

  predicate AllDigits(s: string)
  {
    forall i :: 0 <= i < |s| ==> IsDigit(s[i])
  }

  /** The decimal value of a string of digits. */
  function DigitsValue(s: string): nat
    requires AllDigits(s)
    decreases |s|
  {
    if |s| == 0 then 0 else DigitsValue(s[..|s| - 1]) * 10 + (s[|s| - 1] as int - '0' as int)
  }

  /**
   * The runtime's integer parse, restricted to an optional sign followed by at least one
   * decimal digit: None for anything else and for values outside the 32-bit range.
   */
  function TryParseInt(s: string): (r: Option<int>)
    ensures r.Some? ==> MinInt32 <= r.value <= MaxInt32
    ensures r.Some? ==> |s| > 0 && 'x' !in s
    ensures r.Some? ==>
      forall i :: 0 <= i < |s| ==> IsDigit(s[i]) || (i == 0 && |s| >= 2 && (s[0] == '-' || s[0] == '+'))
    ensures |s| >= 1 && AllDigits(s) ==>
      r == if DigitsValue(s) <= MaxInt32 then Some(DigitsValue(s)) else None
    ensures |s| >= 2 && s[0] == '+' && AllDigits(s[1..]) ==>
      r == if DigitsValue(s[1..]) <= MaxInt32 then Some(DigitsValue(s[1..])) else None
    ensures |s| >= 2 && s[0] == '-' && AllDigits(s[1..]) ==>
      r == if DigitsValue(s[1..]) <= -MinInt32 then Some(0 - DigitsValue(s[1..]) as int) else None
  {
    var negative := |s| > 0 && s[0] == '-';
    var digits := if |s| > 0 && (s[0] == '-' || s[0] == '+') then s[1..] else s;
    if |digits| == 0 || !AllDigits(digits) then None
    else
      var value: int := DigitsValue(digits);
      var v := if negative then -value else value;
      if MinInt32 <= v <= MaxInt32 then
        assert 'x' !in digits;
        assert s == digits || s == [s[0]] + digits;
        Some(v)
      else None
  }

  /** The decimal digit for d. */
  function DigitChar(d: nat): char
    requires d < 10
  {
    (d + '0' as int) as char
  }

  /** The decimal digits of n, without leading zeros. */
  function NatToString(n: nat): (s: string)
    ensures |s| >= 1 && AllDigits(s) && DigitsValue(s) == n
    decreases n
  {
    if n < 10 then [DigitChar(n)]
    else
      var prefix := NatToString(n / 10);
      var s := prefix + [DigitChar(n % 10)];
      assert s[..|s| - 1] == prefix;
      s
  }

  /** The decimal text of n as the runtime prints an integer: a minus sign for negatives. */
  function IntToString(n: int): string
  {
    if n < 0 then "-" + NatToString(-n) else NatToString(n)
  }

  /** Every 32-bit integer parses back from its printed form. */
  lemma ParsePrinted(n: int)
    requires MinInt32 <= n <= MaxInt32
    ensures TryParseInt(IntToString(n)) == Some(n)
  {
    if n < 0 {
      assert ("-" + NatToString(-n))[1..] == NatToString(-n);
    } else {
      var s := NatToString(n);
      assert IsDigit(s[0]);
    }
  }

  /** The grid size a preset string stands for, (3, 3) when it is not two integers around one 'x'. */
  function ParseGridSize(gridSize: string): (r: (int, int))
    ensures Count(gridSize, 'x') != 1 ==> r == (3, 3)
    ensures r == (3, 3) || (MinInt32 <= r.0 <= MaxInt32 && MinInt32 <= r.1 <= MaxInt32)
  {
    var parts := Split(gridSize, 'x');
    if |parts| == 2 && TryParseInt(parts[0]).Some? && TryParseInt(parts[1]).Some? then
      (TryParseInt(parts[0]).value, TryParseInt(parts[1]).value)
    else
      (3, 3)
  }

  /** Text around a single 'x' whose two sides both parse gives the two parsed values. */
  lemma ParseGridSizeOfParts(a: string, b: string)
    requires 'x' !in a && 'x' !in b
    requires TryParseInt(a).Some? && TryParseInt(b).Some?
    ensures ParseGridSize(a + "x" + b) == (TryParseInt(a).value, TryParseInt(b).value)
  {
    SplitInTwo(a, b, 'x');
  }

  /** Printing two 32-bit integers around an 'x' and parsing the result gives the two integers back. */
  lemma ParseGridSizeRoundTrip(width: int, height: int)
    requires MinInt32 <= width <= MaxInt32 && MinInt32 <= height <= MaxInt32
    ensures ParseGridSize(IntToString(width) + "x" + IntToString(height)) == (width, height)
  {
    ParsePrinted(width);
    ParsePrinted(height);
    ParseGridSizeOfParts(IntToString(width), IntToString(height));
  }

  /**
   * Text around a single 'x' falls back to (3, 3) as soon as either side fails to parse, in
   * particular when only the second side fails.
   */
  lemma ParseGridSizeFallback(a: string, b: string)
    requires 'x' !in a && 'x' !in b
    requires TryParseInt(a).None? || TryParseInt(b).None?
    ensures ParseGridSize(a + "x" + b) == (3, 3)
  {
    SplitInTwo(a, b, 'x');
  }

  /** Each of the nine listed presets parses to its stated size, e.g. "6x5" to (6, 5). */
  lemma PresetsGiveTheirSizes(selectedIndex: nat)
    requires selectedIndex < |PresetSizes|
    ensures ParseGridSize(GridSizeOptions[selectedIndex]) == PresetSizes[selectedIndex]
  {
    var (w, h) := PresetSizes[selectedIndex];
    assert GridSizeOptions[selectedIndex] == IntToString(w) + "x" + IntToString(h);
    ParseGridSizeRoundTrip(w, h);
  }

  /**
   * The editor's choice of grid size for the selected preset: a listed preset is parsed, while
   * "Custom", the last entry, is never handed to the parser and the level's own size is kept.
   */
  function PresetGridSize(selectedIndex: nat, width: int, height: int): (r: (int, int))
    requires selectedIndex < |GridSizeOptions|
    ensures selectedIndex < |PresetSizes| ==> r == PresetSizes[selectedIndex]
    ensures selectedIndex == |GridSizeOptions| - 1 ==> r == (width, height)
  {
    if selectedIndex < |GridSizeOptions| - 1 then
      PresetsGiveTheirSizes(selectedIndex);
      ParseGridSize(GridSizeOptions[selectedIndex])
    else
      (width, height)
  }

  /** "Custom" itself would not parse: it has no 'x'. */
  lemma CustomDoesNotParse()
    ensures ParseGridSize(GridSizeOptions[|GridSizeOptions| - 1]) == (3, 3)
  {
    assert Count("Custom", 'x') == 0;
  }
}
