/** The text printer (src/printer.js): visible widths on a terminal,
    padding, number formatting and the comparison table. Strings are
    sequences of code points, so a character that JavaScript stores as a
    surrogate pair is one `char` here. */
module Printer {
  import opened Wrappers
  import opened Text
  import opened Judgement

  // ---- colours ----

  const Esc: char := '\U{1B}'

  /** `color.green`, `color.red` and `color.reset`. */
  const Green: string := [Esc] + "[32m"
  const Red: string := [Esc] + "[31m"
  const Reset: string := [Esc] + "[0m"

  predicate IsDigit(c: char) {
    '0' <= c <= '9'
  }

  /** How many digits `s` starts with. */
  function DigitRun(s: string): (n: nat)
    ensures n <= |s|
    ensures forall i | 0 <= i < n :: IsDigit(s[i])
    ensures n < |s| ==> !IsDigit(s[n])
  {
    if |s| == 0 || !IsDigit(s[0]) then 0 else 1 + DigitRun(s[1..])
  }

  /** The length of the match of `/\u001b\[\d+m/` at the start of `s`, or 0
      when there is none. */
  function CodeLength(s: string): (k: nat)
    ensures k == 0 || (4 <= k <= |s| && s[0] == Esc && s[1] == '[' && s[k - 1] == 'm')
    ensures k > 0 ==> forall i | 2 <= i < k - 1 :: IsDigit(s[i])
  {
    if |s| >= 4 && s[0] == Esc && s[1] == '[' then
      var d := DigitRun(s[2..]);
      if d > 0 && 2 + d < |s| && s[2 + d] == 'm' then 3 + d else 0
    else 0
  }

  /** `str.replace( rColor, '' )`: every colour code removed, scanning from
      the left as a global replace does. */
  function StripColors(s: string): (r: string)
    ensures |r| <= |s|
    decreases |s|
  {
    if |s| == 0 then ""
    else
      var k := CodeLength(s);
      if k > 0 then StripColors(s[k..]) else [s[0]] + StripColors(s[1..])
  }

  predicate NoEsc(s: string) {
    forall i | 0 <= i < |s| :: s[i] != Esc
  }

  /** `[\ufe00-\ufe0f]`: a variation selector. */
  predicate IsSelector(c: char) {
    '\U{FE00}' <= c <= '\U{FE0F}'
  }

  predicate NoSelector(s: string) {
    forall i | 0 <= i < |s| :: !IsSelector(s[i])
  }

  /** Where the first variation selector is, or `|s|` when there is
      none. */
  function FirstSelector(s: string): (i: nat)
    ensures i <= |s| && NoSelector(s[..i])
    ensures i < |s| ==> IsSelector(s[i])
  {
    if |s| == 0 || IsSelector(s[0]) then 0
    else
      var i := 1 + FirstSelector(s[1..]);
      assert s[..i] == [s[0]] + s[1..][..i - 1];
      i
  }

  /** `str.replace( /[\ufe00-\ufe0f]/, '' )`: the regex has no `g` flag, so
      only the first variation selector goes. */
  function StripSelector(s: string): (r: string)
    ensures NoSelector(s) ==> r == s
    ensures !NoSelector(s) ==> exists i | 0 <= i < |s| ::
      && IsSelector(s[i]) && NoSelector(s[..i]) && r == s[..i] + s[i + 1..]
  {
    var i := FirstSelector(s);
    if i == |s| then s else s[..i] + s[i + 1..]
  }

  /** `width( str )`: the number of code points left once the colour codes
      and the first variation selector are removed. */
  function Width(s: string): (n: nat)
    ensures n <= |s|
  {
    |StripSelector(StripColors(s))|
  }

  // ---- properties of the width ----

  /** Text without escape characters loses nothing to colour stripping. */
  lemma {:induction false} PlainUnstripped(s: string)
    requires NoEsc(s)
    ensures StripColors(s) == s
    decreases |s|
  {
    if |s| > 0 {
      PlainUnstripped(s[1..]);
      assert s == [s[0]] + s[1..];
    }
  }

  /** Text without escape characters in front is kept as it is. */
  lemma {:induction false} PlainPrefixKept(p: string, s: string)
    requires NoEsc(p)
    ensures StripColors(p + s) == p + StripColors(s)
    decreases |p|
  {
    if |p| > 0 {
      var t := p + s;
      assert t[0] == p[0] != Esc;
      PlainHead(t);
      assert t[1..] == p[1..] + s;
      PlainPrefixKept(p[1..], s);
      assert [p[0]] + (p[1..] + StripColors(s)) == p + StripColors(s) by {
        assert p == [p[0]] + p[1..];
      }
    } else {
      assert p + s == s;
    }
  }

  /** A first character other than an escape is kept. */
  lemma PlainHead(t: string)
    requires |t| > 0 && t[0] != Esc
    ensures StripColors(t) == [t[0]] + StripColors(t[1..])
  {
    assert CodeLength(t) == 0;
  }

  /** A colour code in front disappears. */
  lemma ColourCodeVanishes(code: string, s: string)
    requires code == Green || code == Red || code == Reset
    ensures StripColors(code + s) == StripColors(s)
  {
    var t := code + s;
    assert t[2..][0] == code[2] && IsDigit(code[2]);
    if code == Reset {
      assert !IsDigit(t[2..][1]);
      assert DigitRun(t[2..]) == 1 by {
        assert t[2..][1..][0] == 'm';
      }
      assert CodeLength(t) == 4;
      assert t[4..] == s;
    } else {
      assert IsDigit(t[2..][1]) && !IsDigit(t[2..][2]);
      assert DigitRun(t[2..]) == 2 by {
        assert t[2..][1..][0] == t[3] && IsDigit(t[3]);
        assert t[2..][1..][1..][0] == 'm';
      }
      assert CodeLength(t) == 5;
      assert t[5..] == s;
    }
  }

  /** `color + text + color.reset`. */
  function Paint(colour: string, text: string): string {
    colour + text + Reset
  }

  /** Colouring plain text keeps it as it is to the eye: the codes are
      stripped and nothing else. */
  lemma PaintedIsStripped(colour: string, text: string, rest: string)
    requires colour == Green || colour == Red
    requires NoEsc(text)
    ensures StripColors(Paint(colour, text) + rest) == text + StripColors(rest)
  {
    assert Paint(colour, text) + rest == colour + (text + (Reset + rest));
    ColourCodeVanishes(colour, text + (Reset + rest));
    PlainPrefixKept(text, Reset + rest);
    ColourCodeVanishes(Reset, rest);
  }

  /** Text without escape characters or selectors is as wide as it is
      long. */
  lemma PlainWidth(s: string)
    requires NoEsc(s) && NoSelector(s)
    ensures Width(s) == |s|
  {
    PlainUnstripped(s);
  }

  /** Painting plain text does not change its width. */
  lemma PaintedWidth(colour: string, text: string)
    requires colour == Green || colour == Red
    requires NoEsc(text)
    ensures Width(Paint(colour, text)) == Width(text)
  {
    PaintedIsStripped(colour, text, "");
    assert Paint(colour, text) + "" == Paint(colour, text);
    assert StripColors("") == "";
    assert text + "" == text;
    PlainUnstripped(text);
  }

  /** Only the first variation selector is discounted: two of them count
      one. */
  lemma OnlyFirstSelectorDiscounted()
    ensures Width("a\U{FE0F}b\U{FE0F}") == 3
  {
    var s := "a\U{FE0F}b\U{FE0F}";
    PlainUnstripped(s);
    assert !IsSelector(s[0]) && IsSelector(s[1]);
    assert FirstSelector(s[1..]) == 0;
    assert FirstSelector(s) == 1;
  }

  // ---- padding ----

  /** `padFirst( str, length, pad )` for a one-character `pad`: as many
      `pad` in front as the visible width falls short of `length`. */
  function PadFirst(str: string, length: int, pad: char): (r: string)
    ensures |r| == |str| + (if length > Width(str) then length - Width(str) else 0)
    ensures r[|r| - |str|..] == str
    ensures forall i | 0 <= i < |r| - |str| :: r[i] == pad
  {
    var add := length - Width(str);
    if add > 0 then Repeat(pad, add) + str else str
  }

  /** `padLast( str, length, pad )`: the same, behind. */
  function PadLast(str: string, length: int, pad: char): (r: string)
    ensures |r| == |str| + (if length > Width(str) then length - Width(str) else 0)
    ensures r[..|str|] == str
    ensures forall i | |str| <= i < |r| :: r[i] == pad
  {
    var add := length - Width(str);
    if add > 0 then str + Repeat(pad, add) else str
  }

  /** A pad that is neither an escape nor a selector. */
  predicate PlainPad(pad: char) {
    pad != Esc && !IsSelector(pad)
  }

  lemma RepeatIsPlain(pad: char, n: nat)
    requires PlainPad(pad)
    ensures NoEsc(Repeat(pad, n)) && NoSelector(Repeat(pad, n))
  {
  }

  /** Padding in front brings the width up to `length`, never down. */
  lemma PadFirstWidth(str: string, length: int, pad: char)
    requires PlainPad(pad)
    ensures Width(PadFirst(str, length, pad)) == if length > Width(str) then length else Width(str)
  {
    var add := length - Width(str);
    if add > 0 {
      var p := Repeat(pad, add);
      RepeatIsPlain(pad, add);
      PlainPrefixKept(p, str);
      SelectorAfterPlain(p, StripColors(str));
    }
  }

  /** Stripping a selector skips plain text in front. */
  lemma SelectorAfterPlain(p: string, s: string)
    requires NoSelector(p)
    ensures StripSelector(p + s) == p + StripSelector(s)
  {
    FirstSelectorAfterPlain(p, s);
    var i := FirstSelector(s);
    var t := p + s;
    assert |t| == |p| + |s|;
    if i < |s| {
      calc {
        StripSelector(t);
        t[..|p| + i] + t[|p| + i + 1..];
        { DropAfterPlain(p, s, i); }
        p + (s[..i] + s[i + 1..]);
        p + StripSelector(s);
      }
    } else {
      assert StripSelector(t) == t && StripSelector(s) == s;
    }
  }

  /** Dropping the character at `|p| + i` of `p + s` drops the one at `i`
      of `s`. */
  lemma DropAfterPlain(p: string, s: string, i: nat)
    requires i < |s|
    ensures var t := p + s; t[..|p| + i] + t[|p| + i + 1..] == p + (s[..i] + s[i + 1..])
  {
    var t := p + s;
    assert t[..|p| + i] == p + s[..i];
    assert t[|p| + i + 1..] == s[i + 1..];
  }

  lemma {:induction false} FirstSelectorAfterPlain(p: string, s: string)
    requires NoSelector(p)
    ensures FirstSelector(p + s) == |p| + FirstSelector(s)
    decreases |p|
  {
    if |p| > 0 {
      assert (p + s)[0] == p[0];
      assert (p + s)[1..] == p[1..] + s;
      FirstSelectorAfterPlain(p[1..], s);
    } else {
      assert p + s == s;
    }
  }

  // ---- numbers ----

  /** `Math.round`: halves go up. */
  function Round(x: real): (n: int)
    ensures x - 0.5 < n as real <= x + 0.5
  {
    (x + 0.5).Floor
  }

  /** `Math.ceil`. */
  function Ceil(x: real): (n: int)
    ensures x <= n as real < x + 1.0
  {
    -((-x).Floor)
  }

  /** The prefix `format` puts before the magnitude: with `plus`, `+ `,
      `- ` or two spaces; without, `- ` for a negative number only. */
  function Sign(num: real, plus: bool): (p: string)
    ensures num < 0.0 ==> p == "- "
    ensures num > 0.0 ==> p == (if plus then "+ " else "")
    ensures num == 0.0 ==> p == (if plus then "  " else "")
  {
    if plus then (if num > 0.0 then "+ " else if num < 0.0 then "- " else "  ")
    else if num < 0.0 then "- " else ""
  }

  /** Lines 98-105 as written: whole seconds, then the remainder in
      milliseconds rounded on its own and padded with zeros BEHIND. */
  function MsAsWritten(abs: real): string
    requires abs >= 1.0
  {
    SecondsAsWritten(WholeSeconds(abs), Remainder(abs))
  }

  /** `Math.trunc( abs / 1000 )`. */
  function WholeSeconds(abs: real): nat
    requires abs >= 0.0
  {
    (abs / 1000.0).Floor
  }

  /** `Math.round( abs % 1000 )`. */
  function Remainder(abs: real): (ms: nat)
    requires abs >= 0.0
    ensures ms <= 1000
  {
    Round(abs - 1000.0 * WholeSeconds(abs) as real)
  }

  /** The text lines 98-105 build from whole seconds `s` and the separately
      rounded remainder `ms`. */
  function SecondsAsWritten(s: nat, ms: nat): string {
    if s > 0 then NatToString(s) + "." + PadLast(NatToString(ms), 3, '0') + " s"
    else NatToString(ms) + " ms"
  }

  /** A reference reading of the milliseconds branch, the one its output
      format suggests: the value is rounded to whole milliseconds first, then
      split into seconds and a three-digit remainder padded with zeros in
      front. `MsAgreesWithReference` says where lines 98-105 agree with it. */
  function Ms(abs: real): string
    requires abs >= 1.0
  {
    WholeMs(Round(abs))
  }

  /** The corrected text for a whole number of milliseconds. */
  function WholeMs(total: nat): string {
    if total >= 1000 then NatToString(total / 1000) + "." + PadFirst(NatToString(total % 1000), 3, '0') + " s"
    else NatToString(total) + " ms"
  }

  /** `format( num, unit, { plus } )`. `toFixed( x, d )` renders `x` with
      `d` decimals; its digits are not modelled. Every branch but the `P`
      one puts the sign prefix in front of the magnitude. */
  function Format(num: real, unit: string, plus: bool, toFixed: (real, nat) -> string): (r: string)
  {
    if unit == "P" then "P " + toFixed(num, 3)
    else Sign(num, plus) + Magnitude(Abs(num), unit, toFixed)
  }

  /** The text after the prefix, for `abs = Math.abs( num )`. The
      milliseconds branch is lines 98-105 as written. */
  function Magnitude(abs: real, unit: string, toFixed: (real, nat) -> string): string
    requires abs >= 0.0
  {
    if abs == 0.0 then "0 " + unit
    else if abs < 1.0 then "<0." + NatToString(Ceil(abs * 10.0)) + " " + unit
    else if unit == "ms" then MsAsWritten(abs)
    else if unit == "B" && abs > 1000000.0 then toFixed(abs / 1000000.0, 1) + " MB"
    else if unit == "B" && abs > 100000.0 then toFixed(abs / 1000.0, 0) + " kB"
    else if unit == "B" && abs > 1000.0 then toFixed(abs / 1000.0, 1) + " kB"
    else NatToString(Round(abs)) + " " + unit
  }

  // ---- properties of the formatting ----

  /** The sign and the magnitude are formatted apart: `format( num )` is
      the sign prefix followed by the format of `|num|`, and a number and
      its negation differ only in the prefix. */
  lemma FormatSplitsSign(num: real, unit: string, plus: bool, toFixed: (real, nat) -> string)
    requires unit != "P"
    ensures Format(num, unit, plus, toFixed) == Sign(num, plus) + Format(Abs(num), unit, false, toFixed)
    ensures num > 0.0 ==> Format(-num, unit, false, toFixed) == "- " + Format(num, unit, false, toFixed)
  {
    var abs := Abs(num);
    assert Sign(abs, false) == "" && Abs(abs) == abs;
    assert "" + Magnitude(abs, unit, toFixed) == Magnitude(abs, unit, toFixed);
    if num > 0.0 {
      assert Abs(-num) == num;
    }
  }

  /** Zero is `0 <unit>`, after two spaces in `plus` mode. */
  lemma FormatZero(unit: string, plus: bool, toFixed: (real, nat) -> string)
    requires unit != "P"
    ensures Format(0.0, unit, plus, toFixed) == (if plus then "  " else "") + "0 " + unit
  {
  }

  /** Below one unit, the value is shown as an upper bound in tenths:
      `<0.N` with N the number of tenths rounded up, from 1 to 10, so that
      the value lies in ((N - 1) / 10, N / 10]. */
  lemma FormatBelowOne(num: real, unit: string, plus: bool, toFixed: (real, nat) -> string)
    requires unit != "P" && 0.0 < Abs(num) < 1.0
    ensures var n := Ceil(Abs(num) * 10.0);
      && 1 <= n <= 10
      && (n - 1) as real / 10.0 < Abs(num) <= n as real / 10.0
      && Format(num, unit, plus, toFixed) == Sign(num, plus) + ("<0." + NatToString(n) + " " + unit)
  {
    var abs := Abs(num);
    var n := Ceil(abs * 10.0);
    TenthsBound(abs);
    assert Magnitude(abs, unit, toFixed) == "<0." + NatToString(n) + " " + unit;
  }

  lemma TenthsBound(x: real)
    requires 0.0 < x < 1.0
    ensures var n := Ceil(x * 10.0);
      1 <= n <= 10 && (n - 1) as real / 10.0 < x <= n as real / 10.0
  {
  }

  /** Ten tenths print as `<0.10`: a value just under one unit reads as
      under a tenth. */
  lemma NearlyOneReadsAsATenth(toFixed: (real, nat) -> string)
    ensures Format(0.95, "ms", false, toFixed) == "<0.10 ms"
  {
    assert Ceil(0.95 * 10.0) == 10;
    assert NatToString(10) == NatToString(1) + [Digit(0)];
  }

  /** Units other than `ms` and `B` (and bytes up to 1000) are rounded to
      the nearest whole number. */
  lemma FormatRounds(num: real, unit: string, plus: bool, toFixed: (real, nat) -> string)
    requires unit != "P" && unit != "ms" && Abs(num) >= 1.0
    requires unit == "B" ==> Abs(num) <= 1000.0
    ensures var n := Round(Abs(num));
      && 1 <= n && Abs(num) - 0.5 < n as real <= Abs(num) + 0.5
      && Format(num, unit, plus, toFixed) == Sign(num, plus) + (NatToString(n) + " " + unit)
  {
    var abs := Abs(num);
    assert Magnitude(abs, unit, toFixed) == NatToString(Round(abs)) + " " + unit;
  }

  /** Bytes are shown in MB exactly above a million, and in kB exactly
      above a thousand up to a million. */
  lemma ByteUnits(num: real, plus: bool, toFixed: (real, nat) -> string)
    ensures EndsWith(Format(num, "B", plus, toFixed), " MB") <==> Abs(num) > 1000000.0
    ensures EndsWith(Format(num, "B", plus, toFixed), " kB") <==> 1000.0 < Abs(num) <= 1000000.0
  {
    var r := Format(num, "B", plus, toFixed);
    var abs := Abs(num);
    var p := Sign(num, plus);
    assert r == p + Magnitude(abs, "B", toFixed);
    if abs > 1000000.0 {
      assert r == (p + toFixed(abs / 1000000.0, 1)) + " MB";
      SuffixOf(p + toFixed(abs / 1000000.0, 1), " MB", " kB");
    } else if abs > 100000.0 {
      assert r == (p + toFixed(abs / 1000.0, 0)) + " kB";
      SuffixOf(p + toFixed(abs / 1000.0, 0), " kB", " MB");
    } else if abs > 1000.0 {
      assert r == (p + toFixed(abs / 1000.0, 1)) + " kB";
      SuffixOf(p + toFixed(abs / 1000.0, 1), " kB", " MB");
    } else {
      var m := Magnitude(abs, "B", toFixed);
      SmallBytes(abs, toFixed);
      assert r[|r| - 2] == m[|m| - 2];
      NotAUnitSuffix(r);
    }
  }

  /** Up to a thousand, bytes are a number, a space and `B`. */
  lemma SmallBytes(abs: real, toFixed: (real, nat) -> string)
    requires 0.0 <= abs <= 1000.0
    ensures var m := Magnitude(abs, "B", toFixed); |m| >= 3 && m[|m| - 2] == ' '
  {
    var head := if abs == 0.0 then "0"
      else if abs < 1.0 then "<0." + NatToString(Ceil(abs * 10.0))
      else NatToString(Round(abs));
    assert Magnitude(abs, "B", toFixed) == head + " B";
  }

  /** `x + u` ends with `u` and with no other three-character unit. */
  lemma SuffixOf(x: string, u: string, other: string)
    requires |u| == 3 && |other| == 3 && u != other
    ensures EndsWith(x + u, u) && !EndsWith(x + u, other)
  {
    assert (x + u)[|x + u| - 3..] == u;
  }

  /** Text with a space before its last character ends in neither ` MB`
      nor ` kB`. */
  lemma NotAUnitSuffix(t: string)
    requires |t| >= 3 && t[|t| - 2] == ' '
    ensures !EndsWith(t, " MB") && !EndsWith(t, " kB")
  {
    DiffersAt(t, " MB", 1);
    DiffersAt(t, " kB", 1);
  }

  /** A string of zeros in front leaves the value of digits unchanged. */
  lemma {:induction false} LeadingZeros(k: nat, s: string)
    requires forall i | 0 <= i < |s| :: '0' <= s[i] <= '9'
    ensures forall i | 0 <= i < k + |s| :: '0' <= (Repeat('0', k) + s)[i] <= '9'
    ensures DigitsValue(Repeat('0', k) + s) == DigitsValue(s)
    decreases |s|
  {
    var z := Repeat('0', k);
    if |s| == 0 {
      assert z + s == z;
      ZerosValue(k);
    } else {
      var t := z + s;
      assert t[..|t| - 1] == z + s[..|s| - 1];
      LeadingZeros(k, s[..|s| - 1]);
    }
  }

  lemma {:induction false} ZerosValue(k: nat)
    ensures DigitsValue(Repeat('0', k)) == 0
  {
    if k > 0 {
      assert Repeat('0', k)[..k - 1] == Repeat('0', k - 1);
      ZerosValue(k - 1);
    }
  }

  /** Below 1000, at most three digits. */
  lemma ShortNumber(n: nat)
    requires n < 1000
    ensures |NatToString(n)| <= 3
  {
    if n >= 10 {
      var m := n / 10;
      assert m < 100;
      assert |NatToString(n)| == |NatToString(m)| + 1;
      if m >= 10 {
        assert m / 10 < 10;
        assert |NatToString(m)| == |NatToString(m / 10)| + 1;
      }
    }
  }

  /** The three digits after the point: the remainder, zeros in front. */
  lemma ThreeDigits(ms: nat)
    requires ms < 1000
    ensures var t := PadFirst(NatToString(ms), 3, '0');
      && |t| == 3 && (forall i | 0 <= i < 3 :: '0' <= t[i] <= '9') && DigitsValue(t) == ms
  {
    var d := NatToString(ms);
    ShortNumber(ms);
    PlainWidth(d);
    var t := PadFirst(d, 3, '0');
    LeadingZeros(3 - |d|, d);
    if |d| < 3 {
      assert t == Repeat('0', 3 - |d|) + d;
    } else {
      assert t == d;
      assert Repeat('0', 0) + d == d;
    }
  }

  /** The corrected milliseconds text reads back as the value rounded to
      whole milliseconds: `S.MMM s` with S * 1000 + MMM that value, or
      `M ms` below a second. */
  lemma MsReadsBack(abs: real)
    requires abs >= 1.0
    ensures Round(abs) >= 1000 ==> exists a: string, b: string :: SecondsReading(Ms(abs), a, b, Round(abs))
    ensures Round(abs) < 1000 ==> Ms(abs) == NatToString(Round(abs)) + " ms"
  {
    var total := Round(abs);
    WholeMsReadsBack(total);
    if total >= 1000 {
      var a, b :| SecondsReading(WholeMs(total), a, b, total);
      assert SecondsReading(Ms(abs), a, b, total);
    }
  }

  /** A duration of a millisecond or more is printed, after the sign
      prefix, as the text lines 98-105 build. Under a second it reads back
      as the duration rounded to whole milliseconds; from a second on it
      does so whenever the separately rounded remainder has three digits. */
  lemma FormatMsReadsBack(num: real, plus: bool, toFixed: (real, nat) -> string)
    requires Abs(num) >= 1.0
    ensures Format(num, "ms", plus, toFixed) == Sign(num, plus) + MsAsWritten(Abs(num))
    ensures WholeSeconds(Abs(num)) == 0 ==> MsAsWritten(Abs(num)) == NatToString(Round(Abs(num))) + " ms"
    ensures WholeSeconds(Abs(num)) > 0 && 100 <= Remainder(Abs(num)) < 1000 ==>
      exists a: string, b: string :: SecondsReading(MsAsWritten(Abs(num)), a, b, Round(Abs(num)))
  {
    var abs := Abs(num);
    assert Magnitude(abs, "ms", toFixed) == MsAsWritten(abs);
    AsWrittenReadsBack(abs);
  }

  /** The text of lines 98-105 reads back as the duration rounded to whole
      milliseconds below a second, and above it whenever the separately
      rounded remainder has three digits. */
  lemma AsWrittenReadsBack(abs: real)
    requires abs >= 1.0
    ensures WholeSeconds(abs) == 0 ==> MsAsWritten(abs) == NatToString(Round(abs)) + " ms"
    ensures WholeSeconds(abs) > 0 && 100 <= Remainder(abs) < 1000 ==>
      exists a: string, b: string :: SecondsReading(MsAsWritten(abs), a, b, Round(abs))
  {
    if WholeSeconds(abs) == 0 {
      assert abs - 1000.0 * WholeSeconds(abs) as real == abs;
      assert Remainder(abs) == Round(abs);
    } else if 100 <= Remainder(abs) < 1000 {
      MsAgreesWithReference(abs);
      assert abs >= 1000.0;
      MsReadsBack(abs);
    }
  }

  lemma WholeMsReadsBack(total: nat)
    ensures total >= 1000 ==> exists a: string, b: string :: SecondsReading(WholeMs(total), a, b, total)
    ensures total < 1000 ==> WholeMs(total) == NatToString(total) + " ms"
  {
    if total >= 1000 {
      var a := NatToString(total / 1000);
      var b := PadFirst(NatToString(total % 1000), 3, '0');
      SecondsText(total);
      ThreeDigits(total % 1000);
      ReadingOf(WholeMs(total), a, b, total);
    }
  }

  lemma ReadingOf(t: string, a: string, b: string, total: nat)
    requires t == a + "." + b + " s"
    requires |b| == 3 && (forall i | 0 <= i < 3 :: '0' <= b[i] <= '9') && (forall i | 0 <= i < |a| :: '0' <= a[i] <= '9')
    requires DigitsValue(a) == total / 1000 && DigitsValue(b) == total % 1000
    ensures SecondsReading(t, a, b, total)
  {
  }

  lemma SecondsText(total: nat)
    requires total >= 1000
    ensures WholeMs(total) == NatToString(total / 1000) + "." + PadFirst(NatToString(total % 1000), 3, '0') + " s"
  {
  }

  /** `t` is `a.b s` with `a` whole seconds and `b` three digits of
      milliseconds, together `total` milliseconds. */
  predicate SecondsReading(t: string, a: string, b: string, total: int) {
    && t == a + "." + b + " s"
    && |b| == 3 && (forall i | 0 <= i < |a| :: '0' <= a[i] <= '9') && (forall i | 0 <= i < 3 :: '0' <= b[i] <= '9')
    && DigitsValue(a) * 1000 + DigitsValue(b) == total
  }

  /** From 100 on, at least three digits. */
  lemma LongNumber(n: nat)
    requires n >= 100
    ensures |NatToString(n)| >= 3
  {
    var m := n / 10;
    assert m >= 10;
    assert |NatToString(n)| == |NatToString(m)| + 1;
    assert |NatToString(m)| == |NatToString(m / 10)| + 1;
  }

  /** Lines 98-105 agree with the reference reading below a second, and
      above it whenever the separately rounded remainder has exactly three
      digits. They differ for a remainder under 100 (padded behind) and for
      one that rounds up to 1000. */
  lemma MsAgreesWithReference(abs: real)
    requires abs >= 1.0
    ensures var s := WholeSeconds(abs);
      var ms := Remainder(abs);
      ((s == 0 && ms < 1000) || (s > 0 && 100 <= ms < 1000)) ==> MsAsWritten(abs) == Ms(abs)
  {
    var s := WholeSeconds(abs);
    var ms := Remainder(abs);
    var total := Round(abs);
    assert total == 1000 * s + ms by {
      RoundShift(abs - 1000.0 * s as real, 1000 * s);
      assert abs - 1000.0 * s as real + (1000 * s) as real == abs;
    }
    if ms < 1000 && (s == 0 || 100 <= ms) {
      WrittenAgrees(s, ms, total);
    }
  }

  /** Rounding commutes with adding a whole number. */
  lemma RoundShift(x: real, k: int)
    ensures Round(x + k as real) == Round(x) + k
  {
  }

  lemma WrittenAgrees(s: nat, ms: nat, total: nat)
    requires ms < 1000 && (s == 0 || 100 <= ms) && total == 1000 * s + ms
    ensures SecondsAsWritten(s, ms) == WholeMs(total)
  {
    if s > 0 {
      WrittenAgreesAbove(s, ms, total);
    }
  }

  lemma WrittenAgreesAbove(s: nat, ms: nat, total: nat)
    requires 0 < s && 100 <= ms < 1000 && total == 1000 * s + ms
    ensures SecondsAsWritten(s, ms) == WholeMs(total)
  {
    assert total / 1000 == s && total % 1000 == ms by {
      DivideThousands(s, ms);
    }
    SecondsText(total);
    var d := NatToString(ms);
    assert PadFirst(d, 3, '0') == d == PadLast(d, 3, '0') by {
      ShortNumber(ms);
      LongNumber(ms);
      PlainWidth(d);
    }
  }

  lemma DivideThousands(s: nat, ms: nat)
    requires ms < 1000
    ensures (1000 * s + ms) / 1000 == s && (1000 * s + ms) % 1000 == ms
  {
  }

  lemma Fifty()
    ensures NatToString(50) == "50" && Width("50") == 2
  {
    assert NatToString(50) == NatToString(5) + [Digit(0)];
    PlainWidth("50");
  }

  lemma Ten()
    ensures NatToString(10) == "10"
  {
    assert 10 / 10 == 1 && 10 % 10 == 0;
    assert NatToString(10) == NatToString(1) + [Digit(0)];
  }

  lemma Hundred()
    ensures NatToString(100) == "100"
  {
    assert 100 / 10 == 10 && 100 % 10 == 0;
    Ten();
    assert NatToString(100) == NatToString(10) + [Digit(0)];
  }

  lemma Thousand()
    ensures NatToString(1000) == "1000" && Width("1000") == 4
  {
    assert 1000 / 10 == 100 && 1000 % 10 == 0;
    Hundred();
    assert NatToString(1000) == NatToString(100) + [Digit(0)];
    PlainWidth("1000");
  }

  lemma PadFiftyBehind()
    ensures PadLast(NatToString(50), 3, '0') == "500"
  {
    Fifty();
    assert Repeat('0', 1) == "0";
  }

  lemma PadFiftyInFront()
    ensures PadFirst(NatToString(50), 3, '0') == "050"
  {
    Fifty();
    assert Repeat('0', 1) == "0";
  }

  lemma PadZeroInFront()
    ensures PadFirst(NatToString(0), 3, '0') == "000"
  {
    assert NatToString(0) == "0";
    PlainWidth("0");
    assert Repeat('0', 2) == "00";
  }

  /** Lines 98-105 as written pad the remainder behind: 1050 ms reads as
      one and a half seconds. */
  lemma MsPaddingMisplaced()
    ensures MsAsWritten(1050.0) == "1" + "." + "500" + " s"
  {
    assert MsAsWritten(1050.0) == SecondsAsWritten(1, 50) by {
      assert (1050.0 / 1000.0).Floor == 1;
      assert Round(1050.0 - 1000.0) == 50;
    }
    PadFiftyBehind();
    assert NatToString(1) == "1";
  }

  /** The reference reading prints 1050 ms as 1.050 s. */
  lemma MsPaddedInFront()
    ensures Ms(1050.0) == "1" + "." + "050" + " s"
  {
    assert Ms(1050.0) == WholeMs(1050) by {
      assert Round(1050.0) == 1050;
    }
    assert 1050 / 1000 == 1 && 1050 % 1000 == 50;
    PadFiftyInFront();
    assert NatToString(1) == "1";
  }

  /** Lines 98-105 as written round the remainder on its own, which can
      reach 1000: 1999.75 ms prints as `1.1000 s`. */
  lemma MsRemainderOverflows()
    ensures MsAsWritten(1999.75) == "1" + "." + "1000" + " s"
  {
    assert MsAsWritten(1999.75) == SecondsAsWritten(1, 1000) by {
      assert (1999.75 / 1000.0).Floor == 1;
      assert Round(1999.75 - 1000.0) == 1000;
    }
    Thousand();
    assert NatToString(1) == "1";
  }

  /** The reference reading rounds first and prints 2.000 s. */
  lemma MsRoundsFirst()
    ensures Ms(1999.75) == "2" + "." + "000" + " s"
  {
    assert Round(1999.75) == 2000;
    TwoSeconds();
  }

  lemma TwoSeconds()
    ensures WholeMs(2000) == "2" + "." + "000" + " s"
  {
    assert 2000 / 1000 == 2 && 2000 % 1000 == 0;
    PadZeroInFront();
    assert NatToString(2) == "2";
  }
}
