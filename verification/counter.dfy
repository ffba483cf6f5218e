/** The statistics counter: when a `.stat` element first becomes visible its number
    counts up from 0 to the integer written in it, keeping the text's non-digit
    characters as a suffix. The 16 ms interval timer is an explicit Tick step, and
    the arithmetic is exact (real numbers), not IEEE doubles. */
module CounterAnimation {

  /** 2000 ms at one tick every 16 ms. */
  const TicksPerRun: nat := 125

  predicate IsDigit(c: char)
  {
    '0' <= c <= '9'
  }

  predicate AllDigits(s: string)
  {
    forall i :: 0 <= i < |s| ==> IsDigit(s[i])
  }

  function DigitValue(c: char): (d: nat)
    requires IsDigit(c)
    ensures d < 10
  {
    c as int - '0' as int
  }

  function DigitChar(d: nat): (c: char)
    requires d < 10
    ensures IsDigit(c) && DigitValue(c) == d
  {
    (d + '0' as int) as char
  }

  /** `Math.floor(current) + ''` for a non-negative integer: its decimal numeral,
      with no leading zero. */
  function Decimal(n: nat): (s: string)
    ensures |s| > 0 && AllDigits(s)
    ensures s[0] == '0' <==> n == 0
  {
    if n < 10 then [DigitChar(n)] else Decimal(n / 10) + [DigitChar(n % 10)]
  }

  /** The value of a numeral, most significant digit first. */
  function NumeralValue(d: string): nat
    requires AllDigits(d)
  {
    if d == [] then 0 else NumeralValue(d[..|d| - 1]) * 10 + DigitValue(d[|d| - 1])
  }

  /** The longest prefix of s made of ASCII digits. */
  function LeadingDigits(s: string): (d: string)
    ensures d <= s && AllDigits(d)
    ensures |d| < |s| ==> !IsDigit(s[|d|])
  {
    if s == [] || !IsDigit(s[0]) then [] else [s[0]] + LeadingDigits(s[1..])
  }

  predicate IsHexDigit(c: char)
  {
    IsDigit(c) || 'a' <= c <= 'f' || 'A' <= c <= 'F'
  }

  predicate AllHexDigits(s: string)
  {
    forall i :: 0 <= i < |s| ==> IsHexDigit(s[i])
  }

  function HexDigitValue(c: char): (d: nat)
    requires IsHexDigit(c)
    ensures d < 16
  {
    if IsDigit(c) then DigitValue(c)
    else if 'a' <= c <= 'f' then c as int - 'a' as int + 10
    else c as int - 'A' as int + 10
  }

  /** The value of a hexadecimal numeral, most significant digit first. */
  function HexValue(d: string): nat
    requires AllHexDigits(d)
  {
    if d == [] then 0 else HexValue(d[..|d| - 1]) * 16 + HexDigitValue(d[|d| - 1])
  }

  /** The longest prefix of s made of hexadecimal digits. */
  function LeadingHexDigits(s: string): (d: string)
    ensures d <= s && AllHexDigits(d)
    ensures |d| < |s| ==> !IsHexDigit(s[|d|])
  {
    if s == [] || !IsHexDigit(s[0]) then [] else [s[0]] + LeadingHexDigits(s[1..])
  }

  /** d is the whole run of decimal digits at the start of s. */
  predicate DigitRunOf(s: string, d: string)
  {
    d <= s && AllDigits(d) && (|d| == |s| || !IsDigit(s[|d|]))
  }

  /** h is the whole run of hexadecimal digits at the start of s. */
  predicate HexRunOf(s: string, h: string)
  {
    h <= s && AllHexDigits(h) && (|h| == |s| || !IsHexDigit(s[|h|]))
  }

  lemma {:induction false} DigitRunUnique(s: string)
    ensures forall d :: DigitRunOf(s, d) ==> d == LeadingDigits(s)
  {
    forall d | DigitRunOf(s, d)
      ensures d == LeadingDigits(s)
    {
      assert s == d + s[|d|..];
      LeadingDigitsOfNumeral(d, s[|d|..]);
    }
  }

  lemma {:induction false} HexRunIsLeading(s: string, h: string)
    requires HexRunOf(s, h)
    ensures h == LeadingHexDigits(s)
  {
    if h != [] {
      assert s[0] == h[0];
      assert HexRunOf(s[1..], h[1..]);
      HexRunIsLeading(s[1..], h[1..]);
    }
  }

  lemma HexRunUnique(s: string)
    ensures forall h :: HexRunOf(s, h) ==> h == LeadingHexDigits(s)
  {
    forall h | HexRunOf(s, h)
      ensures h == LeadingHexDigits(s)
    {
      HexRunIsLeading(s, h);
    }
  }

  /** `parseInt` without a radix reads a text that starts with "0x" or "0X" as hexadecimal. */
  predicate HasHexPrefix(s: string)
  {
    |s| >= 2 && s[0] == '0' && (s[1] == 'x' || s[1] == 'X')
  }

  /** The stat texts `parseInt` turns into a number: a leading ASCII digit, and a
      hexadecimal digit after a "0x" prefix. */
  predicate ParsesToNumber(text: string)
  {
    |text| > 0 && IsDigit(text[0]) && (HasHexPrefix(text) ==> |text| > 2 && IsHexDigit(text[2]))
  }

  /** `parseInt(text)` on a text it reads as a number: after a "0x"/"0X" prefix the
      value of the hexadecimal digits that follow it, otherwise the value of the
      decimal digits the text starts with; parsing stops at the first other character. */
  function ParseLeadingInt(text: string): (r: nat)
    requires ParsesToNumber(text)
    ensures !HasHexPrefix(text) ==> forall d :: DigitRunOf(text, d) ==> r == NumeralValue(d)
    ensures HasHexPrefix(text) ==> forall h :: HexRunOf(text[2..], h) ==> r == HexValue(h)
  {
    if HasHexPrefix(text) then
      HexRunUnique(text[2..]);
      HexValue(LeadingHexDigits(text[2..]))
    else
      DigitRunUnique(text);
      NumeralValue(LeadingDigits(text))
  }

  /** `text.replace(/[0-9]/g, '')`. */
  function StripDigits(s: string): (r: string)
    ensures |r| <= |s|
    ensures forall c :: c in r <==> c in s && !IsDigit(c)
  {
    if s == [] then [] else (if IsDigit(s[0]) then [] else [s[0]]) + StripDigits(s[1..])
  }

  lemma {:induction false} DecimalValue(n: nat)
    ensures NumeralValue(Decimal(n)) == n
  {
    if n >= 10 {
      var d := Decimal(n);
      assert d[..|d| - 1] == Decimal(n / 10);
      DecimalValue(n / 10);
    }
  }

  lemma {:induction false} LeadingDigitsOfNumeral(d: string, rest: string)
    requires AllDigits(d)
    requires rest == [] || !IsDigit(rest[0])
    ensures LeadingDigits(d + rest) == d
  {
    if d == [] {
      assert d + rest == rest;
    } else {
      assert (d + rest)[1..] == d[1..] + rest;
      LeadingDigitsOfNumeral(d[1..], rest);
    }
  }

  lemma {:induction false} StripDigitsAppend(a: string, b: string)
    ensures StripDigits(a + b) == StripDigits(a) + StripDigits(b)
  {
    if a == [] {
      assert a + b == b;
    } else {
      assert (a + b)[1..] == a[1..] + b;
      StripDigitsAppend(a[1..], b);
    }
  }

  /** A numeral followed by a suffix starts with "0x" only when it is "0" and the
      suffix starts with an x. */
  lemma NumeralHexPrefix(n: nat, suffix: string)
    ensures HasHexPrefix(Decimal(n) + suffix) <==>
            n == 0 && |suffix| > 0 && (suffix[0] == 'x' || suffix[0] == 'X')
  {
    var s := Decimal(n) + suffix;
    if n >= 10 {
      assert s[1] == Decimal(n)[1];
      assert IsDigit(s[1]);
    } else if n > 0 {
      assert s[0] == DigitChar(n);
    }
  }

  /** A numeral followed by a text without digits re-parses to that number, unless
      it reads as a "0x" prefix. */
  lemma NumeralThenSuffixParses(n: nat, suffix: string)
    requires forall c :: c in suffix ==> !IsDigit(c)
    requires !(n == 0 && |suffix| > 0 && (suffix[0] == 'x' || suffix[0] == 'X'))
    ensures ParsesToNumber(Decimal(n) + suffix)
    ensures ParseLeadingInt(Decimal(n) + suffix) == n
    ensures StripDigits(Decimal(n) + suffix) == suffix
  {
    NumeralHexPrefix(n, suffix);
    LeadingDigitsOfNumeral(Decimal(n), suffix);
    DecimalValue(n);
    StripDigitsAppend(Decimal(n), suffix);
    NoDigitsUnchanged(suffix);
    StripDigitsOfNumeral(Decimal(n));
  }

  lemma {:induction false} StripDigitsOfNumeral(d: string)
    requires AllDigits(d)
    ensures StripDigits(d) == []
  {
    if d != [] {
      StripDigitsOfNumeral(d[1..]);
    }
  }

  lemma {:induction false} NoDigitsUnchanged(s: string)
    requires forall c :: c in s ==> !IsDigit(c)
    ensures StripDigits(s) == s
  {
    if s != [] {
      assert s == [s[0]] + s[1..];
      NoDigitsUnchanged(s[1..]);
    }
  }

  /** The last frame, the target followed by the suffix, reads back as the same number
      with the same suffix: the animation ends on a text equivalent to the original. */
  lemma FinalTextReparses(text: string)
    requires ParsesToNumber(text)
    requires var suffix := StripDigits(text);
             !(ParseLeadingInt(text) == 0 && |suffix| > 0 && (suffix[0] == 'x' || suffix[0] == 'X'))
    ensures var last := Decimal(ParseLeadingInt(text)) + StripDigits(text);
            ParsesToNumber(last) &&
            ParseLeadingInt(last) == ParseLeadingInt(text) &&
            StripDigits(last) == StripDigits(text)
  {
    NumeralThenSuffixParses(ParseLeadingInt(text), StripDigits(text));
  }

  /** The exception: "00x5" counts up to 0 with suffix "x", and its last frame "0x"
      is a hexadecimal prefix with no digit, which parseInt does not read as a number. */
  lemma FinalTextOfZeroThenX()
    ensures ParseLeadingInt("00x5") == 0 && StripDigits("00x5") == "x"
    ensures Decimal(ParseLeadingInt("00x5")) + StripDigits("00x5") == "0x"
    ensures !ParsesToNumber("0x")
  {
    var text := "00x5";
    assert LeadingDigits(text[2..]) == [];
    assert LeadingDigits(text[1..]) == "0";
    assert LeadingDigits(text) == "00";
    assert NumeralValue("0") == 0;
    assert "00"[..1] == "0";
    assert NumeralValue("00") == 0;
    assert StripDigits(text[3..]) == [];
    assert StripDigits(text[2..]) == "x";
    assert Decimal(0) == "0";
  }

  lemma Example250Plus()
    ensures ParseLeadingInt("250+") == 250 && StripDigits("250+") == "+"
  {
    var text := "250+";
    assert LeadingDigits(text[3..]) == [];
    assert LeadingDigits(text[2..]) == "0";
    assert LeadingDigits(text[1..]) == "50";
    assert LeadingDigits(text) == "250";
    assert NumeralValue("2") == 2;
    assert "25"[..1] == "2";
    assert NumeralValue("25") == 25;
    assert "250"[..2] == "25";
    assert NumeralValue("250") == 250;
    assert StripDigits(text[3..]) == "+";
  }

  /** A hexadecimal stat: "0x1F" counts up to 31, keeping "xF" as the suffix. */
  lemma ExampleHex()
    ensures ParseLeadingInt("0x1F") == 31 && StripDigits("0x1F") == "xF"
  {
    assert HasHexPrefix("0x1F") && "0x1F"[2..] == "1F";
    HexDigits1F();
    StripDigits0x1F();
  }

  lemma HexDigits1F()
    ensures LeadingHexDigits("1F") == "1F" && HexValue("1F") == 31
  {
    var digits := "1F";
    assert digits[1..] == "F" && "F"[1..] == [];
    assert IsHexDigit('1') && IsHexDigit('F');
    assert LeadingHexDigits("F") == "F";
    assert HexDigitValue('1') == 1 && HexDigitValue('F') == 15;
    assert digits[..1] == "1" && "1"[..0] == [];
    assert HexValue("1") == 1;
  }

  lemma StripDigits0x1F()
    ensures StripDigits("0x1F") == "xF"
  {
    assert "0x1F"[1..] == "x1F" && "x1F"[1..] == "1F" && "1F"[1..] == "F" && "F"[1..] == [];
    assert StripDigits("F") == "F";
    assert StripDigits("1F") == "F";
    assert StripDigits("x1F") == "xF";
  }

  /** `current` after k ticks: k steps of target / 125, clamped at the target. */
  function Frame(target: nat, k: nat): (c: real)
    ensures 0.0 <= c <= target as real
  {
    var v := k as real * (target as real / TicksPerRun as real);
    if v >= target as real then target as real else v
  }

  /** The displayed number never decreases from one tick to a later one. */
  lemma FrameMonotone(target: nat, j: nat, k: nat)
    requires j <= k
    ensures Frame(target, j) <= Frame(target, k)
  {
    var step := target as real / TicksPerRun as real;
    assert j as real * step <= k as real * step by {
      assert (k as real - j as real) * step >= 0.0;
    }
  }

  /** A positive target is reached exactly at tick 125 (2 seconds), never before. */
  lemma ReachedAtLastTick(target: nat, k: nat)
    requires target > 0
    ensures Frame(target, k) == target as real <==> k >= TicksPerRun
  {
    var t := target as real;
    var step := t / 125.0;
    var v := k as real * step;
    assert v == (k as real / 125.0) * t;
    if k >= TicksPerRun {
      assert k as real / 125.0 >= 1.0;
      assert (k as real / 125.0) * t >= 1.0 * t;
    } else {
      assert k as real / 125.0 < 1.0;
      assert (k as real / 125.0) * t < 1.0 * t;
      assert Frame(target, k) == v;
    }
  }

  /** Before the clamp, current is k whole steps; the next tick adds one step. */
  lemma FrameNext(target: nat, k: nat)
    requires k == 0 || Frame(target, k) < target as real
    ensures var step := target as real / TicksPerRun as real;
            Frame(target, k) == k as real * step &&
            Frame(target, k + 1) == if Frame(target, k) + step >= target as real then target as real
                                    else Frame(target, k) + step
  {
    var step := target as real / TicksPerRun as real;
    assert (k + 1) as real * step == k as real * step + step;
    if k == 0 {
      assert 0.0 * step == 0.0;
    }
  }

  /** The text shown at a frame: the integer part of current, then the suffix. */
  function Shown(current: real, suffix: string): (r: string)
    requires current >= 0.0
    ensures |r| > |suffix| && r[|r| - |suffix|..] == suffix
    ensures AllDigits(r[..|r| - |suffix|]) && NumeralValue(r[..|r| - |suffix|]) == current.Floor
  {
    DecimalValue(current.Floor);
    var d := Decimal(current.Floor);
    assert (d + suffix)[..|d|] == d && (d + suffix)[|d|..] == suffix;
    d + suffix
  }

  /** A `.stat-number` element and the state of its counter animation. */
  class StatNumber {
    var text: string
    /** the data-animated attribute */
    var animated: bool
    /** the interval timer is active */
    var running: bool
    var target: nat
    var suffix: string
    var step: real
    var current: real
    ghost var ticks: nat

    ghost predicate Valid()
      reads this
    {
      (running ==> animated) &&
      (animated ==>
        step == target as real / TicksPerRun as real &&
        (forall c :: c in suffix ==> !IsDigit(c)) &&
        current == Frame(target, ticks) &&
        (running <==> ticks == 0 || current < target as real) &&
        (ticks > 0 ==> text == Shown(current, suffix)))
    }

    constructor (text: string)
      ensures Valid() && !animated && !running && this.text == text
    {
      this.text := text;
      animated, running := false, false;
      target, suffix, step, current := 0, [], 0.0, 0.0;
      ticks := 0;
    }

    /** `animateCounter(element)` on this element: once only, per data-animated. */
    method Animate()
      requires Valid()
      requires !animated ==> ParsesToNumber(text)
      modifies this
      ensures Valid()
      ensures old(animated) ==> unchanged(this)
      ensures !old(animated) ==>
                animated && running && ticks == 0 && current == 0.0 && text == old(text) &&
                target == ParseLeadingInt(old(text)) && suffix == StripDigits(old(text))
    {
      if animated {
        return;
      }
      target := ParseLeadingInt(text);
      suffix := StripDigits(text);
      step := target as real / TicksPerRun as real;
      current := 0.0;
      animated := true;
      running := true;
      ticks := 0;
    }

    /** One firing of the 16 ms interval timer. */
    method Tick()
      requires Valid() && running
      modifies this
      ensures Valid()
      ensures animated && target == old(target) && suffix == old(suffix)
      ensures ticks == old(ticks) + 1 && current == Frame(target, ticks)
      ensures old(current) <= current <= target as real
      ensures text == Shown(current, suffix)
      ensures running <==> current < target as real
      ensures !running ==> text == Decimal(target) + suffix
    {
      FrameNext(target, ticks);
      current := current + step;
      if current >= target as real {
        current := target as real;
        running := false;
      }
      text := Shown(current, suffix);
      ticks := ticks + 1;
    }
  }

  /** An element the scroll observer watches: a `.stat` carries its `.stat-number`,
      any other element (or a stat without a number) carries null. */
  class Observed {
    /** the animate-in class */
    var revealed: bool
    const number: StatNumber?

    constructor (number: StatNumber?)
      ensures !revealed && this.number == number
    {
      revealed := false;
      this.number := number;
    }

    /** One intersection entry for this element. Revealing is one-way, and a counter
        that has run once is never restarted. */
    method OnIntersection(isIntersecting: bool)
      requires number != null ==> number.Valid()
      requires number != null && !number.animated ==> ParsesToNumber(number.text)
      modifies this, number
      ensures revealed == (old(revealed) || isIntersecting)
      ensures number != null ==> number.Valid()
      ensures number != null && (old(number.animated) || !isIntersecting) ==> unchanged(number)
      ensures number != null && isIntersecting ==> number.animated
      ensures number != null && isIntersecting && !old(number.animated) ==>
                number.running && number.ticks == 0 && number.current == 0.0 &&
                number.text == old(number.text) &&
                number.target == ParseLeadingInt(old(number.text)) &&
                number.suffix == StripDigits(old(number.text))
    {
      if isIntersecting {
        revealed := true;
        if number != null {
          number.Animate();
        }
      }
    }
  }
}
