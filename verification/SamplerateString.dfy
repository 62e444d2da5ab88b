/** Sample rates as text: what sr_samplerate_string prints, what sr_parse_sizestring reads, and which
rates survive being saved in a session file and loaded again. */
module SamplerateString {

  const ULLONG_MAX: nat := 0xffff_ffff_ffff_ffff

  // Printing.

  function DigitChar(d: nat): (c: char)
    requires d < 10
    ensures IsDigit(c) && DigitValue(c) == d
  {
    (d + 48) as char
  }

  predicate IsDigit(c: char) {
    '0' <= c <= '9'
  }

  function DigitValue(c: char): nat
    requires IsDigit(c)
  {
    c as nat - 48
  }

  function Decimal(n: nat): (s: string)
    ensures s != "" && forall i :: 0 <= i < |s| ==> IsDigit(s[i])
  {
    if n < 10 then [DigitChar(n)] else Decimal(n / 10) + [DigitChar(n % 10)]
  }

  /** The unit a rate is printed in. */
  datatype Unit = Hz | KHz | MHz | GHz

  function UnitOf(s: nat): Unit {
    if s >= 1_000_000_000 then GHz else if s >= 1_000_000 then MHz else if s >= 1_000 then KHz else Hz
  }

  function Factor(u: Unit): (f: nat)
    ensures f >= 1
  {
    match u case Hz => 1 case KHz => 1_000 case MHz => 1_000_000 case GHz => 1_000_000_000
  }

  function UnitName(u: Unit): string {
    match u case Hz => " Hz" case KHz => " kHz" case MHz => " MHz" case GHz => " GHz"
  }

  function SamplerateString(s: nat): string {
    if s >= 1_000_000_000 && s % 1_000_000_000 == 0 then
      Decimal(s / 1_000_000_000) + " GHz"
    else if s >= 1_000_000_000 && s % 1_000_000_000 != 0 then
      Decimal(s / 1_000_000_000) + ("." + (Decimal(s % 1_000_000_000) + " GHz"))
    else if s >= 1_000_000 && s % 1_000_000 == 0 then
      Decimal(s / 1_000_000) + " MHz"
    else if s >= 1_000_000 && s % 1_000_000 != 0 then
      Decimal(s / 1_000_000) + ("." + (Decimal(s % 1_000_000) + " MHz"))
    else if s >= 1_000 && s % 1_000 == 0 then
      Decimal(s / 1_000) + " kHz"
    else if s >= 1_000 && s % 1_000 != 0 then
      Decimal(s / 1_000) + ("." + (Decimal(s % 1_000) + " kHz"))
    else
      Decimal(s) + " Hz"
  }

  /** The rate is not a whole number of its unit. */
  predicate HasFraction(s: nat) {
    s % Factor(UnitOf(s)) != 0
  }

  // Parsing.

  /** The digits at the front of `s`, read as a number that begins with `acc`, and what follows them. */
  function ReadDigits(s: string, acc: nat): (nat, string) {
    if s != "" && IsDigit(s[0]) then ReadDigits(s[1..], 10 * acc + DigitValue(s[0])) else (acc, s)
  }

  function SkipSpace(s: string): (rest: string)
    ensures |rest| <= |s|
  {
    if s != "" && (s[0] == ' ' || '\t' <= s[0] <= '\r') then SkipSpace(s[1..]) else s
  }

  /** strtoull in base 10: white space, a sign, digits; without digits nothing is taken, and a number
      that is too large saturates. */
  function Strtoull(s: string): (nat, string) {
    var body := SkipSpace(s);
    var negative := body != "" && body[0] == '-';
    var digits := if body != "" && (body[0] == '-' || body[0] == '+') then body[1..] else body;
    if digits == "" || !IsDigit(digits[0]) then (0, s)
    else
      var (value, rest) := ReadDigits(digits, 0);
      if value > ULLONG_MAX then (ULLONG_MAX, rest)
      else (if negative && value != 0 then 0x1_0000_0000_0000_0000 - value else value, rest)
  }

  /** The loop over the suffix: spaces, and at most one multiplier. */
  function ReadSuffix(s: string): (nat, string) {
    if s == "" then (0, s)
    else if s[0] == ' ' then ReadSuffix(s[1..])
    else if s[0] == 'k' || s[0] == 'K' then (1_000, s[1..])
    else if s[0] == 'm' || s[0] == 'M' then (1_000_000, s[1..])
    else if s[0] == 'g' || s[0] == 'G' then (1_000_000_000, s[1..])
    else (0, s)
  }

  /** A character that multiplies. */
  predicate Multiplies(c: char, factor: nat) {
    || (factor == 1_000 && (c == 'k' || c == 'K'))
    || (factor == 1_000_000 && (c == 'm' || c == 'M'))
    || (factor == 1_000_000_000 && (c == 'g' || c == 'G'))
  }

  /** After any spaces comes a character that multiplies, or there is none. */
  lemma {:induction false} SuffixIs(s: string) returns (spaces: nat)
    ensures spaces <= |s| && forall i :: 0 <= i < spaces ==> s[i] == ' '
    ensures var (factor, rest) := ReadSuffix(s);
            if factor > 0 then spaces < |s| && Multiplies(s[spaces], factor) && rest == s[spaces + 1..]
            else rest == s[spaces..] && (rest != "" ==> rest[0] != ' ' && forall f :: !Multiplies(rest[0], f))
  {
    spaces := 0;
    if s != "" && s[0] == ' ' {
      var n := SuffixIs(s[1..]);
      spaces := n + 1;
    }
  }

  function Spaces(n: nat): (s: string)
    ensures |s| == n
  {
    if n == 0 then "" else " " + Spaces(n - 1)
  }

  lemma {:induction false} SkipSpaces(n: nat, rest: string)
    ensures ReadSuffix(Spaces(n) + rest) == ReadSuffix(rest)
  {
    if n == 0 {
      assert Spaces(n) + rest == rest;
    } else {
      SkipSpaces(n - 1, rest);
      assert (Spaces(n) + rest)[1..] == Spaces(n - 1) + rest;
    }
  }

  predicate IsHz(s: string) {
    |s| == 2 && (s[0] == 'H' || s[0] == 'h') && (s[1] == 'z' || s[1] == 'Z')
  }

  /** Whether the string is accepted, and the size that is stored in either case. */
  function ParsedSize(s: string): (bool, nat) {
    var (value, suffix) := Strtoull(s);
    var (multiplier, rest) := ReadSuffix(suffix);
    (rest == "" || IsHz(rest), if multiplier > 0 then value * multiplier % 0x1_0000_0000_0000_0000 else value)
  }

  method ParseSizestring(sizestring: string) returns (ok: bool, size: nat)
    ensures (ok, size) == ParsedSize(sizestring)
  {
    var s: string;
    var t := Strtoull(sizestring);
    size, s := t.0, t.1;
    var multiplier, done := 0, false;
    ghost var suffix := s;
    while s != "" && multiplier == 0 && !done
      invariant ReadSuffix(suffix) == if multiplier > 0 || done then (multiplier, s) else ReadSuffix(s)
      invariant done ==> multiplier == 0
      decreases |s|, !done
    {
      match s[0] {
        case ' ' => s := s[1..];
        case 'k' => multiplier := 1_000; s := s[1..];
        case 'K' => multiplier := 1_000; s := s[1..];
        case 'm' => multiplier := 1_000_000; s := s[1..];
        case 'M' => multiplier := 1_000_000; s := s[1..];
        case 'g' => multiplier := 1_000_000_000; s := s[1..];
        case 'G' => multiplier := 1_000_000_000; s := s[1..];
        case _ => done := true;
      }
    }
    if multiplier > 0 {
      size := size * multiplier % 0x1_0000_0000_0000_0000;
    }
    ok := s == "" || IsHz(s);
  }

  // Reading what was printed.

  lemma {:induction false} ReadDigitsOfJoin(a: string, rest: string, acc: nat)
    requires forall i :: 0 <= i < |a| ==> IsDigit(a[i])
    ensures ReadDigits(a + rest, acc) == ReadDigits(rest, ReadDigits(a, acc).0)
    ensures ReadDigits(a, acc).1 == ""
  {
    if a == "" {
      assert a + rest == rest;
    } else {
      assert (a + rest)[1..] == a[1..] + rest;
      ReadDigitsOfJoin(a[1..], rest, 10 * acc + DigitValue(a[0]));
    }
  }

  lemma {:induction false} ReadDecimal(n: nat)
    ensures ReadDigits(Decimal(n), 0).0 == n
  {
    if n >= 10 {
      ReadDecimal(n / 10);
      ReadDigitsOfJoin(Decimal(n / 10), [DigitChar(n % 10)], 0);
      assert ReadDigits([DigitChar(n % 10)], n / 10).0 == 10 * (n / 10) + n % 10;
    }
  }

  /** A printed number is read back, up to what follows it. */
  lemma ReadPrinted(n: nat, rest: string)
    requires rest == "" || !IsDigit(rest[0])
    ensures ReadDigits(Decimal(n) + rest, 0) == (n, rest)
    ensures n <= ULLONG_MAX ==> Strtoull(Decimal(n) + rest) == (n, rest)
  {
    ReadDecimal(n);
    ReadDigitsOfJoin(Decimal(n), rest, 0);
    assert IsDigit((Decimal(n) + rest)[0]);
  }

  /** The unit is chosen so that the number before it has at most three digits, if there is a unit for that. */
  lemma UnitIsFitting(s: nat)
    requires s > 0
    ensures var u := UnitOf(s);
            SamplerateString(s)[..|Decimal(s / Factor(u))|] == Decimal(s / Factor(u))
    ensures 1 <= s / Factor(UnitOf(s)) && (UnitOf(s) != GHz ==> s / Factor(UnitOf(s)) < 1_000)
  {
    Printed(s);
  }

  /** White space and a sign may precede a number; a minus sign wraps it around, and one that is too large
      saturates. Without a digit nothing is read. */
  lemma ReadSigned(n: nat, spaces: nat, minus: bool, rest: string)
    requires rest == "" || !IsDigit(rest[0])
    ensures Strtoull(Spaces(spaces) + ((if minus then "-" else "+") + (Decimal(n) + rest))) ==
            (if n > 0xffff_ffff_ffff_ffff then 0xffff_ffff_ffff_ffff
             else if minus && n > 0 then 0x1_0000_0000_0000_0000 - n else n, rest)
  {
    var sign, digits := if minus then "-" else "+", Decimal(n) + rest;
    var body := sign + digits;
    SkipWhite(spaces, body);
    assert SkipSpace(body) == body && body[1..] == digits && IsDigit(digits[0]);
    assert ReadDigits(digits, 0) == (n, rest) by {
      ReadPrinted(n, rest);
    }
  }

  lemma {:induction false} SkipWhite(n: nat, rest: string)
    ensures SkipSpace(Spaces(n) + rest) == SkipSpace(rest)
  {
    if n == 0 {
      assert Spaces(n) + rest == rest;
    } else {
      SkipWhite(n - 1, rest);
      assert (Spaces(n) + rest)[1..] == Spaces(n - 1) + rest;
    }
  }

  /** A number, any spaces, a character that multiplies, and nothing or Hz after it, in any case. */
  lemma ParseWithUnit(n: nat, spaces: nat, c: char, factor: nat, tail: string)
    requires n <= ULLONG_MAX && Multiplies(c, factor)
    ensures ParsedSize(Decimal(n) + (Spaces(spaces) + ([c] + tail))) ==
            (tail == "" || tail in ["Hz", "hz", "HZ", "hZ"], n * factor % 0x1_0000_0000_0000_0000)
  {
    var suffix := Spaces(spaces) + ([c] + tail);
    assert !IsDigit(suffix[0]) by {
      assert spaces > 0 ==> Spaces(spaces)[0] == ' ';
    }
    ReadPrinted(n, suffix);
    SkipSpaces(spaces, [c] + tail);
    assert ([c] + tail)[1..] == tail;
    HzInAnyCase(tail);
  }

  lemma HzInAnyCase(s: string)
    ensures IsHz(s) <==> s in ["Hz", "hz", "HZ", "hZ"]
  {
    if IsHz(s) {
      assert s == [s[0], s[1]];
    }
  }

  /** What is printed, in terms of the unit. */
  lemma Printed(s: nat)
    ensures var u := UnitOf(s);
            SamplerateString(s) ==
            Decimal(s / Factor(u)) +
            (if HasFraction(s) then "." + (Decimal(s % Factor(u)) + UnitName(u)) else UnitName(u))
  {
  }

  lemma ReadUnit(u: Unit)
    ensures ReadSuffix(UnitName(u)) == (if u == Hz then 0 else Factor(u), "Hz")
  {
    assert UnitName(u)[1..][1..] == if u == Hz then "z" else "Hz";
    assert UnitName(Hz)[1..] == "Hz";
  }

  /** Reading a printed rate succeeds exactly if it was printed without a fraction, and then gives the
      rate; otherwise the size stored is the number of whole units. */
  lemma ParsePrinted(s: nat)
    requires s <= ULLONG_MAX
    ensures ParsedSize(SamplerateString(s)) ==
            if HasFraction(s) then (false, s / Factor(UnitOf(s))) else (true, s)
  {
    if HasFraction(s) {
      ParseFraction(s);
    } else {
      var u := UnitOf(s);
      Printed(s);
      ReadPrinted(s / Factor(u), UnitName(u));
      ReadUnit(u);
      WholeNumberOfUnits(s);
    }
  }

  lemma ParseFraction(s: nat)
    requires s <= ULLONG_MAX && HasFraction(s)
    ensures ParsedSize(SamplerateString(s)) == (false, s / Factor(UnitOf(s)))
  {
    var u := UnitOf(s);
    var rest := "." + (Decimal(s % Factor(u)) + UnitName(u));
    Printed(s);
    ReadPrinted(s / Factor(u), rest);
    assert rest[0] == '.';
    assert ReadSuffix(rest) == (0, rest);
  }

  lemma WholeNumberOfUnits(s: nat)
    requires !HasFraction(s)
    ensures s / Factor(UnitOf(s)) * Factor(UnitOf(s)) == s
  {
  }

  /** Saving a session writes the printed rate, and loading it stores what was parsed without looking at
      the outcome: the rate survives exactly if it is a whole number of its unit. */
  lemma SessionKeepsRateIff(s: nat)
    requires s <= ULLONG_MAX
    ensures ParsedSize(SamplerateString(s)).1 == s <==> !HasFraction(s)
  {
    ParsePrinted(s);
    if HasFraction(s) {
      assert Factor(UnitOf(s)) > 1;
      assert s / Factor(UnitOf(s)) < s;
    }
  }

  /** 1500 Hz is saved as a text that is loaded as 1 Hz. */
  lemma SessionLosesFraction()
    ensures SamplerateString(1500) == "1.500 kHz"
    ensures ParsedSize(SamplerateString(1500)) == (false, 1)
  {
    ParsePrinted(1500);
    assert Decimal(500) == "500" by {
      assert Decimal(50) == "50";
    }
  }

  /** What a reader of the printed text gets: whole units, the fraction's digits as a number, the unit. */
  lemma ReadParts(s: nat)
    requires HasFraction(s)
    ensures var u := UnitOf(s);
            var (whole, rest) := ReadDigits(SamplerateString(s), 0);
            whole == s / Factor(u) && |rest| > 1 && ReadDigits(rest[1..], 0) == (s % Factor(u), UnitName(u))
  {
    var u := UnitOf(s);
    Printed(s);
    var rest := "." + (Decimal(s % Factor(u)) + UnitName(u));
    ReadPrinted(s / Factor(u), rest);
    ReadPrinted(s % Factor(u), UnitName(u));
    assert rest[1..] == Decimal(s % Factor(u)) + UnitName(u);
  }

  /** No two rates print alike. */
  lemma PrintingIsInjective(a: nat, b: nat)
    requires a <= ULLONG_MAX && b <= ULLONG_MAX && SamplerateString(a) == SamplerateString(b)
    ensures a == b
  {
    ParsePrinted(a);
    ParsePrinted(b);
    if HasFraction(a) {
      ReadParts(a);
      ReadParts(b);
      UnitNamesDiffer(UnitOf(a), UnitOf(b));
      SumOfParts(a, Factor(UnitOf(a)));
      SumOfParts(b, Factor(UnitOf(b)));
    }
  }

  lemma UnitNamesDiffer(u: Unit, v: Unit)
    ensures UnitName(u) == UnitName(v) ==> u == v
  {
    assert UnitName(u)[1] == UnitName(v)[1] ==> u == v;
  }

  lemma SumOfParts(s: nat, f: nat)
    requires f > 0
    ensures s == s / f * f + s % f
  {
  }

  // Is the printed decimal the rate?

  function Pow10(n: nat): (p: nat)
    ensures p >= 1
  {
    if n == 0 then 1 else 10 * Pow10(n - 1)
  }

  lemma {:induction false} LengthIsAtMost(n: nat, k: nat)
    requires k >= 1
    ensures |Decimal(n)| <= k <==> n < Pow10(k)
  {
    if n >= 10 && k > 1 {
      LengthIsAtMost(n / 10, k - 1);
    }
  }

  lemma {:induction false} Pow10Grows(m: nat, n: nat)
    requires m < n
    ensures 10 * Pow10(m) <= Pow10(n)
    decreases n
  {
    if m < n - 1 {
      Pow10Grows(m, n - 1);
    }
  }

  function FractionDigits(u: Unit): nat {
    match u case Hz => 0 case KHz => 3 case MHz => 6 case GHz => 9
  }

  /** The fraction is printed without leading zeros, so the decimal shown, whole.fraction, equals the
      rate in its unit (compared here over the common denominator) if and only if it needs none: the
      documentation's 31.5 kHz for 31500 is shown as 31.500, but 31050 is shown as 31.50. */
  lemma ShownDecimalIsRateIff(s: nat)
    requires HasFraction(s)
    ensures var f := Factor(UnitOf(s));
            var shown := Pow10(|Decimal(s % f)|);
            s % f * f == s % f * shown <==> f / 10 <= s % f
  {
    var u := UnitOf(s);
    var f, b := Factor(u), s % Factor(u);
    var n, k := |Decimal(b)|, FractionDigits(u);
    FactorIsPow10(u);
    LengthIsAtMost(b, k);
    LengthIsAtMost(b, k - 1);
    if n < k {
      Pow10Grows(n, k);
    }
    CancelFraction(b, f, Pow10(n));
  }

  /** 31050 Hz is shown as a decimal of 31500 Hz. */
  lemma ShownDecimalIsWrong()
    ensures SamplerateString(31500) == "31.500 kHz" && SamplerateString(31050) == "31.50 kHz"
    ensures 31050 % 1000 * 1000 != 31050 % 1000 * Pow10(|Decimal(31050 % 1000)|)
  {
    assert Decimal(31) == "31" && Decimal(50) == "50" && Decimal(500) == "500";
    ShownDecimalIsRateIff(31050);
  }

  lemma FactorIsPow10(u: Unit)
    ensures Factor(u) == Pow10(FractionDigits(u))
  {
    assert Pow10(2) == 100;
    assert Pow10(4) == 10_000;
    assert Pow10(6) == 1_000_000;
    assert Pow10(8) == 100_000_000;
  }

  lemma CancelFraction(b: nat, f: nat, p: nat)
    requires b > 0
    ensures b * f == b * p <==> f == p
  {
  }
}
