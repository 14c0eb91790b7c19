/** Numerals: JavaScript's `toString` of a natural number and the reading of digits. */
module Numerals {
  function Digit(n: nat): char
    requires n < 10
  {
    ('0' as int + n) as char
  }

  function Show(n: nat): string {
    if n < 10 then [Digit(n)] else Show(n / 10) + [Digit(n % 10)]
  }

  /** 99 for a character that is no digit of any base. */
  function DigitValue(c: char): nat {
    if '0' <= c <= '9' then c as int - '0' as int
    else if 'a' <= c <= 'f' then c as int - 'a' as int + 10
    else if 'A' <= c <= 'F' then c as int - 'A' as int + 10
    else 99
  }

  predicate AllDigits(s: string, base: nat) {
    forall i :: 0 <= i < |s| ==> DigitValue(s[i]) < base
  }

  function Val(s: string, base: nat): nat {
    if s == "" then 0 else Val(s[..|s| - 1], base) * base + DigitValue(s[|s| - 1])
  }

  function Pow(base: nat, n: nat): (p: nat)
    ensures base > 0 ==> p > 0
  {
    if n == 0 then 1 else base * Pow(base, n - 1)
  }

  function Zeros(n: nat): string {
    if n == 0 then "" else Zeros(n - 1) + "0"
  }

  function PadStart(s: string, n: nat): string {
    if |s| < n then Zeros(n - |s|) + s else s
  }

  lemma {:induction false} ShowReads(n: nat)
    ensures AllDigits(Show(n), 10) && Val(Show(n), 10) == n && Show(n) != ""
    ensures |Show(n)| > 1 ==> Show(n)[0] != '0'
  {
    if n < 10 {
      assert Show(n)[..0] == "";
    } else {
      ShowReads(n / 10);
      var front := Show(n / 10);
      assert (front + [Digit(n % 10)])[..|front|] == front;
      if |front| == 1 {
        assert front[..0] == "" && front[0] != '0';
      }
    }
  }

  /** Digits are what they are called, in either case beyond nine, and nothing else is a digit. */
  lemma DigitsMean(c: char)
    ensures forall k :: 0 <= k < 10 ==> Digit(k) == "0123456789"[k]
    ensures forall k :: 0 <= k < 16 ==>
              DigitValue("0123456789abcdef"[k]) == k && DigitValue("0123456789ABCDEF"[k]) == k
    ensures DigitValue(c) < 16 <==> c in "0123456789abcdefABCDEF"
  {
    var lower, upper := "0123456789abcdef", "0123456789ABCDEF";
    assert forall k :: 0 <= k < 16 ==> lower[k] as int == if k < 10 then 48 + k else 87 + k;
    assert forall k :: 0 <= k < 16 ==> upper[k] as int == if k < 10 then 48 + k else 55 + k;
    if DigitValue(c) < 10 {
      assert c == lower[DigitValue(c)];
    } else if DigitValue(c) < 16 {
      assert c == lower[DigitValue(c)] || c == upper[DigitValue(c)];
    }
  }

  lemma Regroup(a: nat, p: nat, f: nat, base: nat)
    ensures (a * p + f) * base == a * (base * p) + f * base
  {}

  lemma {:induction false} ValConcat(a: string, b: string, base: nat)
    ensures Val(a + b, base) == Val(a, base) * Pow(base, |b|) + Val(b, base)
  {
    if b == "" {
      assert a + b == a;
      assert Pow(base, 0) == 1;
    } else {
      var front := b[..|b| - 1];
      assert (a + b)[..|a + b| - 1] == a + front;
      ValConcat(a, front, base);
      hide Val, Pow;
      Regroup(Val(a, base), Pow(base, |front|), Val(front, base), base);
      ValStep(a + b, base);
      ValStep(b, base);
      PowStep(base, |b|);
    }
  }

  lemma ValStep(s: string, base: nat)
    requires s != ""
    ensures Val(s, base) == Val(s[..|s| - 1], base) * base + DigitValue(s[|s| - 1])
  {}

  lemma PowStep(base: nat, n: nat)
    requires n > 0
    ensures Pow(base, n) == base * Pow(base, n - 1)
  {}

  lemma StepBelow(v: nat, d: nat, p: nat, base: nat)
    requires v < p && d < base
    ensures v * base + d < base * p
  {
    assert (v + 1) * base <= p * base;
  }

  lemma {:induction false} ValIsBelow(s: string, base: nat)
    requires AllDigits(s, base)
    ensures Val(s, base) < Pow(base, |s|)
  {
    if s != "" {
      var front := s[..|s| - 1];
      ValIsBelow(front, base);
      hide Val, Pow;
      StepBelow(Val(front, base), DigitValue(s[|s| - 1]), Pow(base, |front|), base);
      ValStep(s, base);
      PowStep(base, |s|);
    }
  }

  lemma {:induction false} ZerosAreZero(n: nat)
    ensures |Zeros(n)| == n && AllDigits(Zeros(n), 10) && Val(Zeros(n), 10) == 0
  {
    if n > 0 {
      ZerosAreZero(n - 1);
      assert (Zeros(n - 1) + "0")[..n - 1] == Zeros(n - 1);
    }
  }

  lemma DigitsConcat(a: string, b: string, base: nat)
    requires AllDigits(a, base) && AllDigits(b, base)
    ensures AllDigits(a + b, base)
  {}

  lemma PadStartReads(s: string, n: nat)
    requires AllDigits(s, 10)
    ensures AllDigits(PadStart(s, n), 10) && Val(PadStart(s, n), 10) == Val(s, 10)
    ensures |PadStart(s, n)| == if |s| < n then n else |s|
  {
    if |s| < n {
      ZerosAreZero(n - |s|);
      hide Val, Pow, AllDigits;
      DigitsConcat(Zeros(n - |s|), s, 10);
      ValConcat(Zeros(n - |s|), s, 10);
      assert 0 * Pow(10, |s|) == 0;
    }
  }

  lemma Associate(a: nat, b: nat, c: nat)
    ensures a * (b * c) == (a * b) * c
  {}

  lemma {:induction false} PowAdds(base: nat, m: nat, n: nat)
    ensures Pow(base, m + n) == Pow(base, m) * Pow(base, n)
  {
    if m > 0 {
      PowAdds(base, m - 1, n);
      hide Pow;
      PowStep(base, m + n);
      PowStep(base, m);
      Associate(base, Pow(base, m - 1), Pow(base, n));
    }
  }

  /** A number below a power of ten shows within that many digits. */
  lemma {:induction false} ShowIsShort(n: nat, k: nat)
    requires k > 0 && n < Pow(10, k)
    ensures |Show(n)| <= k
    decreases k
  {
    if n >= 10 {
      PowStep(10, k);
      assert Pow(10, 0) == 1;
      ShowIsShort(n / 10, k - 1);
    }
  }

  lemma DigitIsItsValue(c: char)
    requires DigitValue(c) < 10
    ensures Digit(DigitValue(c)) == c
  {}

  /** Digits of equal length and value are equal. */
  lemma {:induction false} ValIsInjective(s: string, t: string)
    requires AllDigits(s, 10) && AllDigits(t, 10) && |s| == |t| && Val(s, 10) == Val(t, 10)
    ensures s == t
    decreases |s|
  {
    if s != "" {
      var n := |s| - 1;
      DigitIsItsValue(s[n]);
      DigitIsItsValue(t[n]);
      ValIsInjective(s[..n], t[..n]);
      assert s == s[..n] + [s[n]] && t == t[..n] + [t[n]];
    }
  }

  /** Digits without a superfluous leading zero are what their value shows. */
  lemma {:induction false} ShowOfVal(s: string)
    requires s != "" && AllDigits(s, 10) && (|s| > 1 ==> s[0] != '0')
    ensures Show(Val(s, 10)) == s
  {
    var front, c := s[..|s| - 1], s[|s| - 1];
    DigitIsItsValue(c);
    assert s == front + [c];
    if front == "" {
      assert Val(front, 10) == 0;
    } else {
      ShowOfVal(front);
      LeadingDigitCounts(front);
      assert Val(s, 10) / 10 == Val(front, 10) && Val(s, 10) % 10 == DigitValue(c);
    }
  }

  lemma {:induction false} LeadingDigitCounts(s: string)
    requires s != "" && AllDigits(s, 10) && s[0] != '0'
    ensures Val(s, 10) > 0
  {
    if |s| == 1 {
      assert s[..0] == "";
    } else {
      LeadingDigitCounts(s[..|s| - 1]);
    }
  }

  /** `scaled` is `exact * times / over`, rounded down. */
  predicate Truncates(scaled: int, exact: nat, times: nat, over: nat) {
    scaled * over <= exact * times < (scaled + 1) * over
  }

  lemma ExactTruncates(scaled: nat, exact: nat, p: nat, q: nat)
    requires scaled == exact * p && q > 0
    ensures Truncates(scaled, exact, p * q, q)
  {
    assert scaled * q == exact * (p * q);
    assert (scaled + 1) * q == scaled * q + q;
  }

  lemma TruncationBounds(scaled: nat, rest: nat, p: nat, q: nat)
    requires rest < p && q > 0
    ensures Truncates(scaled, scaled * p + rest, q, p * q)
  {
    assert (scaled * p + rest) * q == scaled * (p * q) + rest * q;
    assert rest * q < p * q;
    assert (scaled + 1) * (p * q) == scaled * (p * q) + p * q;
  }
}

/** Amounts with four decimals as strings and as scaled integers. */
module DecimalStrings {
  import opened Wrappers
  import opened Numerals
  import Text

  const SCALE := 4
  const SCALE_FACTOR := 10000

  lemma ScaleFactor()
    ensures Pow(10, SCALE) == SCALE_FACTOR
  {
    PowAdds(10, 2, 2);
    assert Pow(10, 2) == 100;
  }

  datatype Error = SyntaxError

  /** `BigInt(text)`: blank is zero; a sign only before decimal digits; 0x, 0o and 0b prefixes. */
  function BigIntOf(text: string): Result<int, Error> {
    var t := Text.Trim(text);
    if t == "" then Ok(0)
    else if |t| > 2 && t[0] == '0' && t[1] in "xXoObB" then
      var base := if t[1] in "xX" then 16 else if t[1] in "oO" then 8 else 2;
      if AllDigits(t[2..], base) then Ok(Val(t[2..], base)) else Err(SyntaxError)
    else
      var signed := t[0] == '+' || t[0] == '-';
      var digits := if signed then t[1..] else t;
      if digits == "" || !AllDigits(digits, 10) then Err(SyntaxError)
      else
        var n: int := Val(digits, 10);
        Ok(if t[0] == '-' then -n else n)
  }

  /** Index of the first dot, or the length. */
  function Dot(s: string): (n: nat)
    ensures n <= |s|
  {
    if s == "" || s[0] == '.' then 0 else 1 + Dot(s[1..])
  }

  /** The first two parts of `split(".")`, the second empty if missing. */
  function SplitDot(s: string): (string, string) {
    var n := Dot(s);
    if n == |s| then (s, "") else (s[..n], s[n + 1..][..Dot(s[n + 1..])])
  }

  function Parse(value: string): Result<int, Error> {
    var normalized := Text.Trim(value);
    var negative := normalized != "" && normalized[0] == '-';
    var (whole, fraction) := SplitDot(if negative then normalized[1..] else normalized);
    var padded := (fraction + Zeros(SCALE))[..PadLength(fraction)];
    match BigIntOf((if whole == "" then "0" else whole) + padded)
    case Err(e) => Err(e)
    case Ok(scaled) => Ok(if negative then -scaled else scaled)
  }

  /** `slice(0, 4)` of the fraction and four zeros always has four characters. */
  function PadLength(fraction: string): (n: nat)
    ensures n == SCALE && n <= |fraction + Zeros(SCALE)|
  {
    ZerosAreZero(SCALE);
    SCALE
  }

  function Print(value: int): string {
    var absolute: nat := if value < 0 then -value else value;
    (if value < 0 then "-" else "")
    + Show(absolute / SCALE_FACTOR) + "." + PadStart(Show(absolute % SCALE_FACTOR), SCALE)
  }

  // ---- reading well-formed amounts

  lemma {:induction false} DotAfterDigits(whole: string, rest: string)
    requires AllDigits(whole, 10)
    ensures Dot(whole + "." + rest) == |whole| && Dot(whole) == |whole|
  {
    if whole == "" {
      assert whole + "." + rest == "." + rest;
    } else {
      assert (whole + "." + rest)[1..] == whole[1..] + "." + rest;
      DotAfterDigits(whole[1..], rest);
    }
  }

  lemma SplitAmount(whole: string, fraction: string)
    requires AllDigits(whole, 10) && AllDigits(fraction, 10)
    ensures SplitDot(whole + "." + fraction) == (whole, fraction)
  {
    var s := whole + "." + fraction;
    DotAfterDigits(whole, fraction);
    DotAfterDigits(fraction, "");
    assert s[..|whole|] == whole && s[|whole| + 1..] == fraction;
    assert fraction[..|fraction|] == fraction;
  }

  lemma TrimKeeps(s: string)
    requires s != "" && !Text.IsSpace(s[0]) && !Text.IsSpace(s[|s| - 1])
    ensures Text.Trim(s) == s
  {}

  lemma BigIntOfDigits(digits: string)
    requires digits != "" && AllDigits(digits, 10)
    ensures BigIntOf(digits) == Ok(Val(digits, 10))
  {
    assert DigitValue(digits[0]) < 10 && DigitValue(digits[|digits| - 1]) < 10;
    TrimKeeps(digits);
    if |digits| > 2 {
      assert DigitValue(digits[1]) < 10;
    }
  }

  /** What `BigInt` reads: blank text, signed decimals, and the three prefixes in both cases. */
  lemma BigIntReads(text: string, s: string)
    ensures Text.Blank(text) ==> BigIntOf(text) == Ok(0)
    ensures s != "" && AllDigits(s, 10) ==>
              var n: int := Val(s, 10);
              BigIntOf("+" + s) == Ok(n) && BigIntOf("-" + s) == Ok(-n)
    ensures s != "" && AllDigits(s, 16) ==> BigIntOf("0x" + s) == BigIntOf("0X" + s) == Ok(Val(s, 16))
    ensures s != "" && AllDigits(s, 8) ==> BigIntOf("0o" + s) == BigIntOf("0O" + s) == Ok(Val(s, 8))
    ensures s != "" && AllDigits(s, 2) ==> BigIntOf("0b" + s) == BigIntOf("0B" + s) == Ok(Val(s, 2))
  {
    Text.TrimExactly(text);
    if s != "" && AllDigits(s, 16) {
      assert DigitValue(s[|s| - 1]) < 16;
      PrefixedReads('x', s, 16);
      PrefixedReads('X', s, 16);
      PrefixedReads('o', s, 8);
      PrefixedReads('O', s, 8);
      PrefixedReads('b', s, 2);
      PrefixedReads('B', s, 2);
      assert "0x" == ['0', 'x'] && "0X" == ['0', 'X'] && "0o" == ['0', 'o'] && "0O" == ['0', 'O'];
      assert "0b" == ['0', 'b'] && "0B" == ['0', 'B'];
      SignedReads('+', s);
      SignedReads('-', s);
      assert "+" == ['+'] && "-" == ['-'];
    }
  }

  lemma PrefixedReads(c: char, s: string, base: nat)
    requires s != "" && (if c in "xX" then base == 16 else if c in "oO" then base == 8 else c in "bB" && base == 2)
    ensures AllDigits(s, base) ==> BigIntOf(['0', c] + s) == Ok(Val(s, base))
  {
    var text := ['0', c] + s;
    if AllDigits(s, base) {
      assert DigitValue(s[|s| - 1]) < base;
      assert text[|text| - 1] == s[|s| - 1] && text[2..] == s;
      TrimKeeps(text);
    }
  }

  lemma SignedReads(c: char, s: string)
    requires s != "" && c in "+-"
    ensures AllDigits(s, 10) ==>
              var n: int := Val(s, 10);
              BigIntOf([c] + s) == Ok(if c == '-' then -n else n)
  {
    var text := [c] + s;
    if AllDigits(s, 10) {
      assert DigitValue(s[|s| - 1]) < 10;
      assert text[|text| - 1] == s[|s| - 1] && text[1..] == s;
      TrimKeeps(text);
    }
  }

  /** Any other text is refused. */
  lemma BigIntRefuses(s: string)
    requires s != "" && !Text.IsSpace(s[0]) && !Text.IsSpace(s[|s| - 1])
    requires s[0] != '+' && s[0] != '-' && !(|s| > 2 && s[0] == '0' && s[1] in "xXoObB") && !AllDigits(s, 10)
    ensures BigIntOf(s).Err?
  {
    TrimKeeps(s);
  }

  /** The four fraction digits the parser uses. */
  function Fraction4(fraction: string): (four: string)
    ensures |four| == SCALE
  {
    (fraction + Zeros(SCALE))[..PadLength(fraction)]
  }

  lemma Fraction4IsDigits(fraction: string)
    requires AllDigits(fraction, 10)
    ensures AllDigits(Fraction4(fraction), 10)
    ensures |fraction| == SCALE ==> Fraction4(fraction) == fraction
  {
    ZerosAreZero(SCALE);
  }

  function Signed(negative: bool, body: string): string {
    (if negative then "-" else "") + body
  }

  function Amount(negative: bool, whole: string, fraction: string): string {
    Signed(negative, whole + "." + fraction)
  }

  lemma AmountHasNoSpace(negative: bool, whole: string, fraction: string)
    requires whole != "" && AllDigits(whole, 10) && AllDigits(fraction, 10)
    ensures var text := Amount(negative, whole, fraction);
            && Text.Trim(text) == text
            && (text[0] == '-' <==> negative)
            && (if negative then text[1..] else text) == whole + "." + fraction
  {
    var text := Amount(negative, whole, fraction);
    assert DigitValue(whole[0]) < 10;
    assert text[|text| - 1] == if fraction == "" then '.' else fraction[|fraction| - 1];
    assert fraction != "" ==> DigitValue(fraction[|fraction| - 1]) < 10;
    assert negative ==> text[1..] == whole + "." + fraction;
    TrimKeeps(text);
  }

  /** An amount with any number of fraction digits. */
  lemma ParseAmount(negative: bool, whole: string, fraction: string)
    requires whole != "" && AllDigits(whole, 10) && AllDigits(fraction, 10)
    ensures var scaled: int := Val(whole + Fraction4(fraction), 10);
            Parse(Amount(negative, whole, fraction)) == Ok(if negative then -scaled else scaled)
  {
    hide Val, BigIntOf, SplitDot, Text.Trim, Zeros;
    AmountHasNoSpace(negative, whole, fraction);
    SplitAmount(whole, fraction);
    Fraction4IsDigits(fraction);
    BigIntOfDigits(whole + Fraction4(fraction));
  }

  // ---- main results

  /** The whole and fraction digits of a scaled magnitude. */
  lemma PrintedDigits(absolute: nat)
    ensures var whole, fraction := Show(absolute / SCALE_FACTOR), PadStart(Show(absolute % SCALE_FACTOR), SCALE);
            && whole != "" && AllDigits(whole, 10) && AllDigits(fraction, 10) && |fraction| == SCALE
            && Val(whole + fraction, 10) == absolute
  {
    hide Val, Show, Pow, AllDigits, PadStart;
    var whole, fraction := Show(absolute / SCALE_FACTOR), PadStart(Show(absolute % SCALE_FACTOR), SCALE);
    ScaleFactor();
    ShowReads(absolute / SCALE_FACTOR);
    ShowReads(absolute % SCALE_FACTOR);
    ShowIsShort(absolute % SCALE_FACTOR, SCALE);
    PadStartReads(Show(absolute % SCALE_FACTOR), SCALE);
    ValConcat(whole, fraction, 10);
  }

  /** A printed amount has four decimals and shows ten-thousandths, with a minus exactly if it is negative. */
  lemma PrintShowsTheAmount(value: int)
    ensures exists whole: string, fraction: string ::
              && Print(value) == Amount(value < 0, whole, fraction)
              && whole != "" && AllDigits(whole, 10) && AllDigits(fraction, 10) && |fraction| == 4
              && Val(whole, 10) * 10000 + Val(fraction, 10) == if value < 0 then -value else value
  {
    var absolute: nat := if value < 0 then -value else value;
    var whole, fraction := Show(absolute / SCALE_FACTOR), PadStart(Show(absolute % SCALE_FACTOR), SCALE);
    hide Val, Show, PadStart, AllDigits;
    assert Print(value) == Amount(value < 0, whole, fraction);
    hide Print, Amount;
    PrintedDigits(absolute);
    SplitValue(whole, fraction);
  }

  /** The parse of a text without white space at its ends, in terms of what follows its sign. */
  lemma ParseOf(negative: bool, body: string, whole: string, fraction: string)
    requires Text.Trim(Signed(negative, body)) == Signed(negative, body)
    requires Signed(negative, body) != "" && Signed(negative, body)[0] == '-' <==> negative
    requires SplitDot(body) == (whole, fraction)
    ensures Parse(Signed(negative, body)) ==
              match BigIntOf((if whole == "" then "0" else whole) + Fraction4(fraction))
              case Err(e) => Err(e)
              case Ok(scaled) => Ok(if negative then -scaled else scaled)
  {
    hide Signed, Text.Trim, BigIntOf, SplitDot, Zeros, AllDigits;
    SignStrips(negative, body);
  }

  lemma SignStrips(negative: bool, body: string)
    ensures negative ==> Signed(negative, body) != ""
    ensures (if negative then Signed(negative, body)[1..] else Signed(negative, body)) == body
  {}

  lemma BodyHasNoSpace(negative: bool, body: string)
    requires body != "" && !Text.IsSpace(body[0]) && body[0] != '-' && !Text.IsSpace(body[|body| - 1])
    ensures var text := Signed(negative, body);
            Text.Trim(text) == text && (text != "" && text[0] == '-' <==> negative)
  {
    var text := Signed(negative, body);
    assert text[|text| - 1] == body[|body| - 1];
    TrimKeeps(text);
  }

  lemma EndsAreDigits(s: string)
    requires s != "" && AllDigits(s, 10)
    ensures !Text.IsSpace(s[0]) && s[0] != '-' && !Text.IsSpace(s[|s| - 1])
  {
    assert DigitValue(s[0]) < 10 && DigitValue(s[|s| - 1]) < 10;
  }

  lemma SplitWhole(whole: string)
    requires AllDigits(whole, 10)
    ensures SplitDot(whole) == (whole, "") && Fraction4("") == Zeros(SCALE) && |Zeros(SCALE)| == SCALE
  {
    DotAfterDigits(whole, "");
    ZerosAreZero(SCALE);
    assert "" + Zeros(SCALE) == Zeros(SCALE);
  }

  /** A text without a dot is a whole amount. */
  lemma WithoutDot(negative: bool, whole: string)
    requires whole != "" && AllDigits(whole, 10)
    ensures var n: int := Val(whole, 10) * 10000;
            Parse(Signed(negative, whole)) == Ok(if negative then -n else n)
  {
    hide Val, Pow, Text.Trim, Text.IsSpace, BigIntOf, Parse, Dot, SplitDot, Zeros, Fraction4, AllDigits, Signed;
    EndsAreDigits(whole);
    BodyHasNoSpace(negative, whole);
    SplitWhole(whole);
    ParseOf(negative, whole, whole, "");
    ScaleFactor();
    ZerosAreZero(SCALE);
    ValConcat(whole, Zeros(SCALE), 10);
    DigitsConcat(whole, Zeros(SCALE), 10);
    BigIntOfDigits(whole + Zeros(SCALE));
  }

  lemma SplitTwice(whole: string, fraction: string, rest: string)
    requires AllDigits(whole, 10) && AllDigits(fraction, 10)
    ensures SplitDot(whole + "." + (fraction + "." + rest)) == (whole, fraction)
  {
    var tail := fraction + "." + rest;
    var s := whole + "." + tail;
    DotAfterDigits(whole, tail);
    DotAfterDigits(fraction, rest);
    assert s[..|whole|] == whole && s[|whole| + 1..] == tail;
    assert tail[..|fraction|] == fraction;
  }

  /** What follows a second dot is ignored. */
  lemma SecondDotEnds(negative: bool, whole: string, fraction: string, rest: string)
    requires whole != "" && AllDigits(whole, 10) && AllDigits(fraction, 10)
    requires rest != "" ==> !Text.IsSpace(rest[|rest| - 1])
    ensures Parse(Signed(negative, whole + "." + (fraction + "." + rest))) == Parse(Amount(negative, whole, fraction))
  {
    var body := whole + "." + (fraction + "." + rest);
    assert body[0] == whole[0] && body[|body| - 1] == if rest == "" then '.' else rest[|rest| - 1];
    assert Amount(negative, whole, fraction) == Signed(negative, whole + "." + fraction);
    hide Text.Trim, BigIntOf, Parse, Dot, SplitDot, Zeros, Fraction4, Signed;
    EndsAreDigits(whole);
    BodyHasNoSpace(negative, body);
    SplitTwice(whole, fraction, rest);
    ParseOf(negative, body, whole, fraction);
    SignedAmount(negative, whole, fraction);
    SplitAmount(whole, fraction);
    ParseOf(negative, whole + "." + fraction, whole, fraction);
  }

  lemma SignedAmount(negative: bool, whole: string, fraction: string)
    requires whole != "" && AllDigits(whole, 10) && AllDigits(fraction, 10)
    ensures var text := Signed(negative, whole + "." + fraction);
            Text.Trim(text) == text && (text != "" && text[0] == '-' <==> negative)
  {
    AmountHasNoSpace(negative, whole, fraction);
    assert Amount(negative, whole, fraction) != "";
  }

  lemma SplitFraction(fraction: string, body: string)
    requires fraction != "" && AllDigits(fraction, 10) && (body == "." + fraction || body == "0." + fraction)
    ensures body != "" && !Text.IsSpace(body[0]) && body[0] != '-' && !Text.IsSpace(body[|body| - 1])
    ensures body == "." + fraction ==> SplitDot(body) == ("", fraction)
    ensures body == "0." + fraction ==> SplitDot(body) == ("0", fraction)
  {
    assert body[|body| - 1] == fraction[|fraction| - 1];
    hide SplitDot;
    EndsAreDigits(fraction);
    if body == "." + fraction {
      SplitAmount("", fraction);
      assert "" + "." + fraction == body;
    } else {
      SplitAmount("0", fraction);
      assert "0" + "." + fraction == body;
    }
  }

  /** Without digits before the dot the whole part is zero. */
  lemma WithoutWhole(negative: bool, fraction: string)
    requires fraction != "" && AllDigits(fraction, 10)
    ensures Parse(Signed(negative, "." + fraction)) == Parse(Signed(negative, "0." + fraction))
  {
    hide Text.Trim, Text.IsSpace, BigIntOf, Parse, Dot, SplitDot, Zeros, Fraction4, Signed, AllDigits;
    SplitFraction(fraction, "." + fraction);
    BodyHasNoSpace(negative, "." + fraction);
    ParseOf(negative, "." + fraction, "", fraction);
    SplitFraction(fraction, "0." + fraction);
    BodyHasNoSpace(negative, "0." + fraction);
    ParseOf(negative, "0." + fraction, "0", fraction);
  }

  /** Printing and parsing back gives every integer, negative ones included. */
  lemma ParseAfterPrint(value: int)
    ensures Parse(Print(value)) == Ok(value)
  {
    hide Parse, Val, Show, PadStart, AllDigits;
    var absolute: nat := if value < 0 then -value else value;
    var whole, fraction := Show(absolute / SCALE_FACTOR), PadStart(Show(absolute % SCALE_FACTOR), SCALE);
    PrintedDigits(absolute);
    ParseAmount(value < 0, whole, fraction);
    Fraction4IsDigits(fraction);
    assert Print(value) == Amount(value < 0, whole, fraction);
  }

  /** Digits without superfluous zeros, four of them after the dot; zero has no sign. */
  predicate Canonical(negative: bool, whole: string, fraction: string) {
    && whole != "" && AllDigits(whole, 10) && (|whole| > 1 ==> whole[0] != '0')
    && AllDigits(fraction, 10) && |fraction| == SCALE
    && (negative ==> Val(whole + fraction, 10) > 0)
  }

  lemma SplitValue(whole: string, fraction: string)
    requires AllDigits(fraction, 10) && |fraction| == SCALE
    ensures Val(whole + fraction, 10) == Val(whole, 10) * SCALE_FACTOR + Val(fraction, 10)
    ensures Val(fraction, 10) < SCALE_FACTOR
  {
    hide Val, Pow;
    ScaleFactor();
    ValConcat(whole, fraction, 10);
    ValIsBelow(fraction, 10);
  }

  lemma CanonicalIsPrinted(whole: string, fraction: string)
    requires Canonical(false, whole, fraction)
    ensures var absolute := Val(whole + fraction, 10);
            Show(absolute / SCALE_FACTOR) == whole && PadStart(Show(absolute % SCALE_FACTOR), SCALE) == fraction
  {
    hide Val, Show, Pow, PadStart, AllDigits;
    var f := Val(fraction, 10);
    ScaleFactor();
    SplitValue(whole, fraction);
    ShowOfVal(whole);
    ShowReads(f);
    ShowIsShort(f, SCALE);
    PadStartReads(Show(f), SCALE);
    ValIsInjective(PadStart(Show(f), SCALE), fraction);
  }

  /** Parsing and printing back is the identity on canonical strings. */
  lemma PrintAfterParse(negative: bool, whole: string, fraction: string)
    requires Canonical(negative, whole, fraction)
    ensures var text := Amount(negative, whole, fraction);
            Parse(text).Ok? && Print(Parse(text).value) == text
  {
    hide Parse, Val, Show, PadStart, AllDigits;
    ParseAmount(negative, whole, fraction);
    Fraction4IsDigits(fraction);
    CanonicalIsPrinted(whole, fraction);
  }

  /**
    However many fraction digits there are, the scaled integer is the exact value
    times 10000, truncated toward zero.
   */
  lemma ExtraDigitsTruncate(negative: bool, whole: string, fraction: string)
    requires whole != "" && AllDigits(whole, 10) && AllDigits(fraction, 10)
    ensures var parsed := Parse(Amount(negative, whole, fraction));
            && parsed.Ok?
            && var scaled := if negative then -parsed.value else parsed.value;
               Truncates(scaled, Val(whole + fraction, 10), 10000, Pow(10, |fraction|))
  {
    ScaleFactor();
    hide Parse, Val, Pow, Truncates, AllDigits, Amount;
    ParseAmount(negative, whole, fraction);
    if |fraction| <= SCALE {
      FewDigits(whole, fraction);
    } else {
      ManyDigits(whole, fraction);
    }
  }

  lemma FewDigits(whole: string, fraction: string)
    requires AllDigits(fraction, 10) && |fraction| <= SCALE
    ensures Truncates(Val(whole + Fraction4(fraction), 10), Val(whole + fraction, 10), Pow(10, SCALE), Pow(10, |fraction|))
  {
    hide Val, Pow, Zeros, Truncates;
    var k := SCALE - |fraction|;
    PrefixOfZeros(SCALE, k);
    var pad := Zeros(SCALE)[..k];
    assert Fraction4(fraction) == fraction + pad;
    assert whole + Fraction4(fraction) == (whole + fraction) + pad;
    ValConcat(whole + fraction, pad, 10);
    PowAdds(10, k, |fraction|);
    ExactTruncates(Val(whole + Fraction4(fraction), 10), Val(whole + fraction, 10), Pow(10, k), Pow(10, |fraction|));
  }

  lemma ManyDigits(whole: string, fraction: string)
    requires AllDigits(fraction, 10) && |fraction| > SCALE
    ensures Truncates(Val(whole + Fraction4(fraction), 10), Val(whole + fraction, 10), Pow(10, SCALE), Pow(10, |fraction|))
  {
    hide Val, Pow, Zeros, Truncates;
    var k, rest := |fraction|, fraction[SCALE..];
    assert fraction == Fraction4(fraction) + rest;
    assert whole + fraction == (whole + Fraction4(fraction)) + rest;
    ValConcat(whole + Fraction4(fraction), rest, 10);
    ValIsBelow(rest, 10);
    PowAdds(10, k - SCALE, SCALE);
    TruncationBounds(Val(whole + Fraction4(fraction), 10), Val(rest, 10), Pow(10, k - SCALE), Pow(10, SCALE));
  }

  lemma {:induction false} PrefixOfZeros(n: nat, k: nat)
    requires k <= n
    ensures |Zeros(n)| == n && Zeros(n)[..k] == Zeros(k) && Val(Zeros(n)[..k], 10) == 0
  {
    ZerosAreZero(n);
    ZerosAreZero(k);
    if k < n {
      PrefixOfZeros(n - 1, k);
      assert Zeros(n)[..k] == Zeros(n - 1)[..k];
    } else {
      assert Zeros(n)[..n] == Zeros(n);
    }
  }
}

/** `stroopsToXlm`: an amount in ten-millionths of an XLM with a chosen number of decimals. */
module StellarFormat {
  import opened Numerals

  const STROOP_DECIMALS := 7
  const STROOPS_PER_XLM := 10000000

  lemma StroopsPerXlm()
    ensures Pow(10, STROOP_DECIMALS) == STROOPS_PER_XLM
  {
    PowAdds(10, 3, 4);
    PowAdds(10, 2, 2);
    assert Pow(10, 2) == 100 && Pow(10, 3) == 1000;
  }

  function StroopsToXlm(stroops: int, decimals: int): string {
    var absolute: nat := if stroops < 0 then -stroops else stroops;
    var whole := Show(absolute / STROOPS_PER_XLM);
    var full := PadStart(Show(absolute % STROOPS_PER_XLM), STROOP_DECIMALS);
    var sign := if stroops < 0 then "-" else "";
    if decimals <= 0 then sign + whole
    else sign + whole + "." + FractionTo(full, decimals)
  }

  /** `slice(0, decimals)` or `padEnd(decimals, "0")`. */
  function FractionTo(full: string, decimals: nat): string {
    if decimals <= |full| then full[..decimals] else full + Zeros(decimals - |full|)
  }

  /** Everything the text shows: its sign, its digits without the dot, and how many follow the dot. */
  datatype Shown = Shown(negative: bool, digits: nat, decimals: nat)

  /** The text is `sign whole . fraction` of digits (no dot without a fraction) and shows that amount. */
  ghost predicate Shows(text: string, shown: Shown) {
    exists whole: string, fraction: string :: ShowsAs(text, shown, whole, fraction)
  }

  ghost predicate ShowsAs(text: string, shown: Shown, whole: string, fraction: string) {
    && whole != "" && AllDigits(whole, 10) && AllDigits(fraction, 10) && |fraction| == shown.decimals
    && text == (if shown.negative then "-" else "") + whole + (if fraction == "" then "" else "." + fraction)
    && Val(whole + fraction, 10) == shown.digits
  }

  /**
    Main result: with d decimals the text shows |stroops| * 10^d / 10^7 rounded down,
    under the sign of the amount; so at 7 decimals it shows the amount exactly.
   */
  lemma TextShowsTheAmount(stroops: int, decimals: int)
    ensures var d: nat := if decimals < 0 then 0 else decimals;
            var absolute: nat := if stroops < 0 then -stroops else stroops;
            exists n: nat ::
              && Truncates(n, absolute, Pow(10, d), 10000000)
              && (decimals == 7 ==> n == absolute)
              && Shows(StroopsToXlm(stroops, decimals), Shown(stroops < 0, n, d))
  {
    hide Pow, Val, Show, PadStart, AllDigits, FractionTo;
    var d: nat := if decimals < 0 then 0 else decimals;
    var absolute: nat := if stroops < 0 then -stroops else stroops;
    var whole, full := Show(absolute / STROOPS_PER_XLM), PadStart(Show(absolute % STROOPS_PER_XLM), STROOP_DECIMALS);
    StroopDigits(absolute);
    var fraction := FractionTo(full, d);
    FractionBounds(whole, full, d);
    DigitsConcat(whole, fraction, 10);
    var n := Val(whole + fraction, 10);
    assert ShowsAs(StroopsToXlm(stroops, decimals), Shown(stroops < 0, n, d), whole, fraction);
  }

  lemma StroopDigits(absolute: nat)
    ensures var whole, full :=
              Show(absolute / STROOPS_PER_XLM), PadStart(Show(absolute % STROOPS_PER_XLM), STROOP_DECIMALS);
            && whole != "" && AllDigits(whole, 10) && AllDigits(full, 10) && |full| == STROOP_DECIMALS
            && Val(whole + full, 10) == absolute
  {
    hide Val, Show, Pow, AllDigits, PadStart;
    var whole, full := Show(absolute / STROOPS_PER_XLM), PadStart(Show(absolute % STROOPS_PER_XLM), STROOP_DECIMALS);
    StroopsPerXlm();
    ShowReads(absolute / STROOPS_PER_XLM);
    ShowReads(absolute % STROOPS_PER_XLM);
    ShowIsShort(absolute % STROOPS_PER_XLM, STROOP_DECIMALS);
    PadStartReads(Show(absolute % STROOPS_PER_XLM), STROOP_DECIMALS);
    ValConcat(whole, full, 10);
  }

  lemma FractionBounds(whole: string, full: string, d: nat)
    requires AllDigits(full, 10) && |full| == STROOP_DECIMALS
    ensures var fraction := FractionTo(full, d);
            && AllDigits(fraction, 10) && |fraction| == d
            && (d == STROOP_DECIMALS ==> fraction == full)
            && Truncates(Val(whole + fraction, 10), Val(whole + full, 10), Pow(10, d), STROOPS_PER_XLM)
  {
    hide Val, Pow, Zeros, Truncates;
    StroopsPerXlm();
    var fraction := FractionTo(full, d);
    var n, all := Val(whole + fraction, 10), Val(whole + full, 10);
    if d <= STROOP_DECIMALS {
      var rest := full[d..];
      assert whole + full == (whole + fraction) + rest;
      ValConcat(whole + fraction, rest, 10);
      ValIsBelow(rest, 10);
      PowAdds(10, STROOP_DECIMALS - d, d);
      TruncationBounds(n, Val(rest, 10), Pow(10, STROOP_DECIMALS - d), Pow(10, d));
    } else {
      var k := d - STROOP_DECIMALS;
      ZerosAreZero(k);
      assert whole + fraction == (whole + full) + Zeros(k);
      ValConcat(whole + full, Zeros(k), 10);
      PowAdds(10, k, STROOP_DECIMALS);
      ExactTruncates(n, all, Pow(10, k), STROOPS_PER_XLM);
    }
  }

  /** At full precision different amounts never print alike. */
  lemma FullPrecisionIsInjective(a: int, b: int)
    requires StroopsToXlm(a, 7) == StroopsToXlm(b, 7)
    ensures a == b
  {
    hide StroopsToXlm, Val;
    FirstIsDigit(a);
    FirstIsDigit(b);
    StripReads(a);
    StripReads(b);
  }

  /** The text without sign and dot. */
  function Strip(stroops: int): string {
    var text := StroopsToXlm(stroops, STROOP_DECIMALS);
    var body := if text != "" && text[0] == '-' then text[1..] else text;
    if |body| > STROOP_DECIMALS then body[..|body| - STROOP_DECIMALS - 1] + body[|body| - STROOP_DECIMALS..] else body
  }

  lemma FirstIsDigit(stroops: int)
    ensures StroopsToXlm(stroops, STROOP_DECIMALS) != ""
    ensures stroops < 0 <==> StroopsToXlm(stroops, STROOP_DECIMALS)[0] == '-'
  {
    hide Show, PadStart, Val;
    var absolute: nat := if stroops < 0 then -stroops else stroops;
    StroopDigits(absolute);
    assert DigitValue(Show(absolute / STROOPS_PER_XLM)[0]) < 10;
  }

  lemma StripReads(stroops: int)
    ensures Val(Strip(stroops), 10) == if stroops < 0 then -stroops else stroops
  {
    hide Val, Show, PadStart, AllDigits;
    var absolute: nat := if stroops < 0 then -stroops else stroops;
    var whole, full := Show(absolute / STROOPS_PER_XLM), PadStart(Show(absolute % STROOPS_PER_XLM), STROOP_DECIMALS);
    StroopDigits(absolute);
    FirstIsDigit(stroops);
    var text, body := StroopsToXlm(stroops, STROOP_DECIMALS), whole + "." + full;
    assert full[..STROOP_DECIMALS] == full;
    assert text == (if stroops < 0 then "-" else "") + body;
    assert (if text[0] == '-' then text[1..] else text) == body;
    assert body[..|whole|] == whole && body[|whole| + 1..] == full;
    assert Strip(stroops) == whole + full;
  }
}
