/**
 * `cxxopts::values::integer_parser`: text to an integer of a given width and signedness, accumulating in the
 * unsigned type of the same width, which wraps around.
 */
module CxxoptsIntegers {
  import opened Characters
  import opened Wrappers

  // An integer type of the source program: `int8_t` is IntType(8, true), `uint64_t` IntType(64, false).
  datatype IntType = IntType(bits: nat, signed: bool)

  ghost predicate IsIntType(t: IntType) {
    t.bits >= 8
  }

  function Pow2(n: nat): (r: int)
    ensures r >= 1
  {
    if n == 0 then 1 else 2 * Pow2(n - 1)
  }

  // 2^bits: unsigned arithmetic is modulo this.
  function Modulus(t: IntType): (m: int)
    ensures m >= 1
  {
    Pow2(t.bits)
  }

  predicate Representable(t: IntType, v: int)
    requires t.bits >= 8
  {
    if t.signed then -Pow2(t.bits - 1) <= v < Pow2(t.bits - 1) else 0 <= v < Pow2(t.bits)
  }

  // ---- The text --------------------------------------------------------------------------------------------

  /** The ranges in numbers, for the types of 8, 16, 32 and 64 bits. */
  lemma RangeMeaning(t: IntType, v: int)
    requires t.bits in {8, 16, 32, 64}
    ensures var half := match t.bits
                        case 8 => 0x80
                        case 16 => 0x8000
                        case 32 => 0x8000_0000
                        case _ => 0x8000_0000_0000_0000;
            && Modulus(t) == 2 * half
            && (Representable(t, v) <==> if t.signed then -half <= v < half else 0 <= v < 2 * half)
  {
    hide Pow2;
    Powers();
    Doubles(t.bits - 1);
  }

  lemma Powers()
    ensures Pow2(8) == 0x100 && Pow2(16) == 0x1_0000 && Pow2(32) == 0x1_0000_0000
    ensures Pow2(64) == 0x1_0000_0000_0000_0000
  {
    assert Pow2(4) == 16;
    hide Pow2;
    PowersAdd(4, 4);
    PowersAdd(8, 8);
    PowersAdd(16, 16);
    PowersAdd(32, 32);
  }

  lemma Doubles(n: nat)
    ensures Pow2(n + 1) == 2 * Pow2(n)
  {}

  lemma {:induction false} PowersAdd(a: nat, b: nat)
    ensures Pow2(a + b) == Pow2(a) * Pow2(b)
    decreases b
  {
    if b > 0 {
      PowersAdd(a, b - 1);
      assert Pow2(a + b) == 2 * (Pow2(a) * Pow2(b - 1)) == Pow2(a) * (2 * Pow2(b - 1));
    }
  }

  // What the pattern (-)?(0x)?([0-9a-zA-Z]+) splits a text into. Its other alternative never gets a turn.
  datatype Lexeme = Lexeme(negative: bool, hex: bool, digits: string)

  predicate AllAlnum(s: string) {
    forall i :: 0 <= i < |s| ==> IsAlnum(s[i])
  }

  function Lex(text: string): Option<Lexeme> {
    var negative := |text| > 0 && text[0] == '-';
    var body := if negative then text[1..] else text;
    var hex := |body| > 2 && body[0] == '0' && body[1] == 'x';
    var digits := if hex then body[2..] else body;
    if digits != [] && AllAlnum(digits) then
      Some(Lexeme(negative, hex, digits))
    else
      None
  }

  function Base(hex: bool): int {
    if hex then 16 else 10
  }

  // `x * base`
  function Scaled(x: int, hex: bool): int {
    if hex then 16 * x else 10 * x
  }

  // Reduction to the unsigned type.
  function Wrap(x: int, m: int): (r: int)
    requires m >= 1
    ensures 0 <= r < m
  {
    x % m
  }

  function Digit(c: char, hex: bool): (d: Option<nat>)
    ensures d.Some? ==> d.value < Base(hex)
  {
    if '0' <= c <= '9' then Some(c as int - '0' as int)
    else if hex && 'a' <= c <= 'f' then Some(c as int - 'a' as int + 10)
    else if hex && 'A' <= c <= 'F' then Some(c as int - 'A' as int + 10)
    else None
  }

  predicate AllDigits(s: string, hex: bool) {
    forall i :: 0 <= i < |s| ==> Digit(s[i], hex).Some?
  }

  // The mathematical value of a digit string.
  function Magnitude(s: string, hex: bool): (v: int)
    requires AllDigits(s, hex)
    ensures v >= 0
  {
    if s == [] then 0
    else Scaled(Magnitude(s[..|s| - 1], hex), hex) + Digit(s[|s| - 1], hex).value
  }

  // The integer a text denotes, if it is one.
  function Denoted(text: string): Option<int> {
    match Lex(text)
    case None => None
    case Some(l) =>
      if !AllDigits(l.digits, l.hex) then None
      else Some(if l.negative then -Magnitude(l.digits, l.hex) else Magnitude(l.digits, l.hex))
  }

  // ---- What the parser computes -----------------------------------------------------------------------------

  // The accumulator never visibly decreases: the check `result > next` stays silent on every digit.
  predicate Silent(s: string, hex: bool, m: int)
    requires m >= 1 && AllDigits(s, hex)
    decreases |s|
  {
    s == [] || (Silent(s[..|s| - 1], hex, m) && Wrap(Magnitude(s[..|s| - 1], hex), m) <= Wrap(Magnitude(s, hex), m))
  }

  predicate SignFits(t: IntType, negative: bool, u: int)
    requires t.bits >= 8
  {
    if t.signed then u <= (if negative then Pow2(t.bits - 1) else Pow2(t.bits - 1) - 1) else !negative
  }

  // The parser as a function of its text: prefix magnitudes modulo 2^bits must not decrease, and the last one
  // must fit the sign.
  function Parsed(text: string, t: IntType): Result<int, ()>
    requires t.bits >= 8
  {
    match Lex(text)
    case None => Err(())
    case Some(l) =>
      if !AllDigits(l.digits, l.hex) || !Silent(l.digits, l.hex, Modulus(t)) then Err(())
      else
        var u := Wrap(Magnitude(l.digits, l.hex), Modulus(t));
        if SignFits(t, l.negative, u) then Ok(if l.negative then -u else u) else Err(())
  }

  // `-static_cast<R>(u - 1) - 1`, the subtraction and the cast wrapping around
  function CheckedNegate(t: IntType, u: int): (v: int)
    requires t.bits >= 8 && t.signed && 0 <= u <= Pow2(t.bits - 1)
    ensures v == -u
  {
    var w := if u == 0 then Modulus(t) - 1 else u - 1;
    var cast := if w >= Pow2(t.bits - 1) then w - Modulus(t) else w;
    -cast - 1
  }

  method IntegerParser(text: string, t: IntType) returns (r: Result<int, ()>)
    requires IsIntType(t)
    ensures r == Parsed(text, t)
  {
    hide Lex, AllAlnum, AllDigits, Silent, Wrap, Magnitude, Digit, Pow2, SignFits;
    var lexeme := Lex(text);
    if lexeme.None? {
      return Err(());
    }
    var Lexeme(negative, hex, digits) := lexeme.value;
    var m := Modulus(t);
    EmptyIsSilent(hex, m);

    var result := 0;
    var i := 0;
    while i != |digits|
      invariant i <= |digits| && AllDigits(digits[..i], hex)
      invariant result == Wrap(Magnitude(digits[..i], hex), m)
      invariant Silent(digits[..i], hex, m)
    {
      var digit := Digit(digits[i], hex);
      if digit.None? {
        BadDigit(digits, i, hex);
        return Err(());
      }
      var next := Wrap(Scaled(result, hex) + digit.value, m);
      AccumulatorStep(digits, i, hex, m);
      if result > next {
        if AllDigits(digits, hex) {
          SilentPrefix(digits, i + 1, hex, m);
        }
        return Err(());
      }
      result := next;
      i := i + 1;
    }
    assert digits[..i] == digits;

    SignCases(t, negative, result);
    if t.signed {
      if result > (if negative then Pow2(t.bits - 1) else Pow2(t.bits - 1) - 1) {
        return Err(());
      }
    }
    if negative {
      if !t.signed {
        return Err(());
      }
      r := Ok(CheckedNegate(t, result));
    } else {
      r := Ok(result);
    }
  }

  // ---- Modular arithmetic ----------------------------------------------------------------------------------

  lemma MultiplyMonotone(a: int, b: int, m: int)
    requires a <= b && m >= 0
    ensures a * m <= b * m
  {}

  lemma WrapIs(x: int, q: int, r: int, m: int)
    requires m >= 1 && 0 <= r < m && x == q * m + r
    ensures Wrap(x, m) == r
  {
    var p := x / m;
    assert x == p * m + x % m;
    if p < q {
      MultiplyMonotone(p + 1, q, m);
    } else if q < p {
      MultiplyMonotone(q + 1, p, m);
    }
  }

  // Reducing the accumulator before a step does not change the step.
  lemma WrapBeforeStep(v: int, d: int, hex: bool, m: int)
    requires m >= 1
    ensures Wrap(Scaled(Wrap(v, m), hex) + d, m) == Wrap(Scaled(v, hex) + d, m)
  {
    var q, r := v / m, Wrap(v, m);
    var x := Scaled(r, hex) + d;
    var p, w := x / m, Wrap(x, m);
    assert v == q * m + r && x == p * m + w;
    var k := Scaled(q, hex) + p;
    assert Scaled(q * m, hex) == Scaled(q, hex) * m;
    assert k * m == Scaled(q, hex) * m + p * m;
    WrapIs(Scaled(v, hex) + d, k, w, m);
  }

  lemma EmptyIsSilent(hex: bool, m: int)
    requires m >= 1
    ensures AllDigits("", hex) && Silent("", hex, m) && Wrap(Magnitude("", hex), m) == 0
  {}

  lemma BadDigit(s: string, i: nat, hex: bool)
    requires i < |s| && Digit(s[i], hex).None?
    ensures !AllDigits(s, hex)
  {}

  lemma AccumulatorStep(s: string, i: nat, hex: bool, m: int)
    requires m >= 1 && i < |s| && AllDigits(s[..i], hex) && Digit(s[i], hex).Some?
    ensures AllDigits(s[..i + 1], hex)
    ensures var before := Wrap(Magnitude(s[..i], hex), m);
            var after := Wrap(Magnitude(s[..i + 1], hex), m);
            && after == Wrap(Scaled(before, hex) + Digit(s[i], hex).value, m)
            && (Silent(s[..i + 1], hex, m) <==> Silent(s[..i], hex, m) && before <= after)
  {
    assert s[..i + 1][..i] == s[..i];
    WrapBeforeStep(Magnitude(s[..i], hex), Digit(s[i], hex).value, hex, m);
  }

  lemma SignCases(t: IntType, negative: bool, u: int)
    requires IsIntType(t)
    ensures SignFits(t, negative, u) <==>
            if t.signed then u <= (if negative then Pow2(t.bits - 1) else Pow2(t.bits - 1) - 1) else !negative
  {}

  lemma {:induction false} SilentPrefix(s: string, i: nat, hex: bool, m: int)
    requires m >= 1 && AllDigits(s, hex) && i <= |s|
    ensures AllDigits(s[..i], hex) && (Silent(s, hex, m) ==> Silent(s[..i], hex, m))
    decreases |s|
  {
    if i < |s| {
      SilentPrefix(s[..|s| - 1], i, hex, m);
      assert s[..|s| - 1][..i] == s[..i];
    } else {
      assert s[..i] == s;
    }
  }

  // Before any wrap the accumulator is the magnitude itself.
  lemma {:induction false} SmallIsSilent(s: string, hex: bool, m: int)
    requires m >= 1 && AllDigits(s, hex) && Magnitude(s, hex) < m
    ensures Silent(s, hex, m) && Wrap(Magnitude(s, hex), m) == Magnitude(s, hex)
    decreases |s|
  {
    WrapIs(Magnitude(s, hex), 0, Magnitude(s, hex), m);
    if s != [] {
      SmallIsSilent(s[..|s| - 1], hex, m);
    }
  }

  // ---- The laws --------------------------------------------------------------------------------------------

  // The right answer: the value a text denotes when the type has it. A minus sign is refused on unsigned types.
  ghost function Right(text: string, t: IntType): Result<int, ()>
    requires IsIntType(t)
  {
    if Denoted(text).Some? && Representable(t, Denoted(text).value) && (t.signed || !Lex(text).value.negative) then
      Ok(Denoted(text).value)
    else
      Err(())
  }

  /** Every text whose magnitude fits the unsigned type is parsed right. */
  lemma FittingMagnitudeIsRight(text: string, t: IntType)
    requires IsIntType(t)
    requires Denoted(text).Some? ==> -Modulus(t) < Denoted(text).value < Modulus(t)
    ensures Parsed(text, t) == Right(text, t)
  {
    match Lex(text) {
      case None =>
      case Some(l) =>
        if AllDigits(l.digits, l.hex) {
          SmallIsSilent(l.digits, l.hex, Modulus(t));
          hide Wrap, Silent, Magnitude, Digit;
        }
    }
  }

  // The texts on which wrap-around passes unnoticed: too large for the unsigned type, yet the guard of the loop,
  // `result > next`, stays silent at every digit, and the remainder is within the signed range.
  ghost predicate UnnoticedWrap(text: string, t: IntType)
    requires IsIntType(t)
  {
    match Lex(text)
    case None => false
    case Some(l) =>
      && AllDigits(l.digits, l.hex)
      && Magnitude(l.digits, l.hex) >= Modulus(t)
      && Silent(l.digits, l.hex, Modulus(t))
      && SignFits(t, l.negative, Wrap(Magnitude(l.digits, l.hex), Modulus(t)))
  }

  /** The rest: too large a magnitude is refused, as it should be, exactly when the loop or the sign notices it. */
  lemma ParserIsRightIff(text: string, t: IntType)
    requires IsIntType(t)
    ensures Parsed(text, t) == Right(text, t) <==> !UnnoticedWrap(text, t)
    ensures UnnoticedWrap(text, t) ==> Parsed(text, t).Ok? && Right(text, t).Err?
  {
    match Lex(text) {
      case None =>
      case Some(l) =>
        if AllDigits(l.digits, l.hex) {
          if Magnitude(l.digits, l.hex) < Modulus(t) {
            FittingMagnitudeIsRight(text, t);
          }
          hide Wrap, Silent, Magnitude, Digit;
        }
    }
  }

  lemma RepresentableIsParsed(text: string, v: int, t: IntType)
    requires IsIntType(t) && Representable(t, v)
    requires Denoted(text) == Some(v) && Lex(text).Some? && Lex(text).value.negative == (v < 0)
    ensures Parsed(text, t) == Ok(v)
  {
    assert Pow2(t.bits) == 2 * Pow2(t.bits - 1);
    hide Lex, Denoted, Parsed, Pow2;
    FittingMagnitudeIsRight(text, t);
  }

  /** "300" as an eight-bit unsigned integer is accepted, as 44. */
  lemma UnnoticedWrapWitness()
    ensures UnnoticedWrap("300", IntType(8, false)) && Parsed("300", IntType(8, false)) == Ok(44)
  {
    var s := "300";
    assert forall i :: 0 <= i < |s| ==> IsAlnum(s[i]);
    assert Lex(s) == Some(Lexeme(false, false, s));
    assert s[..2] == "30" && s[..2][..1] == "3" && s[..2][..1][..0] == "";
    assert Magnitude("3", false) == 3 && Magnitude("30", false) == 30 && Magnitude(s, false) == 300;
    assert Pow2(8) == 256 by {
      assert Pow2(4) == 16;
    }
    WrapIs(3, 0, 3, 256);
    WrapIs(30, 0, 30, 256);
    WrapIs(300, 1, 44, 256);
    assert Silent("", false, 256) && Silent("3", false, 256) && Silent("30", false, 256) && Silent(s, false, 256);
  }

  // ---- What a text is made of ------------------------------------------------------------------------------

  // The three parts put together; 0x is a prefix whenever it can be.
  ghost predicate IsText(text: string, l: Lexeme) {
    && text == (if l.negative then "-" else "") + (if l.hex then "0x" else "") + l.digits
    && l.digits != [] && AllAlnum(l.digits)
    && (!l.hex ==> !(|l.digits| > 2 && l.digits[0] == '0' && l.digits[1] == 'x'))
  }

  lemma TextIsLexed(text: string, l: Lexeme)
    requires IsText(text, l)
    ensures Lex(text) == Some(l)
  {
    var body := (if l.hex then "0x" else "") + l.digits;
    assert text == (if l.negative then "-" else "") + body;
    assert text[if l.negative then 1 else 0..] == body;
    assert body[if l.hex then 2 else 0..] == l.digits;
    assert !l.hex ==> body == l.digits && IsAlnum(l.digits[0]);
  }

  lemma LexedIsText(text: string)
    requires Lex(text).Some?
    ensures IsText(text, Lex(text).value)
  {
    hide AllAlnum, IsAlnum;
    var l := Lex(text).value;
    var body := if l.negative then text[1..] else text;
    var digits := if l.hex then body[2..] else body;
    assert digits == l.digits;
    assert l.hex ==> body[..2] == "0x" && body == body[..2] + digits;
    assert text == (if l.negative then "-" else "") + body;
  }

  /** A text splits into sign, 0x and digits exactly when it is these put together. */
  lemma LexMeaning(text: string, l: Lexeme)
    ensures Lex(text) == Some(l) <==> IsText(text, l)
  {
    hide Lex;
    if IsText(text, l) {
      TextIsLexed(text, l);
    }
    if Lex(text).Some? {
      LexedIsText(text);
    }
    hide IsText;
  }

  // ---- Printing, and the round trip ------------------------------------------------------------------------

  function DigitChar(d: nat, upper: bool): char
    requires d < 16
  {
    if upper then "0123456789ABCDEF"[d] else "0123456789abcdef"[d]
  }

  /** A character stands for a digit exactly when it is that digit's character, in either case, and of the base. */
  lemma DigitMeaning(c: char, hex: bool, d: nat)
    ensures Digit(c, hex) == Some(d) <==>
            d < (if hex then 16 else 10) && (c == DigitChar(d, false) || c == DigitChar(d, true))
  {}

  function Digits(n: nat, hex: bool, upper: bool): string
    decreases n
  {
    if n < Base(hex) then [DigitChar(n, upper)]
    else Digits(n / Base(hex), hex, upper) + [DigitChar(n % Base(hex), upper)]
  }

  // The decimal or 0x text of an integer, in lower or upper case.
  function Text(v: int, hex: bool, upper: bool): string {
    (if v < 0 then "-" else "") + (if hex then "0x" else "") + Digits(if v < 0 then -v else v, hex, upper)
  }

  lemma OneMoreDigit(s: string, d: nat, hex: bool, upper: bool)
    requires AllDigits(s, hex) && d < Base(hex)
    ensures AllDigits(s + [DigitChar(d, upper)], hex)
    ensures Magnitude(s + [DigitChar(d, upper)], hex) == Scaled(Magnitude(s, hex), hex) + d
  {
    var c := DigitChar(d, upper);
    DigitMeaning(c, hex, d);
    hide Digit, DigitChar;
    assert (s + [c])[..|s|] == s;
  }

  lemma {:induction false} DigitsDenote(n: int, hex: bool, upper: bool)
    requires n >= 0
    ensures AllDigits(Digits(n, hex, upper), hex) && Magnitude(Digits(n, hex, upper), hex) == n
    decreases n
  {
    hide AllDigits, Magnitude, DigitChar;
    var b := Base(hex);
    if n < b {
      NoDigits(hex);
      OneMoreDigit("", n, hex, upper);
      assert "" + [DigitChar(n, upper)] == [DigitChar(n, upper)];
    } else {
      DigitsDenote(n / b, hex, upper);
      OneMoreDigit(Digits(n / b, hex, upper), n % b, hex, upper);
    }
  }

  lemma NoDigits(hex: bool)
    ensures AllDigits("", hex) && Magnitude("", hex) == 0
  {}

  // What a printed number looks like.
  ghost predicate IsPrinted(s: string) {
    |s| > 0 && forall i :: 0 <= i < |s| ==> IsAlnum(s[i]) && s[i] != 'x'
  }

  lemma {:induction false} DigitsArePrinted(n: int, hex: bool, upper: bool)
    requires n >= 0
    ensures IsPrinted(Digits(n, hex, upper))
    decreases n
  {
    var b := Base(hex);
    DigitCharIsAlnum(if n < b then n else n % b, upper);
    hide DigitChar, IsAlnum;
    if n >= b {
      DigitsArePrinted(n / b, hex, upper);
    }
  }

  lemma DigitCharIsAlnum(d: nat, upper: bool)
    requires d < 16
    ensures IsAlnum(DigitChar(d, upper)) && DigitChar(d, upper) != 'x'
  {}

  lemma TextIsText(v: int, hex: bool, upper: bool)
    ensures IsText(Text(v, hex, upper), Lexeme(v < 0, hex, Digits(if v < 0 then -v else v, hex, upper)))
  {
    DigitsArePrinted(if v < 0 then -v else v, hex, upper);
    hide Digits, IsAlnum;
  }

  lemma TextDenotes(v: int, hex: bool, upper: bool)
    ensures var text := Text(v, hex, upper);
            Denoted(text) == Some(v) && Lex(text).Some? && Lex(text).value.negative == (v < 0)
  {
    var n := if v < 0 then -v else v;
    hide Lex, Digits, AllDigits, Magnitude, IsAlnum, AllAlnum, IsText, Text;
    DigitsDenote(n, hex, upper);
    TextIsText(v, hex, upper);
    TextIsLexed(Text(v, hex, upper), Lexeme(v < 0, hex, Digits(n, hex, upper)));
  }

  /**
   * Printing any representable value, in decimal or in hexadecimal of either case, and parsing the text gives the
   * value back.
   */
  lemma RoundTrip(v: int, hex: bool, upper: bool, t: IntType)
    requires IsIntType(t) && Representable(t, v)
    ensures Denoted(Text(v, hex, upper)) == Some(v) && Parsed(Text(v, hex, upper), t) == Ok(v)
  {
    TextDenotes(v, hex, upper);
    hide *;
    RepresentableIsParsed(Text(v, hex, upper), v, t);
  }
}
