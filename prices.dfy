/** The text-to-number helpers of `dmutils/validation.py` used by the price
    rules: Python's `int()` and `float()` on price text, the pattern
    `^[0-9]+(\.\d{1,5})?$`, and `format_price_to_number`.  Numbers are exact:
    a float is the rational number its text denotes.  Both `int()` and
    `float()` of a `unicode` text first encode it as `Text.EncodeDecimal`
    does, so digits of any script count and characters that cannot be
    encoded raise `UnicodeEncodeError`. */
module Prices {

  import opened Results
  import opened Text

  /** The number `whole.fraction` denotes. */
  function DecimalValue(whole: string, fraction: string): real
    requires AllDigits(whole) && AllDigits(fraction)
  {
    DigitsValue(whole) as real + Scale(DigitsValue(fraction) as real, -|fraction|)
  }

  /** `digits` or `digits.digits`, with at least one digit somewhere: the
      unsigned number a text denotes. */
  function ParseDecimal(t: string): (r: Option<real>)
    ensures r.Some? ==> r.value >= 0.0
  {
    match LastIndexOf(t, '.')
    case None =>
      if t != [] && AllDigits(t) then Some(DigitsValue(t) as real) else None
    case Some(dot) =>
      var whole := t[..dot];
      var fraction := t[dot + 1..];
      if AllDigits(whole) && AllDigits(fraction) && (whole != [] || fraction != []) then
        Some(DecimalValue(whole, fraction))
      else None
  }

  /** `m * 10^e`, one factor of ten at a time. */
  function Scale(m: real, e: int): (r: real)
    ensures m >= 0.0 ==> r >= 0.0
    decreases if e >= 0 then e else -e
  {
    if e == 0 then m else if e > 0 then 10.0 * Scale(m, e - 1) else Scale(m, e + 1) / 10.0
  }

  /** The number encoded bytes denote for `float()`: surrounding
      whitespace, an optional sign, a decimal number and an optional
      exponent `e` or `E` with its own optional sign. */
  function ParseFloat(s: string): (r: Option<real>)
  {
    SignedFloat(Strip(s))
  }

  /** The number of stripped text: an optional sign, then the magnitude. */
  function SignedFloat(t: string): (r: Option<real>)
  {
    var negative := t != [] && t[0] == '-';
    var body := if t != [] && (t[0] == '+' || t[0] == '-') then t[1..] else t;
    match Magnitude(body)
    case None => None
    case Some(m) => Some(if negative then -m else m)
  }

  /** A decimal number with an optional exponent after its last `e` or
      `E`. */
  function Magnitude(body: string): (r: Option<real>)
    ensures r.Some? ==> r.value >= 0.0
  {
    match LastIndexOf(AsciiLower(body), 'e')
    case None => ParseDecimal(body)
    case Some(e) =>
      var m := ParseDecimal(body[..e]);
      var x := ParseSignedDigits(body[e + 1..]);
      if m.Some? && x.Some? then Some(Scale(m.value, x.value)) else None
  }

  /** Bytes at which C's `strtod` reads a number at all: after an
      optional sign, a digit, or a dot and a digit. */
  predicate NumberStart(t: string) {
    var body := if t != [] && (t[0] == '+' || t[0] == '-') then t[1..] else t;
    body != [] && (IsDigit(body[0]) || (body[0] == '.' && |body| >= 2 && IsDigit(body[1])))
  }

  /** `float(b)` of encoded bytes.  The message of a refusal shows the
      bytes from the first that is not whitespace, at most 200 of them; it
      says "could not convert" when no number starts there and "invalid
      literal" when one starts but does not fill the text. */
  function FloatOfBytes(b: string): (r: Result<real>)
    ensures r.Ok? <==> ParseFloat(b).Some?
    ensures r.Ok? ==> r.value == ParseFloat(b).value
    ensures r.Raise? ==> r.error == ValueError(
              (if NumberStart(TrimLeft(b)) then "invalid literal for float(): "
               else "could not convert string to float: ") + Prefix(TrimLeft(b), 200))
  {
    match ParseFloat(b)
    case Some(x) => Ok(x)
    case None =>
      var t := TrimLeft(b);
      Raise(ValueError((if NumberStart(t) then "invalid literal for float(): "
                        else "could not convert string to float: ") + Prefix(t, 200)))
  }

  /** `float(s)` of a `unicode` text. */
  function PyFloat(s: string): (r: Result<real>)
    ensures EncodeDecimal(s).Raise? ==> r == Raise(UnicodeEncodeError)
    ensures EncodeDecimal(s).Ok? ==> r == FloatOfBytes(EncodeDecimal(s).value)
  {
    var b :- EncodeDecimal(s);
    FloatOfBytes(b)
  }

  /** `is_a_float(value)`: `float()` raises no `ValueError`, which
      includes `UnicodeEncodeError`. */
  predicate IsAFloat(s: string) {
    PyFloat(s).Ok?
  }

  /** `digits` or `digits.d` with one to five decimals. */
  predicate PlainPrice(core: string) {
    match LastIndexOf(core, '.')
    case None => core != [] && AllDigits(core)
    case Some(dot) =>
      dot >= 1 && AllDigits(core[..dot]) && 1 <= |core| - dot - 1 <= 5 && AllDigits(core[dot + 1..])
  }

  /** `less_than_5_decimal_places(number)`: `re.match(r'^[0-9]+(\.\d{1,5})?$',
      number)` finds a match.  `$` also matches before a newline that ends
      the text. */
  predicate LessThan5DecimalPlaces(s: string) {
    PlainPrice(s) || (|s| >= 1 && s[|s| - 1] == '\n' && PlainPrice(s[..|s| - 1]))
  }

  /** A price the pattern accepts has no sign, no exponent and no
      whitespace but perhaps one final newline. */
  lemma {:induction false} PlainPriceChars(core: string)
    requires PlainPrice(core)
    ensures core != [] && IsDigit(core[0]) && IsDigit(core[|core| - 1])
    ensures forall k :: 0 <= k < |core| ==> IsDigit(core[k]) || core[k] == '.'
  {
    match LastIndexOf(core, '.')
    case None =>
    case Some(dot) =>
      forall k | 0 <= k < |core|
        ensures IsDigit(core[k]) || core[k] == '.'
      {
        if k < dot {
          assert core[k] == core[..dot][k];
        } else if k > dot {
          assert core[k] == core[dot + 1..][k - dot - 1];
        }
      }
      assert core[0] == core[..dot][0];
      assert core[|core| - 1] == core[dot + 1..][|core| - dot - 2];
  }

  lemma {:induction false} NoExponent(core: string)
    requires forall k :: 0 <= k < |core| ==> IsDigit(core[k]) || core[k] == '.'
    ensures LastIndexOf(AsciiLower(core), 'e') == None
  {
    var l := AsciiLower(core);
    forall k | 0 <= k < |l| ensures l[k] != 'e' {
      LowerKeepsDigits(core[k]);
    }
    assert 'e' !in l;
  }

  lemma {:induction false} LowerKeepsDigits(c: char)
    requires IsDigit(c) || c == '.'
    ensures AsciiLowerChar(c) == c
  {
  }

  lemma {:induction false} DigitNotSpace(c: char)
    requires IsDigit(c)
    ensures !IsSpace(c) && c != '+' && c != '-'
  {
  }

  /** Text that starts and ends with a digit is its own strip; so is it
      with one newline or space after it. */
  lemma {:induction false} StripDigits(s: string, core: string)
    requires core != [] && IsDigit(core[0]) && IsDigit(core[|core| - 1])
    requires s == core || s == core + "\n" || s == core + " "
    ensures Strip(s) == core
  {
    DigitNotSpace(core[0]);
    DigitNotSpace(core[|core| - 1]);
    if s == core {
      StripOfStripped(core);
    } else {
      StripOfSpaceAfter(core, s[|s| - 1]);
      assert s == core + [s[|s| - 1]];
    }
  }

  /** Text that strips to a digit-led number without an exponent is read as
      that unsigned decimal. */
  lemma {:induction false} ParseFloatUnsigned(s: string, core: string)
    requires Strip(s) == core && core != [] && IsDigit(core[0])
    requires LastIndexOf(AsciiLower(core), 'e') == None
    ensures ParseFloat(s) == ParseDecimal(core)
  {
    DigitNotSpace(core[0]);
  }

  lemma {:induction false} PlainPriceDecimal(core: string)
    requires PlainPrice(core)
    ensures ParseDecimal(core).Some?
  {
    match LastIndexOf(core, '.')
    case None =>
    case Some(dot) =>
      assert core[..dot] != [];
  }

  /** Digits and dots are encoded as themselves, and a final newline as
      a space. */
  lemma {:induction false} EncodePrice(s: string, core: string)
    requires forall k :: 0 <= k < |core| ==> IsDigit(core[k]) || core[k] == '.'
    requires s == core || s == core + "\n"
    ensures EncodeDecimal(s) == Ok(if s == core then core else core + " ")
  {
    var e := if s == core then core else core + " ";
    forall k | 0 <= k < |s|
      ensures DecimalByte(s[k]) == Some(e[k])
    {
      if k < |core| {
        assert s[k] == core[k] && e[k] == core[k];
        DecimalLatin1(core[k]);
      } else {
        assert s[k] == '\n' && e[k] == ' ';
      }
    }
    assert EncodeDecimal(s).value == e;
  }

  /** Every price the pattern accepts is a float: `is_a_float` adds nothing
      to `less_than_5_decimal_places`, and the number is the text's decimal
      value. */
  lemma {:induction false} PriceIsAFloat(s: string)
    requires LessThan5DecimalPlaces(s)
    ensures IsAFloat(s)
    ensures ParseDecimal(if PlainPrice(s) then s else s[..|s| - 1]).Some?
    ensures PyFloat(s) == Ok(ParseDecimal(if PlainPrice(s) then s else s[..|s| - 1]).value)
  {
    var core := if PlainPrice(s) then s else s[..|s| - 1];
    if !PlainPrice(s) {
      assert s == core + "\n";
    }
    PlainPriceChars(core);
    EncodePrice(s, core);
    var b := EncodeDecimal(s).value;
    StripDigits(b, core);
    NoExponent(core);
    ParseFloatUnsigned(b, core);
    PlainPriceDecimal(core);
  }

  /** A sign, an exponent or a sixth decimal is refused by the pattern. */
  lemma {:induction false} PriceRefusals(digits: string, decimals: string)
    requires digits != [] && AllDigits(digits) && AllDigits(decimals) && |decimals| >= 6
    ensures !LessThan5DecimalPlaces("-" + digits)
    ensures !LessThan5DecimalPlaces(digits + "e1")
    ensures !LessThan5DecimalPlaces(digits + "." + decimals)
  {
    var minus := "-" + digits;
    assert minus[0] == '-' && minus[|minus| - 1] == digits[|digits| - 1];
    NotPlain(minus, 0);
    var exp := digits + "e1";
    assert exp[|digits|] == 'e' && exp[|exp| - 1] == '1';
    NotPlain(exp, |digits|);
    SixthDecimalRefused(digits, decimals);
  }

  /** Text with a character that is neither a digit nor a dot, and that
      does not end in a newline, is not a price. */
  lemma {:induction false} NotPlain(s: string, i: nat)
    requires i < |s| && !IsDigit(s[i]) && s[i] != '.' && s[|s| - 1] != '\n'
    ensures !LessThan5DecimalPlaces(s)
  {
    if PlainPrice(s) {
      PlainPriceChars(s);
    }
  }

  lemma {:induction false} SixthDecimalRefused(digits: string, decimals: string)
    requires AllDigits(decimals) && |decimals| >= 6
    ensures !LessThan5DecimalPlaces(digits + "." + decimals)
  {
    var long := digits + "." + decimals;
    LastIndexAfter(digits, decimals, '.');
    assert !PlainPrice(long);
    assert long[|long| - 1] == decimals[|decimals| - 1];
  }

  /** A price as `format_price_to_number` returns it. */
  datatype Number = Whole(i: int) | Fraction(x: real)

  /** `format_price_to_number(number)`: an integer when `int()` accepts the
      text; otherwise `float()` is tried, and its error, `UnicodeEncodeError`
      included, escapes. */
  function FormatPriceToNumber(s: string): (r: Result<Number>)
    ensures r.Ok? <==> PyInt(s).Ok? || PyFloat(s).Ok?
    ensures PyInt(s).Ok? ==> r == Ok(Whole(PyInt(s).value))
    ensures PyInt(s).Raise? && PyFloat(s).Ok? ==> r == Ok(Fraction(PyFloat(s).value))
    ensures r.Raise? ==> r.error == PyFloat(s).error
    ensures EncodeDecimal(s).Raise? ==> r == Raise(UnicodeEncodeError)
  {
    match PyInt(s)
    case Ok(i) => Ok(Whole(i))
    case Raise(_) =>
      match PyFloat(s)
      case Ok(x) => Ok(Fraction(x))
      case Raise(e) => Raise(e)
  }

  /** A price is read as the text it encodes to. */
  lemma {:induction false} FormatEncoded(s: string)
    requires EncodeDecimal(s).Ok?
    ensures FormatPriceToNumber(EncodeDecimal(s).value) == FormatPriceToNumber(s)
  {
    EncodeDecimalIdempotent(s);
  }

  /** A price of digits only is stored as that integer. */
  lemma {:induction false} FormatWholePrice(whole: string)
    requires whole != [] && AllDigits(whole)
    ensures FormatPriceToNumber(whole) == Ok(Whole(DigitsValue(whole)))
  {
    IntOfDigits(whole);
  }

  /** `int()` reads digits as their value. */
  lemma {:induction false} IntOfDigits(whole: string)
    requires whole != [] && AllDigits(whole)
    ensures PyInt(whole) == Ok(DigitsValue(whole) as int)
  {
    EncodeDecimalPlain(whole);
    IntOfDigitBytes(whole);
  }

  lemma {:induction false} IntOfDigitBytes(whole: string)
    requires whole != [] && AllDigits(whole)
    ensures IntOfBytes(whole) == Ok(DigitsValue(whole) as int)
  {
    StripDigits(whole, whole);
    DigitNotSpace(whole[0]);
    assert ParseIntBytes(whole) == Some(DigitsValue(whole) as int);
  }

  /** A price with decimals is stored as its exact decimal value. */
  lemma {:induction false} FormatDecimalPrice(whole: string, decimals: string)
    requires whole != [] && AllDigits(whole) && AllDigits(decimals) && decimals != []
    ensures FormatPriceToNumber(whole + "." + decimals)
            == Ok(Fraction(DecimalValue(whole, decimals)))
  {
    var t := whole + "." + decimals;
    FractionText(whole, decimals);
    EncodeDecimalPlain(t);
    StripDigits(t, t);
    DigitNotSpace(t[0]);
    assert ParseIntBytes(t) == None by {
      assert t[|whole|] == '.';
      assert !AllDigits(t);
    }
    NoExponent(t);
    ParseFloatUnsigned(t, t);
    ParseDecimalOf(whole, decimals);
  }

  /** Ten in Arabic-Indic digits is the integer 10; a euro sign cannot be
      encoded, so `int()` and then `float()` raise `UnicodeEncodeError`. */
  lemma {:induction false} FormatOtherScripts()
    ensures FormatPriceToNumber("\U{661}\U{660}") == Ok(Whole(10))
    ensures FormatPriceToNumber("1\U{20AC}") == Raise(UnicodeEncodeError)
  {
    EncodeDecimalExamples();
    FormatWholePrice("10");
    assert DigitsValue("10") == 10 by {
      assert "10"[..1] == "1" && "1"[..0] == [];
    }
    FormatEncoded("\U{661}\U{660}");
  }

  /** Letters other than `e`, which can start no number. */
  predicate Word(w: string) {
    w != [] && forall k :: 0 <= k < |w| ==> IsAsciiLetter(w[k]) && AsciiLowerChar(w[k]) != 'e'
  }

  /** The two messages of `float()`: for a word, nothing starts a number
      there; for digits followed by a word, a number starts but does not
      fill the text.  Leading whitespace is left out of the message. */
  lemma {:induction false} FloatMessages(digits: string, w: string)
    requires digits != [] && AllDigits(digits) && Word(w)
    ensures PyFloat(w) == Raise(ValueError("could not convert string to float: " + Prefix(w, 200)))
    ensures PyFloat(" " + digits + w)
            == Raise(ValueError("invalid literal for float(): " + Prefix(digits + w, 200)))
  {
    PyFloatOfWord(w);
    PyFloatOfDigitsWord(digits, w);
  }

  lemma {:induction false} PyFloatOfWord(w: string)
    requires Word(w)
    ensures PyFloat(w) == Raise(ValueError("could not convert string to float: " + Prefix(w, 200)))
  {
    LettersPlain(w);
    EncodeDecimalPlain(w);
    FloatOfWord(w);
  }

  lemma {:induction false} PyFloatOfDigitsWord(digits: string, w: string)
    requires digits != [] && AllDigits(digits) && Word(w)
    ensures PyFloat(" " + digits + w)
            == Raise(ValueError("invalid literal for float(): " + Prefix(digits + w, 200)))
  {
    DigitsWordPlain(digits, w);
    EncodeDecimalPlain(" " + digits + w);
    FloatOfDigitsWord(digits, w);
  }

  lemma {:induction false} LettersPlain(w: string)
    requires Word(w)
    ensures forall k :: 0 <= k < |w| ==> 0 < w[k] as int < 0x100 && !IsSpace(w[k])
  {
  }

  lemma {:induction false} DigitsWordPlain(digits: string, w: string)
    requires AllDigits(digits) && Word(w)
    ensures var s := " " + digits + w;
            forall k :: 0 <= k < |s| ==> 0 < s[k] as int < 0x100 && (IsSpace(s[k]) ==> s[k] == ' ')
  {
    var s := " " + digits + w;
    forall k | 0 <= k < |s|
      ensures 0 < s[k] as int < 0x100 && (IsSpace(s[k]) ==> s[k] == ' ')
    {
      if 1 <= k <= |digits| {
        assert s[k] == digits[k - 1];
      } else if k > |digits| {
        assert s[k] == w[k - 1 - |digits|];
      }
    }
  }

  /** A word has no `e` once lowered, and no dot. */
  lemma {:induction false} WordNoExponent(w: string)
    requires Word(w)
    ensures LastIndexOf(AsciiLower(w), 'e') == None && LastIndexOf(w, '.') == None
  {
    var l := AsciiLower(w);
    assert forall k :: 0 <= k < |l| ==> l[k] != 'e';
    assert 'e' !in l;
    assert forall k :: 0 <= k < |w| ==> w[k] != '.';
    assert '.' !in w;
  }

  lemma {:induction false} FloatOfWord(w: string)
    requires Word(w)
    ensures FloatOfBytes(w) == Raise(ValueError("could not convert string to float: " + Prefix(w, 200)))
  {
    StripOfStripped(w);
    assert TrimLeft(w) == w;
    WordNoExponent(w);
    assert !IsDigit(w[0]) && !AllDigits(w);
    assert ParseFloat(w) == None;
    assert !NumberStart(w);
  }

  lemma {:induction false} FloatOfDigitsWord(digits: string, w: string)
    requires digits != [] && AllDigits(digits) && Word(w)
    ensures FloatOfBytes(" " + digits + w)
            == Raise(ValueError("invalid literal for float(): " + Prefix(digits + w, 200)))
  {
    var t := digits + w;
    assert " " + digits + w == " " + t;
    assert t[0] == digits[0] && t[|t| - 1] == w[|w| - 1];
    DigitLetterStripped(t);
    DigitsWordNotNumber(digits, w);
    ParseFloatAfterSpace(t);
    SpaceBefore(t);
    FloatAfterSpace(t);
  }

  lemma {:induction false} ParseFloatAfterSpace(t: string)
    requires t != [] && !IsSpace(t[0]) && ParseFloat(t) == None
    ensures ParseFloat(" " + t) == None
  {
    SpaceBefore(t);
    ParseFloatOfStrip(" " + t, t);
  }

  lemma {:induction false} FloatAfterSpace(t: string)
    requires t != [] && IsDigit(t[0])
    requires TrimLeft(" " + t) == t && ParseFloat(" " + t) == None
    ensures FloatOfBytes(" " + t) == Raise(ValueError("invalid literal for float(): " + Prefix(t, 200)))
  {
    assert NumberStart(t);
  }

  /** `float()` looks at the text only once stripped. */
  lemma {:induction false} ParseFloatOfStrip(s: string, t: string)
    requires Strip(s) == Strip(t)
    ensures ParseFloat(s) == ParseFloat(t)
  {
  }

  lemma {:induction false} DigitsWordNotNumber(digits: string, w: string)
    requires digits != [] && AllDigits(digits) && Word(w)
    ensures ParseFloat(digits + w) == None
  {
    var t := digits + w;
    DigitsWordNoExponent(digits, w);
    assert t[|t| - 1] == w[|w| - 1] && t[0] == digits[0];
    NumberThenLetter(t);
  }

  /** Digits and letters without an `e` or a dot, ending in a letter. */
  lemma {:induction false} NumberThenLetter(t: string)
    requires t != [] && IsDigit(t[0]) && IsAsciiLetter(t[|t| - 1])
    requires LastIndexOf(AsciiLower(t), 'e') == None && LastIndexOf(t, '.') == None
    ensures ParseFloat(t) == None
  {
    DigitLetterStripped(t);
    ParseFloatUnsigned(t, t);
    NotDecimal(t);
  }

  lemma {:induction false} DigitLetterStripped(t: string)
    requires t != [] && IsDigit(t[0]) && IsAsciiLetter(t[|t| - 1])
    ensures Strip(t) == t
  {
    StripOfStripped(t);
  }

  /** Text without a dot that ends in a letter is no decimal. */
  lemma {:induction false} NotDecimal(t: string)
    requires t != [] && IsAsciiLetter(t[|t| - 1]) && LastIndexOf(t, '.') == None
    ensures ParseDecimal(t) == None
  {
    assert !IsDigit(t[|t| - 1]);
    assert !AllDigits(t);
  }

  lemma {:induction false} DigitsWordNoExponent(digits: string, w: string)
    requires AllDigits(digits) && Word(w)
    ensures LastIndexOf(AsciiLower(digits + w), 'e') == None && LastIndexOf(digits + w, '.') == None
  {
    var t := digits + w;
    var l := AsciiLower(t);
    forall k | 0 <= k < |t| ensures l[k] != 'e' && t[k] != '.' {
      if k < |digits| { assert t[k] == digits[k]; } else { assert t[k] == w[k - |digits|]; }
    }
    assert 'e' !in l;
    assert '.' !in t;
  }

  lemma {:induction false} ParseDecimalOf(whole: string, decimals: string)
    requires AllDigits(whole) && AllDigits(decimals) && decimals != []
    ensures ParseDecimal(whole + "." + decimals)
            == Some(DecimalValue(whole, decimals))
  {
    var t := whole + "." + decimals;
    LastIndexAfter(whole, decimals, '.');
    assert t[..|whole|] == whole && t[|whole| + 1..] == decimals;
  }

  lemma {:induction false} FractionText(whole: string, decimals: string)
    requires whole != [] && AllDigits(whole) && AllDigits(decimals) && decimals != []
    ensures var t := whole + "." + decimals;
            IsDigit(t[0]) && IsDigit(t[|t| - 1])
            && forall k :: 0 <= k < |t| ==> IsDigit(t[k]) || t[k] == '.'
  {
    var t := whole + "." + decimals;
    assert t[0] == whole[0] && t[|t| - 1] == decimals[|decimals| - 1];
    forall k | 0 <= k < |t| ensures IsDigit(t[k]) || t[k] == '.' {
      if k < |whole| { assert t[k] == whole[k]; }
      else if k > |whole| { assert t[k] == decimals[k - |whole| - 1]; }
    }
  }
}
