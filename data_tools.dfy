/** Normalisers for Australian business identifiers and the money-string
    pre-processing of `dmutils/data_tools.py`.

    An Australian Company Number (ACN) has nine digits; the last is a check
    digit under the ASIC scheme (weights 8..1 on the first eight digits, the
    check digit makes the weighted sum a multiple of 10).  An Australian
    Business Number (ABN) has eleven digits; under the ABR scheme one is
    subtracted from the leading digit and the weighted sum with weights
    10, 1, 3, 5, ..., 19 must be a multiple of 89. */
module DataTools {

  import opened Results
  import opened Text
  import opened Values

  /** `raise ValidationError('<prefix>{}'.format(original))`.  The format
      string is a byte string, so Python 2 encodes the text to ASCII while
      formatting it and raises `UnicodeEncodeError` instead when the text
      is not ASCII. */
  function Refuse<T>(prefix: string, original: string): Result<T> {
    if IsAscii(original) then Raise(ValidationError(prefix + original))
    else Raise(UnicodeEncodeError)
  }

  // ---------------------------------------------------------------------
  // common pre-processing

  /** The characters matched by the pattern `(\s|-)`. */
  predicate IsSeparator(c: char) {
    IsAsciiSpace(c) || c == '-'
  }

  /** `re.sub('(\s|-)', '', s)`: every whitespace character and every dash
      removed, everything else kept in order. */
  function RemoveSeparators(s: string): (r: string)
    ensures |r| <= |s|
  {
    if s == [] then []
    else (if IsSeparator(s[0]) then [] else [s[0]]) + RemoveSeparators(s[1..])
  }

  /** What is left is exactly the characters of the input that are not
      separators. */
  lemma {:induction false} RemoveSeparatorsMembers(s: string)
    ensures forall c :: c in RemoveSeparators(s) <==> c in s && !IsSeparator(c)
  {
    if s != [] {
      RemoveSeparatorsMembers(s[1..]);
      assert s == [s[0]] + s[1..];
    }
  }

  lemma {:induction false} RemoveSeparatorsAppend(a: string, b: string)
    ensures RemoveSeparators(a + b) == RemoveSeparators(a) + RemoveSeparators(b)
  {
    if a == [] {
      assert a + b == b;
    } else {
      assert (a + b)[0] == a[0];
      assert (a + b)[1..] == a[1..] + b;
      RemoveSeparatorsAppend(a[1..], b);
    }
  }

  /** Text without separators passes through unchanged. */
  lemma {:induction false} RemoveSeparatorsOfClean(s: string)
    requires forall i :: 0 <= i < |s| ==> !IsSeparator(s[i])
    ensures RemoveSeparators(s) == s
  {
    if s != [] { RemoveSeparatorsOfClean(s[1..]); }
  }

  /** Digits are never separators. */
  lemma {:induction false} RemoveSeparatorsOfDigits(s: string)
    requires AllDigits(s)
    ensures RemoveSeparators(s) == s
  {
    if s != [] { RemoveSeparatorsOfDigits(s[1..]); }
  }

  /** Removing separators from two parts joined by a space. */
  lemma {:induction false} RemoveSeparatorsSpaced(x: string, y: string)
    ensures RemoveSeparators(x + " " + y) == RemoveSeparators(x) + RemoveSeparators(y)
  {
    RemoveSeparatorsAppend(x + " ", y);
    RemoveSeparatorsAppend(x, " ");
  }

  /** The position of the first character that is not a decimal digit. */
  function FirstNonDecimal(s: string): (k: nat)
    requires !AllDecimal(s)
    ensures k < |s| && DecimalValue(s[k]).None?
    ensures forall j :: 0 <= j < k ==> DecimalValue(s[j]).Some?
  {
    if DecimalValue(s[0]).None? then 0 else FirstNonDecimal(s[1..]) + 1
  }

  /** `map(int, s)` on text: `int` applied to every character in turn, so
      each Unicode decimal digit gives its value (`int(u'\u0661') == 1`)
      and the first character that is not one raises what `int` raises for
      it (`PyIntOfChar`). */
  function IntOfChars(s: string): (r: Result<seq<nat>>)
    ensures r.Ok? <==> AllDecimal(s)
    ensures r.Ok? ==> |r.value| == |s| && forall i :: 0 <= i < |s| ==> r.value[i] == DecimalValue(s[i]).value
    ensures r.Raise? ==> r.error == CharIntError(s[FirstNonDecimal(s)])
  {
    if s == [] then Ok([])
    else
      match DecimalValue(s[0])
      case None => Raise(CharIntError(s[0]))
      case Some(d) =>
        match IntOfChars(s[1..])
        case Raise(e) => Raise(e)
        case Ok(rest) => Ok([d] + rest)
  }

  /** Text of ASCII digits is text of decimal digits. */
  lemma {:induction false} DigitsAreDecimal(s: string)
    requires AllDigits(s)
    ensures AllDecimal(s)
  {
    forall i | 0 <= i < |s|
      ensures DecimalValue(s[i]).Some?
    {
      DecimalOfDigit(s[i]);
    }
  }

  /** The values `map(int, s)` gives the first `n` characters when they are
      ASCII digits. */
  lemma {:induction false} LeadingDigitValues(s: string, n: nat)
    requires StartsWithDigits(s, n) && AllDecimal(s)
    ensures forall i :: 0 <= i < n ==> IntOfChars(s).value[i] == DigitValue(s[i])
  {
    forall i | 0 <= i < n
      ensures IntOfChars(s).value[i] == DigitValue(s[i])
    {
      assert s[..n][i] == s[i];
      DecimalOfDigit(s[i]);
    }
  }

  /** `sum(w * d for w, d in zip(weights, digits))`: `zip` stops at the
      shorter of the two. */
  function WeightedSum(weights: seq<int>, digits: seq<int>): int {
    WeightedSumFrom(weights, digits, 0)
  }

  /** The sum over the pairs from position `i` on. */
  function WeightedSumFrom(weights: seq<int>, digits: seq<int>, i: nat): int
    decreases |weights| - i
  {
    if i >= |weights| || i >= |digits| then 0
    else weights[i] * digits[i] + WeightedSumFrom(weights, digits, i + 1)
  }

  lemma {:induction false} WeightedSumStep(w: seq<int>, d: seq<int>, i: nat, k: int)
    requires i < |w| && i < |d| && w[i] == k
    ensures WeightedSumFrom(w, d, i) == k * d[i] + WeightedSumFrom(w, d, i + 1)
  {
  }

  /** `re.match('[0-9]{n}', s) is not None`: the match is anchored at the
      start only, so anything may follow the first `n` digits. */
  predicate StartsWithDigits(s: string, n: nat) {
    |s| >= n && AllDigits(s[..n])
  }

  /** Any slice of the leading digits is digits. */
  lemma {:induction false} DigitsSlice(s: string, n: nat, i: nat, j: nat)
    requires StartsWithDigits(s, n) && i <= j <= n
    ensures AllDigits(s[i..j])
  {
    forall k | 0 <= k < j - i
      ensures IsDigit(s[i..j][k])
    {
      assert s[i..j][k] == s[..n][i + k];
    }
  }

  /** `x + d` is a multiple of 10 exactly when `d` is the complement of `x`. */
  lemma {:induction false} TenComplement(t: int, x: int, d: int)
    requires 0 <= d < 10 && t == x + d
    ensures t % 10 == 0 <==> d == (10 - x % 10) % 10
  {
    var q := x % 10;
    assert x == 10 * (x / 10) + q;
    assert (x + d) % 10 == (q + d) % 10;
  }

  // ---------------------------------------------------------------------
  // ACN

  const AcnWeights: seq<int> := [8, 7, 6, 5, 4, 3, 2, 1, 1]

  /** `'{} {} {}'.format(acn[0:3], acn[3:6], acn[6:9])`. */
  function AcnGroups(acn: string): string
    requires |acn| >= 9
  {
    acn[0..3] + " " + acn[3..6] + " " + acn[6..9]
  }

  /** `normalise_acn`. */
  function NormaliseAcn(original: string): (r: Result<string>)
  {
    var acn := RemoveSeparators(original);
    if !StartsWithDigits(acn, 9) then Refuse("Invalid ACN: ", original)
    else
      var digits :- IntOfChars(acn);
      if WeightedSum(AcnWeights, digits) % 10 != 0 then
        Refuse("Checksum failure for ACN: ", original)
      else
        Ok(AcnGroups(acn))
  }

  /** The ASIC check-digit rule, as published: the ninth digit is the
      complement to 10 of the weighted sum of the first eight. */
  predicate AcnCheckDigitHolds(a: string)
    requires StartsWithDigits(a, 9)
  {
    DigitValue(a[8]) == (10 - AcnPartialSum(a) % 10) % 10
  }

  /** The weighted sum of the first eight digits. */
  function AcnPartialSum(a: string): int
    requires StartsWithDigits(a, 9)
  {
    8 * DigitValue(a[0]) + 7 * DigitValue(a[1]) + 6 * DigitValue(a[2])
    + 5 * DigitValue(a[3]) + 4 * DigitValue(a[4]) + 3 * DigitValue(a[5])
    + 2 * DigitValue(a[6]) + DigitValue(a[7])
  }

  /** `'DDD DDD DDD'`. */
  predicate IsAcnCanonical(s: string) {
    |s| == 11 && s[3] == ' ' && s[7] == ' '
    && AllDigits(s[0..3]) && AllDigits(s[4..7]) && AllDigits(s[8..11])
  }

  /** The checksum loop computes the ASIC rule. */
  lemma {:induction false} AcnWeightedSum(a: string, d: seq<int>)
    requires StartsWithDigits(a, 9) && |d| >= 9
    requires forall i :: 0 <= i < 9 ==> d[i] == DigitValue(a[i])
    ensures WeightedSum(AcnWeights, d) % 10 == 0 <==> AcnCheckDigitHolds(a)
  {
    AcnSumOfDigits(d);
    var t := WeightedSum(AcnWeights, d);
    var p, c := AcnPartialSum(a), DigitValue(a[8]);
    assert t == p + c;
    TenComplement(t, p, c);
  }

  lemma {:induction false} AcnSumOfDigits(d: seq<int>)
    requires |d| >= 9
    ensures WeightedSum(AcnWeights, d)
         == 8 * d[0] + 7 * d[1] + 6 * d[2] + 5 * d[3] + 4 * d[4] + 3 * d[5] + 2 * d[6] + d[7] + d[8]
  {
    var w := AcnWeights;
    WeightedSumStep(w, d, 0, 8);
    WeightedSumStep(w, d, 1, 7);
    WeightedSumStep(w, d, 2, 6);
    WeightedSumStep(w, d, 3, 5);
    WeightedSumStep(w, d, 4, 4);
    WeightedSumStep(w, d, 5, 3);
    WeightedSumStep(w, d, 6, 2);
    WeightedSumStep(w, d, 7, 1);
    WeightedSumStep(w, d, 8, 1);
    assert WeightedSumFrom(w, d, 9) == 0;
  }

  /** The canonical form is three groups of digits whose digits, read
      without the spaces, are the first nine. */
  lemma {:induction false} AcnGroupsShape(acn: string)
    requires StartsWithDigits(acn, 9)
    ensures IsAcnCanonical(AcnGroups(acn))
    ensures RemoveSeparators(AcnGroups(acn)) == acn[..9]
  {
    var a, b, c := acn[0..3], acn[3..6], acn[6..9];
    DigitsSlice(acn, 9, 0, 3);
    DigitsSlice(acn, 9, 3, 6);
    DigitsSlice(acn, 9, 6, 9);
    var g := AcnGroups(acn);
    assert g[0..3] == a && g[4..7] == b && g[8..11] == c;
    RemoveSeparatorsSpaced(a + " " + b, c);
    RemoveSeparatorsSpaced(a, b);
    RemoveSeparatorsOfDigits(a);
    RemoveSeparatorsOfDigits(b);
    RemoveSeparatorsOfDigits(c);
    assert acn[..9] == a + b + c;
  }

  /** An ACN is accepted exactly when, once separators are removed, it
      consists of digits only, begins with nine of them and its ninth digit
      satisfies the ASIC check-digit rule; the result is those nine digits
      in three groups. */
  lemma {:induction false} AcnAccepted(original: string)
    ensures var acn := RemoveSeparators(original);
            NormaliseAcn(original).Ok? <==>
              StartsWithDigits(acn, 9) && AllDecimal(acn) && AcnCheckDigitHolds(acn)
    ensures NormaliseAcn(original).Ok? ==>
              IsAcnCanonical(NormaliseAcn(original).value)
              && RemoveSeparators(NormaliseAcn(original).value) == RemoveSeparators(original)[..9]
  {
    var acn := RemoveSeparators(original);
    if StartsWithDigits(acn, 9) && AllDecimal(acn) {
      LeadingDigitValues(acn, 9);
      AcnWeightedSum(acn, IntOfChars(acn).value);
      AcnGroupsShape(acn);
    }
  }

  /** The ways `normalise_acn` rejects its input: too few leading
      digits, a later character that is not a decimal digit (what `int`
      raises for the first one), a failed checksum.  The two messages carry the original text, which Python 2
      cannot put into them unless it is ASCII. */
  lemma {:induction false} AcnRejected(original: string)
    ensures var acn := RemoveSeparators(original);
            IsAscii(original) ==>
              ((NormaliseAcn(original) == Raise(ValidationError("Invalid ACN: " + original)))
                <==> !StartsWithDigits(acn, 9))
    ensures var acn := RemoveSeparators(original);
            IsAscii(original) ==>
              ((NormaliseAcn(original) == Raise(ValidationError("Checksum failure for ACN: " + original)))
                <==> StartsWithDigits(acn, 9) && AllDecimal(acn) && !AcnCheckDigitHolds(acn))
    ensures var acn := RemoveSeparators(original);
            StartsWithDigits(acn, 9) && !AllDecimal(acn) ==>
              NormaliseAcn(original) == Raise(CharIntError(acn[FirstNonDecimal(acn)]))
    ensures var acn := RemoveSeparators(original);
            (NormaliseAcn(original).Raise? && NormaliseAcn(original).error.ValueError?)
              <==> StartsWithDigits(acn, 9) && !AllDecimal(acn) && DecimalByte(acn[FirstNonDecimal(acn)]).Some?
    ensures var acn := RemoveSeparators(original);
            (NormaliseAcn(original) == Raise(UnicodeEncodeError))
              <==> (!IsAscii(original) && (!StartsWithDigits(acn, 9) || (AllDecimal(acn) && !AcnCheckDigitHolds(acn))))
                   || (StartsWithDigits(acn, 9) && !AllDecimal(acn) && DecimalByte(acn[FirstNonDecimal(acn)]).None?)
  {
    var acn := RemoveSeparators(original);
    assert ("Invalid ACN: " + original)[0] == 'I';
    assert ("Checksum failure for ACN: " + original)[0] == 'C';
    if StartsWithDigits(acn, 9) && AllDecimal(acn) {
      LeadingDigitValues(acn, 9);
      AcnWeightedSum(acn, IntOfChars(acn).value);
    }
  }

  /** Decimal digits are never separators. */
  lemma {:induction false} RemoveSeparatorsOfDecimal(s: string)
    requires AllDecimal(s)
    ensures RemoveSeparators(s) == s
  {
    forall i | 0 <= i < |s|
      ensures !IsSeparator(s[i])
    {
      DecimalFromZero(s[i]);
    }
    RemoveSeparatorsOfClean(s);
  }

  /** `map(int, ...)` accepts any Unicode decimal digit and the checksum
      reads only the first nine, so a decimal digit of any script after a
      nine-digit ACN changes nothing about a valid one (for instance
      `u'004085616\u0661'` normalises to `'004 085 616'`). */
  lemma {:induction false} AcnTrailingDecimalDigit(a: string, c: char)
    requires StartsWithDigits(a, 9) && AllDecimal(a) && DecimalValue(c).Some?
    ensures NormaliseAcn(a + [c]).Ok? <==> NormaliseAcn(a).Ok?
    ensures NormaliseAcn(a).Ok? ==> NormaliseAcn(a + [c]) == NormaliseAcn(a)
  {
    var s := a + [c];
    assert AllDecimal(s);
    assert StartsWithDigits(s, 9) && s[..9] == a[..9];
    AcnOfDecimal(s);
    AcnOfDecimal(a);
    assert AcnCheckDigitHolds(s) == AcnCheckDigitHolds(a) && AcnGroups(s) == AcnGroups(a) by {
      AcnPrefixDetermines(s);
      AcnPrefixDetermines(a);
    }
  }

  /** On decimal digits only, `normalise_acn` comes down to the checksum. */
  lemma {:induction false} AcnOfDecimal(a: string)
    requires StartsWithDigits(a, 9) && AllDecimal(a)
    ensures AcnCheckDigitHolds(a) ==> NormaliseAcn(a) == Ok(AcnGroups(a))
    ensures !AcnCheckDigitHolds(a) ==> NormaliseAcn(a).Raise?
  {
    RemoveSeparatorsOfDecimal(a);
    LeadingDigitValues(a, 9);
    AcnWeightedSum(a, IntOfChars(a).value);
  }

  /** Normalising a normalised ACN gives it back unchanged. */
  lemma {:induction false} AcnIdempotent(original: string)
    requires NormaliseAcn(original).Ok?
    ensures NormaliseAcn(NormaliseAcn(original).value) == NormaliseAcn(original)
  {
    var acn := RemoveSeparators(original);
    AcnAccepted(original);
    var g := AcnGroups(acn);
    assert NormaliseAcn(original).value == g;
    var d := acn[..9];
    AcnGroupsShape(acn);
    assert RemoveSeparators(g) == d;
    AcnPrefixDetermines(acn);
    DigitsAreDecimal(d);
    AcnAccepted(g);
  }

  /** Checksum and grouping look at the first nine characters only. */
  lemma {:induction false} AcnPrefixDetermines(acn: string)
    requires StartsWithDigits(acn, 9)
    ensures StartsWithDigits(acn[..9], 9) && AllDigits(acn[..9])
    ensures AcnCheckDigitHolds(acn[..9]) == AcnCheckDigitHolds(acn)
    ensures AcnGroups(acn[..9]) == AcnGroups(acn)
  {
    var d := acn[..9];
    assert d[..9] == d;
    assert forall i :: 0 <= i < 9 ==> d[i] == acn[i];
    assert d[0..3] == acn[0..3] && d[3..6] == acn[3..6] && d[6..9] == acn[6..9];
  }

  // ---------------------------------------------------------------------
  // ABN

  const AbnWeights: seq<int> := [10, 1, 3, 5, 7, 9, 11, 13, 15, 17, 19]

  /** `re.match('[1-9][0-9]{10}', s) is not None`. */
  predicate StartsLikeAbn(s: string) {
    StartsWithDigits(s, 11) && s[0] != '0'
  }

  /** `'{} {} {} {}'.format(abn[0:2], abn[2:5], abn[5:8], abn[8:11])`. */
  function AbnGroups(abn: string): string
    requires |abn| >= 11
  {
    abn[0..2] + " " + abn[2..5] + " " + abn[5..8] + " " + abn[8..11]
  }

  /** `digits[0] -= 1` on the list of digit values. */
  function DecrementFirst(digits: seq<nat>): (r: seq<int>)
    requires digits != []
    ensures |r| == |digits| && r[0] == digits[0] as int - 1
    ensures forall i :: 1 <= i < |r| ==> r[i] == digits[i]
  {
    [digits[0] as int - 1] + digits[1..]
  }

  /** `normalise_abn`. */
  function NormaliseAbn(original: string): (r: Result<string>)
  {
    var abn := RemoveSeparators(original);
    if !StartsLikeAbn(abn) then Refuse("Invalid ABN: ", original)
    else
      var digits :- IntOfChars(abn);
      if WeightedSum(AbnWeights, DecrementFirst(digits)) % 89 != 0 then
        Refuse("Checksum failure for ABN: ", original)
      else
        Ok(AbnGroups(abn))
  }

  /** The ABR rule, as published: subtract one from the leading digit,
      weight the eleven digits 10, 1, 3, 5, ..., 19 and divide by 89. */
  predicate AbnChecksumHolds(a: string)
    requires StartsWithDigits(a, 11)
  {
    AbnWeightedTotal(a) % 89 == 0
  }

  function AbnWeightedTotal(a: string): int
    requires StartsWithDigits(a, 11)
  {
    10 * (DigitValue(a[0]) - 1) + DigitValue(a[1]) + 3 * DigitValue(a[2])
    + 5 * DigitValue(a[3]) + 7 * DigitValue(a[4]) + 9 * DigitValue(a[5])
    + 11 * DigitValue(a[6]) + 13 * DigitValue(a[7]) + 15 * DigitValue(a[8])
    + 17 * DigitValue(a[9]) + 19 * DigitValue(a[10])
  }

  /** `'DD DDD DDD DDD'`. */
  predicate IsAbnCanonical(s: string) {
    |s| == 14 && s[2] == ' ' && s[6] == ' ' && s[10] == ' '
    && AllDigits(s[0..2]) && AllDigits(s[3..6]) && AllDigits(s[7..10]) && AllDigits(s[11..14])
  }

  /** The checksum loop computes the ABR rule. */
  lemma {:induction false} AbnWeightedSum(a: string, digits: seq<nat>)
    requires StartsWithDigits(a, 11) && |digits| >= 11
    requires forall i :: 0 <= i < 11 ==> digits[i] == DigitValue(a[i])
    ensures WeightedSum(AbnWeights, DecrementFirst(digits)) % 89 == 0 <==> AbnChecksumHolds(a)
  {
    var d := DecrementFirst(digits);
    AbnSumOfDigits(d);
    assert WeightedSum(AbnWeights, d) == AbnWeightedTotal(a);
  }

  lemma {:induction false} AbnSumOfDigits(d: seq<int>)
    requires |d| >= 11
    ensures WeightedSum(AbnWeights, d)
         == 10 * d[0] + d[1] + 3 * d[2] + 5 * d[3] + 7 * d[4] + 9 * d[5]
          + 11 * d[6] + 13 * d[7] + 15 * d[8] + 17 * d[9] + 19 * d[10]
  {
    var w := AbnWeights;
    WeightedSumStep(w, d, 0, 10);
    WeightedSumStep(w, d, 1, 1);
    WeightedSumStep(w, d, 2, 3);
    WeightedSumStep(w, d, 3, 5);
    WeightedSumStep(w, d, 4, 7);
    WeightedSumStep(w, d, 5, 9);
    WeightedSumStep(w, d, 6, 11);
    WeightedSumStep(w, d, 7, 13);
    WeightedSumStep(w, d, 8, 15);
    WeightedSumStep(w, d, 9, 17);
    WeightedSumStep(w, d, 10, 19);
    assert WeightedSumFrom(w, d, 11) == 0;
  }

  /** The canonical form is four groups of digits whose digits, read
      without the spaces, are the first eleven. */
  lemma {:induction false} AbnGroupsShape(abn: string)
    requires StartsWithDigits(abn, 11)
    ensures IsAbnCanonical(AbnGroups(abn))
    ensures RemoveSeparators(AbnGroups(abn)) == abn[..11]
  {
    var a, b, c, e := abn[0..2], abn[2..5], abn[5..8], abn[8..11];
    var g := AbnGroups(abn);
    assert g[0..2] == a && g[3..6] == b && g[7..10] == c && g[11..14] == e;
    assert AllDigits(a) && AllDigits(b) && AllDigits(c) && AllDigits(e) by {
      DigitsSlice(abn, 11, 0, 2);
      DigitsSlice(abn, 11, 2, 5);
      DigitsSlice(abn, 11, 5, 8);
      DigitsSlice(abn, 11, 8, 11);
    }
    assert RemoveSeparators(g) == RemoveSeparators(a) + RemoveSeparators(b) + RemoveSeparators(c) + RemoveSeparators(e) by {
      RemoveSeparatorsSpaced(a + " " + b + " " + c, e);
      RemoveSeparatorsSpaced(a + " " + b, c);
      RemoveSeparatorsSpaced(a, b);
    }
    RemoveSeparatorsOfDigits(a);
    RemoveSeparatorsOfDigits(b);
    RemoveSeparatorsOfDigits(c);
    RemoveSeparatorsOfDigits(e);
    assert abn[..11] == a + b + c + e;
  }

  /** An ABN is accepted exactly when, once separators are removed, it
      consists of digits only, begins with a non-zero digit followed by ten
      more, and satisfies the ABR rule; the result is those eleven digits
      in four groups. */
  lemma {:induction false} AbnAccepted(original: string)
    ensures var abn := RemoveSeparators(original);
            NormaliseAbn(original).Ok? <==>
              StartsLikeAbn(abn) && AllDecimal(abn) && AbnChecksumHolds(abn)
    ensures NormaliseAbn(original).Ok? ==>
              IsAbnCanonical(NormaliseAbn(original).value)
              && RemoveSeparators(NormaliseAbn(original).value) == RemoveSeparators(original)[..11]
  {
    var abn := RemoveSeparators(original);
    if StartsLikeAbn(abn) && AllDecimal(abn) {
      LeadingDigitValues(abn, 11);
      AbnWeightedSum(abn, IntOfChars(abn).value);
      AbnGroupsShape(abn);
    }
  }

  /** The ways `normalise_abn` rejects its input: too few leading
      digits or a leading zero, a later character that is not a decimal
      digit (what `int` raises for the first one), a failed checksum.  The two messages carry the original text, which Python 2
      cannot put into them unless it is ASCII. */
  lemma {:induction false} AbnRejected(original: string)
    ensures var abn := RemoveSeparators(original);
            IsAscii(original) ==>
              ((NormaliseAbn(original) == Raise(ValidationError("Invalid ABN: " + original)))
                <==> !StartsLikeAbn(abn))
    ensures var abn := RemoveSeparators(original);
            IsAscii(original) ==>
              ((NormaliseAbn(original) == Raise(ValidationError("Checksum failure for ABN: " + original)))
                <==> StartsLikeAbn(abn) && AllDecimal(abn) && !AbnChecksumHolds(abn))
    ensures var abn := RemoveSeparators(original);
            StartsLikeAbn(abn) && !AllDecimal(abn) ==>
              NormaliseAbn(original) == Raise(CharIntError(abn[FirstNonDecimal(abn)]))
    ensures var abn := RemoveSeparators(original);
            (NormaliseAbn(original).Raise? && NormaliseAbn(original).error.ValueError?)
              <==> StartsLikeAbn(abn) && !AllDecimal(abn) && DecimalByte(abn[FirstNonDecimal(abn)]).Some?
    ensures var abn := RemoveSeparators(original);
            (NormaliseAbn(original) == Raise(UnicodeEncodeError))
              <==> (!IsAscii(original) && (!StartsLikeAbn(abn) || (AllDecimal(abn) && !AbnChecksumHolds(abn))))
                   || (StartsLikeAbn(abn) && !AllDecimal(abn) && DecimalByte(abn[FirstNonDecimal(abn)]).None?)
  {
    var abn := RemoveSeparators(original);
    assert ("Invalid ABN: " + original)[0] == 'I';
    assert ("Checksum failure for ABN: " + original)[0] == 'C';
    if StartsLikeAbn(abn) && AllDecimal(abn) {
      LeadingDigitValues(abn, 11);
      AbnWeightedSum(abn, IntOfChars(abn).value);
    }
  }

  /** Normalising a normalised ABN gives it back unchanged. */
  lemma {:induction false} AbnIdempotent(original: string)
    requires NormaliseAbn(original).Ok?
    ensures NormaliseAbn(NormaliseAbn(original).value) == NormaliseAbn(original)
  {
    var abn := RemoveSeparators(original);
    AbnAccepted(original);
    var g := AbnGroups(abn);
    assert NormaliseAbn(original).value == g;
    var d := abn[..11];
    AbnGroupsShape(abn);
    assert RemoveSeparators(g) == d;
    AbnPrefixDetermines(abn);
    DigitsAreDecimal(d);
    AbnAccepted(g);
  }

  /** Checksum and grouping look at the first eleven characters only. */
  lemma {:induction false} AbnPrefixDetermines(abn: string)
    requires StartsWithDigits(abn, 11)
    ensures StartsLikeAbn(abn[..11]) == StartsLikeAbn(abn)
    ensures StartsWithDigits(abn[..11], 11) && AllDigits(abn[..11])
    ensures AbnChecksumHolds(abn[..11]) == AbnChecksumHolds(abn)
    ensures AbnGroups(abn[..11]) == AbnGroups(abn)
  {
    var d := abn[..11];
    assert d[..11] == d;
    assert forall i :: 0 <= i < 11 ==> d[i] == abn[i];
    assert d[0..2] == abn[0..2] && d[2..5] == abn[2..5] && d[5..8] == abn[5..8] && d[8..11] == abn[8..11];
  }

  // ---------------------------------------------------------------------
  // money

  /** The text `parse_money` hands to `decimal.Decimal`: surrounding
      whitespace stripped, every comma removed, then one leading `$`
      dropped. */
  function MoneyText(s: string): (r: string)
    ensures ',' !in r
  {
    var t := RemoveChar(Strip(s), ',');
    if StartsWith(t, "$") then t[1..] else t
  }

  /** `parse_money`, with the `Decimal` constructor as a parameter that
      either yields a value or rejects the text. */
  function ParseMoney<D>(s: string, decimal: string -> Option<D>): (r: Result<D>)
    ensures r.Ok? <==> decimal(MoneyText(s)).Some?
    ensures r.Ok? ==> r.value == decimal(MoneyText(s)).value
    ensures r.Raise? && IsAscii(s) ==> r.error == ValidationError("Invalid money format: " + s)
    ensures r.Raise? && !IsAscii(s) ==> r.error == UnicodeEncodeError
  {
    match decimal(MoneyText(s))
    case Some(d) => Ok(d)
    case None => Refuse("Invalid money format: ", s)
  }

  /** Only one dollar sign is removed, and only at the front. */
  lemma {:induction false} MoneyTextDollar(s: string)
    requires s != [] && s[0] == '$' && ',' !in s && !IsSpace(s[|s| - 1])
    ensures MoneyText(s) == s[1..]
  {
    StripOfStripped(s);
    RemoveCharAbsent(s, ',');
  }

  /** Text already in plain form is passed on unchanged. */
  lemma {:induction false} MoneyTextPlain(s: string)
    requires ',' !in s && (s == [] || (s[0] != '$' && !IsSpace(s[0]) && !IsSpace(s[|s| - 1])))
    ensures MoneyText(s) == s
  {
    StripOfStripped(s);
    RemoveCharAbsent(s, ',');
  }

}
