/** Typed values (values.rs): a tag and one field per numeric type, the
    parsing of numeral strings into values, the unary operations, and the
    store of named values. The Integer of this file is `i128` and its
    Decimal is an `f64`, written here as a real number. */
module Values {
  import opened Numerics
  import opened Outcomes
  import opened Errors
  import opened Patterns
  import Bitseqs
  import Integers

  datatype ValueType = Bitseq | Decimal | Integer

  datatype Value = Value(type_: ValueType, bitseq: Bitseqs.Bitseq, decimal: real, integer: I128)

  /** Value::from_integer */
  function FromInteger(i: I128): (v: Value)
    ensures v.type_ == Integer && v.integer == i
    ensures v.bitseq == Bitseqs.Zero && v.decimal == 0.0
  {
    Value(Integer, Bitseqs.Zero, 0.0, i)
  }

  /** Value::from_decimal */
  function FromDecimal(d: real): (v: Value)
    ensures v.type_ == Decimal && v.decimal == d
    ensures v.bitseq == Bitseqs.Zero && v.integer == 0
  {
    Value(Decimal, Bitseqs.Zero, d, 0)
  }

  /** Value::from_bitseq */
  function FromBitseq(b: Bitseqs.Bitseq): (v: Value)
    ensures v.type_ == Bitseq && v.bitseq == b
    ensures v.decimal == 0.0 && v.integer == 0
  {
    Value(Bitseq, b, 0.0, 0)
  }

  // ---------------------------------------------------------------------
  // Numeral strings

  /** _check_str_and_get_base: the base of the first numeral pattern family
      that matches, trying binary, octal, decimal and hexadecimal in turn. */
  function CheckStrAndGetBase(s: string): (b: Option<nat>)
    ensures b.Some? ==> b.value in {2, 8, 10, 16}
    ensures b == None <==> !BinaryNumeral(s) && !OctalNumeral(s) && !DecimalNumeral(s) && !HexadecimalNumeral(s)
  {
    if BinaryNumeral(s) then Some(2)
    else if OctalNumeral(s) then Some(8)
    else if DecimalNumeral(s) then Some(10)
    else if HexadecimalNumeral(s) then Some(16)
    else None
  }

  predicate BinaryNumeral(s: string) { BinaryInteger(s) || BinaryRational(s) }
  predicate OctalNumeral(s: string) { OctalInteger(s) || OctalRational(s) }
  predicate DecimalNumeral(s: string) { DecimalInteger(s) || DecimalRational(s) }
  predicate HexadecimalNumeral(s: string) { HexadecimalInteger(s) || HexadecimalRational(s) }

  /** A digit, an underscore, a separator or the letter of a `0d` prefix is
      not one of the other base letters. */
  lemma NotOtherBaseLetter(c: char)
    requires c in Digits || c in DigitsOrUnderscore || c == '.' || c == ',' || c == 'd' || c == 'D'
    ensures c !in "bBoOxX"
  {
    if c in DigitsOrUnderscore {
      assert c == '_' || '0' <= c <= '9';
    }
    if c in Digits {
      assert '0' <= c <= '9';
    }
  }

  /** The second character of a decimal numeral is not the letter of a
      binary, octal or hexadecimal prefix. */
  lemma DecimalSecondChar(s: string)
    requires DecimalNumeral(s) && |s| >= 2
    ensures s[1] !in "bBoOxX"
  {
    if DigitRun(s) {
      DigitRunInterior(s);
      NotOtherBaseLetter(s[1]);
    } else if PrefixedBy(s, "dD") {
    } else {
      assert DecimalRationalBody(s);
      var k :| 0 <= k < |s| && s[k] in ".," && DecimalWholePart(s[..k]) && DecimalFractionPart(s[k + 1..]);
      if k == 0 {
        var f := s[1..];
        assert f[0] == s[1];
        if !AllIn(f, Digits) && |f| >= 2 {
          assert f[..|f| - 1][0] == s[1];
        }
        NotOtherBaseLetter(s[1]);
      } else if k >= 2 {
        var w := s[..k];
        assert w[1..][0] == s[1];
        NotOtherBaseLetter(s[1]);
      }
    }
  }

  /** The four numeral families are mutually exclusive, so the order in
      which CheckStrAndGetBase tries them decides nothing. */
  lemma NumeralFamiliesAreExclusive(s: string)
    ensures !(BinaryNumeral(s) && OctalNumeral(s))
    ensures !(BinaryNumeral(s) && HexadecimalNumeral(s))
    ensures !(OctalNumeral(s) && HexadecimalNumeral(s))
    ensures !(DecimalNumeral(s) && (BinaryNumeral(s) || OctalNumeral(s) || HexadecimalNumeral(s)))
  {
    if DecimalNumeral(s) && |s| >= 2 {
      DecimalSecondChar(s);
    }
  }

  /** _has_fractional_separator */
  function HasFractionalSeparator(s: string): (b: bool)
    ensures b <==> exists k :: 0 <= k < |s| && (s[k] == '.' || s[k] == ',')
  {
    '.' in s || ',' in s
  }

  /** `replace('_', "").replace(',', ".")`: underscores dropped, commas made points. */
  function Normalise(s: string): (t: string)
    ensures '_' !in t && ',' !in t
    ensures |t| <= |s|
  {
    if s == [] then []
    else (if s[0] == '_' then [] else if s[0] == ',' then "." else [s[0]]) + Normalise(s[1..])
  }

  /** Normalise keeps every character other than `_` and `,`, in order. */
  lemma {:induction false} NormaliseKeeps(s: string, cs: string)
    requires AllIn(s, cs) && '_' !in cs && ',' !in cs
    ensures Normalise(s) == s
  {
    if s != [] {
      assert AllIn(s[1..], cs) by {
        forall k | 0 <= k < |s[1..]| ensures s[1..][k] in cs { assert s[1..][k] == s[k + 1]; }
      }
      NormaliseKeeps(s[1..], cs);
    }
  }

  lemma {:induction false} NormaliseAppend(a: string, b: string)
    ensures Normalise(a + b) == Normalise(a) + Normalise(b)
  {
    if a == [] {
      assert a + b == b;
    } else {
      assert (a + b)[0] == a[0];
      assert (a + b)[1..] == a[1..] + b;
      NormaliseAppend(a[1..], b);
      var head: string := if a[0] == '_' then [] else if a[0] == ',' then "." else [a[0]];
      calc {
        Normalise(a + b);
        head + Normalise(a[1..] + b);
        head + (Normalise(a[1..]) + Normalise(b));
        (head + Normalise(a[1..])) + Normalise(b);
      }
    }
  }

  /** _strip_str: underscores removed, commas turned into points, and the two
      characters of a base prefix dropped. */
  function StripStr(s: string): (t: string)
    ensures '_' !in t && ',' !in t
  {
    var result := Normalise(s);
    if BasePrefix(s) then StripBasePrefix(result) else result
  }

  /** _strip_base_prefix: everything from the third character on, or the string
      itself when it is shorter than that. */
  function StripBasePrefix(s: string): (t: string)
    ensures |s| >= 2 ==> t == s[2..]
    ensures |s| < 2 ==> t == s
  {
    if |s| >= 2 then s[2..] else s
  }

  /** A base prefix survives Normalise, so StripStr drops exactly the prefix. */
  lemma StripStrOfPrefixed(s: string)
    requires BasePrefix(s)
    ensures StripStr(s) == Normalise(s[2..])
  {
    assert s == s[..2] + s[2..];
    NormaliseAppend(s[..2], s[2..]);
    assert Normalise(s[..2]) == s[..2] by {
      assert Normalise(s[..2]) == [s[0]] + Normalise(s[1..2]);
      assert s[..2][1..] == s[1..2];
    }
  }

  /** The value of a digit, case-insensitive, with 36 for a non-digit. */
  function DigitValue(c: char): (d: nat)
    ensures d <= 36
  {
    if '0' <= c <= '9' then (c as int) - ('0' as int)
    else if 'a' <= c <= 'z' then (c as int) - ('a' as int) + 10
    else if 'A' <= c <= 'Z' then (c as int) - ('A' as int) + 10
    else 36
  }

  /** The number the digits spell in the given base, most significant first. */
  function DigitsValue(ds: string, base: nat): nat
  {
    if ds == [] then 0 else DigitsValue(ds[..|ds| - 1], base) * base + DigitValue(ds[|ds| - 1])
  }

  predicate AllDigitsBelow(ds: string, base: nat)
  {
    forall k :: 0 <= k < |ds| ==> DigitValue(ds[k]) < base
  }

  /** The digits after an optional leading sign. */
  function Unsigned(s: string): (ds: string)
    ensures |ds| <= |s|
  {
    if s != [] && (s[0] == '+' || s[0] == '-') then s[1..] else s
  }

  /** The digits read from the left, each step multiplying what was read so
      far by the base and adding the next digit, as the standard library's
      `from_str_radix` loop does. */
  function Accumulated(ds: string, base: nat, acc: int): int
  {
    if ds == [] then acc else Accumulated(ds[1..], base, acc * base + DigitValue(ds[0]))
  }

  lemma {:induction false} AccumulatedSnoc(ds: string, d: char, base: nat, acc: int)
    ensures Accumulated(ds + [d], base, acc) == Accumulated(ds, base, acc) * base + DigitValue(d)
    decreases |ds|
  {
    if ds == [] {
      assert ds + [d] == [d];
      assert [d][1..] == [];
    } else {
      assert (ds + [d])[0] == ds[0];
      assert (ds + [d])[1..] == ds[1..] + [d];
      AccumulatedSnoc(ds[1..], d, base, acc * base + DigitValue(ds[0]));
    }
  }

  /** Read from the end or from the left, the digits spell the same number. */
  lemma {:induction false} DigitsValueFromLeft(ds: string, base: nat)
    ensures DigitsValue(ds, base) == Accumulated(ds, base, 0)
    decreases |ds|
  {
    if ds != [] {
      var init := ds[..|ds| - 1];
      DigitsValueFromLeft(init, base);
      assert ds == init + [ds[|ds| - 1]];
      AccumulatedSnoc(init, ds[|ds| - 1], base, 0);
    }
  }

  /** `i128::from_str_radix`: an optional sign, then at least one digit of the
      base; None for a bad digit and for a result outside the `i128` range. */
  function FromStrRadix(s: string, base: nat): (r: Option<I128>)
    ensures var ds := Unsigned(s);
      var v := if |s| >= 1 && s[0] == '-' then -Accumulated(ds, base, 0) else Accumulated(ds, base, 0);
      (r.Some? <==> ds != [] && AllDigitsBelow(ds, base) && I128Min <= v <= I128Max) &&
      (r.Some? ==> r.value == v)
    ensures r.Some? ==> |s| >= 1 && (s[0] == '-' ==> r.value <= 0) && (s[0] != '-' ==> r.value >= 0)
    ensures r.Some? ==> forall k :: 0 <= k < |s| ==> DigitValue(s[k]) < base || (k == 0 && (s[k] == '+' || s[k] == '-'))
  {
    if s == [] then None
    else
      var negative := s[0] == '-';
      var digits := if s[0] == '+' || s[0] == '-' then s[1..] else s;
      DigitsValueFromLeft(digits, base);
      if digits == [] || !AllDigitsBelow(digits, base) then None
      else
        var v: int := if negative then -(DigitsValue(digits, base) as int) else DigitsValue(digits, base);
        if I128Min <= v <= I128Max then Some(v) else None
  }

  /** A hexadecimal numeral with a sign, a sign with no digits, and a digit
      outside the base. */
  lemma FromStrRadixExamples()
    ensures FromStrRadix("-ff", 16) == Some(-255)
    ensures FromStrRadix("+", 10) == None
    ensures FromStrRadix("18", 8) == None
  {
    assert Unsigned("-ff") == "ff";
    assert Accumulated("ff", 16, 0) == 255 by {
      assert "ff"[1..] == "f";
      assert "f"[1..] == [];
    }
    assert Unsigned("18") == "18" && DigitValue("18"[1]) == 8;
  }

  function Quote(s: string): string { "\"" + s + "\"" }

  /** _from_bitseq_str: the stripped digits as a bit sequence. */
  function FromBitseqStr(s: string, position: InputPosition): (r: Result<Value, Error>)
    ensures r.Ok? <==> Bitseqs.FromStr(StripStr(s)).Some?
    ensures r.Ok? ==> r.value == FromBitseq(Bitseqs.FromStr(StripStr(s)).value)
    ensures r.Err? ==> r.error.kind == SyntaxError && r.error.position == position
  {
    var normS := StripStr(s);
    match Bitseqs.FromStr(normS)
    case Some(b) => Ok(FromBitseq(b))
    case None => Err(NewP(SyntaxError,
      "Failed to parse string " + Quote(s) + " (normalised to " + Quote(normS) + " into bit-sequence value",
      position))
  }

  /** _from_int_str: the stripped digits as an `i128` in the given base. */
  function FromIntStr(s: string, base: nat, position: InputPosition): (r: Result<Value, Error>)
    ensures r.Ok? <==> FromStrRadix(StripStr(s), base).Some?
    ensures r.Ok? ==> r.value == FromInteger(FromStrRadix(StripStr(s), base).value)
    ensures r.Err? ==> r.error.kind == SyntaxError && r.error.position == position
  {
    var normS := StripStr(s);
    match FromStrRadix(normS, base)
    case Some(i) => Ok(FromInteger(i))
    case None => Err(NewP(SyntaxError,
      "Failed to parse string " + Quote(s) + " (normalised to " + Quote(normS) + " into integer value",
      position))
  }

  /** _from_dec_str: `decimalOf` stands for the conversion of the stripped
      string in the given base to an `f64`; it is not part of this model. */
  function FromDecStr(s: string, base: nat, position: InputPosition, decimalOf: (string, nat) -> Option<real>): (r: Result<Value, Error>)
    ensures r.Ok? <==> decimalOf(StripStr(s), base).Some?
    ensures r.Ok? ==> r.value == FromDecimal(decimalOf(StripStr(s), base).value)
    ensures r.Err? ==> r.error.kind == SyntaxError && r.error.position == position
  {
    var normS := StripStr(s);
    match decimalOf(normS, base)
    case Some(d) => Ok(FromDecimal(d))
    case None => Err(NewP(SyntaxError,
      "Failed to parse string " + Quote(s) + " (normalised to " + Quote(normS) + ") into decimal value",
      position))
  }

  /** Value::from_str */
  function FromStr(s: string, position: InputPosition, decimalOf: (string, nat) -> Option<real>): (r: Result<Value, Error>)
    ensures CheckStrAndGetBase(s) == None ==>
      r == Err(NewP(SyntaxError, "The pattern of the numeral string " + Quote(s) + " is invalid", position))
    ensures r.Err? ==> r.error.kind == SyntaxError && r.error.position == position
    ensures r.Ok? && !HasFractionalSeparator(s) ==> r.value.type_ != Decimal
    ensures r.Ok? && HasFractionalSeparator(s) ==> r.value.type_ == Decimal
  {
    match CheckStrAndGetBase(s)
    case None => Err(NewP(SyntaxError, "The pattern of the numeral string " + Quote(s) + " is invalid", position))
    case Some(base) =>
      if HasFractionalSeparator(s) then FromDecStr(s, base, position, decimalOf)
      else if base == 2 then FromBitseqStr(s, position)
      else FromIntStr(s, base, position)
  }

  /** A binary integer numeral is read as a bit sequence whose length is the
      number of its digits once the prefix and the underscores are gone; it
      fails only when that is more than 128 digits. */
  lemma FromStrBinaryInteger(s: string, position: InputPosition, decimalOf: (string, nat) -> Option<real>)
    requires BinaryInteger(s)
    ensures var digits := StripStr(s);
      |digits| >= 1 && Bitseqs.BinaryDigits(digits) &&
      (FromStr(s, position, decimalOf).Ok? <==> |digits| <= 128) &&
      (FromStr(s, position, decimalOf).Ok? ==>
        FromStr(s, position, decimalOf).value == FromBitseq(Bitseqs.Bitseq(Bitseqs.BinaryValue(digits), |digits|)))
  {
    var t := s[2..];
    assert !HasFractionalSeparator(s) by {
      forall k | 0 <= k < |s| ensures s[k] != '.' && s[k] != ',' {
        if k >= 2 {
          AllInButLast(t, "01_", "01");
          assert s[k] == t[k - 2];
        }
      }
    }
    StripStrOfPrefixed(s);
    AllInButLast(t, "01_", "01");
    NormaliseBinary(t);
  }

  /** Stripping a run of binary digits and underscores that ends in a digit
      leaves at least one binary digit and nothing else. */
  lemma {:induction false} NormaliseBinary(t: string)
    requires AllIn(t, "01_")
    ensures Bitseqs.BinaryDigits(Normalise(t))
    ensures |t| >= 1 && t[|t| - 1] in "01" ==> |Normalise(t)| >= 1
  {
    if t != [] {
      assert AllIn(t[1..], "01_") by {
        forall k | 0 <= k < |t[1..]| ensures t[1..][k] in "01_" { assert t[1..][k] == t[k + 1]; }
      }
      NormaliseBinary(t[1..]);
      if |t| >= 2 { assert t[1..][|t[1..]| - 1] == t[|t| - 1]; }
    }
  }

  /** A decimal digit is a digit or underscore, is no separator, sign or base
      letter, and has a value below ten. */
  lemma DecimalDigit(c: char)
    requires c in Digits
    ensures c in DigitsOrUnderscore && c !in "bBdDoOxX" && DigitValue(c) < 10
    ensures c != '.' && c != ',' && c != '+' && c != '-' && c != '_'
  {
    var i :| 0 <= i < |Digits| && Digits[i] == c;
    assert DigitsOrUnderscore[i] == c;
  }

  /** A plain run of decimal digits is a decimal numeral and nothing else,
      carries no separator and no prefix, and is left alone by StripStr. */
  lemma PlainDigits(s: string)
    requires AllIn(s, Digits) && |s| >= 1
    ensures CheckStrAndGetBase(s) == Some(10)
    ensures !HasFractionalSeparator(s) && StripStr(s) == s
    ensures AllDigitsBelow(s, 10) && s[0] != '+' && s[0] != '-'
  {
    PlainDigitChars(s);
    PlainDigitsBase(s);
    PlainDigitsStripped(s);
  }

  lemma PlainDigitChars(s: string)
    requires AllIn(s, Digits)
    ensures forall k :: 0 <= k < |s| ==>
      s[k] in DigitsOrUnderscore && s[k] !in "bBdDoOxX" && s[k] != '.' && s[k] != ',' && s[k] != '+' && s[k] != '-' &&
      DigitValue(s[k]) < 10
  {
    forall k | 0 <= k < |s|
      ensures s[k] in DigitsOrUnderscore && s[k] !in "bBdDoOxX" && s[k] != '.' && s[k] != ',' && s[k] != '+' && s[k] != '-' &&
        DigitValue(s[k]) < 10
    {
      DecimalDigit(s[k]);
    }
  }

  lemma PlainDigitsBase(s: string)
    requires AllIn(s, Digits) && |s| >= 1
    requires forall k :: 0 <= k < |s| ==> s[k] in DigitsOrUnderscore && s[k] !in "bBdDoOxX"
    ensures CheckStrAndGetBase(s) == Some(10)
  {
    DecimalDigit(s[0]);
    DecimalDigit(s[|s| - 1]);
    DigitRunInterior(s);
    assert DecimalInteger(s);
  }

  lemma PlainDigitsStripped(s: string)
    requires AllIn(s, Digits) && |s| >= 1
    requires forall k :: 0 <= k < |s| ==> s[k] !in "bBdDoOxX" && s[k] != '.' && s[k] != ','
    ensures !HasFractionalSeparator(s) && StripStr(s) == s
  {
    if |s| >= 2 {
      assert s[1] !in "bBdDoOxX";
    }
    assert '_' !in Digits && ',' !in Digits;
    NormaliseKeeps(s, Digits);
  }

  /** A decimal integer numeral without a prefix is read as an Integer, and
      fails with a syntax error exactly when it does not fit `i128`. */
  lemma FromStrPlainDecimal(s: string, position: InputPosition, decimalOf: (string, nat) -> Option<real>)
    requires AllIn(s, Digits) && |s| >= 1
    ensures FromStr(s, position, decimalOf) == PlainDecimalOutcome(s, position)
  {
    PlainDigits(s);
    FromStrOfInteger(s, 10, position, decimalOf);
    FromIntStrPlain(s, position);
  }

  /** The Integer a plain run of decimal digits spells, or the error for one
      that does not fit `i128`. */
  function PlainDecimalOutcome(s: string, position: InputPosition): Result<Value, Error>
  {
    var v := DigitsValue(s, 10);
    if v <= I128Max then Ok(FromInteger(v))
    else Err(NewP(SyntaxError, "Failed to parse string " + Quote(s) + " (normalised to " + Quote(s) + " into integer value", position))
  }

  lemma FromIntStrPlain(s: string, position: InputPosition)
    requires StripStr(s) == s && AllDigitsBelow(s, 10) && |s| >= 1 && s[0] != '+' && s[0] != '-'
    ensures FromIntStr(s, 10, position) == PlainDecimalOutcome(s, position)
  {
    var v := DigitsValue(s, 10);
    assert FromStrRadix(s, 10) == if v <= I128Max then Some(v) else None;
  }

  /** FromStr on a numeral without a separator in a base other than 2 is FromIntStr. */
  lemma FromStrOfInteger(s: string, base: nat, position: InputPosition, decimalOf: (string, nat) -> Option<real>)
    requires CheckStrAndGetBase(s) == Some(base) && base != 2 && !HasFractionalSeparator(s)
    ensures FromStr(s, position, decimalOf) == FromIntStr(s, base, position)
  {
  }

  // ---------------------------------------------------------------------
  // Conversions between the types

  /** The paths try_mutate_into handles without a floating-point cast: a
      conversion to the value's own type, and Bitseq to and from Integer. */
  predicate ExactPath(from: ValueType, into: ValueType)
  {
    from == into || (from != Decimal && into != Decimal)
  }

  /** The value try_mutate_into leaves on success, or the error it returns. */
  function MutatedInto(v: Value, into: ValueType): (r: Result<Value, Error>)
    requires ExactPath(v.type_, into)
    ensures r.Ok? ==> r.value.type_ == into
    ensures r.Err? ==> r.error.kind == ConversionError
  {
    if into == v.type_ then Ok(v)
    else if v.type_ == Bitseq then
      match Bitseqs.TryIntoInteger(v.bitseq)
      case Ok(i) => Ok(v.(integer := i, bitseq := Bitseqs.Zero, type_ := into))
      case Err(e) => Err(e)
    else
      match Bitseqs.TryFromInteger(v.integer)
      case Ok(b) => Ok(v.(bitseq := b, integer := 0, type_ := into))
      case Err(e) => Err(e)
  }

  /** Value::try_mutate_into, on the Bitseq and Integer paths: updates the
      value step by step, and leaves it as it was when the conversion fails. */
  method TryMutateInto(v: Value, into: ValueType) returns (res: Result<(), Error>, after: Value)
    requires ExactPath(v.type_, into)
    ensures res.Ok? <==> MutatedInto(v, into).Ok?
    ensures res.Ok? ==> after == MutatedInto(v, into).value
    ensures res.Err? ==> after == v && res.error == MutatedInto(v, into).error
  {
    after := v;
    if into == after.type_ {
      return Ok(()), after;
    }
    if after.type_ == Bitseq {
      var converted := Bitseqs.TryIntoInteger(after.bitseq);
      if converted.Err? {
        return Err(converted.error), after;
      }
      after := after.(integer := converted.value);
      after := after.(bitseq := Bitseqs.Zero);
      after := after.(type_ := into);
      return Ok(()), after;
    }
    var converted := Bitseqs.TryFromInteger(after.integer);
    if converted.Err? {
      return Err(converted.error), after;
    }
    after := after.(bitseq := converted.value);
    after := after.(integer := 0);
    after := after.(type_ := into);
    return Ok(()), after;
  }

  /** A conversion to the own type changes nothing; a successful conversion
      keeps the number, sets the tag and zeroes the field it came from. */
  lemma MutatedIntoMeaning(v: Value, into: ValueType)
    requires ExactPath(v.type_, into)
    ensures into == v.type_ ==> MutatedInto(v, into) == Ok(v)
    ensures v.type_ == Bitseq && into == Integer ==>
      (MutatedInto(v, into).Ok? <==> v.bitseq.value <= I128Max) &&
      (MutatedInto(v, into).Ok? ==> MutatedInto(v, into).value == Value(Integer, Bitseqs.Zero, v.decimal, v.bitseq.value))
    ensures v.type_ == Integer && into == Bitseq ==>
      (MutatedInto(v, into).Ok? <==> v.integer >= 0) &&
      (MutatedInto(v, into).Ok? ==> MutatedInto(v, into).value == Value(Bitseq, Bitseqs.FromU128(v.integer), v.decimal, 0))
  {
  }

  /** Integer -> Bitseq -> Integer gives back every non-negative Integer value. */
  lemma MutateRoundTrip(i: I128)
    requires i >= 0
    ensures MutatedInto(FromInteger(i), Bitseq).Ok?
    ensures MutatedInto(MutatedInto(FromInteger(i), Bitseq).value, Integer) == Ok(FromInteger(i))
  {
    Bitseqs.IntegerRoundTrip(i);
  }

  // ---------------------------------------------------------------------
  // Unary operations

  /** Value::unary_pos */
  function UnaryPos(v: Value): (r: Value)
    ensures r == v
  {
    v
  }

  /** The Integer a Bitseq operand is promoted to, or the panic of the
      `unwrap` when it is too wide. */
  function Promoted(v: Value): (r: Outcome<Value, Error>)
    ensures r.Panicked? <==> v.type_ == Bitseq && v.bitseq.value > I128Max
    ensures r.Returned? ==> r.result.Ok? && r.result.value.type_ != Bitseq
    ensures r.Returned? && v.type_ != Bitseq ==> r.result.value == v
    ensures r.Returned? && v.type_ == Bitseq ==> r.result.value == Value(Integer, Bitseqs.Zero, v.decimal, v.bitseq.value)
  {
    if v.type_ != Bitseq then Returned(Ok(v))
    else match MutatedInto(v, Integer)
      case Ok(w) => Returned(Ok(w))
      case Err(_) => Panicked("called `Result::unwrap()` on an `Err` value")
  }

  /** Value::unary_neg: a Bitseq is first made an Integer, panicking (an
      `unwrap`) when it is too wide; negating the least `i128` overflows. */
  function UnaryNeg(v: Value): (r: Outcome<Value, Error>)
    ensures r.Panicked? <==>
      (v.type_ == Bitseq && v.bitseq.value > I128Max) || (v.type_ == Integer && v.integer == I128Min)
    ensures r.Returned? ==> r.result.Ok?
    ensures r.Returned? && v.type_ == Decimal ==> r.result.value == v.(decimal := -v.decimal)
    ensures r.Returned? && v.type_ == Integer ==> r.result.value == v.(integer := -v.integer)
    ensures r.Returned? && v.type_ == Bitseq ==>
      r.result.value == Value(Integer, Bitseqs.Zero, v.decimal, -(v.bitseq.value as int))
  {
    match Promoted(v)
    case Panicked(reason) => Panicked(reason)
    case Returned(promoted) =>
      var result := promoted.value;
      match result.type_
      case Bitseq => Returned(Ok(result))
      case Decimal => Returned(Ok(result.(decimal := -result.decimal)))
      case Integer =>
        if result.integer == I128Min then Panicked("attempt to negate with overflow")
        else Returned(Ok(result.(integer := -result.integer)))
  }

  /** `(1..n).try_fold(seed, checked_mul)`: the seed multiplied by k, ..., n - 1
      in turn, None as soon as a product leaves the `i128` range. */
  function TryFoldMul(acc: I128, k: nat, n: nat): Option<I128>
    decreases n - k
  {
    if k >= n then Some(acc)
    else if acc * k < I128Min || acc * k > I128Max then None
    else TryFoldMul(acc * k, k + 1, n)
  }

  /** k * (k + 1) * ... * (n - 1), the product the fold multiplies in. */
  function Prod(k: nat, n: nat): (p: nat)
    ensures p >= 1
    decreases n - k
  {
    if k >= n || k == 0 then 1 else k * Prod(k + 1, n)
  }

  /** From a non-negative seed the fold yields the full product, and fails
      exactly when the full product leaves the range: every partial product
      is at most the full one. */
  lemma {:induction false} TryFoldMulIsProduct(acc: I128, k: nat, n: nat)
    requires acc >= 0 && k >= 1
    ensures var full: int := acc * Prod(k, n);
      TryFoldMul(acc, k, n) == if full <= I128Max then Some(full) else None
    decreases n - k
  {
    var full: int := acc * Prod(k, n);
    MulAtLeast(acc, Prod(k, n));
    if k < n {
      var rest := Prod(k + 1, n);
      var ak: int := acc * k;
      MulAtLeast(acc, k);
      assert full == ak * rest by { MulAssoc(acc, k, rest); }
      if ak > I128Max {
        MulAtLeast(ak, rest);
        assert TryFoldMul(acc, k, n) == None;
      } else {
        TryFoldMulIsProduct(ak, k + 1, n);
        assert TryFoldMul(acc, k, n) == TryFoldMul(ak, k + 1, n);
      }
    }
  }

  lemma MulAssoc(a: int, b: int, c: int)
    ensures a * (b * c) == (a * b) * c
  {
  }

  lemma MulAtLeast(a: nat, b: nat)
    requires b >= 1
    ensures a * b >= a
  {
  }

  /** The product of 1, ..., n is n!. */
  lemma {:induction false} ProdIsFact(k: nat, n: nat)
    requires 1 <= k <= n + 1
    ensures Prod(k, n + 1) * Integers.Fact(k - 1) == Integers.Fact(n)
    decreases n + 1 - k
  {
    if k <= n {
      ProdIsFact(k + 1, n);
      var rest := Prod(k + 1, n + 1);
      var f := Integers.Fact(k - 1);
      assert Integers.Fact(k) == k * f;
      assert Prod(k, n + 1) == k * rest;
      MulAssoc(rest, k, f);
      assert (k * rest) * f == rest * (k * f);
    }
  }

  const FactorialTooLargeMsg: string := "Factorial too large to fit Integer"
  const FactorialNegativeMsg: string := "Factorial operation undefined for negative integers"

  /** Value::factorial as written: the fold is seeded with n itself and runs
      over 1..n, so for n >= 1 it yields n * (n - 1)! = n!, but for n = 0 it
      yields 0. A Decimal operand reaches `todo!()`. */
  function FactorialAsWritten(v: Value): (r: Outcome<Value, Error>)
    ensures v.type_ == Decimal ==> r.Panicked?
    ensures v.type_ == Integer && v.integer < 0 ==>
      r == Returned(Err(Errors.New(InvalidOperationError, FactorialNegativeMsg)))
  {
    match Promoted(v)
    case Panicked(reason) => Panicked(reason)
    case Returned(promoted) =>
      var result := promoted.value;
      if result.type_ == Integer then
        if result.integer >= 0 then
          match TryFoldMul(result.integer, 1, result.integer)
          case None => Returned(Err(Errors.New(InvalidOperationError, FactorialTooLargeMsg)))
          case Some(p) => Returned(Ok(result.(integer := p)))
        else Returned(Err(Errors.New(InvalidOperationError, FactorialNegativeMsg)))
      else Panicked("not yet implemented")
  }

  /** The defect of the code as written: the factorial of 0 comes out as 0. */
  lemma FactorialAsWrittenOfZero()
    ensures FactorialAsWritten(FromInteger(0)) == Returned(Ok(FromInteger(0)))
  {
  }

  /** Value::factorial as evidently intended: the fold is seeded with 1 and
      runs over 1..=n, so that 0! = 1; otherwise as written. */
  function Factorial(v: Value): (r: Outcome<Value, Error>)
    ensures v.type_ == Decimal ==> r.Panicked?
    ensures v.type_ == Integer && v.integer < 0 ==>
      r == Returned(Err(Errors.New(InvalidOperationError, FactorialNegativeMsg)))
  {
    match Promoted(v)
    case Panicked(reason) => Panicked(reason)
    case Returned(promoted) =>
      var result := promoted.value;
      if result.type_ == Integer then
        if result.integer >= 0 then
          match TryFoldMul(1, 1, result.integer as int + 1)
          case None => Returned(Err(Errors.New(InvalidOperationError, FactorialTooLargeMsg)))
          case Some(p) => Returned(Ok(result.(integer := p)))
        else Returned(Err(Errors.New(InvalidOperationError, FactorialNegativeMsg)))
      else Panicked("not yet implemented")
  }

  /** 33! fits `i128` and 34! does not. */
  lemma FactorialI128Ceiling()
    ensures Integers.Fact(33) <= I128Max < Integers.Fact(34)
  {
    assert Integers.Fact(1) == 1;
    assert Integers.Fact(2) == 2;
    assert Integers.Fact(3) == 6;
    assert Integers.Fact(4) == 24;
    assert Integers.Fact(5) == 120;
    assert Integers.Fact(6) == 720;
    assert Integers.Fact(7) == 5040;
    assert Integers.Fact(8) == 40320;
    assert Integers.Fact(9) == 362880;
    assert Integers.Fact(10) == 3628800;
    assert Integers.Fact(11) == 39916800;
    assert Integers.Fact(12) == 479001600;
    assert Integers.Fact(13) == 6227020800;
    assert Integers.Fact(14) == 87178291200;
    assert Integers.Fact(15) == 1307674368000;
    assert Integers.Fact(16) == 20922789888000;
    assert Integers.Fact(17) == 355687428096000;
    assert Integers.Fact(18) == 6402373705728000;
    assert Integers.Fact(19) == 121645100408832000;
    assert Integers.Fact(20) == 2432902008176640000;
    assert Integers.Fact(21) == 51090942171709440000;
    assert Integers.Fact(22) == 1124000727777607680000;
    assert Integers.Fact(23) == 25852016738884976640000;
    assert Integers.Fact(24) == 620448401733239439360000;
    assert Integers.Fact(25) == 15511210043330985984000000;
    assert Integers.Fact(26) == 403291461126605635584000000;
    assert Integers.Fact(27) == 10888869450418352160768000000;
    assert Integers.Fact(28) == 304888344611713860501504000000;
    assert Integers.Fact(29) == 8841761993739701954543616000000;
    assert Integers.Fact(30) == 265252859812191058636308480000000;
    assert Integers.Fact(31) == 8222838654177922817725562880000000;
    assert Integers.Fact(32) == 263130836933693530167218012160000000;
    assert Integers.Fact(33) == 8683317618811886495518194401280000000;
    assert Integers.Fact(34) == 295232799039604140847618609643520000000;
  }

  /** The corrected factorial of n >= 0 is the Integer n! when n <= 33, so
      0! = 1, and the "too large" error when n >= 34. */
  lemma FactorialMeaning(v: Value)
    requires v.type_ == Integer && v.integer >= 0
    ensures v.integer <= 33 ==>
      Factorial(v).IsOk() &&
      Factorial(v).result.value.integer == Integers.Fact(v.integer) &&
      Factorial(v).result.value.type_ == Integer
    ensures v.integer >= 34 ==> Factorial(v) == Returned(Err(Errors.New(InvalidOperationError, FactorialTooLargeMsg)))
  {
    FactorialFold(v.integer);
  }

  /** The corrected fold yields n! exactly when n <= 33. */
  lemma FactorialFold(n: nat)
    ensures TryFoldMul(1, 1, n + 1) == if n <= 33 then Some(Integers.Fact(n)) else None
  {
    FoldIsFact(n);
    FactorialI128Ceiling();
    if n <= 33 {
      Integers.FactMonotone(n, 33);
    } else {
      Integers.FactMonotone(34, n);
    }
  }

  /** The fold seeded with 1 over 1..n is n!, unless that leaves the `i128` range. */
  lemma FoldIsFact(n: nat)
    ensures TryFoldMul(1, 1, n + 1) ==
      if Integers.Fact(n) <= I128Max then Some(Integers.Fact(n)) else None
  {
    TryFoldMulIsProduct(1, 1, n + 1);
    ProdIsFact(1, n);
    assert Integers.Fact(0) == 1;
  }

  /** As written and as intended agree on every operand but zero. */
  lemma FactorialAgreesAwayFromZero(v: Value)
    requires !IsZero(v)
    ensures FactorialAsWritten(v) == Factorial(v)
  {
    var p := Promoted(v);
    if p.Returned? && p.result.value.type_ == Integer && p.result.value.integer > 0 {
      var n := p.result.value.integer;
      TryFoldMulIsProduct(n, 1, n);
      TryFoldMulIsProduct(1, 1, n + 1);
      ProdIsFact(1, n);
      ProdIsFact(1, n - 1);
      assert Prod(1, n + 1) == n * Prod(1, n) by {
        assert Integers.Fact(n) == n * Integers.Fact(n - 1);
      }
    }
  }

  /** Value::logical_neg: the Integer 1 for a zero operand of any type, else 0. */
  function LogicalNeg(v: Value): (r: Value)
    ensures r.type_ == Integer
    ensures r.integer == 1 <==> IsZero(v)
    ensures r.integer == 0 <==> !IsZero(v)
  {
    var isZero := match v.type_
      case Bitseq => Bitseqs.IsZero(v.bitseq)
      case Decimal => v.decimal == 0.0
      case Integer => v.integer == 0;
    FromInteger(if isZero then 1 else 0)
  }

  /** The operand is zero in its own type. */
  predicate IsZero(v: Value)
  {
    (v.type_ == Bitseq && v.bitseq.value == 0) || (v.type_ == Decimal && v.decimal == 0.0) ||
    (v.type_ == Integer && v.integer == 0)
  }

  /** Applying logical negation twice tells zero from non-zero: the result is
      1 exactly for non-zero operands. */
  lemma LogicalNegTwice(v: Value)
    ensures LogicalNeg(LogicalNeg(v)) == FromInteger(if IsZero(v) then 0 else 1)
  {
  }

  /** Value::bitwise_neg: only a Bitseq, which has its low `len` bits flipped;
      anything else is rejected without being converted. */
  function BitwiseNeg(v: Value): (r: Result<Value, Error>)
    ensures r.Err? <==> v.type_ != Bitseq
    ensures r.Err? ==> r.error.kind == ConversionError
    ensures r.Ok? ==> r.value == v.(bitseq := Bitseqs.Negated(v.bitseq))
  {
    if v.type_ != Bitseq then
      Err(Errors.New(ConversionError, "Cannot apply bitwise negation to a value other than a bit-sequence (Bitseq)"))
    else Ok(v.(bitseq := Bitseqs.Negated(v.bitseq)))
  }

  /** Bitwise negation twice gives back the operand. */
  lemma BitwiseNegTwice(v: Value)
    requires v.type_ == Bitseq
    ensures BitwiseNeg(BitwiseNeg(v).value) == Ok(v)
  {
    Bitseqs.NegatedTwice(v.bitseq);
  }

  // ---------------------------------------------------------------------
  // The store of named values

  /** ValueStore: the values by name, and the names that `clear` keeps. */
  class ValueStore {
    var entries: map<string, Value>
    var protectedKeys: seq<string>

    /** ValueStore::default */
    constructor Default()
      ensures entries == map[] && protectedKeys == []
    {
      entries := map[];
      protectedKeys := [];
    }

    /** ValueStore::new: the default store with two entries set. The entry
        `\blah` is the value of the numeral `0b000101011` (see
        BlahEntryIsItsNumeral); the entry `test` is the real 12345.06789
        itself, not the result of the floating-point parse of its numeral. */
    constructor ()
      ensures entries == map["test" := FromDecimal(12345.06789), "\\blah" := FromBitseq(Bitseqs.Bitseq(43, 9))]
      ensures protectedKeys == []
    {
      entries := map[];
      protectedKeys := [];
      new;
      Set("test", FromDecimal(12345.06789));
      Set("\\blah", FromBitseq(Bitseqs.Bitseq(43, 9)));
    }

    /** ValueStore::with_protected_keys: an empty map, and the keys copied
        one by one into the protected list. */
    constructor WithProtectedKeys(keys: seq<string>)
      ensures entries == map[] && protectedKeys == keys
    {
      var copied: seq<string> := [];
      for k := 0 to |keys|
        invariant copied == keys[..k]
      {
        copied := copied + [keys[k]];
      }
      entries := map[];
      protectedKeys := copied;
    }

    /** `From<HashMap<String, Value>> for ValueStore` */
    constructor FromMap(m: map<string, Value>)
      ensures entries == m && protectedKeys == []
    {
      entries := m;
      protectedKeys := [];
    }

    /** ValueStore::set: the key is taken verbatim, a later write overwrites. */
    method Set(identifier: string, value: Value)
      modifies this
      ensures entries == old(entries)[identifier := value]
      ensures protectedKeys == old(protectedKeys)
    {
      entries := entries[identifier := value];
    }

    /** ValueStore::get */
    function Get(identifier: string): (r: Option<Value>)
      reads this
      ensures r.Some? <==> identifier in entries
      ensures r.Some? ==> r.value == entries[identifier]
    {
      if identifier in entries then Some(entries[identifier]) else None
    }

    /** ValueStore::contains_identifier */
    function ContainsIdentifier(identifier: string): (b: bool)
      reads this
      ensures b <==> identifier in entries
      ensures b <==> Get(identifier).Some?
    {
      identifier in entries
    }

    /** ValueStore::clear: keeps exactly the entries under protected keys. */
    method Clear()
      modifies this
      ensures entries == Retained(old(entries), protectedKeys)
      ensures protectedKeys == old(protectedKeys)
    {
      entries := Retained(entries, protectedKeys);
    }

    /** ValueStore::clear_all: empties both the map and the protected list. */
    method ClearAll()
      modifies this
      ensures entries == map[] && protectedKeys == []
    {
      entries := map[];
      protectedKeys := [];
    }
  }

  /** `retain(|k, _| keys.contains(k))` */
  function Retained(m: map<string, Value>, keys: seq<string>): (r: map<string, Value>)
    ensures forall k :: k in r <==> k in m && k in keys
    ensures forall k :: k in r ==> r[k] == m[k]
  {
    map k | k in m && k in keys :: m[k]
  }

  /** After ValueStore.Set has written `value` under `key` into the map `m`,
      Get returns that value for the key and, for every other key, what `m`
      held. */
  lemma SetThenGet(store: ValueStore, m: map<string, Value>, key: string, other: string, value: Value)
    requires store.entries == m[key := value]
    ensures store.Get(key) == Some(value)
    ensures other != key ==> store.Get(other) == (if other in m then Some(m[other]) else None)
  {
  }

  /** Clearing twice is clearing once. */
  lemma RetainedIsIdempotent(m: map<string, Value>, keys: seq<string>)
    ensures Retained(Retained(m, keys), keys) == Retained(m, keys)
  {
  }

  /** The `\blah` entry of ValueStore::new is the value of its numeral. */
  lemma BlahEntryIsItsNumeral(decimalOf: (string, nat) -> Option<real>)
    ensures FromStr("0b000101011", DefaultPosition, decimalOf) == Ok(FromBitseq(Bitseqs.Bitseq(43, 9)))
  {
    BlahNumeral();
    BlahDigits();
    FromStrBinaryInteger("0b000101011", DefaultPosition, decimalOf);
  }

  /** `0b000101011` is a binary integer numeral with the digits `000101011`. */
  lemma BlahNumeral()
    ensures BinaryInteger("0b000101011") && StripStr("0b000101011") == "000101011"
  {
    BlahDigitsAreBinary("000101011");
    BlahPrefixed("0b000101011", "000101011");
  }

  lemma BlahDigitsAreBinary(digits: string)
    requires digits == "000101011"
    ensures AllIn(digits, "01") && EndsIn(digits, "01_", "01")
  {
    assert AllIn(digits, "01_") by {
      forall k | 0 <= k < |digits| ensures digits[k] in "01_" { }
    }
    AllInButLast(digits, "01_", "01");
  }

  lemma BlahPrefixed(s: string, digits: string)
    requires s == "0b" + digits && AllIn(digits, "01") && EndsIn(digits, "01_", "01")
    ensures BinaryInteger(s) && StripStr(s) == digits
  {
    assert s[2..] == digits;
    StripStrOfPrefixed(s);
    NormaliseKeeps(digits, "01");
  }



  /** The binary digits `000101011` spell 43. */
  lemma BlahDigits()
    ensures Bitseqs.BinaryValue("000101011") == 43
  {
    assert Pow2(9) == 512;
    assert Bitseqs.Digits(0, 3) == "000";
    assert Bitseqs.Digits(1, 4) == "0001";
    assert Bitseqs.Digits(2, 5) == "00010";
    assert Bitseqs.Digits(5, 6) == "000101";
    assert Bitseqs.Digits(10, 7) == "0001010";
    assert Bitseqs.Digits(21, 8) == "00010101";
    assert Bitseqs.Digits(43, 9) == "000101011";
    Bitseqs.BinaryValueOfDigits(43, 9);
  }


}
