/** Bit sequences (bitseqs.rs): a `u128` bit pattern together with the number
    of bits it is meant to have. */
module Bitseqs {
  import opened Numerics
  import opened Outcomes
  import opened Errors

  /** Every constructor leaves the length at 128 or below. */
  type BitLen = n: nat | n <= 128

  datatype Bitseq = Bitseq(value: U128, len: BitLen)

  /** Bitseq::ZERO */
  const Zero: Bitseq := Bitseq(0, 1)

  function Max(a: nat, b: nat): nat { if a < b then b else a }

  /** Bitseq::new: panics for a length of 128 or more. */
  function New(value: U128, len: nat): (r: Outcome<Bitseq, Error>)
    ensures r.Panicked? <==> len >= 128
    ensures r.Returned? ==> r.result == Ok(Bitseq(value, len))
  {
    if len >= 128 then Panicked("Length of Bitseq can be 128 bits at most")
    else Returned(Ok(Bitseq(value, len)))
  }

  /** Bitseq::is_zero */
  function IsZero(b: Bitseq): (z: bool)
    ensures z <==> b.value == 0
  {
    b.value == 0
  }

  /** Every character is a binary digit. */
  predicate BinaryDigits(s: string)
  {
    forall k :: 0 <= k < |s| ==> s[k] == '0' || s[k] == '1'
  }

  /** The number the binary digits `s` spell, most significant first;
      `u128::from_str_radix(s, 2)` on a string of binary digits. */
  function BinaryValue(s: string): (v: nat)
    ensures v < Pow2(|s|)
  {
    if s == [] then 0
    else 2 * BinaryValue(s[..|s| - 1]) + (if s[|s| - 1] == '1' then 1 else 0)
  }

  /** Bitseq::from_str: None for the empty string, for more than 128
      characters and for any character other than `0` and `1`; otherwise the
      value the digits spell, with one bit of length per digit. */
  function FromStr(s: string): (r: Option<Bitseq>)
    ensures r.Some? <==> 1 <= |s| <= 128 && BinaryDigits(s)
    ensures r.Some? ==> r.value.len == |s| && r.value.value == BinaryValue(s)
  {
    if |s| < 1 || |s| > 128 || !BinaryDigits(s) then None
    else
      PowersOfTwo();
      Pow2Monotone(|s|, 128);
      Some(Bitseq(BinaryValue(s), |s|))
  }

  /** The n lowest binary digits of v, most significant first. */
  function Digits(v: nat, n: nat): (s: string)
    ensures |s| == n && BinaryDigits(s)
  {
    if n == 0 then [] else Digits(v / 2, n - 1) + [if v % 2 == 1 then '1' else '0']
  }

  /** Digits spells v back when v has at most n bits. */
  lemma {:induction false} BinaryValueOfDigits(v: nat, n: nat)
    requires v < Pow2(n)
    ensures BinaryValue(Digits(v, n)) == v
  {
    if n > 0 {
      var s := Digits(v, n);
      assert s[..|s| - 1] == Digits(v / 2, n - 1);
      BinaryValueOfDigits(v / 2, n - 1);
    }
  }

  /** `Display for Bitseq` (`{:#0w$b}` with w = len + 2): `0b` and the binary
      digits of the value, padded with zeros to `len` digits. */
  function ToString(b: Bitseq): string
  {
    "0b" + Digits(b.value, Max(b.len, Max(1, BitLength(b.value))))
  }

  /** Reading back the digits of a displayed bit sequence gives the same bit
      sequence, whenever its value fits its length. */
  lemma FromStrOfToString(b: Bitseq)
    requires b.len >= 1 && b.value < Pow2(b.len)
    ensures FromStr(ToString(b)[2..]) == Some(b)
  {
    BitLengthAtMost(b.value, b.len);
    var d := ToString(b)[2..];
    assert d == Digits(b.value, b.len);
    BinaryValueOfDigits(b.value, b.len);
  }

  /** The bit pattern that neg_mut leaves: the low `len` bits flipped. */
  function Negated(b: Bitseq): (r: Bitseq)
    ensures r.len == b.len
  {
    PowersOfTwo();
    Pow2Monotone(b.len, 128);
    BitOpsBelow(b.value, LowMask(b.len), 128);
    b.(value := Xor(b.value, LowMask(b.len)))
  }

  /** Bitseq::neg_mut: builds the mask of the low `len` bits one bit at a
      time and XORs the value with it. */
  method NegMut(b: Bitseq) returns (r: Bitseq)
    ensures r == Negated(b)
    ensures r.len == b.len
    ensures forall k: nat :: Bit(r.value, k) <==> (if k < b.len then !Bit(b.value, k) else Bit(b.value, k))
  {
    var mask: nat := 0;
    for i := 0 to b.len
      invariant mask == LowMask(i)
    {
      LowMaskStep(i);
      mask := Or(mask, Pow2(i));
    }
    PowersOfTwo();
    Pow2Monotone(b.len, 128);
    BitOpsBelow(b.value, mask, 128);
    r := b.(value := Xor(b.value, mask));
    forall k: nat
      ensures Bit(r.value, k) <==> (if k < b.len then !Bit(b.value, k) else Bit(b.value, k))
    {
      NegatedBits(b, k);
    }
  }

  /** Bits below `len` flip, the others stay. */
  lemma NegatedBits(b: Bitseq, k: nat)
    ensures Bit(Negated(b).value, k) <==> (if k < b.len then !Bit(b.value, k) else Bit(b.value, k))
  {
    XorBits(b.value, LowMask(b.len), k);
    LowMaskBits(b.len, k);
  }

  /** Negating twice gives back the bit sequence. */
  lemma NegatedTwice(b: Bitseq)
    ensures Negated(Negated(b)) == b
  {
    XorTwice(b.value, LowMask(b.len));
  }

  /** `From<u128> for Bitseq`: the length is the number of significant bits,
      0 for the value 0. */
  function FromU128(v: U128): (b: Bitseq)
    ensures b.value == v
    ensures v < Pow2(b.len) && (v > 0 ==> Pow2(b.len - 1) <= v)
    ensures v == 0 <==> b.len == 0
  {
    PowersOfTwo();
    BitLengthAtMost(v, 128);
    Bitseq(v, BitLength(v))
  }

  /** `TryFrom<Integer> for Bitseq`, Integer being `i128`. The conversion of
      a non-negative `i128` to `u128` always succeeds, so the error for a
      "non-natural" Integer cannot occur. */
  function TryFromInteger(i: I128): (r: Result<Bitseq, Error>)
    ensures r.Err? <==> i < 0
    ensures r.Err? ==> r.error.kind == ConversionError
    ensures r.Ok? ==> r.value.value == i
  {
    if i < 0 then Err(Errors.New(ConversionError, "Cannot convert negative Integer to Bitseq"))
    else Ok(FromU128(i))
  }

  /** `TryInto<Integer> for Bitseq` */
  function TryIntoInteger(b: Bitseq): (r: Result<I128, Error>)
    ensures r.Ok? <==> b.value <= I128Max
    ensures r.Ok? ==> r.value == b.value
    ensures r.Err? ==> r.error.kind == ConversionError
  {
    if b.value <= I128Max then Ok(b.value)
    else Err(Errors.New(ConversionError, "Bitseq too wide to convert to Integer"))
  }

  /** Integer -> Bitseq -> Integer is the identity on the non-negative `i128`s. */
  lemma IntegerRoundTrip(i: I128)
    requires i >= 0
    ensures TryFromInteger(i).Ok? && TryIntoInteger(TryFromInteger(i).value) == Ok(i)
  {
  }

  /** Bitseq -> Integer -> Bitseq keeps the value, and the length too when
      the bit sequence has no leading zero bits. */
  lemma BitseqRoundTrip(b: Bitseq)
    requires b.value <= I128Max
    ensures TryIntoInteger(b).Ok?
    ensures TryFromInteger(TryIntoInteger(b).value) == Ok(FromU128(b.value))
    ensures b.len == BitLength(b.value) ==> TryFromInteger(TryIntoInteger(b).value) == Ok(b)
  {
  }
}
