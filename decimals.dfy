/** The display of Decimals (decimals.rs): the decimal string of the number
    with trailing zeros of the fractional part removed, keeping at least one
    fractional digit. The number itself and its conversion to a string belong
    to the big-decimal library; here the display works on that string. */
module Decimals {

  /** The index of the first `c` in `s`, or |s| when there is none. */
  function IndexOf(s: string, c: char): (k: nat)
    ensures k <= |s|
    ensures k < |s| ==> s[k] == c
    ensures forall j :: 0 <= j < k ==> s[j] != c
  {
    if s == [] then 0
    else if s[0] == c then 0
    else 1 + IndexOf(s[1..], c)
  }

  /** `trim_end_matches("0")`: `s` without its trailing zeros. */
  function TrimEndZeros(s: string): (t: string)
    ensures |t| <= |s| && t == s[..|t|]
    ensures t == [] || t[|t| - 1] != '0'
    ensures forall j :: |t| <= j < |s| ==> s[j] == '0'
  {
    if s == [] || s[|s| - 1] != '0' then s else TrimEndZeros(s[..|s| - 1])
  }

  /** `Display for Decimal`, applied to the decimal string of the number. */
  function Display(s: string): string
  {
    var k := IndexOf(s, '.');
    if k == |s| then s + ".0"
    else
      var fractional := TrimEndZeros(s[k + 1..]);
      if |fractional| == 0 then s[..k] + ".0" else s[..k] + "." + fractional
  }

  /** A string without `.` is shown followed by `.0`. */
  lemma DisplayWithoutPoint(s: string)
    requires '.' !in s
    ensures Display(s) == s + ".0"
  {
  }

  /** With a `.`: the part before the first `.` is kept verbatim, then comes
      the `.`, then the fractional part without its trailing zeros, or `0`
      when nothing of it is left. */
  lemma DisplayWithPoint(s: string)
    requires '.' in s
    ensures var k := IndexOf(s, '.');
      var out := Display(s);
      var f := TrimEndZeros(s[k + 1..]);
      k < |s| && |out| > k + 1 && out[..k] == s[..k] && out[k] == '.' &&
      out[k + 1..] == (if f == [] then "0" else f)
  {
    var k := IndexOf(s, '.');
    var f := TrimEndZeros(s[k + 1..]);
    var out := Display(s);
    if f == [] {
      assert out == s[..k] + ".0";
    } else {
      assert out == s[..k] + "." + f;
    }
  }

  /** The fractional part of the output, the digits after its first `.`. */
  function Fraction(out: string): string
  {
    var k := IndexOf(out, '.');
    if k < |out| then out[k + 1..] else []
  }

  /** The output always has a `.` and at least one fractional digit, and its
      fractional part is `0` or ends in a digit other than zero. */
  lemma DisplayShape(s: string)
    ensures '.' in Display(s)
    ensures var f := Fraction(Display(s)); f == "0" || (|f| >= 1 && f[|f| - 1] != '0')
  {
    var k := IndexOf(s, '.');
    var out := Display(s);
    if k == |s| {
      assert out == s + ".0";
      IndexOfPrefix(s, ".0", '.');
      assert out[|s|] == '.';
    } else {
      var f := TrimEndZeros(s[k + 1..]);
      var tail: string := if f == [] then "0" else f;
      assert out == s[..k] + "." + tail;
      IndexOfPrefix(s[..k], "." + tail, '.');
      assert (s[..k] + "." + tail)[k + 1..] == tail;
    }
  }

  /** The first `c` in `p + q`, when `p` has none and `q` starts with one, is at |p|. */
  lemma {:induction false} IndexOfPrefix(p: string, q: string, c: char)
    requires c !in p && |q| >= 1 && q[0] == c
    ensures IndexOf(p + q, c) == |p|
  {
    if p != [] {
      assert (p + q)[1..] == p[1..] + q;
      IndexOfPrefix(p[1..], q, c);
    }
  }

  /** The display of a string whose first `.` is at `k`. */
  lemma DisplayAt(s: string, k: nat)
    requires k == IndexOf(s, '.') && k < |s|
    ensures var f := TrimEndZeros(s[k + 1..]); Display(s) == s[..k] + "." + (if f == [] then "0" else f)
  {
  }

  /** A fractional part that is `0` or ends in another digit is kept. */
  lemma TrimShaped(tail: string)
    requires tail == "0" || (|tail| >= 1 && tail[|tail| - 1] != '0')
    ensures var f := TrimEndZeros(tail); (if f == [] then "0" else f) == tail
  {
    if tail == "0" {
      assert TrimEndZeros(tail) == TrimEndZeros([]);
    }
  }

  /** A string that already has the shape of an output is its own display. */
  lemma DisplayOfShaped(head: string, tail: string)
    requires '.' !in head
    requires tail == "0" || (|tail| >= 1 && tail[|tail| - 1] != '0')
    ensures Display(head + "." + tail) == head + "." + tail
  {
    var x := head + "." + tail;
    assert x == head + ("." + tail);
    IndexOfPrefix(head, "." + tail, '.');
    assert x[..|head|] == head;
    assert x[|head| + 1..] == tail;
    DisplayAt(x, |head|);
    TrimShaped(tail);
  }

  /** Formatting is idempotent: the display of a displayed string is itself. */
  lemma DisplayIsIdempotent(s: string)
    ensures Display(Display(s)) == Display(s)
  {
    var k := IndexOf(s, '.');
    var head := if k == |s| then s else s[..k];
    var f := if k == |s| then [] else TrimEndZeros(s[k + 1..]);
    var tail: string := if f == [] then "0" else f;
    assert '.' !in head;
    assert Display(s) == head + "." + tail;
    DisplayOfShaped(head, tail);
  }
}
