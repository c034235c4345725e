/** Strings over '0' and '1': their most-significant-bit-first base-2 value
    (PHP's `intval($s, 2)`), the fixed-width inverse of that value, and the
    right padding of `str_pad`. */
module BitString {

  /** True iff every character of `s` is '0' or '1'. */
  predicate IsBits(s: string) {
    forall i | 0 <= i < |s| :: s[i] == '0' || s[i] == '1'
  }

  function Pow2(n: nat): (r: nat)
    ensures r >= 1
  {
    if n == 0 then 1 else 2 * Pow2(n - 1)
  }

  /** `n` copies of `c`. */
  function Repeat(c: char, n: nat): (r: string)
    ensures |r| == n
    ensures forall i | 0 <= i < n :: r[i] == c
  {
    if n == 0 then [] else Repeat(c, n - 1) + [c]
  }

  /** `str_pad($s, $length, $c, STR_PAD_RIGHT)` with a one-character pad:
      never shortens, and only appends copies of `c`. */
  function PadRight(s: string, length: int, c: char): (r: string)
    ensures |r| == if length <= |s| then |s| else length
    ensures r[..|s|] == s
    ensures forall i | |s| <= i < |r| :: r[i] == c
  {
    if length <= |s| then s else s + Repeat(c, length - |s|)
  }

  /** The base-2 value of a bit string, first character most significant;
      the empty string is 0. */
  function BinVal(s: string): (n: nat)
    requires IsBits(s)
    ensures n < Pow2(|s|)
    decreases |s|
  {
    if |s| == 0 then 0
    else 2 * BinVal(s[..|s| - 1]) + (if s[|s| - 1] == '1' then 1 else 0)
  }

  /** The `w`-character bit string of `n` modulo 2^w, most significant first. */
  function ToBits(n: nat, w: nat): (r: string)
    ensures |r| == w
    ensures IsBits(r)
  {
    if w == 0 then []
    else ToBits(n / 2, w - 1) + [if n % 2 == 1 then '1' else '0']
  }

  /** Encoding a value that fits in `w` bits and parsing it back gives it back. */
  lemma {:induction false} BinValOfToBits(n: nat, w: nat)
    requires n < Pow2(w)
    ensures BinVal(ToBits(n, w)) == n
  {
    if w > 0 {
      var r := ToBits(n, w);
      assert r[..w - 1] == ToBits(n / 2, w - 1);
      BinValOfToBits(n / 2, w - 1);
    }
  }

  /** Parsing a bit string and encoding the value at the same width gives the
      string back. */
  lemma {:induction false} ToBitsOfBinVal(s: string)
    requires IsBits(s)
    ensures ToBits(BinVal(s), |s|) == s
  {
    if |s| > 0 {
      var p := s[..|s| - 1];
      ToBitsOfBinVal(p);
      assert BinVal(s) / 2 == BinVal(p);
      assert s == p + [s[|s| - 1]];
    }
  }

  /** Two bit strings of one width with the same value are the same string. */
  lemma BinValInjective(s: string, t: string)
    requires IsBits(s) && IsBits(t) && |s| == |t|
    requires BinVal(s) == BinVal(t)
    ensures s == t
  {
    ToBitsOfBinVal(s);
    ToBitsOfBinVal(t);
  }

  lemma {:induction false} BinValOfZeros(z: nat)
    ensures BinVal(Repeat('0', z)) == 0
  {
    if z > 0 {
      assert Repeat('0', z)[..z - 1] == Repeat('0', z - 1);
      BinValOfZeros(z - 1);
    }
  }

  /** Leading zeros do not change the base-2 value. */
  lemma {:induction false} BinValIgnoresLeadingZeros(z: nat, s: string)
    requires IsBits(s)
    ensures IsBits(Repeat('0', z) + s)
    ensures BinVal(Repeat('0', z) + s) == BinVal(s)
    decreases |s|
  {
    var t := Repeat('0', z) + s;
    if |s| == 0 {
      assert t == Repeat('0', z);
      BinValOfZeros(z);
    } else {
      var p := s[..|s| - 1];
      assert t[..|t| - 1] == Repeat('0', z) + p;
      BinValIgnoresLeadingZeros(z, p);
    }
  }
}
