/**
 * Binary digit strings as the encoder writes them: characters '0' and '1',
 * most significant digit first. `ToBinary` stands in for Python's
 * `format(n, 'b')`, `PadLeft` for the `'0' * (w - len(s)) + s` idiom, and
 * `ParseBinary` is the independent reading used to state round trips.
 */
module Binary {

  predicate IsBit(c: char) { c == '0' || c == '1' }

  predicate IsBitString(s: string) { forall i :: 0 <= i < |s| ==> IsBit(s[i]) }

  function Digit(b: nat): (c: char)
    requires b < 2
    ensures IsBit(c)
  {
    if b == 0 then '0' else '1'
  }

  function DigitValue(c: char): (v: nat)
    requires IsBit(c)
    ensures v < 2 && Digit(v) == c
  {
    if c == '0' then 0 else 1
  }

  function Pow2(k: nat): (p: nat)
    ensures p >= 1
  {
    if k == 0 then 1 else 2 * Pow2(k - 1)
  }

  /** Number of digits `format(n, 'b')` produces; zero is written "0", so at least one. */
  function BitLength(n: nat): (k: nat)
    ensures k >= 1
  {
    if n < 2 then 1 else 1 + BitLength(n / 2)
  }

  /** A string of `k` zero digits (Python's `'0' * k` for k >= 0). */
  function Zeros(k: nat): (z: string)
    ensures |z| == k
    ensures forall i :: 0 <= i < k ==> z[i] == '0'
  {
    if k == 0 then [] else Zeros(k - 1) + ['0']
  }

  /** Python's `format(n, 'b')`: binary digits of `n` without prefix or leading zeros. */
  function ToBinary(n: nat): (s: string)
    ensures IsBitString(s)
    ensures |s| == BitLength(n)
    ensures n == 0 <==> s == "0"
    ensures n > 0 ==> s[0] == '1'
  {
    if n < 2 then [Digit(n)] else ToBinary(n / 2) + [Digit(n % 2)]
  }

  /** Reads a digit string as an unsigned binary number, most significant digit first. */
  function ParseBinary(s: string): (v: nat)
    requires IsBitString(s)
    ensures v < Pow2(|s|)
  {
    if s == [] then 0 else 2 * ParseBinary(s[..|s| - 1]) + DigitValue(s[|s| - 1])
  }

  /**
   * `'0' * (width - len(s)) + s`: left-pads with zeros up to `width`; Python's
   * string repetition by a negative count is empty, so a longer `s` is kept whole.
   */
  function PadLeft(s: string, width: int): (r: string)
    ensures |r| == if |s| < width then width else |s|
    ensures r[|r| - |s|..] == s
    ensures forall i :: 0 <= i < |r| - |s| ==> r[i] == '0'
  {
    Zeros(if |s| < width then width - |s| else 0) + s
  }

  /** `BitLength(n)` is the unique `k` with 2^(k-1) <= n < 2^k (for n >= 1). */
  lemma {:induction false} BitLengthBounds(n: nat)
    ensures n < Pow2(BitLength(n))
    ensures n >= 1 ==> Pow2(BitLength(n) - 1) <= n
  {
    if n >= 2 {
      BitLengthBounds(n / 2);
    }
  }

  lemma {:induction false} Pow2Monotone(i: nat, j: nat)
    requires i <= j
    ensures Pow2(i) <= Pow2(j)
  {
    if i < j {
      Pow2Monotone(i, j - 1);
    }
  }

  /** A value needs at most `k` binary digits exactly when it is below 2^k. */
  lemma BitLengthAtMost(n: nat, k: nat)
    requires k >= 1
    ensures BitLength(n) <= k <==> n < Pow2(k)
  {
    BitLengthBounds(n);
    if BitLength(n) <= k {
      Pow2Monotone(BitLength(n), k);
    } else {
      Pow2Monotone(k, BitLength(n) - 1);
    }
  }

  /** Parsing the digits `format(n, 'b')` writes gives back `n`. */
  lemma {:induction false} ParseToBinary(n: nat)
    ensures ParseBinary(ToBinary(n)) == n
  {
    if n >= 2 {
      var s := ToBinary(n);
      assert s[..|s| - 1] == ToBinary(n / 2);
      ParseToBinary(n / 2);
    }
  }

  /** The other direction: a digit string without leading zeros is what `ToBinary` writes for its value. */
  lemma {:induction false} ToBinaryParse(s: string)
    requires IsBitString(s) && |s| >= 1 && s[0] == '1'
    ensures ToBinary(ParseBinary(s)) == s
  {
    if |s| >= 2 {
      var init := s[..|s| - 1];
      assert IsBitString(init) && init[0] == '1';
      ToBinaryParse(init);
      ParseAtLeastLeading(init);
      assert ParseBinary(s) / 2 == ParseBinary(init);
      assert ParseBinary(s) % 2 == DigitValue(s[|s| - 1]);
    }
  }

  /** A digit string that starts with '1' denotes a positive number. */
  lemma {:induction false} ParseAtLeastLeading(s: string)
    requires IsBitString(s) && |s| >= 1 && s[0] == '1'
    ensures ParseBinary(s) >= 1
  {
    if |s| >= 2 {
      ParseAtLeastLeading(s[..|s| - 1]);
    }
  }

  /** Leading zeros do not change the value a digit string denotes. */
  lemma {:induction false} ParseIgnoresLeadingZeros(k: nat, s: string)
    requires IsBitString(s)
    ensures IsBitString(Zeros(k) + s)
    ensures ParseBinary(Zeros(k) + s) == ParseBinary(s)
  {
    var t := Zeros(k) + s;
    if s == [] {
      ParseZeros(k);
      assert t == Zeros(k);
    } else {
      assert t[..|t| - 1] == Zeros(k) + s[..|s| - 1];
      ParseIgnoresLeadingZeros(k, s[..|s| - 1]);
    }
  }

  lemma {:induction false} ParseZeros(k: nat)
    ensures IsBitString(Zeros(k))
    ensures ParseBinary(Zeros(k)) == 0
  {
    if k > 0 {
      assert Zeros(k)[..k - 1] == Zeros(k - 1);
      ParseZeros(k - 1);
    }
  }

  /** Zero-padding a digit string keeps it a digit string with the same value. */
  lemma PadLeftParse(s: string, width: int)
    requires IsBitString(s)
    ensures IsBitString(PadLeft(s, width))
    ensures ParseBinary(PadLeft(s, width)) == ParseBinary(s)
  {
    ParseIgnoresLeadingZeros(if |s| < width then width - |s| else 0, s);
  }
}
