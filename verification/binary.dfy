/** Fixed-width, most-significant-bit-first binary numerals.

    For `w >= 1`, `ToBits(x, w)` is the level sequence that the format
    `f"{x:0{w}b}"` spells for a word that fits in `w` bits (at `w = 0` the
    format spells `"0"`), and `FromBits` is `int(digits, 2)`.
 */
module Binary {
  import opened Results

  function Pow2(n: nat): (r: nat)
    ensures r >= 1
  {
    if n == 0 then 1 else 2 * Pow2(n - 1)
  }

  /** The `w` low bits of `x`, most significant first. */
  function ToBits(x: nat, w: nat): (r: seq<bool>)
    ensures |r| == w
  {
    if w == 0 then [] else ToBits(x / 2, w - 1) + [x % 2 == 1]
  }

  /** The value of an MSB-first digit sequence (the last digit weighs 1). */
  function FromBits(bits: seq<bool>): (r: nat)
    ensures r < Pow2(|bits|)
  {
    if |bits| == 0 then 0
    else 2 * FromBits(bits[..|bits| - 1]) + (if bits[|bits| - 1] then 1 else 0)
  }

  lemma {:induction false} FromToBits(x: nat, w: nat)
    requires x < Pow2(w)
    ensures FromBits(ToBits(x, w)) == x
  {
    if w > 0 {
      var rest := ToBits(x / 2, w - 1);
      var bits := rest + [x % 2 == 1];
      assert ToBits(x, w) == bits;
      assert bits[..w - 1] == rest && bits[w - 1] == (x % 2 == 1);
      Halve(x, Pow2(w - 1));
      FromToBits(x / 2, w - 1);
      assert FromBits(bits) == 2 * (x / 2) + (if x % 2 == 1 then 1 else 0);
    }
  }

  lemma Halve(x: nat, p: nat)
    requires x < 2 * p
    ensures x == 2 * (x / 2) + x % 2 && x / 2 < p && x % 2 < 2
  {
  }

  lemma {:induction false} ToFromBits(bits: seq<bool>)
    ensures ToBits(FromBits(bits), |bits|) == bits
  {
    if |bits| > 0 {
      var n := |bits|;
      var x := FromBits(bits);
      assert x / 2 == FromBits(bits[..n - 1]);
      assert (x % 2 == 1) == bits[n - 1];
      ToFromBits(bits[..n - 1]);
      assert bits == bits[..n - 1] + [bits[n - 1]];
    }
  }

  /** A number in the upper half of the `w`-bit range has leading digit 1. */
  lemma {:induction false} TopBit(x: nat, w: nat)
    requires w >= 1 && Pow2(w - 1) <= x < Pow2(w)
    ensures ToBits(x, w)[0]
  {
    if w == 1 {
      assert ToBits(x, 1) == ToBits(x / 2, 0) + [x % 2 == 1];
    } else {
      assert Pow2(w - 1) == 2 * Pow2(w - 2);
      TopBit(x / 2, w - 1);
      assert ToBits(x, w)[0] == ToBits(x / 2, w - 1)[0];
    }
  }

  /** `int(digits, 2)` on a string of `'0'`/`'1'` characters: it fails on the
      empty string and otherwise yields the one number whose `|digits|`-bit
      numeral is `digits`. */
  function ParseBinary(digits: seq<bool>): (r: Result<nat>)
    ensures r.Success? <==> |digits| > 0
    ensures r.Failure? ==> r.error == EmptyBinaryString
    ensures r.Success? ==> r.value < Pow2(|digits|) && ToBits(r.value, |digits|) == digits
  {
    if |digits| == 0 then Failure(EmptyBinaryString)
    else
      ToFromBits(digits);
      Success(FromBits(digits))
  }
}
