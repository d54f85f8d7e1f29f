/** Base62 of big-endian bytes, as the secrets of API tokens are written. */
module Base62 {
  import opened Sequences

  newtype byte = x: int | 0 <= x < 256

  const NUMERALS: string := "0123456789"
  const UPPER: string := "ABCDEFGHIJKLMNOPQRSTUVWXYZ"
  const LOWER: string := "abcdefghijklmnopqrstuvwxyz"
  const ALPHABET: string := NUMERALS + UPPER + LOWER

  const BASE := 62

  /** What `big.Int.SetBytes` reads. */
  function BytesValue(b: seq<byte>): nat {
    if b == [] then 0 else BytesValue(b[..|b| - 1]) * 256 + b[|b| - 1] as nat
  }

  predicate IsDigit(c: char) {
    '0' <= c <= '9' || 'A' <= c <= 'Z' || 'a' <= c <= 'z'
  }

  function DigitValue(c: char): (d: nat)
    requires IsDigit(c)
    ensures d < BASE
  {
    if c <= '9' then c as nat - '0' as nat
    else if c <= 'Z' then c as nat - 'A' as nat + 10
    else c as nat - 'a' as nat + 36
  }

  predicate AllDigits(s: string) {
    forall i :: 0 <= i < |s| ==> IsDigit(s[i])
  }

  /** The number a string of digits denotes, most significant first. */
  function DigitsValue(s: string): nat
    requires AllDigits(s)
  {
    if s == [] then 0 else DigitsValue(s[..|s| - 1]) * BASE + DigitValue(s[|s| - 1])
  }

  function DigitChar(d: nat): char
    requires d < BASE
  {
    ALPHABET[d]
  }

  /** The digits of a number as the loop appends them, least significant first. */
  function Appended(n: nat): string {
    if n == 0 then "" else [DigitChar(n % BASE)] + Appended(n / BASE)
  }

  function Encoded(b: seq<byte>): string {
    if BytesValue(b) == 0 then "0" else Reversed(Appended(BytesValue(b)))
  }

  method ReverseInPlace(out: array<char>)
    modifies out
    ensures out[..] == Reversed(old(out[..]))
  {
    var i, j := 0, out.Length - 1;
    while i < j
      invariant 0 <= i <= out.Length && j == out.Length - 1 - i && i <= j + 2
      invariant forall k :: 0 <= k < i ==>
                  out[k] == old(out[out.Length - 1 - k]) && out[out.Length - 1 - k] == old(out[k])
      invariant forall k :: i <= k <= j ==> out[k] == old(out[k])
    {
      out[i], out[j] := out[j], out[i];
      i, j := i + 1, j - 1;
    }
    assert forall k :: 0 <= k < out.Length ==> out[..][k] == Reversed(old(out[..]))[k];
  }

  lemma {:induction false} AppendedNext(n: nat, quotient: nat, mod: nat, digits: string)
    requires n > 0 && quotient == n / BASE && mod == n % BASE
    ensures quotient < n && mod < BASE
    ensures digits + Appended(n) == digits + [DigitChar(mod)] + Appended(quotient)
  {
  }

  lemma NoneLeft()
    ensures Appended(0) == ""
  {
  }

  method Base62Encode(b: seq<byte>) returns (s: string)
    ensures s == Encoded(b)
  {
    hide Appended, DigitChar, BytesValue;
    var n: nat := BytesValue(b);
    NoneLeft();
    if n == 0 {
      return "0";
    }
    var digits := "";
    while n > 0
      invariant digits + Appended(n) == Appended(BytesValue(b))
    {
      var quotient, mod := n / BASE, n % BASE;
      AppendedNext(n, quotient, mod, digits);
      n := quotient;
      digits := digits + [DigitChar(mod)];
    }
    s := ReversedBytes(digits);
  }

  /** The digits as a byte slice, reversed where it lies. */
  method ReversedBytes(digits: string) returns (s: string)
    ensures s == Reversed(digits)
  {
    var out := new char[|digits|](i requires 0 <= i < |digits| => digits[i]);
    assert out[..] == digits;
    ReverseInPlace(out);
    s := out[..];
  }

  // ---------- the digits denote the value ----------

  lemma NumeralsInOrder(i: nat)
    requires i < 10
    ensures |NUMERALS| == 10 && NUMERALS[i] as nat == '0' as nat + i
  {
    assert NUMERALS[0] == '0' && NUMERALS[1] == '1' && NUMERALS[2] == '2' && NUMERALS[3] == '3' && NUMERALS[4] == '4';
    assert NUMERALS[5] == '5' && NUMERALS[6] == '6' && NUMERALS[7] == '7' && NUMERALS[8] == '8' && NUMERALS[9] == '9';
  }

  lemma UpperInOrder(i: nat)
    requires i < 26
    ensures |UPPER| == 26 && UPPER[i] as nat == 'A' as nat + i
  {
    if i < 7 {
      assert UPPER[0] == 'A' && UPPER[1] == 'B' && UPPER[2] == 'C' && UPPER[3] == 'D' && UPPER[4] == 'E' &&
             UPPER[5] == 'F' && UPPER[6] == 'G';
    } else if i < 14 {
      assert UPPER[7] == 'H' && UPPER[8] == 'I' && UPPER[9] == 'J' && UPPER[10] == 'K' && UPPER[11] == 'L' &&
             UPPER[12] == 'M' && UPPER[13] == 'N';
    } else if i < 21 {
      assert UPPER[14] == 'O' && UPPER[15] == 'P' && UPPER[16] == 'Q' && UPPER[17] == 'R' && UPPER[18] == 'S' &&
             UPPER[19] == 'T' && UPPER[20] == 'U';
    } else {
      assert UPPER[21] == 'V' && UPPER[22] == 'W' && UPPER[23] == 'X' && UPPER[24] == 'Y' && UPPER[25] == 'Z';
    }
  }

  lemma LowerInOrder(i: nat)
    requires i < 26
    ensures |LOWER| == 26 && LOWER[i] as nat == 'a' as nat + i
  {
    if i < 7 {
      assert LOWER[0] == 'a' && LOWER[1] == 'b' && LOWER[2] == 'c' && LOWER[3] == 'd' && LOWER[4] == 'e' &&
             LOWER[5] == 'f' && LOWER[6] == 'g';
    } else if i < 14 {
      assert LOWER[7] == 'h' && LOWER[8] == 'i' && LOWER[9] == 'j' && LOWER[10] == 'k' && LOWER[11] == 'l' &&
             LOWER[12] == 'm' && LOWER[13] == 'n';
    } else if i < 21 {
      assert LOWER[14] == 'o' && LOWER[15] == 'p' && LOWER[16] == 'q' && LOWER[17] == 'r' && LOWER[18] == 's' &&
             LOWER[19] == 't' && LOWER[20] == 'u';
    } else {
      assert LOWER[21] == 'v' && LOWER[22] == 'w' && LOWER[23] == 'x' && LOWER[24] == 'y' && LOWER[25] == 'z';
    }
  }

  lemma AlphabetIsDigits(d: nat)
    requires d < BASE
    ensures |ALPHABET| == BASE && IsDigit(DigitChar(d)) && DigitValue(DigitChar(d)) == d
  {
    NumeralsInOrder(if d < 10 then d else 0);
    UpperInOrder(if 10 <= d < 36 then d - 10 else 0);
    LowerInOrder(if 36 <= d then d - 36 else 0);
  }

  lemma {:induction false} AppendedIsDigits(n: nat)
    ensures AllDigits(Appended(n)) && AllDigits(Reversed(Appended(n)))
  {
    if n > 0 {
      AppendedIsDigits(n / BASE);
      AlphabetIsDigits(n % BASE);
    }
  }

  lemma ReversedPushed<T>(x: T, s: seq<T>)
    ensures Reversed([x] + s) == Reversed(s) + [x]
  {
  }

  lemma ReversedNext(n: nat)
    requires n > 0
    ensures Reversed(Appended(n)) == Reversed(Appended(n / BASE)) + [DigitChar(n % BASE)]
  {
    hide DigitChar;
    ReversedPushed(DigitChar(n % BASE), Appended(n / BASE));
  }

  lemma {:induction false} AppendedValue(n: nat)
    ensures AllDigits(Reversed(Appended(n))) && DigitsValue(Reversed(Appended(n))) == n
  {
    AppendedIsDigits(n);
    if n > 0 {
      AppendedValue(n / BASE);
      AlphabetIsDigits(n % BASE);
      ReversedNext(n);
      hide Appended, DigitChar;
      var s := Reversed(Appended(n));
      assert s[..|s| - 1] == Reversed(Appended(n / BASE));
    }
  }

  lemma {:induction false} NoLeadingZero(n: nat)
    requires n > 0
    ensures |Appended(n)| > 0 && Appended(n)[|Appended(n)| - 1] != '0'
  {
    AlphabetIsDigits(n % BASE);
    if n >= BASE {
      NoLeadingZero(n / BASE);
    }
  }

  /** The digits denote exactly the big-endian value of the bytes, without a leading zero
      unless the value is 0. */
  lemma EncodedDenotes(b: seq<byte>)
    ensures Encoded(b) != "" && AllDigits(Encoded(b)) && DigitsValue(Encoded(b)) == BytesValue(b)
    ensures Encoded(b)[0] == '0' <==> BytesValue(b) == 0
    ensures BytesValue(b) == 0 ==> Encoded(b) == "0"
  {
    var n := BytesValue(b);
    if n == 0 {
      assert "0"[..0] == "";
      assert DigitsValue("0") == DigitsValue("0"[..0]) * BASE + DigitValue('0');
    } else {
      AppendedValue(n);
      NoLeadingZero(n);
    }
  }

  lemma {:induction false} BytesValueInjective(a: seq<byte>, b: seq<byte>)
    requires |a| == |b| && BytesValue(a) == BytesValue(b)
    ensures a == b
  {
    if a != [] {
      var n := |a| - 1;
      assert BytesValue(a[..n]) == BytesValue(b[..n]) && a[n] == b[n] by {
        DivideUnique(BytesValue(a[..n]), a[n] as nat, BytesValue(b[..n]), b[n] as nat);
      }
      BytesValueInjective(a[..n], b[..n]);
      assert a == a[..n] + [a[n]] && b == b[..n] + [b[n]];
    }
  }

  lemma DivideUnique(q: nat, r: nat, q': nat, r': nat)
    requires r < 256 && r' < 256 && q * 256 + r == q' * 256 + r'
    ensures q == q' && r == r'
  {
  }

  /** Inputs of one length encode injectively. */
  lemma EncodeIsInjective(a: seq<byte>, b: seq<byte>)
    requires |a| == |b| && Encoded(a) == Encoded(b)
    ensures a == b
  {
    EncodedDenotes(a);
    EncodedDenotes(b);
    BytesValueInjective(a, b);
  }

  // ---------- length ----------

  function Pow(base: nat, e: nat): nat {
    if e == 0 then 1 else base * Pow(base, e - 1)
  }

  /** A number has at most `k` digits exactly when it is below 62 to the `k`. */
  lemma {:induction false} DigitCount(n: nat, k: nat)
    ensures |Appended(n)| <= k <==> n < Pow(BASE, k)
  {
    if k > 0 && n > 0 {
      DigitCount(n / BASE, k - 1);
      DivideBelow(n, Pow(BASE, k - 1));
    } else {
      PowPositive(k);
    }
  }

  lemma DivideBelow(n: nat, p: nat)
    ensures n / BASE < p <==> n < BASE * p
  {
  }

  lemma {:induction false} PowPositive(k: nat)
    ensures Pow(BASE, k) > 0
  {
    if k > 0 {
      PowPositive(k - 1);
    }
  }

  lemma {:induction false} BytesValueBound(b: seq<byte>)
    ensures BytesValue(b) < Pow(256, |b|)
  {
    if b != [] {
      BytesValueBound(b[..|b| - 1]);
    }
  }

  lemma MulAssociates(a: nat, b: nat, c: nat)
    ensures a * (b * c) == (a * b) * c
  {
  }

  lemma {:induction false} PowAdd(base: nat, d: nat, e: nat)
    ensures Pow(base, d + e) == Pow(base, d) * Pow(base, e)
  {
    if d > 0 {
      PowAdd(base, d - 1, e);
      MulAssociates(base, Pow(base, d - 1), Pow(base, e));
    }
  }

  lemma PowDouble(base: nat, e: nat, v: nat)
    requires Pow(base, e) == v
    ensures Pow(base, e + e) == v * v
  {
    PowAdd(base, e, e);
  }

  lemma TokenPowers()
    ensures Pow(256, 32) < Pow(62, 43)
  {
    assert Pow(256, 4) == 0x1_0000_0000;
    PowDouble(256, 4, 0x1_0000_0000);
    PowDouble(256, 8, 0x1_0000_0000 * 0x1_0000_0000);
    PowDouble(256, 16, 0x1_0000_0000 * 0x1_0000_0000 * 0x1_0000_0000 * 0x1_0000_0000);
    assert Pow(62, 5) == 916132832;
    PowDouble(62, 5, 916132832);
    PowDouble(62, 10, 839299365868340224);
    PowDouble(62, 20, 704423425546998022968330264616370176);
    PowAdd(62, 40, 3);
    assert Pow(62, 3) == 238_328;
  }

  /** The secret of a token: 32 bytes take at most 43 digits. */
  lemma TokenLength(b: seq<byte>)
    requires |b| == 32
    ensures |Encoded(b)| <= 43
  {
    BytesValueBound(b);
    TokenPowers();
    DigitCount(BytesValue(b), 43);
  }

  function Weight(n: nat): nat {
    if n == 0 then 1 else 256 * Weight(n - 1)
  }

  lemma OneByteMore(x: nat, w: nat, v: nat, y: nat)
    requires v < w && y < 256
    ensures (x * w + v) * 256 + y == x * (256 * w) + (v * 256 + y) && v * 256 + y < 256 * w
  {
  }

  /** The bytes are read with the most significant first. */
  lemma {:induction false} FirstByteWeighsMost(x: byte, rest: seq<byte>)
    ensures BytesValue([x] + rest) == x as nat * Weight(|rest|) + BytesValue(rest) && BytesValue(rest) < Weight(|rest|)
  {
    var all := [x] + rest;
    if rest == [] {
      assert all[..0] == [];
    } else {
      var front := rest[..|rest| - 1];
      FirstByteWeighsMost(x, front);
      assert all[..|all| - 1] == [x] + front;
      OneByteMore(x as nat, Weight(|front|), BytesValue(front), rest[|rest| - 1] as nat);
    }
  }
}
