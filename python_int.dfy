/** The integer side of the legacy decoder: `int(s, base=16)` restricted
    to plain hexadecimal digits, and `&` on non-negative integers. */
module PythonInt {
  import opened Wrappers

  function Pow(b: nat, k: nat): (p: nat)
    ensures b > 0 ==> p > 0
  {
    if k == 0 then 1 else b * Pow(b, k - 1)
  }

  lemma {:induction false} PowAdd(b: nat, i: nat, j: nat)
    ensures Pow(b, i + j) == Pow(b, i) * Pow(b, j)
    decreases j
  {
    if j > 0 {
      PowAdd(b, i, j - 1);
      var x, y := Pow(b, i), Pow(b, j - 1);
      calc {
        Pow(b, i + j);
        b * Pow(b, i + j - 1);
        b * (x * y);
        { MulAssocComm(b, x, y); }
        x * (b * y);
        x * Pow(b, j);
      }
    }
  }

  lemma MulAssocComm(a: nat, b: nat, c: nat)
    ensures a * (b * c) == b * (a * c)
  {
  }

  /** Bit `k` of `n` in its binary expansion. */
  predicate IsBitSet(n: nat, k: nat)
  {
    (n / Pow(2, k)) % 2 == 1
  }

  lemma MulAtLeast(b: nat, x: nat)
    requires 1 <= x
    ensures b <= b * x
  {
    assert b * x == b * (x - 1) + b;
  }

  lemma MulMonotone(b: nat, x: nat, y: nat)
    requires x <= y
    ensures b * x <= b * y
  {
    assert b * y == b * x + b * (y - x);
  }

  /** Euclidean division is unique: a quotient and remainder that add up
      to `a` are `a / b` and `a % b`. */
  lemma DivModUnique(a: nat, b: nat, q: nat, r: nat)
    requires 0 < b && r < b && a == b * q + r
    ensures a / b == q && a % b == r
  {
    var q', r' := a / b, a % b;
    assert a == b * q' + r';
    if q' < q {
      assert b * q == b * q' + b * (q - q');
      MulAtLeast(b, q - q');
    } else if q' > q {
      assert b * q' == b * q + b * (q' - q);
      MulAtLeast(b, q' - q);
    }
  }

  lemma MulStrict(b: nat, x: nat, y: nat)
    requires b * x < b * y
    ensures x < y
  {
    if y <= x {
      MulMonotone(b, y, x);
    }
  }

  lemma Regroup(b: nat, c: nat, q: nat, r1: nat, r0: nat)
    ensures (b * c) * q + (b * r1 + r0) == b * (c * q + r1) + r0
  {
    MulAssocComm(c, b, q);
  }

  /** Dividing by `b` and then by `c` is dividing by `b * c`. */
  lemma DivDiv(a: nat, b: nat, c: nat)
    requires 0 < b && 0 < c
    ensures a / b / c == a / (b * c)
  {
    var m := b * c;
    var q, r := a / m, a % m;
    var r1, r0 := r / b, r % b;
    MulStrict(b, r1, c);
    Regroup(b, c, q, r1, r0);
    DivModUnique(a, b, c * q + r1, r0);
    DivModUnique(c * q + r1, c, q, r1);
  }

  /** Modulo 2, a number and its last base-16 digit agree. */
  lemma ModTwoOfModSixteen(q: nat)
    ensures q % 2 == (q % 16) % 2
  {
    var h, d := q / 16, q % 16;
    assert q == 16 * h + d;
    assert q == 2 * (8 * h + d / 2) + d % 2;
    DivModUnique(q, 2, 8 * h + d / 2, d % 2);
  }

  predicate IsHexDigit(c: char)
  {
    '0' <= c <= '9' || 'a' <= c <= 'f' || 'A' <= c <= 'F'
  }

  predicate AllHexDigits(s: string)
  {
    forall i :: 0 <= i < |s| ==> IsHexDigit(s[i])
  }

  /** The value of one hexadecimal digit; upper and lower case agree. */
  function DigitValue(c: char): (v: nat)
    requires IsHexDigit(c)
    ensures v < 16
    ensures '0' <= c <= '9' ==> v == c as int - '0' as int
  {
    if c <= '9' then c as int - '0' as int
    else if c >= 'a' then c as int - 'a' as int + 10
    else c as int - 'A' as int + 10
  }

  /** The lower-case digit for a value below 16, as `'%x'` prints it. */
  function DigitChar(v: nat): (c: char)
    requires v < 16
    ensures IsHexDigit(c) && DigitValue(c) == v
    ensures c == '0' <==> v == 0
  {
    if v < 10 then ('0' as int + v) as char else ('a' as int + v - 10) as char
  }

  /** The number a string of hexadecimal digits denotes, most significant first. */
  function HexValue(s: string): (n: nat)
    requires AllHexDigits(s)
    ensures n < Pow(16, |s|)
    decreases |s|
  {
    if s == [] then 0
    else
      var high := HexValue(s[..|s| - 1]);
      assert high + 1 <= Pow(16, |s| - 1);
      16 * high + DigitValue(s[|s| - 1])
  }

  /** `int(s, base=16)` on plain digits: fails (Python's ValueError) on the
      empty string and on any character that is not a hexadecimal digit. */
  function ParseHex(s: string): (r: Option<nat>)
    ensures r.None? <==> s == [] || exists i :: 0 <= i < |s| && !IsHexDigit(s[i])
    ensures r.Some? ==> AllHexDigits(s) && r.value < Pow(16, |s|)
  {
    if s != [] && AllHexDigits(s) then Some(HexValue(s)) else None
  }

  /** `'%x' % n`: the shortest lower-case hexadecimal spelling of `n`. */
  function ToHex(n: nat): (s: string)
    ensures s != [] && AllHexDigits(s)
    ensures s[0] == '0' <==> n == 0
    ensures |s| > 1 ==> s[0] != '0'
    decreases n
  {
    if n < 16 then [DigitChar(n)] else ToHex(n / 16) + [DigitChar(n % 16)]
  }

  /** Parsing undoes printing: every value survives `int('%x' % n, 16)`. */
  lemma {:induction false} ParseHexToHex(n: nat)
    ensures ParseHex(ToHex(n)) == Some(n)
    decreases n
  {
    var s := ToHex(n);
    if n >= 16 {
      ParseHexToHex(n / 16);
      assert s[..|s| - 1] == ToHex(n / 16);
    }
  }

  /** Digit `k` from the right of a hexadecimal string is the `k`-th base-16
      digit of its value; positions beyond the string are zero. */
  lemma {:induction false} HexValueDigit(s: string, k: nat)
    requires AllHexDigits(s)
    ensures HexValue(s) / Pow(16, k) % 16 == if k < |s| then DigitValue(s[|s| - 1 - k]) else 0
    decreases |s|
  {
    var n := HexValue(s);
    if s == [] {
    } else {
      var init := s[..|s| - 1];
      var d := DigitValue(s[|s| - 1]);
      DivModUnique(n, 16, HexValue(init), d);
      if k == 0 {
      } else {
        HexValueDigit(init, k - 1);
        DivDiv(n, 16, Pow(16, k - 1));
        if k < |s| {
          assert init[|init| - 1 - (k - 1)] == s[|s| - 1 - k];
        }
      }
    }
  }

  /** Python's `a & b` on non-negative integers, bit by bit from the lowest. */
  function BitAnd(a: nat, b: nat): (r: nat)
    ensures r <= a && r <= b
    decreases a
  {
    if a == 0 || b == 0 then 0
    else 2 * BitAnd(a / 2, b / 2) + (if a % 2 == 1 && b % 2 == 1 then 1 else 0)
  }

  /** Masking with a single power of two keeps that power exactly when the
      corresponding bit is set, and gives zero otherwise. */
  lemma {:induction false} BitAndPow2(n: nat, k: nat)
    ensures BitAnd(n, Pow(2, k)) == if IsBitSet(n, k) then Pow(2, k) else 0
    decreases k
  {
    if n == 0 {
    } else if k == 0 {
      assert BitAnd(n / 2, 0) == 0;
    } else {
      BitAndPow2(n / 2, k - 1);
      DivDiv(n, 2, Pow(2, k - 1));
    }
  }
}
