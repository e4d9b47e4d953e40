/**
  Positional numbers in base B = 2^16, most significant digit first, as the
  division routine stores them, and the fixed-width operators it applies to them.
 */
module Digits {

  import opened Basics

  const B: int := 0x1_0000

  type Digit = x: int | 0 <= x < 0x1_0000

  // Results of unsigned 32-bit arithmetic are reduced modulo 2^32.
  function Wrap32(x: int): (r: int)
    ensures 0 <= r < W32
    ensures 0 <= x < W32 ==> r == x
    ensures -W32 <= x < 0 ==> r == x + W32
  {
    x % W32
  }

  function HHalf(x: int): (r: int)
    requires 0 <= x < W32
    ensures 0 <= r < B
  {
    x / B
  }

  function LHalf(x: int): (r: Digit)
    requires 0 <= x
    ensures x < B ==> r == x
  {
    x % B
  }

  // ((uint32_t)a << 16) | b, for a single digit b.
  function Combine(a: int, b: Digit): (r: int)
    requires 0 <= a
    ensures 0 <= r < W32
    ensures a < B ==> r == a * B + b
  {
    Wrap32(a * B) / B * B + b
  }

  // a * B^k. Being linear in each step, it keeps products of variables out of the proofs.
  function Shift(a: int, k: nat): int {
    if k == 0 then a else B * Shift(a, k - 1)
  }

  // The number written by the digits s[lo..hi].
  function Val(s: seq<int>, lo: nat, hi: nat): int
    requires lo <= hi <= |s|
    decreases hi - lo
  {
    if lo == hi then 0 else Shift(s[lo], hi - lo - 1) + Val(s, lo + 1, hi)
  }

  ghost predicate AllDigits(s: seq<int>) {
    forall i :: 0 <= i < |s| ==> 0 <= s[i] < B
  }

  lemma {:induction false} ShiftAdd(a: int, b: int, k: nat)
    ensures Shift(a + b, k) == Shift(a, k) + Shift(b, k)
  {
    if k > 0 { ShiftAdd(a, b, k - 1); }
  }

  lemma {:induction false} ShiftUp(a: int, k: nat)
    ensures Shift(B * a, k) == Shift(a, k + 1)
  {
    if k > 0 { ShiftUp(a, k - 1); }
  }

  lemma {:induction false} ShiftShift(a: int, i: nat, j: nat)
    ensures Shift(Shift(a, i), j) == Shift(a, i + j)
  {
    if j > 0 { ShiftShift(a, i, j - 1); }
  }

  lemma {:induction false} ShiftMono(a: int, b: int, k: nat)
    requires a <= b
    ensures Shift(a, k) <= Shift(b, k)
    ensures a < b ==> Shift(a, k) < Shift(b, k)
    ensures Shift(0, k) == 0
  {
    if k > 0 { ShiftMono(a, b, k - 1); }
  }

  lemma {:induction false} ShiftScale(c: int, a: int, k: nat)
    ensures Shift(c * a, k) == c * Shift(a, k)
  {
    if k > 0 {
      ShiftScale(c, a, k - 1);
      var x := Shift(a, k - 1);
      assert B * (c * x) == c * (B * x);
    }
  }

  lemma Twice(x: int, y: int)
    ensures 2 * (x * y) == (2 * x) * y
  {
  }

  lemma {:induction false} Pow2Add(i: nat, j: nat)
    ensures Pow2(i + j) == Pow2(i) * Pow2(j)
  {
    if i > 0 {
      Pow2Add(i - 1, j);
      assert Pow2(i) == 2 * Pow2(i - 1) && Pow2(i + j) == 2 * Pow2(i - 1 + j);
      Twice(Pow2(i - 1), Pow2(j));
    }
  }

  lemma Pow2Half()
    ensures Pow2(15) == B / 2 && Pow2(16) == B
  {
    assert Pow2(5) == 32;
    assert Pow2(10) == 1024 by { Pow2Add(5, 5); }
    assert Pow2(15) == 32768 by { Pow2Add(10, 5); }
  }

  lemma {:induction false} ValBound(s: seq<int>, lo: nat, hi: nat)
    requires lo <= hi <= |s| && AllDigits(s)
    ensures 0 <= Val(s, lo, hi) < Shift(1, hi - lo)
    decreases hi - lo
  {
    if lo < hi {
      ValBound(s, lo + 1, hi);
      var k := hi - lo - 1;
      ShiftMono(0, s[lo], k);
      ShiftMono(s[lo], B - 1, k);
      ShiftAdd(B - 1, 1, k);
      ShiftUp(1, k);
    }
  }

  lemma {:induction false} ValFrame(s: seq<int>, t: seq<int>, lo: nat, hi: nat)
    requires lo <= hi <= |s| && hi <= |t|
    requires forall i :: lo <= i < hi ==> s[i] == t[i]
    ensures Val(s, lo, hi) == Val(t, lo, hi)
    decreases hi - lo
  {
    if lo < hi {
      ValFrame(s, t, lo + 1, hi);
    }
  }

  lemma {:induction false} ValSplit(s: seq<int>, lo: nat, mid: nat, hi: nat)
    requires lo <= mid <= hi <= |s|
    ensures Val(s, lo, hi) == Shift(Val(s, lo, mid), hi - mid) + Val(s, mid, hi)
    decreases mid - lo
  {
    if lo == mid {
      ShiftMono(0, 0, hi - mid);
    } else {
      ValSplit(s, lo + 1, mid, hi);
      ShiftShift(s[lo], mid - lo - 1, hi - mid);
      ShiftAdd(Shift(s[lo], mid - lo - 1), Val(s, lo + 1, mid), hi - mid);
    }
  }

  // Appending one digit.
  lemma ValSnoc(s: seq<int>, lo: nat, hi: nat)
    requires lo <= hi < |s|
    ensures Val(s, lo, hi + 1) == Val(s, lo, hi) * B + s[hi]
  {
    ValSplit(s, lo, hi, hi + 1);
    assert Val(s, hi + 1, hi + 1) == 0;
  }

  lemma {:induction false} ValZeros(s: seq<int>, lo: nat, hi: nat)
    requires lo <= hi <= |s|
    requires forall i :: lo <= i < hi ==> s[i] == 0
    ensures Val(s, lo, hi) == 0
    decreases hi - lo
  {
    if lo < hi {
      ValZeros(s, lo + 1, hi);
      ShiftMono(0, 0, hi - lo - 1);
    }
  }

  // Leading zeros do not change the number.
  lemma ValLeadingZeros(s: seq<int>, lo: nat, mid: nat, hi: nat)
    requires lo <= mid <= hi <= |s|
    requires forall i :: lo <= i < mid ==> s[i] == 0
    ensures Val(s, lo, hi) == Val(s, mid, hi)
  {
    ValSplit(s, lo, mid, hi);
    ValZeros(s, lo, mid);
    ShiftMono(0, 0, hi - mid);
  }

  // The leading digit is at least c when the number is at least c shifted to its place.
  lemma LeadingDigitAtLeast(s: seq<int>, lo: nat, hi: nat, c: int)
    requires lo < hi <= |s| && AllDigits(s)
    requires Val(s, lo, hi) >= Shift(c, hi - lo - 1)
    ensures s[lo] >= c
  {
    if s[lo] <= c - 1 {
      var k := hi - lo - 1;
      ValBound(s, lo + 1, hi);
      ShiftMono(s[lo] + 1, c, k);
      ShiftAdd(s[lo], 1, k);
      assert false;
    }
  }

  // A bound on a number bounds its leading part.
  lemma PrefixBelow(s: seq<int>, lo: nat, mid: nat, hi: nat, c: int)
    requires lo <= mid <= hi <= |s| && AllDigits(s)
    requires Val(s, lo, hi) < Shift(c, hi - mid)
    ensures Val(s, lo, mid) < c
  {
    ValSplit(s, lo, mid, hi);
    ValBound(s, mid, hi);
    if Val(s, lo, mid) >= c {
      ShiftMono(c, Val(s, lo, mid), hi - mid);
      assert false;
    }
  }

  lemma FourDigits(s: seq<int>)
    requires |s| == 5
    ensures Val(s, 1, 5) == ((s[1] * B + s[2]) * B + s[3]) * B + s[4]
  {
    ValSnoc(s, 1, 1);
    ValSnoc(s, 1, 2);
    ValSnoc(s, 1, 3);
    ValSnoc(s, 1, 4);
    assert Val(s, 1, 1) == 0;
  }
}
