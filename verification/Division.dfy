/**
  Software 64-bit division: Algorithm D of Knuth, TAOCP volume 2, section 4.3.1,
  on up to four base-2^16 digits (lib/div64.c), and the shift-subtract form
  (lib/udivmoddi4.c).
 */
module Division {

  import opened Basics
  import opened Digits

  // ----- The trial digit -----

  // A trial digit that is maximal for the leading parts is not below the true digit.
  lemma TrialNotBelow(top: int, lead: int, p: int, wRest: int, vRest: int, qhat: int)
    requires p >= 1 && wRest < p && 0 <= vRest && 0 <= qhat
    requires (qhat + 1) * lead >= top + 1
    ensures top * p + wRest < (qhat + 1) * (lead * p + vRest)
  {
    var x := (qhat + 1) * lead;
    MulMono(top + 1, x, p);
    MulMono(0, qhat + 1, vRest);
    assert (top + 1) * p == top * p + p;
    assert (qhat + 1) * (lead * p + vRest) == x * p + (qhat + 1) * vRest;
  }

  // A trial digit that fits the leading parts is at most one above the true digit, because the
  // leading part of a normalised divisor exceeds every digit.
  lemma TrialNotFarAbove(top: int, lead: int, p: int, wRest: int, vRest: int, qhat: int)
    requires p >= 1 && 0 <= wRest && vRest < p && 1 <= qhat <= lead
    requires qhat * lead <= top
    ensures (qhat - 1) * (lead * p + vRest) <= top * p + wRest
  {
    var y := (qhat - 1) * lead;
    assert y + (qhat - 1) <= qhat * lead;
    MulMono(y + (qhat - 1), top, p);
    MulMono(vRest, p, qhat - 1);
    assert (y + (qhat - 1)) * p == y * p + (qhat - 1) * p;
    assert (qhat - 1) * (lead * p + vRest) == y * p + (qhat - 1) * vRest;
  }

  // Knuth's bound: a trial digit computed from the three leading dividend digits (top)
  // and the two leading divisor digits (lead) is the true digit or one more.
  lemma TrialDigitBound(w: int, v: int, top: int, lead: int, p: int, wRest: int, vRest: int, qhat: int)
    requires p >= 1 && 0 <= wRest < p && 0 <= vRest < p
    requires w == top * p + wRest && v == lead * p + vRest
    requires 0 <= qhat < B && lead >= B && 0 <= top
    requires 0 <= w < B * v
    requires qhat * lead <= top
    requires (qhat + 1) * lead > top || qhat == B - 1
    ensures v > 0 && (qhat - 1) * v <= w < (qhat + 1) * v
    ensures w / v <= qhat <= w / v + 1
  {
    MulMono(1, lead, p);
    if qhat != B - 1 {
      TrialNotBelow(top, lead, p, wRest, vRest, qhat);
    }
    if qhat >= 1 {
      TrialNotFarAbove(top, lead, p, wRest, vRest, qhat);
    }
    QuotientBetween(w, v, qhat);
  }

  lemma QuotientBetween(w: int, v: int, q: int)
    requires v > 0 && (q - 1) * v <= w < (q + 1) * v
    ensures w / v <= q <= w / v + 1
  {
    if w < q * v {
      assert w == (q - 1) * v + (w - (q - 1) * v);
      assert q * v == (q - 1) * v + v;
      DivUnique(w, v, q - 1, w - (q - 1) * v);
    } else {
      assert (q + 1) * v == q * v + v;
      DivUnique(w, v, q, w - q * v);
    }
  }

  // ----- D3: the trial digit -----

  lemma DigitProduct(v2: Digit, qhat: int)
    requires 0 <= qhat < 0x1_0000
    ensures 0 <= v2 * qhat <= 0xFFFE_0001
  {
    MulMono(v2, 0xFFFF, qhat);
    MulMono(0, v2, qhat);
  }

  // The first estimate, from the two leading dividend digits and the leading divisor digit.
  method FirstEstimate(uj0: Digit, uj1: Digit, v1: Digit) returns (qhat: int, rhat: int)
    requires v1 >= 0x8000 && uj0 < v1
    ensures 0 <= qhat < 0x1_0000 && 0 <= rhat < v1
    ensures uj0 * 0x1_0000 + uj1 == qhat * v1 + rhat
  {
    var nn := Combine(uj0, uj1);
    qhat := nn / v1;
    rhat := nn % v1;
    QuotientDigit(nn, v1);
  }

  lemma QuotientDigit(nn: int, v1: int)
    requires 0 <= nn < v1 * 0x1_0000 && v1 > 0
    ensures 0 <= nn / v1 < 0x1_0000 && nn == (nn / v1) * v1 + nn % v1
  {
    var q := nn / v1;
    assert nn == q * v1 + nn % v1;
    if q >= 0x1_0000 {
      MulMono(0x1_0000, q, v1);
      assert false;
    }
  }

  // What the exit of the correction loop means for the trial digit, nn being the two leading
  // dividend digits: rhat is the remainder it leaves, and one more digit would not have passed.
  lemma DigitFits(nn: int, u2: int, v1: int, v2: int, qhat: int, rhat: int)
    requires nn == qhat * v1 + rhat
    requires v2 * qhat <= rhat * 0x1_0000 + u2
    ensures qhat * (v1 * 0x1_0000 + v2) <= nn * 0x1_0000 + u2
  {
    assert qhat * (v1 * 0x1_0000 + v2) == qhat * v1 * 0x1_0000 + v2 * qhat;
  }

  lemma DigitMaximal(nn: int, u2: Digit, v1: Digit, v2: Digit, qhat: int, rhat: int)
    requires nn == qhat * v1 + rhat && 0 <= qhat
    requires rhat < v1 || v2 * qhat + v2 > (rhat - v1) * 0x1_0000 + u2
    ensures (qhat + 1) * (v1 * 0x1_0000 + v2) > nn * 0x1_0000 + u2
  {
    assert (qhat + 1) * (v1 * 0x1_0000 + v2) == (qhat * v1 + v1) * 0x1_0000 + (v2 * qhat + v2);
    MulMono(0, v2, qhat);
  }

  // qhat is the largest digit with qhat * (v1 v2) <= (uj0 uj1 uj2); all 32-bit products
  // and combinations are exact.
  method TrialDigit(uj0: Digit, uj1: Digit, uj2: Digit, v1: Digit, v2: Digit) returns (qhat: int)
    requires v1 >= B / 2 && uj0 <= v1
    ensures 0 <= qhat < B
    ensures qhat * (v1 * B + v2) <= (uj0 * B + uj1) * B + uj2
    ensures (qhat + 1) * (v1 * B + v2) > (uj0 * B + uj1) * B + uj2 || qhat == B - 1
  {
    ghost var nn := uj0 * B + uj1;
    ghost var rest;
    qhat, rest := CorrectedDigit(uj0, uj1, uj2, v1, v2);
    DigitFits(nn, uj2, v1, v2, qhat, rest);
    if qhat != B - 1 {
      DigitMaximal(nn, uj2, v1, v2, qhat, rest);
    }
  }

  // The correction loop, entered in the middle when the leading digits are equal.
  method CorrectedDigit(uj0: Digit, uj1: Digit, uj2: Digit, v1: Digit, v2: Digit) returns (qhat: int, ghost rest: int)
    requires v1 >= B / 2 && uj0 <= v1
    ensures 0 <= qhat < B && uj0 * B + uj1 == qhat * v1 + rest
    ensures v2 * qhat <= rest * B + uj2
    ensures qhat == B - 1 || rest < v1 || v2 * qhat + v2 > (rest - v1) * B + uj2
  {
    var rhat;
    var tooBig := false;
    if uj0 == v1 {
      qhat := B;
      rhat := uj1;
      tooBig := true;
    } else {
      qhat, rhat := FirstEstimate(uj0, uj1, v1);
    }
    ghost var a, b := qhat * v1, v2 * qhat;
    while tooBig || Wrap32(v2 * qhat) > Combine(rhat, uj2)
      invariant 0 <= rhat < B && 0 <= qhat <= B
      invariant a == qhat * v1 && b == v2 * qhat
      invariant uj0 * B + uj1 == a + rhat
      invariant tooBig <==> qhat == B
      invariant qhat >= B - 1 || rhat < v1 || b + v2 > (rhat - v1) * B + uj2
      decreases qhat
    {
      if !tooBig {
        DigitProduct(v2, qhat);
      }
      DigitDown(qhat, v1, v2);
      tooBig := false;
      qhat := qhat - 1;
      rhat := rhat + v1;
      a, b := a - v1, b - v2;
      if rhat >= B {
        break;
      }
    }
    DigitProduct(v2, qhat);
    rest := rhat;
  }

  lemma DigitDown(qhat: int, v1: int, v2: int)
    ensures (qhat - 1) * v1 == qhat * v1 - v1 && v2 * (qhat - 1) == v2 * qhat - v2
    ensures v2 * 0 == 0
  {
  }

  // ----- D4: multiply and subtract -----

  // One column: the wrapped 32-bit difference splits into a digit and a borrow without loss.
  lemma BorrowColumn(u: Digit, v: Digit, qhat: int, t: int)
    requires 0 <= qhat < B && 0 <= t < B
    ensures var x := u - v * qhat - t;
      var w := Wrap32(x);
      var t' := (B - HHalf(w)) % B;
      x == LHalf(w) - B * t' && 0 <= t' < B
  {
    DigitProduct(v, qhat);
    var x := u - v * qhat - t;
    var w := Wrap32(x);
    assert w == B * HHalf(w) + LHalf(w);
  }

  // The column identity scaled to its place value.
  lemma BorrowRow(u: int, v: int, qhat: int, t0: int, u1: int, t1: int, k: nat)
    requires u - v * qhat - t0 == u1 - B * t1
    ensures Shift(u, k) - qhat * Shift(v, k) - Shift(t0, k) == Shift(u1, k) - Shift(t1, k + 1)
  {
    ShiftScale(qhat, v, k);
    ShiftAdd(u - v * qhat - t0, v * qhat + t0, k);
    ShiftAdd(v * qhat, t0, k);
    ShiftAdd(u1 - B * t1, B * t1, k);
    ShiftUp(t1, k);
  }

  lemma Distribute(q: int, a: int, b: int)
    ensures q * (a + b) == q * a + q * b
  {
  }

  // Extending the subtraction by the column of digit i.
  lemma SubtractedRow(was: seq<int>, now: seq<int>, next: seq<int>, vs: seq<int>, i: nat, hi: nat, j: nat, qhat: int,
                      t0: int, t1: int)
    requires i < hi <= |was| && |now| == |next| == |was| && j + hi - i <= |vs|
    requires next == now[i := next[i]]
    requires was[i] - vs[j] * qhat - t0 == next[i] - B * t1
    requires Val(was, i + 1, hi) - qhat * Val(vs, j + 1, j + hi - i) == Val(now, i + 1, hi) - Shift(t0, hi - i - 1)
    ensures Val(was, i, hi) - qhat * Val(vs, j, j + hi - i) == Val(next, i, hi) - Shift(t1, hi - i)
  {
    ValFrame(now, next, i + 1, hi);
    BorrowRow(was[i], vs[j], qhat, t0, next[i], t1, hi - i - 1);
    Distribute(qhat, Shift(vs[j], hi - i - 1), Val(vs, j + 1, j + hi - i));
  }

  // One column: the digit below the product and the borrow, and the next borrow.
  method SubtractColumn(u: array<Digit>, p: nat, v: array<Digit>, w: nat, qhat: int, t0: int) returns (t: int)
    requires u != v && p < u.Length && w < v.Length && 0 <= qhat < B && 0 <= t0 < B
    modifies u
    ensures u[..] == old(u[..])[p := u[p]] && 0 <= t < B
    ensures old(u[p]) - v[w] * qhat - t0 == u[p] - B * t
  {
    BorrowColumn(u[p], v[w], qhat, t0);
    t := Wrap32(u[p] - v[w] * qhat - t0);
    u[p] := LHalf(t);
    t := (B - HHalf(t)) % B;
  }

  // Subtracts qhat * v[vo+1..vo+n+1] from u[k..k+n+1]; a borrow out of the top digit is reported.
  method MulSub(u: array<Digit>, k: nat, v: array<Digit>, vo: nat, n: nat, qhat: int) returns (borrow: bool)
    requires u != v && n >= 1 && k + n < u.Length && vo + n < v.Length && 0 <= qhat < B
    modifies u
    ensures Val(u[..], k, k + n + 1) - (if borrow then Shift(1, n + 1) else 0)
         == old(Val(u[..], k, k + n + 1)) - qhat * Val(v[..], vo + 1, vo + n + 1)
    ensures forall i :: 0 <= i < u.Length && !(k <= i <= k + n) ==> u[i] == old(u[i])
  {
    var t := 0;
    var i := n;
    ghost var was, vs := u[..], v[..];
    while i > 0
      invariant 0 <= i <= n && 0 <= t < B && v[..] == vs
      invariant forall a :: 0 <= a < u.Length && !(k + i < a <= k + n) ==> u[a] == was[a]
      invariant Val(was, k + i + 1, k + n + 1) - qhat * Val(vs, vo + i + 1, vo + n + 1)
             == Val(u[..], k + i + 1, k + n + 1) - Shift(t, n - i)
    {
      ghost var now, t0 := u[..], t;
      t := SubtractColumn(u, k + i, v, vo + i, qhat, t);
      SubtractedRow(was, now, u[..], vs, k + i, k + n + 1, vo + i, qhat, t0, t);
      i := i - 1;
    }
    ghost var now, t0 := u[..], t;
    t := Wrap32(u[k] - t);
    u[k] := LHalf(t);
    borrow := HHalf(t) != 0;
    ValFrame(now, u[..], k + 1, k + n + 1);
    ghost var out := if borrow then 1 else 0;
    assert was[k] - t0 == u[k] - B * out;
    TopColumn(was[k], t0, u[k], out, n);
  }

  lemma TopColumn(u: int, t: int, u1: int, out: int, n: nat)
    requires u - t == u1 - B * out
    ensures Shift(u, n) - Shift(t, n) == Shift(u1, n) - Shift(out, n + 1)
    ensures Shift(0, n + 1) == 0 && Shift(-t, n) == -Shift(t, n) && Shift(-out, n + 1) == -Shift(out, n + 1)
  {
    ShiftAdd(t, -t, n);
    ShiftAdd(out, -out, n + 1);
    ShiftMono(0, 0, n);
    ShiftAdd(u - t, t, n);
    ShiftAdd(u1 - B * out, B * out, n);
    ShiftUp(out, n);
    ShiftMono(0, 0, n + 1);
  }

  // ----- D6: add back -----

  lemma CarryRow(u: int, v: int, t0: int, u1: int, t1: int, k: nat)
    requires u + v + t0 == u1 + B * t1
    ensures Shift(u, k) + Shift(v, k) + Shift(t0, k) == Shift(u1, k) + Shift(t1, k + 1)
  {
    ShiftAdd(u, v, k);
    ShiftAdd(u + v, t0, k);
    ShiftAdd(u1, B * t1, k);
    ShiftUp(t1, k);
  }

  // One column: the digit of the sum, and the next carry.
  method AddColumn(u: array<Digit>, p: nat, v: array<Digit>, w: nat, t0: int) returns (t: int)
    requires u != v && p < u.Length && w < v.Length && 0 <= t0 <= 1
    modifies u
    ensures u[..] == old(u[..])[p := u[p]] && 0 <= t <= 1
    ensures old(u[p]) + v[w] + t0 == u[p] + B * t
  {
    t := t0 + u[p] + v[w];
    u[p] := LHalf(t);
    t := HHalf(t);
  }

  // Adds v[vo+1..vo+n+1] into u[k..k+n+1], dropping the carry out of the top digit.
  method AddBack(u: array<Digit>, k: nat, v: array<Digit>, vo: nat, n: nat)
    requires u != v && n >= 1 && k + n < u.Length && vo + n < v.Length
    modifies u
    ensures var sum := old(Val(u[..], k, k + n + 1)) + Val(v[..], vo + 1, vo + n + 1);
      Val(u[..], k, k + n + 1) == sum || Val(u[..], k, k + n + 1) == sum - Shift(1, n + 1)
    ensures forall i :: 0 <= i < u.Length && !(k <= i <= k + n) ==> u[i] == old(u[i])
  {
    var t := 0;
    var i := n;
    ghost var was, vs := u[..], v[..];
    while i > 0
      invariant 0 <= i <= n && 0 <= t <= 1 && v[..] == vs
      invariant forall a :: 0 <= a < u.Length && !(k + i < a <= k + n) ==> u[a] == was[a]
      invariant Val(was, k + i + 1, k + n + 1) + Val(vs, vo + i + 1, vo + n + 1)
             == Val(u[..], k + i + 1, k + n + 1) + Shift(t, n - i)
    {
      ghost var now, t0 := u[..], t;
      t := AddColumn(u, k + i, v, vo + i, t);
      ValFrame(now, u[..], k + i + 1, k + n + 1);
      CarryRow(was[k + i], vs[vo + i], t0, u[k + i], t, n - i);
      i := i - 1;
    }
    ghost var now := u[..];
    u[k] := LHalf(u[k] + t);
    ValFrame(now, u[..], k + 1, k + n + 1);
    ghost var out := if was[k] + t < B then 0 else 1;
    TopColumn(was[k], -t, u[k], -out, n);
  }

  // ----- One pass of the main loop: D3 to D6 -----

  // Given that the n leading digits are below the divisor, the step divides u[k..k+n+1] by
  // v[vo+1..vo+n+1] and leaves the remainder in place. At most one add-back is needed.
  method DigitStep(u: array<Digit>, k: nat, v: array<Digit>, vo: nat, n: nat) returns (q: Digit)
    requires u != v && n >= 2 && k + n < u.Length && vo + n < v.Length
    requires v[vo + 1] >= B / 2
    requires Val(u[..], k, k + n) < Val(v[..], vo + 1, vo + n + 1)
    modifies u
    ensures old(Val(u[..], k, k + n + 1)) == q * Val(v[..], vo + 1, vo + n + 1) + Val(u[..], k, k + n + 1)
    ensures Val(u[..], k, k + n + 1) < Val(v[..], vo + 1, vo + n + 1)
    ensures forall i :: 0 <= i < u.Length && !(k <= i <= k + n) ==> u[i] == old(u[i])
  {
    ghost var us, vs := u[..], v[..];
    ghost var w, d := Val(us, k, k + n + 1), Val(vs, vo + 1, vo + n + 1);
    ValBound(us, k, k + n + 1);
    ValBound(vs, vo + 1, vo + n + 1);
    TrialOperands(us, k, vs, vo + 1, n);
    var qhat := TrialDigit(u[k], u[k + 1], u[k + 2], v[vo + 1], v[vo + 2]);
    TrialIsClose(us, k, vs, vo + 1, n, qhat);
    var borrow := MulSub(u, k, v, vo, n, qhat);
    ValBound(u[..], k, k + n + 1);
    assert v[..] == vs;
    ghost var now := Val(u[..], k, k + n + 1);
    StepRemainder(w, d, qhat, now, borrow, Shift(1, n + 1));
    if borrow {
      qhat := qhat - 1;
      AddBack(u, k, v, vo, n);
      ValBound(u[..], k, k + n + 1);
    }
    q := LHalf(qhat);
  }

  // The leading digit of the dividend part does not exceed that of the divisor.
  lemma TrialOperands(us: seq<int>, k: nat, vs: seq<int>, j: nat, n: nat)
    requires n >= 2 && k + n < |us| && j + n <= |vs| && AllDigits(us) && AllDigits(vs)
    requires Val(us, k, k + n) < Val(vs, j, j + n)
    ensures us[k] <= vs[j]
  {
    if us[k] >= vs[j] + 1 {
      ShiftMono(vs[j] + 1, us[k], n - 1);
      ShiftAdd(vs[j], 1, n - 1);
      ValBound(us, k + 1, k + n);
      ValBound(vs, j + 1, j + n);
      assert false;
    }
  }

  lemma ShiftIsProduct(a: int, k: nat)
    ensures Shift(a, k) == a * Shift(1, k)
  {
    ShiftScale(a, 1, k);
  }

  // The operands of step D3 as leading parts of the two numbers.
  lemma TrialIsClose(us: seq<int>, k: nat, vs: seq<int>, j: nat, n: nat, qhat: int)
    requires n >= 2 && k + n < |us| && j + n <= |vs| && AllDigits(us) && AllDigits(vs)
    requires vs[j] >= B / 2 && Val(us, k, k + n) < Val(vs, j, j + n)
    requires 0 <= qhat < B
    requires qhat * (vs[j] * B + vs[j + 1]) <= (us[k] * B + us[k + 1]) * B + us[k + 2]
    requires (qhat + 1) * (vs[j] * B + vs[j + 1]) > (us[k] * B + us[k + 1]) * B + us[k + 2] || qhat == B - 1
    ensures var w, v := Val(us, k, k + n + 1), Val(vs, j, j + n);
      v > 0 && (qhat - 1) * v <= w < (qhat + 1) * v
  {
    var w, v := Val(us, k, k + n + 1), Val(vs, j, j + n);
    var top, lead := (us[k] * B + us[k + 1]) * B + us[k + 2], vs[j] * B + vs[j + 1];
    var p := Shift(1, n - 2);
    LeadingDigits(us, k, k + n + 1, vs, j, j + n);
    ShiftIsProduct(top, n - 2);
    ShiftIsProduct(lead, n - 2);
    ValBound(us, k + 3, k + n + 1);
    ValBound(vs, j + 2, j + n);
    ValSnoc(us, k, k + n);
    ValBound(us, k, k + n + 1);
    TrialDigitBound(w, v, top, lead, p, Val(us, k + 3, k + n + 1), Val(vs, j + 2, j + n), qhat);
  }

  lemma LeadingDigits(us: seq<int>, k: nat, hi: nat, vs: seq<int>, j: nat, hj: nat)
    requires k + 3 <= hi <= |us| && j + 2 <= hj <= |vs|
    ensures Val(us, k, hi) == Shift((us[k] * B + us[k + 1]) * B + us[k + 2], hi - k - 3) + Val(us, k + 3, hi)
    ensures Val(vs, j, hj) == Shift(vs[j] * B + vs[j + 1], hj - j - 2) + Val(vs, j + 2, hj)
  {
    ValSplit(us, k, k + 3, hi);
    ValSnoc(us, k, k + 2);
    ValSnoc(us, k, k + 1);
    ValSnoc(us, k, k);
    assert Val(us, k, k) == 0;
    ValSplit(vs, j, j + 2, hj);
    ValSnoc(vs, j, j + 1);
    ValSnoc(vs, j, j);
    assert Val(vs, j, j) == 0;
  }

  // The borrow tells whether the trial digit was one too large; adding the divisor back once
  // then gives the remainder, and the dropped carry is exactly the borrow.
  lemma StepRemainder(w: int, v: int, qhat: int, now: int, borrow: bool, top: int)
    requires 0 < v < top && 0 <= now < top
    requires 0 <= qhat && (qhat - 1) * v <= w < (qhat + 1) * v && 0 <= w
    requires now - (if borrow then top else 0) == w - qhat * v
    ensures !borrow ==> w == qhat * v + now && now < v
    ensures borrow ==> w == (qhat - 1) * v + (now + v - top) && 0 <= now + v - top < v && qhat >= 1
  {
    assert (qhat - 1) * v == qhat * v - v && (qhat + 1) * v == qhat * v + v;
    if qhat == 0 {
      assert qhat * v == 0;
    }
  }

  // ----- D1: normalisation, and its inverse on the remainder -----

  // A left shift of one digit splits into the part that leaves the digit and the part that stays.
  lemma ShiftedDigit(p: Digit, d: int, e: int)
    requires d > 0 && e > 0 && d * e == B
    ensures p * d == (p / e) * B + (p % e) * d && (p * d) % B == (p % e) * d
    ensures 0 <= (p % e) * d <= B - d && 0 <= p / e < d
  {
    var h, l := p / e, p % e;
    assert p == h * e + l;
    assert h * e * d == h * B;
    assert p * d == h * B + l * d;
    MulMono(l, e - 1, d);
    assert (e - 1) * d == B - d;
    MulMono(0, l, d);
    DivUnique(p * d, B, h, l * d);
    if h >= d {
      MulMono(d, h, e);
      assert false;
    }
  }

  // One digit of the left shift; the next digit supplies the incoming bits, none at the end.
  method ShlColumn(p: array<Digit>, off: nat, i: nat, last: bool, d: int, e: int, ghost was: seq<int>, ghost out: int)
    requires off <= i && (if last then i else i + 1) < p.Length == |was| && d > 0 && e > 0 && d * e == B
    requires forall a :: 0 <= a < p.Length && !(off <= a < i) ==> p[a] == was[a]
    requires d * Val(was, off, i) == Val(p[..], off, i) + Shift(out, i - off) - was[i] / e
    modifies p
    ensures forall a :: 0 <= a < p.Length && a != i ==> p[a] == old(p[a])
    ensures d * Val(was, off, i + 1)
         == Val(p[..], off, i + 1) + Shift(out, i + 1 - off) - (if last then 0 else was[i + 1] / e)
  {
    ghost var now := p[..];
    ghost var carry := 0;
    ShiftedDigit(p[i], d, e);
    if last {
      p[i] := LHalf(p[i] * d);
    } else {
      ShiftedDigit(p[i + 1], d, e);
      carry := p[i + 1] / e;
      p[i] := LHalf(p[i] * d) + p[i + 1] / e;
    }
    ShlRow(was, now, p[..], off, i, d, e, out, carry);
  }

  // Shifts p[off..off+len+1] left by sh bits. The bits that leave the top digit are lost.
  method Shl(p: array<Digit>, off: nat, len: nat, sh: nat)
    requires off + len < p.Length && 1 <= sh <= 15
    modifies p
    ensures Val(p[..], off, off + len + 1) == Pow2(sh) * old(Val(p[..], off, off + len + 1))
                                              - Shift(old(p[off]) / Pow2(16 - sh), len + 1)
    ensures forall i :: 0 <= i < p.Length && !(off <= i <= off + len) ==> p[i] == old(p[i])
  {
    ghost var was := p[..];
    var d, e := Pow2(sh), Pow2(16 - sh);
    Pow2Add(sh, 16 - sh);
    Pow2Half();
    var i := off;
    ghost var out := was[off] / e;
    assert d * Val(was, off, off) == 0;
    while i < off + len
      invariant off <= i <= off + len
      invariant forall a :: 0 <= a < p.Length && !(off <= a < i) ==> p[a] == was[a]
      invariant d * Val(was, off, i) == Val(p[..], off, i) + Shift(out, i - off) - was[i] / e
    {
      ShlColumn(p, off, i, false, d, e, was, out);
      i := i + 1;
    }
    ShlColumn(p, off, i, true, d, e, was, out);
  }

  lemma ShlRow(was: seq<int>, now: seq<int>, next: seq<int>, lo: nat, i: nat, d: int, e: int, out: int, carry: int)
    requires lo <= i < |was| && |now| == |next| == |was|
    requires forall a :: lo <= a < i ==> now[a] == next[a]
    requires e != 0
    requires was[i] * d == (was[i] / e) * B + (next[i] - carry)
    requires d * Val(was, lo, i) == Val(now, lo, i) + Shift(out, i - lo) - was[i] / e
    ensures d * Val(was, lo, i + 1) == Val(next, lo, i + 1) + Shift(out, i + 1 - lo) - carry
  {
    ValFrame(now, next, lo, i);
    ValSnoc(was, lo, i);
    ValSnoc(next, lo, i);
    var x := Val(was, lo, i);
    assert d * (x * B + was[i]) == (d * x) * B + was[i] * d;
  }

  // One digit of the right shift.
  method ShrColumn(p: array<Digit>, i: nat, d: int, e: int, ghost was: seq<int>, ghost hi: nat, ghost low: int)
    requires 1 <= i < hi <= p.Length == |was| && d > 0 && e > 0 && d * e == B
    requires p[i] == was[i] && p[i - 1] == was[i - 1]
    requires d * Val(p[..], i + 1, hi) == Val(was, i + 1, hi) - low + Shift(was[i] % d, hi - i - 1)
    modifies p
    ensures forall a :: 0 <= a < p.Length && a != i ==> p[a] == old(p[a])
    ensures d * Val(p[..], i, hi) == Val(was, i, hi) - low + Shift(was[i - 1] % d, hi - i)
  {
    ghost var now := p[..];
    ShrDigit(p[i], p[i - 1], d, e);
    p[i] := p[i] / d + LHalf(p[i - 1] * e);
    ShrRow(was, now, p[..], i, hi, d, e, low);
  }

  // Shifts p[lo..lo+n+1] right by d bits into p[lo+1..lo+n+1], for a number that fits n digits and
  // is r shifted left by d.
  method Shr(p: array<Digit>, lo: nat, n: nat, d: nat, ghost r: int)
    requires 1 <= d <= 15 && n >= 1 && lo + n < p.Length && p[lo] == 0
    requires Val(p[..], lo, lo + n + 1) == Pow2(d) * r
    modifies p
    ensures Val(p[..], lo + 1, lo + n + 1) == r && p[lo] == 0
    ensures forall i :: 0 <= i < p.Length && !(lo <= i <= lo + n) ==> p[i] == old(p[i])
  {
    ghost var was := p[..];
    var dd, e := Pow2(d), Pow2(16 - d);
    Pow2Add(d, 16 - d);
    Pow2Half();
    ShrLoop(p, lo, n, dd, e);
    ghost var now := p[..];
    p[lo] := 0;
    ValFrame(now, p[..], lo + 1, lo + n + 1);
    ShrResult(was, lo, n, dd, r, Val(p[..], lo + 1, lo + n + 1));
  }

  // The loop of the right shift, from the last digit to the one behind the first.
  method ShrLoop(p: array<Digit>, lo: nat, n: nat, dd: int, e: int)
    requires n >= 1 && lo + n < p.Length && dd > 0 && e > 0 && dd * e == B
    modifies p
    ensures forall a :: 0 <= a < p.Length && !(lo < a <= lo + n) ==> p[a] == old(p[a])
    ensures dd * Val(p[..], lo + 1, lo + n + 1)
         == old(Val(p[..], lo + 1, lo + n + 1)) - old(p[lo + n]) % dd + Shift(old(p[lo]) % dd, n)
  {
    ghost var was := p[..];
    var i := lo + n;
    ghost var hi := lo + n + 1;
    ghost var low := was[lo + n] % dd;
    assert dd * Val(p[..], hi, hi) == 0;
    while i > lo
      invariant lo <= i <= lo + n
      invariant forall a :: 0 <= a < p.Length && !(i < a <= lo + n) ==> p[a] == was[a]
      invariant dd * Val(p[..], i + 1, hi) == Val(was, i + 1, hi) - low + Shift(was[i] % dd, hi - i - 1)
    {
      ShrColumn(p, i, dd, e, was, hi, low);
      i := i - 1;
    }
  }

  // One digit of the right shift: the kept high part and the bits that come from its left neighbour.
  lemma ShrDigit(p: Digit, left: Digit, d: int, e: int)
    requires d > 0 && e > 0 && d * e == B
    ensures LHalf(left * e) == (left % d) * e && 0 <= p / d + (left % d) * e < B
  {
    assert e * d == B;
    ShiftedDigit(left, e, d);
    ShiftedDigit(p, e, d);
  }

  lemma ShrResult(was: seq<int>, lo: nat, n: nat, d: int, r: int, x: int)
    requires n >= 1 && lo + n < |was| && was[lo] == 0 && d > 0 && exists e :: d * e == B
    requires Val(was, lo, lo + n + 1) == d * r
    requires d * x == Val(was, lo + 1, lo + n + 1) - was[lo + n] % d + Shift(was[lo] % d, n)
    ensures x == r
  {
    LowBits(was, lo, n, d, r);
    ShiftMono(0, 0, n);
    assert was[lo] % d == 0;
    assert d * x == d * r;
    if x < r { MulMono(x + 1, r, d); assert false; }
    if r < x { MulMono(r + 1, x, d); assert false; }
  }

  lemma ShrRow(was: seq<int>, now: seq<int>, next: seq<int>, i: nat, hi: nat, d: int, e: int, low: int)
    requires 1 <= i < hi <= |was| && |now| == |next| == |was|
    requires next == now[i := next[i]] && d > 0 && d * e == B
    requires next[i] == was[i] / d + (was[i - 1] % d) * e
    requires d * Val(now, i + 1, hi) == Val(was, i + 1, hi) - low + Shift(was[i] % d, hi - i - 1)
    ensures d * Val(next, i, hi) == Val(was, i, hi) - low + Shift(was[i - 1] % d, hi - i)
  {
    var k := hi - i - 1;
    ValFrame(now, next, i + 1, hi);
    var h, l, c := was[i] / d, was[i] % d, was[i - 1] % d;
    assert was[i] == h * d + l;
    assert d * (h + c * e) == h * d + c * B;
    assert d * next[i] == was[i] - l + B * c;
    ShiftScale(d, next[i], k);
    ShiftAdd(was[i] - l, B * c, k);
    ShiftAdd(was[i] - l, l, k);
    ShiftUp(c, k);
    Distribute(d, Shift(next[i], k), Val(next, i + 1, hi));
  }

  // The low bits of a number are the low bits of its last digit.
  lemma LowBits(s: seq<int>, lo: nat, n: nat, d: int, r: int)
    requires lo + n < |s| && d > 0 && exists e :: d * e == B
    requires Val(s, lo, lo + n + 1) == d * r
    ensures s[lo + n] % d == 0
  {
    ValSnoc(s, lo, lo + n);
    var e :| d * e == B;
    var x := Val(s, lo, lo + n);
    assert x * (d * e) == d * (x * e);
    assert s[lo + n] == d * (r - x * e);
    DivUnique(s[lo + n], d, r - x * e, 0);
  }

  // Step D1: the shift that brings the leading divisor digit to at least B/2.
  method ChooseShift(v1: Digit) returns (d: nat)
    requires v1 != 0
    ensures d <= 15 && B / 2 <= v1 * Pow2(d) < B
  {
    d := 0;
    var t := v1;
    while t < B / 2
      invariant t == v1 * Pow2(d) && Pow2(d) <= t < B
      invariant d <= 15
      decreases B - t
    {
      Pow2Half();
      DoubleProduct(v1, Pow2(d));
      t := t * 2;
      d := d + 1;
    }
  }

  // Applies the chosen shift to both numbers.
  method Normalise(u: array<Digit>, uo: nat, m: nat, v: array<Digit>, vo: nat, n: nat) returns (d: nat)
    requires u != v && n >= 2 && uo + m + n < u.Length && vo + n < v.Length
    requires u[uo] == 0 && v[vo + 1] != 0
    modifies u, v
    ensures d <= 15 && v[vo + 1] >= B / 2
    ensures Val(u[..], uo, uo + m + n + 1) == Pow2(d) * old(Val(u[..], uo, uo + m + n + 1))
    ensures Val(v[..], vo + 1, vo + n + 1) == Pow2(d) * old(Val(v[..], vo + 1, vo + n + 1))
    ensures forall i :: 0 <= i < u.Length && !(uo <= i <= uo + m + n) ==> u[i] == old(u[i])
  {
    ghost var vs := v[..];
    d := ChooseShift(v[vo + 1]);
    if d > 0 {
      NoOverflow(v[vo + 1], d);
      NoOverflow(0, d);
      ShiftMono(0, 0, m + n + 1);
      ShiftMono(0, 0, n);
      Shl(u, uo, m + n, d);
      assert v[..] == vs;
      Shl(v, vo + 1, n - 1, d);
      NormalisedLead(vs, v[..], vo + 1, vo + n + 1, Pow2(d));
    }
  }

  lemma NoOverflow(v1: int, d: nat)
    requires 0 <= v1 && 1 <= d <= 15 && v1 * Pow2(d) < B
    ensures v1 / Pow2(16 - d) == 0
  {
    Pow2Add(d, 16 - d);
    Pow2Half();
    var e := Pow2(16 - d);
    if v1 >= e {
      MulMono(e, v1, Pow2(d));
      assert false;
    }
    DivUnique(v1, e, 0, v1);
  }

  lemma NormalisedLead(was: seq<int>, now: seq<int>, lo: nat, hi: nat, d: int)
    requires lo < hi <= |was| == |now| && AllDigits(was) && AllDigits(now)
    requires Val(now, lo, hi) == d * Val(was, lo, hi) && d >= 1
    requires was[lo] * d >= B / 2
    ensures now[lo] >= B / 2
  {
    var k := hi - lo - 1;
    ValBound(was, lo + 1, hi);
    MulMono(Shift(was[lo], k), Val(was, lo, hi), d);
    ShiftScale(d, was[lo], k);
    assert d * was[lo] == was[lo] * d;
    ShiftMono(B / 2, d * was[lo], k);
    LeadingDigitAtLeast(now, lo, hi, B / 2);
  }

  // ----- The main loop: D2 to D7 -----

  // Divides u[uo..uo+m+n+1] by v[vo+1..vo+n+1]: quotient digits go to q[qo..qo+m+1], the
  // remainder stays in the low n digits of u.
  method DivideDigits(u: array<Digit>, uo: nat, m: nat, v: array<Digit>, vo: nat, n: nat, q: array<Digit>, qo: nat)
    requires u != v && q != u && q != v && n >= 2
    requires uo + m + n < u.Length && vo + n < v.Length && qo + m < q.Length
    requires v[vo + 1] >= B / 2
    requires Val(u[..], uo, uo + n) < Val(v[..], vo + 1, vo + n + 1)
    modifies u, q
    ensures old(Val(u[..], uo, uo + m + n + 1))
         == Val(q[..], qo, qo + m + 1) * Val(v[..], vo + 1, vo + n + 1) + Val(u[..], uo, uo + m + n + 1)
    ensures 0 <= Val(u[..], uo, uo + m + n + 1) < Val(v[..], vo + 1, vo + n + 1)
    ensures forall i :: uo <= i <= uo + m ==> u[i] == 0
    ensures forall i :: 0 <= i < u.Length && !(uo <= i <= uo + m + n) ==> u[i] == old(u[i])
    ensures forall i :: 0 <= i < q.Length && !(qo <= i <= qo + m) ==> q[i] == old(q[i])
  {
    ghost var was, qWas, vs := u[..], q[..], v[..];
    ghost var d := Val(vs, vo + 1, vo + n + 1);
    var j := 0;
    assert Val(q[..], qo, qo) * d == 0;
    while j <= m
      invariant 0 <= j <= m + 1 && v[..] == vs
      invariant Progress(was, u[..], qWas, q[..], uo, j, n, qo, d)
    {
      NextDigit(u, uo, v, vo, n, q, qo, j, was, qWas);
      j := j + 1;
    }
    ValBound(u[..], uo, uo + m + n + 1);
  }

  // After j digits: the quotient so far times the divisor, plus the running remainder, is the
  // leading part of the dividend, and the remainder is below the divisor.
  ghost predicate Progress(was: seq<int>, us: seq<int>, qWas: seq<int>, qs: seq<int>, uo: nat, j: nat, n: nat, qo: nat,
                           d: int)
    requires uo + j + n <= |was| == |us| && qo + j <= |qWas| == |qs|
  {
    && Val(was, uo, uo + j + n) == Val(qs, qo, qo + j) * d + Val(us, uo, uo + j + n)
    && Val(us, uo, uo + j + n) < d
    && (forall i :: uo <= i < uo + j ==> us[i] == 0)
    && (forall i :: 0 <= i < |us| && !(uo <= i < uo + j + n) ==> us[i] == was[i])
    && (forall i :: 0 <= i < |qs| && !(qo <= i < qo + j) ==> qs[i] == qWas[i])
  }

  method NextDigit(u: array<Digit>, uo: nat, v: array<Digit>, vo: nat, n: nat, q: array<Digit>, qo: nat, j: nat,
                   ghost was: seq<int>, ghost qWas: seq<int>)
    requires u != v && q != u && q != v && n >= 2
    requires uo + j + n < u.Length == |was| && vo + n < v.Length && qo + j < q.Length == |qWas|
    requires v[vo + 1] >= B / 2
    requires Progress(was, u[..], qWas, q[..], uo, j, n, qo, Val(v[..], vo + 1, vo + n + 1))
    modifies u, q
    ensures Progress(was, u[..], qWas, q[..], uo, j + 1, n, qo, Val(v[..], vo + 1, vo + n + 1))
  {
    ghost var now, qNow, vs := u[..], q[..], v[..];
    ValLeadingZeros(now, uo, uo + j, uo + j + n);
    var digit := DigitStep(u, uo + j, v, vo, n);
    q[qo + j] := digit;
    assert v[..] == vs;
    LoopStep(was, now, u[..], qNow, q[..], uo, j, n, qo, Val(vs, vo + 1, vo + n + 1), vs, vo);
  }

  // One more digit of the dividend, in the quotient and in the remainder.
  lemma LoopStep(was: seq<int>, now: seq<int>, next: seq<int>, qNow: seq<int>, qNext: seq<int>, uo: nat, j: nat,
                 n: nat, qo: nat, d: int, vs: seq<int>, vo: nat)
    requires uo + j + n < |was| == |now| == |next| && qo + j < |qNow| == |qNext|
    requires AllDigits(next) && AllDigits(vs) && vo + n < |vs| && d == Val(vs, vo + 1, vo + n + 1)
    requires forall i :: uo <= i < uo + j ==> now[i] == 0 && next[i] == 0
    requires now[uo + j + n] == was[uo + j + n]
    requires qNext == qNow[qo + j := qNext[qo + j]]
    requires Val(now, uo + j, uo + j + n + 1) == qNext[qo + j] * d + Val(next, uo + j, uo + j + n + 1)
    requires Val(next, uo + j, uo + j + n + 1) < d
    requires Val(was, uo, uo + j + n) == Val(qNow, qo, qo + j) * d + Val(now, uo, uo + j + n)
    ensures Val(was, uo, uo + j + n + 1) == Val(qNext, qo, qo + j + 1) * d + Val(next, uo, uo + j + n + 1)
    ensures Val(next, uo, uo + j + n + 1) < d
    ensures next[uo + j] == 0
  {
    ValSnoc(was, uo, uo + j + n);
    ValSnoc(now, uo, uo + j + n);
    ValLeadingZeros(now, uo, uo + j, uo + j + n + 1);
    ValLeadingZeros(next, uo, uo + j, uo + j + n + 1);
    ValFrame(qNow, qNext, qo, qo + j);
    ValSnoc(qNext, qo, qo + j);
    QuotientGrows(Val(was, uo, uo + j + n), Val(qNow, qo, qo + j), Val(now, uo, uo + j + n), d,
                  was[uo + j + n], qNext[qo + j], Val(next, uo, uo + j + n + 1));
    TopDigitZero(next, uo + j, n, d, vs, vo);
  }

  // A remainder below a divisor of n digits has a leading zero.
  lemma TopDigitZero(next: seq<int>, k: nat, n: nat, d: int, vs: seq<int>, vo: nat)
    requires k + n < |next| && AllDigits(next) && AllDigits(vs) && vo + n < |vs| && d == Val(vs, vo + 1, vo + n + 1)
    requires Val(next, k, k + n + 1) < d
    ensures next[k] == 0
  {
    ValBound(vs, vo + 1, vo + n + 1);
    if next[k] >= 1 {
      ShiftMono(1, next[k], n);
      ValBound(next, k + 1, k + n + 1);
      assert false;
    }
  }

  lemma QuotientGrows(a: int, q: int, r: int, d: int, digit: int, qd: int, r': int)
    requires a == q * d + r && r * B + digit == qd * d + r'
    ensures a * B + digit == (q * B + qd) * d + r'
  {
    assert (q * B + qd) * d == q * d * B + qd * d;
  }

  // ----- Entry point -----

  // Breaks a 64-bit value into the digits a[1..5].
  method LoadDigits(a: array<Digit>, x: int)
    requires a.Length == 5 && 0 <= x < W64
    modifies a
    ensures Val(a[..], 1, 5) == x && a[0] == old(a[0])
  {
    var high, low := x / W32, x % W32;
    a[1] := LHalf(HHalf(high));
    a[2] := LHalf(high);
    a[3] := LHalf(HHalf(low));
    a[4] := LHalf(low);
    FourDigits(a[..]);
  }

  // Reads the digits a[1..5] back as a 64-bit value.
  method StoreDigits(a: array<Digit>) returns (x: int)
    requires a.Length == 5
    ensures x == Val(a[..], 1, 5) && 0 <= x < W64
  {
    x := Combine(a[1], a[2]) * W32 + Combine(a[3], a[4]);
    FourDigits(a[..]);
  }

  // One column of the one-digit division: quotient digit and next partial remainder.
  lemma OneDigitColumn(r: int, digit: Digit, t: Digit)
    requires t > 0 && 0 <= r < t
    ensures var rbj := Combine(r, digit);
      rbj == r * B + digit && rbj == (rbj / t) * t + rbj % t && 0 <= rbj / t < B && 0 <= rbj % t < t
  {
    var rbj := Combine(r, digit);
    QuotientDigit(rbj, t);
  }

  // Exercise 16: schoolbook division by a single digit, fully unrolled.
  method OneDigitDivide(u: array<Digit>, t: Digit) returns (q: int, r: int)
    requires u.Length == 5 && t > 0
    ensures Val(u[..], 1, 5) == q * t + r && 0 <= r < t
  {
    OneDigitColumn(0, u[1], t);
    var q1 := LHalf(u[1] / t);
    var r1 := u[1] % t;
    OneDigitColumn(r1, u[2], t);
    var rbj := Combine(r1, u[2]);
    var q2, r2 := LHalf(rbj / t), rbj % t;
    OneDigitColumn(r2, u[3], t);
    rbj := Combine(r2, u[3]);
    var q3, r3 := LHalf(rbj / t), rbj % t;
    OneDigitColumn(r3, u[4], t);
    rbj := Combine(r3, u[4]);
    var q4 := LHalf(rbj / t);
    r := rbj % t;
    q := Combine(q1, q2) * W32 + Combine(q3, q4);
    FourDigits(u[..]);
    QuotientGrows(u[1], q1, r1, t, u[2], q2, r2);
    QuotientGrows(u[1] * B + u[2], q1 * B + q2, r2, t, u[3], q3, r3);
    QuotientGrows((u[1] * B + u[2]) * B + u[3], (q1 * B + q2) * B + q3, r3, t, u[4], q4, r);
  }

  // With at least as large a dividend as divisor, the dividend has at least n significant digits.
  lemma EnoughDigits(us: seq<int>, vs: seq<int>, n: nat)
    requires |us| == |vs| == 5 && AllDigits(us) && AllDigits(vs) && 2 <= n <= 4
    requires forall i :: 1 <= i <= 5 - n ==> us[i] == 0
    requires vs[5 - n] != 0
    ensures Val(us, 1, 5) < Val(vs, 1, 5)
  {
    ValLeadingZeros(us, 1, 6 - n, 5);
    ValBound(us, 6 - n, 5);
    ValSplit(vs, 1, 5 - n, 5);
    ValBound(vs, 1, 5 - n);
    ShiftMono(0, Val(vs, 1, 5 - n), n);
    ValBound(vs, 6 - n, 5);
    ShiftMono(1, vs[5 - n], n - 1);
  }

  lemma BelowHalf(d: int, uq: int, p: int)
    requires 0 < d <= B / 2 && 0 <= uq < p
    ensures d * uq < (B / 2) * p
  {
    MulMono(uq, p - 1, d);
    MulMono(d, B / 2, p);
  }

  // Before the first step, the n leading digits of the shifted dividend are below the divisor.
  lemma FirstStepReady(us: seq<int>, uo: nat, m: nat, vs: seq<int>, vo: nat, n: nat, d: nat, uq: int)
    requires n >= 2 && uo + m + n + 1 <= |us| && vo + n < |vs| && AllDigits(us) && AllDigits(vs) && d <= 15
    requires Val(us, uo, uo + m + n + 1) == Pow2(d) * uq && 0 <= uq < Shift(1, m + n)
    requires vs[vo + 1] >= B / 2
    ensures Val(us, uo, uo + n) < Val(vs, vo + 1, vo + n + 1)
  {
    Pow2Half();
    Pow2Add(d, 15 - d);
    MulMono(1, Pow2(15 - d), Pow2(d));
    assert Pow2(d) <= B / 2;
    BelowHalf(Pow2(d), uq, Shift(1, m + n));
    ShiftIsProduct(B / 2, m + n);
    ShiftShift(B / 2, n - 1, m + 1);
    PrefixBelow(us, uo, uo + n, uo + m + n + 1, Shift(B / 2, n - 1));
    ShiftMono(B / 2, vs[vo + 1], n - 1);
    ValBound(vs, vo + 2, vo + n + 1);
  }

  // Dividing the shifted operands gives the same quotient and the shifted remainder.
  lemma CancelShift(d: int, uq: int, vq: int, q: int, rr: int)
    requires d > 0 && vq > 0 && d * uq == q * (d * vq) + rr && 0 <= rr < d * vq
    ensures q == uq / vq && rr == d * (uq % vq)
  {
    var r := uq - q * vq;
    assert q * (d * vq) == d * (q * vq);
    assert rr == d * r;
    if r <= -1 { MulMono(r, -1, d); assert false; }
    if r >= vq { MulMono(vq, r, d); assert false; }
    DivUnique(uq, vq, q, r);
  }

  /** __qdivrem: quotient of two 64-bit values, and the remainder when it is asked for. */
  method QDivRem(uq: int, vq: int, wantRem: bool) returns (q: int, rem: Option<int>)
    requires 0 <= uq < W64 && 0 <= vq < W64
    ensures vq == 0 ==> q == 0
    ensures vq != 0 ==> q == uq / vq
    ensures rem == if !wantRem then None else if vq == 0 then Some(uq) else Some(uq % vq)
  {
    if vq == 0 {
      return 0, if wantRem then Some(uq) else None;
    }
    if uq < vq {
      DivUnique(uq, vq, 0, uq);
      return 0, if wantRem then Some(uq) else None;
    }
    var u, v, qs := new Digit[5], new Digit[5], new Digit[5];
    u[0] := 0;
    LoadDigits(u, uq);
    LoadDigits(v, vq);
    var n, vo := 4, 0;
    while v[vo + 1] == 0
      invariant 2 <= n <= 4 && vo == 4 - n
      invariant Val(u[..], 1, 5) == uq && Val(v[..], 1, 5) == vq && u[0] == 0
      invariant forall i :: 1 <= i <= vo ==> v[i] == 0
      decreases n
    {
      n := n - 1;
      if n == 1 {
        var t := v[vo + 2];
        FourDigits(v[..]);
        var r;
        q, r := OneDigitDivide(u, t);
        DivUnique(uq, vq, q, r);
        return q, if wantRem then Some(r) else None;
      }
      vo := vo + 1;
    }
    q, rem := LongDivide(uq, vq, wantRem, u, v, vo, n, qs);
  }

  // Skips the leading zero digits of the dividend.
  method SkipZeros(u: array<Digit>, v: array<Digit>, n: nat) returns (m: nat, uo: nat)
    requires u.Length == v.Length == 5 && 2 <= n <= 4 && v[5 - n] != 0 && u[0] == 0
    requires Val(v[..], 1, 5) <= Val(u[..], 1, 5)
    ensures uo + m == 4 - n && forall i :: 0 <= i <= uo ==> u[i] == 0
    ensures Val(u[..], uo, 5) == Val(u[..], 1, 5) == Val(u[..], uo + 1, 5)
  {
    m, uo := 4 - n, 0;
    while u[uo + 1] == 0
      invariant 0 <= m && uo + m == 4 - n
      invariant forall i :: 0 <= i <= uo ==> u[i] == 0
      decreases m
    {
      if m == 0 {
        EnoughDigits(u[..], v[..], n);
        assert false;
      }
      m := m - 1;
      uo := uo + 1;
    }
    ValLeadingZeros(u[..], 1, uo + 1, 5);
    ValLeadingZeros(u[..], uo, uo + 1, 5);
  }

  method ZeroPrefix(q: array<Digit>, k: nat)
    requires k <= q.Length
    modifies q
    ensures forall a :: 0 <= a < k ==> q[a] == 0
  {
    var i := k - 1;
    while i >= 0
      invariant -1 <= i < k
      invariant forall a :: i < a < k ==> q[a] == 0
    {
      q[i] := 0;
      i := i - 1;
    }
  }

  // The part of __qdivrem for divisors of two to four digits.
  method LongDivide(uq: int, vq: int, wantRem: bool, u: array<Digit>, v: array<Digit>, vo: nat, n: nat,
                    qs: array<Digit>)
    returns (q: int, rem: Option<int>)
    requires u.Length == v.Length == qs.Length == 5 && u != v && u != qs && v != qs
    requires 2 <= n <= 4 && vo == 4 - n && v[vo + 1] != 0 && u[0] == 0
    requires forall i :: 1 <= i <= vo ==> v[i] == 0
    requires Val(u[..], 1, 5) == uq && Val(v[..], 1, 5) == vq && 0 < vq <= uq
    modifies u, v, qs
    ensures q == uq / vq
    ensures rem == if wantRem then Some(uq % vq) else None
  {
    ghost var us, vs := u[..], v[..];
    var m, uo := SkipZeros(u, v, n);
    ZeroPrefix(qs, 4 - m);
    assert u[..] == us && v[..] == vs;
    ValLeadingZeros(vs, 1, vo + 1, 5);
    ValBound(us, uo + 1, 5);
    var d := Normalise(u, uo, m, v, vo, n);
    FirstStepReady(u[..], uo, m, v[..], vo, n, d, uq);
    q, rem := DivideNormalised(uq, vq, wantRem, u, uo, m, v, vo, n, d, qs);
  }

  // The division proper, on operands scaled by 2^d.
  method DivideNormalised(uq: int, vq: int, wantRem: bool, u: array<Digit>, uo: nat, m: nat, v: array<Digit>, vo: nat,
                          n: nat, d: nat, qs: array<Digit>)
    returns (q: int, rem: Option<int>)
    requires u.Length == v.Length == qs.Length == 5 && u != v && u != qs && v != qs
    requires 2 <= n <= 4 && vo == 4 - n == uo + m && d <= 15 && v[vo + 1] >= B / 2
    requires forall i :: 0 <= i < uo ==> u[i] == 0
    requires forall i :: 0 <= i < 4 - m ==> qs[i] == 0
    requires Val(u[..], uo, 5) == Pow2(d) * uq && Val(v[..], vo + 1, 5) == Pow2(d) * vq && vq > 0
    requires Val(u[..], uo, uo + n) < Val(v[..], vo + 1, 5)
    modifies u, qs
    ensures q == uq / vq
    ensures rem == if wantRem then Some(uq % vq) else None
  {
    DivideDigits(u, uo, m, v, vo, n, qs, 4 - m);
    ghost var quot := Val(qs[..], 4 - m, 5);
    CancelShift(Pow2(d), uq, vq, quot, Val(u[..], uo, 5));
    ValLeadingZeros(qs[..], 1, 4 - m, 5);
    q := StoreDigits(qs);
    rem := None;
    if wantRem {
      var r := TakeRemainder(u, uo, m, n, d, uq % vq);
      rem := Some(r);
    }
  }

  // Undoes the normalisation on the remainder and reads it.
  method TakeRemainder(u: array<Digit>, uo: nat, m: nat, n: nat, d: nat, ghost r: int) returns (x: int)
    requires u.Length == 5 && uo + m + n == 4 && 2 <= n && d <= 15
    requires forall i :: 0 <= i <= uo + m ==> u[i] == 0
    requires Val(u[..], uo, 5) == Pow2(d) * r
    modifies u
    ensures x == r
  {
    ValLeadingZeros(u[..], uo, uo + m, 5);
    if d > 0 {
      Shr(u, uo + m, n, d, r);
    } else {
      ValLeadingZeros(u[..], uo, uo + m + 1, 5);
    }
    assert forall a :: 1 <= a < uo + m + 1 ==> u[a] == 0;
    ValLeadingZeros(u[..], 1, uo + m + 1, 5);
    x := StoreDigits(u);
  }

  /** __umoddi3 and __udivdi3: the two callers the compiler emits. */
  method UModDi3(a: int, b: int) returns (r: int)
    requires 0 <= a < W64 && 0 <= b < W64
    ensures b != 0 ==> r == a % b
    ensures b == 0 ==> r == a
  {
    var q, rem := QDivRem(a, b, true);
    r := rem.value;
  }

  method UDivDi3(a: int, b: int) returns (q: int)
    requires 0 <= a < W64 && 0 <= b < W64
    ensures b != 0 ==> q == a / b
    ensures b == 0 ==> q == 0
  {
    var rem;
    q, rem := QDivRem(a, b, false);
  }

  // ----- The shift-subtract form -----

  /** __udivmoddi4. A zero divisor makes the source divide by zero itself: None. */
  method UDivModDi4(num0: int, den0: int) returns (res: Option<(int, int)>)
    requires 0 <= num0 < W64 && 0 <= den0 < W64
    ensures den0 == 0 <==> res == None
    ensures den0 != 0 ==> res == Some((num0 / den0, num0 % den0))
  {
    if den0 == 0 {
      return None;
    }
    var num, den, quot, qbit := num0, den0, 0, 1;
    ghost var k := 0;
    while den < W64 / 2
      invariant 0 < den < W64 && qbit == Pow2(k) && den == den0 * qbit
      decreases W64 - den
    {
      den := den * 2;
      qbit := qbit * 2;
      k := k + 1;
      DoubleProduct(den0, qbit / 2);
    }
    k := k + 1;
    while qbit != 0
      invariant k >= 0 && 0 <= num && qbit == (if k == 0 then 0 else Pow2(k - 1))
      invariant k > 0 ==> den == den0 * qbit && num < 2 * den && 0 < den
      invariant num + quot * den0 == num0
      invariant k == 0 ==> num < den0
      decreases k
    {
      if den <= num {
        num := num - den;
        SubtractStep(quot, qbit, den0);
        quot := quot + qbit;
      }
      if k == 1 {
        assert qbit == 1;
      } else {
        DoubleProduct(den0, qbit / 2);
      }
      den := den / 2;
      qbit := qbit / 2;
      k := k - 1;
    }
    DivUnique(num0, den0, quot, num);
    res := Some((quot, num));
  }

  lemma DoubleProduct(a: int, b: int)
    ensures a * (2 * b) == 2 * (a * b)
  {
  }

  lemma SubtractStep(quot: int, qbit: int, den0: int)
    ensures (quot + qbit) * den0 == quot * den0 + den0 * qbit
  {
  }
}
