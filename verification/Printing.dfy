/** Number printing (lib/uitoa.c, lib/itoa.c) and the parser that inverts it. */
module Printing {

  import opened Basics

  const I63: int := 0x8000_0000_0000_0000

  const HEX_TABLE: string := "0123456789ABCDEF"

  function HexDigit(d: int): (c: char)
    requires 0 <= d < 16
  {
    if d < 10 then ('0' as int + d) as char else ('A' as int + d - 10) as char
  }

  // The digits of i in the given base, most significant first; "0" for zero.
  function Positional(i: nat, base: int): (s: string)
    requires 2 <= base <= 16
    ensures |s| >= 1
    decreases i
  {
    if i < base then [HexDigit(i)]
    else
      QuotientSmaller(i, base);
      Positional(i / base, base) + [HexDigit(i % base)]
  }

  lemma QuotientSmaller(i: nat, base: int)
    requires 2 <= base && 0 < i
    ensures 0 <= i / base <= i / 2 < i && i == (i / base) * base + i % base && 0 <= i % base < base
    ensures i >= base ==> i / base >= 1
    ensures i < base ==> i / base == 0 && i % base == i
  {
    var q, r := i / base, i % base;
    assert i == q * base + r;
    HalfBound(q, base, i);
  }

  lemma HalfBound(q: int, base: int, i: int)
    requires 2 <= base && q * base <= i && 0 <= i
    ensures q <= i / 2
  {
    if q >= 0 {
      assert q * base >= q * 2;
    }
  }

  function DigitValue(c: char): int {
    if '0' <= c <= '9' then c as int - '0' as int
    else if 'A' <= c <= 'F' then c as int - 'A' as int + 10
    else -1
  }

  function Parse(s: string, base: int): int {
    if s == "" then 0 else Parse(s[..|s| - 1], base) * base + DigitValue(s[|s| - 1])
  }

  lemma DigitOfHex(d: int)
    requires 0 <= d < 16
    ensures DigitValue(HexDigit(d)) == d && HexDigit(d) != '-' && (HexDigit(d) == '0' <==> d == 0)
  {
  }

  lemma HexTable(d: int)
    requires 0 <= d < 16
    ensures HEX_TABLE[d] == HexDigit(d)
  {
    if d == 0 {} else if d == 1 {} else if d == 2 {} else if d == 3 {}
    else if d == 4 {} else if d == 5 {} else if d == 6 {} else if d == 7 {}
    else if d == 8 {} else if d == 9 {} else if d == 10 {} else if d == 11 {}
    else if d == 12 {} else if d == 13 {} else if d == 14 {} else {}
  }

  lemma ParseSnoc(s: string, c: char, base: int)
    ensures Parse(s + [c], base) == Parse(s, base) * base + DigitValue(c)
  {
    assert (s + [c])[..|s|] == s;
  }

  /** Parsing the printed digits gives the value back. */
  lemma {:induction false} ParsePositional(i: nat, base: int)
    requires 2 <= base <= 16
    ensures Parse(Positional(i, base), base) == i
    decreases i
  {
    if i < base {
      DigitOfHex(i);
      ParseSnoc("", HexDigit(i), base);
      assert "" + [HexDigit(i)] == [HexDigit(i)];
      assert 0 * base == 0;
    } else {
      QuotientSmaller(i, base);
      ParsePositional(i / base, base);
      DigitOfHex(i % base);
      ParseSnoc(Positional(i / base, base), HexDigit(i % base), base);
    }
  }

  /** The printed form has no leading zero (except "0" itself) and no sign. */
  lemma {:induction false} NoLeadingZero(i: nat, base: int)
    requires 2 <= base <= 16
    ensures Positional(i, base)[0] != '-'
    ensures Positional(i, base)[0] == '0' <==> i == 0
    decreases i
  {
    if i < base {
      DigitOfHex(i);
    } else {
      QuotientSmaller(i, base);
      NoLeadingZero(i / base, base);
    }
  }

  lemma {:induction false} LengthBound(i: nat, base: int, k: nat)
    requires 2 <= base <= 16 && i < Pow2(k)
    ensures |Positional(i, base)| <= if k == 0 then 1 else k
    decreases k
  {
    if i >= base {
      QuotientSmaller(i, base);
      assert Pow2(k) == 2 * Pow2(k - 1);
      LengthBound(i / base, base, k - 1);
    }
  }

  lemma Pow2At64()
    ensures Pow2(64) == W64
  {
    assert Pow2(8) == 0x100;
    assert Pow2(16) == 0x1_0000;
    assert Pow2(24) == 0x100_0000;
    assert Pow2(32) == 0x1_0000_0000;
    assert Pow2(40) == 0x100_0000_0000;
    assert Pow2(48) == 0x1_0000_0000_0000;
    assert Pow2(56) == 0x100_0000_0000_0000;
  }

  /** Every 64-bit value prints in at most 64 digits. */
  lemma AtMost64Digits(i: nat, base: int)
    requires 2 <= base <= 16 && i < W64
    ensures |Positional(i, base)| <= 64
  {
    Pow2At64();
    LengthBound(i, base, 64);
  }

  // What uitoa leaves in the buffer, terminator excluded. Bases above 16 print as zero.
  function Printed(i: nat, base: int): (s: string)
    requires i == 0 || 2 <= base
  {
    if i == 0 || base > 16 then "0" else Positional(i, base)
  }

  /** uitoa: prints i at buf[off..] followed by a NUL. A non-zero value needs a base of at least two
      (the source divides by the base and otherwise does not terminate). */
  method UIToA(i: nat, buf: array<char>, off: nat, base: int)
    requires i < W64 && 0 <= base
    requires i == 0 || 2 <= base
    requires off + |Printed(i, base)| < buf.Length
    modifies buf
    ensures buf[..] == old(buf[..off]) + Printed(i, base) + ['\0'] + old(buf[off + |Printed(i, base)| + 1..])
  {
    if i == 0 || base > 16 {
      PrintZero(buf, off);
    } else {
      PrintDigits(i, buf, off, base, Positional(i, base));
    }
  }

  method PrintZero(buf: array<char>, off: nat)
    requires off + 1 < buf.Length
    modifies buf
    ensures buf[..] == old(buf[..off]) + "0" + ['\0'] + old(buf[off + 2..])
  {
    buf[off] := '0';
    buf[off + 1] := '\0';
  }

  // The digits go through a temporary buffer of 128 characters.
  method PrintDigits(i: nat, buf: array<char>, off: nat, base: int, ghost digits: string)
    requires 0 < i < W64 && 2 <= base <= 16 && digits == Positional(i, base) && off + |digits| < buf.Length
    modifies buf
    ensures buf[..] == old(buf[..off]) + digits + ['\0'] + old(buf[off + |digits| + 1..])
  {
    ghost var was := buf[..];
    AtMost64Digits(i, base);
    var tmp := new char[128];
    var top := FillDigits(i, base, tmp);
    CopyReversed(tmp, top, buf, off, digits);
    buf[off + top] := '\0';
    WrittenText(was, buf[..], off, digits);
  }

  // A buffer that differs only in the text and its terminator.
  lemma WrittenText(was: string, now: string, off: nat, text: string)
    requires |was| == |now| && off + |text| < |was| && now[off + |text|] == '\0'
    requires forall k :: 0 <= k < |text| ==> now[off + k] == text[k]
    requires forall k :: 0 <= k < |was| && !(off <= k <= off + |text|) ==> now[k] == was[k]
    ensures now == was[..off] + text + ['\0'] + was[off + |text| + 1..]
  {
    assert now[off..off + |text|] == text;
    assert now == now[..off] + now[off..off + |text|] + now[off + |text|..off + |text| + 1] + now[off + |text| + 1..];
  }

  // The digits of i, least significant first, into the temporary buffer.
  method FillDigits(i: nat, base: int, tmp: array<char>) returns (pos: nat)
    requires 2 <= base <= 16 && 0 < i && |Positional(i, base)| <= tmp.Length
    modifies tmp
    ensures pos == |Positional(i, base)|
    ensures forall k :: 0 <= k < pos ==> tmp[k] == Positional(i, base)[pos - 1 - k]
  {
    pos := 0;
    var rest := i;
    ghost var digits := Positional(i, base);
    while rest != 0
      invariant 0 <= rest && 0 <= pos <= |digits|
      invariant rest > 0 ==> pos < |digits| && Positional(rest, base) == digits[..|digits| - pos]
      invariant rest == 0 ==> pos == |digits|
      invariant forall k :: 0 <= k < pos ==> tmp[k] == digits[|digits| - 1 - k]
      decreases rest
    {
      rest := TakeDigit(rest, base, tmp, pos, digits);
      pos := pos + 1;
    }
  }

  // Copies tmp[..top] backwards to buf[off..off+top].
  method CopyReversed(tmp: array<char>, top: nat, buf: array<char>, off: nat, ghost digits: string)
    requires tmp != buf && 1 <= top == |digits| <= tmp.Length && off + top <= buf.Length
    requires forall k :: 0 <= k < top ==> tmp[k] == digits[top - 1 - k]
    modifies buf
    ensures forall k :: 0 <= k < top ==> buf[off + k] == digits[k]
    ensures forall k :: 0 <= k < buf.Length && !(off <= k < off + top) ==> buf[k] == old(buf[k])
  {
    var pos, opos := top - 1, 0;
    while opos < top
      invariant 0 <= opos <= top && pos == top - 1 - opos
      invariant forall k :: 0 <= k < opos ==> buf[off + k] == digits[k]
      invariant forall k :: 0 <= k < buf.Length && !(off <= k < off + opos) ==> buf[k] == old(buf[k])
    {
      buf[off + opos] := tmp[pos];
      pos := pos - 1;
      opos := opos + 1;
    }
  }

  // One pass of the digit loop: the last unprinted digit goes to tmp[pos].
  method TakeDigit(i: nat, base: int, tmp: array<char>, pos: nat, ghost digits: string) returns (rest: nat)
    requires 2 <= base <= 16 && 0 < i && pos < |digits| && pos < tmp.Length
    requires Positional(i, base) == digits[..|digits| - pos]
    modifies tmp
    ensures tmp[pos] == digits[|digits| - 1 - pos]
    ensures forall k :: 0 <= k < tmp.Length && k != pos ==> tmp[k] == old(tmp[k])
    ensures rest < i
    ensures rest > 0 ==> pos + 1 < |digits| && Positional(rest, base) == digits[..|digits| - pos - 1]
    ensures rest == 0 ==> pos + 1 == |digits|
  {
    ghost var p := Positional(i, base);
    QuotientSmaller(i, base);
    HexTable(i % base);
    assert p[|p| - 1] == HexDigit(i % base);
    tmp[pos] := HEX_TABLE[i % base];
    rest := i / base;
    if rest > 0 {
      assert p[..|p| - 1] == Positional(rest, base);
    }
  }

  // Conversion of a signed 64-bit value to unsigned, and negation with wrap-around.
  function ToUnsigned(i: int): nat {
    i % W64
  }

  function Negate(i: int): int
    requires -I63 <= i < I63
  {
    if i == -I63 then -I63 else -i
  }

  function PrintedSigned(i: int, base: int): (s: string)
    requires -I63 <= i < I63 && 2 <= base
  {
    if base == 10 && i < 0 then "-" + Printed(ToUnsigned(Negate(i)), base)
    else Printed(ToUnsigned(i), base)
  }

  lemma SignInFront(was: string, signed: string, now: string, text: string)
    requires 1 + |text| < |was| && signed == was[0 := '-']
    requires now == signed[..1] + text + ['\0'] + signed[|text| + 2..]
    ensures now == "-" + text + ['\0'] + was[|text| + 2..]
  {
    assert signed[..1] == "-" && signed[|text| + 2..] == was[|text| + 2..];
  }

  /** itoa: a base above 16 leaves the buffer untouched; only base 10 prints a sign. */
  method IToA(i: int, buf: array<char>, base: int)
    requires -I63 <= i < I63 && 0 <= base
    requires i == 0 || 2 <= base
    requires 2 <= base <= 16 ==> |PrintedSigned(i, base)| < buf.Length
    requires i == 0 ==> 2 <= buf.Length
    modifies buf
    ensures base > 16 ==> buf[..] == old(buf[..])
    ensures 2 <= base <= 16 ==>
      buf[..] == PrintedSigned(i, base) + ['\0'] + old(buf[|PrintedSigned(i, base)| + 1..])
  {
    if base > 16 {
      return;
    }
    var off, value := 0, i;
    ghost var was := buf[..];
    if base == 10 && i < 0 {
      buf[0] := '-';
      off := 1;
      value := Negate(i);
    }
    ghost var signed := buf[..];
    UIToA(ToUnsigned(value), buf, off, base);
    if off == 1 { SignInFront(was, signed, buf[..], Printed(ToUnsigned(value), base)); }
  }

  // The inverse of printing a signed value.
  function ParseSigned(s: string, base: int): int {
    if s != "" && s[0] == '-' then -Parse(s[1..], base)
    else
      var x := Parse(s, base);
      if x < I63 then x else x - W64
  }

  lemma PrintedForm(x: nat, base: int)
    requires 2 <= base <= 16
    ensures Printed(x, base) != "" && Printed(x, base)[0] != '-' && Parse(Printed(x, base), base) == x
  {
    ParsePositional(x, base);
    NoLeadingZero(x, base);
    assert x == 0 ==> Positional(x, base) == "0";
  }

  lemma Unsigned(i: int)
    requires -I63 <= i < I63
    ensures ToUnsigned(i) == if i < 0 then W64 + i else i
    ensures i < 0 ==> ToUnsigned(Negate(i)) == -i
  {
  }

  /** A sign is printed in base 10 for a negative value and never otherwise. The digits are those of the absolute value
      behind a sign, and of the two's complement without one. */
  lemma SignOnlyInTen(i: int, base: int)
    requires -I63 <= i < I63 && 2 <= base <= 16
    ensures var s := PrintedSigned(i, base);
      && s != "" && (s[0] == '-' <==> base == 10 && i < 0)
      && (s[0] == '-' ==> Parse(s[1..], base) == -i)
      && (s[0] != '-' ==> Parse(s, base) == if i < 0 then W64 + i else i)
  {
    var x := ToUnsigned(if base == 10 && i < 0 then Negate(i) else i);
    Unsigned(i);
    PrintedForm(x, base);
    if base == 10 && i < 0 {
      assert PrintedSigned(i, base)[1..] == Printed(x, base);
    }
  }

  /** Every signed 64-bit value is recovered from its printed form, in every base, including the most
      negative value, whose negation wraps to itself. */
  lemma ParsePrintedSigned(i: int, base: int)
    requires -I63 <= i < I63 && 2 <= base <= 16
    ensures ParseSigned(PrintedSigned(i, base), base) == i
  {
    SignOnlyInTen(i, base);
  }

  /** Printing is injective. */
  lemma PrintingInjective(i: int, j: int, base: int)
    requires -I63 <= i < I63 && -I63 <= j < I63 && 2 <= base <= 16
    requires PrintedSigned(i, base) == PrintedSigned(j, base)
    ensures i == j
  {
    ParsePrintedSigned(i, base);
    ParsePrintedSigned(j, base);
  }
}
