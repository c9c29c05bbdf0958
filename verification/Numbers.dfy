// Numbers as text in student-distrib/lib.c: itoa, the in-place strrev it ends with, and
// the padded %#x conversion of printf.

module Numbers {
  import opened Memory

  const ZERO: Byte := 48
  const WORD := 0x1_0000_0000

  /** The character of a digit: 0-9, then A-Z. */
  function Symbol(d: int): Byte
    requires 0 <= d < 36
  {
    if d < 10 then 48 + d else 55 + d
  }

  predicate IsSymbol(c: Byte, radix: int) {
    (48 <= c < 58 && c - 48 < radix) || (65 <= c < 91 && c - 55 < radix)
  }

  function Digit(c: Byte): int {
    if c < 58 then c - 48 else c - 55
  }

  /** The number a string of digits stands for, most significant digit first. */
  function Value(s: seq<Byte>, radix: int): int {
    if s == [] then 0 else Value(s[..|s| - 1], radix) * radix + Digit(s[|s| - 1])
  }

  function Reversed<T>(s: seq<T>): (r: seq<T>)
    ensures |r| == |s| && forall i :: 0 <= i < |s| ==> r[i] == s[|s| - 1 - i]
  {
    seq(|s|, i requires 0 <= i < |s| => s[|s| - 1 - i])
  }

  /** The digits of `v` as itoa produces them, lowest place first. */
  function LowFirst(v: nat, radix: int): (r: seq<Byte>)
    requires 2 <= radix <= 36
    ensures forall i :: 0 <= i < |r| ==> IsSymbol(r[i], radix)
    ensures v > 0 ==> r != [] && r[|r| - 1] != ZERO
    decreases v
  {
    if v == 0 then []
    else
      DivSmaller(v, radix);
      [Symbol(v % radix)] + LowFirst(v / radix, radix)
  }

  /** The text of a number. */
  function Text(v: nat, radix: int): (r: seq<Byte>)
    requires 2 <= radix <= 36
  {
    if v == 0 then [ZERO] else Reversed(LowFirst(v, radix))
  }

  lemma DivSmaller(v: nat, radix: int)
    requires v > 0 && radix >= 2
    ensures 0 <= v / radix < v && 0 <= v % radix < radix && v == (v / radix) * radix + v % radix
    ensures v < radix ==> v / radix == 0 && v % radix == v
  {
    var q, r := v / radix, v % radix;
    assert v == q * radix + r;
    if q >= 1 {
      assert q * radix == 2 * q + q * (radix - 2);
    }
  }

  function Pow(b: nat, k: nat): nat {
    if k == 0 then 1 else b * Pow(b, k - 1)
  }

  /** A number below radix^k has at most k digits. */
  lemma {:induction false} DigitCount(v: nat, radix: int, k: nat)
    requires 2 <= radix <= 36 && v < Pow(radix, k)
    ensures |LowFirst(v, radix)| <= k
    decreases v
  {
    if v > 0 {
      DivSmaller(v, radix);
      assert k > 0;
      QuotientBelow(v, radix, Pow(radix, k - 1));
      DigitCount(v / radix, radix, k - 1);
    }
  }

  lemma QuotientBelow(v: nat, radix: int, p: nat)
    requires radix >= 2 && v < radix * p
    ensures v / radix < p
  {
    var q := v / radix;
    assert q * radix <= v;
    if q >= p {
      Scaled(p, q, radix);
    }
  }

  lemma Scaled(a: nat, b: nat, k: nat)
    requires a <= b
    ensures a * k <= b * k && k * a <= k * b
  {
    assert b * k == a * k + (b - a) * k;
  }

  lemma {:induction false} PowGrows(b: nat, c: nat, k: nat)
    requires b <= c
    ensures Pow(b, k) <= Pow(c, k)
  {
    if k > 0 {
      PowGrows(b, c, k - 1);
      Scaled(Pow(b, k - 1), Pow(c, k - 1), b);
      Scaled(b, c, Pow(c, k - 1));
    }
  }

  lemma {:induction false} LowFirstValue(v: nat, radix: int)
    requires 2 <= radix <= 36
    ensures Value(Reversed(LowFirst(v, radix)), radix) == v
    decreases v
  {
    if v > 0 {
      DivSmaller(v, radix);
      LowFirstValue(v / radix, radix);
      var s, rest := Reversed(LowFirst(v, radix)), Reversed(LowFirst(v / radix, radix));
      assert s == rest + [Symbol(v % radix)] && s[..|s| - 1] == rest;
    }
  }

  /** The text of a 32-bit number reads back as the number, has no leading zero and at most 32 digits. */
  lemma TextIsNumeral(v: nat, radix: int)
    requires 2 <= radix <= 36 && v < WORD
    ensures var s := Text(v, radix);
      Value(s, radix) == v && 1 <= |s| <= 32 && (v > 0 ==> s[0] != ZERO) &&
      forall i :: 0 <= i < |s| ==> IsSymbol(s[i], radix)
  {
    LowFirstValue(v, radix);
    PowerOfTwo();
    PowGrows(2, radix, 32);
    DigitCount(v, radix, 32);
  }

  lemma PowerOfTwo()
    ensures Pow(2, 32) == WORD && Pow(16, 8) == WORD
  {
    assert Pow(2, 8) == 256;
    assert Pow(2, 16) == 0x1_0000;
    assert Pow(2, 24) == 0x100_0000;
    assert Pow(16, 4) == 0x1_0000;
  }

  // ---- The routines ----

  method Strlen(buf: array<Byte>, at: nat, ghost end: nat) returns (len: nat)
    requires at <= end < buf.Length && buf[end] == 0 && 0 !in buf[at..end]
    ensures len == end - at
  {
    assert forall k :: at <= k < end ==> buf[k] == buf[at..end][k - at] != 0;
    len := 0;
    while buf[at + len] != 0
      invariant at + len <= end
      decreases end - len
    {
      len := len + 1;
    }
  }

  /** `s` with the outer `n` characters on both sides exchanged. */
  ghost function Turned(s: seq<Byte>, n: nat): (r: seq<Byte>)
    ensures |r| == |s|
  {
    seq(|s|, i requires 0 <= i < |s| => if i < n || i >= |s| - n then s[|s| - 1 - i] else s[i])
  }

  lemma TurnEnds(s: seq<Byte>)
    ensures Turned(s, 0) == s
    ensures forall n: nat :: 2 * n >= |s| - 1 ==> Turned(s, n) == Reversed(s)
  {
  }

  /** One exchange inside a longer sequence. */
  lemma SwapTurns(was: seq<Byte>, at: nat, s: seq<Byte>, i: nat, j: nat, b: seq<Byte>, b': seq<Byte>)
    requires at + |s| <= |was| && i < j && i + j == |s| - 1 && b == Blit(was, at, Turned(s, i))
    requires b' == b[at + i := b[at + j]][at + j := b[at + i]]
    ensures b' == Blit(was, at, Turned(s, i + 1))
  {
  }

  method Swap(buf: array<Byte>, i: nat, j: nat)
    requires i < buf.Length && j < buf.Length
    modifies buf
    ensures buf[..] == old(buf[..])[i := old(buf[..])[j]][j := old(buf[..])[i]]
  {
    buf[i], buf[j] := buf[j], buf[i];
  }

  /** One turn of the loop of strrev; `s` is the string before the loop. */
  method SwapEnds(buf: array<Byte>, at: nat, beg: nat, last: nat, ghost was: seq<Byte>, ghost s: seq<Byte>)
    requires at + |s| <= |was| == buf.Length && beg < last && beg + last == |s| - 1
    requires buf[..] == Blit(was, at, Turned(s, beg))
    modifies buf
    ensures buf[..] == Blit(was, at, Turned(s, beg + 1))
  {
    SwapTurns(was, at, s, beg, last, buf[..], buf[..][at + beg := buf[at + last]][at + last := buf[at + beg]]);
    Swap(buf, at + beg, at + last);
  }

  /** The loop of strrev. */
  method TurnAround(buf: array<Byte>, at: nat, len: nat, ghost s: seq<Byte>)
    requires at + len <= buf.Length && s == buf[at..at + len]
    modifies buf
    ensures buf[..] == Blit(old(buf[..]), at, Reversed(s))
  {
    ghost var was := buf[..];
    TurnEnds(s);
    assert was == Blit(was, at, s);
    var beg: nat, last: int := 0, len as int - 1;
    while beg < last
      invariant beg <= last + 1 && beg + last + 1 == len && buf[..] == Blit(was, at, Turned(s, beg))
    {
      SwapEnds(buf, at, beg, last, was, s);
      beg, last := beg + 1, last - 1;
    }
  }

  /** strrev: the string that ends in the NUL at `end` is turned around in place. */
  method Strrev(buf: array<Byte>, at: nat, ghost end: nat)
    requires at <= end < buf.Length && buf[end] == 0 && 0 !in buf[at..end]
    modifies buf
    ensures buf[..] == Blit(old(buf[..]), at, Reversed(old(buf[at..end])))
  {
    var len := Strlen(buf, at, end);
    TurnAround(buf, at, len, buf[at..end]);
  }

  /** strrev undoes itself. */
  lemma ReversedTwice(s: seq<Byte>)
    ensures Reversed(Reversed(s)) == s
  {
  }

  /** The digits of a positive number, lowest place first, and a NUL. */
  method WriteDigits(value: nat, buf: array<Byte>, at: nat, radix: int)
    requires 0 < value && 2 <= radix <= 36 && at + |LowFirst(value, radix)| < buf.Length
    modifies buf
    ensures buf[..] == Blit(old(buf[..]), at, LowFirst(value, radix) + [0])
  {
    ghost var digits := LowFirst(value, radix);
    var newval, n := value, 0;
    while newval > 0
      invariant 0 <= newval && n + |LowFirst(newval, radix)| == |digits| && digits[n..] == LowFirst(newval, radix)
      invariant forall i :: 0 <= i < buf.Length ==> buf[i] == if at <= i < at + n then digits[i - at] else old(buf[i])
      decreases newval
    {
      DivSmaller(newval, radix);
      assert digits[n] == digits[n..][0] && digits[n + 1..] == digits[n..][1..];
      buf[at + n] := Symbol(newval % radix);
      n, newval := n + 1, newval / radix;
    }
    buf[at + n] := 0;
  }

  lemma BlitOver(s: seq<Byte>, at: nat, t: seq<Byte>, u: seq<Byte>)
    requires at + |t| < |s| && |u| == |t|
    ensures Blit(Blit(s, at, t + [0]), at, u) == Blit(s, at, u + [0])
  {
  }

  /** itoa into `buf` from index `at` on; it returns the index of the terminating NUL. */
  method Itoa(value: nat, buf: array<Byte>, at: nat, radix: int) returns (ghost end: nat)
    requires value < WORD && 2 <= radix <= 36 && at + |Text(value, radix)| < buf.Length
    modifies buf
    ensures end == at + |Text(value, radix)| && end < at + 33
    ensures buf[..] == Blit(old(buf[..]), at, Text(value, radix) + [0])
  {
    TextIsNumeral(value, radix);
    end := at + |Text(value, radix)|;
    if value == 0 {
      buf[at], buf[at + 1] := ZERO, 0;
      return;
    }
    ghost var digits := LowFirst(value, radix);
    WriteDigits(value, buf, at, radix);
    assert forall i :: 0 <= i < |digits| ==> IsSymbol(digits[i], radix);
    assert buf[at..end] == digits;
    Strrev(buf, at, end);
    BlitOver(old(buf[..]), at, digits, Reversed(digits));
  }

  method FillZeros(buf: array<Byte>, from: nat, to: nat)
    requires from <= to <= buf.Length
    modifies buf
    ensures buf[..] == Blit(old(buf[..]), from, Fill(ZERO, to - from))
  {
    var i := from;
    while i < to
      invariant from <= i <= to
      invariant buf[..] == Blit(old(buf[..]), from, Fill(ZERO, i - from))
    {
      buf[i] := ZERO;
      i := i + 1;
    }
  }

  /** The `%#x` conversion: the number is converted at offset 8 and zeros are put before it. */
  method PrintHex(value: nat) returns (out: seq<Byte>)
    requires value < WORD
    ensures out == Padded(value)
  {
    TextIsNumeral(value, 16);
    HexLength(value);
    var buf := new Byte[64];
    ghost var end := Itoa(value, buf, 8, 16);
    out := PadAndPut(buf, end, Text(value, 16));
  }

  /** What `%#x` does once the digits are in place: zeros below offset 8, then puts from the first of them. */
  method PadAndPut(buf: array<Byte>, ghost end: nat, ghost text: seq<Byte>) returns (out: seq<Byte>)
    requires end < buf.Length && end == 8 + |text| && |text| <= 8
    requires buf[..][8..end] == text && buf[..][end] == 0 && forall i :: 0 <= i < |text| ==> IsSymbol(text[i], 16)
    modifies buf
    ensures out == Fill(ZERO, 8 - |text|) + text
  {
    ghost var was := buf[..];
    assert buf[8..end] == was[8..end];
    var start := Strlen(buf, 8, end);
    FillZeros(buf, start, 8);
    ZerosBefore(was, text, end, start);
    assert buf[start..end] == buf[..][start..end];
    var len := Strlen(buf, start, end);
    out := buf[start..start + len];
  }

  lemma ZerosBefore(was: seq<Byte>, text: seq<Byte>, end: nat, start: nat)
    requires end < |was| && end == 8 + |text| && was[8..end] == text && was[end] == 0 && start == |text| <= 8
    requires forall i :: 0 <= i < |text| ==> IsSymbol(text[i], 16)
    ensures var b := Blit(was, start, Fill(ZERO, 8 - start));
      b[end] == 0 && b[start..end] == Fill(ZERO, 8 - |text|) + text && 0 !in b[start..end]
  {
    var b := Blit(was, start, Fill(ZERO, 8 - start));
    assert forall i :: 8 <= i < end ==> b[i] == was[i] == text[i - 8];
    assert b[start..end] == Fill(ZERO, 8 - |text|) + text;
  }

  /** Eight hexadecimal digits. */
  ghost function Padded(value: nat): (r: seq<Byte>) {
    if |Text(value, 16)| > 8 then Text(value, 16) else Fill(ZERO, 8 - |Text(value, 16)|) + Text(value, 16)
  }

  lemma HexLength(value: nat)
    requires value < WORD
    ensures |Text(value, 16)| <= 8
  {
    PowerOfTwo();
    DigitCount(value, 16, 8);
  }

  /** Exactly eight digits, and they read back as the number. */
  lemma PaddedIsNumeral(value: nat)
    requires value < WORD
    ensures |Padded(value)| == 8 && Value(Padded(value), 16) == value
    ensures forall i :: 0 <= i < 8 ==> IsSymbol(Padded(value)[i], 16)
  {
    HexLength(value);
    TextIsNumeral(value, 16);
    LeadingZeros(Fill(ZERO, 8 - |Text(value, 16)|), Text(value, 16), 16);
  }

  lemma {:induction false} LeadingZeros(zeros: seq<Byte>, s: seq<Byte>, radix: int)
    requires forall i :: 0 <= i < |zeros| ==> zeros[i] == ZERO
    ensures Value(zeros + s, radix) == Value(s, radix)
    decreases |zeros| + |s|
  {
    if s != [] {
      assert (zeros + s)[..|zeros + s| - 1] == zeros + s[..|s| - 1];
      LeadingZeros(zeros, s[..|s| - 1], radix);
    } else if zeros != [] {
      assert zeros + s == zeros && zeros[..|zeros| - 1] + [] == zeros[..|zeros| - 1];
      LeadingZeros(zeros[..|zeros| - 1], [], radix);
    } else {
      assert zeros + s == s;
    }
  }
}
