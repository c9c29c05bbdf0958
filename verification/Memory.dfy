// The byte-moving routines of student-distrib/lib.c: memmove, memcpy and memset.
// The last two work in three stages: single bytes up to a 4-byte boundary, whole
// double words, and single bytes for the rest.

module Memory {
  type Byte = x: int | 0 <= x < 256

  /** The contents `s` after the bytes `t` were stored at offset `at`. */
  function Blit(s: seq<Byte>, at: nat, t: seq<Byte>): (r: seq<Byte>)
    requires at + |t| <= |s|
    ensures |r| == |s|
    ensures forall i {:trigger r[i]} :: 0 <= i < |s| ==> r[i] == if at <= i < at + |t| then t[i - at] else s[i]
  {
    s[..at] + t + s[at + |t|..]
  }

  /** `n` copies of the byte `c`. */
  function Fill(c: Byte, n: nat): (r: seq<Byte>)
    ensures |r| == n && forall i :: 0 <= i < n ==> r[i] == c
  {
    seq(n, _ => c)
  }

  lemma SliceOfSlice<T>(s: seq<T>, a: nat, b: nat, c: nat, d: nat)
    requires a <= b <= |s| && c <= d <= b - a
    ensures s[a..b][c..d] == s[a + c..a + d]
  {
    var t := s[a..b];
    assert forall k :: 0 <= k < b - a ==> t[k] == s[a + k];
    assert forall i :: 0 <= i < d - c ==> t[c..d][i] == s[a + c + i];
  }

  lemma Regroup<T>(a: seq<T>, b: seq<T>, c: seq<T>)
    ensures a + (b + c) == (a + b) + c
  {
  }

  /** One more piece moved from what remains to what is done. */
  lemma Paid<T>(total: seq<T>, done: seq<T>, piece: seq<T>, before: seq<T>, after: seq<T>)
    requires total == done + before && before == piece + after
    ensures total == (done + piece) + after
  {
  }

  /** Quotient and remainder are unique. */
  lemma Remainder(n: int, period: int, q: int, r: int)
    requires period > 0 && 0 <= r < period && n == period * q + r
    ensures n % period == r
  {
    var k, r' := q - n / period, n % period;
    assert period * k == r' - r by {
      assert n == period * (n / period) + r';
      assert period * k == period * q - period * (n / period);
    }
    SmallMultiple(period, k);
  }

  lemma SmallMultiple(period: int, k: int)
    requires period > 0
    ensures k >= 1 ==> period * k >= period
    ensures k <= -1 ==> period * k <= -period
  {
    if k >= 1 {
      assert period * k == period + period * (k - 1);
    } else if k <= -1 {
      assert period * k == -period + period * (k + 1);
    }
  }

  /** Storing two adjacent pieces one after the other stores their concatenation. */
  lemma BlitAppend(s: seq<Byte>, at: nat, t: seq<Byte>, u: seq<Byte>)
    requires at + |t| + |u| <= |s|
    ensures Blit(Blit(s, at, t), at + |t|, u) == Blit(s, at, t + u)
  {
  }

  /** memmove: `rep movsb` forwards when the source is not below the destination, backwards otherwise. */
  method Memmove(a: array<Byte>, dest: nat, src: nat, n: nat)
    requires dest + n <= a.Length && src + n <= a.Length
    modifies a
    ensures a[..] == Blit(old(a[..]), dest, old(a[src..src + n]))
  {
    if src >= dest {
      for k := 0 to n
        invariant forall i :: 0 <= i < a.Length ==>
          a[i] == if dest <= i < dest + k then old(a[src + (i - dest)]) else old(a[i])
      {
        a[dest + k] := a[src + k];
      }
    } else {
      for k := n downto 0
        invariant forall i :: 0 <= i < a.Length ==>
          a[i] == if dest + k <= i < dest + n then old(a[src + (i - dest)]) else old(a[i])
      {
        a[dest + k] := a[src + k];
      }
    }
  }

  /** One step of `rep movsl`: four bytes read, then four bytes written. */
  method MoveDword(dst: array<Byte>, d: nat, src: array<Byte>, s: nat)
    requires d + 4 <= dst.Length && s + 4 <= src.Length
    modifies dst
    ensures forall i :: 0 <= i < dst.Length ==>
      dst[i] == if d <= i < d + 4 then old(src[s + (i - d)]) else old(dst[i])
  {
    dst[d], dst[d + 1], dst[d + 2], dst[d + 3] := src[s], src[s + 1], src[s + 2], src[s + 3];
  }

  predicate Apart(dst: array<Byte>, dest: nat, src: array<Byte>, from: nat, n: nat) {
    dest + n <= dst.Length && from + n <= src.Length &&
    (dst != src || dest + n <= from || from + n <= dest)
  }

  /** `rep movsl` for `words` double words. */
  method CopyDwords(dst: array<Byte>, dest: nat, src: array<Byte>, from: nat, words: nat)
    requires Apart(dst, dest, src, from, 4 * words)
    modifies dst
    ensures forall i :: 0 <= i < dst.Length ==>
      dst[i] == if dest <= i < dest + 4 * words then old(src[from + (i - dest)]) else old(dst[i])
  {
    for w := 0 to words
      invariant forall i :: 0 <= i < dst.Length ==>
        dst[i] == if dest <= i < dest + 4 * w then old(src[from + (i - dest)]) else old(dst[i])
    {
      MoveDword(dst, dest + 4 * w, src, from + 4 * w);
    }
  }

  /** The byte loops around it; with `aligning`, stop at the first destination on a 4-byte boundary. */
  method CopyBytes(dst: array<Byte>, dest: nat, src: array<Byte>, from: nat, n: nat, base: nat, aligning: bool)
      returns (k: nat)
    requires Apart(dst, dest, src, from, n)
    modifies dst
    ensures k <= n && (k < n ==> aligning && (base + dest + k) % 4 == 0)
    ensures forall i :: 0 <= i < dst.Length ==>
      dst[i] == if dest <= i < dest + k then old(src[from + (i - dest)]) else old(dst[i])
  {
    k := 0;
    while k < n && !(aligning && (base + dest + k) % 4 == 0)
      invariant k <= n
      invariant forall i :: 0 <= i < dst.Length ==>
        dst[i] == if dest <= i < dest + k then old(src[from + (i - dest)]) else old(dst[i])
    {
      dst[dest + k] := src[from + k];
      k := k + 1;
    }
  }

  /** memcpy between ranges that do not meet; `base` is the address of `dst[0]`. */
  method Memcpy(dst: array<Byte>, dest: nat, src: array<Byte>, from: nat, n: nat, base: nat)
    requires Apart(dst, dest, src, from, n)
    modifies dst
    ensures dst[..] == Blit(old(dst[..]), dest, old(src[from..from + n]))
  {
    ghost var data := src[from..from + n];
    var k := CopyBytes(dst, dest, src, from, n, base, true);
    var words := (n - k) / 4;
    CopyDwords(dst, dest + k, src, from + k, words);
    k := k + 4 * words;
    var rest := CopyBytes(dst, dest + k, src, from + k, n - k, base, false);
    assert forall i :: 0 <= i < dst.Length ==> dst[i] == if dest <= i < dest + n then data[i - dest] else old(dst[i]);
  }

  /** `a` is `was` with the first `k` bytes from `at` on set to `b`. */
  ghost predicate Filled(a: seq<Byte>, was: seq<Byte>, at: nat, b: Byte, k: nat) {
    |a| == |was| && forall i :: 0 <= i < |a| ==> a[i] == if at <= i < at + k then b else was[i]
  }

  /** memset: the low byte of `c`, again split by alignment. */
  method Memset(a: array<Byte>, at: nat, c: int, n: nat, base: nat)
    requires at + n <= a.Length
    modifies a
    ensures a[..] == Blit(old(a[..]), at, Fill(c % 256, n))
  {
    var b: Byte := c % 256;
    var k := 0;
    while k < n && (base + at + k) % 4 != 0
      invariant k <= n && Filled(a[..], old(a[..]), at, b, k)
    {
      a[at + k] := b;
      k := k + 1;
    }
    var words, tail := (n - k) / 4, (n - k) % 4;
    for w := 0 to words
      invariant k + 4 * (words - w) + tail == n && Filled(a[..], old(a[..]), at, b, k)
    {
      a[at + k], a[at + k + 1], a[at + k + 2], a[at + k + 3] := b, b, b, b;
      k := k + 4;
    }
    while k < n
      invariant k <= n && Filled(a[..], old(a[..]), at, b, k)
    {
      a[at + k] := b;
      k := k + 1;
    }
  }
}
