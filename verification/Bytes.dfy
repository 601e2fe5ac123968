/** Byte strings: little-endian fields, splicing, and the checks built on them. */
module Bytes {

  type byte = b: int | 0 <= b < 256

  function Zeros(n: nat): (s: seq<byte>)
    ensures |s| == n && forall i :: 0 <= i < n ==> s[i] == 0
  {
    seq(n, i => 0)
  }

  predicate AllZero(s: seq<byte>) {
    forall i :: 0 <= i < |s| ==> s[i] == 0
  }

  /** `s` with the bytes from `at` replaced by `data`. */
  function Splice(s: seq<byte>, at: nat, data: seq<byte>): (r: seq<byte>)
    requires at + |data| <= |s|
    ensures |r| == |s|
    ensures r[at..at + |data|] == data
    ensures forall i :: 0 <= i < at ==> r[i] == s[i]
    ensures forall i :: at + |data| <= i < |s| ==> r[i] == s[i]
    ensures forall i :: at <= i < at + |data| ==> r[i] == data[i - at]
  {
    s[..at] + data + s[at + |data|..]
  }

  lemma SubSlice<T>(s: seq<T>, lo: nat, hi: nat, x: nat, y: nat)
    requires lo <= hi <= |s| && x <= y <= hi - lo
    ensures s[lo..hi][x..y] == s[lo + x..lo + y]
  {
    var outer, inner := s[lo..hi][x..y], s[lo + x..lo + y];
    forall i | 0 <= i < y - x
      ensures outer[i] == inner[i]
    {
      assert outer[i] == s[lo..hi][x + i] == s[lo + x + i];
    }
  }

  /** Rewriting a span, patched inside, is patching the whole. */
  lemma SpanPatched(whole: seq<byte>, start: nat, span: nat, off: nat, data: seq<byte>)
    requires start + span <= |whole| && off + |data| <= span
    ensures Splice(whole, start, Splice(whole[start..start + span], off, data)) == Splice(whole, start + off, data)
  {
  }

  /** The sector sizes of the disks and file systems handled here. */
  predicate SectorSize(n: nat) {
    n == 512 || n == 1024 || n == 2048 || n == 4096
  }

  function Le16(s: seq<byte>, at: nat): (n: nat)
    requires at + 2 <= |s|
    ensures n < 0x1_0000
  {
    (s[at] as int) + 0x100 * (s[at + 1] as int)
  }

  function Le32(s: seq<byte>, at: nat): (n: nat)
    requires at + 4 <= |s|
    ensures n < 0x1_0000_0000
  {
    Le16(s, at) + 0x1_0000 * Le16(s, at + 2)
  }

  function Le64(s: seq<byte>, at: nat): (n: nat)
    requires at + 8 <= |s|
    ensures n < 0x1_0000_0000_0000_0000
  {
    Le32(s, at) + 0x1_0000_0000 * Le32(s, at + 4)
  }

  function Min(a: nat, b: nat): nat {
    if a <= b then a else b
  }

  /** A field read from a slice is the field of the whole. */
  lemma SameField(whole: seq<byte>, at: nat, length: nat, off: nat)
    requires at + length <= |whole|
    ensures off + 2 <= length ==> Le16(whole[at..at + length], off) == Le16(whole, at + off)
    ensures off + 4 <= length ==> Le32(whole[at..at + length], off) == Le32(whole, at + off)
  {
  }

  /** Quotient and remainder are determined by the division equation. */
  lemma DivisionUnique(n: int, unit: int, q: int, r: int)
    requires unit > 0 && n == q * unit + r && 0 <= r < unit
    ensures n / unit == q && n % unit == r
  {
    var k := n / unit - q;
    assert k >= 1 ==> k * unit >= unit;
    assert k <= -1 ==> k * unit <= -unit;
    assert k * unit == r - n % unit;
  }

  predicate Multiple(n: nat, unit: nat) {
    unit > 0 && n % unit == 0
  }

  /** Rounding down and up to a multiple. */
  function Down(n: nat, unit: nat): (r: nat)
    requires unit > 0
    ensures r <= n < r + unit && Multiple(r, unit)
  {
    DivisionUnique(n / unit * unit, unit, n / unit, 0);
    n / unit * unit
  }

  function Up(n: nat, unit: nat): (r: nat)
    requires unit > 0
    ensures n <= r < n + unit && Multiple(r, unit)
  {
    Down(n + unit - 1, unit)
  }

  /** `n` units. */
  function Scale(n: nat, unit: nat): (r: nat)
    ensures unit > 0 ==> Multiple(r, unit)
  {
    if unit > 0 then DivisionUnique(n * unit, unit, n, 0); n * unit else 0
  }

  lemma ScaleGrows(m: nat, n: nat, unit: nat)
    requires m <= n
    ensures Scale(m, unit) <= Scale(n, unit)
  {
    assert m * unit <= n * unit;
  }

  lemma ScaleAdds(m: nat, n: nat, unit: nat)
    ensures Scale(m + n, unit) == Scale(m, unit) + Scale(n, unit)
  {
    assert (m + n) * unit == m * unit + n * unit;
  }

  lemma ScaleOne(unit: nat)
    ensures Scale(1, unit) == unit
  {
  }

  lemma MultiplesAdd(m: nat, n: nat, unit: nat)
    requires Multiple(m, unit) && Multiple(n, unit)
    ensures Multiple(m + n, unit)
  {
    var p, q := m / unit, n / unit;
    assert m == Scale(p, unit) && n == Scale(q, unit);
    ScaleAdds(p, q, unit);
  }

  /** Rounding up stays within a multiple. */
  lemma RangeRounds(n: nat, size: nat, unit: nat)
    requires Multiple(size, unit)
    ensures Up(n, unit) <= size <==> n <= size
  {
    var p, q := Up(n, unit) / unit, size / unit;
    assert Up(n, unit) == Scale(p, unit) && size == Scale(q, unit);
    if p >= q + 1 {
      ScaleGrows(q + 1, p, unit);
      ScaleAdds(q, 1, unit);
      ScaleOne(unit);
    } else {
      ScaleGrows(p, q, unit);
    }
  }

  lemma ScaleIs(n: nat, unit: nat)
    ensures Scale(n, unit) == n * unit
  {
  }

  // ---------------------------------------------------------------- numbers as bytes

  function Put16(n: nat): (s: seq<byte>)
    requires n < 0x1_0000
    ensures |s| == 2
  {
    [n % 0x100, n / 0x100]
  }

  function Put32(n: nat): (s: seq<byte>)
    requires n < 0x1_0000_0000
    ensures |s| == 4
  {
    Put16(n % 0x1_0000) + Put16(n / 0x1_0000)
  }

  /** A field holds a number exactly when its bytes are those of the number. */
  lemma Field16(s: seq<byte>, at: nat, n: nat)
    requires at + 2 <= |s| && n < 0x1_0000
    ensures s[at..at + 2] == Put16(n) <==> Le16(s, at) == n
  {
    assert s[at..at + 2] == [s[at], s[at + 1]];
  }

  lemma Field32(s: seq<byte>, at: nat, n: nat)
    requires at + 4 <= |s| && n < 0x1_0000_0000
    ensures s[at..at + 4] == Put32(n) <==> Le32(s, at) == n
  {
    Field16(s, at, n % 0x1_0000);
    Field16(s, at + 2, n / 0x1_0000);
    assert s[at..at + 4] == s[at..at + 2] + s[at + 2..at + 4];
    hide Put16, Le16;
    assert s[at..at + 4][..2] == s[at..at + 2] && s[at..at + 4][2..] == s[at + 2..at + 4];
    assert Put32(n)[..2] == Put16(n % 0x1_0000) && Put32(n)[2..] == Put16(n / 0x1_0000);
  }

  function Put64(n: nat): (s: seq<byte>)
    requires n < 0x1_0000_0000_0000_0000
    ensures |s| == 8
  {
    Put32(n % 0x1_0000_0000) + Put32(n / 0x1_0000_0000)
  }

  lemma Field64(s: seq<byte>, at: nat, n: nat)
    requires at + 8 <= |s| && n < 0x1_0000_0000_0000_0000
    ensures s[at..at + 8] == Put64(n) <==> Le64(s, at) == n
  {
    Field32(s, at, n % 0x1_0000_0000);
    Field32(s, at + 4, n / 0x1_0000_0000);
    hide Put32, Le32;
    assert s[at..at + 8] == s[at..at + 4] + s[at + 4..at + 8];
    assert s[at..at + 8][..4] == s[at..at + 4] && s[at..at + 8][4..] == s[at + 4..at + 8];
    assert Put64(n)[..4] == Put32(n % 0x1_0000_0000) && Put64(n)[4..] == Put32(n / 0x1_0000_0000);
  }
}
