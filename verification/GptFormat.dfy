/** A GPT with two ESPs as it is written, and a whole disk with two records: `request_normal` accepts exactly these. */
module GptFormat {
  import opened Common
  import opened Bytes
  import opened FatFormat
  import FatWalk
  import EdlDisk
  import EdlNormal

  /** The numbers of the header, and the sectors of the two ESPs. */
  datatype Table = Table(
    length: nat, backup: nat, first: nat, last: nat, table: nat, count: nat,
    aFirst: nat, aLast: nat, bFirst: nat, bLast: nat)

  predicate Placed(t: Table, size: nat) {
    && 92 <= t.length <= size && 2 <= t.table < t.first <= t.last < t.backup < 0x1_0000_0000_0000_0000
    && 3 <= t.count <= 4096 && t.table * size + t.count * 128 <= t.first * size
    && t.first <= t.aFirst <= t.aLast <= t.last && t.first <= t.bFirst <= t.bLast <= t.last && t.aLast < t.bFirst
  }

  /** Bytes 0 to 24 of the header, and 24 to 56, and 72 to 92. */
  function WriteHead(length: nat, sum: nat, other: seq<byte>): (s: seq<byte>)
    requires |other| >= 92 && length < 0x1_0000_0000 && sum < 0x1_0000_0000
    ensures |s| == 24
  {
    [69, 70, 73, 32, 80, 65, 82, 84] + Put32(0x1_0000) + Put32(length) + Put32(sum) + other[20..24]
  }

  function WriteBounds(backup: nat, first: nat, last: nat): (s: seq<byte>)
    requires backup < 0x1_0000_0000_0000_0000 && first < 0x1_0000_0000_0000_0000 && last < 0x1_0000_0000_0000_0000
    ensures |s| == 32
  {
    Put64(1) + Put64(backup) + Put64(first) + Put64(last)
  }

  function WriteTable(table: nat, count: nat, tableSum: nat): (s: seq<byte>)
    requires table < 0x1_0000_0000_0000_0000 && count < 0x1_0000_0000 && tableSum < 0x1_0000_0000
    ensures |s| == 20
  {
    Put64(table) + Put32(count) + Put32(128) + Put32(tableSum)
  }

  /** The primary header with these checksums; `other` fills the reserved bytes. */
  function WriteHeader(t: Table, sum: nat, tableSum: nat, other: seq<byte>): (s: seq<byte>)
    requires 512 <= |other| <= 4096 && Placed(t, |other|) && sum < 0x1_0000_0000 && tableSum < 0x1_0000_0000
    ensures |s| == |other|
  {
    WriteHead(t.length, sum, other) + WriteBounds(t.backup, t.first, t.last) + other[56..72] +
    WriteTable(t.table, t.count, tableSum) + other[92..]
  }

  /** An ESP entry: type c12a7328-f81f-11d2-ba4b-00a0c93ec93b, first and last sector, "esp_a" or "esp_b" in UTF-16. */
  function WriteEsp(first: nat, last: nat, letter: byte, other: seq<byte>): (e: seq<byte>)
    requires |other| == 128 && first < 0x1_0000_0000_0000_0000 && last < 0x1_0000_0000_0000_0000
    ensures |e| == 128
  {
    Put32(0xc12a_7328) + Put16(0xf81f) + Put16(0x11d2) + [0xba, 0x4b, 0x00, 0xa0, 0xc9, 0x3e, 0xc9, 0x3b] + other[16..32] +
    Put64(first) + Put64(last) + other[48..56] + [101, 0, 115, 0, 112, 0, 95, 0, letter, 0] + Zeros(62)
  }

  /** The disk carries this table: entries 1 and 3 are the ESPs, and both checksums are right. */
  predicate GptWritten(data: seq<byte>, size: nat, crc: seq<byte> -> nat, t: Table) {
    && SectorSize(size) && 2 * size <= |data| && Placed(t, size) && t.table * size + t.count * 128 <= |data|
    && var header, at := data[size..2 * size], t.table * size;
       var entries := data[at..at + t.count * 128];
       && crc(entries) < 0x1_0000_0000
       && entries[..128] == WriteEsp(t.aFirst, t.aLast, 97, entries[..128])
       && entries[256..384] == WriteEsp(t.bFirst, t.bLast, 98, entries[256..384])
       && var sum := crc(WriteHeader(t, 0, crc(entries), header)[..t.length]);
          sum < 0x1_0000_0000 && header == WriteHeader(t, sum, crc(entries), header)
  }

  function PartA(t: Table, size: nat): EdlDisk.Part
    requires t.aFirst <= t.aLast
  {
    EdlDisk.Part(t.aFirst * size, (t.aLast - t.aFirst + 1) * size)
  }

  function PartB(t: Table, size: nat): EdlDisk.Part
    requires t.bFirst <= t.bLast
  {
    EdlDisk.Part(t.bFirst * size, (t.bLast - t.bFirst + 1) * size)
  }

  // ---------------------------------------------------------------- entries

  lemma EspIs()
    ensures Put32(0xc12a_7328) + Put16(0xf81f) + Put16(0x11d2) + [0xba, 0x4b, 0x00, 0xa0, 0xc9, 0x3e, 0xc9, 0x3b] == EdlDisk.ESP_TYPE
  {
  }

  lemma NameIs(letter: byte)
    ensures [101, 0, 115, 0, 112, 0, 95, 0, letter, 0] + Zeros(62) == EdlDisk.NameField([0x65, 0x73, 0x70, 0x5f, letter])
  {
    var x, y := [101, 0, 115, 0, 112, 0, 95, 0, letter, 0] + Zeros(62), EdlDisk.NameField([0x65, 0x73, 0x70, 0x5f, letter]);
    forall i | 0 <= i < 72
      ensures x[i] == y[i]
    {
    }
  }

  predicate EspRead(e: seq<byte>, first: nat, last: nat, letter: byte)
    requires |e| == 128
  {
    && e[..16] == EdlDisk.ESP_TYPE && e[56..128] == EdlDisk.NameField([0x65, 0x73, 0x70, 0x5f, letter])
    && Le64(e, 32) == first && Le64(e, 40) == last
  }

  /** An entry is written as an ESP exactly when type, name and both sector numbers read so. */
  lemma EspReads(e: seq<byte>, first: nat, last: nat, letter: byte)
    requires |e| == 128 && first < 0x1_0000_0000_0000_0000 && last < 0x1_0000_0000_0000_0000
    ensures e == WriteEsp(first, last, letter, e) <==> EspRead(e, first, last, letter)
  {
    EspIs();
    NameIs(letter);
    Field64(e, 32, first);
    Field64(e, 40, last);
    hide Put16, Put32, Put64, Le64, EdlDisk.ESP_TYPE, EdlDisk.NameField;
    var kind: seq<byte> := Put32(0xc12a_7328) + Put16(0xf81f) + Put16(0x11d2) + [0xba, 0x4b, 0x00, 0xa0, 0xc9, 0x3e, 0xc9, 0x3b];
    var name: seq<byte> := [101, 0, 115, 0, 112, 0, 95, 0, letter, 0] + Zeros(62);
    assert WriteEsp(first, last, letter, e) == kind + e[16..32] + Put64(first) + Put64(last) + e[48..56] + name;
    hide WriteEsp;
    SixParts(e, kind, Put64(first), Put64(last), name);
  }

  lemma SixParts(e: seq<byte>, kind: seq<byte>, first: seq<byte>, last: seq<byte>, name: seq<byte>)
    requires |e| == 128 && |kind| == 16 && |first| == |last| == 8 && |name| == 72
    ensures e == kind + e[16..32] + first + last + e[48..56] + name <==>
            e[..16] == kind && e[32..40] == first && e[40..48] == last && e[56..128] == name
  {
    var w := kind + e[16..32] + first + last + e[48..56] + name;
    assert w[..16] == kind && w[32..40] == first && w[40..48] == last && w[56..128] == name;
    assert e == e[..16] + e[16..32] + e[32..40] + e[40..48] + e[48..56] + e[56..128];
  }

  // ---------------------------------------------------------------- the header

  lemma HeadReads(h: seq<byte>, length: nat, sum: nat)
    requires |h| >= 92 && length < 0x1_0000_0000 && sum < 0x1_0000_0000
    ensures h[..24] == WriteHead(length, sum, h) <==>
            h[..8] == EdlDisk.SIGNATURE && Le32(h, 8) == 0x1_0000 && Le32(h, 12) == length && Le32(h, 16) == sum
  {
    Field32(h, 8, 0x1_0000);
    Field32(h, 12, length);
    Field32(h, 16, sum);
    hide Put32, Le32;
    var w := WriteHead(length, sum, h);
    assert w[..8] == EdlDisk.SIGNATURE && w[8..12] == Put32(0x1_0000) && w[12..16] == Put32(length) && w[16..20] == Put32(sum);
    assert h[..24] == h[..8] + h[8..12] + h[12..16] + h[16..20] + h[20..24];
    assert h[..24][..8] == h[..8] && h[..24][8..12] == h[8..12] && h[..24][12..16] == h[12..16] && h[..24][16..20] == h[16..20];
  }

  lemma BoundsRead(h: seq<byte>, backup: nat, first: nat, last: nat)
    requires |h| >= 92
    requires backup < 0x1_0000_0000_0000_0000 && first < 0x1_0000_0000_0000_0000 && last < 0x1_0000_0000_0000_0000
    ensures h[24..56] == WriteBounds(backup, first, last) <==>
            Le64(h, 24) == 1 && Le64(h, 32) == backup && Le64(h, 40) == first && Le64(h, 48) == last
  {
    Field64(h, 24, 1);
    Field64(h, 32, backup);
    Field64(h, 40, first);
    Field64(h, 48, last);
    hide Put64, Le64;
    var w := WriteBounds(backup, first, last);
    assert w[..8] == Put64(1) && w[8..16] == Put64(backup) && w[16..24] == Put64(first) && w[24..] == Put64(last);
    var x := h[24..56];
    assert x == h[24..32] + h[32..40] + h[40..48] + h[48..56];
    assert x[..8] == h[24..32] && x[8..16] == h[32..40] && x[16..24] == h[40..48] && x[24..] == h[48..56];
  }

  lemma TableReads(h: seq<byte>, table: nat, count: nat, tableSum: nat)
    requires |h| >= 92 && table < 0x1_0000_0000_0000_0000 && count < 0x1_0000_0000 && tableSum < 0x1_0000_0000
    ensures h[72..92] == WriteTable(table, count, tableSum) <==>
            Le64(h, 72) == table && Le32(h, 80) == count && Le32(h, 84) == 128 && Le32(h, 88) == tableSum
  {
    Field64(h, 72, table);
    Field32(h, 80, count);
    Field32(h, 84, 128);
    Field32(h, 88, tableSum);
    hide Put32, Put64, Le32, Le64;
    var w := WriteTable(table, count, tableSum);
    assert w[..8] == Put64(table) && w[8..12] == Put32(count) && w[12..16] == Put32(128) && w[16..] == Put32(tableSum);
    var x := h[72..92];
    assert x == h[72..80] + h[80..84] + h[84..88] + h[88..92];
    assert x[..8] == h[72..80] && x[8..12] == h[80..84] && x[12..16] == h[84..88] && x[16..] == h[88..92];
  }

  /** The numbers that the header of a table is read back as. */
  function HeaderOf(t: Table, sum: nat, tableSum: nat): EdlDisk.Header {
    EdlDisk.Header(0x1_0000, t.length, sum, 1, t.backup, t.first, t.last, t.table, t.count, 128, tableSum)
  }

  lemma HeaderReads(h: seq<byte>, t: Table, sum: nat, tableSum: nat)
    requires 512 <= |h| <= 4096 && Placed(t, |h|) && sum < 0x1_0000_0000 && tableSum < 0x1_0000_0000
    ensures h == WriteHeader(t, sum, tableSum, h) <==> h[..8] == EdlDisk.SIGNATURE && EdlDisk.Parse(h) == HeaderOf(t, sum, tableSum)
  {
    HeadReads(h, t.length, sum);
    BoundsRead(h, t.backup, t.first, t.last);
    TableReads(h, t.table, t.count, tableSum);
    hide WriteHead, WriteBounds, WriteTable, Le32, Le64, Placed;
    FiveParts(h, WriteHead(t.length, sum, h), WriteBounds(t.backup, t.first, t.last), WriteTable(t.table, t.count, tableSum));
  }

  lemma FiveParts(h: seq<byte>, head: seq<byte>, bounds: seq<byte>, table: seq<byte>)
    requires |h| >= 92 && |head| == 24 && |bounds| == 32 && |table| == 20
    ensures h == head + bounds + h[56..72] + table + h[92..] <==> h[..24] == head && h[24..56] == bounds && h[72..92] == table
  {
    var w := head + bounds + h[56..72] + table + h[92..];
    assert w[..24] == head && w[24..56] == bounds && w[72..92] == table;
    assert h == h[..24] + h[24..56] + h[56..72] + h[72..92] + h[92..];
  }

  /** Taking the checksum field as zero gives the header written with a zero checksum. */
  lemma BlankHeader(h: seq<byte>, t: Table, sum: nat, tableSum: nat)
    requires 512 <= |h| <= 4096 && Placed(t, |h|) && sum < 0x1_0000_0000 && tableSum < 0x1_0000_0000
    requires h == WriteHeader(t, sum, tableSum, h)
    ensures EdlDisk.Unsigned(h) == WriteHeader(t, 0, tableSum, h)
  {
    hide Put32, WriteBounds, WriteTable, Placed, Splice;
    ZeroField();
    var x, y := EdlDisk.Unsigned(h), WriteHeader(t, 0, tableSum, h);
    forall i | 0 <= i < |h|
      ensures x[i] == y[i]
    {
      SumByte(h, t, sum, tableSum, i);
    }
  }

  lemma ZeroField()
    ensures Put32(0) == Zeros(4)
  {
  }

  lemma SumByte(h: seq<byte>, t: Table, sum: nat, tableSum: nat, i: nat)
    requires 512 <= |h| <= 4096 && Placed(t, |h|) && sum < 0x1_0000_0000 && tableSum < 0x1_0000_0000 && i < |h|
    requires h == WriteHeader(t, sum, tableSum, h)
    ensures EdlDisk.Unsigned(h)[i] == WriteHeader(t, 0, tableSum, h)[i]
  {
    hide Put32, WriteBounds, WriteTable;
    ZeroField();
    if i < 24 {
      assert WriteHeader(t, 0, tableSum, h)[i] == WriteHead(t.length, 0, h)[i];
      assert h[i] == WriteHead(t.length, sum, h)[i];
    } else {
      assert WriteHeader(t, 0, tableSum, h)[i] == WriteHeader(t, sum, tableSum, h)[i];
    }
  }

  // ---------------------------------------------------------------- the whole table

  lemma Ordered(m: nat, n: nat, unit: nat)
    requires unit > 0
    ensures m * unit <= n * unit <==> m <= n
  {
    ScaleIs(m, unit);
    ScaleIs(n, unit);
    if m <= n {
      ScaleGrows(m, n, unit);
    } else {
      ScaleGrows(n + 1, m, unit);
      ScaleAdds(n, 1, unit);
      ScaleOne(unit);
    }
  }

  /** The ESPs do not overlap exactly when the first one ends below the sector where the second one begins. */
  lemma PartsApart(t: Table, size: nat)
    requires size > 0 && t.aFirst <= t.aLast && t.bFirst <= t.bLast
    ensures PartA(t, size).start + PartA(t, size).length <= PartB(t, size).start <==> t.aLast < t.bFirst
    ensures PartA(t, size) == EdlDisk.PartOf(t.aFirst, t.aLast, size) && PartB(t, size) == EdlDisk.PartOf(t.bFirst, t.bLast, size)
  {
    assert PartA(t, size).start + PartA(t, size).length == (t.aLast + 1) * size;
    Ordered(t.aLast + 1, t.bFirst, size);
  }

  lemma BoundedIs(t: Table, sum: nat, tableSum: nat, size: nat)
    requires size > 0 && t.first <= t.aFirst <= t.aLast <= t.last && t.first <= t.bFirst <= t.bLast <= t.last && t.aLast < t.bFirst
    requires t.backup < 0x1_0000_0000_0000_0000
    ensures EdlDisk.Bounded(HeaderOf(t, sum, tableSum), size) <==> Placed(t, size)
  {
    ScaleIs(t.table, size);
    ScaleIs(t.first, size);
    hide Scale;
  }

  lemma TableIs(data: seq<byte>, t: Table, sum: nat, tableSum: nat, size: nat)
    ensures EdlDisk.Table(data, HeaderOf(t, sum, tableSum), size)
         == if t.table * size + t.count * 128 <= |data| then Some(data[t.table * size..t.table * size + t.count * 128]) else None
  {
    ScaleIs(t.table, size);
    hide Scale;
  }

  /** A table so written describes its two ESPs. */
  lemma WrittenDescribes(data: seq<byte>, size: nat, crc: seq<byte> -> nat, t: Table)
    requires GptWritten(data, size, crc, t)
    ensures EdlDisk.Describes(data, size, crc, PartA(t, size), PartB(t, size))
  {
    hide WriteHeader, WriteEsp, EdlDisk.Bounded, EdlDisk.Parse, EdlDisk.Unsigned, EdlDisk.PartOf, EdlDisk.NameField;
    var header, at := data[size..2 * size], t.table * size;
    var entries := data[at..at + t.count * 128];
    var tableSum := crc(entries);
    var sum := crc(WriteHeader(t, 0, tableSum, header)[..t.length]);
    HeaderReads(header, t, sum, tableSum);
    BlankHeader(header, t, sum, tableSum);
    BoundedIs(t, sum, tableSum, size);
    TableIs(data, t, sum, tableSum, size);
    EspReads(entries[..128], t.aFirst, t.aLast, 97);
    EspReads(entries[256..384], t.bFirst, t.bLast, 98);
    PartsApart(t, size);
    hide Placed, EdlDisk.Table, PartA, PartB;
  }

  /** And every table that describes two ESPs is written so. */
  lemma DescribedIsWritten(data: seq<byte>, size: nat, crc: seq<byte> -> nat, a: EdlDisk.Part, b: EdlDisk.Part) returns (t: Table)
    requires SectorSize(size) && EdlDisk.Describes(data, size, crc, a, b)
    ensures GptWritten(data, size, crc, t) && a == PartA(t, size) && b == PartB(t, size)
  {
    hide WriteHeader, WriteEsp, EdlDisk.Bounded, EdlDisk.Parse, EdlDisk.Unsigned, EdlDisk.PartOf, EdlDisk.NameField, PartA, PartB,
         EdlDisk.EntriesDescribe, EdlDisk.EntryOk, TableOf, Placed;
    var header := data[size..2 * size];
    var h := EdlDisk.Parse(header);
    var entries := EdlDisk.Table(data, h, size).value;
    DescribedTable(data, size, crc, a, b, h, entries);
    t := TableOf(h, entries);
    BoundedIs(t, h.checksum, h.tableChecksum, size);
    PartsApart(t, size);
    TableIs(data, t, h.checksum, h.tableChecksum, size);
    hide EdlDisk.Table;
    HeaderReads(header, t, h.checksum, h.tableChecksum);
    BlankHeader(header, t, h.checksum, h.tableChecksum);
    EspReads(entries[..128], t.aFirst, t.aLast, 97);
    EspReads(entries[256..384], t.bFirst, t.bLast, 98);
  }

  function TableOf(h: EdlDisk.Header, entries: seq<byte>): Table
    requires |entries| >= 384
  {
    Table(h.length, h.backup, h.first, h.last, h.table, h.count,
          Le64(entries[..128], 32), Le64(entries[..128], 40), Le64(entries[256..384], 32), Le64(entries[256..384], 40))
  }

  /** The numbers behind a description. */
  lemma DescribedTable(data: seq<byte>, size: nat, crc: seq<byte> -> nat, a: EdlDisk.Part, b: EdlDisk.Part, h: EdlDisk.Header, entries: seq<byte>)
    requires SectorSize(size) && EdlDisk.Describes(data, size, crc, a, b)
    requires h == EdlDisk.Parse(data[size..2 * size]) && EdlDisk.Table(data, h, size) == Some(entries)
    ensures |entries| >= 384
    ensures var t := TableOf(h, entries);
            && h == HeaderOf(t, h.checksum, h.tableChecksum) && h.checksum < 0x1_0000_0000 && h.tableChecksum < 0x1_0000_0000
            && t.backup < 0x1_0000_0000_0000_0000
            && t.first <= t.aFirst <= t.aLast <= t.last && t.first <= t.bFirst <= t.bLast <= t.last && t.aLast < t.bFirst
            && a == EdlDisk.PartOf(t.aFirst, t.aLast, size) && b == EdlDisk.PartOf(t.bFirst, t.bLast, size)
    ensures crc(entries) == h.tableChecksum && EdlDisk.Bounded(h, size)
    ensures EspRead(entries[..128], TableOf(h, entries).aFirst, TableOf(h, entries).aLast, 97)
    ensures EspRead(entries[256..384], TableOf(h, entries).bFirst, TableOf(h, entries).bLast, 98)
  {
    hide EdlDisk.NameField, Scale, EdlDisk.Unsigned;
    var t := TableOf(h, entries);
    PartsApart(t, size);
  }

  // ---------------------------------------------------------------- the whole disk

  /** One ESP as it is written: its volume, and the chains of EFI, EFI/VAMOS and the record. */
  datatype EspImage = EspImage(v: Volume, short: bool, f: FatWalk.Files)

  ghost predicate EspWritten(data: seq<byte>, size: nat, p: EdlDisk.Part, e: EspImage) {
    p.start + p.length <= |data| && FatWalk.WrittenEsp(EdlNormal.EspAt(data, p), size, e.v, e.short, e.f)
  }

  /** A disk with a GPT, two ESPs and a record on each. */
  ghost predicate DiskWritten(data: seq<byte>, size: nat, crc: seq<byte> -> nat, t: Table, a: EspImage, b: EspImage) {
    GptWritten(data, size, crc, t) && EspWritten(data, size, PartA(t, size), a) && EspWritten(data, size, PartB(t, size), b)
  }

  /** On a disk so written the two records are found, at exactly their clusters. */
  lemma RecordsFound(data: seq<byte>, size: nat, crc: seq<byte> -> nat, t: Table, a: EspImage, b: EspImage)
    requires DiskWritten(data, size, crc, t, a, b)
    ensures a.v.bps > 0 && b.v.bps > 0 && a.f.record != [] && b.f.record != []
    ensures var s := EdlNormal.Sites(PartA(t, size), PartB(t, size), FatWalk.Places(a.v, a.f.record), FatWalk.Places(b.v, b.f.record));
            EdlNormal.Found(data, size, crc, s) && EdlNormal.InsideSites(data, s)
  {
    hide GptWritten, EdlDisk.Describes, EspWritten, FatWalk.Places, PartA, PartB, EdlNormal.InsideSites, EdlNormal.RecordIn;
    GptSector(data, size, crc, t);
    WrittenDescribes(data, size, crc, t);
    EspFound(data, size, PartA(t, size), a);
    EspFound(data, size, PartB(t, size), b);
    EdlNormal.FoundInside(data, size, crc, EdlNormal.Sites(
      PartA(t, size), PartB(t, size), FatWalk.Places(a.v, a.f.record), FatWalk.Places(b.v, b.f.record)));
  }

  lemma EspFound(data: seq<byte>, size: nat, p: EdlDisk.Part, e: EspImage)
    requires EspWritten(data, size, p, e)
    ensures e.v.bps > 0 && e.f.record != [] && EdlNormal.RecordIn(data, size, p, FatWalk.Places(e.v, e.f.record))
  {
    hide FatVolume.Open, FatWalk.Places, Supported, FatWalk.Holds, WriteBoot, GeometryOf, EdlNormal.EspAt;
    FatWalk.SizeIs(e.v, p.length, size);
    FatWalk.WalkFinds(EdlNormal.EspAt(data, p), size, e.v, e.short, e.f);
  }

  lemma GptSector(data: seq<byte>, size: nat, crc: seq<byte> -> nat, t: Table)
    requires GptWritten(data, size, crc, t)
    ensures SectorSize(size) && t.aFirst <= t.aLast && t.bFirst <= t.bLast
  {
    hide WriteHeader, WriteEsp;
  }

  /** Every disk on which two records are found is written so: nothing else is ever touched. */
  lemma FoundIsWritten(data: seq<byte>, size: nat, crc: seq<byte> -> nat, s: EdlNormal.Sites) returns (t: Table, a: EspImage, b: EspImage)
    requires SectorSize(size) && EdlNormal.Found(data, size, crc, s)
    ensures DiskWritten(data, size, crc, t, a, b) && a.v.bps > 0 && b.v.bps > 0
    ensures s == EdlNormal.Sites(PartA(t, size), PartB(t, size), FatWalk.Places(a.v, a.f.record), FatWalk.Places(b.v, b.f.record))
  {
    hide GptWritten, EdlDisk.Describes, FatVolume.Open, FatWalk.Places, Supported, FatWalk.Holds, WriteBoot, GeometryOf;
    t := DescribedIsWritten(data, size, crc, s.a, s.b);
    GptSector(data, size, crc, t);
    var v, short, f := FatWalk.WalkDescribes(EdlNormal.EspAt(data, s.a), size);
    a := EspImage(v, short, f);
    FatWalk.SizeIs(v, s.a.length, size);
    v, short, f := FatWalk.WalkDescribes(EdlNormal.EspAt(data, s.b), size);
    b := EspImage(v, short, f);
    FatWalk.SizeIs(v, s.b.length, size);
  }
}
