/** Sector access to a disk over one Firehose session, and the GPT that locates the two ESPs. */
module EdlDisk {
  import opened Common
  import opened Bytes

  class Disk {
    const sector: nat
    var data: seq<byte>
    var link: nat  // write requests left before the session fails

    ghost predicate Valid()
      reads this
    {
      SectorSize(sector) && Multiple(|data|, sector)
    }

    constructor (sector: nat, data: seq<byte>, link: nat)
      requires SectorSize(sector) && Multiple(|data|, sector)
      ensures Valid() && this.sector == sector && this.data == data && this.link == link
    {
      this.sector, this.data, this.link := sector, data, link;
    }

    /** Whole sectors are fetched; the result is the requested byte range of the device. */
    method Read(offset: nat, length: nat) returns (r: Result<seq<byte>>)
      requires Valid()
      ensures r == if 0 < length && offset + length <= |data| then Ok(data[offset..offset + length]) else Err
    {
      if length == 0 { return Err; }
      var first := Down(offset, sector);
      var end := Up(offset + length, sector);
      RangeRounds(offset + length, |data|, sector);
      if end > |data| { return Err; }
      var sectors := data[first..end];
      var start := offset - first;
      SubSlice(data, first, end, start, start + length);
      r := Ok(sectors[start..start + length]);
    }

    predicate Aligned(offset: nat, bytes: seq<byte>) {
      Multiple(offset, sector) && Multiple(|bytes|, sector) && bytes != []
    }

    /** Aligned sectors are written, then read back and compared. */
    method WriteVerified(offset: nat, bytes: seq<byte>) returns (r: Result<()>)
      requires Valid()
      modifies `data, `link
      ensures Valid()
      ensures r.Ok? <==> Aligned(offset, bytes) && offset + |bytes| <= |old(data)| && old(link) > 0
      ensures r.Ok? ==> data == Splice(old(data), offset, bytes) && link == old(link) - 1
      ensures r.Err? ==> data == old(data) && link <= old(link)
    {
      if !Aligned(offset, bytes) { return Err; }
      if offset + |bytes| > |data| || link == 0 { return Err; }
      link := link - 1;
      data := Splice(data, offset, bytes);
      var back := Read(offset, |bytes|);
      if back != Ok(bytes) { return Err; }
      r := Ok(());
    }
  }

  // ---------------------------------------------------------------- GPT

  const SIGNATURE: seq<byte> := [0x45, 0x46, 0x49, 0x20, 0x50, 0x41, 0x52, 0x54]  // "EFI PART"
  const ESP_TYPE: seq<byte> := [0x28, 0x73, 0x2a, 0xc1, 0x1f, 0xf8, 0xd2, 0x11,
                                0xba, 0x4b, 0x00, 0xa0, 0xc9, 0x3e, 0xc9, 0x3b]
  const ENTRY := 128

  /** The 36 UTF-16 units of a partition name: a label in ASCII, then NULs. */
  function NameField(tag: seq<byte>): (s: seq<byte>)
    requires |tag| <= 36
    ensures |s| == 72
  {
    seq(72, i requires 0 <= i < 72 => if i % 2 == 0 && i / 2 < |tag| then tag[i / 2] else 0)
  }

  const ESP_A: seq<byte> := [0x65, 0x73, 0x70, 0x5f, 0x61]  // "esp_a"
  const ESP_B: seq<byte> := [0x65, 0x73, 0x70, 0x5f, 0x62]  // "esp_b"

  /** A byte range of the disk. */
  datatype Part = Part(start: nat, length: nat)

  /** The numbers of the primary header. */
  datatype Header = Header(
    revision: nat, length: nat, checksum: nat, current: nat, backup: nat, first: nat, last: nat,
    table: nat, count: nat, entrySize: nat, tableChecksum: nat)

  function Parse(h: seq<byte>): Header
    requires |h| >= 92
  {
    Header(Le32(h, 8), Le32(h, 12), Le32(h, 16), Le64(h, 24), Le64(h, 32), Le64(h, 40), Le64(h, 48),
           Le64(h, 72), Le32(h, 80), Le32(h, 84), Le32(h, 88))
  }

  /** The primary header with its own checksum field taken as zero. */
  function Unsigned(header: seq<byte>): seq<byte>
    requires |header| >= 20
  {
    Splice(header, 16, Zeros(4))
  }

  predicate Bounded(h: Header, size: nat) {
    && h.revision == 0x1_0000 && 92 <= h.length <= size
    && h.current == 1 && 2 <= h.table < h.first <= h.last < h.backup
    && 3 <= h.count <= 4096 && h.entrySize == ENTRY
    && Scale(h.table, size) + h.count * ENTRY <= Scale(h.first, size)
  }

  /** The header in sector 1: signature, bounds and checksum. */
  predicate HeaderOk(header: seq<byte>, size: nat, crc: seq<byte> -> nat) {
    && |header| == size >= 512
    && header[..8] == SIGNATURE
    && var h := Parse(header);
       Bounded(h, size) && crc(Unsigned(header)[..h.length]) == h.checksum
  }

  /** One of the two ESP entries: type, label and position inside the usable range. */
  predicate EntryOk(h: Header, entry: seq<byte>, tag: seq<byte>)
    requires |entry| == ENTRY && |tag| <= 36
  {
    && entry[..16] == ESP_TYPE
    && entry[56..128] == NameField(tag)
    && h.first <= Le64(entry, 32) <= Le64(entry, 40) <= h.last
  }

  function PartOf(first: nat, last: nat, size: nat): Part
    requires first <= last
  {
    Part(Scale(first, size), Scale(last - first + 1, size))
  }

  /** The two ESPs that the entries describe. */
  predicate EntriesDescribe(h: Header, entries: seq<byte>, size: nat, crc: seq<byte> -> nat, a: Part, b: Part)
  {
    && |entries| >= 3 * ENTRY
    && var first, third := entries[..ENTRY], entries[2 * ENTRY..3 * ENTRY];
    && crc(entries) == h.tableChecksum
    && EntryOk(h, first, ESP_A) && EntryOk(h, third, ESP_B)
    && a == PartOf(Le64(first, 32), Le64(first, 40), size) && b == PartOf(Le64(third, 32), Le64(third, 40), size)
    && a.start + a.length <= b.start
  }

  /** Where the entries of a checked header end. */
  function TableEnd(h: Header, size: nat): (end: nat)
    ensures end >= Scale(h.table, size)
  {
    Scale(h.table, size) + h.count * ENTRY
  }

  /** The entry array, when the disk holds all of it. */
  function Table(data: seq<byte>, h: Header, size: nat): Option<seq<byte>> {
    if TableEnd(h, size) <= |data| then Some(data[Scale(h.table, size)..TableEnd(h, size)]) else None
  }

  /** The two ESPs that a disk's primary GPT describes, when every check passes. */
  predicate Describes(data: seq<byte>, size: nat, crc: seq<byte> -> nat, a: Part, b: Part) {
    && 2 * size <= |data| && HeaderOk(data[size..2 * size], size, crc)
    && var h := Parse(data[size..2 * size]);
       Table(data, h, size).Some? && EntriesDescribe(h, Table(data, h, size).value, size, crc, a, b)
  }

  /** The two ESPs are non-empty, sector-aligned, disjoint, and behind the GPT header and its entries. */
  lemma DescribedParts(data: seq<byte>, size: nat, crc: seq<byte> -> nat, a: Part, b: Part)
    requires SectorSize(size) && Describes(data, size, crc, a, b)
    ensures Multiple(a.start, size) && Multiple(a.length, size) && Multiple(b.start, size) && Multiple(b.length, size)
    ensures a.length >= size && b.length >= size && a.start + a.length <= b.start
    ensures 2 * size <= TableEnd(Parse(data[size..2 * size]), size) <= a.start
  {
    hide Parse, Bounded, EntriesDescribe, Multiple;
    var h := Parse(data[size..2 * size]);
    EntriesPlace(h, Table(data, h, size).value, size, crc, a, b);
  }

  lemma EntriesPlace(h: Header, entries: seq<byte>, size: nat, crc: seq<byte> -> nat, a: Part, b: Part)
    requires size > 0 && Bounded(h, size) && EntriesDescribe(h, entries, size, crc, a, b)
    ensures Multiple(a.start, size) && Multiple(a.length, size) && Multiple(b.start, size) && Multiple(b.length, size)
    ensures a.length >= size && b.length >= size && a.start + a.length <= b.start
    ensures 2 * size <= TableEnd(h, size) <= a.start
  {
    hide Le64, NameField, Multiple, Scale;
    var first, third := entries[..ENTRY], entries[2 * ENTRY..3 * ENTRY];
    ScaleGrows(2, h.table, size);
    ScaleAdds(1, 1, size);
    ScaleOne(size);
    ScaleGrows(h.first, Le64(first, 32), size);
    ScaleGrows(1, Le64(first, 40) - Le64(first, 32) + 1, size);
    ScaleGrows(1, Le64(third, 40) - Le64(third, 32) + 1, size);
  }

  /** `esp_partitions`: raises unless the GPT passes every check. */
  method EspPartitions(disk: Disk, crc: seq<byte> -> nat) returns (r: Result<(Part, Part)>)
    requires disk.Valid()
    ensures r.Ok? ==> Describes(disk.data, disk.sector, crc, r.value.0, r.value.1)
    ensures r.Err? ==> forall a, b :: !Describes(disk.data, disk.sector, crc, a, b)
  {
    hide Parse, Le64, NameField, Scale;
    var size := disk.sector;
    var header := disk.Read(size, size);
    if header.Err? || !HeaderOk(header.value, size, crc) { return Err; }
    var h := Parse(header.value);
    var entries := disk.Read(Scale(h.table, size), h.count * ENTRY);
    if entries.Err? || crc(entries.value) != h.tableChecksum { return Err; }
    var first, third := entries.value[..ENTRY], entries.value[2 * ENTRY..3 * ENTRY];
    if !EntryOk(h, first, ESP_A) || !EntryOk(h, third, ESP_B) { return Err; }
    var a, b := PartOf(Le64(first, 32), Le64(first, 40), size), PartOf(Le64(third, 32), Le64(third, 40), size);
    if a.start + a.length > b.start { return Err; }
    r := Ok((a, b));
  }
}
