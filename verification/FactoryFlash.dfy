/** Flashing a prepared factory image: what ends up on the disk, and why the identity region survives. */
module FactoryFlash {
  import opened Common
  import opened Bytes
  import opened FactoryManifest
  import opened FactoryChunks
  import EdlDisk

  const ENTRY := 128
  const IDENTITY: seq<byte> := [0x56, 0x41, 0x4d, 0x4f, 0x53, 0x2d, 0x49, 0x44, 0x45, 0x4e, 0x54, 0x49, 0x54, 0x59]  // "VAMOS-IDENTITY"
  const PERSIST: seq<byte> := [0x70, 0x65, 0x72, 0x73, 0x69, 0x73, 0x74]  // "persist"

  /** What the model leaves open: CRC-32, and which names decode as UTF-16 (None: the decoder raises). */
  datatype Gpt = Gpt(crc: seq<byte> -> nat, name: seq<byte> -> Option<seq<byte>>)

  // ---------------------------------------------------------------- initialize_persist

  function ReadAt(data: seq<byte>, at: int, size: int): Result<seq<byte>> {
    if at >= 0 && size > 0 && at + size <= |data| then Ok(data[at..at + size]) else Err
  }

  predicate HeaderOk(g: Gpt, header: seq<byte>, sector: nat)
    requires |header| == sector >= 512
  {
    && header[..8] == EdlDisk.SIGNATURE && Le32(header, 8) == 0x1_0000
    && Le64(header, 72) == 2 && 6 <= Le32(header, 80) <= 128 && Le32(header, 84) == ENTRY
    && var size := Le32(header, 12);
       92 <= size <= sector && g.crc(EdlDisk.Unsigned(header)[..size]) == Le32(header, 16)
  }

  /** What one entry says: nothing, persist where it belongs (true), or trouble. */
  function EntrySays(g: Gpt, entry: seq<byte>, index: nat, sector: nat, offset: int, size: int): Result<bool>
    requires |entry| == ENTRY
  {
    if AllZero(entry[..16]) then Ok(false)
    else if g.name(entry[56..128]).None? then Err
    else if g.name(entry[56..128]) != Some(PERSIST) then Ok(false)
    else
      var start, end := Le64(entry, 32), Le64(entry, 40);
      if index != 5 || start * sector != offset || (end - start + 1) * sector != size then Err else Ok(true)
  }

  /** Whether one of the first `n` entries is persist. */
  function Lists(g: Gpt, entries: seq<byte>, n: nat, sector: nat, offset: int, size: int): Result<bool>
    requires n * ENTRY <= |entries|
  {
    if n == 0 then Ok(false)
    else
      var found :- Lists(g, entries, n - 1, sector, offset, size);
      var here :- EntrySays(g, entries[(n - 1) * ENTRY..n * ENTRY], n - 1, sector, offset, size);
      Ok(found || here)
  }

  /** The superblock of a provisioned identity filesystem: ext4 magic and volume name. */
  predicate Provisioned(block: seq<byte>)
    requires |block| == 1024
  {
    block[56..58] == [0x53, 0xef] && StripNul(block[120..136]) == IDENTITY
  }

  function StripNul(s: seq<byte>): seq<byte> {
    if s != [] && s[|s| - 1] == 0 then StripNul(s[..|s| - 1]) else s
  }

  /** The verdict on a GPT whose header is not blank. */
  function TableSays(g: Gpt, data: seq<byte>, header: seq<byte>, sector: nat, offset: int, size: int): Result<bool>
    requires |header| == sector >= 512
  {
    var _ :- Need(HeaderOk(g, header, sector));
    var entries :- ReadAt(data, 2 * sector, Le32(header, 80) * ENTRY);
    var _ :- Need(g.crc(entries) == Le32(header, 88));
    Lists(g, entries, |entries| / ENTRY, sector, offset, size)
  }

  /** `initialize_persist`: true only for a valid table without persist and a region that is not provisioned. */
  function Initialize(g: Gpt, data: seq<byte>, sector: nat, offset: int, size: int): Result<bool>
    requires sector >= 512
  {
    var header :- ReadAt(data, sector, sector);
    if AllZero(header) then Ok(false)
    else
      var listed :- TableSays(g, data, header, sector, offset, size);
      if listed then Ok(false)
      else
        var block :- ReadAt(data, offset + 1024, 1024);
        Ok(!Provisioned(block))
  }

  /** "VAMOS-IDENTITY", then two NULs. */
  const NAME: seq<byte> := [86, 65, 77, 79, 83, 45, 73, 68, 69, 78, 84, 73, 84, 89, 0, 0]

  /** The superblock at `offset` carries the ext4 magic and the identity label. */
  predicate Labelled(data: seq<byte>, offset: int)
    requires 0 <= offset + 1024 && offset + 2048 <= |data|
  {
    data[offset + 1080] == 0x53 && data[offset + 1081] == 0xef && data[offset + 1144..offset + 1160] == NAME
  }

  /** A region that carries the ext4 magic and the identity label in its superblock, whatever surrounds it. */
  predicate Identity(data: seq<byte>, offset: int, size: int) {
    && 0 <= offset && offset + size <= |data| && 2048 <= size
    && Labelled(data, offset)
  }

  lemma StripExactly(s: seq<byte>)
    requires |s| == 16
    ensures StripNul(s) == IDENTITY <==> s == NAME
  {
    StripLength(s);
    assert s == s[..14] + [s[14], s[15]];
    assert NAME == IDENTITY + [0, 0];
    if s == NAME {
      assert s[..15][..14] == IDENTITY && s[..15] == s[..|s| - 1] && StripNul(s) == StripNul(s[..15]);
      assert StripNul(s[..15]) == StripNul(s[..15][..14]);
      assert StripNul(IDENTITY) == IDENTITY;
    }
  }

  lemma {:induction false} StripLength(s: seq<byte>)
    ensures |StripNul(s)| <= |s| && StripNul(s) == s[..|StripNul(s)|]
    ensures forall i :: |StripNul(s)| <= i < |s| ==> s[i] == 0
  {
    if s != [] && s[|s| - 1] == 0 { StripLength(s[..|s| - 1]); }
  }

  lemma LabelledExactly(data: seq<byte>, offset: int)
    requires 0 <= offset + 1024 && offset + 2048 <= |data|
    ensures Provisioned(data[offset + 1024..offset + 2048]) <==> Labelled(data, offset)
  {
    var block := data[offset + 1024..offset + 2048];
    SubSlice(data, offset + 1024, offset + 2048, 56, 58);
    SubSlice(data, offset + 1024, offset + 2048, 120, 136);
    assert block[56..58] == [data[offset + 1080], data[offset + 1081]];
    StripExactly(block[120..136]);
    hide StripNul;
  }

  lemma IdentityKept(g: Gpt, data: seq<byte>, sector: nat, offset: int, size: int)
    requires sector >= 512 && Identity(data, offset, size)
    ensures Initialize(g, data, sector, offset, size) != Ok(true)
  {
    LabelledExactly(data, offset);
    hide TableSays, Provisioned;
  }

  // ---------------------------------------------------------------- the device

  function Blank(n: nat, erased: byte): (s: seq<byte>)
    ensures |s| == n
  {
    seq(n, i => erased)
  }

  /** A range whose operation was cut: every byte of it is old or junk, in any mixture that `junk` describes. */
  function Torn(data: seq<byte>, at: nat, size: nat, junk: seq<byte>): (r: seq<byte>)
    requires at + size <= |data|
    ensures |r| == |data|
  {
    Splice(data, at, seq(size, i requires 0 <= i < size => if i < |junk| then junk[i] else data[at + i]))
  }

  /** The bytes that a step stores. */
  function Stored(s: Step, erased: byte): (bytes: seq<byte>)
    requires !s.op.Unknown?
  {
    if s.chunk.Some? then s.chunk.value else Blank(if s.op.size >= 0 then s.op.size else 0, erased)
  }

  predicate Doable(s: Step, erased: byte, sector: nat, capacity: nat) {
    && !s.op.Unknown? && s.op.offset >= 0 && Stored(s, erased) != []
    && Multiple(s.op.offset, sector) && Multiple(|Stored(s, erased)|, sector)
    && s.op.offset + |Stored(s, erased)| <= capacity
  }

  function Apply(data: seq<byte>, s: Step, erased: byte, sector: nat): (r: seq<byte>)
    requires Doable(s, erased, sector, |data|)
    ensures |r| == |data|
  {
    Splice(data, s.op.offset, Stored(s, erased))
  }

  /** The outcome of the steps in order, when the session survives `link` of them. */
  function Perform(data: seq<byte>, steps: seq<Step>, erased: byte, sector: nat, link: nat, junk: seq<byte>): (r: (bool, seq<byte>))
    ensures |r.1| == |data|
    decreases |steps|
  {
    if steps == [] then (true, data)
    else
      var s := steps[0];
      if !Doable(s, erased, sector, |data|) then (false, data)
      else if link == 0 then (false, Torn(data, s.op.offset, |Stored(s, erased)|, junk))
      else Perform(Apply(data, s, erased, sector), steps[1..], erased, sector, link - 1, junk)
  }

  predicate Aside(op: Op, begin: int, length: int) {
    !op.Unknown? && (op.offset >= begin + length || op.offset + op.size <= begin)
  }

  /** The checks of all ranges before the first destructive operation. */
  predicate Allowed(steps: seq<Step>, begin: int, length: int, capacity: nat) {
    && begin > 0 && length > 0 && begin + length <= capacity
    && forall i :: 0 <= i < |steps| ==>
         Aside(steps[i].op, begin, length) && steps[i].op.offset + steps[i].op.size <= capacity
  }

  /** `flash_operations` with a persist range, as a function of the disk. */
  function Flashed(g: Gpt, data: seq<byte>, steps: seq<Step>, begin: int, length: int, erased: byte, sector: nat, link: nat, junk: seq<byte>)
    : (r: (bool, seq<byte>))
    requires sector >= 512
    ensures |r.1| == |data|
  {
    if !Allowed(steps, begin, length, |data|) then (false, data)
    else
      var init := Initialize(g, data, sector, begin, length);
      if init.Err? then (false, data)
      else if !init.value then Perform(data, steps, erased, sector, link, junk)
      else if !Multiple(begin, sector) || !Multiple(length, sector) then (false, data)
      else if link == 0 then (false, Torn(data, begin, length, junk))
      else Perform(Splice(data, begin, Blank(length, erased)), steps, erased, sector, link - 1, junk)
  }

  class Flash {
    const sector: nat
    const erased: byte
    var data: seq<byte>
    var link: nat  // destructive operations left before the session is cut
    var junk: seq<byte>  // what the operation that is cut leaves behind

    ghost predicate Valid()
      reads this
    {
      sector >= 512
    }

    constructor (sector: nat, erased: byte, data: seq<byte>, link: nat, junk: seq<byte>)
      requires sector >= 512
      ensures Valid() && this.sector == sector && this.erased == erased && this.data == data && this.link == link && this.junk == junk
    {
      this.sector, this.erased, this.data, this.link, this.junk := sector, erased, data, link, junk;
    }

    /** `erase`. */
    method Erase(offset: int, size: int) returns (ok: bool)
      requires Valid()
      modifies `data, `link
      ensures |data| == |old(data)|
      ensures var fits := offset >= 0 && size > 0 && Multiple(offset, sector) && Multiple(size, sector) && offset + size <= |old(data)|;
              && (ok <==> fits && old(link) > 0)
              && (!fits ==> data == old(data))
              && (fits && old(link) == 0 ==> data == Torn(old(data), offset, size, junk))
              && (ok ==> data == Splice(old(data), offset, Blank(size, erased)) && link == old(link) - 1)
    {
      if offset < 0 || size <= 0 || !Multiple(offset, sector) || !Multiple(size, sector) { return false; }
      if offset + size > |data| { return false; }
      if link == 0 {
        data := Torn(data, offset, size, junk);
        return false;
      }
      data, link := Splice(data, offset, Blank(size, erased)), link - 1;
      ok := true;
    }

    /** `write_file_verified`. */
    method WriteFile(offset: int, bytes: seq<byte>) returns (ok: bool)
      requires Valid()
      modifies `data, `link
      ensures |data| == |old(data)|
      ensures var fits := offset >= 0 && bytes != [] && Multiple(offset, sector) && Multiple(|bytes|, sector) && offset + |bytes| <= |old(data)|;
              && (ok <==> fits && old(link) > 0)
              && (!fits ==> data == old(data))
              && (fits && old(link) == 0 ==> data == Torn(old(data), offset, |bytes|, junk))
              && (ok ==> data == Splice(old(data), offset, bytes) && link == old(link) - 1)
    {
      if offset < 0 || bytes == [] || !Multiple(offset, sector) || !Multiple(|bytes|, sector) { return false; }
      if offset + |bytes| > |data| { return false; }
      if link == 0 {
        data := Torn(data, offset, |bytes|, junk);
        return false;
      }
      data, link := Splice(data, offset, bytes), link - 1;
      ok := data[offset..offset + |bytes|] == bytes;
    }

    method Run(s: Step) returns (ok: bool)
      requires Valid() && !s.op.Unknown?
      modifies `data, `link
      ensures |data| == |old(data)|
      ensures var fits := Doable(s, erased, sector, |old(data)|);
              && (ok <==> fits && old(link) > 0)
              && (!fits ==> data == old(data))
              && (fits && old(link) == 0 ==> data == Torn(old(data), s.op.offset, |Stored(s, erased)|, junk))
              && (ok ==> data == Apply(old(data), s, erased, sector) && link == old(link) - 1)
    {
      if s.chunk.None? {
        ok := Erase(s.op.offset, s.op.size);
      } else {
        ok := WriteFile(s.op.offset, s.chunk.value);
      }
    }

    method Decide(g: Gpt, offset: int, size: int) returns (r: Result<bool>)
      requires Valid()
      ensures r == Initialize(g, data, sector, offset, size)
    {
      hide HeaderOk, EntrySays, Provisioned, Le64;
      var header := ReadAt(data, sector, sector);
      if header.Err? { return Err; }
      if AllZero(header.value) { return Ok(false); }
      if !HeaderOk(g, header.value, sector) { return Err; }
      var entries := ReadAt(data, 2 * sector, Le32(header.value, 80) * ENTRY);
      if entries.Err? || g.crc(entries.value) != Le32(header.value, 88) { return Err; }
      var found, count := false, |entries.value| / ENTRY;
      for n := 0 to count
        invariant Lists(g, entries.value, n, sector, offset, size) == Ok(found)
      {
        var says := EntrySays(g, entries.value[n * ENTRY..(n + 1) * ENTRY], n, sector, offset, size);
        if says.Err? {
          ListsFail(g, entries.value, n + 1, count, sector, offset, size);
          return Err;
        }
        found := found || says.value;
      }
      if found { return Ok(false); }
      var block := ReadAt(data, offset + 1024, 1024);
      if block.Err? { return Err; }
      r := Ok(!Provisioned(block.value));
    }

    /** `flash_operations`: the loop does what `Flashed` says, also when it is cut. */
    method FlashOperations(g: Gpt, steps: seq<Step>, begin: int, length: int) returns (ok: bool)
      requires Valid()
      modifies `data, `link
      ensures (ok, data) == Flashed(g, old(data), steps, begin, length, erased, sector, old(link), junk)
    {
      hide Initialize, Apply, Doable, Torn, Stored, Blank;
      var allowed := CheckRanges(steps, begin, length);
      if !allowed { return false; }
      var init := Decide(g, begin, length);
      if init.Err? { return false; }
      if init.value {
        ok := Erase(begin, length);
        if !ok { return; }
      }
      ghost var start, budget := data, link;
      assert steps[0..] == steps;
      for n := 0 to |steps|
        invariant Perform(data, steps[n..], erased, sector, link, junk) == Perform(start, steps, erased, sector, budget, junk)
      {
        assert steps[n..][0] == steps[n] && steps[n..][1..] == steps[n + 1..];
        assert Aside(steps[n].op, begin, length);
        ok := Run(steps[n]);
        if !ok { return; }
      }
      ok := true;
    }

    method CheckRanges(steps: seq<Step>, begin: int, length: int) returns (ok: bool)
      ensures ok <==> Allowed(steps, begin, length, |data|)
    {
      for n := 0 to |steps|
        invariant forall i :: 0 <= i < n ==> steps[i].op.Unknown? || steps[i].op.offset + steps[i].op.size <= |data|
      {
        if steps[n].op.Unknown? || steps[n].op.offset + steps[n].op.size > |data| { return false; }
      }
      if begin <= 0 || length <= 0 || begin + length > |data| { return false; }
      for n := 0 to |steps|
        invariant forall i :: 0 <= i < n ==> Aside(steps[i].op, begin, length)
      {
        if !Aside(steps[n].op, begin, length) { return false; }
      }
      ok := true;
    }
  }

  lemma {:induction false} ListsFail(g: Gpt, entries: seq<byte>, n: nat, count: nat, sector: nat, offset: int, size: int)
    requires n <= count && count * ENTRY <= |entries| && Lists(g, entries, n, sector, offset, size).Err?
    ensures Lists(g, entries, count, sector, offset, size).Err?
  {
    hide EntrySays;
    if n < count { ListsFail(g, entries, n, count - 1, sector, offset, size); }
  }
}
