/** What a factory flash must show before it writes, and when it may erase the identity region, spelled out on the bytes. */
module FactoryGates {
  import opened Common
  import opened Bytes
  import opened FactoryManifest
  import opened FactoryChunks
  import opened FactoryFlash
  import UbootGates

  // ---------------------------------------------------------------- the manifest

  /** What an accepted manifest says; the objects are those of the operations to be flashed and the programmer. */
  predicate Terms(w: World, m: Manifest, openpilot: bool) {
    && m.product == "asius-v0" && w.version(m.version) && m.manifestVersion == 3 && m.sectorSize == 4096
    && m.imageSize > 0 && m.imageSize % 4096 == 0
    && m.persistOffset > 0 && m.persistOffset % 4096 == 0 && m.persistSize > 0 && m.persistSize % 4096 == 0
    && m.persistOffset + m.persistSize < m.imageSize
    && |m.base| >= 2 && m.base[0] == Erase(0, m.persistOffset)
    && m.base[1] == Erase(m.persistOffset + m.persistSize, m.imageSize - m.persistOffset - m.persistSize)
    && (forall i :: 0 <= i < |m.base| ==> OperationTerms(m, m.base[i]))
    && (openpilot ==> m.openpilot.Some? && forall i :: 0 <= i < |m.openpilot.value| ==> OperationTerms(m, m.openpilot.value[i]))
    && var objects := AllObjects(m, openpilot);
       && (forall i :: 0 <= i < |objects| ==> ObjectTerms(objects[i]))
       && forall i, j :: 0 <= i < j < |objects| && objects[i].name == objects[j].name ==>
            objects[i].size == objects[j].size && objects[i].sha == objects[j].sha
  }

  lemma ManifestExactly(w: World, m: Manifest, openpilot: bool)
    ensures FactoryOk(w, m, openpilot) <==> Terms(w, m, openpilot)
  {
    hide OpOk, OpFits, ObjectOk, Objects, AllObjects, OperationTerms, ObjectTerms;
    forall op: Op
      ensures OperationTerms(m, op) <==> OpOk(m, op) && OpFits(op, m.imageSize)
    {
      OperationExactly(m, op);
    }
    forall o: Object
      ensures ObjectTerms(o) <==> ObjectOk(o)
    {
      ObjectExactly(o);
    }
  }

  /** An operation: erase or program, whole sectors, inside the image, clear of the identity region; chunks are XZ with a hash. */
  predicate OperationTerms(m: Manifest, op: Op) {
    && (op.Erase? || op.Program?) && op.offset >= 0 && op.size > 0 && op.offset % 4096 == 0 && op.size % 4096 == 0
    && op.offset + op.size <= m.imageSize
    && (op.offset + op.size <= m.persistOffset || m.persistOffset + m.persistSize <= op.offset)
    && (op.Program? ==> op.chunk.xz && UbootGates.Hexadecimal(op.chunk.sha))
  }

  predicate ObjectTerms(o: Object) {
    o.size > 0 && UbootGates.Hexadecimal(o.sha) && o.https && o.name !in {"", ".", "..", "flash.json", "flash.json.sig"}
  }

  lemma OperationExactly(m: Manifest, op: Op)
    ensures OperationTerms(m, op) <==> OpOk(m, op) && OpFits(op, m.imageSize)
  {
    if op.Program? { UbootGates.HexadecimalExactly(op.chunk.sha); }
    hide Hash, UbootGates.Hexadecimal;
  }

  lemma ObjectExactly(o: Object)
    ensures ObjectTerms(o) <==> ObjectOk(o)
  {
    UbootGates.HexadecimalExactly(o.sha);
    hide Hash, UbootGates.Hexadecimal;
  }

  // ---------------------------------------------------------------- the chunk cache

  /** A directory prepared for this payload: its hash, or that of the manifest, and chunk by chunk size, hash and time. */
  predicate Reusable(w: World, dir: Dir, key: Key, programs: seq<Op>)
    requires forall i :: 0 <= i < |programs| ==> programs[i].Program?
  {
    && dir.marker.Some? && dir.raw.Some?
    && var marker := dir.marker.value;
       && marker.payload == key.payload && w.sha(dir.raw.value) == marker.rawSha
       && ((marker.version == 2 && marker.payloadSha == key.payloadSha) || (marker.version == 1 && marker.manifestSha == key.manifestSha))
       && |marker.files| == |programs|
       && (forall k :: 0 <= k < |programs| ==> ChunkShown(w, dir.chunks, programs[k], k, marker.files[k]))
       && forall name :: name in dir.chunks ==> exists k: nat :: k < |programs| && name == ChunkName(k)
  }

  predicate ChunkShown(w: World, chunks: map<string, File>, op: Op, k: nat, e: Entry)
    requires op.Program?
  {
    && ChunkName(k) in chunks
    && var file := chunks[ChunkName(k)];
       && |file.bytes| == op.size && w.sha(file.bytes) == op.chunk.sha
       && e == Entry(ChunkName(k), op.chunk.sha, |file.bytes|, file.mtime)
  }

  /** A prepared directory is reused exactly when it is reusable. */
  lemma ReuseExactly(w: World, dir: Dir, key: Key, programs: seq<Op>)
    requires forall i :: 0 <= i < |programs| ==> programs[i].Program?
    ensures CacheValid(w, dir, key, programs) <==> Reusable(w, dir, key, programs)
  {
    hide ChunkName;
    if dir.marker.Some? && |dir.marker.value.files| == |programs| {
      ChunksShown(w, dir.chunks, programs, dir.marker.value.files);
    }
    hide ChunkShown, ChunksOk, EntryOk;
    NamesExactly(dir.chunks, |programs|);
  }

  lemma ChunksShown(w: World, chunks: map<string, File>, programs: seq<Op>, files: seq<Entry>)
    requires (forall i :: 0 <= i < |programs| ==> programs[i].Program?) && |files| == |programs|
    ensures (forall k :: 0 <= k < |programs| ==> ChunkShown(w, chunks, programs[k], k, files[k]))
       <==> ChunksOk(w, chunks, programs) && forall k :: 0 <= k < |programs| ==> EntryOk(chunks, programs, k, files[k])
    ensures (forall k :: 0 <= k < |programs| ==> ChunkShown(w, chunks, programs[k], k, files[k]))
        ==> forall k: nat :: k < |programs| ==> ChunkName(k) in chunks
  {
    hide ChunkName;
    assert forall k: nat :: k < |programs| && ChunkShown(w, chunks, programs[k], k, files[k]) ==> ChunkName(k) in chunks;
    assert forall k :: 0 <= k < |programs| ==>
      (ChunkShown(w, chunks, programs[k], k, files[k]) <==> ChunkOk(w, chunks, programs, k) && EntryOk(chunks, programs, k, files[k]));
    hide ChunkShown, ChunkOk, EntryOk;
  }

  lemma NamesExactly(chunks: map<string, File>, n: nat)
    ensures chunks.Keys == ChunkNames(n) <==>
      && (forall k: nat :: k < n ==> ChunkName(k) in chunks)
      && forall name :: name in chunks ==> exists k: nat :: k < n && name == ChunkName(k)
  {
    hide ChunkName;
    assert forall k: nat :: k < n ==> ChunkName(k) in ChunkNames(n);
  }

  /** A chunk is made exactly of an object with its size and hash that decompresses to the size and hash of its operation. */
  lemma ChunkExactly(w: World, files: Files, op: Op, bytes: seq<byte>)
    requires op.Program?
    ensures Unpacked(w, files, op) == Ok(bytes) <==>
      var o := op.chunk.file;
      && o.name in files && |files[o.name]| == o.size && w.sha(files[o.name]) == o.sha
      && w.unxz(files[o.name]) == Some(bytes) && |bytes| == op.size && w.sha(bytes) == op.chunk.sha
  {
  }

  // ---------------------------------------------------------------- the checks before the first write

  /** Whether a flash is refused before anything is written: a range beyond the device, or into the identity region. */
  predicate OutOfPlace(steps: seq<Step>, begin: int, length: int, capacity: nat) {
    || begin <= 0 || length <= 0 || begin + length > capacity
    || exists i :: 0 <= i < |steps| && !steps[i].op.Unknown?
                   && (steps[i].op.offset + steps[i].op.size > capacity
                       || (steps[i].op.offset < begin + length && steps[i].op.offset + steps[i].op.size > begin))
  }

  lemma FlashRefuses(g: Gpt, data: seq<byte>, steps: seq<Step>, begin: int, length: int, erased: byte, sector: nat, link: nat, junk: seq<byte>)
    requires sector >= 512
    requires OutOfPlace(steps, begin, length, |data|) || Initialize(g, data, sector, begin, length).Err?
    ensures Flashed(g, data, steps, begin, length, erased, sector, link, junk) == (false, data)
  {
    hide Initialize, Perform;
    if Allowed(steps, begin, length, |data|) {
      assert forall i :: 0 <= i < |steps| ==> Aside(steps[i].op, begin, length);
    }
  }

  // ---------------------------------------------------------------- when the identity region may be erased

  function EntryOf(entries: seq<byte>, k: nat): (e: seq<byte>)
    requires (k + 1) * 128 <= |entries|
    ensures |e| == 128
  {
    entries[k * 128..k * 128 + 128]
  }

  /** An entry that is in use and named "persist". */
  predicate NamedPersist(g: Gpt, e: seq<byte>)
    requires |e| == 128
  {
    e[..16] != Zeros(16) && g.name(e[56..128]) == Some([112, 101, 114, 115, 105, 115, 116])
  }

  /** An entry that is unused, or has a name, and the right place when it is persist. */
  predicate Tolerable(g: Gpt, e: seq<byte>, k: nat, sector: nat, offset: int, size: int)
    requires |e| == 128
  {
    || e[..16] == Zeros(16)
    || (&& g.name(e[56..128]).Some?
        && (NamedPersist(g, e) ==>
              k == 5 && Le64(e, 32) * sector == offset && (Le64(e, 40) - Le64(e, 32) + 1) * sector == size))
  }

  lemma EntrySaysExactly(g: Gpt, e: seq<byte>, k: nat, sector: nat, offset: int, size: int)
    requires |e| == 128
    ensures EntrySays(g, e, k, sector, offset, size)
         == if Tolerable(g, e, k, sector, offset, size) then Ok(NamedPersist(g, e)) else Err
  {
    hide Le64;
    UbootGates.AllZeroIs(e[..16]);
  }

  /** The scan of the table: it raises on the first intolerable entry, and otherwise says whether persist is there. */
  lemma {:induction false} ListsExactly(g: Gpt, entries: seq<byte>, n: nat, sector: nat, offset: int, size: int)
    requires n * 128 <= |entries|
    ensures Lists(g, entries, n, sector, offset, size).Ok? <==>
            forall k: nat :: k < n ==> Tolerable(g, EntryOf(entries, k), k, sector, offset, size)
    ensures Lists(g, entries, n, sector, offset, size).Ok? ==>
            (Lists(g, entries, n, sector, offset, size).value <==> exists k: nat :: k < n && NamedPersist(g, EntryOf(entries, k)))
  {
    hide EntrySays, Tolerable, NamedPersist;
    if n > 0 {
      ListsExactly(g, entries, n - 1, sector, offset, size);
      EntrySaysExactly(g, EntryOf(entries, n - 1), n - 1, sector, offset, size);
      assert entries[(n - 1) * 128..n * 128] == EntryOf(entries, n - 1);
      hide EntryOf;
    }
  }

  /** A valid header in sector 1: signature, revision 1.0, size, checksum with its own field zeroed, and the shape of the table. */
  predicate ValidHeader(g: Gpt, h: seq<byte>, sector: nat)
    requires |h| == sector >= 512
  {
    && h[..8] == [69, 70, 73, 32, 80, 65, 82, 84] && Le32(h, 8) == 0x1_0000 && 92 <= Le32(h, 12) <= sector
    && g.crc((h[..16] + [0, 0, 0, 0] + h[20..])[..Le32(h, 12)]) == Le32(h, 16)
    && Le64(h, 72) == 2 && 6 <= Le32(h, 80) <= 128 && Le32(h, 84) == 128
  }

  /** Entry `k` of the table that starts in sector 2. */
  function Slot(data: seq<byte>, sector: nat, k: nat): (e: seq<byte>)
    requires 2 * sector + (k + 1) * 128 <= |data|
    ensures |e| == 128
  {
    data[2 * sector + k * 128..2 * sector + k * 128 + 128]
  }

  /** A readable, valid GPT of `count` entries, all of them tolerable and none of them persist. */
  ghost predicate ProvesAbsent(g: Gpt, data: seq<byte>, sector: nat, offset: int, size: int)
    requires sector >= 512 && 2 * sector <= |data|
  {
    var header := data[sector..2 * sector];
    var count := Le32(header, 80);
    && ValidHeader(g, header, sector)
    && 2 * sector + count * 128 <= |data|
    && g.crc(data[2 * sector..2 * sector + count * 128]) == Le32(header, 88)
    && forall k: nat :: k < count ==>
         Tolerable(g, Slot(data, sector, k), k, sector, offset, size) && !NamedPersist(g, Slot(data, sector, k))
  }

  /**
   * The identity region may be erased exactly when a valid GPT proves that there is no persist partition, and the
   * region can be read and carries no identity label. A blank GPT never allows it.
   */
  lemma EraseExactly(g: Gpt, data: seq<byte>, sector: nat, offset: int, size: int)
    requires sector >= 512
    ensures Initialize(g, data, sector, offset, size) == Ok(true) <==>
      && 2 * sector <= |data| && data[sector..2 * sector] != Zeros(sector)
      && ProvesAbsent(g, data, sector, offset, size)
      && 0 <= offset + 1024 && offset + 2048 <= |data| && !Labelled(data, offset)
  {
    hide TableSays, Provisioned, Labelled, ProvesAbsent;
    if 2 * sector <= |data| {
      UbootGates.AllZeroIs(data[sector..2 * sector]);
      TableExactly(g, data, sector, offset, size);
      if 0 <= offset + 1024 && offset + 2048 <= |data| { LabelledExactly(data, offset); }
    }
  }

  lemma HeaderExactly(g: Gpt, h: seq<byte>, sector: nat)
    requires |h| == sector >= 512
    ensures HeaderOk(g, h, sector) <==> ValidHeader(g, h, sector)
  {
    hide Le32, Le64;
    assert EdlDisk.Unsigned(h) == h[..16] + [0, 0, 0, 0] + h[20..];
  }

  lemma TableExactly(g: Gpt, data: seq<byte>, sector: nat, offset: int, size: int)
    requires sector >= 512 && 2 * sector <= |data|
    ensures TableSays(g, data, data[sector..2 * sector], sector, offset, size) == Ok(false)
        <==> ProvesAbsent(g, data, sector, offset, size)
  {
    hide Le32, Lists, NamedPersist, Tolerable, HeaderOk, ValidHeader, Slot;
    var h := data[sector..2 * sector];
    HeaderExactly(g, h, sector);
    if ValidHeader(g, h, sector) { CountBounded(g, h, sector); }
    var count := Le32(h, 80);
    if ValidHeader(g, h, sector) && 2 * sector + count * 128 <= |data| {
      SlotsExactly(g, data, sector, count, offset, size);
      DivisionUnique(count * 128, 128, count, 0);
    }
  }

  lemma CountBounded(g: Gpt, h: seq<byte>, sector: nat)
    requires |h| == sector >= 512 && ValidHeader(g, h, sector)
    ensures 6 <= Le32(h, 80) <= 128
  {
  }

  lemma SlotsExactly(g: Gpt, data: seq<byte>, sector: nat, count: nat, offset: int, size: int)
    requires 2 * sector + count * 128 <= |data|
    ensures Lists(g, data[2 * sector..2 * sector + count * 128], count, sector, offset, size) == Ok(false) <==>
      forall k: nat :: k < count ==>
        Tolerable(g, Slot(data, sector, k), k, sector, offset, size) && !NamedPersist(g, Slot(data, sector, k))
  {
    hide Lists, NamedPersist, Tolerable;
    var entries := data[2 * sector..2 * sector + count * 128];
    ListsExactly(g, entries, count, sector, offset, size);
    forall k: nat | k < count
      ensures EntryOf(entries, k) == Slot(data, sector, k)
    {
      SubSlice(data, 2 * sector, 2 * sector + count * 128, k * 128, k * 128 + 128);
    }
    hide EntryOf, Slot;
  }
}
