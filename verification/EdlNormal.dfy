/** Setting the one-shot normal-boot request on a raw disk: only the two grubenv files change. */
module EdlNormal {
  import opened Common
  import opened Bytes
  import opened EdlDisk
  import opened FatVolume
  import BootControl
  import BootControlCodec
  import RedundantStore

  const SNAPSHOT := 0x2_0000

  /** A FAT reader for the record of one ESP, over a snapshot of its first bytes and a cache of FAT sectors. */
  class FatBootControl {
    const disk: Disk
    const start: nat
    const length: nat
    var metadata: seq<byte>
    var g: Geometry
    var fatCache: map<nat, seq<byte>>
    var extents: seq<Extent>

    ghost predicate Located()
      reads disk
    {
      disk.Valid() && 0 < length && start + length <= |disk.data|
    }

    /** The bytes of the ESP as the device holds them. */
    ghost function Esp(): seq<byte>
      requires Located()
      reads disk
    {
      disk.data[start..start + length]
    }

    /** The snapshot and every cached FAT sector agree with the device. */
    ghost predicate Fresh()
      requires Located()
      reads this, disk
    {
      && metadata == Esp()[..Min(length, SNAPSHOT)]
      && forall at :: at in fatCache ==> at + g.bps <= length && fatCache[at] == Esp()[at..at + g.bps]
    }

    constructor (disk: Disk, start: nat, length: nat)
      ensures this.disk == disk && this.start == start && this.length == length
    {
      this.disk, this.start, this.length := disk, start, length;
      metadata, fatCache, extents := [], map[], [];
      g := Geometry(512, 512, 0, 0, 0, 0, 16, 0, []);
    }

    method Read(offset: nat, size: nat) returns (r: Result<seq<byte>>)
      requires Located()
      ensures r == if 0 < size && offset + size <= length then Ok(Esp()[offset..offset + size]) else Err
    {
      if size == 0 || offset + size > length { return Err; }
      r := disk.Read(start + offset, size);
      SubSlice(disk.data, start, start + length, offset, offset + size);
    }

    /** The snapshot answers what it covers, the device the rest: always what the device would say. */
    method ReadMetadata(offset: nat, size: nat) returns (r: Result<seq<byte>>)
      requires Located() && Fresh()
      ensures r == if 0 < size && offset + size <= length then Ok(Esp()[offset..offset + size]) else Err
    {
      if size > 0 && offset + size <= |metadata| {
        SubSlice(Esp(), 0, Min(length, SNAPSHOT), offset, offset + size);
        return Ok(metadata[offset..offset + size]);
      }
      r := Read(offset, size);
    }

    /** A whole FAT sector, from the cache when it was read before. */
    method FatSector(at: nat) returns (bytes: seq<byte>)
      requires Located() && Fresh() && 0 < g.bps && at + g.bps <= length
      modifies `fatCache
      ensures Fresh() && bytes == Esp()[at..at + g.bps]
    {
      if at !in fatCache {
        var read := ReadMetadata(at, g.bps);
        fatCache := fatCache[at := read.value];
      }
      bytes := fatCache[at];
    }

    /** One FAT entry. */
    method Entry(i: nat, cluster: nat) returns (value: nat)
      requires Located() && Fresh() && Sound(g, length, disk.sector) && i < |g.fatOffsets| && InData(g, cluster)
      modifies `fatCache
      ensures Fresh()
      ensures g.fatOffsets[i] + (cluster + 1) * Width(g) <= length
      ensures value == FatValue(Esp(), g, g.fatOffsets[i], cluster)
    {
      assert g.bps > 0;
      EntryInSector(g, length, disk.sector, i, cluster);
      hide Down, Up, Scale, Sound, Le16, Le32, Fresh, InData;
      var entry := cluster * Width(g);
      var off := entry - Down(entry, g.bps);
      var bytes := FatSector(g.fatOffsets[i] + Down(entry, g.bps));
      SameField(Esp(), g.fatOffsets[i] + Down(entry, g.bps), g.bps, off);
      value := if g.bits == 16 then Le16(bytes, off) else Le32(bytes, off) % 0x1000_0000;
    }

    /** `chain`: follow a chain, remembering the clusters seen. */
    method Chain(first: nat) returns (r: Result<seq<nat>>)
      requires Located() && Fresh() && Sound(g, length, disk.sector)
      modifies `fatCache
      ensures Fresh()
      ensures r == FatVolume.Chain(Esp(), g, disk.sector, first, [])
    {
      ghost var esp := Esp();
      ghost var whole := FatVolume.Chain(esp, g, disk.sector, first, []);
      var cluster, seen := first, [];
      BehindNothing(whole);
      hide Sound, Scale, FatVolume.Chain, NextCluster, FatValue;
      while true
        invariant Fresh() && Esp() == esp
        invariant Behind(seen, FatVolume.Chain(esp, g, disk.sector, cluster, seen)) == whole
        decreases CHAIN_LIMIT - |seen|
      {
        ChainStep(esp, g, disk.sector, cluster, seen);
        if !InData(g, cluster) || cluster in seen || Scale(|seen|, g.clusterSize) >= CHAIN_LIMIT { return Err; }
        var value := Entry(0, cluster);
        if |g.fatOffsets| == 2 {
          var other := Entry(1, cluster);
          if other != value { return Err; }
        }
        BehindTwice(seen, [cluster], if EndOfChain(g, value) then Ok([]) else FatVolume.Chain(esp, g, disk.sector, value, seen + [cluster]));
        seen := seen + [cluster];
        if EndOfChain(g, value) { return Ok(seen); }
        cluster := value;
      }
    }

    /** The entries of one directory cluster, collected behind earlier ones, up to the end mark. */
    method ScanData(data: seq<byte>, ghost rest: seq<byte>, earlier: seq<Found>, name: seq<byte>, directory: bool)
      returns (r: Result<(seq<Found>, bool)>)
      requires |data| % 32 == 0
      ensures var whole := Behind(earlier, Scan(g, data + rest, name, directory));
              if r.Err? then whole == Err
              else if r.value.1 then whole == Ok(r.value.0)
              else whole == Behind(r.value.0, Scan(g, rest, name, directory))
    {
      var matches, pos := earlier, 0;
      hide Scan;
      while pos < |data|
        invariant pos <= |data| && pos % 32 == 0
        invariant Behind(matches, Scan(g, data[pos..] + rest, name, directory))
               == Behind(earlier, Scan(g, data + rest, name, directory))
      {
        var entry := data[pos..pos + 32];
        ScanStep(g, entry, data[pos + 32..] + rest, name, directory);
        assert entry + (data[pos + 32..] + rest) == data[pos..] + rest;
        if entry[0] == 0 {
          assert matches + [] == matches;
          return Ok((matches, true));
        }
        if !Skipped(entry, name) {
          if Flag(entry[11], 0x10) != directory { return Err; }
          BehindTwice(matches, [Target(g, entry)], Scan(g, data[pos + 32..] + rest, name, directory));
          matches := matches + [Target(g, entry)];
        }
        pos := pos + 32;
      }
      assert data[pos..] + rest == rest;
      r := Ok((matches, false));
    }

    /** The one entry of a name in a directory, cluster after cluster. */
    method Lookup(dir: seq<Extent>, name: seq<byte>, directory: bool) returns (r: Result<Found>)
      requires Located() && Fresh() && Inside(dir, length) && Entries(dir)
      ensures r == FatVolume.Lookup(Esp(), g, dir, name, directory)
    {
      ghost var esp := Esp();
      ghost var whole := Scan(g, Gather(esp, dir), name, directory);
      var matches: seq<Found> := [];
      BehindNothing(whole);
      ScanNothing(g, name, directory);
      assert dir[0..] == dir;
      hide Scan, Fresh, Gather, Inside;
      var n := 0;
      while n < |dir|
        invariant n <= |dir| && Inside(dir[n..], |esp|)
        invariant Behind(matches, Scan(g, Gather(esp, dir[n..]), name, directory)) == whole
      {
        GatherStep(esp, dir, n);
        var data := ReadMetadata(dir[n].offset, dir[n].size);
        var scanned := ScanData(data.value, Gather(esp, dir[n + 1..]), matches, name, directory);
        if scanned.Err? { return Err; }
        matches := scanned.value.0;
        if scanned.value.1 { return if |matches| == 1 then Ok(matches[0]) else Err; }
        n := n + 1;
      }
      GatherNothing(esp, dir[n..]);
      assert matches + [] == matches;
      r := if |matches| == 1 then Ok(matches[0]) else Err;
    }

    /** A directory's cluster chain as extents. */
    method Directory(cluster: nat) returns (r: Result<seq<Extent>>)
      requires Located() && Fresh() && Sound(g, length, disk.sector)
      modifies `fatCache
      ensures Fresh()
      ensures r == FatVolume.Directory(Esp(), g, disk.sector, cluster)
      ensures r.Ok? ==> Inside(r.value, length) && Entries(r.value)
    {
      var cs := Chain(cluster);
      if cs.Err? { return Err; }
      ChainInside(Esp(), g, disk.sector, cluster);
      EntriesWhole(g.clusterSize, g.bps);
      r := Ok(ClusterExtents(g, cs.value));
    }

    method Root() returns (r: Result<seq<Extent>>)
      requires Located() && Fresh() && Sound(g, length, disk.sector)
      modifies `fatCache
      ensures Fresh() && r == FatVolume.Root(Esp(), g, disk.sector)
      ensures r.Ok? ==> Inside(r.value, length) && Entries(r.value)
    {
      hide FatVolume.Directory, Fresh;
      if g.bits == 16 {
        EntriesWhole(g.rootSize, g.bps);
        return Ok([Extent(g.rootOffset, g.rootSize)]);
      }
      r := Directory(g.rootCluster);
    }

    method Enter(dir: seq<Extent>, name: seq<byte>) returns (r: Result<seq<Extent>>)
      requires Located() && Fresh() && Sound(g, length, disk.sector) && Inside(dir, length) && Entries(dir)
      modifies `fatCache
      ensures Fresh() && r == FatVolume.Enter(Esp(), g, disk.sector, dir, name)
      ensures r.Ok? ==> Inside(r.value, length) && Entries(r.value)
    {
      hide FatVolume.Directory, FatVolume.Lookup, Sound, Fresh;
      var found := Lookup(dir, name, true);
      if found.Err? { return Err; }
      r := Directory(found.value.cluster);
    }

    method Record(dir: seq<Extent>) returns (r: Result<seq<Extent>>)
      requires Located() && Fresh() && Sound(g, length, disk.sector) && Inside(dir, length) && Entries(dir)
      modifies `fatCache
      ensures Fresh() && r == FatVolume.Record(Esp(), g, disk.sector, dir)
    {
      hide FatVolume.Chain, FatVolume.Lookup, Sound, Fresh, Allocated, Inside, Entries;
      var file := Lookup(dir, GRUBENV, false);
      if file.Err? { return Err; }
      var cs := Chain(file.value.cluster);
      if cs.Err? { return Err; }
      ChainInside(Esp(), g, disk.sector, file.value.cluster);
      r := Allocated(g, length, disk.sector, file.value.size, cs.value);
    }

    /** `find_control`: EFI, VAMOS and GRUBENV, one below the other. */
    method FindControl() returns (r: Result<seq<Extent>>)
      requires Located() && Fresh() && Sound(g, length, disk.sector)
      modifies `fatCache
      ensures Fresh() && r == FatVolume.FindControl(Esp(), g, disk.sector)
    {
      hide FatVolume.Root, FatVolume.Enter, FatVolume.Record, Sound, Inside, Entries, Fresh;
      var root := Root();
      if root.Err? { return Err; }
      var efi := Enter(root.value, EFI);
      if efi.Err? { return Err; }
      var vamos := Enter(efi.value, VAMOS);
      if vamos.Err? { return Err; }
      r := Record(vamos.value);
    }

    /** The constructor's work: snapshot, geometry, walk. It succeeds exactly when a walk over the device does. */
    method Load() returns (r: Result<()>)
      requires Located() && Multiple(length, disk.sector)
      modifies this
      ensures r.Ok? <==> Open(Esp(), disk.sector).Ok?
      ensures r.Ok? ==> Open(Esp(), disk.sector) == Ok((g, extents))
    {
      hide Sound, FatVolume.FindControl, Mount, RecordExtents;
      var snapshot := disk.Read(start, Min(length, SNAPSHOT));
      SubSlice(disk.data, start, start + length, 0, Min(length, SNAPSHOT));
      metadata, fatCache := snapshot.value, map[];
      var boot := ReadMetadata(0, 512);
      if boot.Err? { return Err; }
      var mounted := Mount(boot.value, length, disk.sector);
      if mounted.Err? { return Err; }
      g := mounted.value;
      var found := FindControl();
      if found.Err? { return Err; }
      WalkSound(Esp(), g, disk.sector);
      extents := found.value;
      r := if Total(extents) == RECORD then Ok(()) else Err;
    }

    /** A record found by `Load`, in a partition of whole sectors. */
    ghost predicate Loaded()
      reads this, disk
    {
      && Located() && Multiple(start, disk.sector) && Multiple(length, disk.sector)
      && Sound(g, length, disk.sector) && RecordExtents(g, length, extents)
    }

    /** The record as the device holds it now; the snapshot is not asked. */
    method Payload() returns (r: Result<seq<byte>>)
      requires Located() && Inside(extents, length)
      ensures r == Ok(Gather(Esp(), extents))
    {
      ghost var esp := Esp();
      var joined: seq<byte> := [];
      for n := 0 to |extents|
        invariant Inside(extents[..n], |esp|) && joined == Gather(esp, extents[..n])
      {
        var bytes := Read(extents[n].offset, extents[n].size);
        GatherAppend(esp, extents[..n], extents[n]);
        assert extents[..n + 1] == extents[..n] + [extents[n]];
        joined := joined + bytes.value;
      }
      assert extents[..|extents|] == extents;
      r := Ok(joined);
    }

    /** Sector read-modify-write of each extent in turn; a lost session leaves the first `k` extents written. */
    method Write(payload: seq<byte>) returns (r: Result<()>)
      requires Loaded()
      modifies disk`data, disk`link
      ensures Loaded()
      ensures r.Ok? <==> |payload| == RECORD && old(disk.link) >= |extents|
      ensures |payload| != RECORD ==> disk.data == old(disk.data)
      ensures |payload| == RECORD ==>
        var k := Min(|extents|, old(disk.link));
        disk.link == old(disk.link) - k && Patched(disk.data, old(disk.data), start, length, extents, payload, k)
    {
      if |payload| != RECORD { return Err; }
      r := WriteAll(payload);
    }

    method WriteAll(payload: seq<byte>) returns (r: Result<()>)
      requires Loaded() && |payload| == RECORD
      modifies disk`data, disk`link
      ensures Loaded()
      ensures r.Ok? <==> old(disk.link) >= |extents|
      ensures var k := Min(|extents|, old(disk.link));
        disk.link == old(disk.link) - k && Patched(disk.data, old(disk.data), start, length, extents, payload, k)
    {
      ghost var original := disk.data;
      InsideRecord(g, length, extents);
      PatchedStarts(original, start, length, extents, payload);
      hide Loaded, RecordExtents, Patched, Total, Inside, Fits, Splice, Share;
      var n := 0;
      while n < |extents|
        invariant n <= |extents| && disk.link == old(disk.link) - n && Loaded() && |disk.data| == |original|
        invariant Patched(disk.data, original, start, length, extents, payload, n)
      {
        assert Fits(extents[n], length) by { FitsAt(extents, length, n); }
        ghost var now := disk.data;
        var done := WriteExtent(extents[n], Share(extents, payload, n));
        if done.Err? { return Err; }
        PatchedAdvances(disk.data, now, original, start, length, extents, payload, n);
        n := n + 1;
      }
      r := Ok(());
    }

    /** The sectors around one extent, with the extent's bytes replaced. */
    method WriteExtent(e: Extent, bytes: seq<byte>) returns (r: Result<()>)
      requires Loaded() && Fits(e, length) && |bytes| == e.size
      modifies disk`data, disk`link
      ensures Loaded() && |disk.data| == |old(disk.data)|
      ensures r.Ok? <==> old(disk.link) > 0
      ensures r.Ok? ==> disk.data == Splice(old(disk.data), start + e.offset, bytes) && disk.link == old(disk.link) - 1
      ensures r.Err? ==> disk.data == old(disk.data) && disk.link == old(disk.link)
    {
      hide Sound, RecordExtents, Down, Up, Splice, Multiple;
      var begin, end := Down(e.offset, disk.sector), Up(e.offset + e.size, disk.sector);
      RangeRounds(e.offset + e.size, length, disk.sector);
      MultiplesAdd(start, begin, disk.sector);
      MultipleSpan(begin, end, disk.sector);
      r := WriteSpan(begin, end, e.offset, bytes);
    }

    /** Whole sectors read, patched and written back. */
    method WriteSpan(begin: nat, end: nat, offset: nat, bytes: seq<byte>) returns (r: Result<()>)
      requires Located() && begin <= offset <= offset + |bytes| <= end <= length && begin < end
      requires Multiple(start + begin, disk.sector) && Multiple(end - begin, disk.sector)
      modifies disk`data, disk`link
      ensures disk.Valid() && |disk.data| == |old(disk.data)|
      ensures r.Ok? <==> old(disk.link) > 0
      ensures r.Ok? ==> disk.data == Splice(old(disk.data), start + offset, bytes) && disk.link == old(disk.link) - 1
      ensures r.Err? ==> disk.data == old(disk.data) && disk.link == old(disk.link)
    {
      hide Multiple, Splice;
      SpanWritten(disk.data, start, length, begin, end, offset, bytes);
      var original := Read(begin, end - begin);
      r := disk.WriteVerified(start + begin, Splice(original.value, offset - begin, bytes));
    }
  }

  lemma SpanWritten(data: seq<byte>, start: nat, length: nat, begin: nat, end: nat, offset: nat, bytes: seq<byte>)
    requires start + length <= |data| && begin <= offset && offset + |bytes| <= end <= length
    ensures Splice(data, start + begin, Splice(data[start..start + length][begin..begin + (end - begin)], offset - begin, bytes))
         == Splice(data, start + offset, bytes)
  {
    hide Splice;
    SubSlice(data, start, start + length, begin, end);
    assert data[start..start + length][begin..begin + (end - begin)] == data[start + begin..start + begin + (end - begin)];
    SpanPatched(data, start + begin, end - begin, offset - begin, bytes);
    assert start + begin + (offset - begin) == start + offset;
  }

  lemma MultipleSpan(m: nat, n: nat, unit: nat)
    requires Multiple(m, unit) && Multiple(n, unit) && m <= n
    ensures Multiple(n - m, unit)
  {
    var p, q := m / unit, n / unit;
    assert m == Scale(p, unit) && n == Scale(q, unit);
    hide Scale, Multiple;
    if q < p {
      ScaleGrows(q + 1, p, unit);
      ScaleAdds(q, 1, unit);
      ScaleOne(unit);
    }
    ScaleAdds(p, q - p, unit);
  }

  /** The disk with the extents of an ESP overwritten by `payload`. */
  function Patch(data: seq<byte>, start: nat, length: nat, es: seq<Extent>, payload: seq<byte>): (r: seq<byte>)
    requires start + length <= |data| && Inside(es, length) && |payload| == Total(es)
    ensures |r| == |data|
  {
    if es == [] then data
    else
      var n := |es| - 1;
      var e, cut := es[n], |payload| - es[n].size;
      Splice(Patch(data, start, length, es[..n], payload[..cut]), start + e.offset, payload[cut..])
  }

  /** `now` is `data` with the first `n` extents holding their part of `payload`, and nothing else changed. */
  ghost predicate Patched(now: seq<byte>, data: seq<byte>, start: nat, length: nat, es: seq<Extent>, payload: seq<byte>, n: nat) {
    && start + length <= |data| && n <= |es| && Inside(es, length) && Total(es[..n]) <= |payload|
    && now == Patch(data, start, length, es[..n], payload[..Total(es[..n])])
  }

  lemma PatchedStarts(data: seq<byte>, start: nat, length: nat, es: seq<Extent>, payload: seq<byte>)
    requires start + length <= |data| && Inside(es, length)
    ensures Patched(data, data, start, length, es, payload, 0)
  {
    assert es[..0] == [];
  }

  lemma PatchedAdvances(after: seq<byte>, now: seq<byte>, data: seq<byte>, start: nat, length: nat,
                        es: seq<Extent>, payload: seq<byte>, n: nat)
    requires n < |es| && |payload| == Total(es) && Patched(now, data, start, length, es, payload, n)
    requires |now| == |data| && after == Splice(now, start + es[n].offset, Share(es, payload, n))
    ensures Patched(after, data, start, length, es, payload, n + 1)
  {
    PatchAppend(data, start, length, es, n, payload);
    hide Patch;
  }

  /** The bytes of the payload that go into extent `n`. */
  function Share(es: seq<Extent>, payload: seq<byte>, n: nat): (bytes: seq<byte>)
    requires n < |es| && |payload| == Total(es)
    ensures |bytes| == es[n].size
  {
    TotalPrefix(es, n + 1);
    payload[Total(es[..n])..Total(es[..n + 1])]
  }

  lemma FitsAt(es: seq<Extent>, length: nat, n: nat)
    requires Inside(es, length) && n < |es|
    ensures Fits(es[n], length)
  {
  }

  lemma InsideRecord(g: Geometry, length: nat, es: seq<Extent>)
    requires RecordExtents(g, length, es)
    ensures Inside(es, length) && Total(es) == RECORD
  {
    forall i | 0 <= i < |es|
      ensures Fits(es[i], length)
    {
    }
  }

  lemma {:induction false} TotalPrefix(es: seq<Extent>, n: nat)
    requires n <= |es|
    ensures Total(es[..n]) <= Total(es)
    ensures n > 0 ==> Total(es[..n]) == Total(es[..n - 1]) + es[n - 1].size
    decreases |es| - n
  {
    if n > 0 { assert es[..n][..n - 1] == es[..n - 1]; }
    if n < |es| {
      TotalPrefix(es, n + 1);
    } else {
      assert es[..n] == es;
    }
  }

  lemma PatchAppend(data: seq<byte>, start: nat, length: nat, es: seq<Extent>, n: nat, payload: seq<byte>)
    requires start + length <= |data| && Inside(es, length) && n < |es| && |payload| == Total(es)
    ensures Total(es[..n]) <= Total(es[..n + 1]) == Total(es[..n]) + es[n].size <= |payload|
    ensures Patch(data, start, length, es[..n + 1], payload[..Total(es[..n + 1])])
         == Splice(Patch(data, start, length, es[..n], payload[..Total(es[..n])]), start + es[n].offset,
                   payload[Total(es[..n])..Total(es[..n + 1])])
  {
    TotalPrefix(es, n + 1);
    assert es[..n + 1][..n] == es[..n];
    var longer, cut := payload[..Total(es[..n + 1])], Total(es[..n]);
    assert longer[..cut] == payload[..cut] && longer[cut..] == payload[cut..Total(es[..n + 1])];
  }

  lemma {:induction false} GatherAppend(esp: seq<byte>, es: seq<Extent>, e: Extent)
    requires Inside(es, |esp|) && Fits(e, |esp|)
    ensures Inside(es + [e], |esp|) && Gather(esp, es + [e]) == Gather(esp, es) + Chunk(esp, e)
  {
    hide Chunk;
    if es == [] {
      assert (es + [e])[1..] == [];
    } else {
      assert (es + [e])[1..] == es[1..] + [e];
      GatherAppend(esp, es[1..], e);
    }
  }

  /** Directory extents hold whole 32-byte entries. */
  predicate Entries(dir: seq<Extent>) {
    forall i :: 0 <= i < |dir| ==> dir[i].size % 32 == 0
  }

  lemma EntriesWhole(size: nat, unit: nat)
    requires SectorSize(unit) && Multiple(size, unit)
    ensures size % 32 == 0
  {
    var n := size / unit;
    if unit == 512 { DivisionUnique(size, 32, 16 * n, 0); }
    else if unit == 1024 { DivisionUnique(size, 32, 32 * n, 0); }
    else if unit == 2048 { DivisionUnique(size, 32, 64 * n, 0); }
    else { DivisionUnique(size, 32, 128 * n, 0); }
  }

  lemma GatherNothing(esp: seq<byte>, es: seq<Extent>)
    requires es == []
    ensures Inside(es, |esp|) && Gather(esp, es) == []
  {
  }

  lemma GatherStep(esp: seq<byte>, es: seq<Extent>, n: nat)
    requires n < |es| && Inside(es[n..], |esp|)
    ensures Fits(es[n], |esp|) && Inside(es[n + 1..], |esp|)
    ensures Gather(esp, es[n..]) == Chunk(esp, es[n]) + Gather(esp, es[n + 1..])
  {
    hide Chunk;
    assert es[n..][0] == es[n] && es[n..][1..] == es[n + 1..];
  }

  lemma ScanNothing(g: Geometry, name: seq<byte>, directory: bool)
    ensures Scan(g, [], name, directory) == Ok([])
  {
  }

  /** One turn of a directory scan. */
  lemma ScanStep(g: Geometry, entry: seq<byte>, rest: seq<byte>, name: seq<byte>, directory: bool)
    requires |entry| == 32
    ensures Scan(g, entry + rest, name, directory)
         == if entry[0] == 0 then Ok([])
            else if Skipped(entry, name) then Scan(g, rest, name, directory)
            else if Flag(entry[11], 0x10) != directory then Err
            else Behind([Target(g, entry)], Scan(g, rest, name, directory))
  {
    assert (entry + rest)[..32] == entry && (entry + rest)[32..] == rest;
  }

  /** A result behind the elements already collected. */
  function Behind<T>(done: seq<T>, rest: Result<seq<T>>): Result<seq<T>> {
    if rest.Ok? then Ok(done + rest.value) else Err
  }

  lemma BehindNothing<T>(rest: Result<seq<T>>)
    ensures Behind([], rest) == rest
  {
    if rest.Ok? { assert [] + rest.value == rest.value; }
  }

  lemma BehindTwice<T>(x: seq<T>, y: seq<T>, rest: Result<seq<T>>)
    ensures Behind(x, Behind(y, rest)) == Behind(x + y, rest)
  {
    if rest.Ok? { assert x + (y + rest.value) == x + y + rest.value; }
  }

  /** One turn of a chain walk. */
  lemma ChainStep(esp: seq<byte>, g: Geometry, sector: nat, cluster: nat, seen: seq<nat>)
    requires Sound(g, |esp|, sector)
    ensures var chain := FatVolume.Chain(esp, g, sector, cluster, seen);
      if !InData(g, cluster) || cluster in seen || Scale(|seen|, g.clusterSize) >= CHAIN_LIMIT then chain == Err
      else
        && |seen| < CHAIN_LIMIT && 1 <= |g.fatOffsets| <= 2
        && (forall i :: 0 <= i < |g.fatOffsets| ==> g.fatOffsets[i] + (cluster + 1) * Width(g) <= |esp|)
        && var value := FatValue(esp, g, g.fatOffsets[0], cluster);
           if |g.fatOffsets| == 2 && FatValue(esp, g, g.fatOffsets[1], cluster) != value then chain == Err
           else chain == if EndOfChain(g, value) then Ok([cluster])
                         else Behind([cluster], FatVolume.Chain(esp, g, sector, value, seen + [cluster]))
  {
    if InData(g, cluster) {
      forall i | 0 <= i < |g.fatOffsets|
        ensures g.fatOffsets[i] + (cluster + 1) * Width(g) <= |esp|
      {
        EntryInFat(g, |esp|, sector, i, cluster);
      }
    }
    SeenBelowLimit(|seen|, g.clusterSize);
    hide Scale, FatValue;
  }

  /** Two multiples of a width that differ, differ by a width. */
  lemma MultiplesGap(x: nat, y: nat, width: nat)
    requires Multiple(x, width) && Multiple(y, width) && x < y
    ensures x + width <= y
  {
    var p, q := x / width, y / width;
    assert x == Scale(p, width) && y == Scale(q, width);
    hide Scale;
    if p < q {
      ScaleGrows(p + 1, q, width);
      ScaleAdds(p, 1, width);
      ScaleOne(width);
    } else {
      ScaleGrows(q, p, width);
    }
  }

  /** An aligned entry never straddles a sector. */
  lemma EntryWhole(cluster: nat, width: nat, unit: nat)
    requires (width == 2 || width == 4) && SectorSize(unit)
    ensures cluster * width - Down(cluster * width, unit) + width <= unit
  {
    DivisionUnique(cluster * width, width, cluster, 0);
    var n := cluster * width / unit;
    assert Down(cluster * width, unit) == Scale(n, unit);
    assert Multiple(unit, width) by {
      if width == 2 { DivisionUnique(unit, 2, unit / 2, 0); } else { DivisionUnique(unit, 4, unit / 4, 0); }
    }
    ScaledMultiple(n + 1, unit, width);
    ScaleAdds(n, 1, unit);
    ScaleOne(unit);
    hide Scale, Down, Multiple;
    MultiplesGap(cluster * width, Scale(n + 1, unit), width);
  }

  /** The sector of a byte before `need` ends before `need` rounded up. */
  lemma SectorInside(at: nat, need: nat, unit: nat)
    requires unit > 0 && at < need
    ensures Down(at, unit) + unit <= Up(need, unit)
  {
    var n, m := at / unit, Up(need, unit) / unit;
    assert Down(at, unit) == Scale(n, unit) && Up(need, unit) == Scale(m, unit);
    hide Scale, Down, Up;
    ScaleAdds(n, 1, unit);
    ScaleOne(unit);
    if m <= n { ScaleGrows(m, n, unit); } else { ScaleGrows(n + 1, m, unit); }
  }

  /** The sector of a FAT entry lies in the FAT, before the root directory, and holds the whole entry. */
  lemma EntryInSector(g: Geometry, length: nat, sector: nat, i: nat, cluster: nat)
    requires Sound(g, length, sector) && i < |g.fatOffsets| && InData(g, cluster)
    ensures var entry := cluster * Width(g);
            && g.fatOffsets[i] + Down(entry, g.bps) + g.bps <= g.rootOffset <= length
            && entry - Down(entry, g.bps) + Width(g) <= g.bps
            && g.fatOffsets[i] + (cluster + 1) * Width(g) <= length
  {
    hide Down, Up, Scale, Multiple;
    EntryInFat(g, length, sector, i, cluster);
    assert cluster * Width(g) < (g.clusters + 2) * (g.bits / 8);
    SectorInside(cluster * Width(g), (g.clusters + 2) * (g.bits / 8), g.bps);
    EntryWhole(cluster, Width(g), g.bps);
  }

  // ---------------------------------------------------------------- what a patch leaves and holds

  predicate Covered(i: nat, start: nat, es: seq<Extent>) {
    exists k :: 0 <= k < |es| && start + es[k].offset <= i < start + es[k].offset + es[k].size
  }

  /** A patch changes nothing outside its extents. */
  lemma {:induction false} PatchFrame(data: seq<byte>, start: nat, length: nat, es: seq<Extent>, payload: seq<byte>)
    requires start + length <= |data| && Inside(es, length) && |payload| == Total(es)
    ensures forall i :: 0 <= i < |data| && !Covered(i, start, es) ==> Patch(data, start, length, es, payload)[i] == data[i]
  {
    if es != [] {
      var n := |es| - 1;
      var e, cut := es[n], |payload| - es[n].size;
      var before := Patch(data, start, length, es[..n], payload[..cut]);
      var after := Patch(data, start, length, es, payload);
      PatchFrame(data, start, length, es[..n], payload[..cut]);
      forall i | 0 <= i < |data| && !Covered(i, start, es)
        ensures after[i] == data[i]
      {
        assert !(start + es[n].offset <= i < start + es[n].offset + es[n].size);
        forall k | 0 <= k < n
          ensures !(start + es[..n][k].offset <= i < start + es[..n][k].offset + es[..n][k].size)
        {
          assert es[k] == es[..n][k];
        }
        assert before[i] == data[i];
      }
    }
  }

  lemma {:induction false} GatherAgrees(x: seq<byte>, y: seq<byte>, es: seq<Extent>)
    requires |x| == |y| && Inside(es, |x|)
    requires forall i :: 0 <= i < |es| ==> Chunk(x, es[i]) == Chunk(y, es[i])
    ensures Gather(x, es) == Gather(y, es)
  {
    hide Chunk;
    if es != [] {
      forall i | 0 <= i < |es[1..]|
        ensures Fits(es[1..][i], |x|) && Chunk(x, es[1..][i]) == Chunk(y, es[1..][i])
      {
        assert es[1..][i] == es[i + 1];
      }
      GatherAgrees(x, y, es[1..]);
    }
  }

  /** The bytes of a partition. */
  function Window(data: seq<byte>, start: nat, length: nat): (s: seq<byte>)
    requires start + length <= |data|
    ensures |s| == length
  {
    data[start..start + length]
  }

  /** Splicing one extent leaves the bytes of an extent apart from it. */
  lemma ChunkAfterSplice(data: seq<byte>, start: nat, length: nat, e: Extent, f: Extent, bytes: seq<byte>)
    requires start + length <= |data| && Fits(e, length) && Fits(f, length) && |bytes| == e.size
    ensures var after := Window(Splice(data, start + e.offset, bytes), start, length);
            && Chunk(after, e) == bytes
            && (Apart(e, f) ==> Chunk(after, f) == Chunk(Window(data, start, length), f))
  {
    var esp, whole := data[start..start + length], Splice(data, start + e.offset, bytes);
    SubSlice(whole, start, start + length, e.offset, e.offset + e.size);
    SubSlice(whole, start, start + length, f.offset, f.offset + f.size);
    SubSlice(data, start, start + length, f.offset, f.offset + f.size);
    if Apart(e, f) {
      assert whole[start + f.offset..start + f.offset + f.size] == data[start + f.offset..start + f.offset + f.size];
    }
  }

  /** An extent clear of all those before it. */
  predicate ApartFrom(front: seq<Extent>, e: Extent) {
    forall i :: 0 <= i < |front| ==> Apart(front[i], e)
  }

  /** Splicing in an extent leaves what the extents before it hold. */
  lemma EarlierKept(before: seq<byte>, start: nat, length: nat, front: seq<Extent>, e: Extent, bytes: seq<byte>)
    requires start + length <= |before| && Inside(front, length) && Fits(e, length) && ApartFrom(front, e) && |bytes| == e.size
    ensures Gather(Window(Splice(before, start + e.offset, bytes), start, length), front)
         == Gather(Window(before, start, length), front)
  {
    var after := Window(Splice(before, start + e.offset, bytes), start, length);
    hide Splice, Window, Gather, Chunk;
    forall i | 0 <= i < |front|
      ensures Fits(front[i], length) && Chunk(after, front[i]) == Chunk(Window(before, start, length), front[i])
    {
      assert Apart(front[i], e);
      ChunkAfterSplice(before, start, length, e, front[i], bytes);
    }
    GatherAgrees(after, Window(before, start, length), front);
  }

  /** One more extent spliced in: reading all of them gives the longer payload. */
  lemma GatherAfterSplice(before: seq<byte>, start: nat, length: nat, front: seq<Extent>, e: Extent, bytes: seq<byte>)
    requires start + length <= |before| && Inside(front, length) && Fits(e, length) && ApartFrom(front, e) && |bytes| == e.size
    ensures Inside(front + [e], length)
    ensures Gather(Window(Splice(before, start + e.offset, bytes), start, length), front + [e])
         == Gather(Window(before, start, length), front) + bytes
  {
    hide Splice, Window, Gather, Chunk, ApartFrom;
    EarlierKept(before, start, length, front, e, bytes);
    ChunkAfterSplice(before, start, length, e, e, bytes);
    GatherAppend(Window(Splice(before, start + e.offset, bytes), start, length), front, e);
  }

  /** Reading the extents of a patch gives back its payload. */
  lemma {:induction false} PatchGather(data: seq<byte>, start: nat, length: nat, es: seq<Extent>, payload: seq<byte>)
    requires start + length <= |data| && Inside(es, length) && |payload| == Total(es) && Disjoint(es)
    ensures Gather(Window(Patch(data, start, length, es, payload), start, length), es) == payload
  {
    hide Splice, Window, Gather, Patch, Total, Inside, Disjoint, ApartFrom, Fits;
    if es == [] {
      NothingGathered(data, start, length, es, payload);
    } else {
      var front, e, cut := es[..|es| - 1], es[|es| - 1], |payload| - es[|es| - 1].size;
      FrontOf(es, length);
      PatchLast(data, start, length, es, payload);
      PatchGather(data, start, length, front, payload[..cut]);
      GatherAfterSplice(Patch(data, start, length, front, payload[..cut]), start, length, front, e, payload[cut..]);
      Rejoin(payload, cut);
    }
  }

  lemma NothingGathered(data: seq<byte>, start: nat, length: nat, es: seq<Extent>, payload: seq<byte>)
    requires start + length <= |data| && Inside(es, length) && |payload| == Total(es) && es == []
    ensures Gather(Window(Patch(data, start, length, es, payload), start, length), es) == payload
  {
  }

  lemma Rejoin(payload: seq<byte>, cut: nat)
    requires cut <= |payload|
    ensures payload[..cut] + payload[cut..] == payload
  {
  }

  lemma FrontOf(es: seq<Extent>, length: nat)
    requires Inside(es, length) && Disjoint(es) && es != []
    ensures var n := |es| - 1;
            && Inside(es[..n], length) && Disjoint(es[..n]) && Fits(es[n], length) && ApartFrom(es[..n], es[n])
            && es[..n] + [es[n]] == es
  {
    hide Fits;
  }

  lemma PatchLast(data: seq<byte>, start: nat, length: nat, es: seq<Extent>, payload: seq<byte>)
    requires start + length <= |data| && Inside(es, length) && |payload| == Total(es) && es != []
    ensures var n := |es| - 1;
            var cut := |payload| - es[n].size;
            && 0 <= cut && Total(es[..n]) == cut && Fits(es[n], length)
            && Patch(data, start, length, es, payload)
               == Splice(Patch(data, start, length, es[..n], payload[..cut]), start + es[n].offset, payload[cut..])
  {
    hide Splice;
  }

  // ---------------------------------------------------------------- records on the disk

  /** A block as text: a byte is the character with its code. */
  function Latin1(bytes: seq<byte>): (s: string)
    ensures |s| == |bytes|
  {
    seq(|bytes|, i requires 0 <= i < |bytes| => bytes[i] as char)
  }

  function Codes(s: string): (bytes: seq<byte>)
    requires BootControlCodec.Ascii(s)
    ensures |bytes| == |s| && Latin1(bytes) == s
  {
    var bytes: seq<byte> := seq(|s|, i requires 0 <= i < |s| => s[i] as int);
    assert Latin1(bytes) == s;
    bytes
  }

  /** The two ESPs of a disk and the extents of their records. */
  datatype Sites = Sites(a: Part, b: Part, inA: seq<Extent>, inB: seq<Extent>)

  function EspAt(data: seq<byte>, p: Part): (esp: seq<byte>)
    requires p.start + p.length <= |data|
    ensures |esp| == p.length
  {
    Window(data, p.start, p.length)
  }

  predicate RecordIn(data: seq<byte>, sector: nat, p: Part, es: seq<Extent>) {
    && p.start + p.length <= |data|
    && Open(EspAt(data, p), sector).Ok? && Open(EspAt(data, p), sector).value.1 == es
  }

  /** What GPT and FAT lead to on a disk. */
  predicate Found(data: seq<byte>, sector: nat, crc: seq<byte> -> nat, s: Sites) {
    Describes(data, sector, crc, s.a, s.b) && RecordIn(data, sector, s.a, s.inA) && RecordIn(data, sector, s.b, s.inB)
  }

  function RecordAt(data: seq<byte>, p: Part, es: seq<Extent>): Option<BootControl.Control>
    requires p.start + p.length <= |data| && Inside(es, p.length)
  {
    RedundantStore.Read(Some(Latin1(Gather(EspAt(data, p), es))))
  }

  predicate InsideSites(data: seq<byte>, s: Sites) {
    && s.a.start + s.a.length <= s.b.start && s.b.start + s.b.length <= |data|
    && Inside(s.inA, s.a.length) && Inside(s.inB, s.b.length) && Disjoint(s.inA) && Disjoint(s.inB)
    && Total(s.inA) == RECORD && Total(s.inB) == RECORD
  }

  /** The two records as the disk holds them. */
  function CopiesAt(data: seq<byte>, s: Sites): RedundantStore.Copies
    requires InsideSites(data, s)
  {
    RedundantStore.Copies(RecordAt(data, s.a, s.inA), RecordAt(data, s.b, s.inB))
  }

  lemma FoundInside(data: seq<byte>, sector: nat, crc: seq<byte> -> nat, s: Sites)
    requires SectorSize(sector) && Found(data, sector, crc, s)
    ensures InsideSites(data, s)
    ensures sector == 4096 ==> |s.inA| == |s.inB| == 1
  {
    hide Describes, Open;
    DescribedParts(data, sector, crc, s.a, s.b);
    OpenInside(EspAt(data, s.a), sector);
    OpenInside(EspAt(data, s.b), sector);
  }

  lemma OpenInside(esp: seq<byte>, sector: nat)
    requires Open(esp, sector).Ok?
    ensures var es := Open(esp, sector).value.1;
            Inside(es, |esp|) && Disjoint(es) && Total(es) == RECORD && |es| >= 1 && (sector == 4096 ==> |es| == 1)
  {
    InsideRecord(Open(esp, sector).value.0, |esp|, Open(esp, sector).value.1);
  }

  /** With 4096-byte sectors a record is one extent inside one sector, so writing a copy is one sector write. */
  lemma SingleSector(esp: seq<byte>)
    requires Open(esp, 4096).Ok?
    ensures var es := Open(esp, 4096).value.1;
            && |es| == 1 && es[0].size == RECORD && Down(es[0].offset, 4096) == es[0].offset
            && Up(es[0].offset + es[0].size, 4096) == es[0].offset + 4096
  {
    hide Open, Sound, RecordExtents, Down, Up, Total;
    OpenSound(esp, 4096);
    var (g, es) := Open(esp, 4096).value;
    ExtentAligned(g, |esp|, es);
    OneSector(es[0].offset);
  }

  lemma ExtentAligned(g: Geometry, length: nat, es: seq<Extent>)
    requires Sound(g, length, 4096) && RecordExtents(g, length, es)
    ensures |es| == 1 && es[0].size == RECORD && Multiple(es[0].offset, 4096)
  {
    hide Scale, Up;
    assert g.bps == 4096 && g.clusterSize >= 4096;
    assert es[..|es| - 1] == [];
    assert Total(es[..|es| - 1]) == 0;
  }

  lemma OneSector(at: nat)
    requires Multiple(at, 4096)
    ensures Down(at, 4096) == at && Up(at + RECORD, 4096) == at + 4096
  {
    DivisionUnique(at + RECORD + 4095, 4096, at / 4096 + 1, 1023);
  }

  /** Positions of a partition that no extent of another partition covers. */
  lemma ApartUncovered(p: Part, q: Part, es: seq<Extent>)
    requires Inside(es, p.length) && (p.start + p.length <= q.start || q.start + q.length <= p.start)
    ensures forall i :: q.start <= i < q.start + q.length ==> !Covered(i, p.start, es)
  {
    forall i | q.start <= i < q.start + q.length
      ensures !Covered(i, p.start, es)
    {
      forall k | 0 <= k < |es|
        ensures !(p.start + es[k].offset <= i < p.start + es[k].offset + es[k].size)
      {
        assert FatVolume.Fits(es[k], p.length);
      }
    }
  }

  /** A complete patch of one partition changes nothing outside its extents, and no other partition. */
  lemma PatchedFrame(data: seq<byte>, after: seq<byte>, p: Part, es: seq<Extent>, payload: seq<byte>, q: Part)
    requires p.start + p.length <= |data| && q.start + q.length <= |data| && Inside(es, p.length)
    requires |payload| == Total(es) && Patched(after, data, p.start, p.length, es, payload, |es|)
    requires p.start + p.length <= q.start || q.start + q.length <= p.start
    ensures |after| == |data| && forall i :: 0 <= i < |data| && !Covered(i, p.start, es) ==> after[i] == data[i]
    ensures EspAt(after, q) == EspAt(data, q)
  {
    hide Covered, Patch, Inside, Total;
    assert es[..|es|] == es && payload[..|payload|] == payload;
    assert after == Patch(data, p.start, p.length, es, payload);
    PatchFrame(data, p.start, p.length, es, payload);
    ApartUncovered(p, q, es);
    assert forall i :: q.start <= i < q.start + q.length ==> after[i] == data[i];
  }

  /** A complete patch of one partition holds the payload. */
  lemma PatchedHolds(data: seq<byte>, after: seq<byte>, p: Part, es: seq<Extent>, payload: seq<byte>)
    requires p.start + p.length <= |data| && Inside(es, p.length) && Disjoint(es)
    requires |payload| == Total(es) && Patched(after, data, p.start, p.length, es, payload, |es|)
    ensures |after| == |data| && Gather(EspAt(after, p), es) == payload
  {
    hide Patch, Gather, Inside, Disjoint, Total;
    assert es[..|es|] == es && payload[..|payload|] == payload;
    assert after == Patch(data, p.start, p.length, es, payload);
    PatchGather(data, p.start, p.length, es, payload);
  }

  // ---------------------------------------------------------------- request_normal

  /** The record with the normal-boot request, as stored bytes. */
  function Stored(c: BootControl.Control): (bytes: seq<byte>)
    requires BootControlCodec.Encodable(c)
    ensures |bytes| == RECORD && RedundantStore.Read(Some(Latin1(bytes))) == Some(c)
  {
    BootControlCodec.RoundTrip(c);
    BootControlCodec.EncodedAscii(c);
    Codes(BootControl.Encode(c).value)
  }

  /** One record written completely: it decodes to `c`; the other record and everything else is untouched. */
  lemma RecordReplaced(data: seq<byte>, after: seq<byte>, s: Sites, second: bool, c: BootControl.Control)
    requires InsideSites(data, s) && BootControlCodec.Encodable(c)
    requires var p, es := if second then s.b else s.a, if second then s.inB else s.inA;
             Patched(after, data, p.start, p.length, es, Stored(c), |es|)
    ensures |after| == |data| && InsideSites(after, s)
    ensures CopiesAt(after, s) == CopiesAt(data, s).Put(if second then B else A, Some(c))
    ensures var p, es := if second then s.b else s.a, if second then s.inB else s.inA;
            forall i :: 0 <= i < |data| && !Covered(i, p.start, es) ==> after[i] == data[i]
  {
    var p, es := if second then s.b else s.a, if second then s.inB else s.inA;
    hide Patched, Covered, BootControl.Encode, BootControlCodec.Encodable, Gather, Inside, Disjoint, RedundantStore.Read;
    PatchedHolds(data, after, p, es, Stored(c));
    PatchedFrame(data, after, p, es, Stored(c), if second then s.a else s.b);
  }

  /** Everything outside the two records is as it was. */
  predicate OnlyRecords(data: seq<byte>, after: seq<byte>, s: Sites) {
    && |after| == |data|
    && forall i :: 0 <= i < |data| && !Covered(i, s.a.start, s.inA) && !Covered(i, s.b.start, s.inB) ==> after[i] == data[i]
  }

  lemma FoundUnique(data: seq<byte>, sector: nat, crc: seq<byte> -> nat, s: Sites, t: Sites)
    requires Found(data, sector, crc, s) && Found(data, sector, crc, t)
    ensures s == t
  {
    hide Open, HeaderOk, EntryOk, Parse;
  }

  /** Reads and checks one ESP and its record. */
  method OpenControl(disk: Disk, p: Part) returns (r: Result<FatBootControl>)
    requires disk.Valid() && Multiple(p.start, disk.sector) && Multiple(p.length, disk.sector) && p.length > 0
    ensures r.Ok? <==> p.start + p.length <= |disk.data| && Open(EspAt(disk.data, p), disk.sector).Ok?
    ensures r.Ok? ==>
      var c := r.value;
      && fresh(c) && c.disk == disk && c.start == p.start && c.length == p.length && c.Loaded()
      && RecordIn(disk.data, disk.sector, p, c.extents) && Inside(c.extents, p.length)
  {
    hide Open, Sound, RecordExtents;
    if p.start + p.length > |disk.data| { return Err; }
    var c := new FatBootControl(disk, p.start, p.length);
    var loaded := c.Load();
    if loaded.Err? { return Err; }
    OpenSound(EspAt(disk.data, p), disk.sector);
    InsideRecord(c.g, p.length, c.extents);
    r := Ok(c);
  }

  lemma OpenSound(esp: seq<byte>, sector: nat)
    requires Open(esp, sector).Ok?
    ensures var (g, es) := Open(esp, sector).value; Sound(g, |esp|, sector) && RecordExtents(g, |esp|, es)
  {
  }

  /** What one interrupted or completed request leaves on the disk. */
  predicate Requested(data: seq<byte>, after: seq<byte>, s: Sites, c: BootControl.Control, done: nat) {
    && InsideSites(data, s) && OnlyRecords(data, after, s) && InsideSites(after, s)
    && CopiesAt(after, s)
       == RedundantStore.Written(CopiesAt(data, s), RedundantStore.RequestNormal, c, {A, B}, done)
  }

  lemma NothingRequested(data: seq<byte>, s: Sites, c: BootControl.Control)
    requires InsideSites(data, s)
    ensures Requested(data, data, s, c, 0)
  {
    hide InsideSites, CopiesAt;
  }

  /** The backup record comes first: the primary is still what it was. */
  lemma BackupRequested(data: seq<byte>, after: seq<byte>, s: Sites, c: BootControl.Control)
    requires InsideSites(data, s) && BootControlCodec.Encodable(c)
    requires Patched(after, data, s.b.start, s.b.length, s.inB, Stored(c), |s.inB|)
    ensures Requested(data, after, s, c, 1)
  {
    hide Patched, BootControl.Encode, BootControlCodec.Encodable, Covered, InsideSites, RecordAt;
    RecordReplaced(data, after, s, true, c);
  }

  lemma BothRequested(data: seq<byte>, mid: seq<byte>, after: seq<byte>, s: Sites, c: BootControl.Control)
    requires Requested(data, mid, s, c, 1) && BootControlCodec.Encodable(c)
    requires Patched(after, mid, s.a.start, s.a.length, s.inA, Stored(c), |s.inA|)
    ensures Requested(data, after, s, c, 2)
  {
    hide Patched, BootControl.Encode, BootControlCodec.Encodable, Covered, InsideSites, RecordAt;
    RecordReplaced(mid, after, s, false, c);
  }

  /** A request cut after `done` records: selection is at the old record only if neither was written. */
  lemma RequestIsAtomic(data: seq<byte>, after: seq<byte>, s: Sites, c: BootControl.Control, done: nat)
    requires Requested(data, after, s, c, done)
    requires RedundantStore.Next(CopiesAt(data, s), RedundantStore.RequestNormal) == Ok(Some(c))
    ensures RedundantStore.Selected(CopiesAt(after, s))
         == if done == 0 then RedundantStore.Selected(CopiesAt(data, s)) else Some(c)
    ensures c.normalRequest && !c.edlRequest
  {
    hide CopiesAt, InsideSites, OnlyRecords, RedundantStore.Next, RedundantStore.Written, RedundantStore.Selected;
    NormalAtomic(CopiesAt(data, s), c, done);
  }

  lemma NormalAtomic(cs: RedundantStore.Copies, c: BootControl.Control, done: nat)
    requires RedundantStore.Next(cs, RedundantStore.RequestNormal) == Ok(Some(c))
    ensures RedundantStore.Selected(RedundantStore.Written(cs, RedundantStore.RequestNormal, c, {A, B}, done))
         == if done == 0 then RedundantStore.Selected(cs) else Some(c)
    ensures c.normalRequest && !c.edlRequest
  {
    hide BootControl.Encode, BootControlCodec.Encodable;
    RedundantStore.CrashAtomic(cs, RedundantStore.RequestNormal, {A, B}, done);
    assert done > 0 ==> B in RedundantStore.Reached(RedundantStore.RequestNormal, {A, B}, done);
  }

  /** Whatever the disk describes, the request is refused on it. */
  ghost predicate Refused(data: seq<byte>, sector: nat, crc: seq<byte> -> nat) {
    forall t :: Found(data, sector, crc, t) && InsideSites(data, t) ==>
      RedundantStore.Next(CopiesAt(data, t), RedundantStore.RequestNormal).Err?
  }

  lemma NothingDescribed(data: seq<byte>, sector: nat, crc: seq<byte> -> nat)
    requires forall a, b :: !Describes(data, sector, crc, a, b)
    ensures Refused(data, sector, crc)
  {
    hide Describes, Open, InsideSites, CopiesAt, RedundantStore.Next;
  }

  lemma DescribedUnique(data: seq<byte>, sector: nat, crc: seq<byte> -> nat, a: Part, b: Part, c: Part, d: Part)
    requires Describes(data, sector, crc, a, b) && Describes(data, sector, crc, c, d)
    ensures a == c && b == d
  {
    hide HeaderOk, EntryOk, Parse;
  }

  lemma NothingOpened(data: seq<byte>, sector: nat, crc: seq<byte> -> nat, a: Part, b: Part)
    requires Describes(data, sector, crc, a, b)
    requires !(exists es :: RecordIn(data, sector, a, es)) || !(exists es :: RecordIn(data, sector, b, es))
    ensures Refused(data, sector, crc)
  {
    hide Describes, RecordIn, InsideSites, CopiesAt, RedundantStore.Next;
    forall t | Found(data, sector, crc, t)
      ensures t.a == a && t.b == b
    {
      DescribedUnique(data, sector, crc, a, b, t.a, t.b);
    }
  }

  lemma OneRefusal(data: seq<byte>, sector: nat, crc: seq<byte> -> nat, s: Sites)
    requires Found(data, sector, crc, s) && InsideSites(data, s)
    requires RedundantStore.Next(CopiesAt(data, s), RedundantStore.RequestNormal).Err?
    ensures Refused(data, sector, crc)
  {
    hide Found, InsideSites, CopiesAt, RedundantStore.Next;
    forall t | Found(data, sector, crc, t) && InsideSites(data, t)
      ensures t == s
    {
      FoundUnique(data, sector, crc, s, t);
    }
  }

  lemma OnlySites(data: seq<byte>, sector: nat, crc: seq<byte> -> nat, s: Sites)
    requires Found(data, sector, crc, s)
    ensures forall t :: Found(data, sector, crc, t) ==> t == s
  {
    hide Found;
    forall t | Found(data, sector, crc, t)
      ensures t == s
    {
      FoundUnique(data, sector, crc, s, t);
    }
  }

  /** Both ESPs and both records are found and checked. */
  method OpenBoth(disk: Disk, crc: seq<byte> -> nat)
    returns (r: Result<(FatBootControl, FatBootControl)>, ghost s: Sites)
    requires disk.Valid()
    ensures r.Err? ==> Refused(disk.data, disk.sector, crc)
    ensures r.Ok? ==>
      && fresh(r.value.0) && fresh(r.value.1) && r.value.0 != r.value.1
      && Found(disk.data, disk.sector, crc, s) && InsideSites(disk.data, s)
      && At(r.value.0, disk, s.a, s.inA) && At(r.value.1, disk, s.b, s.inB)
  {
    hide Describes, FatBootControl.Loaded, Open, InsideSites, Refused;
    s := Sites(Part(0, 0), Part(0, 0), [], []);
    var parts := EspPartitions(disk, crc);
    if parts.Err? {
      NothingDescribed(disk.data, disk.sector, crc);
      return Err, s;
    }
    var (p, q) := parts.value;
    DescribedParts(disk.data, disk.sector, crc, p, q);
    var a := OpenControl(disk, p);
    if a.Err? {
      NothingOpened(disk.data, disk.sector, crc, p, q);
      return Err, s;
    }
    var b := OpenControl(disk, q);
    if b.Err? {
      NothingOpened(disk.data, disk.sector, crc, p, q);
      return Err, s;
    }
    s := Sites(p, q, a.value.extents, b.value.extents);
    FoundInside(disk.data, disk.sector, crc, s);
    r := Ok((a.value, b.value));
  }

  /** A loaded reader of the record of one partition. */
  ghost predicate At(c: FatBootControl, disk: Disk, p: Part, es: seq<Extent>)
    reads c, disk
  {
    c.disk == disk && c.start == p.start && c.length == p.length && c.extents == es && c.Loaded()
  }

  /** One record as this reader decodes it. */
  method ReadRecord(c: FatBootControl, ghost p: Part, ghost es: seq<Extent>) returns (r: Option<BootControl.Control>)
    requires At(c, c.disk, p, es) && Inside(es, p.length)
    ensures p.start + p.length <= |c.disk.data| && r == RecordAt(c.disk.data, p, es)
  {
    hide Sound, RecordExtents, Inside, RedundantStore.Read;
    var payload := c.Payload();
    r := RedundantStore.Read(Some(Latin1(payload.value)));
  }

  /** Both records as the disk holds them. */
  method ReadBoth(disk: Disk, a: FatBootControl, b: FatBootControl, ghost s: Sites) returns (cs: RedundantStore.Copies)
    requires InsideSites(disk.data, s) && At(a, disk, s.a, s.inA) && At(b, disk, s.b, s.inB)
    ensures cs == CopiesAt(disk.data, s)
  {
    hide RecordAt, Inside, Disjoint, Total, Sound, RecordExtents;
    var x := ReadRecord(a, s.a, s.inA);
    var y := ReadRecord(b, s.b, s.inB);
    cs := RedundantStore.Copies(x, y);
  }

  lemma NormalStored(cs: RedundantStore.Copies)
    ensures var next := RedundantStore.Next(cs, RedundantStore.RequestNormal);
            next.Ok? ==> next.value.Some? && BootControlCodec.Encodable(next.value.value)
  {
  }

  /** Backup first, then primary; a lost session stops at the first record that was not written. */
  method WriteBoth(disk: Disk, a: FatBootControl, b: FatBootControl, ghost s: Sites, c: BootControl.Control)
    returns (r: Result<BootControl.Control>)
    requires InsideSites(disk.data, s) && At(a, disk, s.a, s.inA) && At(b, disk, s.b, s.inB)
    requires a != b && BootControlCodec.Encodable(c)
    modifies disk`data, disk`link
    ensures disk.Valid()
    ensures r.Ok? <==> old(disk.link) >= |s.inA| + |s.inB|
    ensures r.Ok? ==> r.value == c && Requested(old(disk.data), disk.data, s, c, 2)
    ensures |s.inA| == |s.inB| == 1 ==> Requested(old(disk.data), disk.data, s, c, Min(old(disk.link), 2))
  {
    ghost var data := disk.data;
    hide Sound, RecordExtents, Patched, BootControl.Encode, BootControlCodec.Encodable, Requested, Inside, Disjoint, RedundantStore.Read, Multiple, Total;
    var payload := Stored(c);
    NothingRequested(data, s, c);
    var backup := b.Write(payload);
    if backup.Err? {
      NothingPatched(data, disk.data, s.b, s.inB, payload);
      return Err;
    }
    BackupRequested(data, disk.data, s, c);
    ghost var mid := disk.data;
    var primary := a.Write(payload);
    if primary.Err? {
      NothingPatched(mid, disk.data, s.a, s.inA, payload);
      return Err;
    }
    BothRequested(data, mid, disk.data, s, c);
    r := Ok(c);
  }

  lemma NothingPatched(data: seq<byte>, after: seq<byte>, p: Part, es: seq<Extent>, payload: seq<byte>)
    ensures Patched(after, data, p.start, p.length, es, payload, 0) ==> after == data
  {
    assert es[..0] == [];
  }

  /**
   * `request_normal`. When a GPT, FAT or record check fails (`sites` is None), not one byte is written.
   * Otherwise only the two records change, backup first, and with 4096-byte sectors a session lost after
   * `k` writes leaves exactly the first `k` records replaced.
   */
  method RequestNormal(disk: Disk, crc: seq<byte> -> nat) returns (r: Result<BootControl.Control>, ghost sites: Option<Sites>)
    requires disk.Valid()
    modifies disk`data, disk`link
    ensures disk.Valid()
    ensures sites == None ==> r.Err? && disk.data == old(disk.data) && Refused(old(disk.data), disk.sector, crc)
    ensures forall t :: Found(old(disk.data), disk.sector, crc, t) && InsideSites(old(disk.data), t) ==>
      (RedundantStore.Next(CopiesAt(old(disk.data), t), RedundantStore.RequestNormal).Ok? <==> sites == Some(t))
    ensures sites.Some? ==>
      && Found(old(disk.data), disk.sector, crc, sites.value) && InsideSites(old(disk.data), sites.value)
      && var s := sites.value;
         var next := RedundantStore.Next(CopiesAt(old(disk.data), s), RedundantStore.RequestNormal);
         && next.Ok? && next.value.Some?
         && (r.Ok? <==> old(disk.link) >= |s.inA| + |s.inB|)
         && (r.Ok? ==> r.value == next.value.value && Requested(old(disk.data), disk.data, s, r.value, 2))
         && (disk.sector == 4096 ==> Requested(old(disk.data), disk.data, s, next.value.value, Min(old(disk.link), 2)))
  {
    ghost var data := disk.data;
    hide Found, InsideSites, At, Refused, BootControl.Encode, BootControlCodec.Encodable, RedundantStore.Next, CopiesAt, Requested;
    sites := None;
    var controls, s := OpenBoth(disk, crc);
    if controls.Err? { return Err, None; }
    var (a, b) := controls.value;
    FoundInside(data, disk.sector, crc, s);
    var cs := ReadBoth(disk, a, b, s);
    var next := RedundantStore.Next(cs, RedundantStore.RequestNormal);
    if next.Err? {
      OneRefusal(data, disk.sector, crc, s);
      return Err, None;
    }
    NormalStored(cs);
    r := WriteBoth(disk, a, b, s, next.value.value);
    sites := Some(s);
    OnlySites(data, disk.sector, crc, s);
  }
}
