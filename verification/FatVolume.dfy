/** The FAT16/FAT32 layout of an ESP and the walk to EFI/vamos/grubenv, over arbitrary bytes. */
module FatVolume {
  import opened Common
  import opened Bytes

  const RECORD := 1024           // size of the grubenv file
  const CHAIN_LIMIT := 0x10_0000 // bytes of clusters one chain may cover

  /** The numbers of the boot sector. */
  datatype Bpb = Bpb(
    bps: nat, spc: nat, reserved: nat, fats: nat, rootEntries: nat, total: nat,
    fat16: nat, fatSectors: nat, flags: nat, rootCluster: nat)

  function ParseBpb(boot: seq<byte>): Bpb
    requires |boot| == 512
  {
    var total16, fat16 := Le16(boot, 19), Le16(boot, 22);
    Bpb(Le16(boot, 11), boot[13], Le16(boot, 14), boot[16], Le16(boot, 17),
        if total16 != 0 then total16 else Le32(boot, 32),
        fat16, if fat16 != 0 then fat16 else Le32(boot, 36), Le16(boot, 40), Le32(boot, 44))
  }

  /** What the walk needs to know about a volume. */
  datatype Geometry = Geometry(
    bps: nat, clusterSize: nat, rootOffset: nat, rootSize: nat, dataOffset: nat, clusters: nat,
    bits: nat, rootCluster: nat, fatOffsets: seq<nat>)

  predicate ClusterSectors(n: nat) {
    n == 1 || n == 2 || n == 4 || n == 8 || n == 16 || n == 32 || n == 64 || n == 128
  }

  predicate BpbOk(b: Bpb, length: nat, sector: nat) {
    && SectorSize(b.bps) && b.bps >= sector
    && ClusterSectors(b.spc) && b.reserved > 0 && 1 <= b.fats <= 2 && b.fatSectors > 0 && Scale(b.total, b.bps) <= length
  }

  /** The sector where FAT copy `i` begins. */
  function FatSector(b: Bpb, i: nat): nat {
    b.reserved + Scale(i, b.fatSectors)
  }

  /** Every FAT copy, or the active one alone when FAT32 mirroring is off. */
  function FatSectors(b: Bpb, bits: nat): seq<nat> {
    if bits == 32 && Flag(b.flags, 0x80) then [FatSector(b, b.flags % 16)]
    else if b.fats == 1 then [FatSector(b, 0)] else [FatSector(b, 0), FatSector(b, 1)]
  }

  /** How many whole clusters fit behind the start of the data area. */
  function ClusterCount(total: nat, data: nat, size: nat): nat
    requires size > 0
  {
    if total < data then 0 else (total - data) / size
  }

  /** Layout in bytes: reserved area, FATs, FAT16 root directory, data clusters. */
  function Layout(b: Bpb): (g: Geometry)
    requires SectorSize(b.bps) && ClusterSectors(b.spc)
  {
    var size := Scale(b.spc, b.bps);
    ScaleGrows(1, b.spc, b.bps);
    var rootOffset := Scale(FatSector(b, b.fats), b.bps);
    var rootSize := Up(b.rootEntries * 32, b.bps);
    var data := rootOffset + rootSize;
    var clusters := ClusterCount(Scale(b.total, b.bps), data, size);
    var bits := if clusters < 65525 then 16 else 32;
    var fats := FatSectors(b, bits);
    Geometry(b.bps, size, rootOffset, rootSize, data, clusters, bits, if bits == 32 then b.rootCluster else 0,
             seq(|fats|, i requires 0 <= i < |fats| => Scale(fats[i], b.bps)))
  }

  /** `n & mask` for a mask of one bit. */
  predicate Flag(n: nat, mask: nat)
    requires mask > 0
  {
    n / mask % 2 == 1
  }

  predicate LayoutOk(b: Bpb, g: Geometry) {
    && 4085 <= g.clusters < 0x0fff_fff5
    && (g.bits == 16 <==> b.fat16 != 0) && (g.bits == 16 <==> b.rootEntries != 0)
    && Scale(b.fatSectors, b.bps) >= (g.clusters + 2) * (g.bits / 8)
    && (g.bits == 32 && Flag(b.flags, 0x80) ==> b.flags % 16 < b.fats)
  }

  /** The volume described by the first sector of an ESP of `length` bytes. */
  function Mount(boot: seq<byte>, length: nat, sector: nat): (r: Result<Geometry>)
    requires |boot| == 512
    ensures r.Ok? ==> Sound(r.value, length, sector)
  {
    var b := ParseBpb(boot);
    if boot[510..] != [0x55, 0xaa] then Err else MountBpb(b, length, sector)
  }

  function MountBpb(b: Bpb, length: nat, sector: nat): (r: Result<Geometry>)
    ensures r.Ok? ==> Sound(r.value, length, sector)
  {
    if !BpbOk(b, length, sector) || !LayoutOk(b, Layout(b)) then Err
    else
      LayoutSound(b, length, sector);
      Ok(Layout(b))
  }

  // ---------------------------------------------------------------- what the checks guarantee

  /** Every position the walk can compute lies where it should. */
  predicate Sound(g: Geometry, length: nat, sector: nat) {
    && SectorSize(g.bps) && g.bps >= sector && 4085 <= g.clusters && (g.bits == 16 || g.bits == 32)
    && g.clusterSize >= g.bps && Multiple(g.clusterSize, g.bps)
    && Multiple(g.rootOffset, g.bps) && Multiple(g.dataOffset, g.bps) && Multiple(g.rootSize, g.bps)
    && g.dataOffset == g.rootOffset + g.rootSize && (g.bits == 16 ==> g.rootSize > 0)
    && g.dataOffset + Scale(g.clusters, g.clusterSize) <= length
    && 1 <= |g.fatOffsets| <= 2
    && (forall i :: 0 <= i < |g.fatOffsets| ==>
          Multiple(g.fatOffsets[i], g.bps) && g.fatOffsets[i] + Up((g.clusters + 2) * (g.bits / 8), g.bps) <= g.rootOffset)
  }

  /** FAT copy `i`, with every entry it must hold, lies before the root directory. */
  lemma FatFits(b: Bpb, i: nat, need: nat)
    requires b.bps > 0 && i < b.fats && need <= Scale(b.fatSectors, b.bps)
    ensures Scale(FatSector(b, i), b.bps) + Up(need, b.bps) <= Scale(FatSector(b, b.fats), b.bps)
  {
    hide Scale, Up;
    RangeRounds(need, Scale(b.fatSectors, b.bps), b.bps);
    ScaleAdds(FatSector(b, i), b.fatSectors, b.bps);
    ScaleAdds(i, 1, b.fatSectors);
    ScaleOne(b.fatSectors);
    ScaleGrows(i + 1, b.fats, b.fatSectors);
    ScaleGrows(FatSector(b, i) + b.fatSectors, FatSector(b, b.fats), b.bps);
  }

  lemma ClustersFit(total: nat, data: nat, size: nat)
    requires size > 0 && data <= total
    ensures data + Scale(ClusterCount(total, data, size), size) <= total
  {
  }

  lemma LayoutSound(b: Bpb, length: nat, sector: nat)
    requires BpbOk(b, length, sector) && LayoutOk(b, Layout(b))
    ensures Sound(Layout(b), length, sector)
  {
    hide Scale, Up, Flag, ClusterCount;
    var g := Layout(b);
    var need := (g.clusters + 2) * (g.bits / 8);
    forall i | 0 <= i < b.fats
      ensures Scale(FatSector(b, i), b.bps) + Up(need, b.bps) <= g.rootOffset
    {
      FatFits(b, i, need);
    }
    ScaleGrows(1, b.spc, b.bps);
    ScaleOne(b.bps);
    MultiplesAdd(g.rootOffset, g.rootSize, b.bps);
    LayoutCovers(b);
    ClustersFit(Scale(b.total, b.bps), g.dataOffset, g.clusterSize);
  }

  lemma LayoutCovers(b: Bpb)
    requires SectorSize(b.bps) && ClusterSectors(b.spc) && Layout(b).clusters > 0
    ensures Layout(b).dataOffset <= Scale(b.total, b.bps)
  {
    hide Scale, Up, Flag;
  }

  // ---------------------------------------------------------------- chains

  function Width(g: Geometry): nat {
    if g.bits == 16 then 2 else 4
  }

  predicate InData(g: Geometry, cluster: nat) {
    2 <= cluster < g.clusters + 2
  }

  /** A cluster's byte offset in the ESP. */
  function ClusterOffset(g: Geometry, cluster: nat): nat
    requires cluster >= 2
  {
    g.dataOffset + Scale(cluster - 2, g.clusterSize)
  }

  /** The entry of a cluster in the FAT copy at `fat`. */
  function FatValue(esp: seq<byte>, g: Geometry, fat: nat, cluster: nat): nat
    requires fat + (cluster + 1) * Width(g) <= |esp|
  {
    if g.bits == 16 then Le16(esp, fat + cluster * 2) else Le32(esp, fat + cluster * 4) % 0x1000_0000
  }

  predicate EndOfChain(g: Geometry, value: nat) {
    value >= if g.bits == 16 then 0xfff8 else 0x0fff_fff8
  }

  lemma EntryInFat(g: Geometry, length: nat, sector: nat, i: nat, cluster: nat)
    requires Sound(g, length, sector) && i < |g.fatOffsets| && InData(g, cluster)
    ensures g.fatOffsets[i] + (cluster + 1) * Width(g) <= length
  {
    assert (cluster + 1) * Width(g) <= (g.clusters + 2) * (g.bits / 8);
  }

  /** The successor of a cluster, when every FAT copy in use agrees on it. */
  function NextCluster(esp: seq<byte>, g: Geometry, sector: nat, cluster: nat): Result<nat>
    requires Sound(g, |esp|, sector) && InData(g, cluster)
  {
    EntryInFat(g, |esp|, sector, 0, cluster);
    var value := FatValue(esp, g, g.fatOffsets[0], cluster);
    if |g.fatOffsets| == 1 then Ok(value)
    else
      EntryInFat(g, |esp|, sector, 1, cluster);
      if FatValue(esp, g, g.fatOffsets[1], cluster) == value then Ok(value) else Err
  }

  /** The clusters of a chain after those already `seen`; raises on a bad link, a cycle or an oversized chain. */
  function Chain(esp: seq<byte>, g: Geometry, sector: nat, cluster: nat, seen: seq<nat>): Result<seq<nat>>
    requires Sound(g, |esp|, sector)
    decreases CHAIN_LIMIT - |seen|
  {
    if !InData(g, cluster) || cluster in seen || Scale(|seen|, g.clusterSize) >= CHAIN_LIMIT then Err
    else
      SeenBelowLimit(|seen|, g.clusterSize);
      var next :- NextCluster(esp, g, sector, cluster);
      if EndOfChain(g, next) then Ok([cluster])
      else
        var rest :- Chain(esp, g, sector, next, seen + [cluster]);
        Ok([cluster] + rest)
  }

  lemma {:induction false} SeenBelowLimit(n: nat, size: nat)
    requires size > 0
    ensures n <= Scale(n, size)
  {
    if n > 0 {
      SeenBelowLimit(n - 1, size);
      ScaleAdds(n - 1, 1, size);
      ScaleOne(size);
    }
  }

  predicate Distinct(cs: seq<nat>) {
    forall i, j :: 0 <= i < j < |cs| ==> cs[i] != cs[j]
  }

  /** Once a chain walk succeeds, its clusters are distinct, new and inside the data area. */
  lemma {:induction false} ChainDistinct(esp: seq<byte>, g: Geometry, sector: nat, cluster: nat, seen: seq<nat>)
    requires Sound(g, |esp|, sector) && Chain(esp, g, sector, cluster, seen).Ok?
    ensures var cs := Chain(esp, g, sector, cluster, seen).value;
            && cs != [] && cs[0] == cluster && Distinct(cs)
            && forall i :: 0 <= i < |cs| ==> InData(g, cs[i]) && cs[i] !in seen
    decreases CHAIN_LIMIT - |seen|
  {
    var next := NextCluster(esp, g, sector, cluster).value;
    SeenBelowLimit(|seen|, g.clusterSize);
    if !EndOfChain(g, next) {
      ChainDistinct(esp, g, sector, next, seen + [cluster]);
      var cs := Chain(esp, g, sector, cluster, seen).value;
      var rest := Chain(esp, g, sector, next, seen + [cluster]).value;
      assert cs == [cluster] + rest;
      forall i | 0 < i < |cs|
        ensures cs[i] != cluster && cs[i] !in seen && InData(g, cs[i])
      {
        assert cs[i] == rest[i - 1] && cluster in seen + [cluster];
        assert forall s :: s in seen ==> s in seen + [cluster];
      }
      forall i, j | 0 <= i < j < |cs|
        ensures cs[i] != cs[j]
      {
        assert cs[j] == rest[j - 1] && (i > 0 ==> cs[i] == rest[i - 1]);
      }
    }
  }

  // ---------------------------------------------------------------- extents

  /** A byte range of the ESP. */
  datatype Extent = Extent(offset: nat, size: nat)

  predicate Apart(x: Extent, y: Extent) {
    x.offset + x.size <= y.offset || y.offset + y.size <= x.offset
  }

  /** Whole clusters as extents: a directory. */
  function ClusterExtents(g: Geometry, cs: seq<nat>): (es: seq<Extent>)
    requires forall i :: 0 <= i < |cs| ==> cs[i] >= 2
    ensures |es| == |cs|
  {
    seq(|cs|, i requires 0 <= i < |cs| => Extent(ClusterOffset(g, cs[i]), g.clusterSize))
  }

  /** Clusters of a file, the last one cut to what is left of its size. */
  function FileExtents(g: Geometry, cs: seq<nat>, size: nat): (es: seq<Extent>)
    requires forall i :: 0 <= i < |cs| ==> cs[i] >= 2
    requires forall i :: 0 <= i < |cs| ==> Scale(i, g.clusterSize) <= size
    ensures |es| == |cs|
  {
    seq(|cs|, i requires 0 <= i < |cs| =>
      Extent(ClusterOffset(g, cs[i]), Min(g.clusterSize, size - Scale(i, g.clusterSize))))
  }

  lemma ClustersApart(g: Geometry, c: nat, d: nat)
    requires 2 <= c && 2 <= d && c != d
    ensures Apart(Extent(ClusterOffset(g, c), g.clusterSize), Extent(ClusterOffset(g, d), g.clusterSize))
  {
    hide Scale;
    var low, high := if c < d then c else d, if c < d then d else c;
    ScaleAdds(low - 2, 1, g.clusterSize);
    ScaleOne(g.clusterSize);
    ScaleGrows(low - 1, high - 2, g.clusterSize);
  }

  lemma ClusterInside(g: Geometry, length: nat, sector: nat, cluster: nat)
    requires Sound(g, length, sector) && InData(g, cluster)
    ensures g.dataOffset <= ClusterOffset(g, cluster) && ClusterOffset(g, cluster) + g.clusterSize <= length
    ensures Multiple(ClusterOffset(g, cluster), g.bps)
  {
    hide Scale, Multiple;
    ScaleAdds(cluster - 2, 1, g.clusterSize);
    ScaleOne(g.clusterSize);
    ScaleGrows(cluster - 1, g.clusters, g.clusterSize);
    ScaledMultiple(cluster - 2, g.clusterSize, g.bps);
    MultiplesAdd(g.dataOffset, Scale(cluster - 2, g.clusterSize), g.bps);
  }

  lemma {:induction false} ScaledMultiple(n: nat, size: nat, unit: nat)
    requires Multiple(size, unit)
    ensures Multiple(Scale(n, size), unit)
  {
    if n == 0 {
      assert Scale(0, size) == 0;
    } else {
      ScaledMultiple(n - 1, size, unit);
      ScaleAdds(n - 1, 1, size);
      ScaleOne(size);
      MultiplesAdd(Scale(n - 1, size), size, unit);
    }
  }

  // ---------------------------------------------------------------- directories

  /** A directory entry that names a file or directory: its first cluster and size. */
  datatype Found = Found(cluster: nat, size: nat)

  const EFI: seq<byte> := [0x45, 0x46, 0x49, 0x20, 0x20, 0x20, 0x20, 0x20, 0x20, 0x20, 0x20]
  const VAMOS: seq<byte> := [0x56, 0x41, 0x4d, 0x4f, 0x53, 0x20, 0x20, 0x20, 0x20, 0x20, 0x20]
  const GRUBENV: seq<byte> := [0x47, 0x52, 0x55, 0x42, 0x45, 0x4e, 0x56, 0x20, 0x20, 0x20, 0x20]

  /** A deleted, volume-label or long-name entry, or one of another name. */
  predicate Skipped(entry: seq<byte>, name: seq<byte>)
    requires |entry| == 32
  {
    entry[0] == 0xe5 || Flag(entry[11], 8) || entry[..11] != name
  }

  function Target(g: Geometry, entry: seq<byte>): Found
    requires |entry| == 32
  {
    Found(Le16(entry, 26) + (if g.bits == 32 then Le16(entry, 20) * 0x1_0000 else 0), Le32(entry, 28))
  }

  /** All entries of one name up to the end mark; raises when one is of the wrong type. */
  function Scan(g: Geometry, data: seq<byte>, name: seq<byte>, directory: bool): Result<seq<Found>> {
    if |data| < 32 || data[0] == 0 then Ok([])
    else
      var entry := data[..32];
      if Skipped(entry, name) then Scan(g, data[32..], name, directory)
      else if Flag(entry[11], 0x10) != directory then Err
      else
        var rest :- Scan(g, data[32..], name, directory);
        Ok([Target(g, entry)] + rest)
  }

  predicate Fits(e: Extent, length: nat) {
    e.size > 0 && e.offset + e.size <= length
  }

  predicate Inside(es: seq<Extent>, length: nat) {
    forall i :: 0 <= i < |es| ==> Fits(es[i], length)
  }

  /** The bytes of one extent. */
  function Chunk(esp: seq<byte>, e: Extent): (s: seq<byte>)
    requires Fits(e, |esp|)
    ensures |s| == e.size
  {
    esp[e.offset..e.offset + e.size]
  }

  /** The bytes of several extents, one after another. */
  function Gather(esp: seq<byte>, es: seq<Extent>): seq<byte>
    requires Inside(es, |esp|)
  {
    if es == [] then [] else Chunk(esp, es[0]) + Gather(esp, es[1..])
  }

  /** The one entry of a name in a directory. */
  function Lookup(esp: seq<byte>, g: Geometry, dir: seq<Extent>, name: seq<byte>, directory: bool): Result<Found>
    requires Inside(dir, |esp|)
  {
    var found :- Scan(g, Gather(esp, dir), name, directory);
    if |found| == 1 then Ok(found[0]) else Err
  }

  lemma ChainInside(esp: seq<byte>, g: Geometry, sector: nat, cluster: nat)
    requires Sound(g, |esp|, sector) && Chain(esp, g, sector, cluster, []).Ok?
    ensures var cs := Chain(esp, g, sector, cluster, []).value;
            && (forall i :: 0 <= i < |cs| ==> InData(g, cs[i]))
            && Inside(ClusterExtents(g, cs), |esp|)
  {
    ChainDistinct(esp, g, sector, cluster, []);
    var cs := Chain(esp, g, sector, cluster, []).value;
    forall i | 0 <= i < |cs|
      ensures ClusterOffset(g, cs[i]) + g.clusterSize <= |esp|
    {
      ClusterInside(g, |esp|, sector, cs[i]);
    }
  }

  /** The clusters of a directory, as extents. */
  function Directory(esp: seq<byte>, g: Geometry, sector: nat, cluster: nat): (r: Result<seq<Extent>>)
    requires Sound(g, |esp|, sector)
    ensures r.Ok? ==> Inside(r.value, |esp|)
  {
    var cs :- Chain(esp, g, sector, cluster, []);
    ChainInside(esp, g, sector, cluster);
    Ok(ClusterExtents(g, cs))
  }

  /** The fixed root region of FAT16, or the root chain of FAT32. */
  function Root(esp: seq<byte>, g: Geometry, sector: nat): (r: Result<seq<Extent>>)
    requires Sound(g, |esp|, sector)
    ensures r.Ok? ==> Inside(r.value, |esp|)
  {
    if g.bits == 16 then Ok([Extent(g.rootOffset, g.rootSize)]) else Directory(esp, g, sector, g.rootCluster)
  }

  function Enter(esp: seq<byte>, g: Geometry, sector: nat, dir: seq<Extent>, name: seq<byte>): (r: Result<seq<Extent>>)
    requires Sound(g, |esp|, sector) && Inside(dir, |esp|)
    ensures r.Ok? ==> Inside(r.value, |esp|)
  {
    var found :- Lookup(esp, g, dir, name, true);
    Directory(esp, g, sector, found.cluster)
  }

  /** The extents of a record of `size` bytes in these clusters: exactly as many as 1024 bytes need. */
  function Allocated(g: Geometry, length: nat, sector: nat, size: nat, cs: seq<nat>): Result<seq<Extent>>
    requires Sound(g, length, sector) && forall i :: 0 <= i < |cs| ==> cs[i] >= 2
  {
    if size == RECORD && |cs| == (RECORD + g.clusterSize - 1) / g.clusterSize then
      RecordClusters(g, length, sector, |cs|);
      Ok(FileExtents(g, cs, RECORD))
    else Err
  }

  function Record(esp: seq<byte>, g: Geometry, sector: nat, dir: seq<Extent>): Result<seq<Extent>>
    requires Sound(g, |esp|, sector) && Inside(dir, |esp|)
  {
    var found :- Lookup(esp, g, dir, GRUBENV, false);
    var cs :- Chain(esp, g, sector, found.cluster, []);
    ChainInside(esp, g, sector, found.cluster);
    Allocated(g, |esp|, sector, found.size, cs)
  }

  /** `find_control`: EFI, VAMOS, GRUBENV from the root. */
  function FindControl(esp: seq<byte>, g: Geometry, sector: nat): Result<seq<Extent>>
    requires Sound(g, |esp|, sector)
  {
    var root :- Root(esp, g, sector);
    var efi :- Enter(esp, g, sector, root, EFI);
    var vamos :- Enter(esp, g, sector, efi, VAMOS);
    Record(esp, g, sector, vamos)
  }

  /** 1024 bytes take one cluster, or two of 512 bytes. */
  lemma RecordClusters(g: Geometry, length: nat, sector: nat, n: nat)
    requires Sound(g, length, sector) && n == (RECORD + g.clusterSize - 1) / g.clusterSize
    ensures n == if g.clusterSize == 512 then 2 else 1
    ensures g.clusterSize == 512 || g.clusterSize >= RECORD
    ensures Scale(0, g.clusterSize) == 0 && Scale(1, g.clusterSize) == g.clusterSize
  {
    var size := g.clusterSize;
    assert size == 512 || size >= 1024 by {
      var k := size / g.bps;
      assert size == Scale(k, g.bps);
      if g.bps == 512 && k >= 2 { ScaleGrows(2, k, g.bps); }
    }
    ScaleOne(size);
    if size >= 1024 { DivisionUnique(RECORD + size - 1, size, 1, RECORD - 1); }
  }

  predicate Disjoint(es: seq<Extent>) {
    forall i, j :: 0 <= i < j < |es| ==> Apart(es[i], es[j])
  }

  function Total(es: seq<Extent>): nat {
    if es == [] then 0 else Total(es[..|es| - 1]) + es[|es| - 1].size
  }

  /** The extents of a record: disjoint, cluster-aligned, in the data area, 1024 bytes in all. */
  predicate RecordExtents(g: Geometry, length: nat, es: seq<Extent>) {
    && 1 <= |es| <= 2 && Total(es) == RECORD && Disjoint(es)
    && (forall i :: 0 <= i < |es| ==>
          && g.dataOffset <= es[i].offset && es[i].offset + g.clusterSize <= length
          && 0 < es[i].size <= g.clusterSize && Multiple(es[i].offset, g.bps))
    && (|es| == 1 <==> g.clusterSize >= RECORD)
  }

  lemma ExtentsSound(g: Geometry, length: nat, sector: nat, cs: seq<nat>)
    requires Sound(g, length, sector) && (forall i :: 0 <= i < |cs| ==> cs[i] >= 2 && InData(g, cs[i]))
    requires |cs| == (if g.clusterSize == 512 then 2 else 1) && (|cs| == 2 ==> cs[0] != cs[1])
    requires g.clusterSize == 512 || g.clusterSize >= RECORD
    requires Scale(0, g.clusterSize) == 0 && Scale(1, g.clusterSize) == g.clusterSize
    ensures RecordExtents(g, length, FileExtents(g, cs, RECORD))
  {
    var es := FileExtents(g, cs, RECORD);
    forall i | 0 <= i < |es|
      ensures g.dataOffset <= es[i].offset && es[i].offset + g.clusterSize <= length && Multiple(es[i].offset, g.bps)
    {
      ClusterInside(g, length, sector, cs[i]);
    }
    hide Sound, Scale, Multiple, ClusterOffset;
    if |es| == 2 {
      ClustersApart(g, cs[0], cs[1]);
      assert Total(es) == Total(es[..1]) + es[1].size;
    }
    assert es[..1][..0] == [] && Total(es[..1]) == es[0].size && (|es| == 1 ==> es[..1] == es);
  }

  lemma RecordSound(esp: seq<byte>, g: Geometry, sector: nat, dir: seq<Extent>)
    requires Sound(g, |esp|, sector) && Inside(dir, |esp|) && Record(esp, g, sector, dir).Ok?
    ensures RecordExtents(g, |esp|, Record(esp, g, sector, dir).value)
  {
    hide Lookup, Chain, Sound, Scale, RecordExtents, FileExtents;
    var cluster := Lookup(esp, g, dir, GRUBENV, false).value.cluster;
    var cs := Chain(esp, g, sector, cluster, []).value;
    ChainDistinct(esp, g, sector, cluster, []);
    RecordClusters(g, |esp|, sector, |cs|);
    ExtentsSound(g, |esp|, sector, cs);
  }

  /**
   * The walk over arbitrary bytes: whenever it finds the record, its extents are disjoint, cluster-aligned,
   * inside the data area and 1024 bytes in all; with 4096-byte sectors they are one extent in one sector.
   */
  lemma WalkSound(esp: seq<byte>, g: Geometry, sector: nat)
    requires Sound(g, |esp|, sector) && FindControl(esp, g, sector).Ok?
    ensures var es := FindControl(esp, g, sector).value;
            && RecordExtents(g, |esp|, es)
            && (sector == 4096 ==> |es| == 1 && es[0].size == RECORD && Multiple(es[0].offset, 4096))
  {
    var root := Root(esp, g, sector).value;
    var efi := Enter(esp, g, sector, root, EFI).value;
    var vamos := Enter(esp, g, sector, efi, VAMOS).value;
    RecordSound(esp, g, sector, vamos);
    var es := FindControl(esp, g, sector).value;
    if |es| == 1 { assert es[..0] == [] && Total(es) == es[0].size; }
  }

  // ---------------------------------------------------------------- the whole walk

  /** Geometry and record extents that the bytes of an ESP lead to. */
  function Open(esp: seq<byte>, sector: nat): (r: Result<(Geometry, seq<Extent>)>)
    ensures r.Ok? ==> Sound(r.value.0, |esp|, sector) && RecordExtents(r.value.0, |esp|, r.value.1)
    ensures r.Ok? && sector == 4096 ==> |r.value.1| == 1 && Multiple(r.value.1[0].offset, 4096)
  {
    if |esp| < 512 then Err
    else
      var g :- Mount(esp[..512], |esp|, sector);
      var es :- FindControl(esp, g, sector);
      WalkSound(esp, g, sector);
      Ok((g, es))
  }
}
