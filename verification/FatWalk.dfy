/** EFI, VAMOS and GRUBENV as they are written on a volume: the walk succeeds exactly there, and ends at the record. */
module FatWalk {
  import opened Common
  import opened Bytes
  import opened FatFormat
  import opened FatFiles

  const NAME_EFI: seq<byte> := [69, 70, 73] + Blanks(8)
  const NAME_VAMOS: seq<byte> := [86, 65, 77, 79, 83] + Blanks(6)
  const NAME_GRUBENV: seq<byte> := [71, 82, 85, 66, 69, 78, 86] + Blanks(4)

  function Blanks(n: nat): (s: seq<byte>)
    ensures |s| == n
  {
    seq(n, i => 32)
  }

  /** The chains of the root directory (FAT32 alone), of EFI, of EFI/VAMOS, and of the record. */
  datatype Files = Files(root: seq<nat>, efi: seq<nat>, vamos: seq<nat>, record: seq<nat>)

  /** `n` units behind `start`. */
  function Behind(start: nat, n: nat, unit: nat): nat {
    start + n * unit
  }

  function ClusterStart(v: Volume, cluster: nat): nat
    requires v.bps > 0
  {
    if cluster < 2 then 0 else Behind(DataStart(v), cluster - 2, ClusterBytes(v))
  }

  /** The bytes of a chain, cluster after cluster. */
  function Content(esp: seq<byte>, v: Volume, cs: seq<nat>): seq<byte>
    requires v.bps > 0
  {
    if cs == [] then []
    else
      var at, size := ClusterStart(v, cs[0]), ClusterBytes(v);
      (if at + size <= |esp| then esp[at..at + size] else []) + Content(esp, v, cs[1..])
  }

  /** The root directory: a fixed region on FAT16, a chain on FAT32. */
  function RootContent(esp: seq<byte>, v: Volume, root: seq<nat>): seq<byte>
    requires v.bps > 0
  {
    if v.wide then Content(esp, v, root)
    else if RootStart(v) + RootBytes(v) <= |esp| then esp[RootStart(v)..RootStart(v) + RootBytes(v)] else []
  }

  /** A directory lists a subdirectory of this name, whose chain is written. */
  ghost predicate HoldsDirectory(esp: seq<byte>, v: Volume, d: seq<byte>, name: seq<byte>, cs: seq<nat>)
    requires v.bps > 0 && v.spc > 0 && |name| == 11
  {
    ChainWritten(esp, v, cs) && exists size: nat :: Lists(d, v.wide, name, true, cs[0], size)
  }

  /** A directory lists the record: 1024 bytes in as many clusters as they need. */
  ghost predicate HoldsRecord(esp: seq<byte>, v: Volume, d: seq<byte>, cs: seq<nat>)
    requires v.bps > 0 && v.spc > 0
  {
    && ChainWritten(esp, v, cs) && |cs| == (if ClusterBytes(v) == 512 then 2 else 1)
    && Lists(d, v.wide, NAME_GRUBENV, false, cs[0], 1024)
  }

  /** The volume holds EFI/VAMOS/GRUBENV. */
  ghost predicate Holds(esp: seq<byte>, v: Volume, f: Files)
    requires v.bps > 0 && v.spc > 0
  {
    && (v.wide ==> ChainWritten(esp, v, f.root) && f.root[0] == v.rootCluster)
    && HoldsDirectory(esp, v, RootContent(esp, v, f.root), NAME_EFI, f.efi)
    && HoldsDirectory(esp, v, Content(esp, v, f.efi), NAME_VAMOS, f.vamos)
    && HoldsRecord(esp, v, Content(esp, v, f.vamos), f.record)
  }

  /** Where the 1024 bytes of the record are. */
  function Places(v: Volume, record: seq<nat>): seq<FatVolume.Extent>
    requires v.bps > 0 && record != []
  {
    if |record| == 2 then
      [FatVolume.Extent(ClusterStart(v, record[0]), 512), FatVolume.Extent(ClusterStart(v, record[1]), 512)]
    else [FatVolume.Extent(ClusterStart(v, record[0]), 1024)]
  }

  lemma NamesAre()
    ensures NAME_EFI == FatVolume.EFI && NAME_VAMOS == FatVolume.VAMOS && NAME_GRUBENV == FatVolume.GRUBENV
    ensures |NAME_EFI| == |NAME_VAMOS| == |NAME_GRUBENV| == 11
    ensures NAME_EFI[0] != 0xe5 && NAME_VAMOS[0] != 0xe5 && NAME_GRUBENV[0] != 0xe5
  {
  }

  lemma GeometrySound(v: Volume, length: nat, sector: nat)
    requires Supported(v, length, sector)
    ensures FatVolume.Sound(GeometryOf(v), length, sector)
  {
    WrittenMounts(v, false, Zeros(512), length, sector);
    hide FatVolume.Sound, Supported, WriteBoot, GeometryOf;
  }

  lemma StartIs(v: Volume, cluster: nat)
    requires v.bps > 0 && v.spc > 0 && cluster >= 2
    ensures FatVolume.ClusterOffset(GeometryOf(v), cluster) == ClusterStart(v, cluster)
  {
    WidthIs(v);
    ScaleIs(cluster - 2, ClusterBytes(v));
    hide GeometryOf, Scale;
  }

  /** Reading a chain cluster by cluster gives its content. */
  lemma {:induction false} GatherIs(esp: seq<byte>, v: Volume, sector: nat, cs: seq<nat>)
    requires Supported(v, |esp|, sector) && forall i :: 0 <= i < |cs| ==> cs[i] >= 2 && Usable(v, cs[i])
    ensures var es := FatVolume.ClusterExtents(GeometryOf(v), cs);
            FatVolume.Inside(es, |esp|) && FatVolume.Gather(esp, es) == Content(esp, v, cs)
  {
    hide GeometryOf, Supported, FatVolume.Sound, FatVolume.Chunk, ClusterStart, DataStart, ClusterBytes, Usable, FatVolume.ClusterOffset, Clusters;
    SizeIs(v, |esp|, sector);
    var g := GeometryOf(v);
    var es := FatVolume.ClusterExtents(g, cs);
    if cs != [] {
      GatherIs(esp, v, sector, cs[1..]);
      assert es[1..] == FatVolume.ClusterExtents(g, cs[1..]);
      StartIs(v, cs[0]);
      ClusterRoom(esp, v, sector, cs[0]);
      assert es[0] == FatVolume.Extent(ClusterStart(v, cs[0]), ClusterBytes(v));
      forall i | 0 <= i < |es|
        ensures FatVolume.Fits(es[i], |esp|)
      {
        if i > 0 { assert es[i] == es[1..][i - 1]; }
      }
      ChunkIs(esp, es[0]);
    }
  }

  lemma ChunkIs(esp: seq<byte>, e: FatVolume.Extent)
    requires FatVolume.Fits(e, |esp|)
    ensures FatVolume.Chunk(esp, e) == esp[e.offset..e.offset + e.size]
  {
  }

  lemma ClusterRoom(esp: seq<byte>, v: Volume, sector: nat, cluster: nat)
    requires Supported(v, |esp|, sector) && Usable(v, cluster)
    ensures GeometryOf(v).clusterSize == ClusterBytes(v) > 0
    ensures cluster >= 2 && ClusterStart(v, cluster) + ClusterBytes(v) <= |esp|
  {
    hide FatVolume.Sound, Supported, Clusters, DataStart;
    GeometrySound(v, |esp|, sector);
    SizeIs(v, |esp|, sector);
    UsableInData(v, cluster);
    FatVolume.ClusterInside(GeometryOf(v), |esp|, sector, cluster);
    StartIs(v, cluster);
    WidthIs(v);
  }

  lemma SizeIs(v: Volume, length: nat, sector: nat)
    requires Supported(v, length, sector)
    ensures v.bps > 0 && v.spc > 0 && ClusterBytes(v) > 0 && (ClusterBytes(v) == 512 || ClusterBytes(v) >= 1024)
  {
    hide Clusters;
  }

  // ---------------------------------------------------------------- one level of the path

  /** The extents of a directory come from its chain. */
  lemma DirectoryExact(esp: seq<byte>, v: Volume, sector: nat, cluster: nat, cs: seq<nat>)
    requires Supported(v, |esp|, sector) && FatVolume.Sound(GeometryOf(v), |esp|, sector)
    requires ChainWritten(esp, v, cs) && cs[0] == cluster
    ensures FatVolume.Directory(esp, GeometryOf(v), sector, cluster) == Ok(FatVolume.ClusterExtents(GeometryOf(v), cs))
    ensures FatVolume.Inside(FatVolume.ClusterExtents(GeometryOf(v), cs), |esp|)
    ensures FatVolume.Gather(esp, FatVolume.ClusterExtents(GeometryOf(v), cs)) == Content(esp, v, cs)
  {
    hide GeometryOf, FatVolume.Chain, FatVolume.Sound, Supported, Linked, Ends, ClusterBytes;
    SizeIs(v, |esp|, sector);
    ChainExact(esp, v, sector, cluster, cs);
    GatherIs(esp, v, sector, cs);
  }

  lemma DirectoryDescribed(esp: seq<byte>, v: Volume, sector: nat, cluster: nat) returns (cs: seq<nat>)
    requires Supported(v, |esp|, sector) && FatVolume.Sound(GeometryOf(v), |esp|, sector)
    requires FatVolume.Directory(esp, GeometryOf(v), sector, cluster).Ok?
    ensures ChainWritten(esp, v, cs) && cs[0] == cluster
  {
    hide GeometryOf, FatVolume.Chain, FatVolume.Sound, Supported, ChainWritten;
    SizeIs(v, |esp|, sector);
    cs := FatVolume.Chain(esp, GeometryOf(v), sector, cluster, []).value;
    ChainExact(esp, v, sector, cluster, cs);
  }

  /** What a lookup finds is what the directory lists. */
  lemma LookupExact(esp: seq<byte>, v: Volume, dir: seq<FatVolume.Extent>, d: seq<byte>, name: seq<byte>, directory: bool, cluster: nat, size: nat)
    requires v.bps > 0 && v.spc > 0 && FatVolume.Inside(dir, |esp|) && FatVolume.Gather(esp, dir) == d
    requires |name| == 11 && name[0] != 0xe5
    ensures FatVolume.Lookup(esp, GeometryOf(v), dir, name, directory) == Ok(FatVolume.Found(cluster, size)) <==>
            Lists(d, v.wide, name, directory, cluster, size)
  {
    hide GeometryOf, FatVolume.Scan, Lists, FatVolume.Gather;
    WidthIs(v);
    ScanExact(GeometryOf(v), v.wide, d, name, directory, cluster, size);
    var found := FatVolume.Scan(GeometryOf(v), d, name, directory);
    if found.Ok? && |found.value| == 1 { assert found.value == [found.value[0]]; }
  }

  /** Entering a directory succeeds exactly when the one above lists it and its chain is written. */
  lemma EnterFinds(esp: seq<byte>, v: Volume, sector: nat, dir: seq<FatVolume.Extent>, d: seq<byte>, name: seq<byte>, cs: seq<nat>)
    requires Supported(v, |esp|, sector) && FatVolume.Sound(GeometryOf(v), |esp|, sector)
    requires FatVolume.Inside(dir, |esp|) && FatVolume.Gather(esp, dir) == d && |name| == 11 && name[0] != 0xe5
    requires HoldsDirectory(esp, v, d, name, cs)
    ensures forall i :: 0 <= i < |cs| ==> cs[i] >= 2
    ensures var es := FatVolume.ClusterExtents(GeometryOf(v), cs);
            && FatVolume.Enter(esp, GeometryOf(v), sector, dir, name) == Ok(es)
            && FatVolume.Inside(es, |esp|) && FatVolume.Gather(esp, es) == Content(esp, v, cs)
  {
    hide GeometryOf, FatVolume.Lookup, FatVolume.Directory, FatVolume.Sound, Supported, Lists, FatVolume.Gather, Linked, Ends, ClusterBytes;
    SizeIs(v, |esp|, sector);
    var size: nat :| Lists(d, v.wide, name, true, cs[0], size);
    LookupExact(esp, v, dir, d, name, true, cs[0], size);
    DirectoryExact(esp, v, sector, cs[0], cs);
  }

  lemma EnterDescribed(esp: seq<byte>, v: Volume, sector: nat, dir: seq<FatVolume.Extent>, d: seq<byte>, name: seq<byte>) returns (cs: seq<nat>)
    requires Supported(v, |esp|, sector) && FatVolume.Sound(GeometryOf(v), |esp|, sector)
    requires FatVolume.Inside(dir, |esp|) && FatVolume.Gather(esp, dir) == d && |name| == 11 && name[0] != 0xe5
    requires FatVolume.Enter(esp, GeometryOf(v), sector, dir, name).Ok?
    ensures HoldsDirectory(esp, v, d, name, cs)
  {
    hide GeometryOf, FatVolume.Lookup, FatVolume.Directory, FatVolume.Sound, Supported, Lists, FatVolume.Gather, ChainWritten;
    SizeIs(v, |esp|, sector);
    var found := FatVolume.Lookup(esp, GeometryOf(v), dir, name, true).value;
    LookupExact(esp, v, dir, d, name, true, found.cluster, found.size);
    cs := DirectoryDescribed(esp, v, sector, found.cluster);
  }

  /** The record's extents are its clusters, cut to 1024 bytes. */
  lemma RecordPlaces(v: Volume, length: nat, sector: nat, cs: seq<nat>)
    requires Supported(v, length, sector) && FatVolume.Sound(GeometryOf(v), length, sector)
    requires forall i :: 0 <= i < |cs| ==> cs[i] >= 2
    ensures var r := FatVolume.Allocated(GeometryOf(v), length, sector, 1024, cs);
            && (r.Ok? <==> |cs| == (if ClusterBytes(v) == 512 then 2 else 1))
            && (r.Ok? ==> r == Ok(Places(v, cs)))
  {
    hide GeometryOf, FatVolume.Sound, Supported, ClusterStart, FatVolume.ClusterOffset, ClusterBytes;
    SizeIs(v, length, sector);
    var g, n := GeometryOf(v), (1024 + ClusterBytes(v) - 1) / ClusterBytes(v);
    WidthIs(v);
    FatVolume.RecordClusters(g, length, sector, n);
    if |cs| == n {
      StartIs(v, cs[0]);
      if n == 2 { StartIs(v, cs[1]); }
      assert FatVolume.FileExtents(g, cs, 1024) == Places(v, cs);
    }
  }

  lemma RecordFinds(esp: seq<byte>, v: Volume, sector: nat, dir: seq<FatVolume.Extent>, d: seq<byte>, cs: seq<nat>)
    requires Supported(v, |esp|, sector) && FatVolume.Sound(GeometryOf(v), |esp|, sector)
    requires FatVolume.Inside(dir, |esp|) && FatVolume.Gather(esp, dir) == d
    requires HoldsRecord(esp, v, d, cs)
    ensures FatVolume.Record(esp, GeometryOf(v), sector, dir) == Ok(Places(v, cs))
  {
    hide GeometryOf, FatVolume.Lookup, FatVolume.Chain, FatVolume.Sound, Supported, Lists, FatVolume.Gather, Linked, Ends, ClusterBytes,
         FatVolume.Allocated, NAME_GRUBENV, FatVolume.GRUBENV;
    SizeIs(v, |esp|, sector);
    NamesAre();
    LookupExact(esp, v, dir, d, NAME_GRUBENV, false, cs[0], 1024);
    ChainExact(esp, v, sector, cs[0], cs);
    RecordPlaces(v, |esp|, sector, cs);
  }

  lemma RecordDescribed(esp: seq<byte>, v: Volume, sector: nat, dir: seq<FatVolume.Extent>, d: seq<byte>) returns (cs: seq<nat>)
    requires Supported(v, |esp|, sector) && FatVolume.Sound(GeometryOf(v), |esp|, sector)
    requires FatVolume.Inside(dir, |esp|) && FatVolume.Gather(esp, dir) == d
    requires FatVolume.Record(esp, GeometryOf(v), sector, dir).Ok?
    ensures HoldsRecord(esp, v, d, cs) && FatVolume.Record(esp, GeometryOf(v), sector, dir) == Ok(Places(v, cs))
  {
    hide GeometryOf, FatVolume.Lookup, FatVolume.Chain, FatVolume.Sound, Supported, Lists, FatVolume.Gather, Linked, Ends, ClusterBytes,
         NAME_GRUBENV, FatVolume.GRUBENV, FatVolume.FileExtents;
    SizeIs(v, |esp|, sector);
    NamesAre();
    var found := FatVolume.Lookup(esp, GeometryOf(v), dir, FatVolume.GRUBENV, false).value;
    LookupExact(esp, v, dir, d, NAME_GRUBENV, false, found.cluster, found.size);
    cs := FatVolume.Chain(esp, GeometryOf(v), sector, found.cluster, []).value;
    ChainExact(esp, v, sector, found.cluster, cs);
    RecordPlaces(v, |esp|, sector, cs);
  }

  // ---------------------------------------------------------------- the whole walk

  lemma RootFinds(esp: seq<byte>, v: Volume, sector: nat, root: seq<nat>)
    requires Supported(v, |esp|, sector) && FatVolume.Sound(GeometryOf(v), |esp|, sector)
    requires v.wide ==> ChainWritten(esp, v, root) && root[0] == v.rootCluster
    ensures var r := FatVolume.Root(esp, GeometryOf(v), sector);
            r.Ok? && FatVolume.Inside(r.value, |esp|) && FatVolume.Gather(esp, r.value) == RootContent(esp, v, root)
  {
    if v.wide {
      DirectoryExact(esp, v, sector, v.rootCluster, root);
      hide FatVolume.Directory, FatVolume.Sound, Supported, FatVolume.Gather, ChainWritten, Content;
    } else {
      var e := FatVolume.Extent(RootStart(v), RootBytes(v));
      assert FatVolume.Root(esp, GeometryOf(v), sector) == Ok([e]);
      hide FatVolume.Sound, Supported, GeometryOf, RootStart, RootBytes, Content;
      assert [e][1..] == [] && FatVolume.Gather(esp, [e][1..]) == [];
      assert FatVolume.Gather(esp, [e]) == FatVolume.Chunk(esp, e) + [];
    }
  }

  /** On a volume so written the walk ends exactly at the clusters of the record. */
  lemma ControlFound(esp: seq<byte>, v: Volume, sector: nat, f: Files)
    requires Supported(v, |esp|, sector) && FatVolume.Sound(GeometryOf(v), |esp|, sector) && Holds(esp, v, f)
    ensures f.record != [] && FatVolume.FindControl(esp, GeometryOf(v), sector) == Ok(Places(v, f.record))
  {
    hide GeometryOf, FatVolume.Root, FatVolume.Enter, FatVolume.Record, FatVolume.Sound, Supported, HoldsDirectory, HoldsRecord,
         FatVolume.Gather, Content, RootContent, Places, ChainWritten;
    hide NAME_EFI, NAME_VAMOS, NAME_GRUBENV, FatVolume.EFI, FatVolume.VAMOS;
    NamesAre();
    SizeIs(v, |esp|, sector);
    RootFinds(esp, v, sector, f.root);
    var root := FatVolume.Root(esp, GeometryOf(v), sector).value;
    EnterFinds(esp, v, sector, root, RootContent(esp, v, f.root), NAME_EFI, f.efi);
    var efi := FatVolume.ClusterExtents(GeometryOf(v), f.efi);
    EnterFinds(esp, v, sector, efi, Content(esp, v, f.efi), NAME_VAMOS, f.vamos);
    var vamos := FatVolume.ClusterExtents(GeometryOf(v), f.vamos);
    RecordHeld(esp, v, Content(esp, v, f.vamos), f.record);
    RecordFinds(esp, v, sector, vamos, Content(esp, v, f.vamos), f.record);
  }

  lemma RecordHeld(esp: seq<byte>, v: Volume, d: seq<byte>, cs: seq<nat>)
    requires v.bps > 0 && v.spc > 0 && HoldsRecord(esp, v, d, cs)
    ensures cs != []
  {
  }

  /** Whatever volume the walk succeeds on was written so. */
  lemma ControlDescribed(esp: seq<byte>, v: Volume, sector: nat) returns (f: Files)
    requires Supported(v, |esp|, sector) && FatVolume.Sound(GeometryOf(v), |esp|, sector)
    requires FatVolume.FindControl(esp, GeometryOf(v), sector).Ok?
    ensures Holds(esp, v, f)
  {
    hide GeometryOf, FatVolume.Root, FatVolume.Enter, FatVolume.Record, FatVolume.Sound, Supported, HoldsDirectory, HoldsRecord,
         FatVolume.Gather, Content, RootContent, Places, ChainWritten;
    hide NAME_EFI, NAME_VAMOS, NAME_GRUBENV, FatVolume.EFI, FatVolume.VAMOS;
    NamesAre();
    SizeIs(v, |esp|, sector);
    var root := RootDescribed(esp, v, sector);
    RootFinds(esp, v, sector, root);
    var top := FatVolume.Root(esp, GeometryOf(v), sector).value;
    var efi := EnterDescribed(esp, v, sector, top, RootContent(esp, v, root), NAME_EFI);
    EnterFinds(esp, v, sector, top, RootContent(esp, v, root), NAME_EFI, efi);
    var inner := FatVolume.ClusterExtents(GeometryOf(v), efi);
    var vamos := EnterDescribed(esp, v, sector, inner, Content(esp, v, efi), NAME_VAMOS);
    EnterFinds(esp, v, sector, inner, Content(esp, v, efi), NAME_VAMOS, vamos);
    var last := FatVolume.ClusterExtents(GeometryOf(v), vamos);
    var record := RecordDescribed(esp, v, sector, last, Content(esp, v, vamos));
    f := Files(root, efi, vamos, record);
  }

  lemma RootDescribed(esp: seq<byte>, v: Volume, sector: nat) returns (root: seq<nat>)
    requires Supported(v, |esp|, sector) && FatVolume.Sound(GeometryOf(v), |esp|, sector)
    requires FatVolume.Root(esp, GeometryOf(v), sector).Ok?
    ensures v.wide ==> ChainWritten(esp, v, root) && root[0] == v.rootCluster
  {
    root := [];
    if v.wide {
      root := DirectoryDescribed(esp, v, sector, v.rootCluster);
    }
  }

  /** The first sector of an ESP is the boot sector of a supported volume that holds the record. */
  ghost predicate WrittenEsp(esp: seq<byte>, sector: nat, v: Volume, short: bool, f: Files) {
    && |esp| >= 512 && Supported(v, |esp|, sector) && (short ==> v.sectors < 0x1_0000)
    && esp[..512] == WriteBoot(v, short, esp[..512]) && Holds(esp, v, f) && f.record != []
  }

  /** Every ESP so written is opened, at exactly the clusters of its record. */
  lemma WalkFinds(esp: seq<byte>, sector: nat, v: Volume, short: bool, f: Files)
    requires WrittenEsp(esp, sector, v, short, f)
    ensures FatVolume.Open(esp, sector) == Ok((GeometryOf(v), Places(v, f.record)))
  {
    hide GeometryOf, FatVolume.Mount, FatVolume.FindControl, Supported, Holds, WriteBoot, Places, FatVolume.Sound;
    SizeIs(v, |esp|, sector);
    GeometrySound(v, |esp|, sector);
    WrittenMounts(v, short, esp[..512], |esp|, sector);
    ControlFound(esp, v, sector, f);
  }

  /** And every ESP that is opened is written so: the walk accepts nothing else. */
  lemma WalkDescribes(esp: seq<byte>, sector: nat) returns (v: Volume, short: bool, f: Files)
    requires FatVolume.Open(esp, sector).Ok?
    ensures WrittenEsp(esp, sector, v, short, f) && FatVolume.Open(esp, sector) == Ok((GeometryOf(v), Places(v, f.record)))
  {
    hide GeometryOf, FatVolume.Mount, FatVolume.FindControl, Supported, Holds, WriteBoot, Places, FatVolume.Sound, VolumeOf;
    var boot := esp[..512];
    MountedIsWritten(boot, |esp|, sector);
    v, short := VolumeOf(boot), Le16(boot, 19) != 0;
    SizeIs(v, |esp|, sector);
    GeometrySound(v, |esp|, sector);
    f := ControlDescribed(esp, v, sector);
    ControlFound(esp, v, sector, f);
  }
}
