/**
 * A FAT volume as it is written: boot sector, allocation chains and directory entries, laid out field by field.
 * The walk of `FatVolume` succeeds exactly on the volumes written this way, and ends at the record they hold.
 */
module FatFormat {
  import opened Common
  import opened Bytes
  import FatVolume

  // ---------------------------------------------------------------- the boot sector

  /** FAT16, or FAT32 when `wide`. */
  datatype Volume = Volume(
    wide: bool, bps: nat, spc: nat, reserved: nat, fats: nat, rootEntries: nat, sectors: nat, fatSectors: nat,
    flags: nat, rootCluster: nat)

  predicate Writable(v: Volume) {
    && v.bps < 0x1_0000 && v.spc < 0x100 && v.reserved < 0x1_0000 && v.fats < 0x100 && v.rootEntries < 0x1_0000
    && v.sectors < 0x1_0000_0000 && v.fatSectors < (if v.wide then 0x1_0000_0000 else 0x1_0000)
    && v.flags < 0x1_0000 && v.rootCluster < 0x1_0000_0000
  }

  /** Fields 11 to 36: the number of sectors goes into the short field at 19 or the long one at 32. */
  function WriteLayout(v: Volume, short: bool, other: seq<byte>): (s: seq<byte>)
    requires Writable(v) && |other| == 512 && (short ==> v.sectors < 0x1_0000)
    ensures |s| == 25
  {
    Put16(v.bps) + [v.spc] + Put16(v.reserved) + [v.fats] + Put16(v.rootEntries) +
    Put16(if short then v.sectors else 0) + other[21..22] + Put16(if v.wide then 0 else v.fatSectors) + other[24..32] +
    (if short then other[32..36] else Put32(v.sectors))
  }

  /** Fields 36 to 48: FAT32 keeps its FAT size, flags and root cluster there. */
  function WriteWide(v: Volume, other: seq<byte>): (s: seq<byte>)
    requires Writable(v) && |other| == 512
    ensures |s| == 12
  {
    if v.wide then Put32(v.fatSectors) + Put16(v.flags) + other[42..44] + Put32(v.rootCluster) else other[36..48]
  }

  /** The boot sector of a volume; `other` gives the bytes that no field of ours owns. */
  function WriteBoot(v: Volume, short: bool, other: seq<byte>): (s: seq<byte>)
    requires Writable(v) && |other| == 512 && (short ==> v.sectors < 0x1_0000)
    ensures |s| == 512
  {
    other[..11] + WriteLayout(v, short, other) + WriteWide(v, other) + other[48..510] + [0x55, 0xaa]
  }

  // ---------------------------------------------------------------- the layout it describes, in bytes

  function RootStart(v: Volume): nat {
    (v.reserved + v.fats * v.fatSectors) * v.bps
  }

  function RootBytes(v: Volume): nat
    requires v.bps > 0
  {
    (v.rootEntries * 32 + v.bps - 1) / v.bps * v.bps
  }

  function DataStart(v: Volume): nat
    requires v.bps > 0
  {
    RootStart(v) + RootBytes(v)
  }

  function ClusterBytes(v: Volume): nat {
    v.spc * v.bps
  }

  function Clusters(v: Volume): nat
    requires v.bps > 0 && v.spc > 0
  {
    assert ClusterBytes(v) > 0;
    if v.sectors * v.bps < DataStart(v) then 0 else (v.sectors * v.bps - DataStart(v)) / ClusterBytes(v)
  }

  function EntryBytes(v: Volume): nat {
    if v.wide then 4 else 2
  }

  /** Only the copy that FAT32 names as active is in use when mirroring is off. */
  predicate Unmirrored(v: Volume) {
    v.wide && v.flags / 0x80 % 2 == 1
  }

  /** Where the FAT copies in use begin. */
  function FatStarts(v: Volume): seq<nat> {
    if Unmirrored(v) then [(v.reserved + v.flags % 16 * v.fatSectors) * v.bps]
    else if v.fats == 1 then [v.reserved * v.bps]
    else [v.reserved * v.bps, (v.reserved + v.fatSectors) * v.bps]
  }

  /** The volumes that the walk accepts. */
  predicate Supported(v: Volume, length: nat, sector: nat) {
    && Writable(v)
    && (v.bps == 512 || v.bps == 1024 || v.bps == 2048 || v.bps == 4096) && v.bps >= sector
    && (v.spc == 1 || v.spc == 2 || v.spc == 4 || v.spc == 8 || v.spc == 16 || v.spc == 32 || v.spc == 64 || v.spc == 128)
    && v.reserved > 0 && (v.fats == 1 || v.fats == 2) && v.fatSectors > 0 && v.sectors * v.bps <= length
    && (Clusters(v) + 2) * EntryBytes(v) <= v.fatSectors * v.bps
    && if v.wide then 65525 <= Clusters(v) < 0x0fff_fff5 && v.rootEntries == 0 && (Unmirrored(v) ==> v.flags % 16 < v.fats)
       else 4085 <= Clusters(v) < 65525 && v.rootEntries > 0
  }

  function GeometryOf(v: Volume): FatVolume.Geometry
    requires v.bps > 0 && v.spc > 0
  {
    FatVolume.Geometry(v.bps, ClusterBytes(v), RootStart(v), RootBytes(v), DataStart(v), Clusters(v),
                       if v.wide then 32 else 16, if v.wide then v.rootCluster else 0, FatStarts(v))
  }

  // ---------------------------------------------------------------- mounting

  /** The numbers that a written boot sector is read back as. */
  function BpbOf(v: Volume, boot: seq<byte>): FatVolume.Bpb
    requires |boot| == 512
  {
    FatVolume.Bpb(v.bps, v.spc, v.reserved, v.fats, v.rootEntries, v.sectors, if v.wide then 0 else v.fatSectors, v.fatSectors,
                  if v.wide then v.flags else Le16(boot, 40), if v.wide then v.rootCluster else Le32(boot, 44))
  }

  lemma WrittenFields(v: Volume, short: bool, other: seq<byte>)
    requires Writable(v) && |other| == 512 && (short ==> 0 < v.sectors < 0x1_0000)
    ensures var boot := WriteBoot(v, short, other);
            && boot[11..13] == Put16(v.bps) && boot[13] == v.spc && boot[14..16] == Put16(v.reserved) && boot[16] == v.fats
            && boot[17..19] == Put16(v.rootEntries) && boot[19..21] == Put16(if short then v.sectors else 0)
            && boot[22..24] == Put16(if v.wide then 0 else v.fatSectors) && (!short ==> boot[32..36] == Put32(v.sectors))
            && (v.wide ==> boot[36..40] == Put32(v.fatSectors) && boot[40..42] == Put16(v.flags) && boot[44..48] == Put32(v.rootCluster))
            && boot[510..] == [0x55, 0xaa]
  {
    hide Put16, Put32;
    var boot := WriteBoot(v, short, other);
    assert boot[11..36] == WriteLayout(v, short, other) && boot[36..48] == WriteWide(v, other);
    WrittenLayout(v, short, other);
    SubSlice(boot, 11, 36, 0, 2);
    SubSlice(boot, 11, 36, 3, 5);
    SubSlice(boot, 11, 36, 6, 8);
    SubSlice(boot, 11, 36, 8, 10);
    SubSlice(boot, 11, 36, 11, 13);
    SubSlice(boot, 11, 36, 21, 25);
    assert boot[13] == boot[11..36][2] && boot[16] == boot[11..36][5];
    hide WriteLayout;
    WrittenWide(v, other);
    SubSlice(boot, 36, 48, 0, 4);
    SubSlice(boot, 36, 48, 4, 6);
    SubSlice(boot, 36, 48, 8, 12);
  }

  lemma WrittenLayout(v: Volume, short: bool, other: seq<byte>)
    requires Writable(v) && |other| == 512 && (short ==> v.sectors < 0x1_0000)
    ensures var s := WriteLayout(v, short, other);
            && s[0..2] == Put16(v.bps) && s[2] == v.spc && s[3..5] == Put16(v.reserved) && s[5] == v.fats
            && s[6..8] == Put16(v.rootEntries) && s[8..10] == Put16(if short then v.sectors else 0)
            && s[11..13] == Put16(if v.wide then 0 else v.fatSectors) && (!short ==> s[21..25] == Put32(v.sectors))
  {
    hide Put16, Put32;
  }

  lemma WrittenWide(v: Volume, other: seq<byte>)
    requires Writable(v) && |other| == 512
    ensures var s := WriteWide(v, other);
            v.wide ==> s[0..4] == Put32(v.fatSectors) && s[4..6] == Put16(v.flags) && s[8..12] == Put32(v.rootCluster)
  {
    hide Put16, Put32;
  }

  lemma WrittenParses(v: Volume, short: bool, other: seq<byte>)
    requires Writable(v) && |other| == 512 && v.sectors > 0 && v.fatSectors > 0 && (short ==> v.sectors < 0x1_0000)
    ensures var boot := WriteBoot(v, short, other);
            boot[510..] == [0x55, 0xaa] && FatVolume.ParseBpb(boot) == BpbOf(v, boot)
  {
    var boot := WriteBoot(v, short, other);
    WrittenFields(v, short, other);
    hide WriteBoot, Put16, Put32, Le16, Le32;
    Field16(boot, 11, v.bps);
    Field16(boot, 14, v.reserved);
    Field16(boot, 17, v.rootEntries);
    Field16(boot, 19, if short then v.sectors else 0);
    Field16(boot, 22, if v.wide then 0 else v.fatSectors);
    Field32(boot, 32, v.sectors);
    if v.wide {
      Field32(boot, 36, v.fatSectors);
      Field16(boot, 40, v.flags);
      Field32(boot, 44, v.rootCluster);
    }
  }

  lemma UpIs(n: nat, unit: nat)
    requires unit > 0
    ensures Up(n, unit) == (n + unit - 1) / unit * unit
  {
  }

  /** The layout computed from the numbers is the one described. */
  lemma LayoutIs(v: Volume, b: FatVolume.Bpb)
    requires SectorSize(v.bps) && FatVolume.ClusterSectors(v.spc) && (v.fats == 1 || v.fats == 2)
    requires b == FatVolume.Bpb(v.bps, v.spc, v.reserved, v.fats, v.rootEntries, v.sectors, b.fat16, v.fatSectors, b.flags, b.rootCluster)
    requires v.wide <==> Clusters(v) >= 65525
    requires v.wide ==> b.flags == v.flags && b.rootCluster == v.rootCluster
    ensures FatVolume.Layout(b) == GeometryOf(v)
  {
    hide Scale, Up, FatVolume.FatSectors, FatStarts, RootBytes, FatVolume.Flag;
    ScaleIs(v.spc, v.bps);
    ScaleIs(v.fats, v.fatSectors);
    ScaleIs(v.reserved + v.fats * v.fatSectors, v.bps);
    RootIs(v);
    ScaleIs(v.sectors, v.bps);
    FatStartsAre(v, b);
    hide FatVolume.FatSector;
  }

  lemma RootIs(v: Volume)
    requires v.bps > 0
    ensures Up(v.rootEntries * 32, v.bps) == RootBytes(v)
  {
    UpIs(v.rootEntries * 32, v.bps);
    hide Up;
  }

  /** The FAT copies in use are where the volume has them. */
  lemma FatStartsAre(v: Volume, b: FatVolume.Bpb)
    requires v.bps > 0 && (v.fats == 1 || v.fats == 2) && b.reserved == v.reserved && b.fats == v.fats && b.fatSectors == v.fatSectors
    requires v.wide ==> b.flags == v.flags
    ensures var fats := FatVolume.FatSectors(b, if v.wide then 32 else 16);
            |fats| == |FatStarts(v)| && forall i :: 0 <= i < |fats| ==> Scale(fats[i], v.bps) == FatStarts(v)[i]
  {
    hide Scale;
    ScaleIs(0, v.fatSectors);
    ScaleIs(1, v.fatSectors);
    ScaleIs(b.flags % 16, v.fatSectors);
    ScaleIs(v.reserved, v.bps);
    ScaleIs(v.reserved + v.fatSectors, v.bps);
    ScaleIs(v.reserved + b.flags % 16 * v.fatSectors, v.bps);
  }

  /** The numbers of a boot sector are those of the volume, as far as they are used. */
  predicate Numbers(v: Volume, b: FatVolume.Bpb) {
    && b == FatVolume.Bpb(v.bps, v.spc, v.reserved, v.fats, v.rootEntries, v.sectors, b.fat16, v.fatSectors, b.flags, b.rootCluster)
    && (v.wide <==> b.fat16 == 0) && (v.wide ==> b.flags == v.flags && b.rootCluster == v.rootCluster)
  }

  /** The checks pass exactly on the numbers of a supported volume, and the layout is the one described. */
  lemma CheckedExactly(v: Volume, b: FatVolume.Bpb, length: nat, sector: nat)
    requires Numbers(v, b) && Writable(v)
    ensures FatVolume.BpbOk(b, length, sector) && FatVolume.LayoutOk(b, FatVolume.Layout(b)) <==> Supported(v, length, sector)
    ensures Supported(v, length, sector) ==> FatVolume.Layout(b) == GeometryOf(v)
  {
    if SectorSize(v.bps) && FatVolume.ClusterSectors(v.spc) && (v.fats == 1 || v.fats == 2) {
      BitsAre(v, b);
      ScaleIs(v.sectors, v.bps);
      ScaleIs(v.fatSectors, v.bps);
      hide Scale, Clusters, RootBytes;
      if v.wide <==> Clusters(v) >= 65525 {
        LayoutIs(v, b);
        CheckedLayout(v, b);
      }
    }
    hide FatVolume.Layout, Scale, Clusters, RootBytes, FatVolume.LayoutOk;
  }

  lemma CheckedLayout(v: Volume, b: FatVolume.Bpb)
    requires v.bps > 0 && v.spc > 0 && Numbers(v, b) && (v.wide <==> Clusters(v) >= 65525)
    ensures FatVolume.LayoutOk(b, GeometryOf(v)) <==>
      && (Clusters(v) + 2) * EntryBytes(v) <= v.fatSectors * v.bps
      && if v.wide then Clusters(v) < 0x0fff_fff5 && v.rootEntries == 0 && (Unmirrored(v) ==> v.flags % 16 < v.fats)
         else 4085 <= Clusters(v) && v.rootEntries > 0
  {
    ScaleIs(v.fatSectors, v.bps);
    hide Scale, Clusters, RootBytes, DataStart, FatStarts;
  }

  /** The type follows from the number of clusters, and has to agree with the FAT size field. */
  lemma BitsAre(v: Volume, b: FatVolume.Bpb)
    requires SectorSize(v.bps) && FatVolume.ClusterSectors(v.spc) && b.bps == v.bps && b.spc == v.spc && b.reserved == v.reserved
    requires b.fats == v.fats && b.rootEntries == v.rootEntries && b.total == v.sectors && b.fatSectors == v.fatSectors
    ensures FatVolume.Layout(b).clusters == Clusters(v) && (FatVolume.Layout(b).bits == 32 <==> Clusters(v) >= 65525)
    ensures FatVolume.Layout(b).bits == 32 || FatVolume.Layout(b).bits == 16
  {
    hide Scale, Up, FatVolume.FatSectors, RootBytes;
    ScaleIs(v.spc, v.bps);
    ScaleIs(v.fats, v.fatSectors);
    ScaleIs(v.reserved + v.fats * v.fatSectors, v.bps);
    RootIs(v);
    ScaleIs(v.sectors, v.bps);
  }

  /** A written boot sector of a supported volume mounts, as the volume it describes. */
  lemma WrittenMounts(v: Volume, short: bool, other: seq<byte>, length: nat, sector: nat)
    requires Supported(v, length, sector) && |other| == 512 && (short ==> v.sectors < 0x1_0000)
    ensures FatVolume.Mount(WriteBoot(v, short, other), length, sector) == Ok(GeometryOf(v))
  {
    hide WriteBoot, FatVolume.ParseBpb, FatVolume.Layout, FatVolume.LayoutOk, FatVolume.BpbOk, Clusters;
    SomeSectors(v);
    WrittenParses(v, short, other);
    CheckedExactly(v, BpbOf(v, WriteBoot(v, short, other)), length, sector);
  }

  lemma SomeSectors(v: Volume)
    requires v.bps > 0 && v.spc > 0 && Clusters(v) > 0
    ensures v.sectors > 0
  {
    assert v.sectors == 0 ==> v.sectors * v.bps == 0;
  }

  // ---------------------------------------------------------------- the other direction: what mounts was written so

  /** The volume whose boot sector this is. */
  function VolumeOf(boot: seq<byte>): (v: Volume)
    requires |boot| == 512
    ensures Writable(v)
  {
    var wide := Le16(boot, 22) == 0;
    Volume(wide, Le16(boot, 11), boot[13], Le16(boot, 14), boot[16], Le16(boot, 17),
           if Le16(boot, 19) != 0 then Le16(boot, 19) else Le32(boot, 32),
           if wide then Le32(boot, 36) else Le16(boot, 22), Le16(boot, 40), Le32(boot, 44))
  }

  lemma RewritesItself(boot: seq<byte>)
    requires |boot| == 512 && boot[510..] == [0x55, 0xaa]
    ensures WriteBoot(VolumeOf(boot), Le16(boot, 19) != 0, boot) == boot
  {
    hide Put16, Put32, Le16, Le32;
    var v := VolumeOf(boot);
    Field16(boot, 11, Le16(boot, 11));
    Field16(boot, 14, Le16(boot, 14));
    Field16(boot, 17, Le16(boot, 17));
    Field16(boot, 19, Le16(boot, 19));
    Field16(boot, 22, Le16(boot, 22));
    Field32(boot, 32, Le32(boot, 32));
    Field32(boot, 36, Le32(boot, 36));
    Field16(boot, 40, Le16(boot, 40));
    Field32(boot, 44, Le32(boot, 44));
    assert WriteLayout(v, Le16(boot, 19) != 0, boot) == boot[11..36];
    assert WriteWide(v, boot) == boot[36..48];
    hide WriteLayout, WriteWide;
    assert boot == boot[..11] + boot[11..36] + boot[36..48] + boot[48..510] + boot[510..];
  }

  /** Whatever boot sector mounts is the written one of a supported volume. */
  lemma MountedIsWritten(boot: seq<byte>, length: nat, sector: nat)
    requires |boot| == 512 && FatVolume.Mount(boot, length, sector).Ok?
    ensures var v := VolumeOf(boot);
            && Supported(v, length, sector) && v.sectors > 0
            && WriteBoot(v, Le16(boot, 19) != 0, boot) == boot && (Le16(boot, 19) != 0 ==> v.sectors < 0x1_0000)
            && FatVolume.Mount(boot, length, sector) == Ok(GeometryOf(v))
  {
    hide WriteBoot, VolumeOf, FatVolume.ParseBpb, FatVolume.Layout, FatVolume.LayoutOk, FatVolume.BpbOk, Clusters;
    RewritesItself(boot);
    MountedNumbers(boot);
    CheckedExactly(VolumeOf(boot), FatVolume.ParseBpb(boot), length, sector);
    SomeSectors(VolumeOf(boot));
  }

  lemma MountedNumbers(boot: seq<byte>)
    requires |boot| == 512
    ensures var v, b := VolumeOf(boot), FatVolume.ParseBpb(boot);
            Numbers(v, b) && (Le16(boot, 19) != 0 ==> v.sectors < 0x1_0000)
  {
  }
}
