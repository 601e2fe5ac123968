/** Chains, directories and the three files on the way to the record, as they are written; and the walk that finds them. */
module FatFiles {
  import opened Common
  import opened Bytes
  import opened FatFormat

  // ---------------------------------------------------------------- allocation chains

  /** One FAT entry: FAT32 keeps its own four bits on top. */
  predicate Links(esp: seq<byte>, at: nat, wide: bool, value: nat) {
    if wide then
      && at + 4 <= |esp| && value < 0x1000_0000
      && exists top: nat :: top < 16 && esp[at..at + 4] == Put32(value + top * 0x1000_0000)
    else
      at + 2 <= |esp| && value < 0x1_0000 && esp[at..at + 2] == Put16(value)
  }

  /** Every FAT copy in use links `cluster` to `value`. */
  predicate Linked(esp: seq<byte>, v: Volume, cluster: nat, value: nat) {
    forall i :: 0 <= i < |FatStarts(v)| ==> Links(esp, FatStarts(v)[i] + cluster * EntryBytes(v), v.wide, value)
  }

  predicate EndMark(v: Volume, value: nat) {
    value >= if v.wide then 0x0fff_fff8 else 0xfff8
  }

  /** Every FAT copy in use marks `cluster` as the end of its chain, with one and the same mark. */
  ghost predicate Ends(esp: seq<byte>, v: Volume, cluster: nat) {
    exists mark: nat :: EndMark(v, mark) && Linked(esp, v, cluster, mark)
  }

  predicate Usable(v: Volume, cluster: nat)
    requires v.bps > 0 && v.spc > 0
  {
    2 <= cluster < Clusters(v) + 2
  }

  /** An allocation chain: distinct clusters of the volume, each linked to the next, the last one to an end mark. */
  ghost predicate ChainWritten(esp: seq<byte>, v: Volume, cs: seq<nat>)
    requires v.bps > 0 && v.spc > 0
  {
    && cs != [] && (forall i :: 0 <= i < |cs| ==> Usable(v, cs[i]))
    && (forall i, j :: 0 <= i < j < |cs| ==> cs[i] != cs[j])
    && (|cs| - 1) * ClusterBytes(v) < 0x10_0000
    && (forall i :: 0 <= i < |cs| - 1 ==> Linked(esp, v, cs[i], cs[i + 1]))
    && Ends(esp, v, cs[|cs| - 1])
  }

  lemma LinksRead(esp: seq<byte>, v: Volume, fat: nat, cluster: nat, value: nat)
    requires v.bps > 0 && v.spc > 0 && fat + (cluster + 1) * EntryBytes(v) <= |esp|
    ensures FatVolume.FatValue(esp, GeometryOf(v), fat, cluster) == value <==>
            Links(esp, fat + cluster * EntryBytes(v), v.wide, value)
  {
    hide GeometryOf, Links, Le16, Le32;
    WidthIs(v);
    var at := fat + cluster * EntryBytes(v);
    if v.wide { WideLinksRead(esp, at, value); } else { NarrowLinksRead(esp, at, value); }
  }

  lemma NarrowLinksRead(esp: seq<byte>, at: nat, value: nat)
    requires at + 2 <= |esp|
    ensures Le16(esp, at) == value <==> Links(esp, at, false, value)
  {
    hide Put16, Le16;
    if value < 0x1_0000 { Field16(esp, at, value); }
  }

  lemma WideLinksRead(esp: seq<byte>, at: nat, value: nat)
    requires at + 4 <= |esp|
    ensures Le32(esp, at) % 0x1000_0000 == value <==> Links(esp, at, true, value)
  {
    hide Put32, Le32;
    var raw := Le32(esp, at);
    if raw % 0x1000_0000 == value {
      Field32(esp, at, raw);
      var top := raw / 0x1000_0000;
      assert raw == value + top * 0x1000_0000 && top < 16;
    } else if value < 0x1000_0000 {
      forall top: nat | top < 16
        ensures esp[at..at + 4] != Put32(value + top * 0x1000_0000)
      {
        Field32(esp, at, value + top * 0x1000_0000);
        DivisionUnique(value + top * 0x1000_0000, 0x1000_0000, top, value);
      }
    }
  }

  lemma WidthIs(v: Volume)
    requires v.bps > 0 && v.spc > 0
    ensures FatVolume.Width(GeometryOf(v)) == EntryBytes(v) && GeometryOf(v).bits == (if v.wide then 32 else 16)
    ensures GeometryOf(v).fatOffsets == FatStarts(v) && GeometryOf(v).clusters == Clusters(v) && GeometryOf(v).clusterSize == ClusterBytes(v)
    ensures GeometryOf(v).dataOffset == DataStart(v)
  {
  }

  lemma UsableInData(v: Volume, cluster: nat)
    requires v.bps > 0 && v.spc > 0
    ensures FatVolume.InData(GeometryOf(v), cluster) <==> Usable(v, cluster)
  {
  }

  /** The successor that the walk reads is the one all copies link to. */
  lemma LinkedReads(esp: seq<byte>, v: Volume, sector: nat, cluster: nat, value: nat)
    requires v.bps > 0 && v.spc > 0 && FatVolume.Sound(GeometryOf(v), |esp|, sector) && Usable(v, cluster)
    ensures FatVolume.NextCluster(esp, GeometryOf(v), sector, cluster) == Ok(value) <==> Linked(esp, v, cluster, value)
  {
    hide GeometryOf, FatVolume.FatValue, Links, FatStarts, FatVolume.Sound, Clusters, FatVolume.InData, Usable, EntryBytes;
    var g := GeometryOf(v);
    WidthIs(v);
    UsableInData(v, cluster);
    CopiesInUse(v);
    forall i | 0 <= i < |g.fatOffsets|
      ensures g.fatOffsets[i] + (cluster + 1) * EntryBytes(v) <= |esp|
      ensures FatVolume.FatValue(esp, g, g.fatOffsets[i], cluster) == value <==>
              Links(esp, FatStarts(v)[i] + cluster * EntryBytes(v), v.wide, value)
    {
      FatVolume.EntryInFat(g, |esp|, sector, i, cluster);
      LinksRead(esp, v, g.fatOffsets[i], cluster, value);
    }
  }

  lemma CopiesInUse(v: Volume)
    ensures 1 <= |FatStarts(v)| <= 2
  {
  }

  /** What is left of a chain behind the clusters already seen. */
  ghost predicate Continues(esp: seq<byte>, v: Volume, cs: seq<nat>, seen: seq<nat>)
    requires v.bps > 0 && v.spc > 0
  {
    && cs != [] && (forall i :: 0 <= i < |cs| ==> Usable(v, cs[i]) && cs[i] !in seen)
    && (forall i, j :: 0 <= i < j < |cs| ==> cs[i] != cs[j])
    && (|seen| + |cs| - 1) * ClusterBytes(v) < 0x10_0000
    && (forall i :: 0 <= i < |cs| - 1 ==> Linked(esp, v, cs[i], cs[i + 1]))
    && Ends(esp, v, cs[|cs| - 1])
  }

  lemma ContinuesOne(esp: seq<byte>, v: Volume, cluster: nat, seen: seq<nat>)
    requires v.bps > 0 && v.spc > 0
    ensures Continues(esp, v, [cluster], seen) <==>
            Usable(v, cluster) && cluster !in seen && |seen| * ClusterBytes(v) < 0x10_0000 && Ends(esp, v, cluster)
  {
    hide Usable, Ends, Linked, ClusterBytes;
  }

  lemma ContinuesMore(esp: seq<byte>, v: Volume, cs: seq<nat>, seen: seq<nat>)
    requires v.bps > 0 && v.spc > 0 && |cs| > 1
    ensures Continues(esp, v, cs, seen) <==>
            && Usable(v, cs[0]) && cs[0] !in seen && |seen| * ClusterBytes(v) < 0x10_0000 && Linked(esp, v, cs[0], cs[1])
            && Continues(esp, v, cs[1..], seen + [cs[0]])
  {
    hide Usable, Ends, Linked, ClusterBytes;
    var rest, longer := cs[1..], seen + [cs[0]];
    assert forall i :: 0 <= i < |rest| ==> rest[i] == cs[i + 1];
    assert |longer| + |rest| - 1 == |seen| + |cs| - 1;
    MoreBytes(|seen|, |cs| - 1, ClusterBytes(v));
    if Continues(esp, v, rest, longer) {
      assert forall i :: 0 < i < |cs| ==> cs[i] == rest[i - 1] && rest[i - 1] !in longer && cs[0] in longer;
      forall i | 0 <= i < |cs| && (Usable(v, cs[0]) && cs[0] !in seen)
        ensures Usable(v, cs[i]) && cs[i] !in seen
      {
        assert forall x :: x in seen ==> x in longer;
      }
      forall i, j | 0 <= i < j < |cs|
        ensures cs[i] != cs[j]
      {
        assert cs[j] == rest[j - 1] && (i > 0 ==> cs[i] == rest[i - 1]);
      }
      forall i | 0 <= i < |cs| - 1 && Linked(esp, v, cs[0], cs[1])
        ensures Linked(esp, v, cs[i], cs[i + 1])
      {
        if i > 0 { assert Linked(esp, v, rest[i - 1], rest[i]); }
      }
    }
    if Continues(esp, v, cs, seen) {
      forall i | 0 <= i < |rest|
        ensures Usable(v, rest[i]) && rest[i] !in longer
      {
        assert Usable(v, cs[i + 1]) && cs[0] != cs[i + 1];
      }
      forall i | 0 <= i < |rest| - 1
        ensures Linked(esp, v, rest[i], rest[i + 1])
      {
        assert Linked(esp, v, cs[i + 1], cs[i + 2]);
      }
    }
  }

  /** A usable cluster's number is never an end mark. */
  lemma UsableIsNoEnd(v: Volume, length: nat, sector: nat, cluster: nat)
    requires Supported(v, length, sector) && Usable(v, cluster)
    ensures !EndMark(v, cluster)
  {
    hide Clusters;
  }

  /** One turn of the walk along a chain. */
  lemma WalkStep(esp: seq<byte>, v: Volume, sector: nat, cluster: nat, seen: seq<nat>)
    requires v.bps > 0 && v.spc > 0 && FatVolume.Sound(GeometryOf(v), |esp|, sector)
    ensures var g := GeometryOf(v);
            FatVolume.Chain(esp, g, sector, cluster, seen)
            == if !Usable(v, cluster) || cluster in seen || |seen| * ClusterBytes(v) >= 0x10_0000 then Err
               else
                 var next := FatVolume.NextCluster(esp, g, sector, cluster);
                 if next.Err? then Err
                 else if EndMark(v, next.value) then Ok([cluster])
                 else if FatVolume.Chain(esp, g, sector, next.value, seen + [cluster]).Err? then Err
                 else Ok([cluster] + FatVolume.Chain(esp, g, sector, next.value, seen + [cluster]).value)
  {
    WidthIs(v);
    ScaleIs(|seen|, ClusterBytes(v));
    FatVolume.SeenBelowLimit(|seen|, ClusterBytes(v));
    hide GeometryOf, Scale, FatVolume.NextCluster, Clusters, ClusterBytes, FatVolume.Sound;
  }

  /** The walk along a chain finds exactly what is written. */
  lemma {:induction false} ChainFrom(esp: seq<byte>, v: Volume, sector: nat, cluster: nat, seen: seq<nat>, cs: seq<nat>)
    requires Supported(v, |esp|, sector) && FatVolume.Sound(GeometryOf(v), |esp|, sector)
    ensures FatVolume.Chain(esp, GeometryOf(v), sector, cluster, seen) == Ok(cs) <==> Continues(esp, v, cs, seen) && cs[0] == cluster
    decreases |cs|
  {
    var g := GeometryOf(v);
    hide GeometryOf, FatVolume.Chain, FatVolume.NextCluster, Supported, FatVolume.Sound, Continues, Linked, EndMark, Usable;
    WalkStep(esp, v, sector, cluster, seen);
    if cs == [] {
      NothingContinues(esp, v, seen);
    } else if cs[0] == cluster && Usable(v, cluster) && cluster !in seen && |seen| * ClusterBytes(v) < 0x10_0000 {
      var next := FatVolume.NextCluster(esp, g, sector, cluster);
      if |cs| == 1 {
        assert cs == [cluster];
        ContinuesOne(esp, v, cluster, seen);
        EndsReads(esp, v, sector, cluster);
        if next.Ok? && !EndMark(v, next.value) { NeverEmpty(esp, v, sector, next.value, seen + [cluster]); }
      } else {
        ContinuesMore(esp, v, cs, seen);
        LinkedReads(esp, v, sector, cluster, cs[1]);
        ChainFrom(esp, v, sector, cs[1], seen + [cluster], cs[1..]);
        assert [cluster] + cs[1..] == cs;
        if Continues(esp, v, cs[1..], seen + [cluster]) { SecondUsable(esp, v, |esp|, sector, cs, seen); }
        if next.Ok? && !EndMark(v, next.value) { NextIsSecond(esp, v, sector, next.value, seen + [cluster], cs); }
      }
    } else {
      Unwalked(esp, v, cs, seen);
    }
  }

  lemma NothingContinues(esp: seq<byte>, v: Volume, seen: seq<nat>)
    requires v.bps > 0 && v.spc > 0
    ensures !Continues(esp, v, [], seen)
  {
  }

  lemma Unwalked(esp: seq<byte>, v: Volume, cs: seq<nat>, seen: seq<nat>)
    requires v.bps > 0 && v.spc > 0 && cs != []
    ensures Continues(esp, v, cs, seen) ==> Usable(v, cs[0]) && cs[0] !in seen && |seen| * ClusterBytes(v) < 0x10_0000
  {
    hide Usable, Linked, Ends, ClusterBytes;
    MoreBytes(|seen|, |cs| - 1, ClusterBytes(v));
  }

  lemma MoreBytes(m: nat, n: nat, unit: nat)
    ensures (m + n) * unit >= m * unit
  {
  }

  lemma NeverEmpty(esp: seq<byte>, v: Volume, sector: nat, cluster: nat, seen: seq<nat>)
    requires v.bps > 0 && v.spc > 0 && FatVolume.Sound(GeometryOf(v), |esp|, sector)
    ensures var r := FatVolume.Chain(esp, GeometryOf(v), sector, cluster, seen); r.Ok? ==> r.value != [] && r.value[0] == cluster
  {
    hide GeometryOf, FatVolume.Chain, FatVolume.Sound;
    if FatVolume.Chain(esp, GeometryOf(v), sector, cluster, seen).Ok? {
      FatVolume.ChainDistinct(esp, GeometryOf(v), sector, cluster, seen);
    }
  }

  lemma NextIsSecond(esp: seq<byte>, v: Volume, sector: nat, next: nat, seen: seq<nat>, cs: seq<nat>)
    requires v.bps > 0 && v.spc > 0 && FatVolume.Sound(GeometryOf(v), |esp|, sector) && |cs| > 1
    ensures FatVolume.Chain(esp, GeometryOf(v), sector, next, seen) == Ok(cs[1..]) ==> next == cs[1]
  {
    NeverEmpty(esp, v, sector, next, seen);
  }

  lemma SecondUsable(esp: seq<byte>, v: Volume, length: nat, sector: nat, cs: seq<nat>, seen: seq<nat>)
    requires Supported(v, length, sector) && |cs| > 1 && Continues(esp, v, cs[1..], seen + [cs[0]])
    ensures !EndMark(v, cs[1])
  {
    assert Usable(v, cs[1..][0]);
    UsableIsNoEnd(v, length, sector, cs[1]);
  }

  lemma EndsReads(esp: seq<byte>, v: Volume, sector: nat, cluster: nat)
    requires v.bps > 0 && v.spc > 0 && FatVolume.Sound(GeometryOf(v), |esp|, sector) && Usable(v, cluster)
    ensures var next := FatVolume.NextCluster(esp, GeometryOf(v), sector, cluster);
            Ends(esp, v, cluster) <==> next.Ok? && EndMark(v, next.value)
  {
    UsableInData(v, cluster);
    hide GeometryOf, FatVolume.NextCluster, FatVolume.Sound, Linked, EndMark, Usable, FatVolume.InData;
    var next := FatVolume.NextCluster(esp, GeometryOf(v), sector, cluster);
    if next.Ok? { LinkedReads(esp, v, sector, cluster, next.value); }
    forall mark: nat | Linked(esp, v, cluster, mark)
      ensures next == Ok(mark)
    {
      LinkedReads(esp, v, sector, cluster, mark);
    }
  }

  /** Along a chain from its first cluster. */
  lemma ChainExact(esp: seq<byte>, v: Volume, sector: nat, cluster: nat, cs: seq<nat>)
    requires Supported(v, |esp|, sector) && FatVolume.Sound(GeometryOf(v), |esp|, sector)
    ensures FatVolume.Chain(esp, GeometryOf(v), sector, cluster, []) == Ok(cs) <==> ChainWritten(esp, v, cs) && cs[0] == cluster
  {
    hide GeometryOf, FatVolume.Chain, Supported, FatVolume.Sound, Linked, Ends, Usable, ClusterBytes;
    ChainFrom(esp, v, sector, cluster, [], cs);
  }

  // ---------------------------------------------------------------- directory entries

  /** A directory entry: name, attributes, the two halves of the first cluster, and the size; `other` fills the rest. */
  function WriteEntry(name: seq<byte>, attributes: byte, low: nat, high: nat, size: nat, other: seq<byte>): (e: seq<byte>)
    requires |name| == 11 && |other| == 32 && low < 0x1_0000 && high < 0x1_0000 && size < 0x1_0000_0000
    ensures |e| == 32
  {
    name + [attributes] + other[12..20] + Put16(high) + other[22..26] + Put16(low) + Put32(size)
  }

  /** An entry that names a file, or a directory, of this name, first cluster and size. FAT16 ignores the high half. */
  ghost predicate Names(e: seq<byte>, wide: bool, name: seq<byte>, directory: bool, cluster: nat, size: nat)
    requires |name| == 11
  {
    exists attributes: byte, low: nat, high: nat, other: seq<byte> ::
      && |other| == 32 && low < 0x1_0000 && high < 0x1_0000 && size < 0x1_0000_0000
      && e == WriteEntry(name, attributes, low, high, size, other)
      && attributes / 8 % 2 == 0 && (attributes / 16 % 2 == 1 <==> directory)
      && cluster == low + if wide then high * 0x1_0000 else 0
  }

  /** A deleted entry, a volume label or part of a long name, or another name. */
  predicate Other(e: seq<byte>, name: seq<byte>)
    requires |e| == 32
  {
    e[0] == 0xe5 || e[11] / 8 % 2 == 1 || e[..11] != name
  }

  lemma EntryReads(g: FatVolume.Geometry, wide: bool, e: seq<byte>, name: seq<byte>, directory: bool, cluster: nat, size: nat)
    requires |e| == 32 && |name| == 11 && name[0] != 0xe5 && g.bits == (if wide then 32 else 16)
    ensures FatVolume.Skipped(e, name) <==> Other(e, name)
    ensures Names(e, wide, name, directory, cluster, size) <==>
            !Other(e, name) && FatVolume.Flag(e[11], 0x10) == directory && FatVolume.Target(g, e) == FatVolume.Found(cluster, size)
  {
    hide Le16, Le32, Names, WriteEntry;
    if Names(e, wide, name, directory, cluster, size) { NamesReads(e, wide, name, directory, cluster, size); }
    if !Other(e, name) && FatVolume.Flag(e[11], 0x10) == directory { ReadsNames(e, wide, name, directory); }
  }

  lemma NamesReads(e: seq<byte>, wide: bool, name: seq<byte>, directory: bool, cluster: nat, size: nat)
    requires |name| == 11 && name[0] != 0xe5 && Names(e, wide, name, directory, cluster, size)
    ensures |e| == 32 && !Other(e, name) && (e[11] / 16 % 2 == 1 <==> directory)
    ensures cluster == Le16(e, 26) + (if wide then Le16(e, 20) * 0x1_0000 else 0) && size == Le32(e, 28)
  {
    hide Put16, Put32, Le16, Le32, WriteEntry;
    var attributes: byte, low: nat, high: nat, other: seq<byte> :|
      && |other| == 32 && low < 0x1_0000 && high < 0x1_0000 && size < 0x1_0000_0000
      && e == WriteEntry(name, attributes, low, high, size, other)
      && attributes / 8 % 2 == 0 && (attributes / 16 % 2 == 1 <==> directory)
      && cluster == low + if wide then high * 0x1_0000 else 0;
    EntryFields(name, attributes, low, high, size, other);
    Field16(e, 20, high);
    Field16(e, 26, low);
    Field32(e, 28, size);
  }

  lemma ReadsNames(e: seq<byte>, wide: bool, name: seq<byte>, directory: bool)
    requires |e| == 32 && |name| == 11 && !Other(e, name) && (e[11] / 16 % 2 == 1 <==> directory)
    ensures Names(e, wide, name, directory, Le16(e, 26) + (if wide then Le16(e, 20) * 0x1_0000 else 0), Le32(e, 28))
  {
    hide Le16, Le32, WriteEntry;
    EntryRewrites(e);
  }

  lemma EntryFields(name: seq<byte>, attributes: byte, low: nat, high: nat, size: nat, other: seq<byte>)
    requires |name| == 11 && |other| == 32 && low < 0x1_0000 && high < 0x1_0000 && size < 0x1_0000_0000
    ensures var e := WriteEntry(name, attributes, low, high, size, other);
            e[..11] == name && e[0] == name[0] && e[11] == attributes
            && e[20..22] == Put16(high) && e[26..28] == Put16(low) && e[28..32] == Put32(size)
  {
    hide Put16, Put32;
  }

  lemma EntryRewrites(e: seq<byte>)
    requires |e| == 32
    ensures e == WriteEntry(e[..11], e[11], Le16(e, 26), Le16(e, 20), Le32(e, 28), e)
  {
    hide Put16, Put32, Le16, Le32;
    Field16(e, 20, Le16(e, 20));
    Field16(e, 26, Le16(e, 26));
    Field32(e, 28, Le32(e, 28));
    assert e == e[..11] + [e[11]] + e[12..20] + e[20..22] + e[22..26] + e[26..28] + e[28..32];
  }

  // ---------------------------------------------------------------- directories

  function EntryAt(d: seq<byte>, k: nat): (e: seq<byte>)
    requires 32 * (k + 1) <= |d|
    ensures |e| == 32
  {
    d[32 * k..32 * k + 32]
  }

  /** Entry `k` comes before the end mark. */
  predicate Live(d: seq<byte>, k: nat) {
    32 * (k + 1) <= |d| && forall i :: 0 <= i <= k ==> d[32 * i] != 0
  }

  /** No entry before the end mark has this name. */
  predicate NoneListed(d: seq<byte>, name: seq<byte>) {
    forall i: nat :: i < |d| / 32 && Live(d, i) ==> Other(EntryAt(d, i), name)
  }

  /** Entry `k`, before the end mark, names the file or directory, and no other entry before the mark has its name. */
  ghost predicate ListedAt(d: seq<byte>, k: nat, wide: bool, name: seq<byte>, directory: bool, cluster: nat, size: nat)
    requires |name| == 11
  {
    && Live(d, k) && Names(EntryAt(d, k), wide, name, directory, cluster, size)
    && forall i: nat :: i < |d| / 32 && i != k && Live(d, i) ==> Other(EntryAt(d, i), name)
  }

  ghost predicate Lists(d: seq<byte>, wide: bool, name: seq<byte>, directory: bool, cluster: nat, size: nat)
    requires |name| == 11
  {
    exists k: nat :: ListedAt(d, k, wide, name, directory, cluster, size)
  }

  /** Behind a first entry that is no end mark, the directory goes on. */
  lemma Shifted(d: seq<byte>, i: nat)
    requires |d| >= 32 && d[0] != 0
    ensures Live(d, i + 1) <==> Live(d[32..], i)
    ensures Live(d, i + 1) ==> EntryAt(d, i + 1) == EntryAt(d[32..], i)
  {
    var rest := d[32..];
    if Live(rest, i) {
      forall j | 0 <= j <= i + 1
        ensures d[32 * j] != 0
      {
        if j > 0 { assert rest[32 * (j - 1)] == d[32 * j]; }
      }
    }
    if Live(d, i + 1) {
      forall j | 0 <= j <= i
        ensures rest[32 * j] != 0
      {
        assert rest[32 * j] == d[32 * (j + 1)];
      }
      SubSlice(d, 32, |d|, 32 * i, 32 * i + 32);
    }
  }

  lemma NoneStep(d: seq<byte>, name: seq<byte>)
    requires |d| >= 32 && d[0] != 0
    ensures NoneListed(d, name) <==> Other(d[..32], name) && NoneListed(d[32..], name)
  {
    hide Other, Live, EntryAt;
    FirstLive(d);
    var rest := d[32..];
    if NoneListed(d, name) {
      forall i: nat | i < |rest| / 32 && Live(rest, i)
        ensures Other(EntryAt(rest, i), name)
      {
        Shifted(d, i);
        assert Live(d, i + 1);
      }
      assert Live(d, 0);
    }
    if Other(d[..32], name) && NoneListed(rest, name) {
      forall i: nat | i < |d| / 32 && Live(d, i)
        ensures Other(EntryAt(d, i), name)
      {
        if i > 0 { Shifted(d, i - 1); }
      }
    }
  }

  lemma FirstLive(d: seq<byte>)
    requires |d| >= 32
    ensures (Live(d, 0) <==> d[0] != 0) && EntryAt(d, 0) == d[..32]
  {
  }

  lemma NothingLive(d: seq<byte>)
    requires |d| < 32 || d[0] == 0
    ensures forall i: nat :: !Live(d, i)
  {
    forall i: nat
      ensures !Live(d, i)
    {
      if |d| >= 32 { assert d[32 * 0] == 0; }
    }
  }

  /** An entry of another name in front changes nothing. */
  lemma ListsBehindOther(d: seq<byte>, wide: bool, name: seq<byte>, directory: bool, cluster: nat, size: nat)
    requires |d| >= 32 && d[0] != 0 && Other(d[..32], name) && |name| == 11
    requires !Names(d[..32], wide, name, directory, cluster, size)
    ensures Lists(d, wide, name, directory, cluster, size) <==> Lists(d[32..], wide, name, directory, cluster, size)
  {
    hide Other, Names, Live, EntryAt;
    FirstLive(d);
    var rest := d[32..];
    if Lists(d, wide, name, directory, cluster, size) {
      var k: nat :| ListedAt(d, k, wide, name, directory, cluster, size);
      Shifted(d, k - 1);
      forall i: nat | i < |rest| / 32 && i != k - 1 && Live(rest, i)
        ensures Other(EntryAt(rest, i), name)
      {
        Shifted(d, i);
        assert Live(d, i + 1) && i + 1 != k;
      }
      assert ListedAt(rest, k - 1, wide, name, directory, cluster, size);
    }
    if Lists(rest, wide, name, directory, cluster, size) {
      var k: nat :| ListedAt(rest, k, wide, name, directory, cluster, size);
      Shifted(d, k);
      forall i: nat | i < |d| / 32 && i != k + 1 && Live(d, i)
        ensures Other(EntryAt(d, i), name)
      {
        if i > 0 { Shifted(d, i - 1); }
      }
      assert ListedAt(d, k + 1, wide, name, directory, cluster, size);
    }
  }

  /** An entry of the name in front is the one listed, if nothing of the name follows. */
  lemma ListsFirst(d: seq<byte>, wide: bool, name: seq<byte>, directory: bool, cluster: nat, size: nat)
    requires |d| >= 32 && d[0] != 0 && !Other(d[..32], name) && |name| == 11
    ensures Lists(d, wide, name, directory, cluster, size) <==>
            Names(d[..32], wide, name, directory, cluster, size) && NoneListed(d[32..], name)
  {
    hide Other, Names, Live, EntryAt;
    FirstLive(d);
    var rest := d[32..];
    if Lists(d, wide, name, directory, cluster, size) {
      var k: nat :| ListedAt(d, k, wide, name, directory, cluster, size);
      assert k == 0;
      forall i: nat | i < |rest| / 32 && Live(rest, i)
        ensures Other(EntryAt(rest, i), name)
      {
        Shifted(d, i);
        assert Live(d, i + 1);
      }
    }
    if Names(d[..32], wide, name, directory, cluster, size) && NoneListed(rest, name) {
      forall i: nat | i < |d| / 32 && i != 0 && Live(d, i)
        ensures Other(EntryAt(d, i), name)
      {
        Shifted(d, i - 1);
      }
      assert ListedAt(d, 0, wide, name, directory, cluster, size);
    }
  }

  lemma {:induction false} ScanNone(g: FatVolume.Geometry, d: seq<byte>, name: seq<byte>, directory: bool)
    ensures FatVolume.Scan(g, d, name, directory) == Ok([]) <==> NoneListed(d, name)
  {
    hide NoneListed, Live;
    if |d| < 32 || d[0] == 0 {
      NothingListed(d, name);
    } else {
      NoneStep(d, name);
      ScanNone(g, d[32..], name, directory);
      SkippedIsOther(d[..32], name);
    }
  }

  lemma NothingListed(d: seq<byte>, name: seq<byte>)
    requires |d| < 32 || d[0] == 0
    ensures NoneListed(d, name)
  {
    NothingLive(d);
  }

  lemma SkippedIsOther(e: seq<byte>, name: seq<byte>)
    requires |e| == 32
    ensures FatVolume.Skipped(e, name) <==> Other(e, name)
  {
  }

  /** The scan of a directory ends with the one entry that is listed. */
  lemma {:induction false} ScanExact(g: FatVolume.Geometry, wide: bool, d: seq<byte>, name: seq<byte>, directory: bool, cluster: nat, size: nat)
    requires |name| == 11 && name[0] != 0xe5 && g.bits == (if wide then 32 else 16)
    ensures FatVolume.Scan(g, d, name, directory) == Ok([FatVolume.Found(cluster, size)]) <==>
            Lists(d, wide, name, directory, cluster, size)
  {
    hide Lists, NoneListed, Live, Names, Other, FatVolume.Skipped, FatVolume.Target, FatVolume.Flag;
    if |d| < 32 || d[0] == 0 {
      NeverListed(d, wide, name, directory, cluster, size);
    } else {
      var e, rest := d[..32], d[32..];
      EntryReads(g, wide, e, name, directory, cluster, size);
      if Other(e, name) {
        ListsBehindOther(d, wide, name, directory, cluster, size);
        ScanExact(g, wide, rest, name, directory, cluster, size);
      } else {
        ListsFirst(d, wide, name, directory, cluster, size);
        ScanNone(g, rest, name, directory);
        OneFound(FatVolume.Target(g, e), FatVolume.Scan(g, rest, name, directory), FatVolume.Found(cluster, size));
      }
    }
  }

  lemma OneFound<T>(x: T, rest: Result<seq<T>>, y: T)
    ensures rest.Ok? ==> ([x] + rest.value == [y] <==> x == y && rest.value == [])
  {
    if rest.Ok? && [x] + rest.value == [y] {
      assert |[x] + rest.value| == 1 && ([x] + rest.value)[0] == x;
    }
  }

  lemma NeverListed(d: seq<byte>, wide: bool, name: seq<byte>, directory: bool, cluster: nat, size: nat)
    requires (|d| < 32 || d[0] == 0) && |name| == 11
    ensures !Lists(d, wide, name, directory, cluster, size)
  {
    NothingLive(d);
  }
}
