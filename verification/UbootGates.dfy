/** What a NOR and a recipe must show before XBL is rebuilt, spelled out on the bytes. */
module UbootGates {
  import opened Common
  import opened Bytes
  import opened UbootRecipe
  import opened UbootPrepare

  // ---------------------------------------------------------------- the recipe

  /** The fixed terms of an accepted recipe. */
  lemma RecipeTerms(m: Manifest)
    requires Accepted(m)
    ensures m.version == 1 && m.product == "asius-v0" && m.norSize == 33_554_432 && 1 <= |m.variants| <= 16 && Hexadecimal(m.core)
    ensures forall i :: 0 <= i < |m.variants| ==>
      var v := m.variants[i];
      && v.size == 6_291_456 && v.offset % 4096 == 0 && 0 <= v.offset && v.offset + v.size <= 33_554_432
      && 0 < v.template.size <= v.size && v.template.size % 4096 == 0 && "https://" <= v.template.url
      && Hexadecimal(v.template.sha) && Hexadecimal(v.sha) && |v.inputs| == 11 && |v.decode| <= 1 && 1 <= |v.copies| <= 63
  {
    hide ReadsOk, DecodeOk, CopiesOk, Sizes, Decoded, PARTITIONS;
    HexadecimalExactly(m.core);
    forall i | 0 <= i < |m.variants|
      ensures var v := m.variants[i];
        && v.size == 6_291_456 && v.offset % 4096 == 0 && 0 <= v.offset && v.offset + v.size <= 33_554_432
        && 0 < v.template.size <= v.size && v.template.size % 4096 == 0 && "https://" <= v.template.url
        && Hexadecimal(v.template.sha) && Hexadecimal(v.sha) && |v.inputs| == 11 && |v.decode| <= 1 && 1 <= |v.copies| <= 63
    {
      var v := m.variants[i];
      assert VariantOk(v);
      HexadecimalExactly(v.template.sha);
      HexadecimalExactly(v.sha);
      VariantCounts(v);
      hide Hash, Hexadecimal;
    }
  }

  lemma VariantCounts(v: Variant)
    requires VariantOk(v)
    ensures |v.inputs| == 11 && |v.decode| <= 1 && |PARTITIONS| == 11
  {
    ElevenNames();
    hide Sizes, Hash, CopiesOk, PARTITIONS;
  }

  lemma ElevenNames()
    ensures |PARTITIONS| == 11
  {
  }

  /** Sixty-four characters, each one of the sixteen. */
  predicate Hexadecimal(s: string) {
    |s| == 64 && forall i :: 0 <= i < |s| ==> s[i] in "0123456789abcdef"
  }

  lemma HexadecimalExactly(s: string)
    ensures Hash(s) <==> Hexadecimal(s)
  {
    if |s| == 64 {
      forall i | 0 <= i < 64
        ensures s[i] in "0123456789abcdef" <==> '0' <= s[i] <= '9' || 'a' <= s[i] <= 'f'
      {
        HexDigit(s[i]);
      }
    }
  }

  lemma HexDigit(c: char)
    ensures c in "0123456789abcdef" <==> '0' <= c <= '9' || 'a' <= c <= 'f'
  {
    var digits := "0123456789abcdef";
    assert digits[0] == '0' && digits[1] == '1' && digits[2] == '2' && digits[3] == '3' && digits[4] == '4' && digits[5] == '5';
    assert digits[6] == '6' && digits[7] == '7' && digits[8] == '8' && digits[9] == '9' && digits[10] == 'a' && digits[11] == 'b';
    assert digits[12] == 'c' && digits[13] == 'd' && digits[14] == 'e' && digits[15] == 'f';
  }

  // ---------------------------------------------------------------- the partition table

  /** A header in sector 1 that passes: signature, table in sector 2, entries of 128 bytes, and its checksum with that field zeroed. */
  predicate HeaderShown(w: World, h: seq<byte>)
    requires |h| == 4096
  {
    && h[..8] == [69, 70, 73, 32, 80, 65, 82, 84] && h[72..80] == Put64(2) && h[84..88] == Put32(128)
    && 92 <= Le32(h, 12) <= 4096 && 1 <= Le32(h, 80) <= 128
    && w.crc((h[..16] + [0, 0, 0, 0] + h[20..])[..Le32(h, 12)]) == Le32(h, 16)
  }

  lemma HeaderExactly(w: World, h: seq<byte>)
    requires |h| == 4096
    ensures HeaderOk(w, h) <==> HeaderShown(w, h)
  {
    hide Le32, Le64, Put32, Put64;
    Field64(h, 72, 2);
    Field32(h, 84, 128);
    assert EdlDisk.Unsigned(h) == h[..16] + [0, 0, 0, 0] + h[20..];
  }

  /** The table of a whole NOR with such a header. */
  function TableOf(nor: seq<byte>): (table: seq<byte>)
    requires |nor| == 33_554_432
  {
    var count := Le32(nor[4096..8192], 80);
    nor[8192..8192 + if count <= 128 then count * 128 else 0]
  }

  /** A used entry with a name and a place clear of both tables. */
  predicate Fine(w: World, e: seq<byte>)
    requires |e| == 128
  {
    e[..16] == Zeros(16) || (w.name(e[56..128]).Ok? && 6 <= Le64(e, 32) <= Le64(e, 40) < 8187)
  }

  /** Of the first `n` entries all are fine, and no two in use have one name. */
  ghost predicate AllFine(w: World, table: seq<byte>, n: nat)
    requires n * 128 <= |table|
  {
    && (forall k: nat :: k < n ==> Fine(w, EntryOf(table, k)))
    && forall j: nat, k: nat :: j < k < n && Uses(EntryOf(table, j)) && Uses(EntryOf(table, k)) ==>
         w.name(EntryOf(table, j)[56..128]) != w.name(EntryOf(table, k)[56..128])
  }

  predicate Uses(e: seq<byte>)
    requires |e| == 128
  {
    e[..16] != Zeros(16)
  }

  /** A table is read exactly from a whole NOR with a valid header, the checksum of the entries, and fine entries. */
  lemma TableExactly(w: World, nor: seq<byte>)
    ensures Partitions(w, nor).Ok? <==>
      && |nor| == 33_554_432 && HeaderShown(w, nor[4096..8192])
      && w.crc(TableOf(nor)) == Le32(nor[4096..8192], 88) && |TableOf(nor)| % 128 == 0
      && AllFine(w, TableOf(nor), |TableOf(nor)| / 128)
  {
    hide Entries, Le32, AllFine, HeaderOk, HeaderShown;
    if |nor| == 33_554_432 {
      var h := nor[4096..8192];
      HeaderExactly(w, h);
      if HeaderShown(w, h) { CountShown(w, h); }
      DivisionUnique(Le32(h, 80) * 128, 128, Le32(h, 80), 0);
      if Le32(h, 80) <= 128 { EntriesExactly(w, TableOf(nor), Le32(h, 80)); }
    }
  }

  lemma CountShown(w: World, h: seq<byte>)
    requires |h| == 4096 && HeaderShown(w, h)
    ensures 1 <= Le32(h, 80) <= 128
  {
  }

  /** The names of the partitions read so far are those of the entries in use. */
  lemma NamesSoFar(w: World, table: seq<byte>, n: nat, name: string)
    requires n * 128 <= |table| && Entries(w, table, n).Ok?
    ensures name in Entries(w, table, n).value <==>
            exists k: nat :: k < n && Uses(EntryOf(table, k)) && w.name(EntryOf(table, k)[56..128]) == Ok(name)
  {
    hide Entries, EntryOf, Le64;
    PartitionsGiven(w, table, n);
    if k: nat :| k < n && Uses(EntryOf(table, k)) && w.name(EntryOf(table, k)[56..128]) == Ok(name) {
      EntriesGive(w, table, n, k);
    }
  }

  lemma {:induction false} EntriesExactly(w: World, table: seq<byte>, n: nat)
    requires n * 128 <= |table|
    ensures Entries(w, table, n).Ok? <==> AllFine(w, table, n)
  {
    hide AllFine, AddEntry;
    if n == 0 {
      NoEntries(w, table);
    } else {
      EntriesExactly(w, table, n - 1);
      FineStep(w, table, n);
      if Entries(w, table, n - 1).Ok? {
        AddsExactly(w, table, n);
      }
    }
  }

  lemma NoEntries(w: World, table: seq<byte>)
    ensures AllFine(w, table, 0)
  {
  }

  /** Whether an entry in use repeats the name of an earlier one. */
  ghost predicate Repeats(w: World, table: seq<byte>, n: nat)
    requires 0 < n && n * 128 <= |table|
  {
    exists k: nat :: k < n - 1 && Uses(EntryOf(table, k)) && Uses(EntryOf(table, n - 1))
                     && w.name(EntryOf(table, k)[56..128]) == w.name(EntryOf(table, n - 1)[56..128])
  }

  lemma FineStep(w: World, table: seq<byte>, n: nat)
    requires 0 < n && n * 128 <= |table|
    ensures AllFine(w, table, n) <==> AllFine(w, table, n - 1) && Fine(w, EntryOf(table, n - 1)) && !Repeats(w, table, n)
  {
    hide Fine, EntryOf, Uses;
  }

  lemma AddsExactly(w: World, table: seq<byte>, n: nat)
    requires 0 < n && n * 128 <= |table| && Entries(w, table, n - 1).Ok? && AllFine(w, table, n - 1)
    ensures AddEntry(w, Entries(w, table, n - 1).value, EntryOf(table, n - 1)).Ok?
       <==> Fine(w, EntryOf(table, n - 1)) && !Repeats(w, table, n)
  {
    hide Le64, Entries;
    var e := EntryOf(table, n - 1);
    AllZeroIs(e[..16]);
    if w.name(e[56..128]).Ok? {
      NamesSoFar(w, table, n - 1, w.name(e[56..128]).value);
    }
    hide EntryOf;
  }

  /** Entry `e` gives the partition `p` its name, and its first and last sector. */
  predicate GivesPart(w: World, e: seq<byte>, name: string, p: EdlDisk.Part)
    requires |e| == 128
  {
    && e[..16] != Zeros(16) && w.name(e[56..128]) == Ok(name)
    && p.start == Le64(e, 32) * 4096 && p.start + p.length == (Le64(e, 40) + 1) * 4096
    && 6 <= Le64(e, 32) <= Le64(e, 40) < 8187
  }

  function EntryOf(table: seq<byte>, k: nat): (e: seq<byte>)
    requires (k + 1) * 128 <= |table|
    ensures |e| == 128
  {
    table[k * 128..k * 128 + 128]
  }

  /** One of the first `n` entries gives this partition. */
  ghost predicate Given(w: World, table: seq<byte>, n: nat, name: string, p: EdlDisk.Part)
    requires n * 128 <= |table|
  {
    exists k: nat :: k < n && GivesPart(w, EntryOf(table, k), name, p)
  }

  /** Every partition is given by an entry. */
  lemma {:induction false} PartitionsGiven(w: World, table: seq<byte>, n: nat)
    requires n * 128 <= |table| && Entries(w, table, n).Ok?
    ensures forall name :: name in Entries(w, table, n).value ==> Given(w, table, n, name, Entries(w, table, n).value[name])
  {
    hide GivesPart, AddEntry, EntryOf;
    if n > 0 {
      PartitionsGiven(w, table, n - 1);
      LastAdded(w, table, n);
      hide Entries;
      var front, parts := Entries(w, table, n - 1).value, Entries(w, table, n).value;
      forall name | name in parts
        ensures Given(w, table, n, name, parts[name])
      {
        if name in front {
          var k: nat :| k < n - 1 && GivesPart(w, EntryOf(table, k), name, front[name]);
        } else {
          assert GivesPart(w, EntryOf(table, n - 1), name, parts[name]);
        }
      }
    }
  }

  /** Every entry with a type gives a partition. */
  lemma {:induction false} EntriesGive(w: World, table: seq<byte>, n: nat, k: nat)
    requires n * 128 <= |table| && Entries(w, table, n).Ok? && k < n && EntryOf(table, k)[..16] != Zeros(16)
    ensures exists name :: name in Entries(w, table, n).value && GivesPart(w, EntryOf(table, k), name, Entries(w, table, n).value[name])
  {
    hide GivesPart, AddEntry, EntryOf;
    LastAdded(w, table, n);
    if k < n - 1 {
      EntriesGive(w, table, n - 1, k);
      hide Entries;
      var name :| name in Entries(w, table, n - 1).value && GivesPart(w, EntryOf(table, k), name, Entries(w, table, n - 1).value[name]);
      assert name in Entries(w, table, n).value;
    }
  }

  lemma LastAdded(w: World, table: seq<byte>, n: nat)
    requires 0 < n && n * 128 <= |table| && Entries(w, table, n).Ok?
    ensures Entries(w, table, n - 1).Ok?
    ensures var front, parts, e := Entries(w, table, n - 1).value, Entries(w, table, n).value, EntryOf(table, n - 1);
            && (forall name :: name in front ==> name in parts && parts[name] == front[name])
            && (forall name :: name in parts && name !in front ==> GivesPart(w, e, name, parts[name]))
            && (e[..16] != Zeros(16) ==> exists name :: name in parts && GivesPart(w, e, name, parts[name]))
  {
    hide GivesPart, AddEntry;
    AddedEntry(w, Entries(w, table, n - 1).value, EntryOf(table, n - 1));
  }

  lemma AddedEntry(w: World, front: Parts, e: seq<byte>)
    requires |e| == 128 && AddEntry(w, front, e).Ok?
    ensures var parts := AddEntry(w, front, e).value;
            && (forall name :: name in front ==> name in parts && parts[name] == front[name])
            && (forall name :: name in parts && name !in front ==> GivesPart(w, e, name, parts[name]))
            && (e[..16] != Zeros(16) ==> exists name :: name in parts && GivesPart(w, e, name, parts[name]))
  {
    hide Le64;
    AllZeroIs(e[..16]);
    if e[..16] != Zeros(16) {
      var name := w.name(e[56..128]).value;
      assert name in AddEntry(w, front, e).value;
    }
  }

  lemma AllZeroIs(s: seq<byte>)
    ensures AllZero(s) <==> s == Zeros(|s|)
  {
  }

  // ---------------------------------------------------------------- the boot chain

  /** The bytes that an input names, as the NOR holds them. */
  predicate HasHash(w: World, nor: seq<byte>, x: Input) {
    0 <= x.offset && 0 < x.size && x.offset + x.size <= |nor| && w.sha(nor[x.offset..x.offset + x.size]) == x.sha
  }

  /** Every input lies at its partition; all but XBL fill it and have their hashes. */
  ghost predicate ChainShown(w: World, nor: seq<byte>, parts: Parts, v: Variant) {
    forall k :: 0 <= k < |v.inputs| ==>
      var x := v.inputs[k];
      && x.name in parts && parts[x.name].start == x.offset
      && if x.name == "XBL" then x.size <= parts[x.name].length else x.size == parts[x.name].length && HasHash(w, nor, x)
  }

  lemma ChainShownExactly(w: World, nor: seq<byte>, parts: Parts, v: Variant)
    requires |nor| == NOR_SIZE && VariantOk(v)
    ensures InputsMatch(w, nor, parts, v.inputs) <==> ChainShown(w, nor, parts, v)
  {
    VariantShape(v);
    hide VariantOk, Slice, PARTITIONS, Hash;
    forall k | 0 <= k < |v.inputs|
      ensures Piece(nor, v.inputs[k]) == nor[v.inputs[k].offset..v.inputs[k].offset + v.inputs[k].size]
    {
      assert InputOk(v.inputs[k]);
      SliceExact(nor, v.inputs[k].offset, v.inputs[k].size);
    }
    assert forall k :: 0 <= k < |v.inputs| ==> InputOk(v.inputs[k]);
  }

  /**
   * Whatever `prepare` returns is for a variant whose boot chain the NOR shows, partition by partition and hash by
   * hash. A changed XBL is built only from an XBL input with its hash, from a template of the recorded size and
   * hash, and has the recorded hash itself; an unchanged one has it already.
   */
  lemma PrepareGate(w: World, nor: seq<byte>, m: Manifest) returns (i: nat)
    requires Prepare(w, nor, m).Ok?
    ensures i < |m.variants| && Partitions(w, nor).Ok? && |nor| == NOR_SIZE
    ensures var p, parts, v := Prepare(w, nor, m).value, Partitions(w, nor).value, m.variants[i];
            && "XBL" in parts && parts["XBL"].start == v.offset == p.offset && parts["XBL"].length == v.size
            && ChainShown(w, nor, parts, v)
            && 0 <= v.offset && 0 < v.template.size && v.offset + v.template.size <= |nor|
            && (!p.changed ==> w.sha(nor[v.offset..v.offset + v.template.size]) == v.sha)
            && (p.changed ==>
                  && (forall k :: 0 <= k < |v.inputs| && v.inputs[k].name == "XBL" ==> HasHash(w, nor, v.inputs[k]))
                  && w.fetch(v.template).Ok? && |w.fetch(v.template).value| == v.template.size
                  && w.sha(w.fetch(v.template).value) == v.template.sha
                  && v.template.size <= |p.xbl| && w.sha(p.xbl[..v.template.size]) == v.sha)
  {
    hide Partitions, Current, Pristine, Assembled, Sources, VariantOk, InputsMatch, Payload, Existing;
    i := PrepareExact(w, nor, m);
    var v := m.variants[i];
    AcceptedVariants(m);
    VariantRange(v);
    ChainShownExactly(w, nor, Partitions(w, nor).value, v);
    CurrentExactly(w, nor, v);
    if Prepare(w, nor, m).value.changed {
      PristineHash(w, nor, v);
    }
    hide ChainShown, HasHash, Prepare;
  }

  lemma CurrentExactly(w: World, nor: seq<byte>, v: Variant)
    requires |nor| == NOR_SIZE && InRange(v.offset, v.size, NOR_SIZE) && v.size == XBL_SIZE && InRange(0, v.template.size, v.size)
    ensures Current(w, nor, v) <==> w.sha(nor[v.offset..v.offset + v.template.size]) == v.sha
  {
    ExistingExact(nor, v);
    SliceExact(Existing(nor, v), 0, v.template.size);
    SubSlice(nor, v.offset, v.offset + XBL_SIZE, 0, v.template.size);
    hide Existing, Slice;
  }

  /** Only the XBL input of the expected hash is built upon. */
  lemma PristineHash(w: World, nor: seq<byte>, v: Variant)
    requires |nor| == NOR_SIZE && VariantOk(v) && Pristine(w, nor, v)
    ensures forall k :: 0 <= k < |v.inputs| && v.inputs[k].name == "XBL" ==> HasHash(w, nor, v.inputs[k])
  {
    VariantShape(v);
    hide VariantOk, PARTITIONS, Hash, Slice, Read, Expected;
    forall k | 0 <= k < |v.inputs| && v.inputs[k].name == "XBL"
      ensures HasHash(w, nor, v.inputs[k])
    {
      assert InputOk(v.inputs[k]);
      SliceExact(nor, v.inputs[k].offset, v.inputs[k].size);
      ReadAt(nor, v.inputs, k);
      ExpectedAt(v.inputs, k);
    }
  }

  lemma {:induction false} ReadAt(nor: seq<byte>, inputs: seq<Input>, k: nat)
    requires Distinct(inputs) && k < |inputs|
    ensures inputs[k].name in Read(nor, inputs) && Read(nor, inputs)[inputs[k].name] == Piece(nor, inputs[k])
  {
    var n := |inputs| - 1;
    if k < n {
      assert inputs[..n][k] == inputs[k] && inputs[k].name != inputs[n].name;
      ReadAt(nor, inputs[..n], k);
    }
  }

  lemma {:induction false} ExpectedAt(inputs: seq<Input>, k: nat)
    requires Distinct(inputs) && k < |inputs| && inputs[k].name == "XBL"
    ensures Expected(inputs) == Some(inputs[k].sha)
  {
    if k > 0 {
      assert inputs[0].name != inputs[k].name && inputs[1..][k - 1] == inputs[k];
      ExpectedAt(inputs[1..], k - 1);
    }
  }

  lemma DecodedInside(nor: seq<byte>, v: Variant)
    requires |nor| == NOR_SIZE && VariantOk(v) && v.decode != []
    ensures var d, inputs := v.decode[0], Read(nor, v.inputs);
            d.source in inputs && InRange(d.offset, d.size, |inputs[d.source]|)
  {
    ReadSizes(nor, v.inputs);
    hide Read, Sizes, PARTITIONS, Hash, CopiesOk;
  }

  /** The inputs other than XBL that a NOR does not have make a variant foreign to it. */
  ghost predicate Foreign(w: World, nor: seq<byte>, v: Variant) {
    exists k :: 0 <= k < |v.inputs| && v.inputs[k].name != "XBL" && !HasHash(w, nor, v.inputs[k])
  }

  lemma AcceptedIsNotForeign(w: World, nor: seq<byte>, m: Manifest) returns (i: nat)
    requires Prepare(w, nor, m).Ok?
    ensures i < |m.variants| && !Foreign(w, nor, m.variants[i])
  {
    hide Prepare, HasHash, Partitions;
    i := PrepareGate(w, nor, m);
  }

  /** A NOR on which every variant misses the hash of some partition but XBL is refused: nothing is built. */
  lemma ForeignRefused(w: World, nor: seq<byte>, m: Manifest)
    requires forall i :: 0 <= i < |m.variants| ==> Foreign(w, nor, m.variants[i])
    ensures Prepare(w, nor, m).Err?
  {
    hide Prepare, Foreign;
    if Prepare(w, nor, m).Ok? { var i := AcceptedIsNotForeign(w, nor, m); }
  }

  // ---------------------------------------------------------------- when prepare succeeds

  /** XBL lies where the variant has it, the rest of the boot chain is shown, and XBL is the result already or the input. */
  ghost predicate VariantShown(w: World, nor: seq<byte>, parts: Parts, v: Variant)
    requires |nor| == NOR_SIZE && VariantOk(v)
  {
    && "XBL" in parts && parts["XBL"].start == v.offset && parts["XBL"].length == v.size && ChainShown(w, nor, parts, v)
    && (Built(w, nor, v) || XblShown(w, nor, v))
  }

  /** The XBL input has its hash. */
  predicate XblShown(w: World, nor: seq<byte>, v: Variant) {
    forall k :: 0 <= k < |v.inputs| && v.inputs[k].name == "XBL" ==> HasHash(w, nor, v.inputs[k])
  }

  /** The XBL partition starts with the result of the variant. */
  predicate Built(w: World, nor: seq<byte>, v: Variant)
    requires |nor| == NOR_SIZE && VariantOk(v)
  {
    VariantRange(v);
    w.sha(nor[v.offset..v.offset + v.template.size]) == v.sha
  }

  lemma PristineExactly(w: World, nor: seq<byte>, v: Variant)
    requires |nor| == NOR_SIZE && VariantOk(v)
    ensures Pristine(w, nor, v) <==> XblShown(w, nor, v)
  {
    if Pristine(w, nor, v) { PristineHash(w, nor, v); }
    var k := XblInput(v);
    hide VariantOk, Slice, Read, Expected, PARTITIONS, Hash;
    SliceExact(nor, v.inputs[k].offset, v.inputs[k].size);
    ReadAt(nor, v.inputs, k);
    ExpectedAt(v.inputs, k);
  }

  lemma XblInput(v: Variant) returns (k: nat)
    requires VariantOk(v)
    ensures k < |v.inputs| && v.inputs[k].name == "XBL" && InputOk(v.inputs[k]) && Distinct(v.inputs)
  {
    VariantShape(v);
    hide VariantOk, Hash;
    ReadsCover(v.inputs);
    SizesAt(v.inputs);
    assert "XBL" in Sizes(v.inputs);
    hide Sizes, PARTITIONS;
    k :| 0 <= k < |v.inputs| && v.inputs[k].name == "XBL";
  }

  /** What is returned when XBL is the result already. */
  function Unchanged(w: World, nor: seq<byte>, v: Variant): Prepared
    requires |nor| == NOR_SIZE && VariantOk(v)
  {
    VariantRange(v);
    Prepared(v.offset, nor[v.offset..v.offset + XBL_SIZE], false, w.sha(nor))
  }

  /** The new payload with the old rest of XBL behind it. */
  function NewXbl(nor: seq<byte>, v: Variant, payload: seq<byte>): seq<byte>
    requires |nor| == NOR_SIZE && VariantOk(v)
  {
    VariantRange(v);
    payload + nor[v.offset + v.template.size..v.offset + XBL_SIZE]
  }

  /** The NOR with another XBL in the place of the old one. */
  function NewNor(nor: seq<byte>, v: Variant, xbl: seq<byte>): seq<byte>
    requires |nor| == NOR_SIZE && VariantOk(v)
  {
    VariantRange(v);
    nor[..v.offset] + xbl + nor[v.offset + XBL_SIZE..]
  }

  /** What is returned for a new payload: the new XBL, and the hash of the NOR that will hold it. */
  function Rebuilt(w: World, nor: seq<byte>, v: Variant, payload: seq<byte>): Prepared
    requires |nor| == NOR_SIZE && VariantOk(v)
  {
    var xbl := NewXbl(nor, v, payload);
    Prepared(v.offset, xbl, true, w.sha(NewNor(nor, v, xbl)))
  }

  /** A variant is passed over exactly when it is not shown. */
  lemma TriesExactly(w: World, nor: seq<byte>, parts: Parts, v: Variant)
    requires |nor| == NOR_SIZE && VariantOk(v)
    ensures Try(w, nor, parts, v)
         == if !VariantShown(w, nor, parts, v) then Skip
            else if Built(w, nor, v) then Done(Ok(Unchanged(w, nor, v)))
            else Done(Build(w, nor, v))
  {
    hide VariantOk, Build, Existing, Pristine, Current, Matches, VariantShown, Built;
    ShownExactly(w, nor, parts, v);
    VariantRange(v);
    ExistingExact(nor, v);
  }

  lemma ShownExactly(w: World, nor: seq<byte>, parts: Parts, v: Variant)
    requires |nor| == NOR_SIZE && VariantOk(v)
    ensures Built(w, nor, v) <==> Current(w, nor, v)
    ensures VariantShown(w, nor, parts, v) <==> Matches(w, nor, parts, v) && (Current(w, nor, v) || Pristine(w, nor, v))
  {
    hide VariantOk, InputsMatch, ChainShown, XblShown, Pristine, Current, Built;
    BuiltExactly(w, nor, v);
    ChainShownExactly(w, nor, parts, v);
    PristineExactly(w, nor, v);
  }

  lemma BuiltExactly(w: World, nor: seq<byte>, v: Variant)
    requires |nor| == NOR_SIZE && VariantOk(v)
    ensures Built(w, nor, v) <==> Current(w, nor, v)
  {
    VariantRange(v);
    hide VariantOk, Current;
    CurrentExactly(w, nor, v);
  }

  /** The pieces that an accepted variant copies from: its inputs, and at most one decompressed one. */
  ghost predicate SourcesShown(w: World, nor: seq<byte>, v: Variant, pieces: Pieces)
    requires |nor| == NOR_SIZE && VariantOk(v)
  {
    if v.decode == [] then pieces == Read(nor, v.inputs) else DecodingShown(w, Read(nor, v.inputs), v.decode[0], pieces)
  }

  lemma SourcesExactly(w: World, nor: seq<byte>, v: Variant, pieces: Pieces)
    requires |nor| == NOR_SIZE && VariantOk(v)
    ensures Sources(w, nor, v) == Ok(pieces) <==> SourcesShown(w, nor, v, pieces)
  {
    hide Unpack, Read;
    if v.decode != [] {
      DecodedInside(nor, v);
      hide VariantOk;
      UnpacksExactly(w, Read(nor, v.inputs), v.decode[0], pieces);
    }
  }

  lemma UnpacksExactly(w: World, inputs: Pieces, d: Decoding, pieces: Pieces)
    requires d.source in inputs && InRange(d.offset, d.size, |inputs[d.source]|)
    ensures Unpack(w, inputs, d) == Ok(pieces) <==> DecodingShown(w, inputs, d, pieces)
  {
    hide Le32, Le64, Slice;
    SliceExact(inputs[d.source], d.offset, d.size);
  }

  /** A decompressed source: of a piece with the right header, of the declared size and hash. */
  predicate DecodingShown(w: World, inputs: Pieces, d: Decoding, pieces: Pieces) {
    && d.source in inputs && 0 <= d.offset && 13 <= d.size && d.offset + d.size <= |inputs[d.source]|
    && var source := inputs[d.source][d.offset..d.offset + d.size];
       && Le32(source, 1) <= 33_554_432 && Le64(source, 5) == d.output
       && w.unlzma(source, d.output + 1).Some?
       && var data := w.unlzma(source, d.output + 1).value;
          |data| == d.output && w.sha(data) == d.sha && pieces == inputs[d.name := data]
  }

  /** The new first bytes of XBL: a template of its size and hash, zero in every target, assembled, with the recorded hash. */
  ghost predicate PayloadShown(w: World, nor: seq<byte>, v: Variant, template: seq<byte>, pieces: Pieces, payload: seq<byte>)
    requires |nor| == NOR_SIZE && VariantOk(v)
  {
    && w.fetch(v.template) == Ok(template) && |template| == v.template.size && w.sha(template) == v.template.sha
    && SourcesShown(w, nor, v, pieces)
    && (forall c, k :: c in v.copies && 0 <= c.target <= k < c.target + c.size <= |template| ==> template[k] == 0)
    && Assembled(payload, template, pieces, v.copies) && w.sha(payload) == v.sha
  }

  lemma BlankExactly(template: seq<byte>, copies: seq<Copy>)
    requires forall c :: c in copies ==> InRange(c.target, c.size, |template|)
    ensures Blank(template, copies) <==>
            forall c, k :: c in copies && 0 <= c.target <= k < c.target + c.size <= |template| ==> template[k] == 0
  {
    hide Slice;
    forall c | c in copies
      ensures Empty(template, c) <==> forall k :: c.target <= k < c.target + c.size ==> template[k] == 0
    {
      EmptyExact(template, c);
      ZerosExactly(template, c.target, c.target + c.size);
    }
    hide Empty;
  }

  lemma ZerosExactly(s: seq<byte>, from: nat, to: nat)
    requires from <= to <= |s|
    ensures AllZero(s[from..to]) <==> forall k :: from <= k < to ==> s[k] == 0
  {
    if AllZero(s[from..to]) {
      forall k | from <= k < to
        ensures s[k] == 0
      {
        assert s[from..to][k - from] == s[k];
      }
    }
  }

  lemma CopiesInside(v: Variant)
    requires VariantOk(v)
    ensures forall c :: c in v.copies ==> InRange(c.target, c.size, v.template.size)
  {
    hide Hash, ReadsOk, DecodeOk, Sizes, Decoded;
  }

  /** The payload is built exactly when it can be shown, and there is only one. */
  lemma PayloadExactly(w: World, nor: seq<byte>, v: Variant, payload: seq<byte>)
    requires |nor| == NOR_SIZE && VariantOk(v)
    ensures Payload(w, nor, v) == Ok(payload) <==> exists template, pieces :: PayloadShown(w, nor, v, template, pieces, payload)
  {
    hide VariantOk, Sources, SourcesShown, CopyAll, Assembled, Blank;
    if Payload(w, nor, v) == Ok(payload) {
      var template, pieces := w.fetch(v.template).value, Sources(w, nor, v).value;
      CopiesExactly(w, nor, v, template, pieces);
      SourcesExactly(w, nor, v, pieces);
      assert PayloadShown(w, nor, v, template, pieces, payload);
    }
    if template, pieces :| PayloadShown(w, nor, v, template, pieces, payload) {
      SourcesExactly(w, nor, v, pieces);
      CopiesExactly(w, nor, v, template, pieces);
      SamePayload(payload, CopyAll(template, pieces, v.copies).value, template, pieces, v.copies, v.copies);
    }
  }

  lemma CopiesExactly(w: World, nor: seq<byte>, v: Variant, template: seq<byte>, pieces: Pieces)
    requires |nor| == NOR_SIZE && VariantOk(v) && |template| == v.template.size && Sources(w, nor, v) == Ok(pieces)
    ensures CopyAll(template, pieces, v.copies).Ok? <==>
            forall c, k :: c in v.copies && 0 <= c.target <= k < c.target + c.size <= |template| ==> template[k] == 0
    ensures CopyAll(template, pieces, v.copies).Ok? ==> Assembled(CopyAll(template, pieces, v.copies).value, template, pieces, v.copies)
  {
    SourcesSized(w, nor, v);
    CopiesInside(v);
    hide Sources, CopyAll, Sized, ReadsOk, Sizes, Decoded, DecodeOk, CopiesOk, Hash, Assembled, Blank;
    CopiesExact(template, Decoded(Sizes(v.inputs), v.decode), pieces, v.copies);
    hide VariantOk;
    BlankExactly(template, v.copies);
  }

  /** The variants before the first one shown are passed over. */
  lemma {:induction false} FirstIs(w: World, nor: seq<byte>, parts: Parts, variants: seq<Variant>, i: nat)
    requires i <= |variants| && forall j :: 0 <= j < i ==> Try(w, nor, parts, variants[j]).Skip?
    ensures First(w, nor, parts, variants) == First(w, nor, parts, variants[i..])
  {
    hide Try;
    if i > 0 {
      assert forall j :: 0 <= j < i - 1 ==> variants[1..][j] == variants[j + 1];
      FirstIs(w, nor, parts, variants[1..], i - 1);
      assert variants[1..][i - 1..] == variants[i..];
    } else {
      assert variants[0..] == variants;
    }
  }

  /** The first variant shown decides. */
  lemma Decides(w: World, nor: seq<byte>, m: Manifest, i: nat)
    requires Accepted(m) && Partitions(w, nor).Ok? && i < |m.variants| && |nor| == NOR_SIZE
    requires forall j :: 0 <= j < |m.variants| ==> VariantOk(m.variants[j])
    requires VariantShown(w, nor, Partitions(w, nor).value, m.variants[i])
    requires forall j :: 0 <= j < i ==> !VariantShown(w, nor, Partitions(w, nor).value, m.variants[j])
    ensures Try(w, nor, Partitions(w, nor).value, m.variants[i]) == Done(Prepare(w, nor, m))
  {
    var parts := Partitions(w, nor).value;
    hide VariantShown, Partitions, Try, Build, Built, VariantOk, Accepted, Unchanged;
    forall j | 0 <= j < i
      ensures Try(w, nor, parts, m.variants[j]).Skip?
    {
      TriesExactly(w, nor, parts, m.variants[j]);
    }
    TriesExactly(w, nor, parts, m.variants[i]);
    FirstIs(w, nor, parts, m.variants, i);
    FirstDecides(w, nor, parts, m.variants[i..]);
    hide First;
  }

  lemma FirstDecides(w: World, nor: seq<byte>, parts: Parts, variants: seq<Variant>)
    requires variants != [] && Try(w, nor, parts, variants[0]).Done?
    ensures First(w, nor, parts, variants) == Try(w, nor, parts, variants[0]).result
  {
    hide Try;
  }

  /** Whether a payload can be built at all. */
  ghost predicate Buildable(w: World, nor: seq<byte>, v: Variant)
    requires |nor| == NOR_SIZE && VariantOk(v)
  {
    exists template, pieces, payload :: PayloadShown(w, nor, v, template, pieces, payload)
  }

  /**
   * The first variant that the NOR shows decides. When XBL is its result already, nothing changes; otherwise the
   * call succeeds exactly when a payload can be built, and returns it with the rest of the old XBL behind it.
   */
  lemma PreparesExactly(w: World, nor: seq<byte>, m: Manifest, i: nat)
    requires Accepted(m) && Partitions(w, nor).Ok? && i < |m.variants| && |nor| == NOR_SIZE
    requires forall j :: 0 <= j < |m.variants| ==> VariantOk(m.variants[j])
    requires VariantShown(w, nor, Partitions(w, nor).value, m.variants[i])
    requires forall j :: 0 <= j < i ==> !VariantShown(w, nor, Partitions(w, nor).value, m.variants[j])
    ensures var v := m.variants[i];
            if Built(w, nor, v) then Prepare(w, nor, m) == Ok(Unchanged(w, nor, v))
            else
              && (Prepare(w, nor, m).Ok? <==> Buildable(w, nor, v))
              && forall template, pieces, payload :: PayloadShown(w, nor, v, template, pieces, payload) ==>
                   Prepare(w, nor, m) == Ok(Rebuilt(w, nor, v, payload))
  {
    var parts, v := Partitions(w, nor).value, m.variants[i];
    hide VariantShown, PayloadShown, Partitions, Try, Build, Built, VariantOk, Prepare, Unchanged, Rebuilt, Accepted, Buildable;
    Decides(w, nor, m, i);
    TriesExactly(w, nor, parts, v);
    BuildsExactly(w, nor, v);
  }

  lemma BuildsExactly(w: World, nor: seq<byte>, v: Variant)
    requires |nor| == NOR_SIZE && VariantOk(v)
    ensures Build(w, nor, v).Ok? <==> Buildable(w, nor, v)
    ensures forall template, pieces, payload :: PayloadShown(w, nor, v, template, pieces, payload) ==>
              Build(w, nor, v) == Ok(Rebuilt(w, nor, v, payload))
  {
    hide VariantOk, PayloadShown, Payload, Complete, Assign, Rebuilt;
    if Build(w, nor, v).Ok? {
      PayloadExactly(w, nor, v, Payload(w, nor, v).value);
    }
    forall template, pieces, payload | PayloadShown(w, nor, v, template, pieces, payload)
      ensures Build(w, nor, v) == Ok(Rebuilt(w, nor, v, payload))
    {
      PayloadExactly(w, nor, v, payload);
      RebuiltWhole(w, nor, v, payload);
    }
  }

  lemma RebuiltWhole(w: World, nor: seq<byte>, v: Variant, payload: seq<byte>)
    requires |nor| == NOR_SIZE && VariantOk(v) && Payload(w, nor, v) == Ok(payload)
    ensures Build(w, nor, v) == Ok(Rebuilt(w, nor, v, payload))
  {
    hide VariantOk, Payload, Assign, Complete, NewXbl, NewNor;
    CompleteWhole(w, nor, v, payload);
    AssignWhole(nor, v, Complete(nor, v, payload));
  }

  lemma CompleteWhole(w: World, nor: seq<byte>, v: Variant, payload: seq<byte>)
    requires |nor| == NOR_SIZE && VariantOk(v) && Payload(w, nor, v) == Ok(payload)
    ensures Complete(nor, v, payload) == NewXbl(nor, v, payload) && |Complete(nor, v, payload)| == XBL_SIZE
  {
    PayloadExact(w, nor, v);
    VariantRange(v);
    hide VariantOk, Payload, Assembled, Sources, Existing, Slice;
    CompleteExact(nor, v, payload);
    hide Complete;
    var xbl := Complete(nor, v, payload);
    assert xbl == xbl[..|payload|] + xbl[|payload|..];
  }

  lemma AssignWhole(nor: seq<byte>, v: Variant, xbl: seq<byte>)
    requires |nor| == NOR_SIZE && VariantOk(v) && |xbl| == XBL_SIZE
    ensures Assign(nor, v.offset, v.offset + |xbl|, xbl) == NewNor(nor, v, xbl)
  {
    VariantRange(v);
    hide VariantOk;
    AssignPlain(nor, v.offset, xbl);
  }

  lemma AssignPlain(s: seq<byte>, at: int, bytes: seq<byte>)
    requires InRange(at, |bytes|, |s|)
    ensures Assign(s, at, at + |bytes|, bytes) == s[..at] + bytes + s[at + |bytes|..]
  {
  }

  /** With no variant shown, the call fails: this firmware is not supported. */
  lemma NothingShown(w: World, nor: seq<byte>, m: Manifest)
    requires !Accepted(m) || Partitions(w, nor).Err?
             || (|nor| == NOR_SIZE && forall j :: 0 <= j < |m.variants| ==>
                   VariantOk(m.variants[j]) && !VariantShown(w, nor, Partitions(w, nor).value, m.variants[j]))
    ensures Prepare(w, nor, m).Err?
  {
    hide VariantShown, Partitions, VariantOk, Try;
    if Prepare(w, nor, m).Ok? {
      AcceptedVariants(m);
      var parts := Partitions(w, nor).value;
      var i := FirstChosen(w, nor, parts, m.variants);
      TriesExactly(w, nor, parts, m.variants[i]);
    }
  }
}
