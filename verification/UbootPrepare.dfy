/** `prepare`: from a NOR backup and an accepted recipe to the new XBL, byte by byte. */
module UbootPrepare {
  import opened Common
  import opened Bytes
  import opened UbootRecipe
  import EdlDisk

  /** What the model leaves open: hashes, UTF-16 names, LZMA and the download. */
  datatype World = World(
    sha: seq<byte> -> string,
    crc: seq<byte> -> nat,
    name: seq<byte> -> Result<string>,
    unlzma: (seq<byte>, int) -> Option<seq<byte>>,
    fetch: Template -> Result<seq<byte>>)

  // ---------------------------------------------------------------- Python slices

  function Clamp(i: int, n: nat): (k: nat)
    ensures k <= n
  {
    if i >= 0 then Min(i, n) else if i + n >= 0 then i + n else 0
  }

  /** `s[from:to]`: bounds outside the string are silently clamped. */
  function Slice(s: seq<byte>, from: int, to: int): seq<byte> {
    var i, j := Clamp(from, |s|), Clamp(to, |s|);
    if i <= j then s[i..j] else []
  }

  /** `s[from:to] = bytes`: the length changes unless the slice has the length of `bytes`. */
  function Assign(s: seq<byte>, from: int, to: int, bytes: seq<byte>): seq<byte> {
    var i, j := Clamp(from, |s|), Clamp(to, |s|);
    s[..i] + bytes + s[if i <= j then j else i..]
  }

  lemma SliceExact(s: seq<byte>, from: int, size: int)
    requires InRange(from, size, |s|)
    ensures Slice(s, from, from + size) == s[from..from + size]
  {
  }

  lemma AssignExact(s: seq<byte>, from: int, size: int, bytes: seq<byte>)
    requires InRange(from, size, |s|) && |bytes| == size
    ensures Assign(s, from, from + size, bytes) == Splice(s, from, bytes)
  {
  }

  // ---------------------------------------------------------------- the NOR partition table

  const ENTRY := 128
  const FIRST := 6
  const LAST := NOR_SIZE / SECTOR - 5

  /** Six sectors hold the whole table: 128 entries of 128 bytes, from sector 2. */
  const TABLE_END := 6 * SECTOR

  type Parts = map<string, EdlDisk.Part>

  function AddEntry(w: World, parts: Parts, entry: seq<byte>): Result<Parts>
    requires |entry| == ENTRY
  {
    if AllZero(entry[..16]) then Ok(parts)
    else
      var first, last := Le64(entry, 32), Le64(entry, 40);
      var name :- w.name(entry[56..128]);
      var _ :- Need(name !in parts && FIRST <= first <= last < LAST);
      Ok(parts[name := EdlDisk.Part(first * SECTOR, (last - first + 1) * SECTOR)])
  }

  /** The partitions of the first `n` entries. */
  function Entries(w: World, table: seq<byte>, n: nat): Result<Parts>
    requires n * ENTRY <= |table|
  {
    if n == 0 then Ok(map[])
    else
      var parts :- Entries(w, table, n - 1);
      AddEntry(w, parts, table[(n - 1) * ENTRY..n * ENTRY])
  }

  predicate HeaderOk(w: World, header: seq<byte>)
    requires |header| == SECTOR
  {
    && header[..8] == EdlDisk.SIGNATURE
    && Le64(header, 72) == 2 && 0 < Le32(header, 80) <= 128 && Le32(header, 84) == ENTRY
    && var size := Le32(header, 12);
       92 <= size <= SECTOR && w.crc(EdlDisk.Unsigned(header)[..size]) == Le32(header, 16)
  }

  function Partitions(w: World, nor: seq<byte>): Result<Parts> {
    if |nor| != NOR_SIZE then Err
    else
      var header := nor[SECTOR..2 * SECTOR];
      var _ :- Need(HeaderOk(w, header));
      var count := Le32(header, 80);
      var table := nor[2 * SECTOR..2 * SECTOR + count * ENTRY];
      var _ :- Need(w.crc(table) == Le32(header, 88));
      Entries(w, table, count)
  }

  method ReadPartitions(w: World, nor: seq<byte>) returns (r: Result<Parts>)
    ensures r == Partitions(w, nor)
  {
    hide AddEntry, HeaderOk, Le64;
    if |nor| != NOR_SIZE { return Err; }
    var header := nor[SECTOR..2 * SECTOR];
    if !HeaderOk(w, header) { return Err; }
    HeaderCount(w, header);
    var count := Le32(header, 80);
    var table := nor[2 * SECTOR..2 * SECTOR + count * ENTRY];
    if w.crc(table) != Le32(header, 88) { return Err; }
    var parts: Parts := map[];
    for n := 0 to count
      invariant Entries(w, table, n) == Ok(parts)
    {
      var added := AddEntry(w, parts, table[n * ENTRY..(n + 1) * ENTRY]);
      if added.Err? {
        EntriesFail(w, table, n + 1, count);
        return Err;
      }
      parts := added.value;
    }
    r := Ok(parts);
  }

  lemma HeaderCount(w: World, header: seq<byte>)
    requires |header| == SECTOR && HeaderOk(w, header)
    ensures 0 < Le32(header, 80) <= 128
  {
  }

  lemma {:induction false} EntriesFail(w: World, table: seq<byte>, n: nat, count: nat)
    requires n <= count && count * ENTRY <= |table| && Entries(w, table, n).Err?
    ensures Entries(w, table, count).Err?
  {
    hide AddEntry;
    if n < count { EntriesFail(w, table, n, count - 1); }
  }

  predicate PartOk(p: EdlDisk.Part) {
    && Multiple(p.start, SECTOR) && Multiple(p.length, SECTOR) && p.length > 0
    && TABLE_END <= p.start && p.start + p.length <= LAST * SECTOR
  }

  lemma {:induction false} EntriesBounded(w: World, table: seq<byte>, n: nat)
    requires n * ENTRY <= |table| && Entries(w, table, n).Ok?
    ensures forall name :: name in Entries(w, table, n).value ==> PartOk(Entries(w, table, n).value[name])
  {
    if n > 0 {
      EntriesBounded(w, table, n - 1);
      EntryBounded(w, Entries(w, table, n - 1).value, table[(n - 1) * ENTRY..n * ENTRY]);
      hide AddEntry, PartOk;
    }
  }

  lemma EntryBounded(w: World, parts: Parts, entry: seq<byte>)
    requires |entry| == ENTRY && AddEntry(w, parts, entry).Ok?
    requires forall name :: name in parts ==> PartOk(parts[name])
    ensures var longer := AddEntry(w, parts, entry).value; forall name :: name in longer ==> PartOk(longer[name])
  {
    hide Le64;
  }

  /** Every partition keeps clear of the primary and the backup table. */
  lemma PartitionsBounded(w: World, nor: seq<byte>)
    requires Partitions(w, nor).Ok?
    ensures forall name :: name in Partitions(w, nor).value ==> PartOk(Partitions(w, nor).value[name])
  {
    hide PartOk, Entries, Le64;
    var header := nor[SECTOR..2 * SECTOR];
    HeaderCount(w, header);
    var count := Le32(header, 80);
    EntriesBounded(w, nor[2 * SECTOR..2 * SECTOR + count * ENTRY], count);
  }

  /** The table depends on the first six sectors alone. */
  lemma PartitionsPrefix(w: World, nor: seq<byte>, other: seq<byte>)
    requires |nor| == |other| == NOR_SIZE && nor[..TABLE_END] == other[..TABLE_END]
    ensures Partitions(w, nor) == Partitions(w, other)
  {
    hide Entries, HeaderOk;
    PrefixSlice(nor, other, SECTOR, 2 * SECTOR);
    var header := nor[SECTOR..2 * SECTOR];
    if HeaderOk(w, header) {
      HeaderCount(w, header);
      PrefixSlice(nor, other, 2 * SECTOR, 2 * SECTOR + Le32(header, 80) * ENTRY);
    }
  }

  lemma PrefixSlice(s: seq<byte>, t: seq<byte>, from: nat, to: nat)
    requires |s| == |t| >= TABLE_END && s[..TABLE_END] == t[..TABLE_END] && from <= to <= TABLE_END
    ensures s[from..to] == t[from..to]
  {
    assert s[from..to] == s[..TABLE_END][from..to];
    assert t[from..to] == t[..TABLE_END][from..to];
  }

  // ---------------------------------------------------------------- the inputs of a variant

  type Pieces = map<string, seq<byte>>

  function Piece(nor: seq<byte>, x: Input): seq<byte> {
    Slice(nor, x.offset, x.offset + x.size)
  }

  function Read(nor: seq<byte>, inputs: seq<Input>): Pieces {
    if inputs == [] then map[]
    else var x := inputs[|inputs| - 1]; Read(nor, inputs[..|inputs| - 1])[x.name := Piece(nor, x)]
  }

  /** One input lies at its partition; all but XBL fill it and have their hash. */
  predicate InputMatches(w: World, nor: seq<byte>, parts: Parts, x: Input) {
    && x.name in parts && parts[x.name].start == x.offset
    && if x.name == "XBL" then x.size <= parts[x.name].length
       else x.size == parts[x.name].length && w.sha(Piece(nor, x)) == x.sha
  }

  predicate Located(parts: Parts, v: Variant) {
    "XBL" in parts && parts["XBL"].start == v.offset && parts["XBL"].length == v.size
  }

  predicate InputsMatch(w: World, nor: seq<byte>, parts: Parts, inputs: seq<Input>) {
    forall i :: 0 <= i < |inputs| ==> InputMatches(w, nor, parts, inputs[i])
  }

  lemma {:induction false} ReadKeys(nor: seq<byte>, inputs: seq<Input>)
    ensures Read(nor, inputs).Keys == Sizes(inputs).Keys
  {
    if inputs != [] { ReadKeys(nor, inputs[..|inputs| - 1]); }
  }

  /** Each input read has exactly the size the manifest gives it. */
  lemma {:induction false} ReadSizes(nor: seq<byte>, inputs: seq<Input>)
    requires |nor| == NOR_SIZE && forall i :: 0 <= i < |inputs| ==> InputOk(inputs[i])
    ensures Sized(Read(nor, inputs), Sizes(inputs))
  {
    if inputs != [] {
      var x := inputs[|inputs| - 1];
      assert InputOk(x);
      ReadSizes(nor, inputs[..|inputs| - 1]);
      SliceExact(nor, x.offset, x.size);
    }
  }

  predicate Sized(pieces: Pieces, sizes: map<string, int>) {
    pieces.Keys == sizes.Keys && forall name :: name in sizes ==> |pieces[name]| == sizes[name]
  }

  /** The loop over the inputs, left at the first mismatch; all inputs were read only if their number says so. */
  method MatchInputs(w: World, nor: seq<byte>, parts: Parts, inputs: seq<Input>) returns (r: Option<Pieces>)
    requires ReadsOk(inputs)
    ensures r == if InputsMatch(w, nor, parts, inputs) then Some(Read(nor, inputs)) else None
  {
    var pieces: Pieces := map[];
    var n := 0;
    hide InputMatches, Read, Sizes, PARTITIONS;
    assert inputs[..0] == [] && Read(nor, []) == map[] by { ReadNone(nor); }
    while n < |inputs|
      invariant n <= |inputs| && pieces == Read(nor, inputs[..n])
      invariant forall i :: 0 <= i < n ==> InputMatches(w, nor, parts, inputs[i])
    {
      if !InputMatches(w, nor, parts, inputs[n]) { break; }
      assert inputs[..n + 1][..n] == inputs[..n];
      ReadStep(nor, inputs[..n + 1]);
      pieces := pieces[inputs[n].name := Piece(nor, inputs[n])];
      n := n + 1;
    }
    ReadKeys(nor, inputs[..n]);
    SizesAt(inputs[..n]);
    assert |pieces.Keys| == n;
    if |pieces| != |PARTITIONS| { return None; }
    assert inputs[..n] == inputs;
    r := Some(pieces);
  }

  lemma ReadNone(nor: seq<byte>)
    ensures Read(nor, []) == map[]
  {
  }

  lemma ReadStep(nor: seq<byte>, inputs: seq<Input>)
    requires inputs != []
    ensures var x := inputs[|inputs| - 1];
            Read(nor, inputs) == Read(nor, inputs[..|inputs| - 1])[x.name := Piece(nor, x)]
  {
  }

  /** Decompression of one piece, with the size in its header and its hash checked. */
  function Unpack(w: World, pieces: Pieces, d: Decoding): Result<Pieces> {
    var _ :- Need(d.source in pieces);
    var source := Slice(pieces[d.source], d.offset, d.offset + d.size);
    var _ :- Need(|source| >= 13 && Le32(source, 1) <= NOR_SIZE && Le64(source, 5) == d.output);
    var data := w.unlzma(source, d.output + 1);
    var _ :- Need(data.Some? && |data.value| == d.output && w.sha(data.value) == d.sha);
    Ok(pieces[d.name := data.value])
  }

  /** All sources of the copies: the inputs, and at most one decompressed piece. */
  function Sources(w: World, nor: seq<byte>, v: Variant): Result<Pieces> {
    if v.decode == [] then Ok(Read(nor, v.inputs)) else Unpack(w, Read(nor, v.inputs), v.decode[0])
  }

  lemma SourcesSized(w: World, nor: seq<byte>, v: Variant)
    requires |nor| == NOR_SIZE && VariantOk(v) && Sources(w, nor, v).Ok?
    ensures Sized(Sources(w, nor, v).value, Decoded(Sizes(v.inputs), v.decode))
  {
    ReadSizes(nor, v.inputs);
    hide Read, Sizes, Le64, Le32, Slice, PARTITIONS, Hash;
  }

  // ---------------------------------------------------------------- copies

  function Power(n: nat): nat {
    if n == 0 then 1 else 2 * Power(n - 1)
  }

  /** Exclusive or of the lowest `bits` bits, one by one. */
  function XorLow(a: nat, b: nat, bits: nat): (r: nat)
    requires a < Power(bits) && b < Power(bits)
    ensures r < Power(bits)
  {
    if bits == 0 then 0 else 2 * XorLow(a / 2, b / 2, bits - 1) + (if a % 2 == b % 2 then 0 else 1)
  }

  /** `^` on bytes. */
  function Xor(b: byte, key: byte): byte {
    assert Power(4) == 16 && Power(8) == 256;
    XorLow(b, key, 8)
  }

  predicate Bit(n: nat, i: nat) {
    if i == 0 then n % 2 == 1 else Bit(n / 2, i - 1)
  }

  lemma {:induction false} XorLowBit(a: nat, b: nat, bits: nat, i: nat)
    requires a < Power(bits) && b < Power(bits) && i < bits
    ensures Bit(XorLow(a, b, bits), i) <==> Bit(a, i) != Bit(b, i)
  {
    if i > 0 { XorLowBit(a / 2, b / 2, bits - 1, i - 1); }
  }

  /** A bit is set exactly when it differs in the two bytes. */
  lemma XorBit(b: byte, key: byte, i: nat)
    requires i < 8
    ensures Bit(Xor(b, key), i) <==> Bit(b, i) != Bit(key, i)
  {
    assert Power(4) == 16 && Power(8) == 256;
    XorLowBit(b, key, 8, i);
  }

  function Xored(s: seq<byte>, key: byte): (r: seq<byte>)
    ensures |r| == |s|
  {
    seq(|s|, i requires 0 <= i < |s| => Xor(s[i], key))
  }

  /** The bytes that one copy moves. */
  function Moved(pieces: Pieces, c: Copy): seq<byte> {
    if c.source in pieces then
      Xored(Slice(pieces[c.source], c.offset, c.offset + c.size), if c.xor == KEY then KEY else 0)
    else []
  }

  /** One turn of the copy loop: it may only fill zeros. */
  function CopyOne(payload: seq<byte>, pieces: Pieces, c: Copy): Result<seq<byte>> {
    var _ :- Need(c.source in pieces && AllZero(Slice(payload, c.target, c.target + c.size)));
    Ok(Assign(payload, c.target, c.target + c.size, Moved(pieces, c)))
  }

  function CopyAll(template: seq<byte>, pieces: Pieces, copies: seq<Copy>): Result<seq<byte>> {
    if copies == [] then Ok(template)
    else
      var payload :- CopyAll(template, pieces, copies[..|copies| - 1]);
      CopyOne(payload, pieces, copies[|copies| - 1])
  }

  predicate Covers(c: Copy, p: int) {
    c.target <= p < c.target + c.size
  }

  predicate Holds(payload: seq<byte>, pieces: Pieces, c: Copy) {
    InRange(c.target, c.size, |payload|) && payload[c.target..c.target + c.size] == Moved(pieces, c)
  }

  /** The result byte by byte: each target holds its moved source bytes, the rest is the template. */
  predicate Assembled(payload: seq<byte>, template: seq<byte>, pieces: Pieces, copies: seq<Copy>) {
    && |payload| == |template|
    && (forall c :: c in copies ==> Holds(payload, pieces, c))
    && (forall p :: 0 <= p < |payload| && (forall c :: c in copies ==> !Covers(c, p)) ==> payload[p] == template[p])
  }

  /** No slice of an accepted copy is cut short: each moved byte is its source byte XOR the key. */
  lemma MovedExact(sizes: map<string, int>, pieces: Pieces, c: Copy, limit: int)
    requires CopyOk(sizes, c, limit) && Sized(pieces, sizes)
    ensures c.source in pieces && |Moved(pieces, c)| == c.size && c.offset + c.size <= |pieces[c.source]|
    ensures forall k :: 0 <= k < c.size ==> Moved(pieces, c)[k] == Xor(pieces[c.source][c.offset + k], c.xor)
  {
    SliceExact(pieces[c.source], c.offset, c.size);
  }

  predicate Empty(template: seq<byte>, c: Copy) {
    AllZero(Slice(template, c.target, c.target + c.size))
  }

  predicate Blank(template: seq<byte>, copies: seq<Copy>) {
    forall c :: c in copies ==> Empty(template, c)
  }

  predicate ClearOf(front: seq<Copy>, c: Copy) {
    forall d :: d in front ==> Clear(c, d)
  }

  lemma HoldsKept(payload: seq<byte>, pieces: Pieces, c: Copy, d: Copy)
    requires InRange(c.target, c.size, |payload|) && |Moved(pieces, c)| == c.size
    requires d == c || (Clear(c, d) && Holds(payload, pieces, d))
    ensures Holds(Splice(payload, c.target, Moved(pieces, c)), pieces, d)
  {
    hide Moved;
    var longer := Splice(payload, c.target, Moved(pieces, c));
    if d != c { assert longer[d.target..d.target + d.size] == payload[d.target..d.target + d.size]; }
  }

  lemma TargetUntouched(payload: seq<byte>, template: seq<byte>, pieces: Pieces, front: seq<Copy>, c: Copy)
    requires Assembled(payload, template, pieces, front) && ClearOf(front, c) && InRange(c.target, c.size, |payload|)
    ensures payload[c.target..c.target + c.size] == template[c.target..c.target + c.size]
  {
    hide Holds;
    forall p | c.target <= p < c.target + c.size
      ensures payload[p] == template[p]
    {
      assert forall d :: d in front ==> Clear(c, d) && !Covers(d, p);
    }
  }

  lemma SpliceHolds(payload: seq<byte>, template: seq<byte>, pieces: Pieces, front: seq<Copy>, c: Copy)
    requires Assembled(payload, template, pieces, front) && ClearOf(front, c)
    requires InRange(c.target, c.size, |payload|) && |Moved(pieces, c)| == c.size
    ensures Assembled(Splice(payload, c.target, Moved(pieces, c)), template, pieces, front + [c])
  {
    var longer := Splice(payload, c.target, Moved(pieces, c));
    forall d | d in front + [c]
      ensures Holds(longer, pieces, d)
    {
      HoldsKept(payload, pieces, c, d);
    }
    hide Moved, Splice, Holds;
    forall p | 0 <= p < |longer| && forall d :: d in front + [c] ==> !Covers(d, p)
      ensures longer[p] == template[p]
    {
      assert c in front + [c];
      assert forall d :: d in front ==> d in front + [c];
    }
  }

  /** One accepted copy on a payload that the copies before it assembled. */
  lemma CopyExtends(payload: seq<byte>, template: seq<byte>, sizes: map<string, int>, pieces: Pieces, front: seq<Copy>, c: Copy)
    requires Assembled(payload, template, pieces, front) && ClearOf(front, c)
    requires CopyOk(sizes, c, |template|) && Sized(pieces, sizes)
    ensures CopyOne(payload, pieces, c).Ok? <==> Empty(template, c)
    ensures CopyOne(payload, pieces, c).Ok? ==> Assembled(CopyOne(payload, pieces, c).value, template, pieces, front + [c])
  {
    hide Moved, Sized, Slice, Assign, Assembled, Splice, AllZero, ClearOf, Empty, CopyOne;
    MovedExact(sizes, pieces, c, |template|);
    AssembledLength(payload, template, pieces, front);
    CopyOneExact(payload, pieces, c);
    SliceExact(template, c.target, c.size);
    EmptyExact(template, c);
    TargetUntouched(payload, template, pieces, front, c);
    SpliceHolds(payload, template, pieces, front, c);
  }

  lemma AssembledLength(payload: seq<byte>, template: seq<byte>, pieces: Pieces, copies: seq<Copy>)
    requires Assembled(payload, template, pieces, copies)
    ensures |payload| == |template|
  {
  }

  lemma EmptyExact(template: seq<byte>, c: Copy)
    requires InRange(c.target, c.size, |template|)
    ensures Empty(template, c) <==> AllZero(template[c.target..c.target + c.size])
  {
  }

  lemma CopyOneExact(payload: seq<byte>, pieces: Pieces, c: Copy)
    requires c.source in pieces && InRange(c.target, c.size, |payload|) && |Moved(pieces, c)| == c.size
    ensures CopyOne(payload, pieces, c)
         == if AllZero(payload[c.target..c.target + c.size]) then Ok(Splice(payload, c.target, Moved(pieces, c))) else Err
  {
    hide Slice, Assign, Moved, AllZero, Splice;
    SliceExact(payload, c.target, c.size);
    AssignExact(payload, c.target, c.size, Moved(pieces, c));
  }

  /**
   * The copy loop of an accepted variant: it succeeds exactly when every target of the template is zero, it
   * keeps the template's length, and it leaves source XOR key in each target and the template elsewhere.
   */
  lemma {:induction false} CopiesExact(template: seq<byte>, sizes: map<string, int>, pieces: Pieces, copies: seq<Copy>)
    requires CopiesOk(sizes, copies, |template|) && Sized(pieces, sizes)
    ensures CopyAll(template, pieces, copies).Ok? <==> Blank(template, copies)
    ensures CopyAll(template, pieces, copies).Ok? ==> Assembled(CopyAll(template, pieces, copies).value, template, pieces, copies)
  {
    hide CopiesOk, CopyOk, Sized, CopyOne, Empty, Blank, Assembled, ClearOf, CopyAll;
    if copies == [] {
      NothingCopied(template, pieces, copies);
    } else {
      var front, c := copies[..|copies| - 1], copies[|copies| - 1];
      LastCopy(template, sizes, pieces, copies);
      CopiesExact(template, sizes, pieces, front);
      if CopyAll(template, pieces, front).Ok? {
        CopyExtends(CopyAll(template, pieces, front).value, template, sizes, pieces, front, c);
      }
    }
  }

  lemma LastCopy(template: seq<byte>, sizes: map<string, int>, pieces: Pieces, copies: seq<Copy>)
    requires CopiesOk(sizes, copies, |template|) && copies != []
    ensures var front, c := copies[..|copies| - 1], copies[|copies| - 1];
            && copies == front + [c] && CopiesOk(sizes, front, |template|) && CopyOk(sizes, c, |template|) && ClearOf(front, c)
            && (Blank(template, copies) <==> Blank(template, front) && Empty(template, c))
            && CopyAll(template, pieces, copies)
               == if CopyAll(template, pieces, front).Err? then Err
                  else CopyOne(CopyAll(template, pieces, front).value, pieces, c)
  {
    hide CopyOk, Empty, CopyOne, Clear;
    FrontClear(copies);
    assert copies == copies[..|copies| - 1] + [copies[|copies| - 1]];
  }

  lemma NothingCopied(template: seq<byte>, pieces: Pieces, copies: seq<Copy>)
    requires copies == []
    ensures CopyAll(template, pieces, copies) == Ok(template) && Blank(template, copies)
    ensures Assembled(template, template, pieces, copies)
  {
  }

  lemma FrontClear(copies: seq<Copy>)
    requires copies != [] && forall i, j :: 0 <= i < j < |copies| ==> Clear(copies[j], copies[i])
    ensures ClearOf(copies[..|copies| - 1], copies[|copies| - 1])
  {
  }

  /** The bytes of an assembled payload do not depend on the order of the copies. */
  lemma OrderFree(template: seq<byte>, sizes: map<string, int>, pieces: Pieces, copies: seq<Copy>, others: seq<Copy>)
    requires CopiesOk(sizes, copies, |template|) && CopiesOk(sizes, others, |template|) && Sized(pieces, sizes)
    requires forall c :: c in copies <==> c in others
    ensures CopyAll(template, pieces, copies) == CopyAll(template, pieces, others)
  {
    CopiesExact(template, sizes, pieces, copies);
    CopiesExact(template, sizes, pieces, others);
    hide CopiesOk, Sized, Empty, CopyAll, Assembled;
    if Blank(template, copies) {
      SamePayload(CopyAll(template, pieces, copies).value, CopyAll(template, pieces, others).value, template, pieces, copies, others);
    }
  }

  lemma SamePayload(x: seq<byte>, y: seq<byte>, template: seq<byte>, pieces: Pieces, copies: seq<Copy>, others: seq<Copy>)
    requires Assembled(x, template, pieces, copies) && Assembled(y, template, pieces, others)
    requires forall c :: c in copies <==> c in others
    ensures x == y
  {
    hide Moved;
    forall p | 0 <= p < |template|
      ensures x[p] == y[p]
    {
      if c :| c in copies && Covers(c, p) {
        assert Holds(x, pieces, c) && Holds(y, pieces, c);
        var k := p - c.target;
        assert x[p] == x[c.target..c.target + c.size][k] && y[p] == y[c.target..c.target + c.size][k];
      }
    }
  }

  // ---------------------------------------------------------------- prepare

  /** The new XBL partition, whether it differs from the old one, and the hash of the NOR that holds it. */
  datatype Prepared = Prepared(offset: int, xbl: seq<byte>, changed: bool, nor: string)

  datatype Outcome = Skip | Done(result: Result<Prepared>)

  function Existing(nor: seq<byte>, v: Variant): seq<byte> {
    Slice(nor, v.offset, v.offset + v.size)
  }

  /** The hash the manifest gives for the XBL input. */
  function Expected(inputs: seq<Input>): Option<string> {
    if inputs == [] then None
    else if inputs[0].name == "XBL" then Some(inputs[0].sha)
    else Expected(inputs[1..])
  }

  /** The new first bytes of XBL. */
  function Payload(w: World, nor: seq<byte>, v: Variant): Result<seq<byte>> {
    var pieces :- Sources(w, nor, v);
    var template :- w.fetch(v.template);
    var _ :- Need(|template| == v.template.size && w.sha(template) == v.template.sha);
    var payload :- CopyAll(template, pieces, v.copies);
    var _ :- Need(w.sha(payload) == v.sha);
    Ok(payload)
  }

  function Complete(nor: seq<byte>, v: Variant, payload: seq<byte>): seq<byte> {
    payload + Slice(Existing(nor, v), |payload|, |Existing(nor, v)|)
  }

  function Build(w: World, nor: seq<byte>, v: Variant): Result<Prepared> {
    var payload :- Payload(w, nor, v);
    var complete := Complete(nor, v, payload);
    Ok(Prepared(v.offset, complete, true, w.sha(Assign(nor, v.offset, v.offset + |complete|, complete))))
  }

  predicate Matches(w: World, nor: seq<byte>, parts: Parts, v: Variant) {
    Located(parts, v) && InputsMatch(w, nor, parts, v.inputs)
  }

  /** The XBL partition already starts with the result. */
  predicate Current(w: World, nor: seq<byte>, v: Variant) {
    w.sha(Slice(Existing(nor, v), 0, v.template.size)) == v.sha
  }

  predicate Pristine(w: World, nor: seq<byte>, v: Variant) {
    var xbl := Read(nor, v.inputs);
    "XBL" in xbl && Expected(v.inputs) == Some(w.sha(xbl["XBL"]))
  }

  /** One turn over the variants. */
  function Try(w: World, nor: seq<byte>, parts: Parts, v: Variant): Outcome {
    if !Matches(w, nor, parts, v) then Skip
    else if Current(w, nor, v) then Done(Ok(Prepared(v.offset, Existing(nor, v), false, w.sha(nor))))
    else if !Pristine(w, nor, v) then Skip
    else Done(Build(w, nor, v))
  }

  /** The first variant that is not skipped decides; with none, the firmware is not supported. */
  function First(w: World, nor: seq<byte>, parts: Parts, variants: seq<Variant>): Result<Prepared> {
    if variants == [] then Err
    else
      var outcome := Try(w, nor, parts, variants[0]);
      if outcome.Skip? then First(w, nor, parts, variants[1..]) else outcome.result
  }

  function Prepare(w: World, nor: seq<byte>, m: Manifest): Result<Prepared> {
    var _ :- Need(Accepted(m));
    var parts :- Partitions(w, nor);
    First(w, nor, parts, m.variants)
  }

  /** The copy loop. */
  method RunCopies(template: seq<byte>, pieces: Pieces, copies: seq<Copy>) returns (r: Result<seq<byte>>)
    ensures r == CopyAll(template, pieces, copies)
  {
    hide CopyOne;
    var payload := template;
    for n := 0 to |copies|
      invariant CopyAll(template, pieces, copies[..n]) == Ok(payload)
    {
      assert copies[..n + 1][..n] == copies[..n];
      var next := CopyOne(payload, pieces, copies[n]);
      if next.Err? {
        CopiesFail(template, pieces, copies, n + 1);
        return Err;
      }
      payload := next.value;
    }
    assert copies[..|copies|] == copies;
    r := Ok(payload);
  }

  lemma {:induction false} CopiesFail(template: seq<byte>, pieces: Pieces, copies: seq<Copy>, n: nat)
    requires n <= |copies| && CopyAll(template, pieces, copies[..n]).Err?
    ensures CopyAll(template, pieces, copies).Err?
  {
    hide CopyOne;
    if n < |copies| {
      assert copies[..|copies| - 1][..n] == copies[..n];
      CopiesFail(template, pieces, copies[..|copies| - 1], n);
    } else {
      assert copies[..n] == copies;
    }
  }

  /** The body of the loop over the variants. */
  method TryVariant(w: World, nor: seq<byte>, parts: Parts, v: Variant) returns (r: Outcome)
    requires VariantOk(v)
    ensures r == Try(w, nor, parts, v)
  {
    hide VariantOk, Read, Slice, Assign, CopyAll, Unpack, Expected, InputsMatch, PARTITIONS;
    VariantShape(v);
    if !Located(parts, v) { return Skip; }
    var inputs := MatchInputs(w, nor, parts, v.inputs);
    if inputs.None? { return Skip; }
    var pieces := inputs.value;
    var existing := Slice(nor, v.offset, v.offset + v.size);
    if w.sha(Slice(existing, 0, v.template.size)) == v.sha {
      return Done(Ok(Prepared(v.offset, existing, false, w.sha(nor))));
    }
    InputsNamed(nor, v.inputs);
    if Some(w.sha(pieces["XBL"])) != Expected(v.inputs) { return Skip; }
    for n := 0 to |v.decode|
      invariant Ok(pieces) == if n == 0 then Ok(inputs.value) else Unpack(w, inputs.value, v.decode[0])
    {
      var unpacked := Unpack(w, pieces, v.decode[n]);
      if unpacked.Err? { return Done(Err); }
      pieces := unpacked.value;
    }
    var template := w.fetch(v.template);
    if template.Err? || |template.value| != v.template.size || w.sha(template.value) != v.template.sha { return Done(Err); }
    var payload := RunCopies(template.value, pieces, v.copies);
    if payload.Err? || w.sha(payload.value) != v.sha { return Done(Err); }
    var complete := payload.value + Slice(existing, |payload.value|, |existing|);
    r := Done(Ok(Prepared(v.offset, complete, true, w.sha(Assign(nor, v.offset, v.offset + |complete|, complete)))));
  }

  lemma VariantShape(v: Variant)
    requires VariantOk(v)
    ensures ReadsOk(v.inputs) && |v.decode| <= 1
  {
    hide ReadsOk;
  }

  lemma InputsNamed(nor: seq<byte>, inputs: seq<Input>)
    requires ReadsOk(inputs)
    ensures "XBL" in Read(nor, inputs)
  {
    ReadsCover(inputs);
    ReadKeys(nor, inputs);
  }

  /** `prepare`. */
  method RunPrepare(w: World, nor: seq<byte>, m: Manifest) returns (r: Result<Prepared>)
    ensures r == Prepare(w, nor, m)
  {
    hide VariantOk, Try, Partitions;
    var ok := Validate(m);
    if !ok { return Err; }
    var parts := ReadPartitions(w, nor);
    if parts.Err? { return Err; }
    assert m.variants[0..] == m.variants;
    for n := 0 to |m.variants|
      invariant First(w, nor, parts.value, m.variants[n..]) == First(w, nor, parts.value, m.variants)
    {
      var outcome := TryVariant(w, nor, parts.value, m.variants[n]);
      assert m.variants[n..][1..] == m.variants[n + 1..];
      if outcome.Done? { return outcome.result; }
    }
    assert m.variants[|m.variants|..] == [];
    r := Err;
  }

  // ---------------------------------------------------------------- what prepare guarantees

  /** The NOR after the returned XBL has been written. */
  function Rewritten(nor: seq<byte>, p: Prepared): seq<byte> {
    Assign(nor, p.offset, p.offset + |p.xbl|, p.xbl)
  }

  /** What a changed result is, for the variant that produced it. */
  ghost predicate Rewrites(w: World, nor: seq<byte>, parts: Parts, v: Variant, p: Prepared) {
    var size := v.template.size;
    && Matches(w, nor, parts, v) && !Current(w, nor, v) && Pristine(w, nor, v)
    && p.changed && p.offset == v.offset && |p.xbl| == XBL_SIZE == v.size && 0 < size <= XBL_SIZE && 0 <= v.offset <= NOR_SIZE - XBL_SIZE
    && |nor| == NOR_SIZE
    && w.sha(p.xbl[..size]) == v.sha && p.xbl[size..] == nor[v.offset + size..v.offset + XBL_SIZE]
    && (exists template, pieces ::
          w.fetch(v.template) == Ok(template) && |template| == size && w.sha(template) == v.template.sha
          && Sources(w, nor, v) == Ok(pieces) && Assembled(p.xbl[..size], template, pieces, v.copies))
    && p.nor == w.sha(Rewritten(nor, p))
  }

  lemma ExistingExact(nor: seq<byte>, v: Variant)
    requires |nor| == NOR_SIZE && InRange(v.offset, v.size, NOR_SIZE) && v.size == XBL_SIZE
    ensures Existing(nor, v) == nor[v.offset..v.offset + XBL_SIZE]
  {
  }

  lemma PayloadExact(w: World, nor: seq<byte>, v: Variant)
    requires |nor| == NOR_SIZE && VariantOk(v) && Payload(w, nor, v).Ok?
    ensures var payload := Payload(w, nor, v).value;
            && |payload| == v.template.size && w.sha(payload) == v.sha
            && w.fetch(v.template).Ok? && |w.fetch(v.template).value| == v.template.size
            && w.sha(w.fetch(v.template).value) == v.template.sha && Sources(w, nor, v).Ok?
            && Assembled(payload, w.fetch(v.template).value, Sources(w, nor, v).value, v.copies)
  {
    SourcesSized(w, nor, v);
    hide Sources, CopyAll, Sized, ReadsOk, Sizes, Decoded, DecodeOk, CopiesOk, Hash, Assembled;
    var template, pieces := w.fetch(v.template).value, Sources(w, nor, v).value;
    CopiesExact(template, Decoded(Sizes(v.inputs), v.decode), pieces, v.copies);
    AssembledLength(CopyAll(template, pieces, v.copies).value, template, pieces, v.copies);
  }

  lemma CompleteExact(nor: seq<byte>, v: Variant, payload: seq<byte>)
    requires |nor| == NOR_SIZE && InRange(v.offset, v.size, NOR_SIZE) && v.size == XBL_SIZE && |payload| <= XBL_SIZE
    ensures var xbl := Complete(nor, v, payload);
            && |xbl| == XBL_SIZE && xbl[..|payload|] == payload
            && xbl[|payload|..] == nor[v.offset + |payload|..v.offset + XBL_SIZE]
  {
    hide Existing, Slice;
    ExistingExact(nor, v);
    var tail := nor[v.offset + |payload|..v.offset + XBL_SIZE];
    assert Slice(Existing(nor, v), |payload|, XBL_SIZE) == tail by {
      SliceTail(Existing(nor, v), |payload|);
      SubSlice(nor, v.offset, v.offset + XBL_SIZE, |payload|, XBL_SIZE);
    }
  }

  lemma SliceTail(s: seq<byte>, from: nat)
    requires from <= |s|
    ensures Slice(s, from, |s|) == s[from..]
  {
  }

  lemma BuildExact(w: World, nor: seq<byte>, parts: Parts, v: Variant)
    requires |nor| == NOR_SIZE && VariantOk(v) && Matches(w, nor, parts, v) && !Current(w, nor, v) && Pristine(w, nor, v)
    requires Build(w, nor, v).Ok?
    ensures Rewrites(w, nor, parts, v, Build(w, nor, v).value)
  {
    hide VariantOk, Payload, Complete, Matches, Current, Pristine, Assembled, Sources, Assign;
    PayloadExact(w, nor, v);
    VariantRange(v);
    CompleteExact(nor, v, Payload(w, nor, v).value);
  }

  lemma VariantRange(v: Variant)
    requires VariantOk(v)
    ensures InRange(v.offset, v.size, NOR_SIZE) && v.size == XBL_SIZE && InRange(0, v.template.size, v.size)
  {
    hide Hash, ReadsOk, DecodeOk, CopiesOk;
  }

  /** The first variant that is not skipped. */
  lemma {:induction false} FirstChosen(w: World, nor: seq<byte>, parts: Parts, variants: seq<Variant>) returns (i: nat)
    requires First(w, nor, parts, variants).Ok?
    ensures i < |variants| && Try(w, nor, parts, variants[i]) == Done(First(w, nor, parts, variants))
    ensures forall j :: 0 <= j < i ==> Try(w, nor, parts, variants[j]).Skip?
  {
    hide Try;
    i := 0;
    if Try(w, nor, parts, variants[0]).Skip? {
      i := FirstChosen(w, nor, parts, variants[1..]);
      assert variants[1..][i] == variants[i + 1];
      forall j | 0 <= j < i + 1
        ensures Try(w, nor, parts, variants[j]).Skip?
      {
        if j > 0 { assert variants[1..][j - 1] == variants[j]; }
      }
      i := i + 1;
    }
  }

  /** A changed result rewrites the XBL partition as its variant says; an unchanged one returns what is there. */
  lemma PrepareExact(w: World, nor: seq<byte>, m: Manifest) returns (i: nat)
    requires Prepare(w, nor, m).Ok?
    ensures i < |m.variants| && Partitions(w, nor).Ok? && |nor| == NOR_SIZE
    ensures var p, parts, v := Prepare(w, nor, m).value, Partitions(w, nor).value, m.variants[i];
            if p.changed then Rewrites(w, nor, parts, v, p)
            else Matches(w, nor, parts, v) && Current(w, nor, v) && p == Prepared(v.offset, Existing(nor, v), false, w.sha(nor))
  {
    hide VariantOk, Partitions, Build, Matches, Current, Pristine, Rewrites;
    PartitionsLength(w, nor);
    var parts := Partitions(w, nor).value;
    i := FirstChosen(w, nor, parts, m.variants);
    var v := m.variants[i];
    BuiltChanged(w, nor, v);
    if Pristine(w, nor, v) && Matches(w, nor, parts, v) && !Current(w, nor, v) && Build(w, nor, v).Ok? {
      BuildExact(w, nor, parts, v);
    }
  }

  lemma BuiltChanged(w: World, nor: seq<byte>, v: Variant)
    ensures Build(w, nor, v).Ok? ==> Build(w, nor, v).value.changed
  {
    hide Payload, Complete, Assign;
  }

  lemma PartitionsLength(w: World, nor: seq<byte>)
    ensures Partitions(w, nor).Ok? ==> |nor| == NOR_SIZE
  {
    hide Entries, HeaderOk;
  }

  lemma FrameOf(w: World, nor: seq<byte>, parts: Parts, v: Variant, p: Prepared)
    requires Partitions(w, nor) == Ok(parts) && Rewrites(w, nor, parts, v, p)
    ensures var now := Rewritten(nor, p);
            && |now| == |nor| == NOR_SIZE
            && TABLE_END <= p.offset && p.offset + XBL_SIZE <= LAST * SECTOR
            && now[p.offset..p.offset + XBL_SIZE] == p.xbl
            && (forall k :: 0 <= k < NOR_SIZE && !(v.offset <= k < v.offset + v.template.size) ==> now[k] == nor[k])
            && Partitions(w, now) == Ok(parts)
  {
    hide Partitions, InputsMatch, Current, Pristine, Assembled, Sources, Assign, Splice;
    PartitionsBounded(w, nor);
    assert PartOk(parts["XBL"]);
    AssignExact(nor, p.offset, XBL_SIZE, p.xbl);
    RewriteFrame(nor, p.offset, p.xbl, v.template.size);
    var now := Rewritten(nor, p);
    assert now == Splice(nor, p.offset, p.xbl);
    assert nor[..TABLE_END] == now[..TABLE_END];
    PartitionsPrefix(w, nor, now);
  }

  /**
   * Writing a changed result touches the first bytes of the XBL partition and nothing else: not the rest of
   * that partition, not the table at the start of the NOR, not its backup at the end.
   */
  lemma NorFrame(w: World, nor: seq<byte>, m: Manifest) returns (i: nat)
    requires Prepare(w, nor, m).Ok? && Prepare(w, nor, m).value.changed
    ensures i < |m.variants|
    ensures var p, v := Prepare(w, nor, m).value, m.variants[i];
            var now := Rewritten(nor, p);
            && |now| == |nor| == NOR_SIZE
            && TABLE_END <= p.offset == v.offset && p.offset + XBL_SIZE <= LAST * SECTOR
            && (forall k :: 0 <= k < NOR_SIZE && !(v.offset <= k < v.offset + v.template.size) ==> now[k] == nor[k])
            && Partitions(w, now) == Partitions(w, nor)
  {
    i := PrepareExact(w, nor, m);
    FrameOf(w, nor, Partitions(w, nor).value, m.variants[i], Prepare(w, nor, m).value);
    hide Partitions, Matches, Current, Pristine, Assembled, Sources, Assign, Prepare;
  }

  lemma RewriteFrame(nor: seq<byte>, at: nat, xbl: seq<byte>, size: nat)
    requires size <= |xbl| && at + |xbl| <= |nor| && xbl[size..] == nor[at + size..at + |xbl|]
    ensures forall k :: 0 <= k < |nor| && !(at <= k < at + size) ==> Splice(nor, at, xbl)[k] == nor[k]
  {
    forall k | 0 <= k < |nor| && !(at <= k < at + size)
      ensures Splice(nor, at, xbl)[k] == nor[k]
    {
      if at + size <= k < at + |xbl| {
        assert xbl[size..][k - at - size] == nor[at + size..at + |xbl|][k - at - size];
      }
    }
  }

  // ---------------------------------------------------------------- a second run

  /** All inputs but XBL match their partitions. */
  predicate OthersMatch(w: World, nor: seq<byte>, parts: Parts, v: Variant) {
    forall i :: 0 <= i < |v.inputs| && v.inputs[i].name != "XBL" ==> InputMatches(w, nor, parts, v.inputs[i])
  }

  /** No two variants match the partitions other than XBL. */
  predicate Unambiguous(w: World, nor: seq<byte>, parts: Parts, variants: seq<Variant>) {
    forall i, j :: 0 <= i < j < |variants| ==>
      !OthersMatch(w, nor, parts, variants[i]) || !OthersMatch(w, nor, parts, variants[j])
  }

  predicate XblApart(parts: Parts) {
    "XBL" in parts && forall name :: name in parts && name != "XBL" ==>
      parts[name].start + parts[name].length <= parts["XBL"].start || parts["XBL"].start + parts["XBL"].length <= parts[name].start
  }

  lemma OtherInputSame(w: World, nor: seq<byte>, now: seq<byte>, parts: Parts, x: Input)
    requires |nor| == |now| == NOR_SIZE && InputOk(x) && XblApart(parts)
    requires forall k :: 0 <= k < NOR_SIZE && !(parts["XBL"].start <= k < parts["XBL"].start + parts["XBL"].length) ==> now[k] == nor[k]
    ensures InputMatches(w, nor, parts, x) <==> InputMatches(w, now, parts, x)
  {
    if x.name in parts && x.name != "XBL" && parts[x.name].start == x.offset && x.size == parts[x.name].length {
      SliceExact(nor, x.offset, x.size);
      SliceExact(now, x.offset, x.size);
      assert nor[x.offset..x.offset + x.size] == now[x.offset..x.offset + x.size];
    }
    hide Slice;
  }

  lemma SecondTry(w: World, nor: seq<byte>, now: seq<byte>, parts: Parts, v: Variant)
    requires |nor| == |now| == NOR_SIZE && VariantOk(v) && XblApart(parts)
    requires forall k :: 0 <= k < NOR_SIZE && !(parts["XBL"].start <= k < parts["XBL"].start + parts["XBL"].length) ==> now[k] == nor[k]
    ensures OthersMatch(w, nor, parts, v) <==> OthersMatch(w, now, parts, v)
    ensures Matches(w, nor, parts, v) <==> Matches(w, now, parts, v)
    ensures Matches(w, now, parts, v) ==> OthersMatch(w, now, parts, v)
  {
    VariantShape(v);
    hide VariantOk, PARTITIONS, Hash, InputMatches, XblApart;
    forall i | 0 <= i < |v.inputs|
      ensures InputMatches(w, nor, parts, v.inputs[i]) <==> InputMatches(w, now, parts, v.inputs[i])
    {
      OtherInputSame(w, nor, now, parts, v.inputs[i]);
    }
  }

  lemma {:induction false} FirstFound(w: World, nor: seq<byte>, parts: Parts, variants: seq<Variant>, i: nat, p: Prepared)
    requires i < |variants| && Try(w, nor, parts, variants[i]) == Done(Ok(p))
    requires forall j :: 0 <= j < i ==> Try(w, nor, parts, variants[j]).Skip?
    ensures First(w, nor, parts, variants) == Ok(p)
  {
    hide Try;
    if i > 0 {
      assert forall j :: 0 <= j < i - 1 ==> variants[1..][j] == variants[j + 1];
      FirstFound(w, nor, parts, variants[1..], i - 1, p);
    }
  }

  /**
   * A second run on the NOR with the result written reports that nothing has to change, when at most one
   * variant matches the partitions other than XBL and none of those overlaps XBL.
   */
  lemma SecondRunUnchanged(w: World, nor: seq<byte>, m: Manifest)
    requires Prepare(w, nor, m).Ok? && Prepare(w, nor, m).value.changed
    requires Partitions(w, nor).Ok? && XblApart(Partitions(w, nor).value)
    requires Unambiguous(w, nor, Partitions(w, nor).value, m.variants)
    ensures var p := Prepare(w, nor, m).value;
            Prepare(w, Rewritten(nor, p), m) == Ok(p.(changed := false))
  {
    hide Partitions, InputsMatch, OthersMatch, Pristine, Sources, Assembled, Slice, Assign, First, XblApart, Accepted, Build, Current;
    var i := PrepareExact(w, nor, m);
    var parts, p := Partitions(w, nor).value, Prepare(w, nor, m).value;
    var now, v := Rewritten(nor, p), m.variants[i];
    FrameOf(w, nor, parts, v, p);
    AcceptedVariants(m);
    CurrentAfter(w, nor, now, parts, v, p);
    forall j | 0 <= j < i
      ensures Try(w, now, parts, m.variants[j]).Skip?
    {
      SecondTry(w, nor, now, parts, m.variants[j]);
      SecondTry(w, nor, now, parts, v);
    }
    FirstFound(w, now, parts, m.variants, i, p.(changed := false));
  }

  lemma AcceptedVariants(m: Manifest)
    requires Accepted(m)
    ensures forall i :: 0 <= i < |m.variants| ==> VariantOk(m.variants[i])
  {
  }

  lemma CurrentAfter(w: World, nor: seq<byte>, now: seq<byte>, parts: Parts, v: Variant, p: Prepared)
    requires VariantOk(v) && XblApart(parts) && Rewrites(w, nor, parts, v, p) && now == Rewritten(nor, p) && |now| == NOR_SIZE
    requires now[p.offset..p.offset + XBL_SIZE] == p.xbl
    requires forall k :: 0 <= k < NOR_SIZE && !(v.offset <= k < v.offset + v.template.size) ==> now[k] == nor[k]
    ensures Try(w, now, parts, v) == Done(Ok(p.(changed := false)))
  {
    hide VariantOk, InputsMatch, Pristine, Sources, Assembled, Assign, XblApart, Slice, Existing, Build;
    SecondTry(w, nor, now, parts, v);
    ExistingExact(now, v);
    SliceExact(p.xbl, 0, v.template.size);
  }
}
