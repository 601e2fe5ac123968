/** Chunk files: the verified cache, its preparation, and the pairing of program operations with chunks. */
module FactoryChunks {
  import opened Common
  import opened Bytes
  import opened FactoryManifest
  import BootControl
  import BootControlCodec

  datatype File = File(bytes: seq<byte>, mtime: int)
  datatype Entry = Entry(name: string, sha: string, size: int, mtime: int)
  datatype Marker = Marker(version: int, payload: Payload, payloadSha: string, manifestSha: string,
                           files: seq<Entry>, rawSha: string)

  /** A prepared directory: its marker, the rawprogram XML and every `chunk-*.img`. */
  datatype Dir = Dir(marker: Option<Marker>, raw: Option<seq<byte>>, chunks: map<string, File>)

  /** The two digests that identify a payload: of its operations, and of the whole manifest for old markers. */
  datatype Key = Key(payload: Payload, payloadSha: string, manifestSha: string)

  // ---------------------------------------------------------------- chunk names

  function Noughts(n: nat): (s: string)
    ensures |s| == n
  {
    if n == 0 then "" else Noughts(n - 1) + "0"
  }

  /** The index in at least five digits. */
  function Padded(k: nat): string {
    var s := BootControl.Decimal(k);
    Noughts(if |s| < 5 then 5 - |s| else 0) + s
  }

  function ChunkName(k: nat): string {
    "chunk-" + Padded(k) + ".img"
  }

  lemma {:induction false} NoughtsValue(n: nat)
    requires n > 0
    ensures BootControl.Digits(Noughts(n)) == Ok(0) && Noughts(n)[n - 1] == '0'
  {
    if n > 1 {
      NoughtsValue(n - 1);
      CharBehind(Noughts(n - 1), '0');
      hide BootControl.Digits;
    } else {
      assert Noughts(1) == "" + "0" == "0" == BootControl.Decimal(0);
      BootControlCodec.DigitsOfDecimal(0);
    }
  }

  lemma {:induction false} NoughtsKeepValue(n: nat, k: nat)
    ensures BootControl.Digits(Noughts(n) + BootControl.Decimal(k)) == Ok(k)
  {
    hide BootControl.Digits, BootControl.Decimal;
    if k >= 10 {
      var front := Noughts(n) + BootControl.Decimal(k / 10);
      NoughtsKeepValue(n, k / 10);
      assert BootControl.IsDigit(front[|front| - 1]);
      DigitBehind(front, k % 10);
      DecimalSplit(k);
      assert Noughts(n) + BootControl.Decimal(k) == front + ['0' + (k % 10) as char];
    } else if n > 0 {
      NoughtsValue(n);
      DigitBehind(Noughts(n), k);
      DecimalSplit(k);
    } else {
      assert Noughts(0) + BootControl.Decimal(k) == BootControl.Decimal(k);
      BootControlCodec.DigitsOfDecimal(k);
    }
  }

  lemma DecimalSplit(k: nat)
    ensures BootControl.Decimal(k)
         == if k < 10 then ['0' + k as char] else BootControl.Decimal(k / 10) + ['0' + (k % 10) as char]
  {
  }

  /** A digit behind a string of digits. */
  lemma {:induction false} DigitBehind(s: string, d: nat)
    requires s != "" && s[|s| - 1] != '_' && d < 10 && BootControl.Digits(s).Ok?
    ensures BootControl.Digits(s + ['0' + d as char]) == Ok(10 * BootControl.Digits(s).value + d)
  {
    CharBehind(s, '0' + d as char);
    hide BootControl.Digits;
  }

  lemma {:induction false} CharBehind(s: string, c: char)
    requires s != "" && s[|s| - 1] != '_' && BootControl.IsDigit(c) && BootControl.Digits(s).Ok?
    ensures BootControl.Digits(s + [c]) == Ok(10 * BootControl.Digits(s).value + (c - '0') as nat)
  {
    var whole := s + [c];
    assert whole[..|whole| - 1] == s && whole[|whole| - 1] == c && whole != "";
  }

  /** Different chunks have different names. */
  lemma NamesDistinct(j: nat, k: nat)
    requires ChunkName(j) == ChunkName(k)
    ensures j == k
  {
    var x, y := ChunkName(j), ChunkName(k);
    assert x[6..|x| - 4] == Padded(j) && y[6..|y| - 4] == Padded(k);
    var s, t := BootControl.Decimal(j), BootControl.Decimal(k);
    NoughtsKeepValue(if |s| < 5 then 5 - |s| else 0, j);
    NoughtsKeepValue(if |t| < 5 then 5 - |t| else 0, k);
  }

  // ---------------------------------------------------------------- the cache

  /** `expected_programs`. */
  function Programs(ops: seq<Op>): (ps: seq<Op>)
    ensures forall i :: 0 <= i < |ps| ==> ps[i].Program?
  {
    if ops == [] then []
    else var op := ops[|ops| - 1]; Programs(ops[..|ops| - 1]) + if op.Program? then [op] else []
  }

  predicate ChunkOk(w: World, chunks: map<string, File>, programs: seq<Op>, k: nat)
    requires k < |programs| && programs[k].Program?
  {
    && ChunkName(k) in chunks
    && var file := chunks[ChunkName(k)]; |file.bytes| == programs[k].size && w.sha(file.bytes) == programs[k].chunk.sha
  }

  predicate ChunksOk(w: World, chunks: map<string, File>, programs: seq<Op>)
    requires forall i :: 0 <= i < |programs| ==> programs[i].Program?
  {
    forall k :: 0 <= k < |programs| ==> ChunkOk(w, chunks, programs, k)
  }

  /** The marker entry that describes chunk `k` as it is. */
  predicate EntryOk(chunks: map<string, File>, programs: seq<Op>, k: nat, e: Entry)
    requires k < |programs| && programs[k].Program?
  {
    && ChunkName(k) in chunks
    && var file := chunks[ChunkName(k)]; e == Entry(ChunkName(k), programs[k].chunk.sha, |file.bytes|, file.mtime)
  }

  function ChunkNames(n: nat): set<string> {
    set k | 0 <= k < n :: ChunkName(k)
  }

  predicate MarkerFits(marker: Marker, key: Key) {
    && marker.payload == key.payload
    && if marker.version == 2 then marker.payloadSha == key.payloadSha
       else marker.version == 1 && marker.manifestSha == key.manifestSha
  }

  /** The marker describes the directory, and every chunk is the one its operation asks for. */
  predicate CacheValid(w: World, dir: Dir, key: Key, programs: seq<Op>)
    requires forall i :: 0 <= i < |programs| ==> programs[i].Program?
  {
    && dir.marker.Some? && MarkerFits(dir.marker.value, key) && ChunksOk(w, dir.chunks, programs)
    && |dir.marker.value.files| == |programs|
    && (forall k :: 0 <= k < |programs| ==> EntryOk(dir.chunks, programs, k, dir.marker.value.files[k]))
    && dir.chunks.Keys == ChunkNames(|programs|)
    && dir.raw.Some? && dir.marker.value.rawSha == w.sha(dir.raw.value)
  }

  /** `prepared_cache_valid`. */
  method CheckCache(w: World, dir: Dir, key: Key, programs: seq<Op>) returns (valid: bool)
    requires forall i :: 0 <= i < |programs| ==> programs[i].Program?
    ensures valid <==> CacheValid(w, dir, key, programs)
  {
    hide ChunkName, MarkerFits;
    if dir.marker.None? || !MarkerFits(dir.marker.value, key) { return false; }
    var marker := dir.marker.value;
    var expected: seq<Entry> := [];
    for n := 0 to |programs|
      invariant |expected| == n && forall k :: 0 <= k < n ==> ChunkOk(w, dir.chunks, programs, k)
      invariant forall k :: 0 <= k < n ==> EntryOk(dir.chunks, programs, k, expected[k])
    {
      if !ChunkOk(w, dir.chunks, programs, n) { return false; }
      var file := dir.chunks[ChunkName(n)];
      expected := expected + [Entry(ChunkName(n), programs[n].chunk.sha, |file.bytes|, file.mtime)];
    }
    if marker.files != expected {
      if |marker.files| == |programs| {
        var k :| 0 <= k < |programs| && marker.files[k] != expected[k];
        assert !EntryOk(dir.chunks, programs, k, marker.files[k]);
      }
      return false;
    }
    if dir.chunks.Keys != ChunkNames(|programs|) || dir.raw.None? { return false; }
    valid := marker.rawSha == w.sha(dir.raw.value);
  }

  // ---------------------------------------------------------------- preparation

  /** The object of one program operation, verified before and after decompression. */
  function Unpacked(w: World, files: Files, op: Op): Result<seq<byte>>
    requires op.Program?
  {
    var _ :- Need(Verified(w, files, op.chunk.file));
    var bytes := w.unxz(files[op.chunk.file.name]);
    var _ :- Need(bytes.Some? && |bytes.value| == op.size && w.sha(bytes.value) == op.chunk.sha);
    Ok(bytes.value)
  }

  /**
   * `prepare_payload`: a valid directory is kept, an old marker is renewed, anything else is built afresh. A
   * directory that comes out is always valid, so the next preparation reuses it.
   */
  method PreparePayload(w: World, files: Files, dir: Dir, key: Key, ops: seq<Op>, raw: seq<byte>, now: int)
    returns (r: Result<Dir>, reused: bool)
    ensures reused <==> CacheValid(w, dir, key, Programs(ops))
    ensures reused ==> r.Ok? && r.value.chunks == dir.chunks && r.value.raw == dir.raw
    ensures r.Ok? ==> CacheValid(w, r.value, key, Programs(ops)) && r.value.marker.value.version == 2
    ensures !reused ==> (r.Ok? <==> forall k :: 0 <= k < |Programs(ops)| ==> Unpacked(w, files, Programs(ops)[k]).Ok?)
  {
    var programs := Programs(ops);
    hide Programs, ChunkName, Unpacked;
    reused := CheckCache(w, dir, key, programs);
    if reused {
      r := Ok(dir.(marker := Some(dir.marker.value.(version := 2, payloadSha := key.payloadSha))));
      return;
    }
    var chunks: map<string, File> := map[];
    var entries: seq<Entry> := [];
    for n := 0 to |programs|
      invariant |entries| == n && chunks.Keys == ChunkNames(n)
      invariant forall k :: 0 <= k < n ==> ChunkOk(w, chunks, programs, k) && EntryOk(chunks, programs, k, entries[k])
      invariant forall k :: 0 <= k < n ==> Unpacked(w, files, programs[k]).Ok?
    {
      var bytes := Unpacked(w, files, programs[n]);
      if bytes.Err? {
        r := Err;
        return;
      }
      UnpackedExact(w, files, programs[n]);
      ghost var before := chunks;
      chunks := chunks[ChunkName(n) := File(bytes.value, now)];
      entries := entries + [Entry(ChunkName(n), programs[n].chunk.sha, |bytes.value|, now)];
      NamesGrow(n);
      ChunksStay(w, before, chunks, programs, entries, n);
    }
    r := Ok(Dir(Some(Marker(2, key.payload, key.payloadSha, key.manifestSha, entries, w.sha(raw))), Some(raw), chunks));
  }

  lemma UnpackedExact(w: World, files: Files, op: Op)
    requires op.Program? && Unpacked(w, files, op).Ok?
    ensures var bytes := Unpacked(w, files, op).value; |bytes| == op.size && w.sha(bytes) == op.chunk.sha
  {
  }

  lemma NamesGrow(n: nat)
    ensures ChunkNames(n + 1) == ChunkNames(n) + {ChunkName(n)}
  {
    hide ChunkName;
    assert ChunkName(n) in ChunkNames(n + 1);
  }

  /** A new chunk leaves the earlier ones alone. */
  lemma ChunksStay(w: World, before: map<string, File>, after: map<string, File>, programs: seq<Op>, entries: seq<Entry>, n: nat)
    requires n < |programs| && n <= |entries| && (forall i :: 0 <= i < |programs| ==> programs[i].Program?)
    requires after.Keys == before.Keys + {ChunkName(n)}
    requires forall name :: name in before && name != ChunkName(n) ==> after[name] == before[name]
    requires forall k :: 0 <= k < n ==> ChunkOk(w, before, programs, k) && EntryOk(before, programs, k, entries[k])
    ensures forall k :: 0 <= k < n ==> ChunkOk(w, after, programs, k) && EntryOk(after, programs, k, entries[k])
  {
    hide ChunkName;
    forall k | 0 <= k < n
      ensures ChunkOk(w, after, programs, k) && EntryOk(after, programs, k, entries[k])
    {
      assert ChunkOk(w, before, programs, k) && EntryOk(before, programs, k, entries[k]);
      if ChunkName(k) == ChunkName(n) { NamesDistinct(k, n); }
    }
  }

  // ---------------------------------------------------------------- pairing

  datatype Step = Step(op: Op, chunk: Option<seq<byte>>)

  /** Each program operation comes with a chunk of its size and hash, each erase without one. */
  predicate Paired(w: World, steps: seq<Step>, ops: seq<Op>) {
    |steps| == |ops| && forall i :: 0 <= i < |ops| ==> StepOk(w, steps[i], ops[i])
  }

  predicate StepOk(w: World, step: Step, op: Op) {
    && step.op == op
    && if op.Program? then step.chunk.Some? && |step.chunk.value| == op.size && w.sha(step.chunk.value) == op.chunk.sha
       else step.chunk.None?
  }

  /** Counting programs on the way gives each its own place among all programs. */
  lemma {:induction false} ProgramRank(ops: seq<Op>, i: nat)
    requires i < |ops| && ops[i].Program?
    ensures |Programs(ops[..i])| < |Programs(ops)| && Programs(ops)[|Programs(ops[..i])|] == ops[i]
  {
    var n := |ops| - 1;
    if i < n {
      assert ops[..n][..i] == ops[..i];
      ProgramRank(ops[..n], i);
    }
  }

  /** `prepare_operations` for one payload: an index counts the programs, and picks the chunk of each. */
  method PairOperations(w: World, dir: Dir, ops: seq<Op>) returns (steps: seq<Step>)
    requires ChunksOk(w, dir.chunks, Programs(ops))
    ensures Paired(w, steps, ops)
    ensures forall i :: 0 <= i < |ops| && ops[i].Program? ==>
      var name := ChunkName(|Programs(ops[..i])|); name in dir.chunks && steps[i].chunk == Some(dir.chunks[name].bytes)
  {
    steps := [];
    var index := 0;
    hide ChunkName;
    for n := 0 to |ops|
      invariant |steps| == n && index == |Programs(ops[..n])|
      invariant forall i :: 0 <= i < n ==> StepOk(w, steps[i], ops[i])
      invariant forall i :: 0 <= i < n && ops[i].Program? ==>
        var name := ChunkName(|Programs(ops[..i])|); name in dir.chunks && steps[i].chunk == Some(dir.chunks[name].bytes)
    {
      var op := ops[n];
      assert ops[..n + 1][..n] == ops[..n];
      if op.Program? {
        ProgramRank(ops, n);
        assert ChunkOk(w, dir.chunks, Programs(ops), index);
        steps := steps + [Step(op, Some(dir.chunks[ChunkName(index)].bytes))];
        index := index + 1;
      } else {
        steps := steps + [Step(op, None)];
      }
    }
  }

  lemma PairedAppend(w: World, s: seq<Step>, x: seq<Op>, t: seq<Step>, y: seq<Op>)
    requires Paired(w, s, x) && Paired(w, t, y)
    ensures Paired(w, s + t, x + y)
  {
    hide StepOk;
  }

  /** What one call of the preparation is given: the directory of a payload, its digests and its XML. */
  datatype Site = Site(dir: Dir, key: Key, raw: seq<byte>)

  method PrepareOne(w: World, files: Files, m: Manifest, payload: Payload, site: Site, now: int) returns (r: Result<seq<Step>>)
    ensures r.Ok? ==> PayloadOk(m, payload) && Paired(w, r.value, Ops(m, payload).value)
  {
    hide Paired, CacheValid, ChunksOk, Programs;
    var ops := OperationsFor(m, payload);
    if ops.Err? { return Err; }
    var dir, _ := PreparePayload(w, files, site.dir, site.key, ops.value, site.raw, now);
    if dir.Err? { return Err; }
    CachedChunks(w, dir.value, site.key, Programs(ops.value));
    var steps := PairOperations(w, dir.value, ops.value);
    r := Ok(steps);
  }

  lemma CachedChunks(w: World, dir: Dir, key: Key, programs: seq<Op>)
    requires (forall i :: 0 <= i < |programs| ==> programs[i].Program?) && CacheValid(w, dir, key, programs)
    ensures ChunksOk(w, dir.chunks, programs)
  {
  }

  /** `prepare_operations`: every operation in order, every program with the chunk made for it. */
  method PrepareOperations(w: World, files: Files, m: Manifest, openpilot: bool, base: Site, extra: Site, now: int)
    returns (r: Result<seq<Step>>)
    ensures r.Ok? ==> (openpilot ==> m.openpilot.Some?) && Paired(w, r.value, AllOps(m, openpilot))
  {
    hide Paired;
    var steps := PrepareOne(w, files, m, Base, base, now);
    if steps.Err? { return Err; }
    if openpilot {
      var more := PrepareOne(w, files, m, Openpilot, extra, now);
      if more.Err? { return Err; }
      PairedAppend(w, steps.value, m.base, more.value, m.openpilot.value);
      return Ok(steps.value + more.value);
    }
    assert m.base + [] == m.base;
    r := steps;
  }
}
