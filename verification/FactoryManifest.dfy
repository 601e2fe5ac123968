/** A signed factory manifest: its checks, the downloaded objects, and the chunk files prepared from them. */
module FactoryManifest {
  import opened Common
  import opened Bytes

  const SECTOR_SIZE := 4096

  /** A downloaded file: scheme and last path element of its URL, size and hash. */
  datatype Object = Object(https: bool, name: string, size: int, sha: string)
  datatype Chunk = Chunk(xz: bool, sha: string, file: Object)
  datatype Op = Erase(offset: int, size: int) | Program(offset: int, size: int, chunk: Chunk) | Unknown
  datatype Payload = Base | Openpilot
  datatype Manifest = Manifest(
    product: string, version: string, manifestVersion: int, sectorSize: int, imageSize: int,
    persistOffset: int, persistSize: int, base: seq<Op>, openpilot: Option<seq<Op>>, programmer: Object)

  /** What the model leaves open: hashes, XZ, the version pattern and the network. */
  datatype World = World(
    sha: seq<byte> -> string,
    unxz: seq<byte> -> Option<seq<byte>>,
    version: string -> bool,
    download: Object -> Option<seq<byte>>)

  // ---------------------------------------------------------------- operations

  predicate ManifestOk(m: Manifest) {
    && m.sectorSize == SECTOR_SIZE && m.manifestVersion == 3
    && m.persistOffset > 0 && m.persistSize > 0
    && m.persistOffset % SECTOR_SIZE == 0 && m.persistSize % SECTOR_SIZE == 0
  }

  predicate OpOk(m: Manifest, op: Op) {
    && !op.Unknown? && op.offset >= 0 && op.size > 0
    && (op.offset >= m.persistOffset + m.persistSize || op.offset + op.size <= m.persistOffset)
    && op.offset % SECTOR_SIZE == 0 && op.size % SECTOR_SIZE == 0
  }

  predicate OpsOk(m: Manifest, ops: seq<Op>) {
    forall i :: 0 <= i < |ops| ==> OpOk(m, ops[i])
  }

  function Ops(m: Manifest, payload: Payload): Option<seq<Op>> {
    if payload == Base then Some(m.base) else m.openpilot
  }

  predicate PayloadOk(m: Manifest, payload: Payload) {
    ManifestOk(m) && Ops(m, payload).Some? && OpsOk(m, Ops(m, payload).value)
  }

  /** `operations_for_payload`. */
  method OperationsFor(m: Manifest, payload: Payload) returns (r: Result<seq<Op>>)
    ensures r == if PayloadOk(m, payload) then Ok(Ops(m, payload).value) else Err
  {
    if m.sectorSize != SECTOR_SIZE || m.manifestVersion != 3 { return Err; }
    if Ops(m, payload).None? { return Err; }
    var ops := Ops(m, payload).value;
    var begin, length := m.persistOffset, m.persistSize;
    if begin <= 0 || length <= 0 || begin % SECTOR_SIZE != 0 || length % SECTOR_SIZE != 0 { return Err; }
    for n := 0 to |ops|
      invariant forall i :: 0 <= i < n ==> OpOk(m, ops[i])
    {
      var op := ops[n];
      if op.Unknown? || op.offset < 0 || op.size <= 0 { return Err; }
      if op.offset < begin + length && op.offset + op.size > begin { return Err; }
      if op.offset % SECTOR_SIZE != 0 || op.size % SECTOR_SIZE != 0 { return Err; }
    }
    r := Ok(ops);
  }

  // ---------------------------------------------------------------- validate_factory

  /** The objects of the program operations, in order. */
  function Objects(ops: seq<Op>): seq<Object> {
    if ops == [] then []
    else
      var op := ops[|ops| - 1];
      Objects(ops[..|ops| - 1]) + if op.Program? then [op.chunk.file] else []
  }

  predicate OpFits(op: Op, size: int) {
    !op.Unknown? && op.offset + op.size <= size && (op.Program? ==> op.chunk.xz && Hash(op.chunk.sha))
  }

  predicate OpsFit(ops: seq<Op>, size: int) {
    forall i :: 0 <= i < |ops| ==> OpFits(ops[i], size)
  }

  predicate ObjectOk(o: Object) {
    && o.size > 0 && Hash(o.sha) && o.https
    && o.name != "" && o.name != "." && o.name != ".." && o.name != "flash.json" && o.name != "flash.json.sig"
  }

  /** Objects that share a file name are the same object. */
  predicate ObjectsOk(objects: seq<Object>) {
    && (forall i :: 0 <= i < |objects| ==> ObjectOk(objects[i]))
    && (forall i, j :: 0 <= i < j < |objects| && objects[i].name == objects[j].name ==> Same(objects[i], objects[j]))
  }

  predicate Same(x: Object, y: Object) {
    x.size == y.size && x.sha == y.sha
  }

  /** The erase operations that open the base payload: everything but the identity region. */
  predicate ErasesComplement(m: Manifest) {
    var end := m.persistOffset + m.persistSize;
    && m.persistOffset > 0 && m.persistSize > 0 && end < m.imageSize
    && |m.base| >= 2 && m.base[0] == Erase(0, m.persistOffset) && m.base[1] == Erase(end, m.imageSize - end)
  }

  predicate PayloadFits(m: Manifest, payload: Payload) {
    PayloadOk(m, payload) && OpsFit(Ops(m, payload).value, m.imageSize)
  }

  function AllObjects(m: Manifest, openpilot: bool): seq<Object>
    requires openpilot ==> m.openpilot.Some?
  {
    [m.programmer] + Objects(m.base) + if openpilot then Objects(m.openpilot.value) else []
  }

  /** The operations of a whole factory flash. */
  function AllOps(m: Manifest, openpilot: bool): seq<Op>
    requires openpilot ==> m.openpilot.Some?
  {
    m.base + if openpilot then m.openpilot.value else []
  }

  predicate FactoryOk(w: World, m: Manifest, openpilot: bool) {
    && m.product == "asius-v0" && w.version(m.version)
    && m.imageSize > 0 && m.imageSize % SECTOR_SIZE == 0 && ErasesComplement(m)
    && PayloadFits(m, Base) && (openpilot ==> PayloadFits(m, Openpilot))
    && ObjectsOk(AllObjects(m, openpilot))
  }

  method CheckPayload(m: Manifest, payload: Payload) returns (r: Result<seq<Object>>)
    ensures r == if PayloadFits(m, payload) then Ok(Objects(Ops(m, payload).value)) else Err
  {
    hide PayloadOk, Hash;
    var listed := OperationsFor(m, payload);
    if listed.Err? { return Err; }
    var ops := listed.value;
    var objects: seq<Object> := [];
    assert PayloadOk(m, payload) ==> Ops(m, payload).Some? by { PayloadListed(m, payload); }
    assert !ListsUnknown(ops) by { NoneUnknown(m, payload); }
    for n := 0 to |ops|
      invariant OpsFit(ops[..n], m.imageSize) && objects == Objects(ops[..n])
    {
      assert ops[..n + 1][..n] == ops[..n];
      var op := ops[n];
      if op.offset + op.size > m.imageSize {
        assert !OpFits(ops[n], m.imageSize);
        return Err;
      }
      if op.Program? {
        if !op.chunk.xz || !Hash(op.chunk.sha) {
          assert !OpFits(ops[n], m.imageSize);
          return Err;
        }
        objects := objects + [op.chunk.file];
      }
      assert OpFits(ops[n], m.imageSize);
    }
    assert ops[..|ops|] == ops;
    r := Ok(objects);
  }

  predicate ListsUnknown(ops: seq<Op>) {
    exists i :: 0 <= i < |ops| && ops[i].Unknown?
  }

  lemma PayloadListed(m: Manifest, payload: Payload)
    requires PayloadOk(m, payload)
    ensures Ops(m, payload).Some?
  {
  }

  lemma NoneUnknown(m: Manifest, payload: Payload)
    requires PayloadOk(m, payload)
    ensures !ListsUnknown(Ops(m, payload).value)
  {
    var ops := Ops(m, payload).value;
    assert forall i :: 0 <= i < |ops| ==> OpOk(m, ops[i]);
  }

  method CheckObjects(objects: seq<Object>) returns (ok: bool)
    ensures ok <==> ObjectsOk(objects)
  {
    hide ObjectOk;
    var names: map<string, Object> := map[];
    for n := 0 to |objects|
      invariant ObjectsOk(objects[..n])
      invariant forall name :: name in names <==> exists i :: 0 <= i < n && objects[i].name == name
      invariant forall i :: 0 <= i < n ==> objects[i].name in names && Same(names[objects[i].name], objects[i])
    {
      var o := objects[n];
      if !ObjectOk(o) { return false; }
      if o.name in names && !Same(names[o.name], o) {
        var i :| 0 <= i < n && objects[i].name == o.name;
        assert !Same(objects[i], objects[n]);
        return false;
      }
      names := names[o.name := o];
    }
    assert objects[..|objects|] == objects;
    ok := true;
  }

  /** `validate_factory`. */
  method ValidateFactory(w: World, m: Manifest, openpilot: bool) returns (r: Result<seq<Object>>)
    ensures r == if FactoryOk(w, m, openpilot) then Ok(AllObjects(m, openpilot)) else Err
  {
    hide PayloadOk, OpsFit, Objects, ObjectsOk;
    if m.product != "asius-v0" || !w.version(m.version) { return Err; }
    if m.imageSize <= 0 || m.imageSize % SECTOR_SIZE != 0 { return Err; }
    var end := m.persistOffset + m.persistSize;
    if m.persistOffset <= 0 || m.persistSize <= 0 || end >= m.imageSize { return Err; }
    if m.base[..Min(2, |m.base|)] != [Erase(0, m.persistOffset), Erase(end, m.imageSize - end)] {
      assert |m.base| >= 2 ==> m.base[..2] == [m.base[0], m.base[1]];
      return Err;
    }
    assert m.base[..2][0] == m.base[0] && m.base[..2][1] == m.base[1];
    var base := CheckPayload(m, Base);
    if base.Err? { return Err; }
    var objects := [m.programmer] + base.value;
    if openpilot {
      var more := CheckPayload(m, Openpilot);
      if more.Err? { return Err; }
      assert m.openpilot.Some? by { PayloadListed(m, Openpilot); }
      objects := objects + more.value;
    } else {
      assert objects + [] == objects;
    }
    var ok := CheckObjects(objects);
    if !ok { return Err; }
    r := Ok(objects);
  }

  // ---------------------------------------------------------------- downloads

  type Files = map<string, seq<byte>>

  predicate Verified(w: World, files: Files, o: Object) {
    o.name in files && |files[o.name]| == o.size && w.sha(files[o.name]) == o.sha
  }

  /** `Downloads.verified` for every object in turn: at the end all of them are there, also after overwrites. */
  method DownloadAll(w: World, cached: Files, objects: seq<Object>) returns (r: Result<Files>)
    requires ObjectsOk(objects)
    ensures r.Ok? ==> forall i :: 0 <= i < |objects| ==> Verified(w, r.value, objects[i])
    ensures r.Ok? ==> forall name :: name in cached && (forall i :: 0 <= i < |objects| ==> objects[i].name != name) ==>
                        name in r.value && r.value[name] == cached[name]
  {
    var files := cached;
    for n := 0 to |objects|
      invariant forall i :: 0 <= i < n ==> Verified(w, files, objects[i])
      invariant forall name :: name in cached && (forall i :: 0 <= i < |objects| ==> objects[i].name != name) ==>
                  name in files && files[name] == cached[name]
    {
      var o := objects[n];
      if !Verified(w, files, o) {
        var bytes := w.download(o);
        if bytes.None? || |bytes.value| != o.size || w.sha(bytes.value) != o.sha { return Err; }
        ghost var before := files;
        files := files[o.name := bytes.value];
        forall i | 0 <= i < n
          ensures Verified(w, files, objects[i])
        {
          assert Verified(w, before, objects[i]);
          assert objects[i].name == o.name ==> Same(objects[i], objects[n]);
        }
      }
    }
    r := Ok(files);
  }
}
