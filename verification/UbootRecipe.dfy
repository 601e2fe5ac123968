/** Building a U-Boot XBL image from a NOR backup by a recipe: validated intervals, in-place copies, idempotence. */
module UbootRecipe {
  import opened Common

  const NOR_SIZE := 0x200_0000
  const SECTOR := 4096
  const XBL_SIZE := 0x60_0000
  const PARTITIONS := {"XBL", "XBL_CONFIG", "AOP", "TZ", "DEVCFG", "HYP", "QUP", "TZAPPS", "CPUCP", "SHRM", "PLAT"}
  const KEY := 0x5a

  datatype Input = Input(name: string, offset: int, size: int, sha: string)
  datatype Decoding = Decoding(name: string, source: string, offset: int, size: int, output: int, sha: string)
  datatype Copy = Copy(source: string, offset: int, size: int, target: int, xor: int)
  datatype Template = Template(url: string, size: int, sha: string)
  datatype Variant = Variant(offset: int, size: int, template: Template, sha: string,
                             inputs: seq<Input>, decode: seq<Decoding>, copies: seq<Copy>)
  datatype Manifest = Manifest(version: int, product: string, norSize: int, core: string, variants: seq<Variant>)

  // ---------------------------------------------------------------- what a manifest must satisfy

  /** `check_range`. */
  predicate InRange(offset: int, size: int, limit: int) {
    offset >= 0 && size > 0 && offset + size <= limit
  }

  predicate InputOk(x: Input) {
    InRange(x.offset, x.size, NOR_SIZE) && x.name in PARTITIONS && Hash(x.sha)
  }

  predicate Distinct(inputs: seq<Input>) {
    forall i, j :: 0 <= i < j < |inputs| ==> inputs[i].name != inputs[j].name
  }

  predicate InputsOk(inputs: seq<Input>) {
    Distinct(inputs) && forall i :: 0 <= i < |inputs| ==> InputOk(inputs[i])
  }

  predicate ReadsOk(inputs: seq<Input>) {
    |inputs| == |PARTITIONS| && InputsOk(inputs)
  }

  function Sizes(inputs: seq<Input>): map<string, int> {
    if inputs == [] then map[]
    else var x := inputs[|inputs| - 1]; Sizes(inputs[..|inputs| - 1])[x.name := x.size]
  }

  predicate DecodingOk(sizes: map<string, int>, d: Decoding) {
    && d.source in sizes && d.name !in sizes
    && InRange(d.offset, d.size, sizes[d.source]) && InRange(0, d.output, NOR_SIZE) && Hash(d.sha)
  }

  predicate DecodeOk(sizes: map<string, int>, decode: seq<Decoding>) {
    |decode| <= 1 && (decode != [] ==> DecodingOk(sizes, decode[0]))
  }

  function Decoded(sizes: map<string, int>, decode: seq<Decoding>): map<string, int> {
    if decode == [] then sizes else sizes[decode[0].name := decode[0].output]
  }

  predicate CopyOk(sizes: map<string, int>, c: Copy, limit: int) {
    && c.source in sizes && (c.xor == 0 || c.xor == KEY)
    && InRange(c.offset, c.size, sizes[c.source]) && InRange(c.target, c.size, limit)
  }

  predicate Clear(c: Copy, d: Copy) {
    c.target >= d.target + d.size || c.target + c.size <= d.target
  }

  predicate CopiesOk(sizes: map<string, int>, copies: seq<Copy>, limit: int) {
    && (forall i :: 0 <= i < |copies| ==> CopyOk(sizes, copies[i], limit))
    && (forall i, j :: 0 <= i < j < |copies| ==> Clear(copies[j], copies[i]))
  }

  predicate VariantOk(v: Variant) {
    && InRange(v.offset, v.size, NOR_SIZE) && v.size == XBL_SIZE && v.offset % SECTOR == 0
    && InRange(0, v.template.size, v.size) && v.template.size % SECTOR == 0 && "https://" <= v.template.url
    && Hash(v.template.sha) && Hash(v.sha)
    && ReadsOk(v.inputs) && DecodeOk(Sizes(v.inputs), v.decode)
    && 0 < |v.copies| < 64 && CopiesOk(Decoded(Sizes(v.inputs), v.decode), v.copies, v.template.size)
  }

  predicate Accepted(m: Manifest) {
    && m.version == 1 && m.product == "asius-v0" && m.norSize == NOR_SIZE && Hash(m.core)
    && 0 < |m.variants| <= 16 && forall i :: 0 <= i < |m.variants| ==> VariantOk(m.variants[i])
  }

  /** The names met so far. */
  lemma {:induction false} SizesAt(inputs: seq<Input>)
    requires Distinct(inputs)
    ensures forall i :: 0 <= i < |inputs| ==> inputs[i].name in Sizes(inputs) && Sizes(inputs)[inputs[i].name] == inputs[i].size
    ensures forall name :: name in Sizes(inputs) ==> exists i :: 0 <= i < |inputs| && inputs[i].name == name
    ensures |Sizes(inputs)| == |inputs|
  {
    if inputs != [] {
      var n := |inputs| - 1;
      var front := inputs[..n];
      SizesAt(front);
      forall i | 0 <= i < |inputs|
        ensures inputs[i].name in Sizes(inputs) && Sizes(inputs)[inputs[i].name] == inputs[i].size
      {
        if i < n { assert front[i] == inputs[i]; }
      }
      forall name | name in Sizes(inputs)
        ensures exists i :: 0 <= i < |inputs| && inputs[i].name == name
      {
        if name in Sizes(front) {
          var i :| 0 <= i < n && front[i].name == name;
          assert inputs[i].name == name;
        } else {
          assert inputs[n].name == name;
        }
      }
      assert inputs[n].name !in Sizes(front);
    }
  }

  /** Eleven distinct names of eleven possible ones are all of them. */
  lemma ReadsCover(inputs: seq<Input>)
    requires ReadsOk(inputs)
    ensures Sizes(inputs).Keys == PARTITIONS
  {
    SizesAt(inputs);
    var names := Sizes(inputs).Keys;
    assert names <= PARTITIONS;
    assert |names| == |PARTITIONS|;
    var rest := PARTITIONS - names;
    assert PARTITIONS == names + rest;
    assert |PARTITIONS| == |names| + |rest|;
    assert rest == {};
  }

  /** One more input: its name must be new. */
  lemma NextInput(inputs: seq<Input>, n: nat)
    requires n < |inputs| && InputsOk(inputs[..n])
    ensures InputsOk(inputs[..n + 1]) <==> InputOk(inputs[n]) && inputs[n].name !in Sizes(inputs[..n])
    ensures Sizes(inputs[..n + 1]) == Sizes(inputs[..n])[inputs[n].name := inputs[n].size]
    ensures InputsOk(inputs) ==> InputsOk(inputs[..n + 1])
  {
    hide InputOk, Sizes;
    SizesAt(inputs[..n]);
    assert inputs[..n + 1][..n] == inputs[..n];
    assert Sizes(inputs[..n + 1]) == Sizes(inputs[..n])[inputs[n].name := inputs[n].size] by { SizesStep(inputs[..n + 1]); }
    if inputs[n].name in Sizes(inputs[..n]) {
      var i :| 0 <= i < n && inputs[..n][i].name == inputs[n].name;
      assert inputs[..n + 1][i].name == inputs[..n + 1][n].name;
    } else {
      assert forall i :: 0 <= i < n ==> inputs[..n + 1][i] == inputs[..n][i];
    }
  }

  lemma SizesStep(inputs: seq<Input>)
    requires inputs != []
    ensures var x := inputs[|inputs| - 1]; Sizes(inputs) == Sizes(inputs[..|inputs| - 1])[x.name := x.size]
  {
  }

  method CheckReads(inputs: seq<Input>) returns (r: Result<map<string, int>>)
    ensures r == if ReadsOk(inputs) then Ok(Sizes(inputs)) else Err
  {
    if |inputs| != |PARTITIONS| { return Err; }
    var sizes: map<string, int> := map[];
    hide PARTITIONS, Hash, InputsOk;
    assert InputsOk(inputs[..0]) by { assert inputs[..0] == []; NoInputs(); }
    for n := 0 to |inputs|
      invariant sizes == Sizes(inputs[..n]) && InputsOk(inputs[..n])
    {
      var x := inputs[n];
      NextInput(inputs, n);
      if !InRange(x.offset, x.size, NOR_SIZE) { return Err; }
      if x.name !in PARTITIONS || x.name in sizes || !Hash(x.sha) { return Err; }
      sizes := sizes[x.name := x.size];
    }
    assert inputs[..|inputs|] == inputs;
    r := Ok(sizes);
  }

  lemma NoInputs()
    ensures InputsOk([])
  {
  }

  method CheckDecode(known: map<string, int>, decode: seq<Decoding>) returns (r: Result<map<string, int>>)
    ensures r == if DecodeOk(known, decode) then Ok(Decoded(known, decode)) else Err
  {
    if |decode| > 1 { return Err; }
    var sizes := known;
    for n := 0 to |decode|
      invariant sizes == Decoded(known, decode[..n])
      invariant n > 0 ==> DecodingOk(known, decode[0])
    {
      if !DecodingOk(sizes, decode[n]) { return Err; }
      sizes := sizes[decode[n].name := decode[n].output];
    }
    assert decode[..|decode|] == decode;
    r := Ok(sizes);
  }

  method CheckCopies(sizes: map<string, int>, copies: seq<Copy>, limit: int) returns (ok: bool)
    ensures ok <==> 0 < |copies| < 64 && CopiesOk(sizes, copies, limit)
  {
    if !(0 < |copies| < 64) { return false; }
    var destinations: seq<(int, int)> := [];
    for n := 0 to |copies|
      invariant CopiesOk(sizes, copies[..n], limit) && |destinations| == n
      invariant forall i :: 0 <= i < n ==> destinations[i] == (copies[i].target, copies[i].target + copies[i].size)
    {
      var c := copies[n];
      assert copies[..n + 1][..n] == copies[..n];
      if !CopyOk(sizes, c, limit) { return false; }
      var start, end := c.target, c.target + c.size;
      if !(forall i :: 0 <= i < n ==> start >= destinations[i].1 || end <= destinations[i].0) {
        var i :| 0 <= i < n && !(start >= destinations[i].1 || end <= destinations[i].0);
        assert !Clear(copies[n], copies[i]);
        return false;
      }
      destinations := destinations + [(start, end)];
    }
    assert copies[..|copies|] == copies;
    ok := true;
  }

  /** `validate`. */
  method Validate(m: Manifest) returns (ok: bool)
    ensures ok <==> Accepted(m)
  {
    hide Hash, ReadsOk, Sizes, DecodeOk, Decoded, CopiesOk;
    if m.version != 1 || m.product != "asius-v0" || m.norSize != NOR_SIZE || !Hash(m.core) { return false; }
    if !(0 < |m.variants| <= 16) { return false; }
    for n := 0 to |m.variants|
      invariant forall i :: 0 <= i < n ==> VariantOk(m.variants[i])
    {
      var v := m.variants[n];
      if !InRange(v.offset, v.size, NOR_SIZE) || v.size != XBL_SIZE || v.offset % SECTOR != 0 { return false; }
      if !InRange(0, v.template.size, v.size) || v.template.size % SECTOR != 0 { return false; }
      if !("https://" <= v.template.url) || !Hash(v.template.sha) || !Hash(v.sha) { return false; }
      var inputs := CheckReads(v.inputs);
      if inputs.Err? { return false; }
      var sizes := CheckDecode(inputs.value, v.decode);
      if sizes.Err? { return false; }
      var copies := CheckCopies(sizes.value, v.copies, v.template.size);
      if !copies { return false; }
    }
    ok := true;
  }
}
