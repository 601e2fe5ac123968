/** The block codec is exact: what encoding accepts, and what decoding gives back. */
module BootControlCodec {
  import opened Common
  import opened BootControl

  /** The records that can be stored: those `Decode` can produce. */
  predicate Valid(c: Control) {
    && Inline(c.pending)
    && TrialOk(c.active, c.pending, c.phase)
    && RootOk(c.rootA) && RootOk(c.rootB)
    && c.boot.count < COUNT_LIMIT && c.prev.count < COUNT_LIMIT
  }

  // ---------------------------------------------------------------- numbers

  lemma {:induction false} DigitsOfDecimal(n: nat)
    ensures Digits(Decimal(n)) == Ok(n)
  {
    if n >= 10 {
      var s := Decimal(n);
      DigitsOfDecimal(n / 10);
      assert s[..|s| - 1] == Decimal(n / 10);
      assert s[|s| - 1] == '0' + (n % 10) as char;
    }
  }

  lemma IntOfDecimal(n: nat)
    ensures ParseInt(Decimal(n)) == Ok(n)
  {
    DigitsOfDecimal(n);
    var s := Decimal(n);
    assert IsDigit(s[0]) && IsDigit(s[|s| - 1]);
    assert StripLeft(s) == s && StripRight(s) == s;
  }

  // ---------------------------------------------------------------- lines

  predicate InlineFields(fs: seq<(string, string)>) {
    forall i :: 0 <= i < |fs| ==> Inline(fs[i].0) && '=' !in fs[i].0 && Inline(fs[i].1)
  }

  function Lines(fs: seq<(string, string)>): (ls: seq<string>)
    ensures |ls| == |fs|
  {
    seq(|fs|, i requires 0 <= i < |fs| => Line(fs[i]))
  }

  lemma {:induction false} LineEndAt(line: string, rest: string)
    requires Inline(line)
    ensures LineEnd(line + "\n" + rest) == |line|
  {
    var s := line + "\n" + rest;
    if line != "" {
      assert s[1..] == line[1..] + "\n" + rest;
      assert s[0] == line[0] && InlineChar(line[0]);
      LineEndAt(line[1..], rest);
    }
  }

  lemma LineIsInline(f: (string, string))
    requires Inline(f.0) && Inline(f.1)
    ensures Inline(Line(f))
  {
    forall i | 0 <= i < |Line(f)|
      ensures InlineChar(Line(f)[i])
    {
      if i < |f.0| { assert Line(f)[i] == f.0[i]; }
      else if i > |f.0| { assert Line(f)[i] == f.1[i - |f.0| - 1]; }
    }
  }

  lemma {:induction false} SplitFirst(line: string, rest: string)
    requires Inline(line)
    ensures SplitLines(line + "\n" + rest) == [line] + SplitLines(rest)
  {
    var s := line + "\n" + rest;
    LineEndAt(line, rest);
    hide LineEnd, Inline;
    assert s[|line|] == '\n' && s[..|line|] == line && s[|line| + 1..] == rest;
  }

  lemma {:induction false} SplitText(fs: seq<(string, string)>)
    requires InlineFields(fs)
    ensures SplitLines(Text(fs)) == Lines(fs)
  {
    hide SplitLines, Lines, Line, Inline;
    if fs == [] {
      NoLines();
    } else {
      LineIsInline(fs[0]);
      SplitFirst(Line(fs[0]), Text(fs[1..]));
      SplitText(fs[1..]);
      LinesStep(fs);
    }
  }

  lemma NoLines()
    ensures SplitLines(Text([])) == Lines([])
  {
  }

  lemma LinesStep(fs: seq<(string, string)>)
    requires fs != []
    ensures Lines(fs) == [Line(fs[0])] + Lines(fs[1..])
  {
  }

  lemma {:induction false} SeparatorAt(key: string, rest: string)
    requires '=' !in key
    ensures Separator(key + "=" + rest) == |key|
  {
    var s := key + "=" + rest;
    if key != "" {
      assert s[0] == key[0] && key[0] in key;
      assert s[1..] == key[1..] + "=" + rest;
      SeparatorAt(key[1..], rest);
    }
  }

  predicate DistinctKeys(fs: seq<(string, string)>) {
    forall i, j :: 0 <= i < j < |fs| ==> fs[i].0 != fs[j].0
  }

  function Dict(fs: seq<(string, string)>): map<string, string> {
    if fs == [] then map[]
    else var f := fs[|fs| - 1]; Dict(fs[..|fs| - 1])[f.0 := f.1]
  }

  lemma {:induction false} DictKeys(fs: seq<(string, string)>)
    ensures forall k :: k in Dict(fs) <==> exists i :: 0 <= i < |fs| && fs[i].0 == k
  {
    if fs != [] {
      var front := fs[..|fs| - 1];
      DictKeys(front);
      forall k
        ensures k in Dict(fs) <==> exists i :: 0 <= i < |fs| && fs[i].0 == k
      {
        if k in Dict(front) {
          var i :| 0 <= i < |front| && front[i].0 == k;
          assert fs[i].0 == k;
        }
        if i :| 0 <= i < |fs| && fs[i].0 == k && i < |front| {
          assert front[i].0 == k;
        }
      }
    }
  }

  lemma {:induction false} DictAt(fs: seq<(string, string)>, i: nat)
    requires DistinctKeys(fs) && i < |fs|
    ensures fs[i].0 in Dict(fs) && Dict(fs)[fs[i].0] == fs[i].1
  {
    var front := fs[..|fs| - 1];
    if i < |front| {
      DictAt(front, i);
      assert front[i] == fs[i];
    }
  }

  lemma {:induction false} ParseOfLines(fs: seq<(string, string)>)
    requires InlineFields(fs) && DistinctKeys(fs)
    ensures ParseLines(Lines(fs)) == Ok(Dict(fs))
  {
    if fs != [] {
      var n := |fs| - 1;
      var front := fs[..n];
      assert Lines(fs)[..n] == Lines(front);
      ParseOfLines(front);
      DictKeys(front);
      var line := Line(fs[n]);
      LineIsInline(fs[n]);
      assert forall i :: 0 <= i < |line| ==> InlineChar(line[i]);
      SeparatorAt(fs[n].0, fs[n].1);
      assert line[..|fs[n].0|] == fs[n].0 && line[|fs[n].0| + 1..] == fs[n].1;
      assert fs[n].0 !in Dict(front);
    }
  }

  // ---------------------------------------------------------------- padding

  lemma {:induction false} StripPadded(text: string, n: nat)
    requires text != "" && text[|text| - 1] != '#'
    ensures StripPadding(text + Padding(n)) == text
  {
    if n == 0 {
      assert text + Padding(n) == text;
    } else {
      var s := text + Padding(n);
      assert s[..|s| - 1] == text + Padding(n - 1);
      StripPadded(text, n - 1);
    }
  }

  lemma {:induction false} TextEndsLine(fs: seq<(string, string)>)
    requires fs != []
    ensures Text(fs) != "" && Text(fs)[|Text(fs)| - 1] == '\n'
  {
    if |fs| > 1 {
      TextEndsLine(fs[1..]);
    } else {
      assert Text(fs[1..]) == "";
    }
  }

  /** What is left of padded lines, with or without the legacy NUL. */
  lemma BodyOfPadded(fs: seq<(string, string)>, nul: string, n: nat)
    requires fs != [] && (nul == "" || nul == [0 as char])
    ensures Body(Text(fs) + nul + Padding(n)) == Text(fs)
  {
    TextEndsLine(fs);
    var text := Text(fs) + nul;
    StripPadded(text, n);
    assert text[..|Text(fs)|] == Text(fs);
  }

  // ---------------------------------------------------------------- records

  lemma NamesParse(c: Control)
    ensures ParseSlot(SlotName(c.active)) == Ok(c.active)
    ensures ParsePhase(PhaseName(c.phase)) == Ok(c.phase)
    ensures ParseFlag(FlagName(c.edlRequest)) == Ok(c.edlRequest)
    ensures ParseFlag(FlagName(c.normalRequest)) == Ok(c.normalRequest)
    ensures ParseUsb(UsbName(c.usb)) == Ok(c.usb)
  {
  }

  lemma BootParses(b: Boot)
    ensures ParseBoot(Decimal(b.count), StageName(b.stage), BootSlotName(b.slot))
         == if b.count < COUNT_LIMIT then Ok(b) else Err
  {
    IntOfDecimal(b.count);
    assert ParseStage(StageName(b.stage)) == Ok(b.stage);
    assert ParseBootSlot(BootSlotName(b.slot)) == Ok(b.slot);
  }

  lemma {:induction false} DecimalInline(n: nat)
    ensures Inline(Decimal(n))
  {
    assert forall i :: 0 <= i < |Decimal(n)| ==> IsDigit(Decimal(n)[i]);
  }

  lemma RootInline(s: string)
    requires RootOk(s)
    ensures Inline(s)
  {
    forall i | 0 <= i < |s|
      ensures InlineChar(s[i])
    {
      if "PARTUUID=" <= s && i < 9 { assert s[i] == "PARTUUID="[i]; }
      else if "PARTLABEL=" <= s && i < 10 { assert s[i] == "PARTLABEL="[i]; }
    }
  }

  lemma KeysDistinct(c: Control)
    ensures DistinctKeys(Fields(c))
  {
    var fs := Fields(c);
    forall i, j | 0 <= i < j < |fs|
      ensures fs[i].0 != fs[j].0
    {
      var a, b := fs[i].0, fs[j].0;
      assert |a| != |b| || a[0] != b[0] || a[|a| - 1] != b[|b| - 1];
    }
  }

  /** A field name: letters and underscores. */
  predicate Word(s: string) {
    forall i :: 0 <= i < |s| ==> 'a' <= s[i] <= 'z' || s[i] == '_'
  }

  lemma WordKeys()
    ensures forall i :: 0 <= i < 15 ==> Word(KEYS[i])
  {
    assert Word("generation") && Word("active") && Word("pending") && Word("phase") && Word("root_a") && Word("root_b");
    assert Word("edl_request") && Word("normal_request") && Word("usb_mode");
    assert Word("boot_count") && Word("boot_stage") && Word("boot_slot");
    assert Word("prev_count") && Word("prev_stage") && Word("prev_slot");
  }

  lemma NamesInline(c: Control)
    ensures Inline(SlotName(c.active)) && Inline(PhaseName(c.phase)) && Inline(UsbName(c.usb))
    ensures Inline(FlagName(c.edlRequest)) && Inline(FlagName(c.normalRequest))
  {
  }

  lemma BootInline(b: Boot)
    ensures Inline(Decimal(b.count)) && Inline(StageName(b.stage)) && Inline(BootSlotName(b.slot))
  {
    DecimalInline(b.count);
  }

  lemma FieldsInline(c: Control)
    requires Inline(c.pending) && Inline(c.rootA) && Inline(c.rootB)
    ensures InlineFields(Fields(c))
  {
    var fs := Fields(c);
    WordKeys();
    DecimalInline(c.generation);
    NamesInline(c);
    BootInline(c.boot);
    BootInline(c.prev);
    forall i | 0 <= i < |fs|
      ensures Inline(fs[i].0) && '=' !in fs[i].0 && Inline(fs[i].1)
    {
      assert Word(KEYS[i]) && Inline(Values(c)[i]);
    }
  }

  predicate Stores(d: map<string, string>, c: Control) {
    forall i :: 0 <= i < 15 ==> KEYS[i] in d && d[KEYS[i]] == Values(c)[i]
  }

  lemma FieldsStore(c: Control)
    ensures Stores(Dict(Fields(c)), c)
  {
    var fs := Fields(c);
    KeysDistinct(c);
    forall i | 0 <= i < 15
      ensures KEYS[i] in Dict(fs) && Dict(fs)[KEYS[i]] == Values(c)[i]
    {
      DictAt(fs, i);
      assert fs[i] == (KEYS[i], Values(c)[i]);
    }
  }

  lemma ControlStored(d: map<string, string>, c: Control)
    requires Stores(d, c)
    ensures "generation" in d && d["generation"] == Decimal(c.generation)
    ensures Get(d, "active", "") == SlotName(c.active) && Get(d, "pending", "") == c.pending
    ensures Get(d, "phase", "") == PhaseName(c.phase)
    ensures Get(d, "root_a", "") == c.rootA && Get(d, "root_b", "") == c.rootB
    ensures Get(d, "edl_request", "0") == FlagName(c.edlRequest)
    ensures Get(d, "normal_request", "0") == FlagName(c.normalRequest)
    ensures Get(d, "usb_mode", "ncm") == UsbName(c.usb)
  {
    assert KEYS[0] in d && KEYS[1] in d && KEYS[2] in d && KEYS[3] in d && KEYS[4] in d;
    assert KEYS[5] in d && KEYS[6] in d && KEYS[7] in d && KEYS[8] in d;
  }

  lemma BootsStored(d: map<string, string>, c: Control)
    requires Stores(d, c)
    ensures Get(d, "boot_count", "0") == Decimal(c.boot.count) && Get(d, "prev_count", "0") == Decimal(c.prev.count)
    ensures Get(d, "boot_stage", "unknown") == StageName(c.boot.stage)
    ensures Get(d, "prev_stage", "unknown") == StageName(c.prev.stage)
    ensures Get(d, "boot_slot", "-") == BootSlotName(c.boot.slot)
    ensures Get(d, "prev_slot", "-") == BootSlotName(c.prev.slot)
  {
    assert KEYS[9] in d && KEYS[10] in d && KEYS[11] in d;
    assert KEYS[12] in d && KEYS[13] in d && KEYS[14] in d;
  }

  /** Reading the fifteen written fields back checks exactly validity. */
  lemma FromFields(d: map<string, string>, c: Control)
    requires Stores(d, c)
    ensures FromValues(d)
         == if TrialOk(c.active, c.pending, c.phase) && RootOk(c.rootA) && RootOk(c.rootB)
               && c.boot.count < COUNT_LIMIT && c.prev.count < COUNT_LIMIT
            then Ok(c) else Err
  {
    ControlStored(d, c);
    BootsStored(d, c);
    IntOfDecimal(c.generation);
    NamesParse(c);
    BootParses(c.boot);
    BootParses(c.prev);
  }

  /** Decoding a written block, canonical or with the legacy NUL. */
  lemma DecodeOfWritten(c: Control, nul: string)
    requires Inline(c.pending) && Inline(c.rootA) && Inline(c.rootB) && (nul == "" || nul == [0 as char])
    requires |HEADER + Text(Fields(c)) + nul| <= BLOCK_SIZE
    ensures Decode(Padded(HEADER + Text(Fields(c)) + nul)) == if Valid(c) then Ok(c) else Err
  {
    var fs := Fields(c);
    var block := Padded(HEADER + Text(fs) + nul);
    var n := BLOCK_SIZE - |HEADER + Text(fs) + nul|;
    assert HEADER <= block && block[|HEADER|..] == Text(fs) + nul + Padding(n);
    BodyOfPadded(fs, nul, n);
    FieldsInline(c);
    KeysDistinct(c);
    SplitText(fs);
    ParseOfLines(fs);
    FieldsStore(c);
    FromFields(Dict(fs), c);
  }

  predicate Ascii(s: string) {
    forall i :: 0 <= i < |s| ==> s[i] < 128 as char
  }

  lemma TitleAscii()
    ensures Ascii(TITLE)
  {
  }

  lemma NoticeAscii()
    ensures Ascii(NOTICE) && Ascii(TOOLS)
  {
  }

  lemma HeaderAscii()
    ensures Ascii(HEADER)
  {
    hide TITLE, NOTICE, TOOLS;
    TitleAscii();
    NoticeAscii();
  }

  lemma {:induction false} TextAscii(fs: seq<(string, string)>)
    requires InlineFields(fs)
    ensures Ascii(Text(fs))
  {
    if fs != [] {
      TextAscii(fs[1..]);
      LineIsInline(fs[0]);
      assert forall i :: 0 <= i < |Line(fs[0])| ==> InlineChar(Line(fs[0])[i]);
    }
  }

  /** A block is written in ASCII, so its bytes are its characters. */
  lemma EncodedAscii(c: Control)
    requires Encode(c).Ok?
    ensures Ascii(Encode(c).value) && |Encode(c).value| == BLOCK_SIZE
  {
    HeaderAscii();
    FieldsInline(c);
    TextAscii(Fields(c));
  }

  /** Encoding succeeds exactly on valid records that fit, and decoding inverts it. */
  lemma RoundTrip(c: Control)
    ensures Encode(c).Ok? <==> Valid(c) && Fits(c)
    ensures Encode(c).Ok? ==> Decode(Encode(c).value) == Ok(c)
  {
    var payload := HEADER + Text(Fields(c));
    if Valid(c) {
      RootInline(c.rootA);
      RootInline(c.rootB);
    }
    if Inline(c.pending) && Inline(c.rootA) && Inline(c.rootB) && Fits(c) {
      DecodeOfWritten(c, "");
      assert payload + "" == payload;
    }
  }

  /** The records that the encoder does not refuse. */
  predicate Encodable(c: Control) {
    Valid(c) && Fits(c)
  }

  lemma EncodesExactly(c: Control)
    ensures Encode(c).Ok? <==> Encodable(c)
  {
    RoundTrip(c);
    hide Encode;
  }

  /** One NUL before the padding, as early U-Boot prototypes left it, decodes to the same record. */
  lemma LegacyNul(c: Control)
    requires Valid(c) && |HEADER + Text(Fields(c))| < BLOCK_SIZE
    ensures Decode(Padded(HEADER + Text(Fields(c)) + [0 as char])) == Ok(c)
    ensures Encode(c).Ok? && Decode(Encode(c).value) == Ok(c)
  {
    RootInline(c.rootA);
    RootInline(c.rootB);
    DecodeOfWritten(c, [0 as char]);
    RoundTrip(c);
  }

  /** The loop over the lines of a block, collecting values until one line is refused. */
  method DecodeBlock(block: string) returns (r: Result<Control>)
    ensures r == Decode(block)
  {
    if |block| != BLOCK_SIZE || !(HEADER <= block) {
      return Err;
    }
    var lines := SplitLines(Body(block[|HEADER|..]));
    var values: map<string, string> := map[];
    for n := 0 to |lines|
      invariant ParseLines(lines[..n]) == Ok(values)
    {
      assert lines[..n + 1][..n] == lines[..n];
      var added := AddLine(values, lines[n]);
      if added.Err? {
        RefusedPrefix(lines, n + 1);
        return Err;
      }
      values := added.value;
    }
    assert lines[..|lines|] == lines;
    r := FromValues(values);
  }

  lemma {:induction false} RefusedPrefix(lines: seq<string>, n: nat)
    requires n <= |lines| && ParseLines(lines[..n]).Err?
    ensures ParseLines(lines).Err?
  {
    if n < |lines| {
      assert lines[..|lines| - 1][..n] == lines[..n];
      RefusedPrefix(lines[..|lines| - 1], n);
    } else {
      assert lines[..n] == lines;
    }
  }

  // ---------------------------------------------------------------- arbitrary blocks

  predicate Unbroken(s: string) {
    forall i :: 0 <= i < |s| ==> s[i] != '\n' && s[i] != '\r'
  }

  lemma {:induction false} SplitUnbroken(s: string)
    ensures forall i :: 0 <= i < |SplitLines(s)| ==> Unbroken(SplitLines(s)[i])
    decreases |s|
  {
    if s != "" {
      var n := LineEnd(s);
      var next := if n + 1 < |s| && s[n] == '\r' && s[n + 1] == '\n' then n + 2
                  else if n < |s| then n + 1 else n;
      SplitUnbroken(s[next..]);
    }
  }

  lemma {:induction false} ParsedInline(lines: seq<string>)
    requires forall i :: 0 <= i < |lines| ==> Unbroken(lines[i])
    ensures ParseLines(lines).Ok? ==> forall k :: k in ParseLines(lines).value ==> Inline(ParseLines(lines).value[k])
  {
    if lines != [] {
      ParsedInline(lines[..|lines| - 1]);
      var line := lines[|lines| - 1];
      if ParseLines(lines).Ok? {
        assert forall i :: 0 <= i < |line| ==> InlineChar(line[i]);
      }
    }
  }

  lemma BootBelowLimit(count: string, stage: string, slot: string)
    requires ParseBoot(count, stage, slot).Ok?
    ensures ParseBoot(count, stage, slot).value.count < COUNT_LIMIT
  {
    hide ParseInt, ParseStage, ParseBootSlot;
  }

  lemma CheckedValues(values: map<string, string>)
    requires FromValues(values).Ok? && Inline(Get(values, "pending", ""))
    ensures Valid(FromValues(values).value)
  {
    hide Inline, ParseInt, ParsePhase, ParseSlot, ParseFlag, ParseUsb, ParseBoot, TrialOk, RootOk, Get;
    BootBelowLimit(Get(values, "boot_count", "0"), Get(values, "boot_stage", "unknown"), Get(values, "boot_slot", "-"));
    BootBelowLimit(Get(values, "prev_count", "0"), Get(values, "prev_stage", "unknown"), Get(values, "prev_slot", "-"));
  }

  /** Whatever block decodes, the result is a record that can be stored again. */
  lemma DecodedValid(block: string)
    requires Decode(block).Ok?
    ensures Valid(Decode(block).value)
  {
    hide FromValues, ParseLines, SplitLines, Body, Valid;
    var body := Body(block[|HEADER|..]);
    SplitUnbroken(body);
    ParsedInline(SplitLines(body));
    CheckedValues(ParseLines(SplitLines(body)).value);
  }

  /** Rewriting a decoded block keeps every known field, whatever form the block had. */
  lemma Rewrite(block: string)
    requires Decode(block).Ok?
    ensures var c := Decode(block).value; Encode(c).Ok? <==> Fits(c)
    ensures var c := Decode(block).value; Fits(c) ==> Decode(Encode(c).value) == Ok(c)
  {
    DecodedValid(block);
    RoundTrip(Decode(block).value);
  }

  // ---------------------------------------------------------------- what always fits

  function TenTo(k: nat): (n: nat)
    ensures n > 0
  {
    if k == 0 then 1 else 10 * TenTo(k - 1)
  }

  lemma {:induction false} DecimalShort(n: nat, k: nat)
    requires k > 0 && n < TenTo(k)
    ensures |Decimal(n)| <= k
  {
    assert TenTo(1) == 10;
    if n >= 10 {
      DecimalShort(n / 10, k - 1);
    }
  }

  lemma {:induction false} TenToAdds(j: nat, k: nat)
    ensures TenTo(j + k) == TenTo(j) * TenTo(k)
  {
    if j > 0 { TenToAdds(j - 1, k); }
  }

  /** Numbers of 64 bits take at most twenty digits. */
  lemma CountShort(n: nat)
    requires n < COUNT_LIMIT
    ensures |Decimal(n)| <= 20
  {
    TenToAdds(5, 5);
    TenToAdds(10, 10);
    assert TenTo(5) == 100_000;
    DecimalShort(n, 20);
  }

  lemma {:induction false} TextShort(fs: seq<(string, string)>, bound: nat)
    requires forall i :: 0 <= i < |fs| ==> |Line(fs[i])| < bound
    ensures |Text(fs)| <= |fs| * bound
  {
    if fs != [] {
      assert forall i :: 0 <= i < |fs[1..]| ==> fs[1..][i] == fs[i + 1];
      TextShort(fs[1..], bound);
      hide Line;
      assert |fs| * bound == |fs[1..]| * bound + bound;
    }
  }

  predicate Short(c: Control) {
    && |c.pending| <= 45 && |c.rootA| <= 45 && |c.rootB| <= 45
    && c.generation < COUNT_LIMIT && c.boot.count < COUNT_LIMIT && c.prev.count < COUNT_LIMIT
  }

  lemma ValuesShort(c: Control)
    requires Short(c)
    ensures forall i :: 0 <= i < 15 ==> |Values(c)[i]| <= 45
  {
    CountShort(c.generation);
    CountShort(c.boot.count);
    CountShort(c.prev.count);
    hide Decimal;
  }

  lemma KeysShort()
    ensures forall i :: 0 <= i < 15 ==> |KEYS[i]| <= 14
  {
  }

  /**
   * A valid record with 64-bit numbers and roots no longer than `PARTUUID=` with a UUID can always be stored:
   * the writers never run out of room before the generation runs out of 64 bits.
   */
  lemma OrdinaryFits(c: Control)
    requires Valid(c) && Short(c)
    ensures Fits(c) && Encode(c).Ok?
  {
    var fs := Fields(c);
    ValuesShort(c);
    KeysShort();
    hide KEYS, Values, Valid, Short, Encode;
    forall i | 0 <= i < |fs|
      ensures |Line(fs[i])| < 61
    {
      assert fs[i] == (KEYS[i], Values(c)[i]);
    }
    TextShort(fs, 61);
    HeaderShort();
    RoundTrip(c);
  }

  lemma HeaderShort()
    ensures |HEADER| <= 100
  {
  }
}
