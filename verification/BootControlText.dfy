/** The grammar of a boot-control block, spelled out: which bytes are written, and which texts are accepted as what. */
module BootControlText {
  import opened Common
  import opened BootControl
  import opened BootControlCodec

  // ---------------------------------------------------------------- texts of values

  function PhaseText(p: Phase): string {
    match p case Armed => "armed" case Attempted => "attempted" case Stable => "stable"
  }

  function StageText(s: Stage): string {
    match s
    case Unknown => "unknown" case Loading => "loading" case Kernel => "kernel"
    case Userspace => "userspace" case Healthy => "healthy"
  }

  function SlotText(s: Option<Slot>): string {
    match s case None => "-" case Some(A) => "a" case Some(B) => "b"
  }

  // ---------------------------------------------------------------- what is written

  /** The lines of a record. */
  function Written(c: Control): (fs: seq<(string, string)>) {
    [("generation", Decimal(c.generation)),
     ("active", SlotText(Some(c.active))), ("pending", c.pending), ("phase", PhaseText(c.phase)),
     ("root_a", c.rootA), ("root_b", c.rootB),
     ("edl_request", if c.edlRequest then "1" else "0"), ("normal_request", if c.normalRequest then "1" else "0"),
     ("usb_mode", if c.usb == Host then "host" else "ncm"),
     ("boot_count", Decimal(c.boot.count)), ("boot_stage", StageText(c.boot.stage)), ("boot_slot", SlotText(c.boot.slot)),
     ("prev_count", Decimal(c.prev.count)), ("prev_stage", StageText(c.prev.stage)), ("prev_slot", SlotText(c.prev.slot))]
  }

  lemma FieldsAreWritten(c: Control)
    ensures Fields(c) == Written(c)
  {
    hide Decimal;
    assert Values(c)[1] == SlotText(Some(c.active)) && Values(c)[3] == PhaseText(c.phase);
    assert Values(c)[10] == StageText(c.boot.stage) && Values(c)[11] == SlotText(c.boot.slot);
    assert Values(c)[13] == StageText(c.prev.stage) && Values(c)[14] == SlotText(c.prev.slot);
  }

  /** Each line is its key, '=', its value and a line feed. */
  lemma TextOf(key: string, value: string, rest: seq<(string, string)>)
    ensures Text([(key, value)] + rest) == key + "=" + value + "\n" + Text(rest) && Text([]) == ""
  {
    var fs := [(key, value)] + rest;
    assert fs[1..] == rest;
  }

  /** An encoded block: the two header lines, the fifteen lines, and '#' up to 1024 bytes. */
  lemma EncodedIs(c: Control)
    requires Encode(c).Ok?
    ensures |Encode(c).value| == 1024
    ensures var lines := "# GRUB Environment Block\n" + "# WARNING: Do not edit this file " + "by tools other than grub-editenv!!!\n"
                         + Text(Written(c));
            && lines <= Encode(c).value
            && forall i :: |lines| <= i < 1024 ==> Encode(c).value[i] == '#'
  {
    hide Decode, Text, Written, TITLE, NOTICE, TOOLS;
    FieldsAreWritten(c);
    HeaderIs();
    hide HEADER, Fields;
  }

  lemma HeaderIs()
    ensures HEADER == "# GRUB Environment Block\n" + "# WARNING: Do not edit this file " + "by tools other than grub-editenv!!!\n"
  {
  }

  // ---------------------------------------------------------------- lines

  /** A line ends at a line feed, at a carriage return, or at both together; the last one may be unfinished. */
  lemma LineBreaks(line: string, rest: string)
    requires Unbroken(line)
    ensures SplitLines(line + "\n" + rest) == [line] + SplitLines(rest)
    ensures SplitLines(line + "\r\n" + rest) == [line] + SplitLines(rest)
    ensures (rest == "" || rest[0] != '\n') ==> SplitLines(line + "\r" + rest) == [line] + SplitLines(rest)
    ensures SplitLines(line) == if line == "" then [] else [line]
  {
    FirstEnd(line, "\n" + rest);
    FirstEnd(line, "\r\n" + rest);
    FirstEnd(line, "\r" + rest);
    FirstEnd(line, "");
    hide LineEnd;
    Broken(line, "\n", rest);
    Broken(line, "\r\n", rest);
    if rest == "" || rest[0] != '\n' { Broken(line, "\r", rest); }
    assert line + "" == line && line[..|line|] == line && line[|line|..] == "";
    assert SplitLines("") == [];
  }

  lemma {:induction false} FirstEnd(line: string, rest: string)
    requires Unbroken(line) && (rest == "" || rest[0] == '\n' || rest[0] == '\r')
    ensures LineEnd(line + rest) == |line|
  {
    if line == "" {
      assert line + rest == rest;
    } else {
      assert (line + rest)[1..] == line[1..] + rest;
      FirstEnd(line[1..], rest);
    }
  }

  lemma {:induction false} Broken(line: string, end: string, rest: string)
    requires LineEnd(line + (end + rest)) == |line|
    requires end == "\n" || end == "\r\n" || (end == "\r" && (rest == "" || rest[0] != '\n'))
    ensures SplitLines(line + end + rest) == [line] + SplitLines(rest)
  {
    hide LineEnd;
    var s := line + end + rest;
    assert s == line + (end + rest) && s[..|line|] == line && s[|line| + |end|..] == rest;
    assert s[|line|] == end[0] && (|line| + 1 < |s| ==> s[|line| + 1] == (end + rest)[1]);
  }

  // ---------------------------------------------------------------- keys and values

  function Key(line: string): string {
    line[..Separator(line)]
  }

  function Value(line: string): string {
    if Separator(line) < |line| then line[Separator(line) + 1..] else ""
  }

  /** What lies before the first '=' is the key and all that follows is the value. */
  lemma KeyValue(key: string, value: string)
    requires '=' !in key
    ensures Key(key + "=" + value) == key && Value(key + "=" + value) == value
  {
    SeparatorAt(key, value);
    assert (key + "=" + value)[..|key|] == key && (key + "=" + value)[|key| + 1..] == value;
  }

  /** Every line is ASCII and has a '=', and no two have the same key. */
  predicate Parsable(lines: seq<string>) {
    && (forall i :: 0 <= i < |lines| ==> Ascii(lines[i]) && '=' in lines[i])
    && forall i, j :: 0 <= i < j < |lines| ==> Key(lines[i]) != Key(lines[j])
  }

  lemma AddsExactly(values: map<string, string>, line: string)
    ensures AddLine(values, line)
         == if Ascii(line) && '=' in line && Key(line) !in values then Ok(values[Key(line) := Value(line)]) else Err
  {
    assert '=' in line <==> Separator(line) < |line|;
  }

  /** The lines are accepted exactly when they are parsable, and the result holds each key with its value. */
  lemma {:induction false} ParsesExactly(lines: seq<string>)
    ensures ParseLines(lines).Ok? <==> Parsable(lines)
    ensures ParseLines(lines).Ok? ==> Holds(ParseLines(lines).value, lines)
  {
    hide AddLine, Ascii, Key, Value;
    if lines != [] {
      var n := |lines| - 1;
      var front := lines[..n];
      ParsesExactly(front);
      if ParseLines(front).Ok? {
        var values := ParseLines(front).value;
        AddsExactly(values, lines[n]);
        KeyTaken(values, front, Key(lines[n]));
      }
      ParsableStep(lines);
    }
  }

  /** Exactly the keys of the lines, each with the value of its line. */
  predicate Holds(values: map<string, string>, lines: seq<string>) {
    && (forall i :: 0 <= i < |lines| ==> Key(lines[i]) in values && values[Key(lines[i])] == Value(lines[i]))
    && forall k :: k in values ==> exists i :: 0 <= i < |lines| && Key(lines[i]) == k
  }

  lemma KeyTaken(values: map<string, string>, lines: seq<string>, key: string)
    requires Holds(values, lines)
    ensures key in values <==> exists i :: 0 <= i < |lines| && Key(lines[i]) == key
  {
    hide Key, Value;
  }

  lemma ParsableStep(lines: seq<string>)
    requires lines != []
    ensures var n := |lines| - 1;
            Parsable(lines) <==>
              && Parsable(lines[..n]) && Ascii(lines[n]) && '=' in lines[n]
              && !exists i :: 0 <= i < n && Key(lines[..n][i]) == Key(lines[n])
  {
    hide Ascii, Key;
    var n := |lines| - 1;
    assert forall i :: 0 <= i < n ==> lines[..n][i] == lines[i];
  }

  // ---------------------------------------------------------------- numbers

  /** Digits with single underscores between them. */
  predicate Grouped(s: string) {
    && s != "" && IsDigit(s[0]) && IsDigit(s[|s| - 1])
    && (forall i :: 0 <= i < |s| ==> IsDigit(s[i]) || s[i] == '_')
    && forall i :: 0 <= i < |s| - 1 ==> s[i] != '_' || s[i + 1] != '_'
  }

  /** The number that digits denote; underscores say nothing. */
  function Denotes(s: string): nat {
    if s == "" then 0
    else
      var c, front := s[|s| - 1], s[..|s| - 1];
      if IsDigit(c) then 10 * Denotes(front) + (c as nat - 48) else Denotes(front)
  }

  lemma {:induction false} DigitsExactly(s: string)
    ensures Digits(s) == if Grouped(s) then Ok(Denotes(s)) else Err
    decreases |s|
  {
    if s != "" && IsDigit(s[|s| - 1]) {
      var front := s[..|s| - 1];
      if front != "" {
        if front[|front| - 1] == '_' {
          var high := front[..|front| - 1];
          DigitsExactly(high);
          GroupedBehind(s, high);
        } else {
          DigitsExactly(front);
          GroupedAppend(s, front);
        }
      }
    }
  }

  lemma GroupedAppend(s: string, front: string)
    requires |s| > 1 && front == s[..|s| - 1] && IsDigit(s[|s| - 1]) && front[|front| - 1] != '_'
    ensures Grouped(s) <==> Grouped(front)
  {
    assert forall i :: 0 <= i < |front| ==> front[i] == s[i];
  }

  lemma GroupedBehind(s: string, high: string)
    requires |s| > 1 && high == s[..|s| - 2] && IsDigit(s[|s| - 1]) && s[|s| - 2] == '_'
    ensures Grouped(s) <==> Grouped(high)
  {
    assert forall i :: 0 <= i < |high| ==> high[i] == s[i];
  }

  predicate Spaces(s: string) {
    forall i :: 0 <= i < |s| ==> s[i] == ' ' || s[i] == '\t' || s[i] == '\n' || s[i] as int == 11 || s[i] as int == 12 || s[i] == '\r'
  }

  /** An integer text: grouped digits behind an optional sign, with any white space around them. */
  predicate Reads(s: string, lead: nat, trail: nat, value: int)
    requires lead + trail <= |s|
  {
    var t := s[lead..|s| - trail];
    && Spaces(s[..lead]) && Spaces(s[|s| - trail..])
    && if t != "" && (t[0] == '-' || t[0] == '+')
       then Grouped(t[1..]) && value == (if t[0] == '-' then 0 - Denotes(t[1..]) else Denotes(t[1..]))
       else Grouped(t) && value == Denotes(t)
  }

  ghost predicate IntText(s: string, value: int) {
    exists lead: nat, trail: nat :: lead + trail <= |s| && Reads(s, lead, trail, value)
  }

  lemma {:induction false} LeftStripped(s: string)
    ensures |StripLeft(s)| <= |s| && s[|s| - |StripLeft(s)|..] == StripLeft(s) && Spaces(s[..|s| - |StripLeft(s)|])
    ensures StripLeft(s) != "" ==> !IsSpace(StripLeft(s)[0])
  {
    if s != "" && IsSpace(s[0]) {
      LeftStripped(s[1..]);
      var n := |s| - |StripLeft(s)|;
      assert s[1..][n - 1..] == s[n..] && s[..n] == [s[0]] + s[1..][..n - 1];
      hide StripLeft;
    }
  }

  lemma {:induction false} RightStripped(s: string)
    ensures |StripRight(s)| <= |s| && s[..|StripRight(s)|] == StripRight(s) && Spaces(s[|StripRight(s)|..])
    ensures StripRight(s) != "" ==> !IsSpace(StripRight(s)[|StripRight(s)| - 1])
  {
    if s != "" && IsSpace(s[|s| - 1]) {
      RightStripped(s[..|s| - 1]);
    }
  }

  lemma {:induction false} LeftStrips(s: string, lead: nat)
    requires lead < |s| && Spaces(s[..lead]) && !IsSpace(s[lead])
    ensures StripLeft(s) == s[lead..]
  {
    if lead > 0 {
      assert s[0] == s[..lead][0] && s[1..][..lead - 1] == s[..lead][1..] && s[1..][lead - 1..] == s[lead..];
      LeftStrips(s[1..], lead - 1);
    }
  }

  lemma {:induction false} RightStrips(s: string, trail: nat)
    requires trail < |s| && Spaces(s[|s| - trail..]) && !IsSpace(s[|s| - trail - 1])
    ensures StripRight(s) == s[..|s| - trail]
  {
    var n := |s| - 1;
    if trail > 0 {
      assert s[n] == s[|s| - trail..][trail - 1] && s[..n][n - (trail - 1)..] == s[|s| - trail..][..trail - 1];
      assert s[..n][..n - (trail - 1)] == s[..|s| - trail];
      RightStrips(s[..n], trail - 1);
    }
  }

  /** A text is accepted as a number exactly when it is an integer text, and it is the number that the text denotes. */
  lemma IntExactly(s: string, value: int)
    ensures ParseInt(s) == Ok(value) <==> IntText(s, value)
  {
    if ParseInt(s) == Ok(value) { Stripped(s, value); }
    if IntText(s, value) {
      var lead: nat, trail: nat :| lead + trail <= |s| && Reads(s, lead, trail, value);
      Unstripped(s, lead, trail, value);
    }
  }

  lemma Stripped(s: string, value: int)
    requires ParseInt(s) == Ok(value)
    ensures IntText(s, value)
  {
    LeftStripped(s);
    RightStripped(StripLeft(s));
    var t := StripRight(StripLeft(s));
    var lead, trail := |s| - |StripLeft(s)|, |StripLeft(s)| - |t|;
    assert s[lead..|s| - trail] == t && s[|s| - trail..] == StripLeft(s)[|t|..];
    DigitsExactly(t);
    if t != "" { DigitsExactly(t[1..]); }
    hide Digits, Grouped, Denotes, Spaces, StripLeft, StripRight;
    assert Reads(s, lead, trail, value);
  }

  lemma Unstripped(s: string, lead: nat, trail: nat, value: int)
    requires lead + trail <= |s| && Reads(s, lead, trail, value)
    ensures ParseInt(s) == Ok(value)
  {
    var t := s[lead..|s| - trail];
    assert t[0] == s[lead] && t[|t| - 1] == s[|s| - trail - 1];
    LeftStrips(s, lead);
    assert s[lead..][|t|..] == s[|s| - trail..] && s[lead..][..|t|] == t;
    RightStrips(s[lead..], trail);
    DigitsExactly(t);
    DigitsExactly(t[1..]);
    hide Digits, Grouped, Denotes, Spaces, StripLeft, StripRight;
  }

  // ---------------------------------------------------------------- records

  /** The text of a key, or of its default when the block does not have the key. */
  predicate Says(values: map<string, string>, key: string, default: string, text: string) {
    if key in values then values[key] == text else text == default
  }

  /** `PARTUUID=` or `PARTLABEL=` and a name of letters, digits, dots, underscores and hyphens. */
  ghost predicate RootText(s: string) {
    exists name: string :: name != "" && NameText(name) && (s == "PARTUUID=" + name || s == "PARTLABEL=" + name)
  }

  predicate NameText(name: string) {
    forall i :: 0 <= i < |name| ==>
      'a' <= name[i] <= 'z' || 'A' <= name[i] <= 'Z' || '0' <= name[i] <= '9' || name[i] == '.' || name[i] == '_' || name[i] == '-'
  }

  lemma RootExactly(s: string)
    ensures RootOk(s) <==> RootText(s)
  {
    if "PARTUUID=" <= s && RootOk(s) {
      assert s[4] == "PARTUUID="[4] == 'U' && "PARTLABEL="[4] == 'L';
      assert s == "PARTUUID=" + s[9..] && NameText(s[9..]);
    } else if RootOk(s) {
      assert s == "PARTLABEL=" + s[10..] && NameText(s[10..]);
    }
    if RootText(s) {
      var name: string :| name != "" && NameText(name) && (s == "PARTUUID=" + name || s == "PARTLABEL=" + name);
      assert s == "PARTUUID=" + name ==> s[9..] == name;
      assert s == "PARTLABEL=" + name ==> s[10..] == name;
    }
  }

  /** The three values of a boot; the keys are passed by name. */
  ghost predicate BootIs(values: map<string, string>, count: string, stage: string, slot: string, b: Boot) {
    && IntText(if count in values then values[count] else "0", b.count) && b.count < 18446744073709551616
    && Says(values, stage, "unknown", StageText(b.stage)) && Says(values, slot, "-", SlotText(b.slot))
  }

  /** What a block must say for the record `c`. */
  ghost predicate RecordIs(values: map<string, string>, c: Control) {
    && "generation" in values && IntText(values["generation"], c.generation)
    && Says(values, "active", "", SlotText(Some(c.active))) && Says(values, "pending", "", c.pending)
    && Says(values, "phase", "", PhaseText(c.phase))
    && Says(values, "edl_request", "0", if c.edlRequest then "1" else "0")
    && Says(values, "normal_request", "0", if c.normalRequest then "1" else "0")
    && Says(values, "usb_mode", "ncm", if c.usb == Host then "host" else "ncm")
    && Says(values, "root_a", "", c.rootA) && RootText(c.rootA) && Says(values, "root_b", "", c.rootB) && RootText(c.rootB)
    && BootIs(values, "boot_count", "boot_stage", "boot_slot", c.boot)
    && BootIs(values, "prev_count", "prev_stage", "prev_slot", c.prev)
    && (c.phase == Stable || c.pending == if c.active == A then "b" else "a")
  }

  lemma NamesExactly(s: string)
    ensures forall x :: ParseSlot(s) == Ok(x) <==> s == SlotText(Some(x))
    ensures forall x :: ParseBootSlot(s) == Ok(x) <==> s == SlotText(x)
    ensures forall x :: ParsePhase(s) == Ok(x) <==> s == PhaseText(x)
    ensures forall x :: ParseStage(s) == Ok(x) <==> s == StageText(x)
    ensures forall x :: ParseFlag(s) == Ok(x) <==> s == if x then "1" else "0"
    ensures forall x :: ParseUsb(s) == Ok(x) <==> s == if x == Host then "host" else "ncm"
  {
  }

  lemma BootExactly(values: map<string, string>, count: string, stage: string, slot: string, b: Boot)
    ensures ParseBoot(Get(values, count, "0"), Get(values, stage, "unknown"), Get(values, slot, "-")) == Ok(b)
       <==> BootIs(values, count, stage, slot, b)
  {
    IntExactly(Get(values, count, "0"), b.count);
    NamesExactly(Get(values, stage, "unknown"));
    NamesExactly(Get(values, slot, "-"));
    hide ParseInt, IntText, ParseStage, ParseBootSlot, StageText, SlotText;
  }

  /** The parsers that have to succeed for the record `c`. */
  predicate Parses(values: map<string, string>, c: Control) {
    && "generation" in values && ParseInt(values["generation"]) == Ok(c.generation)
    && ParseSlot(Get(values, "active", "")) == Ok(c.active) && ParsePhase(Get(values, "phase", "")) == Ok(c.phase)
    && ParseFlag(Get(values, "edl_request", "0")) == Ok(c.edlRequest)
    && ParseFlag(Get(values, "normal_request", "0")) == Ok(c.normalRequest)
    && ParseUsb(Get(values, "usb_mode", "ncm")) == Ok(c.usb)
    && Get(values, "pending", "") == c.pending && Get(values, "root_a", "") == c.rootA && Get(values, "root_b", "") == c.rootB
    && TrialOk(c.active, c.pending, c.phase) && RootOk(c.rootA) && RootOk(c.rootB)
    && ParseBoot(Get(values, "boot_count", "0"), Get(values, "boot_stage", "unknown"), Get(values, "boot_slot", "-")) == Ok(c.boot)
    && ParseBoot(Get(values, "prev_count", "0"), Get(values, "prev_stage", "unknown"), Get(values, "prev_slot", "-")) == Ok(c.prev)
  }

  lemma ParsesWhole(values: map<string, string>, c: Control)
    ensures FromValues(values) == Ok(c) <==> Parses(values, c)
  {
    hide ParseInt, ParseSlot, ParsePhase, ParseFlag, ParseUsb, ParseBoot, RootOk, TrialOk, Get;
  }

  /** The record of a set of values is `c` exactly when the values say so; absent keys have their defaults. */
  lemma RecordExactly(values: map<string, string>, c: Control)
    ensures FromValues(values) == Ok(c) <==> RecordIs(values, c)
  {
    ParsesWhole(values, c);
    if "generation" in values { IntExactly(values["generation"], c.generation); }
    hide FromValues, ParseInt, IntText, ParseSlot, ParsePhase, ParseFlag, ParseUsb, ParseBoot, BootIs, RootOk, RootText, PhaseText, Says, Get;
    SettingsExactly(values, c);
    BootExactly(values, "boot_count", "boot_stage", "boot_slot", c.boot);
    BootExactly(values, "prev_count", "prev_stage", "prev_slot", c.prev);
    RootExactly(c.rootA);
    RootExactly(c.rootB);
  }

  lemma SettingsExactly(values: map<string, string>, c: Control)
    ensures ParseSlot(Get(values, "active", "")) == Ok(c.active) <==> Says(values, "active", "", SlotText(Some(c.active)))
    ensures ParsePhase(Get(values, "phase", "")) == Ok(c.phase) <==> Says(values, "phase", "", PhaseText(c.phase))
    ensures ParseFlag(Get(values, "edl_request", "0")) == Ok(c.edlRequest)
       <==> Says(values, "edl_request", "0", if c.edlRequest then "1" else "0")
    ensures ParseFlag(Get(values, "normal_request", "0")) == Ok(c.normalRequest)
       <==> Says(values, "normal_request", "0", if c.normalRequest then "1" else "0")
    ensures ParseUsb(Get(values, "usb_mode", "ncm")) == Ok(c.usb)
       <==> Says(values, "usb_mode", "ncm", if c.usb == Host then "host" else "ncm")
    ensures Get(values, "pending", "") == c.pending <==> Says(values, "pending", "", c.pending)
    ensures Get(values, "root_a", "") == c.rootA <==> Says(values, "root_a", "", c.rootA)
    ensures Get(values, "root_b", "") == c.rootB <==> Says(values, "root_b", "", c.rootB)
  {
    NamesExactly(Get(values, "active", ""));
    NamesExactly(Get(values, "phase", ""));
    NamesExactly(Get(values, "edl_request", "0"));
    NamesExactly(Get(values, "normal_request", "0"));
    NamesExactly(Get(values, "usb_mode", "ncm"));
    hide ParseSlot, ParsePhase, ParseFlag, ParseUsb, SlotText, PhaseText;
  }

  // ---------------------------------------------------------------- blocks

  /** A block of 1024 bytes: the header, `text`, at most one NUL, and padding. `text` ends in neither. */
  predicate Shows(block: string, text: string, nul: string) {
    && |block| == 1024
    && (nul == [0 as char] || (nul == "" && (text == "" || text[|text| - 1] != 0 as char)))
    && (nul == "" && text != "" ==> text[|text| - 1] != '#')
    && |HEADER + text + nul| <= 1024 && block == HEADER + text + nul + Padding(1024 - |HEADER + text + nul|)
  }

  lemma {:induction false} PaddingStripped(s: string)
    ensures var text := StripPadding(s);
            |text| <= |s| && s == text + Padding(|s| - |text|) && (text != "" ==> text[|text| - 1] != '#')
  {
    if s != "" && s[|s| - 1] == '#' {
      PaddingStripped(s[..|s| - 1]);
    }
  }

  lemma NothingStripped(n: nat)
    ensures StripPadding(Padding(n)) == ""
  {
    if n > 0 {
      assert Padding(n)[..n - 1] == Padding(n - 1);
      NothingStripped(n - 1);
    }
  }

  /** The text of a block is unique, and it is the part that the decoder splits into lines. */
  lemma BodyExactly(block: string, text: string, nul: string)
    requires Shows(block, text, nul)
    ensures HEADER <= block && Body(block[|HEADER|..]) == text
  {
    var n := 1024 - |HEADER + text + nul|;
    hide HEADER;
    assert block[|HEADER|..] == (text + nul) + Padding(n);
    if text + nul == "" {
      NothingStripped(n);
      assert text + nul + Padding(n) == Padding(n);
    } else {
      StripPadded(text + nul, n);
    }
    hide StripPadding, Padding;
    assert (text + nul)[..|text|] == text;
  }

  lemma BodyShows(block: string)
    requires |block| == 1024 && HEADER <= block
    ensures exists nul :: Shows(block, Body(block[|HEADER|..]), nul)
  {
    hide HEADER;
    var rest := block[|HEADER|..];
    PaddingStripped(rest);
    var body, text := StripPadding(rest), Body(rest);
    var nul := body[|text|..];
    hide StripPadding;
    assert body == text + nul && block == HEADER + rest;
    assert HEADER + text + nul == HEADER + body;
    assert Shows(block, text, nul);
  }

  lemma HoldsOnce(v: map<string, string>, w: map<string, string>, lines: seq<string>)
    requires Holds(v, lines) && Holds(w, lines)
    ensures v == w
  {
    hide Key, Value;
    assert v.Keys == w.Keys;
  }

  /** A block decodes to `c` exactly when it shows a text whose lines are parsable and say `c`. */
  ghost predicate Tells(block: string, text: string, nul: string, values: map<string, string>, c: Control) {
    && Shows(block, text, nul) && Parsable(SplitLines(text)) && Holds(values, SplitLines(text)) && RecordIs(values, c)
  }

  lemma DecodesExactly(block: string, c: Control)
    ensures Decode(block) == Ok(c) <==> exists text, nul, values :: Tells(block, text, nul, values, c)
  {
    hide Shows, Parsable, Holds, RecordIs, SplitLines, ParseLines, FromValues, Body;
    if Decode(block) == Ok(c) {
      var text := Body(block[|HEADER|..]);
      BodyShows(block);
      var nul :| Shows(block, text, nul);
      ParsesExactly(SplitLines(text));
      var values := ParseLines(SplitLines(text)).value;
      RecordExactly(values, c);
      assert Tells(block, text, nul, values, c);
    }
    if exists text, nul, values :: Tells(block, text, nul, values, c) {
      var text, nul, values :| Tells(block, text, nul, values, c);
      Told(block, text, nul, values, c);
    }
  }

  lemma Told(block: string, text: string, nul: string, values: map<string, string>, c: Control)
    requires Tells(block, text, nul, values, c)
    ensures Decode(block) == Ok(c)
  {
    hide Parsable, Holds, RecordIs, SplitLines, ParseLines, FromValues, Body;
    assert |block| == 1024;
    hide Shows;
    BodyExactly(block, text, nul);
    ParsesExactly(SplitLines(text));
    HoldsOnce(values, ParseLines(SplitLines(text)).value, SplitLines(text));
    RecordExactly(values, c);
  }
}
