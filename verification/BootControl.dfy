/** The 1024-byte GRUB environment block that carries the A/B boot-control record. */
module BootControl {
  import opened Common

  datatype Phase = Armed | Attempted | Stable
  datatype UsbMode = Host | Ncm
  datatype Stage = Unknown | Loading | Kernel | Userspace | Healthy
  datatype Boot = Boot(count: nat, stage: Stage, slot: Option<Slot>)

  /** The known fields of a record. Unknown keys of a block are dropped when it is rewritten. */
  datatype Control = Control(
    generation: nat, active: Slot, pending: string, phase: Phase,
    rootA: string, rootB: string, edlRequest: bool, normalRequest: bool,
    usb: UsbMode, boot: Boot, prev: Boot)

  const BLOCK_SIZE := 1024
  const COUNT_LIMIT := 0x1_0000_0000_0000_0000
  const TITLE := "# GRUB Environment Block\n"
  const NOTICE := "# WARNING: Do not edit this file "
  const TOOLS := "by tools other than grub-editenv!!!\n"
  const HEADER := TITLE + NOTICE + TOOLS

  // ---------------------------------------------------------------- values as text

  function Rank(p: Phase): nat {
    match p case Armed => 1 case Attempted => 2 case Stable => 3
  }

  function SlotName(s: Slot): string {
    if s == A then "a" else "b"
  }

  function ParseSlot(s: string): Result<Slot> {
    if s == "a" then Ok(A) else if s == "b" then Ok(B) else Err
  }

  function BootSlotName(s: Option<Slot>): string {
    if s == None then "-" else SlotName(s.value)
  }

  function ParseBootSlot(s: string): Result<Option<Slot>> {
    if s == "-" then Ok(None) else var slot :- ParseSlot(s); Ok(Some(slot))
  }

  function PhaseName(p: Phase): string {
    match p case Armed => "armed" case Attempted => "attempted" case Stable => "stable"
  }

  function ParsePhase(s: string): Result<Phase> {
    if s == "armed" then Ok(Armed) else if s == "attempted" then Ok(Attempted)
    else if s == "stable" then Ok(Stable) else Err
  }

  function FlagName(b: bool): string {
    if b then "1" else "0"
  }

  function ParseFlag(s: string): Result<bool> {
    if s == "0" then Ok(false) else if s == "1" then Ok(true) else Err
  }

  function UsbName(u: UsbMode): string {
    if u == Host then "host" else "ncm"
  }

  function ParseUsb(s: string): Result<UsbMode> {
    if s == "host" then Ok(Host) else if s == "ncm" then Ok(Ncm) else Err
  }

  function StageName(s: Stage): string {
    match s
    case Unknown => "unknown" case Loading => "loading" case Kernel => "kernel"
    case Userspace => "userspace" case Healthy => "healthy"
  }

  function ParseStage(s: string): Result<Stage> {
    if s == "unknown" then Ok(Unknown) else if s == "loading" then Ok(Loading)
    else if s == "kernel" then Ok(Kernel) else if s == "userspace" then Ok(Userspace)
    else if s == "healthy" then Ok(Healthy) else Err
  }

  function Decimal(n: nat): (s: string)
    ensures |s| > 0 && forall i :: 0 <= i < |s| ==> IsDigit(s[i])
  {
    if n < 10 then ['0' + n as char] else Decimal(n / 10) + ['0' + (n % 10) as char]
  }

  predicate IsDigit(c: char) {
    '0' <= c <= '9'
  }

  predicate IsSpace(c: char) {
    c == ' ' || '\t' <= c <= '\r'
  }

  function StripLeft(s: string): string {
    if s != "" && IsSpace(s[0]) then StripLeft(s[1..]) else s
  }

  function StripRight(s: string): string {
    if s != "" && IsSpace(s[|s| - 1]) then StripRight(s[..|s| - 1]) else s
  }

  /** Python's `int()` on digits: single underscores may separate digits. */
  function Digits(s: string): Result<nat> {
    if s == "" || !IsDigit(s[|s| - 1]) then Err
    else
      var last := (s[|s| - 1] - '0') as nat;
      var front := s[..|s| - 1];
      if front == "" then Ok(last)
      else
        var high :- Digits(if front[|front| - 1] == '_' then front[..|front| - 1] else front);
        Ok(10 * high + last)
  }

  /** Python's `int()` on an ASCII string: surrounding space and one sign are accepted. */
  function ParseInt(s: string): Result<int> {
    var t := StripRight(StripLeft(s));
    var signed := t != "" && (t[0] == '-' || t[0] == '+');
    var digits := Digits(if signed then t[1..] else t);
    if digits.Err? then Err
    else var value: int := if signed && t[0] == '-' then -(digits.value as int) else digits.value; Ok(value)
  }

  /** `PART(?:UUID|LABEL)=[A-Za-z0-9._-]+`, matched in full. */
  predicate RootOk(s: string) {
    || ("PARTUUID=" <= s && |s| > 9 && forall i :: 9 <= i < |s| ==> RootChar(s[i]))
    || ("PARTLABEL=" <= s && |s| > 10 && forall i :: 10 <= i < |s| ==> RootChar(s[i]))
  }

  predicate RootChar(c: char) {
    'A' <= c <= 'Z' || 'a' <= c <= 'z' || '0' <= c <= '9' || c == '.' || c == '_' || c == '-'
  }

  /** ASCII text without a line break: what one line of the block can carry. */
  predicate Inline(s: string) {
    forall i :: 0 <= i < |s| ==> InlineChar(s[i])
  }

  predicate InlineChar(c: char) {
    c != '\n' && c != '\r' && c < 128 as char
  }

  // ---------------------------------------------------------------- encoding

  const KEYS := ["generation", "active", "pending", "phase", "root_a", "root_b",
                 "edl_request", "normal_request", "usb_mode",
                 "boot_count", "boot_stage", "boot_slot", "prev_count", "prev_stage", "prev_slot"]

  function Values(c: Control): (vs: seq<string>)
    ensures |vs| == 15
  {
    [Decimal(c.generation), SlotName(c.active), c.pending, PhaseName(c.phase), c.rootA, c.rootB,
     FlagName(c.edlRequest), FlagName(c.normalRequest), UsbName(c.usb),
     Decimal(c.boot.count), StageName(c.boot.stage), BootSlotName(c.boot.slot),
     Decimal(c.prev.count), StageName(c.prev.stage), BootSlotName(c.prev.slot)]
  }

  /** The lines of a block, in the order they are written. */
  function Fields(c: Control): (fs: seq<(string, string)>)
    ensures |fs| == 15
  {
    seq(15, i requires 0 <= i < 15 => (KEYS[i], Values(c)[i]))
  }

  function Line(f: (string, string)): string {
    f.0 + "=" + f.1
  }

  function Text(fs: seq<(string, string)>): string {
    if fs == [] then "" else Line(fs[0]) + "\n" + Text(fs[1..])
  }

  function Padding(n: nat): (s: string)
    ensures |s| == n && forall i :: 0 <= i < n ==> s[i] == '#'
  {
    seq(n, i => '#')
  }

  function Padded(text: string): (block: string)
    requires |text| <= BLOCK_SIZE
    ensures |block| == BLOCK_SIZE
  {
    text + Padding(BLOCK_SIZE - |text|)
  }

  /** Encoding decodes its own result before returning it, so an invalid record raises. */
  function Encode(c: Control): Result<string> {
    var payload := HEADER + Text(Fields(c));
    if !Inline(c.pending) || !Inline(c.rootA) || !Inline(c.rootB) then Err
    else if |payload| > BLOCK_SIZE then Err
    else
      var _ :- Decode(Padded(payload));
      Ok(Padded(payload))
  }

  predicate Fits(c: Control) {
    |HEADER| + |Text(Fields(c))| <= BLOCK_SIZE
  }

  // ---------------------------------------------------------------- decoding

  function StripPadding(s: string): string {
    if s != "" && s[|s| - 1] == '#' then StripPadding(s[..|s| - 1]) else s
  }

  /** The lines before the padding, without one legacy NUL. */
  function Body(content: string): string {
    var body := StripPadding(content);
    if body != "" && body[|body| - 1] == 0 as char then body[..|body| - 1] else body
  }

  /** Length of the first line. */
  function LineEnd(s: string): (n: nat)
    ensures n <= |s| && (forall i :: 0 <= i < n ==> s[i] != '\n' && s[i] != '\r')
    ensures n < |s| ==> s[n] == '\n' || s[n] == '\r'
  {
    if s == "" || s[0] == '\n' || s[0] == '\r' then 0 else 1 + LineEnd(s[1..])
  }

  /** `bytes.splitlines()`: a line ends at \n, \r or \r\n. */
  function SplitLines(s: string): seq<string> {
    if s == "" then []
    else
      var n := LineEnd(s);
      var next := if n + 1 < |s| && s[n] == '\r' && s[n + 1] == '\n' then n + 2
                  else if n < |s| then n + 1 else n;
      [s[..n]] + SplitLines(s[next..])
  }

  /** Position of the first '=' in a line, or its length. */
  function Separator(line: string): (n: nat)
    ensures n <= |line| && (forall i :: 0 <= i < n ==> line[i] != '=')
    ensures n < |line| ==> line[n] == '='
  {
    if line == "" || line[0] == '=' then 0 else 1 + Separator(line[1..])
  }

  /** One turn of the parsing loop: refuses non-ASCII, a missing '=' and a repeated key. */
  function AddLine(values: map<string, string>, line: string): Result<map<string, string>> {
    var n := Separator(line);
    if exists i :: 0 <= i < |line| && line[i] >= 128 as char then Err
    else if n == |line| || line[..n] in values then Err
    else Ok(values[line[..n] := line[n + 1..]])
  }

  function ParseLines(lines: seq<string>): Result<map<string, string>> {
    if lines == [] then Ok(map[])
    else
      var values :- ParseLines(lines[..|lines| - 1]);
      AddLine(values, lines[|lines| - 1])
  }

  function Get(values: map<string, string>, key: string, default: string): string {
    if key in values then values[key] else default
  }

  function ParseBoot(count: string, stage: string, slot: string): Result<Boot> {
    var n :- ParseInt(count);
    var _ :- Need(0 <= n < COUNT_LIMIT);
    var st :- ParseStage(stage);
    var sl :- ParseBootSlot(slot);
    Ok(Boot(n, st, sl))
  }

  predicate TrialOk(active: Slot, pending: string, phase: Phase) {
    phase == Stable || pending == SlotName(active.Other())
  }

  function FromValues(values: map<string, string>): Result<Control> {
    var _ :- Need("generation" in values);
    var generation :- ParseInt(values["generation"]);
    var _ :- Need(generation >= 0);
    var active :- ParseSlot(Get(values, "active", ""));
    var phase :- ParsePhase(Get(values, "phase", ""));
    var edl :- ParseFlag(Get(values, "edl_request", "0"));
    var normal :- ParseFlag(Get(values, "normal_request", "0"));
    var usb :- ParseUsb(Get(values, "usb_mode", "ncm"));
    var pending := Get(values, "pending", "");
    var _ :- Need(TrialOk(active, pending, phase));
    var rootA, rootB := Get(values, "root_a", ""), Get(values, "root_b", "");
    var _ :- Need(RootOk(rootA) && RootOk(rootB));
    var boot :- ParseBoot(Get(values, "boot_count", "0"), Get(values, "boot_stage", "unknown"), Get(values, "boot_slot", "-"));
    var prev :- ParseBoot(Get(values, "prev_count", "0"), Get(values, "prev_stage", "unknown"), Get(values, "prev_slot", "-"));
    Ok(Control(generation, active, pending, phase, rootA, rootB, edl, normal, usb, boot, prev))
  }

  function Decode(block: string): Result<Control> {
    if |block| != BLOCK_SIZE || !(HEADER <= block) then Err
    else
      var values :- ParseLines(SplitLines(Body(block[|HEADER|..])));
      FromValues(values)
  }
}
