/** The boot files of one ESP, and the restartable migration to the fixed selector. */
module EspFiles {
  import opened Common
  import opened Bytes
  import opened BootControl

  type File = seq<byte>

  datatype Esp = Esp(
    primary: Option<File>,     // \Image, what the board starts
    recovery: Option<File>,    // \EFI\BOOT\BOOTAA64.EFI
    kernel: Option<File>,      // \EFI\vamos\Image
    edl: Option<File>,         // \EFI\vamos\edl.efi
    control: Option<Control>,  // \EFI\vamos\grubenv, as it decodes
    rest: Rest)

  /** What the ESP holds besides: nothing in the model writes it but an image. */
  datatype Rest = Rest(deviceTree: Option<File>, firmware: bool, clean: bool)

  const FDT: File := [0xd0, 0x0d, 0xfe, 0xed]

  /** A device tree with its header, the three firmware files, and a file system that fsck accepts. */
  predicate Supplied(rest: Rest) {
    rest.deviceTree.Some? && FDT <= rest.deviceTree.value && rest.firmware && rest.clean
  }

  /** MZ and PE headers within the first 4096 bytes, machine 0xaa64. */
  predicate Arm64Efi(image: File) {
    var header := image[..Min(|image|, 4096)];
    && |header| >= 64 && header[..2] == [0x4d, 0x5a]
    && var pe := Le32(header, 0x3c);
       pe + 6 <= |header| && header[pe..pe + 4] == [0x50, 0x45, 0, 0] && Le16(header, pe + 4) == 0xaa64
  }

  /** The same byte by byte: "MZ", the offset at 60, "PE", and the machine number, all in the first 4096 bytes. */
  predicate Loadable(f: File) {
    && |f| >= 64 && f[0] == 77 && f[1] == 90
    && var pe := (f[60] as int) + 0x100 * (f[61] as int) + 0x1_0000 * (f[62] as int) + 0x100_0000 * (f[63] as int);
       && pe + 6 <= |f| && pe + 6 <= 4096
       && f[pe] == 80 && f[pe + 1] == 69 && f[pe + 2] == 0 && f[pe + 3] == 0 && f[pe + 4] == 0x64 && f[pe + 5] == 0xaa
  }

  lemma LoadableExactly(f: File)
    ensures Arm64Efi(f) <==> Loadable(f)
  {
    var header := f[..Min(|f|, 4096)];
    if |f| >= 64 {
      assert header[..2] == [header[0], header[1]];
      var pe := Le32(header, 0x3c);
      if pe + 6 <= |header| { assert header[pe..pe + 4] == [header[pe], header[pe + 1], header[pe + 2], header[pe + 3]]; }
    }
  }

  /** `verify_esp_contents`. */
  predicate EspVerifies(e: Esp) {
    && e.primary.Some? && e.recovery.Some? && e.kernel.Some? && e.edl.Some? && e.control.Some?
    && Arm64Efi(e.primary.value) && Arm64Efi(e.recovery.value)
    && Arm64Efi(e.kernel.value) && Arm64Efi(e.edl.value)
    && e.primary == e.recovery && Supplied(e.rest)
  }

  // ---------------------------------------------------------------- selector migration

  /** What one run of `_install_selector_on_slot` writes. */
  datatype Migration = Migration(selector: File, application: File, control: Control)

  /** The ESP after the first `k` of the five writes: kernel (when missing), control, EDL, recovery, primary. */
  function Migrated(e: Esp, m: Migration, k: nat): Esp {
    var e1 := if k >= 1 && e.kernel == None then e.(kernel := e.primary) else e;
    var e2 := if k >= 2 then e1.(control := Some(m.control)) else e1;
    var e3 := if k >= 3 then e2.(edl := Some(m.application)) else e2;
    var e4 := if k >= 4 then e3.(recovery := Some(m.selector)) else e3;
    if k >= 5 then e4.(primary := Some(m.selector)) else e4
  }

  /** How many writes a run makes before a check raises; 5 exactly when it completes. */
  function Reach(e: Esp, m: Migration): (k: nat)
    ensures k <= 5
  {
    var kernel := if e.kernel == None then e.primary else e.kernel;
    if e.kernel == None && (e.primary == None || e.primary == Some([]) || e.primary == Some(m.selector)) then 0
    else if !Arm64Efi(kernel.value) then 1
    else if !Arm64Efi(m.application) then 3
    else if !Arm64Efi(m.selector) then 4
    else 5
  }

  /** The kernel that a loader starts; selectors start the preserved kernel, anything else is the kernel itself. */
  function Starts(e: Esp, loader: Option<File>, isSelector: File -> bool): Option<File> {
    if loader.Some? && isSelector(loader.value) then e.kernel else loader
  }

  /** Legacy, half-migrated or migrated: every loader of the ESP starts `kernel`. */
  predicate Carries(e: Esp, kernel: File, isSelector: File -> bool) {
    && Starts(e, e.primary, isSelector) == Some(kernel)
    && (e.recovery == None || Starts(e, e.recovery, isSelector) == Some(kernel))
    && (e.kernel == None || e.kernel == Some(kernel))
  }

  /** With the missing kernel written, the rest of the run is that of an ESP that had it. */
  lemma KernelFirst(e: Esp, m: Migration)
    requires e.kernel == None && Reach(e, m) > 0
    ensures var had := e.(kernel := e.primary);
            Reach(had, m) == Reach(e, m) && forall k :: 1 <= k <= 5 ==> Migrated(had, m, k) == Migrated(e, m, k)
  {
  }

  /** At any cut a kernel that was there stays, and the record is the old one or, behind its write, the new one. */
  lemma MigratedKeeps(e: Esp, m: Migration)
    requires e.kernel.Some? && e.primary.Some?
    ensures forall k :: 0 <= k <= 5 ==>
      && Migrated(e, m, k).kernel == e.kernel && Migrated(e, m, k).primary.Some?
      && Migrated(e, m, k).control == if k < 2 then e.control else Some(m.control)
  {
  }

  /** One run, cut after any number of its writes. */
  function Attempt(e: Esp, m: Migration, cut: nat): Esp {
    Migrated(e, m, Min(Reach(e, m), cut))
  }

  function Attempts(e: Esp, ms: seq<Migration>, cuts: seq<nat>): Esp
    requires |ms| == |cuts|
  {
    if ms == [] then e
    else var n := |ms| - 1; Attempt(Attempts(e, ms[..n], cuts[..n]), ms[n], cuts[n])
  }

  lemma AttemptCarries(e: Esp, kernel: File, isSelector: File -> bool, m: Migration, cut: nat)
    requires Carries(e, kernel, isSelector) && isSelector(m.selector)
    ensures Carries(Attempt(e, m, cut), kernel, isSelector)
  {
  }

  /** However many runs are interrupted wherever, every loader on the ESP still starts the same kernel. */
  lemma {:induction false} MigrationIsCrashSafe(
      e: Esp, kernel: File, isSelector: File -> bool, ms: seq<Migration>, cuts: seq<nat>)
    requires |ms| == |cuts| && Carries(e, kernel, isSelector)
    requires forall i :: 0 <= i < |ms| ==> isSelector(ms[i].selector)
    ensures Carries(Attempts(e, ms, cuts), kernel, isSelector)
  {
    if ms != [] {
      var n := |ms| - 1;
      MigrationIsCrashSafe(e, kernel, isSelector, ms[..n], cuts[..n]);
      AttemptCarries(Attempts(e, ms[..n], cuts[..n]), kernel, isSelector, ms[n], cuts[n]);
    }
  }

  lemma {:induction false} AttemptsKeepRest(e: Esp, ms: seq<Migration>, cuts: seq<nat>)
    requires |ms| == |cuts|
    ensures Attempts(e, ms, cuts).rest == e.rest
  {
    hide Reach;
    if ms != [] { AttemptsKeepRest(e, ms[..|ms| - 1], cuts[..|ms| - 1]); }
  }

  /** A completed run, after any interrupted ones, leaves the selector as both loaders and the kernel as it was. */
  lemma MigrationCompletes(e: Esp, kernel: File, isSelector: File -> bool, ms: seq<Migration>, cuts: seq<nat>, m: Migration)
    requires |ms| == |cuts| && Carries(e, kernel, isSelector) && isSelector(m.selector)
    requires forall i :: 0 <= i < |ms| ==> isSelector(ms[i].selector)
    requires Arm64Efi(kernel) && Arm64Efi(m.application) && Arm64Efi(m.selector) && Supplied(e.rest)
    ensures var before := Attempts(e, ms, cuts);
            var done := Attempt(before, m, 5);
            && done == before.(primary := Some(m.selector), recovery := Some(m.selector), kernel := Some(kernel),
                               edl := Some(m.application), control := Some(m.control))
            && EspVerifies(done)
  {
    MigrationIsCrashSafe(e, kernel, isSelector, ms, cuts);
    AttemptsKeepRest(e, ms, cuts);
    assert |kernel| >= 64;
    hide Arm64Efi, Attempts;
  }

  /**
   * On any ESP, a completed run keeps what the board starts exactly when the primary loader is a selector
   * with its kernel beside it, or a kernel with no other kernel beside it.
   */
  lemma MigrationKeepsStart(e: Esp, isSelector: File -> bool, m: Migration)
    requires isSelector(m.selector) && Reach(e, m) == 5
    ensures var done := Attempt(e, m, 5);
            Starts(done, done.primary, isSelector) == Starts(e, e.primary, isSelector) <==>
            && e.primary.Some?
            && if isSelector(e.primary.value) then e.kernel.Some? else e.kernel == None || e.kernel == e.primary
  {
    hide Arm64Efi;
  }

  /** The loaders are replaced only behind a kernel, an EDL application and a selector that can be loaded. */
  lemma MigrationNeedsLoadable(e: Esp, m: Migration, cut: nat)
    ensures var kernel := if e.kernel == None then e.primary else e.kernel;
            && (Attempt(e, m, cut).control != e.control ==> kernel.Some? && Loadable(kernel.value))
            && (Attempt(e, m, cut).recovery != e.recovery ==> kernel.Some? && Loadable(kernel.value) && Loadable(m.application))
            && (Attempt(e, m, cut).primary != e.primary ==>
                  kernel.Some? && Loadable(kernel.value) && Loadable(m.application) && Loadable(m.selector))
    ensures e.kernel == None && (e.primary == None || e.primary == Some([]) || e.primary == Some(m.selector)) ==> Attempt(e, m, cut) == e
  {
    LoadableExactly(if e.kernel.Some? then e.kernel.value else if e.primary.Some? then e.primary.value else []);
    LoadableExactly(m.application);
    LoadableExactly(m.selector);
    hide Arm64Efi, Loadable;
  }

  /** Whatever the cut: a file has its old or its new content, and it is new only when all that precede it are. */
  lemma MigrationOrder(e: Esp, m: Migration, cut: nat)
    ensures var done := Attempt(e, m, cut);
            && done.kernel == (if e.kernel.Some? || done == e then e.kernel else e.primary) && done.rest == e.rest
            && (done.control != e.control ==> done.control == Some(m.control) && done.kernel.Some?)
            && (done.edl != e.edl ==> done.edl == Some(m.application) && done.control == Some(m.control))
            && (done.recovery != e.recovery ==> done.recovery == Some(m.selector) && done.edl == Some(m.application))
            && (done.primary != e.primary ==> done.primary == Some(m.selector) && done.recovery == Some(m.selector))
  {
    hide Arm64Efi;
  }

  /** A small image with valid headers; the last byte tells images apart. */
  function TinyEfi(tag: byte): (image: File)
    ensures Arm64Efi(image) && |image| == 72 && image[71] == tag
  {
    var image: File := seq(72, i => if i == 0 then 0x4d else if i == 1 then 0x5a else if i == 0x3c then 64
                             else if i == 64 then 0x50 else if i == 65 then 0x45
                             else if i == 68 then 0x64 else if i == 69 then 0xaa else if i == 71 then tag else 0);
    assert image[..Min(|image|, 4096)] == image;
    assert image[..2] == [0x4d, 0x5a] && image[64..68] == [0x50, 0x45, 0, 0];
    image
  }

  /** The failing case exists: a kernel as primary loader beside another kernel file, which the board then starts. */
  lemma MigrationSwitchesKernels() returns (e: Esp, m: Migration, isSelector: File -> bool)
    ensures isSelector(m.selector) && Reach(e, m) == 5 && e.primary.Some? && e.kernel.Some?
    ensures Starts(e, e.primary, isSelector) == e.primary
    ensures var done := Attempt(e, m, 5); Starts(done, done.primary, isSelector) == e.kernel != e.primary
  {
    var first, second, selector := TinyEfi(1), TinyEfi(2), TinyEfi(3);
    var none := Boot(0, Unknown, None);
    isSelector := (f: File) => f == selector;
    e := Esp(Some(first), None, Some(second), None, None, Rest(None, false, true));
    m := Migration(selector, selector, Control(1, A, "", Stable, "", "", false, false, Ncm, none, none));
    hide Arm64Efi;
    assert first[71] != second[71] && first[71] != selector[71];
  }
}
