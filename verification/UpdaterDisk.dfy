/** What survives power loss on a device with two slots, and the safety that every step has to keep. */
module UpdaterDisk {
  import opened Common
  import opened BootControl
  import opened BootControlCodec
  import opened RedundantStore
  import opened EspFiles

  datatype PerSlot<T> = PerSlot(a: T, b: T) {
    function At(slot: Slot): T {
      if slot == A then a else b
    }

    function Put(slot: Slot, value: T): PerSlot<T> {
      if slot == A then this.(a := value) else this.(b := value)
    }
  }

  /** One image of a manifest. */
  datatype Spec = Spec(size: nat, digest: File)

  datatype Manifest = Manifest(version: string, system: Spec, esp: Spec)

  /** A chunk of the ESP image, and the file system that the target ESP shows once it is written. */
  datatype Piece = Piece(bytes: File, shows: Esp)

  /** What the image sources deliver, chunk by chunk. Either source may end early. */
  datatype Sources = Sources(systemChunks: seq<File>, espPieces: seq<Piece>)

  datatype Name = Absent | Writing | Verified | Ready | Booting | Committed | RolledBack | Failed

  /** The persistent state.json: the fields that decide anything. */
  datatype State = State(name: Name, active: Option<Slot>, target: Option<Slot>, images: Option<Manifest>, customized: bool)

  /** What a slot runs: its kernel and its root file system. */
  datatype Payload = Payload(kernel: Option<File>, system: File)

  /** Everything that survives power loss, with the history of verifications, armings and trials. */
  datatype Disk = Disk(
    esp: PerSlot<Esp>, system: PerSlot<File>, state: State,
    vouched: PerSlot<Option<Payload>>,  // the payload last verified for activation, until it is written again
    armings: nat, trials: nat)
  {
    function Copies(): Copies {
      RedundantStore.Copies(esp.a.control, esp.b.control)
    }

    function Runs(slot: Slot): Payload {
      Payload(esp.At(slot).kernel, system.At(slot))
    }

    /** The same disk with these two records. */
    function WithCopies(cs: Copies): Disk {
      this.(esp := PerSlot(esp.a.(control := cs.a), esp.b.(control := cs.b)))
    }

    /** The slot is bootable and unchanged since it was last vouched for. */
    predicate Intact(slot: Slot) {
      && vouched.At(slot) == Some(Runs(slot))
      && esp.At(slot).primary.Some? && esp.At(slot).kernel.Some?
    }

    /** The whole-run safety property. */
    predicate Safe(checks: Checks) {
      var selected := Selected(Copies());
      && selected.Some?
      && var c := selected.value;
         var pending := c.active.Other();
         && Intact(c.active)
         && (c.phase != Stable ==>
               && c.pending == SlotName(pending)
               && Intact(pending) && checks.Pass(esp.At(pending), system.At(pending), state)
               && state.active == Some(c.active) && state.target == Some(pending) && state.customized)
         && (state.name == Verified || state.name == Ready ==> state.customized)
         && trials + (if c.phase == Armed then 1 else 0) <= armings
    }
  }

  /** Hashes and the content check of a system image, which the model leaves uninterpreted. */
  datatype Checks = Checks(sha: File -> File, espSha: Esp -> File, systemGood: (File, string) -> bool) {
    /** `verify_installed`, `verify_system_contents` and `verify_esp_contents` on the target slot. */
    predicate Pass(e: Esp, system: File, state: State) {
      && state.images.Some?
      && var m := state.images.value;
         && m.system.size <= |system| && sha(system[..m.system.size]) == m.system.digest
         && (state.customized || espSha(e) == m.esp.digest)
         && systemGood(system, m.version)
         && EspVerifies(e)
    }
  }

  /** Only the boot-control files of the two ESPs differ. */
  predicate SameFiles(e: PerSlot<Esp>, f: PerSlot<Esp>) {
    e.a.(control := f.a.control) == f.a && e.b.(control := f.b.control) == f.b
  }

  /** No copy that could be read has become unreadable. */
  predicate Readable(e: PerSlot<Esp>, f: PerSlot<Esp>) {
    (e.a.control.Some? ==> f.a.control.Some?) && (e.b.control.Some? ==> f.b.control.Some?)
  }

  /** A new record that settles on an intact slot, or keeps the trial as it is, keeps the device safe. */
  lemma RecordKeepsSafe(d: Disk, e: PerSlot<Esp>, checks: Checks)
    requires d.Safe(checks) && SameFiles(d.esp, e) && Readable(d.esp, e)
    requires Selected(d.(esp := e).Copies()).Some?
    requires var c, n := Selected(d.Copies()).value, Selected(d.(esp := e).Copies()).value;
             || (n.phase == Stable && d.Intact(n.active))
             || (n.active == c.active && n.phase == c.phase && n.pending == c.pending)
             || (n.active == c.active && n.phase == Attempted && c.phase == Armed && n.pending == c.pending)
    ensures d.(esp := e).Safe(checks)
  {
    hide Encode, Encodable, Arm64Efi;
  }

  lemma SafeActive(d: Disk, checks: Checks)
    requires d.Safe(checks)
    ensures Selected(d.Copies()).Some? && d.Intact(Selected(d.Copies()).value.active)
    ensures Selected(d.Copies()).value.phase != Stable ==> d.state.active == Some(Selected(d.Copies()).value.active)
    ensures d.state.name == Verified || d.state.name == Ready ==> d.state.customized
  {
  }

  /** While no trial is pending, only a claim of verified images needs backing. */
  lemma StateKeepsSafe(d: Disk, s: State, checks: Checks)
    requires d.Safe(checks) && Selected(d.Copies()).value.phase == Stable
    requires s.name == Verified || s.name == Ready ==> s.customized
    ensures d.(state := s).Safe(checks)
  {
    hide Encode, Encodable, Arm64Efi;
  }

  /** While the running slot's own copy is selected and stable, the other slot may show anything older. */
  lemma TargetKeepsSafe(d: Disk, running: Slot, e: Esp, system: File, checks: Checks)
    requires d.Safe(checks)
    requires var c := Selected(d.Copies()).value;
             && c.phase == Stable && c.active == running && d.Copies().At(running) == Some(c)
             && (e == d.esp.At(running.Other()) || (e.control.Some? ==> e.control.value.generation < c.generation))
    ensures var target := running.Other();
            var after := d.(esp := d.esp.Put(target, e), system := d.system.Put(target, system), vouched := d.vouched.Put(target, None));
            && after.Safe(checks) && Selected(after.Copies()) == Selected(d.Copies())
            && after.Copies().At(running) == d.Copies().At(running)
  {
    hide Encode, Encodable, Arm64Efi, EspVerifies;
  }

  /** New boot files around the same kernel, and the old record or a newer stable one, keep the running slot home. */
  lemma HomeKeepsSafe(d: Disk, running: Slot, e: Esp, c: Control, checks: Checks)
    requires d.Safe(checks)
    requires var p := Selected(d.Copies()).value;
             && p.phase == Stable && p.active == running && d.Copies().At(running) == Some(p)
             && c.phase == Stable && c.active == running && c.generation > p.generation
             && e.kernel == d.esp.At(running).kernel && e.primary.Some? && (e.control == Some(p) || e.control == Some(c))
    ensures var after := d.(esp := d.esp.Put(running, e));
            && after.Safe(checks) && Selected(after.Copies()) == e.control == after.Copies().At(running)
  {
    hide Encode, Encodable, Arm64Efi, EspVerifies;
  }

  /** The other copy may take the record that the running slot's copy already holds. */
  lemma BothKeepSafe(d: Disk, running: Slot, c: Control, checks: Checks)
    requires d.Safe(checks) && Selected(d.Copies()) == Some(c) == d.Copies().At(running)
    requires c.phase == Stable && c.active == running
    ensures var target := running.Other();
            var after := d.(esp := d.esp.Put(target, d.esp.At(target).(control := Some(c))));
            && after.Safe(checks) && Selected(after.Copies()) == Some(c) == after.Copies().At(running)
  {
    hide Encode, Encodable, Arm64Efi, EspVerifies;
  }

  /** The name of the state decides nothing about a trial. */
  lemma NameKeepsSafe(d: Disk, name: Name, checks: Checks)
    requires d.Safe(checks) && (name == Verified || name == Ready ==> d.state.customized)
    ensures d.(state := d.state.(name := name)).Safe(checks)
  {
    hide Encode, Encodable, Arm64Efi, EspVerifies;
  }

  /** Vouching for a slot that has just passed its checks keeps the device safe, and leaves one arming to use. */
  lemma VouchKeepsSafe(d: Disk, slot: Slot, checks: Checks)
    requires d.Safe(checks) && checks.Pass(d.esp.At(slot), d.system.At(slot), d.state)
    ensures var after := d.(vouched := d.vouched.Put(slot, Some(d.Runs(slot))), armings := d.armings + 1);
            after.Safe(checks) && after.Intact(slot) && after.trials < after.armings
  {
    hide Encode, Encodable, Arm64Efi;
  }

  /** Arming a trial of a slot that has just passed its checks keeps the device safe. */
  lemma ArmKeepsSafe(d: Disk, e: PerSlot<Esp>, checks: Checks)
    requires d.Safe(checks) && SameFiles(d.esp, e) && Readable(d.esp, e)
    requires Selected(d.(esp := e).Copies()).Some?
    requires var c, n := Selected(d.Copies()).value, Selected(d.(esp := e).Copies()).value;
             var target := c.active.Other();
             && (n == c || (n.active == c.active && n.phase == Armed && n.pending == SlotName(target)))
             && d.Intact(target) && checks.Pass(d.esp.At(target), d.system.At(target), d.state)
             && d.state.active == Some(c.active) && d.state.target == Some(target) && d.state.customized
             && d.trials < d.armings
    ensures d.(esp := e).Safe(checks)
  {
    hide Encode, Encodable, Arm64Efi;
  }
}
