/** What each writer of the boot-control record stores, field by field, and what selection picks. */
module WriterOutcomes {
  import opened Common
  import opened BootControl
  import opened BootControlCodec
  import opened RedundantStore
  import opened UpdaterDisk
  import opened UpdaterSteps
  import opened UpdaterSafety

  /**
   * Selection takes the higher generation; at equal generations a stable record before an attempted one before
   * an armed one; and copy a when nothing tells them apart. A copy that cannot be read does not count.
   */
  lemma SelectedIsNewest(cs: Copies)
    ensures cs.a == None ==> Selected(cs) == cs.b
    ensures cs.b == None ==> Selected(cs) == cs.a
    ensures cs.a.Some? && cs.b.Some? ==>
      var x, y := cs.a.value, cs.b.value;
      && (x.generation > y.generation ==> Selected(cs) == cs.a) && (x.generation < y.generation ==> Selected(cs) == cs.b)
      && (x.generation == y.generation ==>
            Selected(cs) == if (y.phase == Stable && x.phase != Stable) || (y.phase == Attempted && x.phase == Armed) then cs.b else cs.a)
  {
  }

  /** A write that ended as `r`: the record `want` is selected, or the old one is; an error with power left changed nothing. */
  ghost predicate Outcome(m: Machine, n: Machine, r: Result<nat>, want: Control) {
    && (r.Ok? ==> n.on && r.value == want.generation && Selected(n.Copies()) == Some(want))
    && (Selected(n.Copies()) == Selected(m.Copies()) || Selected(n.Copies()) == Some(want))
    && (r.Err? && n.on ==> n == m.(power := n.power))
    && (Encodable(want) && m.power >= 2 && Bootable(m, m.running) ==> r.Ok?)
  }

  lemma StoredOutcome(m: Machine, w: Writer, want: Control)
    requires m.on && !Strict(w) && Next(m.Copies(), w) == Storable(want)
    ensures Outcome(m, m.Recorded(w).0, m.Recorded(w).1, want)
  {
    hide Encodable, Selected, Next;
    RecordedCases(m, w);
    if Next(m.Copies(), w).Ok? { RefusedBySome(m, w, want); }
  }

  /** A write that no copy took changed nothing. */
  lemma RefusedBySome(m: Machine, w: Writer, want: Control)
    requires m.on && !Strict(w) && Next(m.Copies(), w) == Ok(Some(want))
    ensures var (n, r) := m.Recorded(w); (r.Ok? ==> r.value == want.generation) && (r.Err? && n.on ==> n == m.(power := n.power))
  {
    hide Next, Encodable, Selected;
    var takers := m.Takers(w);
    if A !in takers && B !in takers { assert Written(m.Copies(), w, want, takers, Min2(m.power)) == m.Copies(); }
  }

  function Min2(n: nat): nat {
    if n < 2 then n else 2
  }

  /** A fresh record for `active`, when no copy can be read. */
  function Fresh(active: Slot): Control {
    Control(0, active, "", Stable, "", "", false, false, Ncm, BootControl.Boot(0, Unknown, None), BootControl.Boot(0, Unknown, None))
  }

  /** `request_edl`: the next boot enters EDL; every other field stays. Without a readable copy it raises. */
  lemma EdlStored(m: Machine)
    requires m.on
    ensures var (n, r) := m.Recorded(RequestEdl);
            if Selected(m.Copies()) == None then r.Err? && n == m
            else var c := Selected(m.Copies()).value; Outcome(m, n, r, c.(generation := c.generation + 1, edlRequest := true, normalRequest := false))
  {
    hide Encodable, Selected;
    if Selected(m.Copies()).Some? {
      var c := Selected(m.Copies()).value;
      StoredOutcome(m, RequestEdl, c.(generation := c.generation + 1, edlRequest := true, normalRequest := false));
    }
  }

  /** `set_usb_mode`: the mode alone changes; pending requests stay. */
  lemma UsbStored(m: Machine, mode: UsbMode)
    requires m.on
    ensures var (n, r) := m.Recorded(SetUsb(mode));
            if Selected(m.Copies()) == None then r.Err? && n == m
            else var c := Selected(m.Copies()).value; Outcome(m, n, r, c.(generation := c.generation + 1, usb := mode))
  {
    hide Encodable, Selected;
    if Selected(m.Copies()).Some? {
      var c := Selected(m.Copies()).value;
      StoredOutcome(m, SetUsb(mode), c.(generation := c.generation + 1, usb := mode));
    }
  }

  /** `record_stage`: the stage of the running boot alone changes; a record of another boot or slot is not touched. */
  lemma StageStored(m: Machine, stage: Stage, count: nat, slot: Slot)
    requires m.on
    ensures var (n, r) := m.Recorded(RecordStage(stage, count, slot));
            if Selected(m.Copies()) == None then r.Err? && n == m
            else
              var c := Selected(m.Copies()).value;
              if (stage != Userspace && stage != Healthy) || c.boot.count != count || c.boot.slot != Some(slot) then r.Err? && n == m
              else if c.boot.stage == stage then r == Ok(c.generation) && n == m
              else Outcome(m, n, r, c.(generation := c.generation + 1, boot := BootControl.Boot(c.boot.count, stage, c.boot.slot)))
  {
    hide Encodable, Selected;
    var w := RecordStage(stage, count, slot);
    if Selected(m.Copies()).Some? {
      var c := Selected(m.Copies()).value;
      if (stage == Userspace || stage == Healthy) && c.boot.count == count && c.boot.slot == Some(slot) && c.boot.stage != stage {
        StoredOutcome(m, w, c.(generation := c.generation + 1, boot := BootControl.Boot(c.boot.count, stage, c.boot.slot)));
      }
    }
  }

  /**
   * `set_boot_control`: active slot, pending slot, phase and both root references as given, both requests cleared,
   * USB mode and diagnostics kept. A trial of anything but the other slot raises.
   */
  lemma ControlStored(m: Machine, active: Slot, pending: string, phase: Phase, rootA: string, rootB: string)
    requires m.on
    ensures var (n, r) := m.Recorded(SetControl(active, pending, phase, rootA, rootB));
            if phase != Stable && pending != (if active == A then "b" else "a") then r.Err? && n == m
            else
              var c := if Selected(m.Copies()).Some? then Selected(m.Copies()).value else Fresh(active);
              Outcome(m, n, r, Control(c.generation + 1, active, pending, phase, rootA, rootB, false, false, c.usb, c.boot, c.prev))
  {
    hide Encodable, Selected;
    if phase == Stable || pending == (if active == A then "b" else "a") {
      var c := if Selected(m.Copies()).Some? then Selected(m.Copies()).value else Fresh(active);
      var want := Control(c.generation + 1, active, pending, phase, rootA, rootB, false, false, c.usb, c.boot, c.prev);
      StoredOutcome(m, SetControl(active, pending, phase, rootA, rootB), want);
    }
  }

  /** `commit_boot`, `rollback_boot` and `prepare_trial_boot` are such writes. */
  lemma SettlesAndArms(m: Machine, slot: Slot)
    ensures m.Settle(slot) == SetControl(slot, "", Stable, m.env.rootA, m.env.rootB)
    ensures m.Arm() == SetControl(m.running, if m.running == A then "b" else "a", Armed, m.env.rootA, m.env.rootB)
  {
  }

  /** `prepare_disk_selector`: a stable record for the running slot, requests and USB mode kept, on both copies. */
  lemma SelectorStored(m: Machine)
    requires m.on && m.SelectorPrepared().1
    ensures var n := m.SelectorPrepared().0;
            var c := if Selected(m.Copies()).Some? then Selected(m.Copies()).value else Fresh(m.running);
            n.Copies().At(m.running.Other()) == Some(Control(c.generation + 1, m.running, "", Stable, m.env.rootA, m.env.rootB,
              c.edlRequest, c.normalRequest, c.usb, c.boot, c.prev))
  {
    hide Encodable, Selected, Machine.Migrating, Next;
    NextSelector(m.Copies(), m.running, m.env.rootA, m.env.rootB);
  }

  /** `request_normal`, once both copies took it: the newer record with the request, wherever it was. */
  lemma NormalStored(m: Machine)
    ensures var n := m.EdlRequested(2);
            if m.Copies().a.Some? && m.Copies().b.Some? && Selected(m.Copies()).value.generation < 0xffff_ffff_ffff_fffe
               && Encodable(NormalWanted(Selected(m.Copies()).value))
            then n.Copies() == Copies(Some(NormalWanted(Selected(m.Copies()).value)), Some(NormalWanted(Selected(m.Copies()).value)))
            else n == m
  {
    hide Encodable, Selected;
  }

  function NormalWanted(c: Control): Control {
    c.(generation := c.generation + 1, edlRequest := false, normalRequest := true)
  }

  /** With power for one write alone: stages go to copy b first, everything else to copy a. */
  lemma FirstCopy(m: Machine, w: Writer)
    requires m.on && m.power == 1 && !Strict(w)
    ensures var n := m.Recorded(w).0; if w.RecordStage? then n.Copies().a == m.Copies().a else n.Copies().b == m.Copies().b
  {
    hide Next;
  }

  /** A record never lands on an ESP without loader or kernel, nor on another ESP that refuses it. */
  lemma OnlyBootable(m: Machine, w: Writer, slot: Slot)
    requires m.on && !Strict(w)
    requires !Bootable(m, slot) || (slot != m.running && forall left: nat :: !m.accepts(left))
    ensures m.Recorded(w).0.Copies().At(slot) == m.Copies().At(slot)
  {
    hide Next;
    assert slot !in m.Takers(w);
  }

  /** A commit that succeeds leaves the healthy stage of this boot in the record it settles on. */
  lemma CommitRecordsHealth(m: Machine, h: Health)
    requires Sound(m) && m.on && m.Committed(h).1 && h.count.Some? && (m.marker || h.supervised)
    ensures var d := Selected(m.Committed(h).0.Copies());
            d.Some? && d.value.boot == BootControl.Boot(h.count.value, Healthy, Some(m.running))
  {
    hide Encodable, Selected, Machine.Recorded, Next, Disk.Safe, Disk.Intact;
    var w := RecordStage(Healthy, h.count.value, m.running);
    StageStored(m, Healthy, h.count.value, m.running);
    RunningIntact(m);
    RequestedSound(m, w);
    var n := m.Recorded(w).0;
    if n.marker {
      ControlStored(n, n.running, "", Stable, n.env.rootA, n.env.rootB);
    }
  }
}
