/** The updater as it runs, changing the device step by step. Every method does what the step of that name says. */
module Updater {
  import opened Common
  import opened Bytes
  import opened BootControl
  import opened BootControlCodec
  import opened RedundantStore
  import opened EspFiles
  import opened UpdaterDisk
  import opened UpdaterSteps

  class Device {
    // durable
    var esp: PerSlot<Esp>
    var system: PerSlot<File>
    var state: State
    var vouched: PerSlot<Option<Payload>>
    var armings: nat
    var trials: nat
    // lost with the power
    var on: bool
    var running: Slot
    var trial: bool
    var marker: bool
    var power: nat
    var accepts: nat -> bool
    // environment
    const env: Env

    function Now(): Machine
      reads this
    {
      Machine(Disk(esp, system, state, vouched, armings, trials), on, running, trial, marker, power, accepts, env)
    }

    constructor (disk: Disk, env: Env)
      ensures Now().disk == disk && !on && !marker && !trial && this.env == env
    {
      esp, system, state, vouched := disk.esp, disk.system, disk.state, disk.vouched;
      armings, trials := disk.armings, disk.trials;
      on, running, trial, marker, power, accepts := false, A, false, false, 0, _ => false;
      this.env := env;
    }

    // -------------------------------------------------------------- durable writes

    method Spend() returns (up: bool)
      requires on
      modifies `power, `on
      ensures Now() == old(Now()).Spend() && up == on
    {
      up := power > 0;
      if up { power := power - 1; } else { on := false; }
    }

    method SaveState(s: State)
      requires on
      modifies `state, `power, `on
      ensures Now() == old(Now()).Saved(s)
    {
      var up := Spend();
      if up { state := s; }
    }

    method WriteControlToSlot(slot: Slot, c: Control) returns (ok: bool)
      requires on
      modifies `esp, `power, `on
      ensures (Now(), ok) == old(Now()).Put(slot, c) && (ok ==> on)
    {
      ok := Now().Accepts(slot, power);
      var up := Spend();
      ok := ok && up;
      if ok { esp := esp.Put(slot, esp.At(slot).(control := Some(c))); }
    }

    /** `written = [_write_control_to_slot(slot, payload) for slot in ...]; if not any(written): raise` */
    method WriteBoth(ghost w: Writer, first: Slot, c: Control) returns (r: Result<nat>)
      requires on && first == Order(w)[0] && !Strict(w)
      modifies `esp, `power, `on
      ensures (Now(), r) == old(Now()).PutBoth(w, c)
    {
      ghost var m := Now();
      PutTwice(m, w, c);
      var one := WriteControlToSlot(first, c);
      if !on { return Err; }
      var two := WriteControlToSlot(first.Other(), c);
      if !on { return Err; }
      r := if one || two then Ok(c.generation) else Err;
    }

    // -------------------------------------------------------------- writers of the boot-control record

    method SetBootControl(active: Slot, pending: string, phase: Phase) returns (r: Result<nat>)
      requires on
      modifies `esp, `power, `on
      ensures (Now(), r) == old(Now()).Recorded(SetControl(active, pending, phase, env.rootA, env.rootB))
    {
      hide Encode, Encodable, Selected, Machine.PutBoth;
      if !TrialOk(active, pending, phase) { return Err; }
      var previous := Selected(Now().Copies());
      var p := if previous == None then Blank(active) else previous.value;
      var c := p.(generation := p.generation + 1, active := active, pending := pending, phase := phase,
                  edlRequest := false, normalRequest := false, rootA := env.rootA, rootB := env.rootB);
      EncodesExactly(c);
      if Encode(c).Err? { return Err; }
      r := WriteBoth(SetControl(active, pending, phase, env.rootA, env.rootB), A, c);
    }

    method RequestEdl() returns (r: Result<nat>)
      requires on
      modifies `esp, `power, `on
      ensures (Now(), r) == old(Now()).Recorded(RedundantStore.RequestEdl)
    {
      hide Encode, Encodable, Selected, Machine.PutBoth;
      var previous := Selected(Now().Copies());
      if previous == None { return Err; }
      var c := previous.value.(generation := previous.value.generation + 1, edlRequest := true, normalRequest := false);
      EncodesExactly(c);
      if Encode(c).Err? { return Err; }
      r := WriteBoth(RedundantStore.RequestEdl, A, c);
    }

    method SetUsbMode(mode: UsbMode) returns (r: Result<nat>)
      requires on
      modifies `esp, `power, `on
      ensures (Now(), r) == old(Now()).Recorded(SetUsb(mode))
    {
      hide Encode, Encodable, Selected, Machine.PutBoth;
      var previous := Selected(Now().Copies());
      if previous == None { return Err; }
      var c := previous.value.(generation := previous.value.generation + 1, usb := mode);
      EncodesExactly(c);
      if Encode(c).Err? { return Err; }
      r := WriteBoth(SetUsb(mode), A, c);
    }

    /** `count` is the boot count the selector passed on the kernel command line. */
    method RecordStage(stage: Stage, count: nat) returns (r: Result<nat>)
      requires on
      modifies `esp, `power, `on
      ensures (Now(), r) == old(Now()).Recorded(RedundantStore.RecordStage(stage, count, running))
    {
      hide Encode, Encodable, Selected, Machine.PutBoth;
      if stage != Userspace && stage != Healthy { return Err; }
      var control := Selected(Now().Copies());
      if control == None || control.value.boot.count != count || control.value.boot.slot != Some(running) { return Err; }
      if control.value.boot.stage == stage { return Ok(control.value.generation); }
      var c := control.value.(boot := control.value.boot.(stage := stage), generation := control.value.generation + 1);
      EncodesExactly(c);
      if Encode(c).Err? { return Err; }
      r := WriteBoth(RedundantStore.RecordStage(stage, count, running), B, c);
    }

    // -------------------------------------------------------------- writing images

    method WriteSystem(spec: Spec, chunks: seq<File>) returns (ok: bool)
      requires on
      modifies `system, `vouched, `power, `on
      ensures (Now(), ok) == old(Now()).SystemWritten(spec, chunks) && (ok ==> on)
    {
      hide Splice;
      var target := running.Other();
      if |system.At(target)| < spec.size { return false; }
      vouched := vouched.Put(target, None);
      ghost var m := Now();
      var stream: File := [];
      assert chunks[0..] == chunks;
      for n := 0 to |chunks|
        invariant on && running == old(running) && |stream| <= spec.size <= |system.At(target)|
        invariant Now().Streamed(spec, stream, chunks[n..]) == m.Streamed(spec, [], chunks)
      {
        assert chunks[n..][0] == chunks[n] && chunks[n..][1..] == chunks[n + 1..];
        if |stream| + |chunks[n]| > spec.size { return false; }
        var up := Spend();
        if !up { return false; }
        system := system.Put(target, Splice(system.At(target), |stream|, chunks[n]));
        stream := stream + chunks[n];
      }
      ok := |stream| == spec.size && env.checks.sha(stream) == spec.digest
         && env.checks.sha(system.At(target)[..spec.size]) == spec.digest;
    }

    method WriteEsp(spec: Spec, pieces: seq<Piece>) returns (ok: bool)
      requires on
      modifies `esp, `vouched, `power, `on
      ensures (Now(), ok) == old(Now()).EspWritten(spec, pieces) && (ok ==> on)
    {
      var target := running.Other();
      vouched := vouched.Put(target, None);
      ghost var m := Now();
      var stream: File := [];
      assert pieces[0..] == pieces;
      for n := 0 to |pieces|
        invariant on && running == old(running)
        invariant Now().Shown(spec, stream, pieces[n..]) == m.Shown(spec, [], pieces)
      {
        assert pieces[n..][0] == pieces[n] && pieces[n..][1..] == pieces[n + 1..];
        if |stream| + |pieces[n].bytes| > spec.size { return false; }
        var up := Spend();
        if !up { return false; }
        esp := esp.Put(target, pieces[n].shows);
        stream := stream + pieces[n].bytes;
      }
      ok := |stream| == spec.size && env.checks.sha(stream) == spec.digest
         && env.checks.espSha(esp.At(target)) == spec.digest;
    }

    // -------------------------------------------------------------- the disk selector

    method InstallSelectorOnSlot(slot: Slot, m: Migration) returns (ok: bool)
      requires on
      modifies `esp, `power, `on
      ensures (Now(), ok) == old(Now()).Migrating(slot, m) && (ok ==> on)
    {
      hide Migrated, Reach;
      ok := WriteFiles(slot, m);
    }

    /** The kernel when it is missing, then the rest. */
    method WriteFiles(slot: Slot, m: Migration) returns (ok: bool)
      requires on
      modifies `esp, `power, `on
      ensures var e := old(esp.At(slot));
              var had := if e.kernel == None then 0 else 1;
              var writes := if Reach(e, m) > had then Reach(e, m) - had else 0;
              && esp == old(esp).Put(slot, Migrated(e, m, Min(writes, old(power)) + Min(Reach(e, m), had)))
              && power == old(power) - Min(writes, old(power)) && on == (old(power) >= writes)
              && ok == (on && Reach(e, m) == 5)
    {
      hide Arm64Efi;
      var e := esp.At(slot);
      if e.kernel == None {
        if e.primary == None || e.primary == Some([]) || e.primary == Some(m.selector) { return false; }
        var up := Spend();
        if !up { return false; }
        esp := esp.Put(slot, e.(kernel := e.primary));
        KernelFirst(e, m);
        hide Migrated, Reach;
      }
      ok := WriteLoaders(slot, m);
    }

    /** Boot control, EDL application, recovery loader, primary loader: in this order. */
    method WriteLoaders(slot: Slot, m: Migration) returns (ok: bool)
      requires on && esp.At(slot).kernel.Some?
      modifies `esp, `power, `on
      ensures var e := old(esp.At(slot));
              var writes := Reach(e, m) - 1;
              && 0 <= writes && esp == old(esp).Put(slot, Migrated(e, m, Min(writes, old(power)) + 1))
              && power == old(power) - Min(writes, old(power)) && on == (old(power) >= writes)
              && ok == (on && Reach(e, m) == 5)
    {
      hide Arm64Efi;
      var e := esp.At(slot);
      if !Arm64Efi(e.kernel.value) { return false; }
      var up := Spend();
      if !up { return false; }
      e := e.(control := Some(m.control));
      esp := esp.Put(slot, e);
      up := Spend();
      if !up { return false; }
      e := e.(edl := Some(m.application));
      esp := esp.Put(slot, e);
      if !Arm64Efi(m.application) { return false; }
      up := Spend();
      if !up { return false; }
      e := e.(recovery := Some(m.selector));
      esp := esp.Put(slot, e);
      if !Arm64Efi(m.selector) { return false; }
      up := Spend();
      if !up { return false; }
      esp := esp.Put(slot, e.(primary := Some(m.selector)));
      ok := true;
    }

    method PrepareDiskSelector() returns (ok: bool)
      requires on
      modifies `esp, `vouched, `power, `on
      ensures (Now(), ok) == old(Now()).SelectorPrepared() && (ok ==> on)
    {
      hide Encode, Encodable, Arm64Efi, Selected, Next, Machine.Migrating, Machine.Put;
      NextSelector(Now().Copies(), running, env.rootA, env.rootB);
      var e := esp.At(running.Other());
      if e.primary == None || e.edl == None || e.kernel == None { return false; }
      if !Arm64Efi(e.primary.value) || !Arm64Efi(e.kernel.value) || !Arm64Efi(e.edl.value) { return false; }
      var previous := Selected(Now().Copies());
      var p := if previous == None then Blank(running) else previous.value;
      var c := p.(generation := p.generation + 1, active := running, pending := "", phase := Stable,
                  rootA := env.rootA, rootB := env.rootB);
      EncodesExactly(c);
      if Encode(c).Err? { return false; }
      vouched := vouched.Put(running.Other(), None);
      var done := InstallSelectorOnSlot(running, Migration(e.primary.value, e.edl.value, c));
      if !done { return false; }
      ok := WriteControlToSlot(running.Other(), c);
    }

    // -------------------------------------------------------------- install, activate

    /** `commit_boot` and `rollback_boot`. */
    method SettleBoot(current: Slot) returns (r: Result<nat>)
      requires on
      modifies `esp, `power, `on
      ensures (Now(), r) == old(Now()).Recorded(old(Now()).Settle(current))
    {
      r := SetBootControl(current, "", Stable);
    }

    /** `prepare_trial_boot`. */
    method PrepareTrialBoot(target: Slot) returns (r: Result<nat>)
      requires on && target == running.Other()
      modifies `esp, `power, `on
      ensures (Now(), r) == old(Now()).Recorded(old(Now()).Arm())
    {
      r := SetBootControl(running, SlotName(target), Armed);
    }

    method GiveUp()
      requires on
      modifies `esp, `state, `power, `on
      ensures (Now(), false) == old(Now()).GivenUp()
    {
      hide Machine.Recorded;
      var _ := SettleBoot(running);
      if on { SaveState(state.(name := Failed)); }
    }

    method ActivateStaged() returns (ok: bool)
      requires on
      modifies `esp, `state, `vouched, `armings, `power, `on
      ensures (Now(), ok) == old(Now()).Activated()
    {
      hide Machine.Recorded, Machine.GivenUp, Checks.Pass;
      if state.name != Verified && state.name != Ready { return false; }
      if state.active != Some(running) || state.target == None || state.target == Some(running) { return false; }
      var target := state.target.value;
      assert target == running.Other();
      SaveState(state);
      if !on { return false; }
      if !env.checks.Pass(esp.At(target), system.At(target), state) { return false; }
      vouched := vouched.Put(target, Some(Payload(esp.At(target).kernel, system.At(target))));
      armings := armings + 1;
      var armed := PrepareTrialBoot(target);
      if !on { return false; }
      if armed.Err? {
        GiveUp();
        return false;
      }
      SaveState(state.(name := Ready));
      ok := on;
    }

    /** The try block of `install`. */
    method StageImages(m: Manifest, src: Sources) returns (ok: bool)
      requires on
      modifies `esp, `system, `state, `vouched, `power, `on
      ensures (Now(), ok) == old(Now()).Staged(m, src)
    {
      hide Machine.SystemWritten, Machine.EspWritten, Machine.SelectorPrepared, EspVerifies, Selected;
      ok := WriteSystem(m.system, src.systemChunks);
      if !ok { return false; }
      ok := WriteEsp(m.esp, src.espPieces);
      if !ok { return false; }
      ok := PrepareDiskSelector();
      if !ok { return false; }
      SaveState(state.(customized := true));
      if !on { return false; }
      var target := running.Other();
      if !env.checks.systemGood(system.At(target), m.version) || !EspVerifies(esp.At(target)) { return false; }
      SaveState(state.(name := Verified));
      ok := on;
    }

    method Install(m: Manifest, src: Sources, activate: bool) returns (ok: bool)
      requires on
      modifies `esp, `system, `state, `vouched, `armings, `power, `on
      ensures (Now(), ok) == old(Now()).Installed(m, src, activate)
    {
      hide Machine.Recorded, Machine.Staged, Machine.GivenUp, Machine.Activated, Selected;
      if Selected(Now().Copies()).Some? {
        var cancelled := SettleBoot(running);
        if !on || cancelled.Err? { return false; }
      }
      SaveState(State(Writing, Some(running), Some(running.Other()), Some(m), false));
      if !on { return false; }
      var staged := StageImages(m, src);
      if !on { return false; }
      if !staged {
        GiveUp();
        return false;
      }
      if !activate { return true; }
      ok := ActivateStaged();
    }

    // -------------------------------------------------------------- boot-time steps

    method Reconcile() returns (ok: bool)
      requires on
      modifies `esp, `state, `power, `on
      ensures (Now(), ok) == old(Now()).Reconciled()
    {
      hide Machine.Recorded;
      if (state.name != Ready && state.name != Booting) || state.target == None { return true; }
      var target := state.target.value;
      if trial && running == target {
        SaveState(state.(name := Booting));
        return on;
      }
      if running != target {
        var back := SettleBoot(running);
        if !on || back.Err? { return false; }
        SaveState(state.(name := RolledBack));
        return on;
      }
      ok := true;
    }

    method Commit(h: Health) returns (ok: bool)
      requires on
      modifies `esp, `state, `marker, `power, `on
      ensures (Now(), ok) == old(Now()).Committed(h)
    {
      hide Machine.Recorded;
      if !marker && !h.supervised { return true; }
      if !h.ready { return false; }
      if marker {
        if state.name != Booting || state.target != Some(running) || state.active == None { return false; }
      }
      if h.count.Some? {
        var recorded := RecordStage(Healthy, h.count.value);
        if !on || recorded.Err? { return false; }
      }
      if !h.disarmed { return false; }
      if !marker { return true; }
      var committed := SettleBoot(running);
      if !on { return false; }
      if committed.Err? {
        var back := SettleBoot(state.active.value);
        if back.Ok? { on := false; }
        return false;
      }
      SaveState(state.(name := Name.Committed, active := Some(running)));
      if !on { return false; }
      marker := false;
      ok := true;
    }

    // -------------------------------------------------------------- the boot selector and EDL

    method Store(slots: set<Slot>, c: Control)
      modifies `esp
      ensures Now() == old(Now()).Stored(slots, c)
    {
      if A in slots { esp := esp.Put(A, esp.a.(control := Some(c))); }
      if B in slots { esp := esp.Put(B, esp.b.(control := Some(c))); }
    }

    method Consume(t: Tweak)
      modifies `esp
      ensures Now() == old(Now()).Consumed(t)
    {
      hide Selected, Machine.Stored;
      if Selected(Now().Copies()).Some? {
        var c := Selected(Now().Copies()).value;
        Store(t.slots, c.(generation := c.generation + 1, edlRequest := t.edlRequest, normalRequest := t.normalRequest,
                          boot := t.boot, prev := t.prev));
      }
    }

    method MarkAttempted(mark: set<Slot>, bump: bool)
      requires Selected(Now().Copies()).Some?
      modifies `esp, `trials
      ensures Now() == old(Now()).Marked(mark, bump)
    {
      hide Selected, Machine.Stored;
      var c := Selected(Now().Copies()).value;
      Store(mark, c.(phase := Attempted, generation := if bump then c.generation + 1 else c.generation));
      trials := trials + 1;
    }

    method PowerOn(before: Tweak, mark: set<Slot>, bump: bool, after: Tweak, budget: nat, takes: nat -> bool)
      modifies `esp, `trials, `on, `running, `trial, `marker, `power, `accepts
      ensures Now() == old(Now()).PoweredOn(before, mark, bump, after, budget, takes)
    {
      hide Selected, Machine.Consumed, Machine.Marked, Machine.Tries;
      ghost var m := Now();
      Consume(before);
      if Selected(Now().Copies()).None? {
        NothingConsumed(m, before);
        on := false;
        return;
      }
      var c, tries := Selected(Now().Copies()).value, Now().Tries(mark);
      if tries { MarkAttempted(mark, bump); }
      ghost var marked := if tries then m.Consumed(before).Marked(mark, bump) else m.Consumed(before);
      assert Now() == marked;
      Consume(after);
      assert Now() == marked.Consumed(after);
      Start(if tries then c.active.Other() else c.active, tries, budget, takes);
    }

    /** A slot starts; its kernel command line says whether on trial. */
    method Start(slot: Slot, tries: bool, budget: nat, takes: nat -> bool)
      modifies `on, `running, `trial, `marker, `power, `accepts
      ensures Now() == old(Now()).(on := true, running := slot, trial := tries, marker := tries, power := budget, accepts := takes)
    {
      on, running, trial, marker, power, accepts := true, slot, tries, tries, budget, takes;
    }

    /** The editor on the other end of the USB cable, cut after `done` copies, backup first. */
    method RequestNormal(done: nat)
      modifies `esp
      ensures Now() == old(Now()).EdlRequested(done)
    {
      hide Encode, Encodable, Selected;
      var next := Next(Now().Copies(), RedundantStore.RequestNormal);
      if next.Err? || next.value.None? { return; }
      if done > 0 { esp := esp.Put(B, esp.b.(control := next.value)); }
      if done > 1 { esp := esp.Put(A, esp.a.(control := next.value)); }
    }

    // -------------------------------------------------------------- runs

    method Happen(e: UpdaterSteps.Event)
      modifies this
      ensures Now() == Step(old(Now()), e)
    {
      hide Machine.Recorded, Machine.Installed, Machine.Activated, Machine.Reconciled, Machine.Committed,
           Machine.PoweredOn, Machine.EdlRequested;
      match e {
        case PowerOn(before, mark, bump, after, budget, takes) => PowerOn(before, mark, bump, after, budget, takes);
        case PowerOff => on := false;
        case NormalRequest(done) => if !on { RequestNormal(done); }
        case Install(man, src, activate) => if on { var _ := Install(man, src, activate); }
        case Activate => if on { var _ := ActivateStaged(); }
        case EdlRequest => if on { var _ := RequestEdl(); }
        case UsbMode(mode) => if on { var _ := SetUsbMode(mode); }
        case Report(stage, count) => if on { var _ := RecordStage(stage, count); }
        case Reconcile => if on { var _ := Reconcile(); }
        case Commit(health) => if on { var _ := Commit(health); }
      }
    }

    /** The device goes through exactly the states of `Steps`. */
    method Run(events: seq<UpdaterSteps.Event>) returns (ghost states: seq<Machine>)
      modifies this
      ensures |states| == |events| + 1 && Now() == Steps(old(Now()), events)
      ensures forall i :: 0 <= i < |states| ==> states[i] == Steps(old(Now()), events[..i])
    {
      hide Step;
      states := [Now()];
      for n := 0 to |events|
        invariant |states| == n + 1 && states[n] == Now()
        invariant forall i :: 0 <= i <= n ==> states[i] == Steps(old(Now()), events[..i])
      {
        assert events[..n + 1][..n] == events[..n];
        Happen(events[n]);
        states := states + [Now()];
      }
      assert events[..|events|] == events;
    }
  }

  /** The two writes of a writer, one after the other. */
  lemma PutTwice(m: Machine, w: Writer, c: Control)
    requires m.on && !Strict(w)
    ensures var (m1, one) := m.Put(Order(w)[0], c);
            var (m2, two) := m1.Put(Order(w)[1], c);
            m.PutBoth(w, c)
            == if !m1.on then (m1, Err) else if !m2.on then (m2, Err) else (m2, if one || two then Ok(c.generation) else Err)
  {
  }

  lemma NothingConsumed(m: Machine, t: Tweak)
    requires Selected(m.Consumed(t).Copies()).None?
    ensures m.Consumed(t) == m
  {
  }
}
