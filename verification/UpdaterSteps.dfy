/**
 * The steps of the updater as functions of the whole machine.
 *
 * `power` counts the durable writes left before the supply fails. A write attempted with none left turns
 * the machine off and changes nothing; every step returns as soon as the machine is off. Taking a step with
 * every value of `power` therefore visits every state in which the power can be lost.
 */
module UpdaterSteps {
  import opened Common
  import opened Bytes
  import opened BootControl
  import opened RedundantStore
  import opened EspFiles
  import opened UpdaterDisk

  /** The checks, and the references to the two root partitions that every record carries. */
  datatype Env = Env(checks: Checks, rootA: string, rootB: string)

  /** A record the selector may write while it boots: requests consumed, diagnostics updated. */
  datatype Tweak = Tweak(slots: set<Slot>, edlRequest: bool, normalRequest: bool, boot: Boot, prev: Boot)

  /** The checks of `commit`: vamos.watchdog=1; watchdog, stage 1, userdata and version; the boot count; the disarm. */
  datatype Health = Health(supervised: bool, ready: bool, count: Option<nat>, disarmed: bool)

  datatype Machine = Machine(
    disk: Disk,
    // lost with the power
    on: bool, running: Slot,
    trial: bool,           // vamos.trial=1 on the kernel command line
    marker: bool,          // /run/vamos-trial-boot
    power: nat,
    accepts: nat -> bool,  // whether the other slot's ESP takes a write attempted at this much power left
    env: Env)
  {
    function Target(): Slot {
      running.Other()
    }

    function Copies(): Copies {
      disk.Copies()
    }

    // -------------------------------------------------------------- durable writes

    /** One unit of power; the machine is off once a write finds none left. */
    function Spend(): Machine {
      if power > 0 then this.(power := power - 1) else this.(on := false)
    }

    function Saved(s: State): Machine {
      var m := Spend();
      if m.on then m.(disk := m.disk.(state := s)) else m
    }

    /** The ESP of `slot` takes a record written when `left` units of power remain. */
    predicate Accepts(slot: Slot, left: nat) {
      && disk.esp.At(slot).primary.Some? && disk.esp.At(slot).kernel.Some?
      && (slot == running || accepts(left))
    }

    /** The copies that take their write when a writer starts now. */
    function Takers(w: Writer): set<Slot> {
      var first, second := Order(w)[0], Order(w)[1];
      (if Accepts(first, power) then {first} else {}) +
      (if power > 0 && Accepts(second, power - 1) then {second} else {})
    }

    /** One copy of the record. */
    function Put(slot: Slot, c: Control): (Machine, bool) {
      var m := Spend();
      if m.on && Accepts(slot, power)
      then (m.(disk := disk.(esp := disk.esp.Put(slot, disk.esp.At(slot).(control := Some(c))))), true)
      else (m, false)
    }

    /** Both copies, in the order of the writer, as far as the power lasts; one that takes its write is enough. */
    function PutBoth(w: Writer, c: Control): (Machine, Result<nat>) {
      var m := this.(disk := disk.WithCopies(Written(Copies(), w, c, Takers(w), Min(power, 2))),
                     power := power - Min(power, 2), on := power >= 2);
      (m, if m.on && Succeeds(w, Takers(w)) then Ok(c.generation) else Err)
    }

    /** One of the writers of the record, cut wherever the power fails. */
    function Recorded(w: Writer): (Machine, Result<nat>) {
      var next := Next(Copies(), w);
      if next.Err? then (this, Err)
      else if next.value.None? then (this, Ok(Generation()))
      else PutBoth(w, next.value.value)
    }

    function Generation(): nat {
      if Selected(Copies()).Some? then Selected(Copies()).value.generation else 0
    }

    function Settle(slot: Slot): Writer {
      SetControl(slot, "", Stable, env.rootA, env.rootB)
    }

    function Arm(): Writer {
      SetControl(running, SlotName(Target()), Armed, env.rootA, env.rootB)
    }

    // -------------------------------------------------------------- writing images

    /** The target slot is about to be written. */
    function Unvouched(): Machine {
      this.(disk := disk.(vouched := disk.vouched.Put(Target(), None)))
    }

    function WithSystem(f: File): Machine {
      this.(disk := disk.(system := disk.system.Put(Target(), f)))
    }

    function WithEsp(e: Esp): Machine {
      this.(disk := disk.(esp := disk.esp.Put(Target(), e)))
    }

    /** Chunks go to the target root file system; then size, stream hash and read-back hash are checked. */
    function Streamed(spec: Spec, stream: File, chunks: seq<File>): (Machine, bool)
      requires |stream| <= spec.size <= |disk.system.At(Target())|
      decreases |chunks|
    {
      if chunks == [] then
        (this, |stream| == spec.size && env.checks.sha(stream) == spec.digest
               && env.checks.sha(disk.system.At(Target())[..spec.size]) == spec.digest)
      else if |stream| + |chunks[0]| > spec.size then (this, false)
      else
        var m := Spend();
        if !m.on then (m, false)
        else m.WithSystem(Splice(disk.system.At(Target()), |stream|, chunks[0])).Streamed(spec, stream + chunks[0], chunks[1..])
    }

    function SystemWritten(spec: Spec, chunks: seq<File>): (Machine, bool) {
      if |disk.system.At(Target())| < spec.size then (this, false) else Unvouched().Streamed(spec, [], chunks)
    }

    /** Chunks go to the target ESP, which shows one file system after another; then the same checks. */
    function Shown(spec: Spec, stream: File, pieces: seq<Piece>): (Machine, bool)
      decreases |pieces|
    {
      if pieces == [] then
        (this, |stream| == spec.size && env.checks.sha(stream) == spec.digest
               && env.checks.espSha(disk.esp.At(Target())) == spec.digest)
      else if |stream| + |pieces[0].bytes| > spec.size then (this, false)
      else
        var m := Spend();
        if !m.on then (m, false)
        else m.WithEsp(pieces[0].shows).Shown(spec, stream + pieces[0].bytes, pieces[1..])
    }

    function EspWritten(spec: Spec, pieces: seq<Piece>): (Machine, bool) {
      Unvouched().Shown(spec, [], pieces)
    }

    // -------------------------------------------------------------- the disk selector

    /** As many of the migration's writes as the checks let through and the power allows. */
    function Migrating(slot: Slot, mig: Migration): (Machine, bool) {
      var e := disk.esp.At(slot);
      var had := if e.kernel == None then 0 else 1;
      var writes := if Reach(e, mig) > had then Reach(e, mig) - had else 0;
      var m := this.(disk := disk.(esp := disk.esp.Put(slot, Migrated(e, mig, Min(writes, power) + Min(Reach(e, mig), had)))),
                     power := power - Min(writes, power), on := power >= writes);
      (m, m.on && Reach(e, mig) == 5)
    }

    /** The loaders and the kernel that an ESP has to offer before its selector is taken over. */
    predicate Offers(e: Esp) {
      && e.primary.Some? && e.edl.Some? && e.kernel.Some?
      && Arm64Efi(e.primary.value) && Arm64Efi(e.kernel.value) && Arm64Efi(e.edl.value)
    }

    /** The target ESP provides selector and EDL application; the record goes to the running slot first. */
    function SelectorPrepared(): (Machine, bool) {
      var e := disk.esp.At(Target());
      var next := Next(Copies(), PrepareSelector(running, env.rootA, env.rootB));
      if !Offers(e) || next.Err? || next.value.None? then (this, false)
      else
        var c := next.value.value;
        var (m, done) := Unvouched().Migrating(running, Migration(e.primary.value, e.edl.value, c));
        if !done then (m, false) else m.Put(Target(), c)
    }

    // -------------------------------------------------------------- install, activate

    /** The part of `install` inside its try block: write, select, validate. */
    function Staged(man: Manifest, src: Sources): (Machine, bool) {
      var (m1, ok1) := SystemWritten(man.system, src.systemChunks);
      if !ok1 then (m1, false) else
      var (m2, ok2) := m1.EspWritten(man.esp, src.espPieces);
      if !ok2 then (m2, false) else
      var (m3, ok3) := m2.SelectorPrepared();
      if !ok3 then (m3, false) else
      var m4 := m3.Saved(m3.disk.state.(customized := true));
      if !m4.on || !m4.Contents(man.version) then (m4, false) else
      var m5 := m4.Saved(m4.disk.state.(name := Verified));
      (m5, m5.on)
    }

    /** `verify_system_contents` and `verify_esp_contents` on the target slot. */
    predicate Contents(version: string) {
      env.checks.systemGood(disk.system.At(Target()), version) && EspVerifies(disk.esp.At(Target()))
    }

    /** The except block: back to the running slot, and the failure on record. */
    function GivenUp(): (Machine, bool) {
      var m := Recorded(Settle(running)).0;
      (if m.on then m.Saved(m.disk.state.(name := Failed)) else m, false)
    }

    function Installed(man: Manifest, src: Sources, activate: bool): (Machine, bool) {
      var (m1, cancelled) := if Selected(Copies()).Some? then Recorded(Settle(running)) else (this, Ok(0));
      if !m1.on || cancelled.Err? then (m1, false) else
      var m2 := m1.Saved(State(Writing, Some(running), Some(Target()), Some(man), false));
      if !m2.on then (m2, false) else
      var (m3, staged) := m2.Staged(man, src);
      if !m3.on then (m3, false)
      else if !staged then m3.GivenUp()
      else if activate then m3.Activated() else (m3, true)
    }

    /** The history notes that the target slot has just passed its checks. */
    function Vouched(): Machine {
      this.(disk := disk.(vouched := disk.vouched.Put(Target(), Some(disk.Runs(Target()))), armings := disk.armings + 1))
    }

    function Activated(): (Machine, bool) {
      if disk.state.name != Verified && disk.state.name != Ready then (this, false)
      else if disk.state.active != Some(running) || disk.state.target != Some(Target()) then (this, false)
      else
        var m1 := Saved(disk.state);
        if !m1.on || !m1.env.checks.Pass(m1.disk.esp.At(Target()), m1.disk.system.At(Target()), m1.disk.state) then (m1, false)
        else
          var (m2, armed) := m1.Vouched().Recorded(Arm());
          if !m2.on then (m2, false)
          else if armed.Err? then m2.GivenUp()
          else var m3 := m2.Saved(m2.disk.state.(name := Ready)); (m3, m3.on)
    }

    // -------------------------------------------------------------- reconcile, commit

    function Reconciled(): (Machine, bool) {
      var s := disk.state;
      if (s.name != Ready && s.name != Booting) || s.target == None then (this, true)
      else if s.target == Some(running) then
        if trial then var m := Saved(s.(name := Booting)); (m, m.on) else (this, true)
      else
        var (m1, back) := Recorded(Settle(running));
        if !m1.on || back.Err? then (m1, false)
        else var m2 := m1.Saved(s.(name := RolledBack)); (m2, m2.on)
    }

    function Committed(h: Health): (Machine, bool) {
      if !marker && !h.supervised then (this, true)
      else if !h.ready || (marker && !OnTrial()) then (this, false)
      else
        var (m, recorded) := if h.count.Some? then Recorded(RecordStage(Healthy, h.count.value, running)) else (this, Ok(0));
        if !m.on || recorded.Err? || !h.disarmed then (m, false)
        else if !marker then (m, true)
        else m.Confirmed()
    }

    /** state.json says that the running slot is the one under trial. */
    predicate OnTrial() {
      disk.state.name == Booting && disk.state.target == Some(running) && disk.state.active.Some?
    }

    /** The stable record for the running slot; when it raises, the rollback, and the reboot only behind that. */
    function Confirmed(): (Machine, bool)
    {
      var (m1, committed) := Recorded(Settle(running));
      if !m1.on then (m1, false)
      else if committed.Ok? then
        var m2 := m1.Saved(m1.disk.state.(name := Name.Committed, active := Some(running)));
        (if m2.on then m2.(marker := false) else m2, m2.on)
      else if m1.disk.state.active.None? then (m1, false)
      else
        var (m3, back) := m1.Recorded(Settle(m1.disk.state.active.value));
        (if back.Ok? then m3.(on := false) else m3, false)
    }

    // -------------------------------------------------------------- the boot selector and EDL

    /** A record on the copies in `slots`. */
    function Stored(slots: set<Slot>, c: Control): Machine {
      this.(disk := disk.WithCopies(RedundantStore.Copies(
        if A in slots then Some(c) else Copies().a, if B in slots then Some(c) else Copies().b)))
    }

    /** Requests consumed and diagnostics updated, one generation up, on any subset of the copies. */
    function Consumed(t: Tweak): Machine {
      if Selected(Copies()).None? then this
      else
        var c := Selected(Copies()).value;
        Stored(t.slots, c.(generation := c.generation + 1, edlRequest := t.edlRequest, normalRequest := t.normalRequest,
                           boot := t.boot, prev := t.prev))
    }

    /** Whether the selector starts a trial: the record is armed, and a copy takes the mark. */
    predicate Tries(mark: set<Slot>) {
      Selected(Copies()).Some? && Selected(Copies()).value.phase == Armed && mark != {}
    }

    /** The armed record becomes attempted on the copies in `mark`, at its generation or one above. */
    function Marked(mark: set<Slot>, bump: bool): Machine
      requires Selected(Copies()).Some?
    {
      var c := Selected(Copies()).value;
      var m := Stored(mark, c.(phase := Attempted, generation := if bump then c.generation + 1 else c.generation));
      m.(disk := m.disk.(trials := m.disk.trials + 1))
    }

    /**
     * Power-on: the selector may update the record, marks an armed trial attempted on the copies in `mark`
     * before starting its slot, and starts the active slot when it could mark none. Without any readable
     * record the machine stays off in the model.
     */
    function PoweredOn(before: Tweak, mark: set<Slot>, bump: bool, after: Tweak, budget: nat, takes: nat -> bool): Machine {
      var m := Consumed(before);
      if Selected(m.Copies()).None? then this.(on := false)
      else
        var c, tries := Selected(m.Copies()).value, m.Tries(mark);
        (if tries then m.Marked(mark, bump) else m).Consumed(after)
          .(on := true, running := if tries then c.active.Other() else c.active, trial := tries, marker := tries,
            power := budget, accepts := takes)
    }

    /** The normal-boot request written over USB, cut after `done` copies. */
    function EdlRequested(done: nat): Machine {
      var next := Next(Copies(), RequestNormal);
      if next.Err? || next.value.None? then this
      else this.(disk := disk.WithCopies(Written(Copies(), RequestNormal, next.value.value, {A, B}, done)))
    }
  }

  // ---------------------------------------------------------------- runs

  /** What can happen to a device. */
  datatype Event =
    | PowerOn(before: Tweak, mark: set<Slot>, bump: bool, after: Tweak, budget: nat, takes: nat -> bool)
    | PowerOff
    | NormalRequest(done: nat)  // over USB while the machine is off
    | Install(manifest: Manifest, sources: Sources, activate: bool)
    | Activate
    | EdlRequest
    | UsbMode(mode: UsbMode)
    | Report(stage: Stage, count: nat)
    | Reconcile
    | Commit(health: Health)

  /** The machine after one event; a call on a machine that is off changes nothing. */
  function Step(m: Machine, e: Event): Machine {
    match e
    case PowerOn(before, mark, bump, after, budget, takes) => m.PoweredOn(before, mark, bump, after, budget, takes)
    case PowerOff => m.(on := false)
    case NormalRequest(done) => if m.on then m else m.EdlRequested(done)
    case Install(manifest, sources, activate) => if m.on then m.Installed(manifest, sources, activate).0 else m
    case Activate => if m.on then m.Activated().0 else m
    case EdlRequest => if m.on then m.Recorded(RequestEdl).0 else m
    case UsbMode(mode) => if m.on then m.Recorded(SetUsb(mode)).0 else m
    case Report(stage, count) => if m.on then m.Recorded(RecordStage(stage, count, m.running)).0 else m
    case Reconcile => if m.on then m.Reconciled().0 else m
    case Commit(health) => if m.on then m.Committed(health).0 else m
  }

  function Steps(m: Machine, events: seq<Event>): Machine {
    if events == [] then m else Step(Steps(m, events[..|events| - 1]), events[|events| - 1])
  }
}
