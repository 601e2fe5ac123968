/** When installs, activations and commits succeed, and what happens outside the assumptions of the whole-run theorem. */
module UpdaterProgress {
  import opened Common
  import opened Bytes
  import opened BootControl
  import opened BootControlCodec
  import opened RedundantStore
  import opened EspFiles
  import opened UpdaterDisk
  import opened UpdaterSteps
  import opened UpdaterSafety

  // ---------------------------------------------------------------- records that can be stored

  predicate RootsOk(env: Env) {
    RootOk(env.rootA) && RootOk(env.rootB) && |env.rootA| <= 45 && |env.rootB| <= 45
  }

  /** There is room for `n` more generations over an ordinary record. */
  predicate Roomy(m: Machine, n: nat) {
    && RootsOk(m.env) && Selected(m.Copies()).Some?
    && var c := Selected(m.Copies()).value;
       Valid(c) && Short(c) && c.generation + n < COUNT_LIMIT
  }

  /** An ordinary record one generation up. */
  predicate Follows(c: Control, d: Control) {
    d.generation == c.generation + 1 && Valid(d) && Short(d)
  }

  lemma FollowerRoomy(m: Machine, n: Machine, k: nat)
    requires Roomy(m, k + 1) && n.env == m.env && Selected(n.Copies()).Some?
    requires Follows(Selected(m.Copies()).value, Selected(n.Copies()).value)
    ensures Roomy(n, k)
  {
    hide Selected, RootsOk, Valid, Short;
  }

  lemma OrdinaryStored(c: Control)
    requires Valid(c) && Short(c)
    ensures Storable(c) == Ok(Some(c))
  {
    OrdinaryFits(c);
    hide Valid, Short, Fits, Encode;
  }

  /** A stable or armed record with the device's root references over an ordinary one is ordinary. */
  lemma StableFollows(p: Control, d: Control, env: Env)
    requires Valid(p) && Short(p) && p.generation + 1 < COUNT_LIMIT && RootsOk(env)
    requires d.generation == p.generation + 1 && d.boot.count == p.boot.count && d.prev == p.prev
    requires d.rootA == env.rootA && d.rootB == env.rootB
    requires if d.phase == Stable then d.pending == "" else d.pending == SlotName(d.active.Other())
    ensures Follows(p, d)
  {
    hide RootOk;
  }

  lemma SettleStorable(m: Machine, slot: Slot, k: nat)
    requires Roomy(m, k + 1)
    ensures var next := Next(m.Copies(), m.Settle(slot));
            next.Ok? && next.value.Some? && Follows(Selected(m.Copies()).value, next.value.value)
  {
    hide Selected, Encodable, RootsOk, Valid, Short;
    var p := Selected(m.Copies()).value;
    var d := p.(generation := p.generation + 1, active := slot, pending := "", phase := Stable,
                edlRequest := false, normalRequest := false, rootA := m.env.rootA, rootB := m.env.rootB);
    StableFollows(p, d, m.env);
    OrdinaryStored(d);
    NextSettle(m, slot);
  }

  lemma NextSettle(m: Machine, slot: Slot)
    requires Selected(m.Copies()).Some?
    ensures var p := Selected(m.Copies()).value;
            Next(m.Copies(), m.Settle(slot))
            == Storable(p.(generation := p.generation + 1, active := slot, pending := "", phase := Stable,
                           edlRequest := false, normalRequest := false, rootA := m.env.rootA, rootB := m.env.rootB))
  {
    hide Selected, Encodable;
  }

  lemma ArmStorable(m: Machine, k: nat)
    requires Roomy(m, k + 1)
    ensures Next(m.Copies(), m.Arm()).Ok?
  {
    hide Selected, Encodable, RootsOk, Valid, Short;
    var p := Selected(m.Copies()).value;
    var d := p.(generation := p.generation + 1, active := m.running, pending := SlotName(m.Target()), phase := Armed,
                edlRequest := false, normalRequest := false, rootA := m.env.rootA, rootB := m.env.rootB);
    StableFollows(p, d, m.env);
    OrdinaryStored(d);
  }

  lemma SelectorStorable(m: Machine, k: nat)
    requires Roomy(m, k + 1)
    ensures var next := Next(m.Copies(), PrepareSelector(m.running, m.env.rootA, m.env.rootB));
            next.Ok? && next.value.Some? && Follows(Selected(m.Copies()).value, next.value.value)
            && next.value.value.active == m.running && next.value.value.phase == Stable
  {
    hide Selected, Encodable, RootsOk, Valid, Short, Next;
    var p := Selected(m.Copies()).value;
    var d := p.(generation := p.generation + 1, active := m.running, pending := "", phase := Stable,
                rootA := m.env.rootA, rootB := m.env.rootB);
    NextSelector(m.Copies(), m.running, m.env.rootA, m.env.rootB);
    StableFollows(p, d, m.env);
    OrdinaryStored(d);
  }

  /** The stage of the running boot, when the record is about this boot. */
  lemma ReportStorable(m: Machine, count: nat, k: nat)
    requires Roomy(m, k + 1) && Selected(m.Copies()).value.boot.count == count && Selected(m.Copies()).value.boot.slot == Some(m.running)
    ensures var next := Next(m.Copies(), RecordStage(Healthy, count, m.running));
            next.Ok? && (next.value.Some? ==> Follows(Selected(m.Copies()).value, next.value.value))
  {
    hide Selected, Encodable, RootsOk, Valid, Short;
    var p := Selected(m.Copies()).value;
    var d := p.(generation := p.generation + 1, boot := p.boot.(stage := Healthy));
    StageFollows(p, d);
    OrdinaryStored(d);
  }

  lemma StageFollows(p: Control, d: Control)
    requires Valid(p) && Short(p) && p.generation + 1 < COUNT_LIMIT
    requires d == p.(generation := p.generation + 1, boot := p.boot.(stage := Healthy))
    ensures Follows(p, d)
  {
    hide RootOk;
  }

  lemma SettledSucceeds(m: Machine, slot: Slot, k: nat)
    requires Sound(m) && m.on && m.disk.Intact(slot) && m.power >= 2 && Roomy(m, k + 1)
    ensures var (n, r) := m.Recorded(m.Settle(slot)); r.Ok? && n.on && n.power == m.power - 2 && Roomy(n, k)
  {
    hide Selected, Next, Machine.Recorded, Disk.Safe, Roomy, Follows;
    RunningIntact(m);
    SettleStorable(m, slot, k);
    SettledSafe(m, slot);
    RecordedCases(m, m.Settle(slot));
    FollowerRoomy(m, m.Recorded(m.Settle(slot)).0, k);
  }

  // ---------------------------------------------------------------- images that arrive whole

  lemma {:induction false} StreamedSucceeds(m: Machine, spec: Spec, stream: File, chunks: seq<File>)
    requires m.on && |stream| <= spec.size <= |m.disk.system.At(m.Target())| && m.disk.system.At(m.Target())[..|stream|] == stream
    requires |stream + Joined(chunks)| == spec.size && m.env.checks.sha(stream + Joined(chunks)) == spec.digest
    requires |chunks| <= m.power
    ensures var (n, ok) := m.Streamed(spec, stream, chunks);
            && ok && n.on && n.power == m.power - |chunks|
            && n.disk.system.At(m.Target()) == Splice(m.disk.system.At(m.Target()), 0, stream + Joined(chunks))
    decreases |chunks|
  {
    hide Joined, Splice;
    var file := m.disk.system.At(m.Target());
    JoinStep(stream, chunks);
    if chunks == [] {
      WholePrefix(file, stream);
    } else {
      var next := Splice(file, |stream|, chunks[0]);
      SpliceExtends(file, stream, chunks[0]);
      StreamedSucceeds(m.Spend().WithSystem(next), spec, stream + chunks[0], chunks[1..]);
      SpliceTwice(file, |stream|, chunks[0], stream + Joined(chunks));
    }
  }

  lemma WholePrefix(file: File, stream: File)
    requires |stream| <= |file| && file[..|stream|] == stream
    ensures Splice(file, 0, stream) == file
  {
  }

  lemma SpliceTwice(file: File, at: nat, chunk: File, whole: File)
    requires at + |chunk| <= |whole| <= |file|
    ensures Splice(Splice(file, at, chunk), 0, whole) == Splice(file, 0, whole)
  {
  }

  lemma {:induction false} ShownSucceeds(m: Machine, spec: Spec, stream: File, pieces: seq<Piece>)
    requires m.on && |pieces| <= m.power && |stream + Delivered(pieces)| == spec.size
    requires m.env.checks.sha(stream + Delivered(pieces)) == spec.digest
    requires var e := if pieces == [] then m.disk.esp.At(m.Target()) else pieces[|pieces| - 1].shows;
             m.env.checks.espSha(e) == spec.digest
    ensures var (n, ok) := m.Shown(spec, stream, pieces);
            && ok && n.on && n.power == m.power - |pieces|
            && (pieces != [] ==> n.disk.esp.At(m.Target()) == pieces[|pieces| - 1].shows)
    decreases |pieces|
  {
    if pieces == [] {
      assert stream + Delivered([]) == stream;
    } else {
      assert stream + pieces[0].bytes + Delivered(pieces[1..]) == stream + Delivered(pieces);
      ShownSucceeds(m.Spend().WithEsp(pieces[0].shows), spec, stream + pieces[0].bytes, pieces[1..]);
    }
  }

  /** The boot files of an ESP that passes verification once it holds a record. */
  predicate Complete(e: Esp) {
    EspVerifies(e.(control := Some(Blank(A))))
  }

  lemma CompleteVerifies(e: Esp, c: Control)
    ensures EspVerifies(e.(control := Some(c))) <==> Complete(e)
  {
    hide Arm64Efi;
  }

  lemma TwoAlike(cs: Copies, c: Control)
    requires cs.a == cs.b == Some(c)
    ensures Selected(cs) == Some(c)
  {
  }

  lemma SelectorSucceeds(m: Machine, generation: nat, k: nat)
    requires Home(m, generation) && Roomy(m, k + 1) && m.power >= 5 && m.accepts(m.power - 4)
    requires Complete(m.disk.esp.At(m.Target())) && Arm64Efi(m.disk.esp.At(m.running).kernel.value)
    ensures var (n, ok) := m.SelectorPrepared();
            ok && n.on && n.power == m.power - 5 && Roomy(n, k) && EspVerifies(n.disk.esp.At(m.Target()))
  {
    hide Selected, Next, Disk.Safe, Arm64Efi, Migrated, Roomy, Encodable;
    RunningIntact(m);
    SelectorStorable(m, k);
    var e, next := m.disk.esp.At(m.Target()), Next(m.Copies(), PrepareSelector(m.running, m.env.rootA, m.env.rootB));
    var c := next.value.value;
    CompleteVerifies(e, c);
    UnvouchedHome(m, generation);
    var mig := Migration(e.primary.value, e.edl.value, c);
    MigratingHome(m.Unvouched(), mig, generation);
    var (n, done) := m.Unvouched().Migrating(m.running, mig);
    assert done && n.power == m.power - 4;
    OtherCopy(n, c, generation);
    SelectorPreparedHome(m, generation);
    TwoAlike(m.SelectorPrepared().0.Copies(), c);
    FollowerRoomy(m, m.SelectorPrepared().0, k);
  }

  // ---------------------------------------------------------------- install, activate

  /** Images that are whole, match their manifest, and make up a slot that verifies. */
  predicate Deliverable(m: Machine, man: Manifest, src: Sources) {
    var system, pieces := m.disk.system.At(m.Target()), src.espPieces;
    && |Joined(src.systemChunks)| == man.system.size <= |system|
    && m.env.checks.sha(Joined(src.systemChunks)) == man.system.digest
    && m.env.checks.systemGood(Splice(system, 0, Joined(src.systemChunks)), man.version)
    && pieces != [] && |Delivered(pieces)| == man.esp.size && m.env.checks.sha(Delivered(pieces)) == man.esp.digest
    && m.env.checks.espSha(pieces[|pieces| - 1].shows) == man.esp.digest && Complete(pieces[|pieces| - 1].shows)
    && m.disk.esp.At(m.running).kernel.Some? && Arm64Efi(m.disk.esp.At(m.running).kernel.value)
  }

  /** Durable writes of the try block: the chunks of both images, five for the selector, two of the state. */
  function StagingWrites(src: Sources): nat {
    |src.systemChunks| + |src.espPieces| + 7
  }

  lemma StagedSucceeds(m: Machine, man: Manifest, src: Sources, generation: nat, k: nat)
    requires Home(m, generation) && Older(src.espPieces, generation) && Roomy(m, k + 1) && Deliverable(m, man, src)
    requires m.disk.state == State(Writing, Some(m.running), Some(m.Target()), Some(man), false)
    requires m.power >= StagingWrites(src) && m.accepts(m.power - |src.systemChunks| - |src.espPieces| - 4)
    ensures var (n, ok) := m.Staged(man, src); ok && n.on && n.power == m.power - StagingWrites(src) && Roomy(n, k)
  {
    hide Home, Sound, Selected, Machine.Streamed, Machine.Shown, Machine.SelectorPrepared, EspVerifies, Arm64Efi, Roomy, Splice,
         Joined, Delivered, Complete;
    var (m1, ok1) := m.SystemWritten(man.system, src.systemChunks);
    HomeOn(m, generation);
    EmptyFirst(src);
    StreamedSucceeds(m.Unvouched(), man.system, [], src.systemChunks);
    SystemWrittenHome(m, man.system, src.systemChunks, generation);
    StagingHome(m1, generation);
    var (m2, ok2) := m1.EspWritten(man.esp, src.espPieces);
    UnvouchedHome(m1, generation);
    ShownSucceeds(m1.Unvouched(), man.esp, [], src.espPieces);
    ShownHome(m1.Unvouched(), man.esp, [], src.espPieces, generation);
    StagingHome(m2, generation);
    StillRoomy(m, m1, m2, generation, k + 1);
    SelectorSucceeds(m2, generation, k);
    SelectorPreparedHome(m2, generation);
    var m3 := m2.SelectorPrepared().0;
    var m4 := m3.Saved(m3.disk.state.(customized := true));
    SavedRoomy(m3, m3.disk.state.(customized := true), k);
    SavedRoomy(m4, m4.disk.state.(name := Verified), k);
  }

  lemma HomeOn(m: Machine, generation: nat)
    requires Home(m, generation)
    ensures m.on
  {
  }

  lemma EmptyFirst(src: Sources)
    ensures [] + Joined(src.systemChunks) == Joined(src.systemChunks) && [] + Delivered(src.espPieces) == Delivered(src.espPieces)
  {
  }

  lemma SavedRoomy(m: Machine, s: State, k: nat)
    requires Roomy(m, k)
    ensures Roomy(m.Saved(s), k)
  {
    hide Selected, RootsOk;
  }

  /** The images do not touch the record that counts. */
  lemma StillRoomy(m: Machine, m1: Machine, m2: Machine, generation: nat, k: nat)
    requires Home(m, generation) && Roomy(m, k) && Home(m2, generation)
    requires Within(m, m1) && Within(m1, m2) && m2.disk.esp.At(m.running) == m.disk.esp.At(m.running)
    ensures Roomy(m2, k)
  {
    hide Selected, RootsOk, Disk.Safe;
    SafeActive(m2.disk, m2.env.checks);
  }

  /** Arming a target that passes its checks succeeds with four writes. */
  lemma ActivatedSucceeds(m: Machine, k: nat)
    requires Sound(m) && m.on && m.power >= 4 && Roomy(m, k + 1)
    requires m.disk.state.name == Verified || m.disk.state.name == Ready
    requires m.disk.state.active == Some(m.running) && m.disk.state.target == Some(m.Target())
    requires m.env.checks.Pass(m.disk.esp.At(m.Target()), m.disk.system.At(m.Target()), m.disk.state)
    ensures m.Activated().1
  {
    hide Selected, Next, Machine.Recorded, Disk.Safe, Disk.Intact, Checks.Pass, Roomy, Machine.GivenUp;
    var m1 := m.Saved(m.disk.state);
    assert m1.disk == m.disk;
    var v := m1.Vouched();
    ActivationHome(m);
    VouchedSound(m1);
    SameRecordsRoomy(m, v, k + 1);
    ArmStorable(v, k);
    ArmedSound(v);
    RunningIntact(v);
    RecordedCases(v, v.Arm());
    ArmFields(v);
  }

  lemma SameRecordsRoomy(m: Machine, n: Machine, k: nat)
    requires Roomy(m, k) && n.env == m.env && n.Copies() == m.Copies()
    ensures Roomy(n, k)
  {
    hide Selected, RootsOk;
  }

  /** A started trial that passes its checks is committed, with three writes and two for the diagnostics. */
  lemma CommittedSucceeds(m: Machine, h: Health)
    requires Sound(m) && m.on && m.marker && m.OnTrial() && h.ready && h.disarmed && Roomy(m, 3)
    requires h.count.Some? ==> var boot := Selected(m.Copies()).value.boot; boot.count == h.count.value && boot.slot == Some(m.running)
    requires m.power >= if h.count.Some? then 5 else 3
    ensures m.Committed(h).1
  {
    hide Selected, Next, Machine.Recorded, Disk.Safe, Disk.Intact, Roomy;
    RunningIntact(m);
    if h.count.Some? { ReportSucceeds(m, h.count.value); }
    LessRoom(m);
    var n := if h.count.Some? then m.Recorded(RecordStage(Healthy, h.count.value, m.running)).0 else m;
    RunningIntact(n);
    SettledSucceeds(n, n.running, 1);
  }

  lemma ReportSucceeds(m: Machine, count: nat)
    requires Sound(m) && m.on && m.power >= 2 && Roomy(m, 3)
    requires Selected(m.Copies()).value.boot.count == count && Selected(m.Copies()).value.boot.slot == Some(m.running)
    ensures var (n, r) := m.Recorded(RecordStage(Healthy, count, m.running));
            && r.Ok? && n.on && n.power >= m.power - 2 && Roomy(n, 2) && Sound(n)
            && n.marker == m.marker && n.running == m.running && n.disk.state == m.disk.state
  {
    hide Selected, Next, Machine.Recorded, Disk.Safe, Disk.Intact, Roomy, Follows;
    RunningIntact(m);
    var w := RecordStage(Healthy, count, m.running);
    ReportStorable(m, count, 2);
    RequestedSound(m, w);
    RecordedCases(m, w);
    LessRoom(m);
    if Next(m.Copies(), w).value.Some? { FollowerRoomy(m, m.Recorded(w).0, 2); }
  }

  lemma LessRoom(m: Machine)
    requires Roomy(m, 3)
    ensures Roomy(m, 2)
  {
    hide Selected, RootsOk, Valid, Short;
  }

  /**
   * Good images are installed: started from the active slot, with power for every write, an other ESP that takes
   * the record, and room for the generations, an install succeeds, and with activation the trial is armed.
   */
  lemma InstalledSucceeds(m: Machine, man: Manifest, src: Sources, activate: bool)
    requires Sound(m) && m.on && m.running == Selected(m.Copies()).value.active && Older(src.espPieces, m.Generation())
    requires Deliverable(m, man, src) && Roomy(m, 4)
    requires m.power >= 3 + StagingWrites(src) + if activate then 4 else 0
    requires m.accepts(m.power - 3 - |src.systemChunks| - |src.espPieces| - 4)
    ensures m.Installed(man, src, activate).1
  {
    hide Next, Machine.Recorded, Selected, Sound, Staging, Machine.Staged, Machine.Activated, Machine.GivenUp, Home, Holds,
         Machine.Generation, Deliverable, Roomy, Older;
    CancelledHome(m, src.espPieces);
    RunsIntact(m);
    SettledSucceeds(m, m.running, 3);
    var m1 := m.Recorded(m.Settle(m.running)).0;
    var g, begun := m1.Generation(), State(Writing, Some(m.running), Some(m.Target()), Some(man), false);
    SavedHome(m1, begun, g);
    SavedRoomy(m1, begun, 3);
    var m2 := m1.Saved(begun);
    assert m2.on && m2.power == m.power - 3;
    StagingParts(m2, g);
    StillDeliverable(m, m2, man, src);
    StagedSucceeds(m2, man, src, g, 2);
    StagedHome(m2, man, src, g);
    var m3 := m2.Staged(man, src).0;
    StagingParts(m3, g);
    if activate {
      HeldPasses(m3, man, src);
      ActivatedSucceeds(m3, 1);
    }
  }

  lemma RunsIntact(m: Machine)
    requires Sound(m) && m.on
    ensures Selected(m.Copies()).Some? && m.disk.Intact(m.running)
  {
    RunningIntact(m);
  }

  lemma StillDeliverable(m: Machine, n: Machine, man: Manifest, src: Sources)
    requires Deliverable(m, man, src) && Within(m, n) && SameHome(m, n) && n.disk.system == m.disk.system
    ensures Deliverable(n, man, src)
  {
    hide Joined, Delivered, Complete, Splice, Arm64Efi;
  }

  // ---------------------------------------------------------------- the assumptions are needed

  /** A stable record for `slot`. */
  predicate SettledOn(c: Option<Control>, slot: Slot) {
    c.Some? && c.value.phase == Stable && c.value.active == slot
  }

  /**
   * The cancelling write of `install` has to reach the running slot's own copy, although any one copy counts as
   * success. Once the target ESP is overwritten by an image whose record, if it has one, is older than the
   * cancelling one, a stable record for the running slot is selected if and only if the running slot took the
   * write, or its own copy and the image select one anyway; for an image older than a readable own copy, if
   * and only if the running slot took the write or its own copy said so already.
   */
  lemma CancelNeedsOwnCopy(cs: Copies, running: Slot, accepts: set<Slot>, image: Option<Control>, rootA: string, rootB: string)
    requires var next := Next(cs, SetControl(running, "", Stable, rootA, rootB));
             next.Ok? && (image.Some? ==> image.value.generation < next.value.value.generation)
    ensures var w := SetControl(running, "", Stable, rootA, rootB);
            var overwritten := Written(cs, w, Next(cs, w).value.value, accepts, 2).Put(running.Other(), image);
            var kept := SettledOn(Selected(overwritten), running);
            && (kept <==> running in accepts || SettledOn(Selected(cs.Put(running.Other(), image)), running))
            && (cs.At(running).Some? && (image.Some? ==> image.value.generation < cs.At(running).value.generation) ==>
                  (kept <==> running in accepts || SettledOn(cs.At(running), running)))
  {
    hide Encodable;
  }

  /** The unsafe case exists: the write counts as success, and losing the target ESP re-arms its trial. */
  lemma RefusedCancelRearms(rootA: string, rootB: string) returns (c: Control)
    requires RootOk(rootA) && RootOk(rootB) && |rootA| <= 45 && |rootB| <= 45
    ensures c.phase == Armed && c.active == A
    ensures var w := SetControl(A, "", Stable, rootA, rootB);
            var cs := Copies(Some(c), Some(c));
            && Encode(c).Ok? && Next(cs, w).Ok? && Succeeds(w, {B})
            && Selected(Written(cs, w, Next(cs, w).value.value, {B}, 2).Put(B, None)) == Some(c)
  {
    var none := BootControl.Boot(0, Unknown, None);
    c := Control(1, A, "b", Armed, rootA, rootB, false, false, Ncm, none, none);
    OrdinaryFits(c);
    OrdinaryFits(c.(generation := 2, pending := "", phase := Stable));
    hide Encode, Encodable, RootOk;
  }

  /** An install started during an uncommitted trial makes the slot under trial active with its first write. */
  lemma InstallDuringTrialCommits(cs: Copies, rootA: string, rootB: string, accepts: set<Slot>)
    requires Selected(cs).Some? && Selected(cs).value.phase == Attempted
    requires var trial := Selected(cs).value.active.Other();
             var w := SetControl(trial, "", Stable, rootA, rootB);
             Next(cs, w).Ok? && Succeeds(w, accepts)
    ensures var trial := Selected(cs).value.active.Other();
            var w := SetControl(trial, "", Stable, rootA, rootB);
            var selected := Selected(Written(cs, w, Next(cs, w).value.value, accepts, 2));
            selected.Some? && selected.value.active == trial && selected.value.phase == Stable
  {
    hide Encode, Encodable;
    CrashAtomic(cs, SetControl(Selected(cs).value.active.Other(), "", Stable, rootA, rootB), accepts, 2);
  }
}
