/** Whole-run A/B safety: what every step of the updater keeps. */
module UpdaterSafety {
  import opened Common
  import opened Bytes
  import opened BootControl
  import opened BootControlCodec
  import opened RedundantStore
  import opened EspFiles
  import opened UpdaterDisk
  import opened UpdaterSteps

  /** Safe on disk; and the running slot is the active one, or the one under trial. */
  predicate Sound(m: Machine) {
    && m.disk.Safe(m.env.checks) && (m.marker ==> m.trial)
    && (m.on ==>
          var c := Selected(m.Copies()).value;
          if m.running == c.active
          then m.trial && (m.disk.state.name == Ready || m.disk.state.name == Booting) ==> m.disk.state.target != Some(m.running)
          else m.trial && c.phase == Attempted)
  }

  /** Only the disk, the power left and being on or off differ. */
  ghost predicate Within(m: Machine, n: Machine) {
    n == m.(disk := n.disk, power := n.power, on := n.on)
  }

  /** Within one boot, and only the two records differ on the disk. */
  ghost predicate OnlyRecords(m: Machine, n: Machine) {
    Within(m, n) && n.disk == m.disk.WithCopies(n.Copies())
  }

  // ---------------------------------------------------------------- one write of the record

  /** Whatever a writer does: the selected record is the old one or the new one, and success means the new one. */
  lemma RecordedCases(m: Machine, w: Writer)
    requires m.on && !Strict(w)
    ensures var (n, r) := m.Recorded(w);
            var next := Next(m.Copies(), w);
            && OnlyRecords(m, n)
            && (next.Err? ==> n == m && r.Err?)
            && (next.Ok? && next.value.None? ==> n == m && r.Ok?)
            && (next.Ok? && next.value.Some? ==>
                  && n.on == (m.power >= 2) && n.power == m.power - Min(m.power, 2)
                  && Readable(m.disk.esp, n.disk.esp)
                  && (Selected(n.Copies()) == Selected(m.Copies()) || Selected(n.Copies()) == next.value)
                  && (r.Ok? ==> n.on && Selected(n.Copies()) == next.value)
                  && (n.on && Bootable(m, m.running) ==> r.Ok? && n.Copies().At(m.running) == next.value))
  {
    hide Encodable, Selected, Next;
    var next := Next(m.Copies(), w);
    if next.Ok? && next.value.Some? {
      var takers, done := m.Takers(w), Min(m.power, 2);
      CrashAtomic(m.Copies(), w, takers, done);
      WrittenShape(m.Copies(), w, next.value.value, takers, done);
      TakersRunning(m, w);
    }
  }

  /** The loader and the kernel are there. */
  predicate Bootable(m: Machine, slot: Slot) {
    m.disk.esp.At(slot).primary.Some? && m.disk.esp.At(slot).kernel.Some?
  }

  lemma TakersRunning(m: Machine, w: Writer)
    ensures m.power >= 2 && Bootable(m, m.running) ==> m.running in m.Takers(w)
  {
    assert m.running == Order(w)[0] || m.running == Order(w)[1];
  }

  lemma WrittenShape(cs: Copies, w: Writer, c: Control, accepts: set<Slot>, done: nat)
    requires !Strict(w)
    ensures var after := Written(cs, w, c, accepts, done);
            && (cs.a.Some? ==> after.a.Some?) && (cs.b.Some? ==> after.b.Some?)
            && forall s: Slot :: s in accepts && done >= 2 ==> after.At(s) == Some(c)
  {
  }

  /** A sound machine runs an intact slot. */
  lemma RunningIntact(m: Machine)
    requires Sound(m) && m.on
    ensures Selected(m.Copies()).Some? && m.disk.Intact(m.running) && Bootable(m, m.running)
    ensures Selected(m.Copies()).value.phase != Stable ==> m.disk.state.active == Some(Selected(m.Copies()).value.active)
  {
    hide Arm64Efi, EspVerifies, Selected;
  }

  lemma SettleRecord(m: Machine, current: Slot)
    ensures var next := Next(m.Copies(), m.Settle(current));
            next.Ok? ==> next.value.Some? && next.value.value.active == current && next.value.value.phase == Stable
                         && next.value.value.generation == m.Generation() + 1
  {
    hide Encodable;
  }

  /** `commit_boot` and `rollback_boot`: a stable record for an intact slot. The running slot always takes it. */
  lemma SettledSafe(m: Machine, current: Slot)
    requires Sound(m) && m.on && m.disk.Intact(current)
    ensures var (n, r) := m.Recorded(m.Settle(current));
            var next := Next(m.Copies(), m.Settle(current));
            && OnlyRecords(m, n) && n.disk.Safe(m.env.checks) && Readable(m.disk.esp, n.disk.esp)
            && (Selected(n.Copies()) == Selected(m.Copies())
                || (Selected(n.Copies()).value.active == current && Selected(n.Copies()).value.phase == Stable))
            && (n.on ==> (r.Ok? <==> next.Ok?))
            && (r.Err? && n.on ==> n == m)
            && (r.Ok? ==>
                  && n.on && Selected(n.Copies()) == n.Copies().At(m.running)
                  && Selected(n.Copies()).value.active == current && Selected(n.Copies()).value.phase == Stable
                  && Selected(n.Copies()).value.generation == m.Generation() + 1)
  {
    hide Next, Selected, Encodable, Machine.Recorded, Disk.Safe;
    RunningIntact(m);
    RecordedCases(m, m.Settle(current));
    SettleRecord(m, current);
    var n := m.Recorded(m.Settle(current)).0;
    if n != m { SettledKeepsSafe(m, n, current); }
  }

  lemma SettledKeepsSafe(m: Machine, n: Machine, current: Slot)
    requires m.disk.Safe(m.env.checks) && m.disk.Intact(current) && OnlyRecords(m, n) && Readable(m.disk.esp, n.disk.esp)
    requires Selected(n.Copies()) == Selected(m.Copies())
          || (Selected(n.Copies()).Some? && Selected(n.Copies()).value.active == current && Selected(n.Copies()).value.phase == Stable)
    ensures n.disk.Safe(m.env.checks)
  {
    hide Selected, Disk.Intact;
    SafeActive(m.disk, m.env.checks);
    RecordKeepsSafe(m.disk, n.disk.esp, m.env.checks);
  }

  /** A request write cut anywhere keeps active slot, phase and pending slot, and everything else but the records. */
  lemma RequestedSound(m: Machine, w: Writer)
    requires Sound(m) && m.on && (w.RequestEdl? || w.SetUsb? || w.RecordStage?)
    ensures var n := m.Recorded(w).0;
            && OnlyRecords(m, n) && Sound(n)
            && (m.Recorded(w).1.Ok? ==> n.on) && (n.on && Next(m.Copies(), w).Ok? ==> m.Recorded(w).1.Ok?)
            && var c, d := Selected(m.Copies()).value, Selected(n.Copies()).value;
               d.active == c.active && d.phase == c.phase && d.pending == c.pending
  {
    hide Encodable, Machine.Recorded, Disk.Intact, Selected, Arm64Efi, EspVerifies;
    RunningIntact(m);
    RecordedCases(m, w);
    RequestFields(m.Copies(), w);
    hide Next;
    var n := m.Recorded(w).0;
    if n != m { RecordKeepsSafe(m.disk, n.disk.esp, m.env.checks); }
  }

  lemma RequestFields(cs: Copies, w: Writer)
    requires Selected(cs).Some? && Neutral(w)
    ensures Next(cs, w).Ok? && Next(cs, w).value.Some? ==>
            var c, d := Selected(cs).value, Next(cs, w).value.value;
            d.active == c.active && d.phase == c.phase && d.pending == c.pending
  {
    hide Encodable, Selected;
  }

  // ---------------------------------------------------------------- writing images

  /** The running slot's own copy is the selected record, stable and at least as new as `generation`. */
  predicate Home(m: Machine, generation: nat) {
    && Sound(m) && m.on
    && var c := Selected(m.Copies()).value;
       && c.phase == Stable && c.active == m.running && c.generation >= generation
       && m.Copies().At(m.running) == Some(c)
  }

  /** While images are written the machine stays sound, and home unless the power fails. */
  predicate Staging(m: Machine, generation: nat) {
    && Sound(m) && (m.on ==> Home(m, generation))
    && Selected(m.Copies()).value.active == m.running
  }

  /** Power spent on a write that does not fail, or that does. */
  lemma SpendKeeps(m: Machine, generation: nat)
    requires Home(m, generation)
    ensures Staging(m.Spend(), generation) && Within(m, m.Spend()) && m.Spend().disk == m.disk
  {
    hide Selected, Disk.Safe;
  }

  function Joined(chunks: seq<File>): File {
    if chunks == [] then [] else chunks[0] + Joined(chunks[1..])
  }

  function Delivered(pieces: seq<Piece>): File {
    if pieces == [] then [] else pieces[0].bytes + Delivered(pieces[1..])
  }

  /** Every record that the ESP image can show is older than `generation`. */
  predicate Older(pieces: seq<Piece>, generation: nat) {
    forall i :: 0 <= i < |pieces| && pieces[i].shows.control.Some? ==> pieces[i].shows.control.value.generation < generation
  }

  /** Only the root file system of the target slot differs on the disk. */
  ghost predicate OnlySystem(m: Machine, n: Machine) {
    Within(m, n) && n.disk == m.WithSystem(n.disk.system.At(m.Target())).disk
  }

  /** Only the ESP of the target slot differs on the disk. */
  ghost predicate OnlyEsp(m: Machine, n: Machine) {
    Within(m, n) && n.disk == m.WithEsp(n.disk.esp.At(m.Target())).disk
  }

  /** The target file system takes the stream and nothing else changes; success means all of it is there and checks out. */
  lemma {:induction false} StreamedHome(m: Machine, spec: Spec, stream: File, chunks: seq<File>, generation: nat)
    requires Home(m, generation) && m.disk.vouched.At(m.Target()) == None
    requires |stream| <= spec.size <= |m.disk.system.At(m.Target())| && m.disk.system.At(m.Target())[..|stream|] == stream
    ensures var (n, ok) := m.Streamed(spec, stream, chunks);
            var file := n.disk.system.At(m.Target());
            && Staging(n, generation) && OnlySystem(m, n) && |file| == |m.disk.system.At(m.Target())|
            && (ok ==> n.on && |stream + Joined(chunks)| == spec.size && file[..spec.size] == stream + Joined(chunks)
                       && m.env.checks.sha(stream + Joined(chunks)) == spec.digest)
    decreases |chunks|
  {
    hide Home, Sound, Splice, Joined;
    JoinStep(stream, chunks);
    if chunks == [] {
      StayHome(m, generation);
    } else if |stream| + |chunks[0]| <= spec.size {
      var file, longer := m.disk.system.At(m.Target()), stream + chunks[0];
      SpendKeeps(m, generation);
      if m.Spend().on {
        var next := Splice(file, |stream|, chunks[0]);
        var m1 := m.Spend().WithSystem(next);
        SystemChunk(m, next, generation);
        SpliceExtends(file, stream, chunks[0]);
        StreamedHome(m1, spec, longer, chunks[1..], generation);
      }
    } else {
      StayHome(m, generation);
    }
  }

  lemma JoinStep(stream: File, chunks: seq<File>)
    ensures stream + Joined(chunks) == if chunks == [] then stream else stream + chunks[0] + Joined(chunks[1..])
  {
  }

  lemma StayHome(m: Machine, generation: nat)
    requires Home(m, generation)
    ensures Staging(m, generation) && m.on
  {
  }

  lemma SpliceExtends(file: File, stream: File, chunk: File)
    requires |stream| + |chunk| <= |file| && file[..|stream|] == stream
    ensures Splice(file, |stream|, chunk)[..|stream| + |chunk|] == stream + chunk
  {
  }

  lemma SystemChunk(m: Machine, system: File, generation: nat)
    requires Home(m, generation) && m.disk.vouched.At(m.Target()) == None && m.Spend().on
    ensures var n := m.Spend().WithSystem(system);
            Home(n, generation) && n.disk.vouched.At(m.Target()) == None && OnlySystem(m, n)
  {
    hide Selected, Disk.Safe;
    TargetKeepsSafe(m.disk, m.running, m.disk.esp.At(m.Target()), system, m.env.checks);
    assert m.disk.esp.Put(m.Target(), m.disk.esp.At(m.Target())) == m.disk.esp;
    assert m.disk.vouched.Put(m.Target(), None) == m.disk.vouched;
  }

  lemma EspChunk(m: Machine, e: Esp, generation: nat)
    requires Home(m, generation) && m.disk.vouched.At(m.Target()) == None && m.Spend().on
    requires e.control.Some? ==> e.control.value.generation < generation
    ensures var n := m.Spend().WithEsp(e);
            Home(n, generation) && n.disk.vouched.At(m.Target()) == None && OnlyEsp(m, n)
  {
    hide Selected, Disk.Safe;
    TargetKeepsSafe(m.disk, m.running, e, m.disk.system.At(m.Target()), m.env.checks);
    assert m.disk.system.Put(m.Target(), m.disk.system.At(m.Target())) == m.disk.system;
    assert m.disk.vouched.Put(m.Target(), None) == m.disk.vouched;
  }

  /** While the target ESP shows arbitrary older records the selection stays on the running slot's copy. */
  lemma {:induction false} ShownHome(m: Machine, spec: Spec, stream: File, pieces: seq<Piece>, generation: nat)
    requires Home(m, generation) && m.disk.vouched.At(m.Target()) == None && Older(pieces, generation)
    ensures var (n, ok) := m.Shown(spec, stream, pieces);
            && Staging(n, generation) && OnlyEsp(m, n)
            && (ok ==> n.on && |stream + Delivered(pieces)| == spec.size && m.env.checks.sha(stream + Delivered(pieces)) == spec.digest
                       && m.env.checks.espSha(n.disk.esp.At(m.Target())) == spec.digest
                       && (pieces != [] ==> n.disk.esp.At(m.Target()) == pieces[|pieces| - 1].shows))
    decreases |pieces|
  {
    hide Home, Sound;
    if pieces == [] {
      assert stream + Delivered([]) == stream;
      StayHome(m, generation);
    } else if |stream| + |pieces[0].bytes| <= spec.size {
      SpendKeeps(m, generation);
      if m.Spend().on {
        EspChunk(m, pieces[0].shows, generation);
        ShownHome(m.Spend().WithEsp(pieces[0].shows), spec, stream + pieces[0].bytes, pieces[1..], generation);
        assert stream + pieces[0].bytes + Delivered(pieces[1..]) == stream + Delivered(pieces);
      }
    } else {
      StayHome(m, generation);
    }
  }

  // ---------------------------------------------------------------- the disk selector

  /**
   * Both copies end with the same stable record; the kernel of the running slot and the whole other slot but its
   * record are untouched; and the machine is sound wherever the power fails.
   */
  lemma SelectorPreparedHome(m: Machine, generation: nat)
    requires Home(m, generation)
    ensures var (n, ok) := m.SelectorPrepared();
            && Staging(n, generation) && Within(m, n)
            && n.disk == m.Unvouched().disk.(esp := n.disk.esp, vouched := n.disk.vouched)
            && n.disk.esp.At(m.running).kernel == m.disk.esp.At(m.running).kernel
            && n.disk.esp.At(m.Target()) == m.disk.esp.At(m.Target()).(control := n.disk.esp.At(m.Target()).control)
            && (ok ==> n.on && n.Copies().a == n.Copies().b
                       && Ok(n.Copies().a) == Next(m.Copies(), PrepareSelector(m.running, m.env.rootA, m.env.rootB)))
  {
    hide Next, Selected, Disk.Safe, Encodable, Migrated, Reach, Arm64Efi, EspVerifies, Checks.Pass;
    RunningIntact(m);
    NextSelector(m.Copies(), m.running, m.env.rootA, m.env.rootB);
    var e, next := m.disk.esp.At(m.Target()), Next(m.Copies(), PrepareSelector(m.running, m.env.rootA, m.env.rootB));
    if m.Offers(e) && next.Ok? && next.value.Some? {
      var c := next.value.value;
      var u := m.Unvouched();
      UnvouchedHome(m, generation);
      var mig := Migration(e.primary.value, e.edl.value, c);
      MigratingHome(u, mig, generation);
      var (n, done) := u.Migrating(m.running, mig);
      if done { OtherCopy(n, c, generation); }
    }
  }

  /** Nothing is migrated unless the target ESP offers a selector, a kernel and an EDL application that can be loaded. */
  lemma SelectorNeedsLoadable(m: Machine)
    requires var e := m.disk.esp.At(m.Target());
             !(e.primary.Some? && e.kernel.Some? && e.edl.Some? && Loadable(e.primary.value) && Loadable(e.kernel.value) && Loadable(e.edl.value))
    ensures m.SelectorPrepared() == (m, false)
  {
    var e := m.disk.esp.At(m.Target());
    if e.primary.Some? && e.kernel.Some? && e.edl.Some? {
      LoadableExactly(e.primary.value);
      LoadableExactly(e.kernel.value);
      LoadableExactly(e.edl.value);
    }
    hide Arm64Efi, Loadable, Next, Machine.Migrating, Selected;
  }

  lemma UnvouchedHome(m: Machine, generation: nat)
    requires Home(m, generation)
    ensures Home(m.Unvouched(), generation)
  {
    hide Selected, Disk.Safe;
    TargetKeepsSafe(m.disk, m.running, m.disk.esp.At(m.Target()), m.disk.system.At(m.Target()), m.env.checks);
    assert m.disk.esp.Put(m.Target(), m.disk.esp.At(m.Target())) == m.disk.esp;
    assert m.disk.system.Put(m.Target(), m.disk.system.At(m.Target())) == m.disk.system;
  }

  lemma MigratingHome(m: Machine, mig: Migration, generation: nat)
    requires Home(m, generation) && Bootable(m, m.running)
    requires var p, c := Selected(m.Copies()).value, mig.control;
             c.phase == Stable && c.active == m.running && c.generation > p.generation
    ensures var (n, done) := m.Migrating(m.running, mig);
            && Staging(n, generation) && Within(m, n) && n.disk == m.disk.(esp := n.disk.esp)
            && n.disk.esp.At(m.Target()) == m.disk.esp.At(m.Target())
            && n.disk.esp.At(m.running).kernel == m.disk.esp.At(m.running).kernel
            && (done ==> n.on && Selected(n.Copies()) == Some(mig.control) == n.Copies().At(m.running))
  {
    hide Selected, Disk.Safe, Disk.Intact, Migrated, Reach, Arm64Efi;
    var e := m.disk.esp.At(m.running);
    MigratedKeeps(e, mig);
    var n := m.Migrating(m.running, mig).0;
    assert n.disk == m.disk.(esp := m.disk.esp.Put(m.running, n.disk.esp.At(m.running)));
    HomeKeepsSafe(m.disk, m.running, n.disk.esp.At(m.running), mig.control, m.env.checks);
  }

  lemma OtherCopy(m: Machine, c: Control, generation: nat)
    requires Home(m, generation) && Selected(m.Copies()) == Some(c) == m.Copies().At(m.running)
    ensures var (n, ok) := m.Put(m.Target(), c);
            && Staging(n, generation) && Within(m, n) && n.disk == m.disk.(esp := n.disk.esp)
            && n.disk.esp.At(m.running) == m.disk.esp.At(m.running)
            && n.disk.esp.At(m.Target()) == m.disk.esp.At(m.Target()).(control := n.disk.esp.At(m.Target()).control)
            && (ok ==> n.on && n.Copies().a == n.Copies().b == Some(c))
  {
    hide Selected, Disk.Safe, Disk.Intact;
    BothKeepSafe(m.disk, m.running, c, m.env.checks);
  }

  // ---------------------------------------------------------------- install, activate

  /** What a staged target holds: the delivered images, valid as a whole. */
  predicate Holds(m: Machine, man: Manifest, src: Sources) {
    var e, system := m.disk.esp.At(m.Target()), m.disk.system.At(m.Target());
    && man.system.size <= |system| && system[..man.system.size] == Joined(src.systemChunks)
    && m.env.checks.sha(Joined(src.systemChunks)) == man.system.digest
    && m.env.checks.sha(Delivered(src.espPieces)) == man.esp.digest
    && (src.espPieces != [] ==>
          var shown := src.espPieces[|src.espPieces| - 1].shows;
          e == shown.(control := e.control) && m.env.checks.espSha(shown) == man.esp.digest)
    && m.Contents(man.version)
  }

  /** What the running slot runs, and that it runs. */
  predicate SameHome(m: Machine, n: Machine) {
    m.disk.Runs(m.running) == n.disk.Runs(m.running)
  }

  lemma StagedHome(m: Machine, man: Manifest, src: Sources, generation: nat)
    requires Home(m, generation) && Older(src.espPieces, generation)
    requires m.disk.state == State(Writing, Some(m.running), Some(m.Target()), Some(man), false)
    ensures var (n, ok) := m.Staged(man, src);
            && Staging(n, generation) && Within(m, n) && SameHome(m, n) && n.disk.state.target == Some(m.Target())
            && n.disk.armings == m.disk.armings
            && (ok ==> n.on && n.disk.state == State(Verified, Some(m.running), Some(m.Target()), Some(man), true)
                       && Holds(n, man, src))
  {
    hide Home, Sound, Machine.Streamed, Machine.Shown, Machine.SelectorPrepared, EspVerifies, Selected, Staging;
    var (m1, ok1) := m.SystemWritten(man.system, src.systemChunks);
    SystemWrittenHome(m, man.system, src.systemChunks, generation);
    if ok1 {
      StagingHome(m1, generation);
      var (m2, ok2) := m1.EspWritten(man.esp, src.espPieces);
      UnvouchedHome(m1, generation);
      ShownHome(m1.Unvouched(), man.esp, [], src.espPieces, generation);
      assert [] + Delivered(src.espPieces) == Delivered(src.espPieces);
      if ok2 {
        StagingHome(m2, generation);
        SelectorPreparedHome(m2, generation);
        var (m3, ok3) := m2.SelectorPrepared();
        if ok3 {
          StagingHome(m3, generation);
          SavedHome(m3, m3.disk.state.(customized := true), generation);
          var m4 := m3.Saved(m3.disk.state.(customized := true));
          if m4.on && m4.Contents(man.version) {
            StagingHome(m4, generation);
            SavedHome(m4, m4.disk.state.(name := Verified), generation);
          }
        }
      }
    }
  }

  lemma StagingHome(m: Machine, generation: nat)
    requires Staging(m, generation) && m.on
    ensures Home(m, generation)
  {
  }

  lemma SystemWrittenHome(m: Machine, spec: Spec, chunks: seq<File>, generation: nat)
    requires Home(m, generation)
    ensures var (n, ok) := m.SystemWritten(spec, chunks);
            var file := n.disk.system.At(m.Target());
            && Staging(n, generation) && Within(m, n)
            && n.disk == m.disk.(system := n.disk.system, vouched := n.disk.vouched)
            && n.disk.system.At(m.running) == m.disk.system.At(m.running)
            && (|m.disk.system.At(m.Target())| < spec.size ==> n == m && !ok)
            && (ok ==> n.on && spec.size <= |file| && file[..spec.size] == Joined(chunks)
                       && m.env.checks.sha(Joined(chunks)) == spec.digest)
  {
    StayHome(m, generation);
    hide Home, Sound, Machine.Streamed;
    if |m.disk.system.At(m.Target())| >= spec.size {
      UnvouchedHome(m, generation);
      StreamedHome(m.Unvouched(), spec, [], chunks, generation);
      assert [] + Joined(chunks) == Joined(chunks);
    }
  }

  lemma SavedHome(m: Machine, s: State, generation: nat)
    requires Home(m, generation) && s.name != Ready && s.name != Booting && (s.name == Verified ==> s.customized)
    ensures Staging(m.Saved(s), generation) && Within(m, m.Saved(s)) && m.Saved(s).disk == m.disk.(state := m.Saved(s).disk.state)
    ensures m.Saved(s).disk.state == if m.Saved(s).on then s else m.disk.state
  {
    hide Selected, Disk.Safe;
    StateKeepsSafe(m.disk, s, m.env.checks);
  }

  /** Back to the running slot: sound wherever it is cut, and settled unless the record cannot be stored. */
  lemma GivenUpSound(m: Machine)
    requires Sound(m) && m.on && Selected(m.Copies()).value.active == m.running
    ensures var n := m.GivenUp().0;
            && !m.GivenUp().1 && Sound(n) && Within(m, n) && Readable(m.disk.esp, n.disk.esp)
            && n.disk == m.disk.WithCopies(n.Copies()).(state := m.disk.state.(name := n.disk.state.name))
            && Selected(n.Copies()).value.active == m.running
            && (Selected(n.Copies()) == Selected(m.Copies()) || Selected(n.Copies()).value.phase == Stable)
            && (n.on && Next(m.Copies(), m.Settle(m.running)).Ok? ==> Selected(n.Copies()).value.phase == Stable)
            && (n.on ==> n.disk.state.name == Failed)
  {
    hide Next, Selected, Machine.Recorded, Disk.Safe;
    RunningIntact(m);
    SettledSafe(m, m.running);
    var n := m.Recorded(m.Settle(m.running)).0;
    NameKeepsSafe(n.disk, Failed, m.env.checks);
  }

  /** Arming is sound wherever it is cut, and the running slot stays active. */
  lemma ArmedSound(m: Machine)
    requires Sound(m) && m.on && Selected(m.Copies()).value.active == m.running
    requires m.disk.Intact(m.Target()) && m.env.checks.Pass(m.disk.esp.At(m.Target()), m.disk.system.At(m.Target()), m.disk.state)
    requires m.disk.state.active == Some(m.running) && m.disk.state.target == Some(m.Target())
    requires m.disk.state.customized && m.disk.trials < m.disk.armings
    ensures var (n, r) := m.Recorded(m.Arm());
            && OnlyRecords(m, n) && Sound(n) && Readable(m.disk.esp, n.disk.esp) && Selected(n.Copies()).value.active == m.running
            && (n.on ==> (r.Ok? <==> Next(m.Copies(), m.Arm()).Ok?))
            && (r.Err? && n.on ==> n == m)
            && (r.Ok? ==> n.on && Selected(n.Copies()).value.phase == Armed && Selected(n.Copies()) == n.Copies().At(m.running))
  {
    hide Encodable, Machine.Recorded, Selected, Disk.Safe, Disk.Intact, Checks.Pass;
    RunningIntact(m);
    RecordedCases(m, m.Arm());
    ArmFields(m);
    hide Next;
    var n := m.Recorded(m.Arm()).0;
    if n != m { ArmKeepsSafe(m.disk, n.disk.esp, m.env.checks); }
  }

  lemma ArmFields(m: Machine)
    ensures var next := Next(m.Copies(), m.Arm());
            next.Ok? ==>
              && next.value.Some?
              && var c := next.value.value; c.active == m.running && c.phase == Armed && c.pending == SlotName(m.Target())
  {
    hide Encodable, Selected;
  }

  lemma VouchedSound(m: Machine)
    requires Sound(m) && m.on && m.env.checks.Pass(m.disk.esp.At(m.Target()), m.disk.system.At(m.Target()), m.disk.state)
    ensures var n := m.Vouched(); Sound(n) && n.disk.Intact(m.Target()) && n.disk.trials < n.disk.armings
  {
    hide Selected, Disk.Safe, Checks.Pass;
    VouchKeepsSafe(m.disk, m.Target(), m.env.checks);
  }

  /** A verified update of the inactive slot that passes its checks. */
  predicate Gate(m: Machine) {
    && (m.disk.state.name == Verified || m.disk.state.name == Ready)
    && m.disk.state.active == Some(m.running) && m.disk.state.target == Some(m.Target())
    && m.env.checks.Pass(m.disk.esp.At(m.Target()), m.disk.system.At(m.Target()), m.disk.state)
  }

  /** Only a target that passes its checks again is armed; a failure leaves the selection or a stable record. */
  lemma ActivatedSound(m: Machine)
    requires Sound(m) && m.on
    ensures var (n, ok) := m.Activated();
            && Sound(n) && Within(m, n) && n.disk.system == m.disk.system
            && SameFiles(m.disk.esp, n.disk.esp) && Readable(m.disk.esp, n.disk.esp)
            && Selected(n.Copies()).value.active == Selected(m.Copies()).value.active
            && (Selected(m.Copies()).value.phase == Stable && n.on && !ok ==> Selected(n.Copies()).value.phase == Stable)
            && (!ok ==> n.disk.state == m.disk.state.(name := n.disk.state.name))
            && (!ok && n.on ==> n.disk.state.name == Failed || (n.disk == m.disk && !Gate(m)))
            && (ok ==>
                  && n.on && (m.disk.state.name == Verified || m.disk.state.name == Ready)
                  && m.disk.state.active == Some(m.running) && m.disk.state.target == Some(m.Target())
                  && m.env.checks.Pass(m.disk.esp.At(m.Target()), m.disk.system.At(m.Target()), m.disk.state)
                  && n.disk.state == m.disk.state.(name := Ready)
                  && Selected(n.Copies()) == n.Copies().At(m.running) && Selected(n.Copies()).value.phase == Armed
                  && Selected(n.Copies()).value.active == m.running)
  {
    hide Next, Machine.Recorded, Selected, Disk.Safe, Disk.Intact, Checks.Pass, Machine.GivenUp;
    RunningIntact(m);
    ActivationHome(m);
    if (m.disk.state.name == Verified || m.disk.state.name == Ready) && m.disk.state.active == Some(m.running) && m.disk.state.target == Some(m.Target()) {
      var m1 := m.Saved(m.disk.state);
      assert m1.disk == m.disk;
      if m1.on && m1.env.checks.Pass(m1.disk.esp.At(m.Target()), m1.disk.system.At(m.Target()), m1.disk.state) {
        var v := m1.Vouched();
        VouchedSound(m1);
        ArmedSound(v);
        var (m2, armed) := v.Recorded(v.Arm());
        if m2.on {
          if armed.Err? { GivenUpSound(v); }
          else { NameKeepsSafe(m2.disk, Ready, m.env.checks); }
        }
      }
    }
  }

  /** A staged update can only be activated from the active slot. */
  lemma ActivationHome(m: Machine)
    requires Sound(m) && m.on
    ensures m.disk.state.active == Some(m.running) ==> Selected(m.Copies()).value.active == m.running
    ensures m.disk.state.name == Verified || m.disk.state.name == Ready ==> m.disk.state.customized
  {
    hide Selected, Disk.Intact, Checks.Pass;
  }

  /** The write that opens an install: it brings the machine home, or nothing comes of the install. */
  lemma CancelledHome(m: Machine, pieces: seq<Piece>)
    requires Sound(m) && m.on && m.running == Selected(m.Copies()).value.active && Older(pieces, m.Generation())
    ensures Selected(m.Copies()).Some?
    ensures var (n, r) := m.Recorded(m.Settle(m.running));
            && OnlyRecords(m, n) && SameHome(m, n) && Sound(n) && Selected(n.Copies()).value.active == m.running
            && (r.Ok? ==> Home(n, n.Generation()) && Older(pieces, n.Generation()) && n.disk.armings == m.disk.armings)
            && (r.Err? && n.on ==> Next(m.Copies(), m.Settle(m.running)).Err?)
  {
    hide Next, Machine.Recorded, Selected, Disk.Safe;
    RunningIntact(m);
    SettledSafe(m, m.running);
    SafeActive(m.Recorded(m.Settle(m.running)).0.disk, m.env.checks);
  }

  /** The end of an install whose images did not make it, or made it and are to be activated. */
  lemma InstallEnds(m: Machine, man: Manifest, src: Sources, generation: nat, ok: bool)
    requires Home(m, generation)
    requires ok ==> m.disk.state == State(Verified, Some(m.running), Some(m.Target()), Some(man), true) && Holds(m, man, src)
    ensures var n := m.GivenUp().0;
            !m.GivenUp().1 && Sound(n) && Within(m, n) && SameHome(m, n)
            && Selected(n.Copies()).value.active == m.running
            && (n.on ==> Selected(n.Copies()).value.phase == Stable && n.disk.state.name == Failed)
    ensures var (n, armed) := m.Activated();
            ok ==>
              && Sound(n) && Within(m, n) && SameHome(m, n) && Selected(n.Copies()).value.active == m.running
              && (!armed && n.on ==> Selected(n.Copies()).value.phase == Stable && n.disk.state.name == Failed)
              && (armed ==> n.on && Selected(n.Copies()).value.phase == Armed && Holds(n, man, src)
                            && n.disk.state == State(Ready, Some(m.running), Some(m.Target()), Some(man), true))
  {
    hide Next, Selected, Machine.Recorded, Machine.Activated, Machine.GivenUp, Disk.Safe, Arm64Efi;
    GivenUpSound(m);
    ActivatedSound(m);
    if ok { HeldPasses(m, man, src); }
  }

  lemma HeldPasses(m: Machine, man: Manifest, src: Sources)
    requires Holds(m, man, src) && m.disk.state == State(Verified, Some(m.running), Some(m.Target()), Some(man), true)
    ensures Gate(m)
  {
    hide EspVerifies, Joined, Delivered;
  }

  /**
   * An install from the active slot: that slot keeps its kernel and root file system and stays active; success
   * means that the target holds the delivered images, verified or armed; a failure with power left means a
   * stable selection.
   */
  lemma InstalledSound(m: Machine, man: Manifest, src: Sources, activate: bool)
    requires Sound(m) && m.on && m.running == Selected(m.Copies()).value.active && Older(src.espPieces, m.Generation())
    ensures var (n, ok) := m.Installed(man, src, activate);
            && Sound(n) && Within(m, n) && SameHome(m, n) && Selected(n.Copies()).value.active == m.running
            && (ok ==>
                  && n.on && Holds(n, man, src) && Selected(n.Copies()).value.phase == (if activate then Armed else Stable)
                  && n.disk.state == State(if activate then Ready else Verified, Some(m.running), Some(m.Target()), Some(man), true))
            && (!ok && n.on && Next(m.Copies(), m.Settle(m.running)).Ok? ==>
                  Selected(n.Copies()).value.phase == Stable && n.disk.state.name == Failed)
  {
    hide Next, Machine.Recorded, Selected, Sound, Staging, Machine.Staged, Machine.Activated, Machine.GivenUp, Home, Holds, Machine.Generation;
    CancelledHome(m, src.espPieces);
    var (m1, cancelled) := m.Recorded(m.Settle(m.running));
    if m1.on && cancelled.Ok? {
      var g, begun := m1.Generation(), State(Writing, Some(m.running), Some(m.Target()), Some(man), false);
      SavedHome(m1, begun, g);
      var m2 := m1.Saved(begun);
      StagingParts(m2, g);
      if m2.on {
        StagedHome(m2, man, src, g);
        var (m3, staged) := m2.Staged(man, src);
        StagingParts(m3, g);
        if m3.on { InstallEnds(m3, man, src, g, staged); }
      }
    }
  }

  lemma StagingParts(m: Machine, generation: nat)
    requires Staging(m, generation)
    ensures Sound(m) && Selected(m.Copies()).value.active == m.running
    ensures m.on ==> Home(m, generation) && Selected(m.Copies()).value.phase == Stable
  {
  }

  // ---------------------------------------------------------------- what is checked before arming

  /**
   * What the target slot has to show: the recorded system size and hash, the ESP hash unless the ESP has been
   * customized, a good system of the recorded version, and an ESP with four loadable images, equal loaders, a
   * record, and everything else a board needs.
   */
  predicate Vetted(checks: Checks, e: Esp, f: File, s: State) {
    && s.images.Some?
    && s.images.value.system.size <= |f|
    && checks.sha(f[..s.images.value.system.size]) == s.images.value.system.digest
    && (s.customized || checks.espSha(e) == s.images.value.esp.digest)
    && checks.systemGood(f, s.images.value.version)
    && e.primary.Some? && Loadable(e.primary.value) && e.recovery == e.primary
    && e.kernel.Some? && Loadable(e.kernel.value) && e.edl.Some? && Loadable(e.edl.value) && e.control.Some?
    && e.rest.firmware && e.rest.clean && e.rest.deviceTree.Some? && [0xd0, 0x0d, 0xfe, 0xed] <= e.rest.deviceTree.value
  }

  lemma VettedExactly(checks: Checks, e: Esp, f: File, s: State)
    ensures checks.Pass(e, f, s) <==> Vetted(checks, e, f, s)
  {
    if e.primary.Some? { LoadableExactly(e.primary.value); }
    if e.recovery.Some? { LoadableExactly(e.recovery.value); }
    if e.kernel.Some? { LoadableExactly(e.kernel.value); }
    if e.edl.Some? { LoadableExactly(e.edl.value); }
    hide Arm64Efi, Loadable;
  }

  /**
   * The gate of activation: a trial is armed only for the inactive slot of a verified update whose partitions, as
   * they are now, show everything `Vetted` asks for. With anything missing, the mismatch of a hash among others, the
   * call fails and neither record is written.
   */
  lemma ArmingGate(m: Machine)
    requires m.on
    ensures var (n, ok) := m.Activated();
            var s, e, f := m.disk.state, m.disk.esp.At(m.Target()), m.disk.system.At(m.Target());
            var open := (s.name == Verified || s.name == Ready) && s.active == Some(m.running) && s.target == Some(m.Target());
            && (ok ==> open && Vetted(m.env.checks, e, f, s))
            && (!open || !Vetted(m.env.checks, e, f, s) ==> !ok && n.Copies() == m.Copies() && n.disk.esp == m.disk.esp)
            && n.disk.system == m.disk.system
  {
    VettedExactly(m.env.checks, m.disk.esp.At(m.Target()), m.disk.system.At(m.Target()), m.disk.state);
    hide Checks.Pass, Vetted, Next, Selected, Machine.Recorded, Loadable;
    var v := m.Saved(m.disk.state).Vouched();
    if v.on {
      RecordedCases(v, v.Arm());
      var armed := v.Recorded(v.Arm()).0;
      if armed.on { RecordedCases(armed, armed.Settle(m.running)); }
    }
  }

  /** On a safe disk: what the active slot runs is what was last vouched for; and a slot on trial is vetted as it is. */
  predicate Backed(d: Disk, checks: Checks) {
    && Selected(d.Copies()).Some?
    && var c := Selected(d.Copies()).value;
       && d.vouched.At(c.active) == Some(Payload(d.esp.At(c.active).kernel, d.system.At(c.active)))
       && d.esp.At(c.active).primary.Some? && d.esp.At(c.active).kernel.Some?
       && (c.phase != Stable ==>
             && c.pending == (if c.active == A then "b" else "a")
             && Vetted(checks, d.esp.At(c.active.Other()), d.system.At(c.active.Other()), d.state)
             && d.state.active == Some(c.active) && d.state.target == Some(c.active.Other()))
  }

  lemma SafeIsBacked(d: Disk, checks: Checks)
    requires d.Safe(checks)
    ensures Backed(d, checks)
  {
    var c := Selected(d.Copies()).value;
    VettedExactly(checks, d.esp.At(c.active.Other()), d.system.At(c.active.Other()), d.state);
    hide Vetted, Checks.Pass, Selected;
  }

  // ---------------------------------------------------------------- reconcile, commit

  /** A started trial is noted, or the running slot settles after one that did not commit; otherwise nothing changes. */
  lemma ReconciledSound(m: Machine)
    requires Sound(m) && m.on
    ensures var (n, ok) := m.Reconciled();
            var s, d := m.disk.state, n.disk.state;
            && Sound(n) && Within(m, n) && n.disk == m.disk.WithCopies(n.Copies()).(state := d)
            && Selected(n.Copies()).value.active == Selected(m.Copies()).value.active
            && (!ok && n.on ==> n == m)
            && (ok && (s.name == Ready || s.name == Booting) && s.target == Some(m.Target()) ==>
                  d == s.(name := RolledBack) && Selected(n.Copies()).value.phase == Stable && Selected(n.Copies()).value.active == m.running)
            && (ok && (s.name == Ready || s.name == Booting) && s.target == Some(m.running) && m.trial ==>
                  d == s.(name := Booting) && n.Copies() == m.Copies())
  {
    hide Next, Machine.Recorded, Selected, Disk.Safe, Disk.Intact;
    var s := m.disk.state;
    RunningIntact(m);
    if (s.name == Ready || s.name == Booting) && s.target.Some? {
      if s.target == Some(m.running) {
        NameKeepsSafe(m.disk, Booting, m.env.checks);
      } else {
        ReconciledHome(m);
        SettledSafe(m, m.running);
        NameKeepsSafe(m.Recorded(m.Settle(m.running)).0.disk, RolledBack, m.env.checks);
      }
    }
  }

  /** A running slot that state.json does not expect is the active one. */
  lemma ReconciledHome(m: Machine)
    requires Sound(m) && m.on && m.disk.state.target != Some(m.running)
    ensures Selected(m.Copies()).value.active == m.running
  {
    hide Selected, Disk.Intact, Checks.Pass;
  }

  /** A stable record for either slot can be stored, or for neither. */
  lemma SettlingFailsAlike(m: Machine, s: Slot, t: Slot)
    ensures Next(m.Copies(), m.Settle(s)).Err? <==> Next(m.Copies(), m.Settle(t)).Err?
  {
    var p := if Selected(m.Copies()) == None then Blank(A) else Selected(m.Copies()).value;
    var c := p.(generation := p.generation + 1, pending := "", phase := Stable,
                edlRequest := false, normalRequest := false, rootA := m.env.rootA, rootB := m.env.rootB);
    SettlesWith(m, s, c);
    SettlesWith(m, t, c);
    hide Next, Encodable, Selected;
    EncodableAlike(c, s, t);
  }

  lemma SettlesWith(m: Machine, s: Slot, c: Control)
    requires var p := if Selected(m.Copies()) == None then Blank(A) else Selected(m.Copies()).value;
             c == p.(generation := p.generation + 1, pending := "", phase := Stable,
                     edlRequest := false, normalRequest := false, rootA := m.env.rootA, rootB := m.env.rootB)
    ensures Next(m.Copies(), m.Settle(s)) == Storable(c.(active := s))
  {
    hide Selected, Encodable;
  }

  lemma EncodableAlike(c: Control, s: Slot, t: Slot)
    requires c.phase == Stable
    ensures Encodable(c.(active := s)) <==> Encodable(c.(active := t))
  {
    hide Decimal, RootOk, Inline;
    SameLengths(c, s, t);
    hide Text, Fields;
  }

  lemma SameLengths(c: Control, s: Slot, t: Slot)
    ensures |Text(Fields(c.(active := s)))| == |Text(Fields(c.(active := t)))|
  {
    var x, y := Fields(c.(active := s)), Fields(c.(active := t));
    hide Decimal, Text;
    forall i | 0 <= i < |x|
      ensures |Line(x[i])| == |Line(y[i])|
    {
      assert x[i].0 == y[i].0 == KEYS[i] && |Values(c.(active := s))[i]| == |Values(c.(active := t))[i]|;
    }
    LengthsAgree(x, y);
  }

  lemma {:induction false} LengthsAgree(x: seq<(string, string)>, y: seq<(string, string)>)
    requires |x| == |y| && forall i :: 0 <= i < |x| ==> |Line(x[i])| == |Line(y[i])|
    ensures |Text(x)| == |Text(y)|
  {
    if x != [] {
      hide Line;
      assert forall i :: 0 <= i < |x[1..]| ==> x[1..][i] == x[i + 1] && y[1..][i] == y[i + 1];
      LengthsAgree(x[1..], y[1..]);
    }
  }

  /**
   * The last step of a commit. When the stable record for the running slot cannot be stored, neither can the
   * rollback: nothing is written and no reboot follows, so the machine stays up on the uncommitted trial.
   */
  lemma ConfirmedSound(m: Machine)
    requires Sound(m) && m.on && m.OnTrial()
    ensures var (n, ok) := m.Confirmed();
            && Sound(n) && n == m.(disk := n.disk, power := n.power, on := n.on, marker := n.marker)
            && n.disk == m.disk.WithCopies(n.Copies()).(state := n.disk.state)
            && (Next(m.Copies(), m.Settle(m.running)).Err? ==> n == m && !ok)
            && (!ok ==> n.disk.state == m.disk.state && n.marker == m.marker)
            && (Selected(n.Copies()) == Selected(m.Copies())
                || (Selected(n.Copies()).value.active == m.running && Selected(n.Copies()).value.phase == Stable))
            && (ok ==>
                  && n.on && !n.marker && n.disk.state == m.disk.state.(name := Committed, active := Some(m.running))
                  && Selected(n.Copies()).value.active == m.running && Selected(n.Copies()).value.phase == Stable)
  {
    hide Next, Machine.Recorded, Selected, Disk.Safe, Disk.Intact;
    RunningIntact(m);
    SettledSafe(m, m.running);
    RecordedCases(m, m.Settle(m.running));
    var (m1, committed) := m.Recorded(m.Settle(m.running));
    if m1.on && committed.Ok? {
      StateKeepsSafe(m1.disk, m1.disk.state.(name := Committed, active := Some(m.running)), m.env.checks);
    } else if m1.on {
      SettlingFailsAlike(m, m.running, m.disk.state.active.value);
      RecordedCases(m, m.Settle(m.disk.state.active.value));
    }
  }

  /** The active slot changes only for a trial that passed its checks and saw the watchdog disarmed. */
  lemma CommittedSound(m: Machine, h: Health)
    requires Sound(m) && m.on
    ensures var (n, ok) := m.Committed(h);
            && Sound(n) && n == m.(disk := n.disk, power := n.power, on := n.on, marker := n.marker)
            && n.disk == m.disk.WithCopies(n.Copies()).(state := n.disk.state)
            && (Selected(n.Copies()).value.active != Selected(m.Copies()).value.active ==>
                  && m.marker && h.ready && h.disarmed && m.OnTrial()
                  && Selected(n.Copies()).value.active == m.running && Selected(n.Copies()).value.phase == Stable)
            && (m.marker && ok ==>
                  && h.ready && h.disarmed && m.OnTrial() && n.on && !n.marker
                  && n.disk.state == m.disk.state.(name := Committed, active := Some(m.running))
                  && Selected(n.Copies()).value.active == m.running && Selected(n.Copies()).value.phase == Stable)
            && (!m.marker || !h.ready || !h.disarmed || !ok ==> n.disk.state == m.disk.state && n.marker == m.marker)
  {
    hide Next, Machine.Recorded, Machine.Confirmed, Selected, Sound;
    if (m.marker || h.supervised) && h.ready && (m.marker ==> m.OnTrial()) {
      if h.count.Some? { RequestedSound(m, RecordStage(Healthy, h.count.value, m.running)); }
      var n := if h.count.Some? then m.Recorded(RecordStage(Healthy, h.count.value, m.running)).0 else m;
      if n.on && n.marker { ConfirmedSound(n); }
    }
  }

  // ---------------------------------------------------------------- power-on and EDL

  /** A record ahead of the selected one, stored on some of the copies, is selected as soon as there is one. */
  lemma StoredSelects(cs: Copies, slots: set<Slot>, c: Control)
    requires Selected(cs).Some? && Ahead(c, Selected(cs).value)
    ensures var after := Copies(if A in slots then Some(c) else cs.a, if B in slots then Some(c) else cs.b);
            && Selected(after) == (if slots == {} then Selected(cs) else Some(c))
            && (cs.a.Some? ==> after.a.Some?) && (cs.b.Some? ==> after.b.Some?)
  {
    if slots != {} {
      var s :| s in slots;
      assert s == A || s == B;
    }
  }

  lemma ConsumedSafe(m: Machine, t: Tweak)
    requires m.disk.Safe(m.env.checks)
    ensures var n := m.Consumed(t);
            && n == m.(disk := m.disk.WithCopies(n.Copies())) && n.disk.Safe(m.env.checks) && Selected(m.Copies()).Some?
            && var c, d := Selected(m.Copies()).value, Selected(n.Copies()).value;
               d.active == c.active && d.phase == c.phase && d.pending == c.pending
  {
    hide Selected, Disk.Intact, Checks.Pass;
    SafeActive(m.disk, m.env.checks);
    var c := Selected(m.Copies()).value;
    var d := c.(generation := c.generation + 1, edlRequest := t.edlRequest, normalRequest := t.normalRequest, boot := t.boot, prev := t.prev);
    StoredSelects(m.Copies(), t.slots, d);
    RecordKeepsSafe(m.disk, m.Consumed(t).disk.esp, m.env.checks);
  }

  lemma MarkedSafe(m: Machine, mark: set<Slot>, bump: bool)
    requires m.disk.Safe(m.env.checks) && m.Tries(mark)
    ensures var n := m.Marked(mark, bump);
            && n == m.(disk := m.disk.WithCopies(n.Copies()).(trials := m.disk.trials + 1)) && n.disk.Safe(m.env.checks)
            && var c, d := Selected(m.Copies()).value, Selected(n.Copies()).value;
               d.active == c.active && d.phase == Attempted && d.pending == c.pending
  {
    hide Selected, Disk.Intact, Checks.Pass;
    var c := Selected(m.Copies()).value;
    var d := c.(phase := Attempted, generation := if bump then c.generation + 1 else c.generation);
    StoredSelects(m.Copies(), mark, d);
    var stored := m.Stored(mark, d);
    RecordKeepsSafe(m.disk, stored.disk.esp, m.env.checks);
    TrialCounted(m.disk, stored.disk, m.env.checks);
  }

  /** An armed record that is marked pays for one trial. */
  lemma TrialCounted(d: Disk, marked: Disk, checks: Checks)
    requires d.Safe(checks) && Selected(d.Copies()).value.phase == Armed && marked == d.WithCopies(marked.Copies())
    requires marked.Safe(checks) && Selected(marked.Copies()).value.phase != Armed
    ensures marked.(trials := d.trials + 1).Safe(checks)
  {
    hide Selected, Checks.Pass;
  }

  /**
   * Power-on: the slot that starts is intact; a trial starts exactly when the record is armed and a copy took
   * the mark, and is counted; otherwise the active slot starts.
   */
  lemma PoweredOnSound(m: Machine, before: Tweak, mark: set<Slot>, bump: bool, after: Tweak, budget: nat, takes: nat -> bool)
    requires m.disk.Safe(m.env.checks)
    ensures var n := m.PoweredOn(before, mark, bump, after, budget, takes);
            && Sound(n) && n.on && n.power == budget && n.marker == n.trial && n.env == m.env
            && n.disk == m.disk.WithCopies(n.Copies()).(trials := n.disk.trials)
            && n.disk.Intact(n.running) && Selected(n.Copies()).value.active == Selected(m.Copies()).value.active
            && n.disk.trials == m.disk.trials + (if n.trial then 1 else 0)
            && (n.trial <==> Selected(m.Copies()).value.phase == Armed && mark != {})
            && n.running == (if n.trial then Selected(m.Copies()).value.active.Other() else Selected(m.Copies()).value.active)
            && (n.trial ==> Selected(n.Copies()).value.phase == Attempted)
  {
    hide Selected, Disk.Safe, Disk.Intact, Machine.Consumed, Machine.Marked;
    ConsumedSafe(m, before);
    var m1 := m.Consumed(before);
    SafeActive(m1.disk, m.env.checks);
    if m1.Tries(mark) { MarkedSafe(m1, mark, bump); }
    ConsumedSafe(if m1.Tries(mark) then m1.Marked(mark, bump) else m1, after);
    RunningIntact(m.PoweredOn(before, mark, bump, after, budget, takes));
  }

  lemma EdlRequestedSound(m: Machine, done: nat)
    requires Sound(m) && !m.on
    ensures var n := m.EdlRequested(done);
            && Sound(n) && n == m.(disk := m.disk.WithCopies(n.Copies()))
            && var c, d := Selected(m.Copies()).value, Selected(n.Copies()).value;
               d.active == c.active && d.phase == c.phase && d.pending == c.pending
  {
    hide Encodable, Selected, Disk.Intact, Checks.Pass;
    SafeActive(m.disk, m.env.checks);
    var next := Next(m.Copies(), RequestNormal);
    NormalFields(m.Copies());
    if next.Ok? && next.value.Some? {
      CrashAtomic(m.Copies(), RequestNormal, {A, B}, done);
      RecordKeepsSafe(m.disk, m.EdlRequested(done).disk.esp, m.env.checks);
    }
  }

  lemma NormalFields(cs: Copies)
    ensures Next(cs, RequestNormal).Ok? && Selected(cs).Some? ==>
      && Next(cs, RequestNormal).value.Some? && cs.a.Some? && cs.b.Some?
      && var c, d := Selected(cs).value, Next(cs, RequestNormal).value.value;
         d.active == c.active && d.phase == c.phase && d.pending == c.pending
  {
    hide Encodable, Selected;
  }

  // ---------------------------------------------------------------- whole runs

  /** What the code does not check itself: installs start from the active slot, with images of older records. */
  predicate Assumed(m: Machine, e: UpdaterSteps.Event) {
    e.Install? && m.on ==>
      Selected(m.Copies()).Some? && m.running == Selected(m.Copies()).value.active && Older(e.sources.espPieces, m.Generation())
  }

  /** The active slot keeps what it runs; it stays active, unless a commit moves on to the slot under trial. */
  predicate Kept(m: Machine, e: UpdaterSteps.Event, n: Machine) {
    && Selected(m.Copies()).Some? && Selected(n.Copies()).Some?
    && var active := Selected(m.Copies()).value.active;
       && n.disk.Runs(active) == m.disk.Runs(active)
       && (Selected(n.Copies()).value.active != active ==>
             e.Commit? && m.on && m.marker && e.health.ready && e.health.disarmed && m.OnTrial() && m.running == active.Other())
  }

  /** Every event keeps the machine sound, and the active slot. */
  lemma StepSound(m: Machine, e: UpdaterSteps.Event)
    requires Sound(m) && Assumed(m, e)
    ensures Sound(Step(m, e)) && Kept(m, e, Step(m, e)) && Step(m, e).env == m.env
    ensures e.PowerOn? ==> Step(m, e).disk.Intact(Step(m, e).running)
  {
    hide Next, Selected, Machine.Recorded, Machine.Installed, Machine.Activated, Machine.Reconciled, Machine.Committed,
         Machine.PoweredOn, Machine.EdlRequested, Disk.Safe, Disk.Intact, Holds;
    SafeActive(m.disk, m.env.checks);
    match e {
      case PowerOn(before, mark, bump, after, budget, takes) => PoweredOnSound(m, before, mark, bump, after, budget, takes);
      case PowerOff =>
      case NormalRequest(done) => if !m.on { EdlRequestedSound(m, done); }
      case Install(man, src, activate) => if m.on { InstalledSound(m, man, src, activate); }
      case Activate => if m.on { ActivatedSound(m); }
      case EdlRequest => if m.on { RequestedSound(m, RequestEdl); }
      case UsbMode(mode) => if m.on { RequestedSound(m, SetUsb(mode)); }
      case Report(stage, count) => if m.on { RequestedSound(m, RecordStage(stage, count, m.running)); }
      case Reconcile => if m.on { ReconciledSound(m); }
      case Commit(health) => if m.on { CommittedSound(m, health); }
    }
    SafeActive(Step(m, e).disk, m.env.checks);
  }

  /** The assumption holds at every event of a run. */
  predicate Allowed(m: Machine, events: seq<UpdaterSteps.Event>) {
    forall i :: 0 <= i < |events| ==> Assumed(Steps(m, events[..i]), events[i])
  }

  lemma StepsNext(m: Machine, events: seq<UpdaterSteps.Event>, i: nat)
    requires i < |events|
    ensures Steps(m, events[..i + 1]) == Step(Steps(m, events[..i]), events[i])
  {
    hide Step;
    assert events[..i + 1][..i] == events[..i];
  }

  lemma {:induction false} RunSound(m: Machine, events: seq<UpdaterSteps.Event>, i: nat)
    requires Sound(m) && Allowed(m, events) && i <= |events|
    ensures Sound(Steps(m, events[..i])) && Steps(m, events[..i]).env == m.env
  {
    hide Step, Kept, Assumed, Sound, Selected;
    if i > 0 {
      RunSound(m, events, i - 1);
      StepsNext(m, events, i - 1);
      hide Steps;
      StepSound(Steps(m, events[..i - 1]), events[i - 1]);
    }
  }

  /**
   * Whole-run A/B safety. In every run of installs, activations, trial boots, reconciliations, commits and
   * requests, with the power failing before any durable write (each power-on brings its own budget): the disk
   * is safe, every slot that is started is intact, trial boots never outnumber armings, no event touches the
   * kernel or root file system of the active slot, and only a commit that passed its checks and saw the
   * watchdog disarmed moves to another slot.
   */
  lemma EveryRun(m: Machine, events: seq<UpdaterSteps.Event>, i: nat)
    requires Sound(m) && Allowed(m, events) && i < |events|
    ensures var before, after := Steps(m, events[..i]), Steps(m, events[..i + 1]);
            && Backed(before.disk, m.env.checks) && Backed(after.disk, m.env.checks)
            && after.disk.trials <= after.disk.armings
            && Kept(before, events[i], after)
            && (events[i].PowerOn? ==> after.disk.Intact(after.running))
  {
    RunSound(m, events, i);
    RunSound(m, events, i + 1);
    StepsNext(m, events, i);
    SafeIsBacked(Steps(m, events[..i]).disk, m.env.checks);
    SafeIsBacked(Steps(m, events[..i + 1]).disk, m.env.checks);
    hide Steps, Step, Kept, Assumed, Disk.Intact, Selected, Checks.Pass, Backed;
    StepSound(Steps(m, events[..i]), events[i]);
  }
}
