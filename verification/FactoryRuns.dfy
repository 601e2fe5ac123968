/** What flashing guarantees: the contents of a finished flash, and the identity over any run of attempts. */
module FactoryRuns {
  import opened Common
  import opened Bytes
  import opened FactoryManifest
  import opened FactoryChunks
  import opened FactoryFlash

  /** The steps whose chunk has the size of its operation: what pairing provides. */
  predicate Sized(steps: seq<Step>) {
    forall i :: 0 <= i < |steps| ==> StepSized(steps[i])
  }

  predicate StepSized(s: Step) {
    !s.op.Unknown? && (s.chunk.Some? ==> |s.chunk.value| == s.op.size)
  }

  predicate Covers(s: Step, p: int) {
    !s.op.Unknown? && s.op.offset <= p < s.op.offset + s.op.size
  }

  /** What the last step that covers a byte stores there. */
  function Last(steps: seq<Step>, p: int, erased: byte): Option<byte> {
    if steps == [] then None
    else
      var later := Last(steps[1..], p, erased);
      if later.Some? then later
      else if Covers(steps[0], p) && StepSized(steps[0]) && p - steps[0].op.offset < |Stored(steps[0], erased)| then
        Some(Stored(steps[0], erased)[p - steps[0].op.offset])
      else None
  }

  lemma LastSplit(steps: seq<Step>, p: int, erased: byte)
    requires steps != [] && StepSized(steps[0])
    ensures Last(steps, p, erased)
         == if Last(steps[1..], p, erased).Some? then Last(steps[1..], p, erased)
            else if Covers(steps[0], p) then Some(Stored(steps[0], erased)[p - steps[0].op.offset]) else None
  {
  }

  // ---------------------------------------------------------------- a finished flash

  /** A byte after one step, finished or cut. */
  lemma StepByte(data: seq<byte>, s: Step, erased: byte, sector: nat, junk: seq<byte>, p: nat)
    requires StepSized(s) && Doable(s, erased, sector, |data|) && p < |data|
    ensures |Stored(s, erased)| == s.op.size
    ensures Apply(data, s, erased, sector)[p] == if Covers(s, p) then Stored(s, erased)[p - s.op.offset] else data[p]
    ensures !Covers(s, p) ==> Torn(data, s.op.offset, |Stored(s, erased)|, junk)[p] == data[p]
  {
    hide Multiple;
  }

  /** Steps that all fit, over a session that lasts, leave at each byte what the last one over it stores. */
  lemma {:induction false} PerformContent(data: seq<byte>, steps: seq<Step>, erased: byte, sector: nat, link: nat, junk: seq<byte>, p: nat)
    requires Sized(steps) && p < |data| && |steps| <= link
    requires forall i :: 0 <= i < |steps| ==> Doable(steps[i], erased, sector, |data|)
    ensures var (ok, after) := Perform(data, steps, erased, sector, link, junk);
            ok && after[p] == if Last(steps, p, erased).Some? then Last(steps, p, erased).value else data[p]
    decreases |steps|
  {
    hide Doable, Apply, Torn, Stored, StepSized, Covers;
    if steps != [] {
      var next := Apply(data, steps[0], erased, sector);
      StepByte(data, steps[0], erased, sector, junk, p);
      LastSplit(steps, p, erased);
      PerformContent(next, steps[1..], erased, sector, link - 1, junk, p);
    }
  }

  /** However a run of steps ends, a byte that none of them covers keeps its value. */
  lemma {:induction false} PerformKeeps(data: seq<byte>, steps: seq<Step>, erased: byte, sector: nat, link: nat, junk: seq<byte>, p: nat)
    requires Sized(steps) && p < |data| && forall i :: 0 <= i < |steps| ==> !Covers(steps[i], p)
    ensures Perform(data, steps, erased, sector, link, junk).1[p] == data[p]
    decreases |steps|
  {
    hide Doable, Apply, Torn, Stored, StepSized, Covers;
    if steps != [] && Doable(steps[0], erased, sector, |data|) {
      StepByte(data, steps[0], erased, sector, junk, p);
      if link > 0 {
        PerformKeeps(Apply(data, steps[0], erased, sector), steps[1..], erased, sector, link - 1, junk, p);
      }
    }
  }

  predicate InPersist(m: Manifest, p: int) {
    m.persistOffset <= p < m.persistOffset + m.persistSize
  }

  lemma AcceptedOps(w: World, m: Manifest, openpilot: bool)
    requires FactoryOk(w, m, openpilot)
    ensures openpilot ==> m.openpilot.Some?
    ensures var ops := AllOps(m, openpilot);
            forall i :: 0 <= i < |ops| ==> OpOk(m, ops[i]) && OpFits(ops[i], m.imageSize)
  {
    hide OpOk, OpFits, ObjectsOk, ErasesComplement;
  }

  lemma PairedSized(w: World, steps: seq<Step>, ops: seq<Op>, m: Manifest)
    requires Paired(w, steps, ops) && forall i :: 0 <= i < |ops| ==> OpOk(m, ops[i]) && OpFits(ops[i], m.imageSize)
    ensures Sized(steps)
    ensures forall i :: 0 <= i < |steps| ==> steps[i].op == ops[i]
  {
    hide Hash;
    forall i | 0 <= i < |steps|
      ensures StepSized(steps[i]) && steps[i].op == ops[i]
    {
      assert StepOk(w, steps[i], ops[i]) && OpOk(m, ops[i]);
    }
  }

  /** Every accepted operation can be carried out on a disk that holds the image. */
  lemma AcceptedDoable(m: Manifest, s: Step, erased: byte, capacity: nat)
    requires OpOk(m, s.op) && OpFits(s.op, m.imageSize) && StepSized(s) && m.imageSize <= capacity
    ensures Doable(s, erased, SECTOR_SIZE, capacity)
    ensures Aside(s.op, m.persistOffset, m.persistSize) && s.op.offset + s.op.size <= capacity
    ensures forall p :: InPersist(m, p) || p >= m.imageSize ==> !Covers(s, p)
  {
    hide Hash;
    assert |Stored(s, erased)| == s.op.size;
  }

  /** The two opening erases reach every byte of the image outside the identity region. */
  lemma Reached(w: World, m: Manifest, openpilot: bool, steps: seq<Step>, erased: byte, p: nat)
    requires FactoryOk(w, m, openpilot) && Sized(steps) && |steps| >= 2
    requires steps[0].op == m.base[0] && steps[1].op == m.base[1]
    requires p < m.imageSize && !InPersist(m, p)
    ensures Last(steps, p, erased).Some?
  {
    hide Stored, PayloadFits, ObjectsOk;
    assert StepSized(steps[0]) && StepSized(steps[1]);
    LastSplit(steps, p, erased);
    LastSplit(steps[1..], p, erased);
    assert steps[1..][0] == steps[1];
  }

  /** All steps of an accepted factory flash pass the checks and stay clear of what they must keep. */
  lemma FactoryFits(w: World, m: Manifest, openpilot: bool, steps: seq<Step>, erased: byte, capacity: nat)
    requires FactoryOk(w, m, openpilot) && m.imageSize <= capacity
    requires (openpilot ==> m.openpilot.Some?) && Paired(w, steps, AllOps(m, openpilot))
    ensures 0 < m.imageSize && Sized(steps) && |steps| >= 2 && |m.base| >= 2 && steps[0].op == m.base[0] && steps[1].op == m.base[1]
    ensures Allowed(steps, m.persistOffset, m.persistSize, capacity)
    ensures forall i :: 0 <= i < |steps| ==> Doable(steps[i], erased, SECTOR_SIZE, capacity)
    ensures forall i, p :: 0 <= i < |steps| && (InPersist(m, p) || p >= m.imageSize) ==> !Covers(steps[i], p)
  {
    var ops := AllOps(m, openpilot);
    AcceptedOps(w, m, openpilot);
    PairedSized(w, steps, ops, m);
    hide OpOk, OpFits, Doable, Aside, Covers, StepSized;
    forall i | 0 <= i < |steps|
      ensures Doable(steps[i], erased, SECTOR_SIZE, capacity)
      ensures Aside(steps[i].op, m.persistOffset, m.persistSize) && steps[i].op.offset + steps[i].op.size <= capacity
      ensures forall p :: InPersist(m, p) || p >= m.imageSize ==> !Covers(steps[i], p)
    {
      AcceptedDoable(m, steps[i], erased, capacity);
    }
  }

  /** The operations of an accepted flash, on a disk that holds anything. */
  lemma StepsContent(w: World, m: Manifest, openpilot: bool, steps: seq<Step>, data: seq<byte>, erased: byte, link: nat, junk: seq<byte>)
    requires FactoryOk(w, m, openpilot) && m.imageSize <= |data| && |steps| <= link
    requires (openpilot ==> m.openpilot.Some?) && Paired(w, steps, AllOps(m, openpilot))
    ensures var (ok, after) := Perform(data, steps, erased, SECTOR_SIZE, link, junk);
            && ok
            && (forall p :: 0 <= p < m.imageSize && !InPersist(m, p) ==> Some(after[p]) == Last(steps, p, erased))
            && (forall p :: 0 <= p < |data| && (InPersist(m, p) || p >= m.imageSize) ==> after[p] == data[p])
  {
    hide FactoryOk, Paired, Doable, Allowed, Covers, Perform, Sized, Last;
    FactoryFits(w, m, openpilot, steps, erased, |data|);
    var (ok, after) := Perform(data, steps, erased, SECTOR_SIZE, link, junk);
    PerformContent(data, steps, erased, SECTOR_SIZE, link, junk, 0);
    forall p | 0 <= p < m.imageSize && !InPersist(m, p)
      ensures Some(after[p]) == Last(steps, p, erased)
    {
      Reached(w, m, openpilot, steps, erased, p);
      PerformContent(data, steps, erased, SECTOR_SIZE, link, junk, p);
    }
    forall p | 0 <= p < |data| && (InPersist(m, p) || p >= m.imageSize)
      ensures after[p] == data[p]
    {
      PerformKeeps(data, steps, erased, SECTOR_SIZE, link, junk, p);
    }
  }

  /**
   * A factory flash that is not cut: every byte of the image outside the identity region is what the last
   * operation over it stores, whatever the disk held; the identity region is erased when the decision says so
   * and otherwise kept; and everything behind the image keeps its bytes.
   */
  lemma FactoryContent(g: Gpt, w: World, m: Manifest, openpilot: bool, steps: seq<Step>, data: seq<byte>,
                       erased: byte, link: nat, junk: seq<byte>)
    requires FactoryOk(w, m, openpilot) && m.imageSize <= |data|
    requires (openpilot ==> m.openpilot.Some?) && Paired(w, steps, AllOps(m, openpilot))
    requires var init := Initialize(g, data, SECTOR_SIZE, m.persistOffset, m.persistSize);
             init.Ok? && |steps| + (if init.value then 1 else 0) <= link
    ensures var (ok, after) := Flashed(g, data, steps, m.persistOffset, m.persistSize, erased, SECTOR_SIZE, link, junk);
            && ok
            && (forall p :: 0 <= p < m.imageSize && !InPersist(m, p) ==> Some(after[p]) == Last(steps, p, erased))
            && (forall p :: 0 <= p < |data| && InPersist(m, p) ==>
                  after[p] == if Initialize(g, data, SECTOR_SIZE, m.persistOffset, m.persistSize).value then erased else data[p])
            && (forall p :: 0 <= p < |data| && p >= m.imageSize ==> after[p] == data[p])
  {
    hide FactoryOk, Paired, Doable, Allowed, Covers, Initialize, Perform, Sized, Last, AllOps;
    FactoryFits(w, m, openpilot, steps, erased, |data|);
    RegionAligned(w, m, openpilot);
    StepsContent(w, m, openpilot, steps, data, erased, link, junk);
    if |steps| < link { StepsContent(w, m, openpilot, steps, Splice(data, m.persistOffset, Blank(m.persistSize, erased)), erased, link - 1, junk); }
    hide Multiple;
  }

  lemma RegionAligned(w: World, m: Manifest, openpilot: bool)
    requires FactoryOk(w, m, openpilot)
    ensures 0 < m.persistOffset && 0 < m.persistSize && m.persistOffset + m.persistSize < m.imageSize
    ensures Multiple(m.persistOffset, SECTOR_SIZE) && Multiple(m.persistSize, SECTOR_SIZE)
  {
    hide OpsOk, OpsFit, ObjectsOk;
  }

  // ---------------------------------------------------------------- the identity over any run

  /** A flash attempt, cut after `link` operations, or anything else that happens outside the region. */
  datatype Attempt =
    | Flashing(steps: seq<Step>, erased: byte, sector: nat, link: nat, junk: seq<byte>)
    | Elsewhere(other: seq<byte>)

  predicate AttemptOk(a: Attempt) {
    a.Flashing? ==> a.sector >= 512 && Sized(a.steps)
  }

  function After(g: Gpt, data: seq<byte>, a: Attempt, begin: int, length: int): (r: seq<byte>)
    requires AttemptOk(a)
    ensures |r| == |data|
  {
    match a
    case Flashing(steps, erased, sector, link, junk) => Flashed(g, data, steps, begin, length, erased, sector, link, junk).1
    case Elsewhere(other) =>
      seq(|data|, i requires 0 <= i < |data| => if i < |other| && !(begin <= i < begin + length) then other[i] else data[i])
  }

  function AfterAll(g: Gpt, data: seq<byte>, attempts: seq<Attempt>, begin: int, length: int): (r: seq<byte>)
    requires forall i :: 0 <= i < |attempts| ==> AttemptOk(attempts[i])
    ensures |r| == |data|
  {
    if attempts == [] then data
    else
      var n := |attempts| - 1;
      After(g, AfterAll(g, data, attempts[..n], begin, length), attempts[n], begin, length)
  }

  lemma AttemptKeepsRegion(g: Gpt, data: seq<byte>, a: Attempt, begin: int, length: int)
    requires AttemptOk(a) && Identity(data, begin, length)
    ensures After(g, data, a, begin, length)[begin..begin + length] == data[begin..begin + length]
  {
    var after := After(g, data, a, begin, length);
    IdentityKept(g, data, if a.Flashing? then a.sector else 512, begin, length);
    hide Initialize, Perform;
    forall p | begin <= p < begin + length
      ensures after[p] == data[p]
    {
      if a.Flashing? && Allowed(a.steps, begin, length, |data|) {
        forall i | 0 <= i < |a.steps|
          ensures !Covers(a.steps[i], p)
        {
          assert Aside(a.steps[i].op, begin, length);
        }
        PerformKeeps(data, a.steps, a.erased, a.sector, a.link, a.junk, p);
      }
    }
  }

  /**
   * Once the region carries the identity label, no sequence of flash attempts, each with any image, cut at any
   * point and inside any operation, and of any other change to the rest of the disk (the GPT above all),
   * changes a byte of it.
   */
  lemma {:induction false} IdentitySurvives(g: Gpt, data: seq<byte>, attempts: seq<Attempt>, begin: int, length: int)
    requires forall i :: 0 <= i < |attempts| ==> AttemptOk(attempts[i])
    requires Identity(data, begin, length)
    ensures AfterAll(g, data, attempts, begin, length)[begin..begin + length] == data[begin..begin + length]
    ensures Identity(AfterAll(g, data, attempts, begin, length), begin, length)
  {
    if attempts != [] {
      var n := |attempts| - 1;
      var before := AfterAll(g, data, attempts[..n], begin, length);
      IdentitySurvives(g, data, attempts[..n], begin, length);
      AttemptKeepsRegion(g, before, attempts[n], begin, length);
      hide Identity, After;
    }
    SameRegion(data, AfterAll(g, data, attempts, begin, length), begin, length);
  }

  lemma SameRegion(data: seq<byte>, after: seq<byte>, begin: int, length: int)
    requires Identity(data, begin, length) && |after| == |data|
    requires after[begin..begin + length] == data[begin..begin + length]
    ensures Identity(after, begin, length)
  {
    SubSlice(after, begin, begin + length, 1144, 1160);
    SubSlice(data, begin, begin + length, 1144, 1160);
    assert after[begin..begin + length][1080] == after[begin + 1080] && data[begin..begin + length][1080] == data[begin + 1080];
    assert after[begin..begin + length][1081] == after[begin + 1081] && data[begin..begin + length][1081] == data[begin + 1081];
  }
}
