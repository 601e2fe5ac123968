/** Two copies of the boot-control record, one per ESP: selection, the six writers, crash atomicity. */
module RedundantStore {
  import opened Common
  import opened BootControl
  import opened BootControlCodec

  /** The records that the two ESPs decode to; `None` is a copy that cannot be read. */
  datatype Copies = Copies(a: Option<Control>, b: Option<Control>) {
    function At(slot: Slot): Option<Control> {
      if slot == A then a else b
    }

    function Put(slot: Slot, c: Option<Control>): Copies {
      if slot == A then this.(a := c) else this.(b := c)
    }
  }

  /** Strictly larger (generation, phase rank). */
  predicate Ahead(x: Control, y: Control) {
    x.generation > y.generation || (x.generation == y.generation && Rank(x.phase) > Rank(y.phase))
  }

  function Selected(cs: Copies): Option<Control> {
    if cs.a == None then cs.b
    else if cs.b == None then cs.a
    else if Ahead(cs.b.value, cs.a.value) then cs.b else cs.a
  }

  // ---------------------------------------------------------------- blocks

  function Read(block: Option<string>): Option<Control> {
    if block.Some? && Decode(block.value).Ok? then Some(Decode(block.value).value) else None
  }

  /** Writing an encoded block is writing the record. */
  lemma BlockHoldsRecord(c: Control)
    requires Encodable(c)
    ensures Encode(c).Ok? && Read(Some(Encode(c).value)) == Some(c)
  {
    hide Valid;
    RoundTrip(c);
  }

  // ---------------------------------------------------------------- the six writers

  datatype Writer =
    | SetControl(active: Slot, pending: string, phase: Phase, rootA: string, rootB: string)
    | PrepareSelector(active: Slot, rootA: string, rootB: string)
    | RequestEdl
    | SetUsb(mode: UsbMode)
    | RecordStage(stage: Stage, count: nat, slot: Slot)
    | RequestNormal

  /** The fields a fresh record takes when no copy can be read. */
  function Blank(active: Slot): Control {
    var none := Boot(0, Unknown, None);
    Control(0, active, "", Stable, "", "", false, false, Ncm, none, none)
  }

  /** The record a writer stores over the selected one; `Ok(None)` when nothing has to be written. */
  function Next(cs: Copies, w: Writer): Result<Option<Control>> {
    var selected := Selected(cs);
    match w
    case SetControl(active, pending, phase, rootA, rootB) =>
      var _ :- Need(TrialOk(active, pending, phase));
      var p := if selected == None then Blank(active) else selected.value;
      Storable(p.(generation := p.generation + 1, active := active, pending := pending, phase := phase,
                  edlRequest := false, normalRequest := false, rootA := rootA, rootB := rootB))
    case PrepareSelector(active, rootA, rootB) =>
      var p := if selected == None then Blank(active) else selected.value;
      Storable(p.(generation := p.generation + 1, active := active, pending := "", phase := Stable,
                  rootA := rootA, rootB := rootB))
    case RequestEdl =>
      var _ :- Need(selected.Some?);
      var p := selected.value;
      Storable(p.(generation := p.generation + 1, edlRequest := true, normalRequest := false))
    case SetUsb(mode) =>
      var _ :- Need(selected.Some?);
      var p := selected.value;
      Storable(p.(generation := p.generation + 1, usb := mode))
    case RecordStage(stage, count, slot) =>
      var _ :- Need(selected.Some? && (stage == Userspace || stage == Healthy));
      var p := selected.value;
      var _ :- Need(p.boot.count == count && p.boot.slot == Some(slot));
      if p.boot.stage == stage then Ok(None)
      else Storable(p.(generation := p.generation + 1, boot := p.boot.(stage := stage)))
    case RequestNormal =>
      var _ :- Need(cs.a.Some? && cs.b.Some?);
      var p := selected.value;
      var _ :- Need(p.generation < COUNT_LIMIT - 2);
      Storable(p.(generation := p.generation + 1, normalRequest := true, edlRequest := false))
  }

  /** Encoding raises before the first write, exactly on the records that are not encodable. */
  function Storable(c: Control): Result<Option<Control>> {
    if Encodable(c) then Ok(Some(c)) else Err
  }

  lemma NextSelector(cs: Copies, active: Slot, rootA: string, rootB: string)
    ensures var p := if Selected(cs) == None then Blank(active) else Selected(cs).value;
            Next(cs, PrepareSelector(active, rootA, rootB))
            == Storable(p.(generation := p.generation + 1, active := active, pending := "", phase := Stable,
                           rootA := rootA, rootB := rootB))
  {
    hide Encodable;
  }

  /** The order in which a writer visits the copies. */
  function Order(w: Writer): (order: seq<Slot>)
    ensures |order| == 2 && order[1] == order[0].Other()
  {
    match w
    case PrepareSelector(active, _, _) => [active, active.Other()]
    case RecordStage(_, _, _) => [B, A]
    case RequestNormal => [B, A]
    case _ => [A, B]
  }

  /** Two writers give up at the first copy that refuses; the others go on. */
  predicate Strict(w: Writer) {
    w.PrepareSelector? || w.RequestNormal?
  }

  predicate Succeeds(w: Writer, accepts: set<Slot>) {
    if Strict(w) then A in accepts && B in accepts else A in accepts || B in accepts
  }

  /** The copies after the first `done` writes, when the copies in `accepts` take theirs. */
  function Written(cs: Copies, w: Writer, c: Control, accepts: set<Slot>, done: nat): Copies {
    var first, second := Order(w)[0], Order(w)[1];
    var cs1 := if done > 0 && first in accepts then cs.Put(first, Some(c)) else cs;
    if done > 1 && second in accepts && !(Strict(w) && first !in accepts) then cs1.Put(second, Some(c)) else cs1
  }

  /** Which copies the first `done` writes have reached. */
  function Reached(w: Writer, accepts: set<Slot>, done: nat): set<Slot> {
    var first, second := Order(w)[0], Order(w)[1];
    if done == 0 then {}
    else if done == 1 || (Strict(w) && first !in accepts) then accepts * {first}
    else accepts * {first, second}
  }

  // ---------------------------------------------------------------- crash atomicity

  lemma NextIsAhead(cs: Copies, w: Writer)
    requires Next(cs, w).Ok? && Next(cs, w).value.Some?
    ensures var c := Next(cs, w).value.value;
            && Encodable(c)
            && c.generation == (if Selected(cs) == None then 0 else Selected(cs).value.generation) + 1
            && forall s: Slot :: cs.At(s).Some? ==> cs.At(s).value.generation < c.generation
  {
    hide Encodable;
  }

  /**
   * Power loss after any number of per-copy writes leaves selection at the old record until one copy has
   * accepted the new one, and at the new record from then on. A writer that reports success has stored it.
   */
  lemma CrashAtomic(cs: Copies, w: Writer, accepts: set<Slot>, done: nat)
    requires Next(cs, w).Ok? && Next(cs, w).value.Some?
    ensures var c := Next(cs, w).value.value;
            Selected(Written(cs, w, c, accepts, done))
              == if Reached(w, accepts, done) == {} then Selected(cs) else Some(c)
    ensures Succeeds(w, accepts) ==>
              Selected(Written(cs, w, Next(cs, w).value.value, accepts, 2)) == Next(cs, w).value
  {
    NextIsAhead(cs, w);
    var first, second := Order(w)[0], Order(w)[1];
    assert first in accepts ==> first in accepts * {first} && first in accepts * {first, second};
    assert second in accepts ==> second in accepts * {first, second};
    if done > 0 && first !in accepts {
      assert accepts * {first} == {};
      if second !in accepts { assert accepts * {first, second} == {}; }
    }
    if Succeeds(w, accepts) {
      assert Reached(w, accepts, 2) != {} by {
        if first in accepts { assert first in Reached(w, accepts, 2); }
        else { assert second in Reached(w, accepts, 2); }
      }
    }
  }

  // ---------------------------------------------------------------- one trial per activation

  datatype Event =
    | Write(writer: Writer, accepts: set<Slot>, done: nat)  // a writer cut after `done` copies
    | Lose(slot: Slot)                                      // a copy becomes unreadable

  /** The writers that keep the trial state: EDL, USB-mode, stage and normal-boot requests. */
  predicate Neutral(w: Writer) {
    w.RequestEdl? || w.SetUsb? || w.RecordStage? || w.RequestNormal?
  }

  function Apply(cs: Copies, e: Event): Copies {
    match e
    case Lose(slot) => cs.Put(slot, None)
    case Write(w, accepts, done) =>
      var next := Next(cs, w);
      if next.Ok? && next.value.Some? then Written(cs, w, next.value.value, accepts, done) else cs
  }

  function Play(cs: Copies, events: seq<Event>): Copies {
    if events == [] then cs else Apply(Play(cs, events[..|events| - 1]), events[|events| - 1])
  }

  /** The copy `keeper` is no longer armed, and no armed copy has a higher generation. */
  predicate Spent(cs: Copies, keeper: Slot) {
    && cs.At(keeper).Some? && cs.At(keeper).value.phase != Armed
    && (forall s: Slot :: cs.At(s).Some? && cs.At(s).value.phase == Armed ==>
          cs.At(s).value.generation <= cs.At(keeper).value.generation)
  }

  lemma SpentSelectsOther(cs: Copies, keeper: Slot)
    requires Spent(cs, keeper)
    ensures Selected(cs).Some? && Selected(cs).value.phase != Armed
  {
    assert cs.At(A) == cs.a && cs.At(B) == cs.b;
  }

  lemma KeepsPhase(cs: Copies, w: Writer)
    requires Neutral(w) && Selected(cs).Some? && Next(cs, w).Ok? && Next(cs, w).value.Some?
    ensures Next(cs, w).value.value.phase == Selected(cs).value.phase
  {
    hide Encodable;
  }

  lemma SpentStays(cs: Copies, keeper: Slot, e: Event)
    requires Spent(cs, keeper)
    requires if e.Lose? then e.slot != keeper else Neutral(e.writer)
    ensures Spent(Apply(cs, e), keeper)
  {
    hide Encodable;
    if e.Write? {
      var next := Next(cs, e.writer);
      if next.Ok? && next.value.Some? {
        NextIsAhead(cs, e.writer);
        SpentSelectsOther(cs, keeper);
        KeepsPhase(cs, e.writer);
        hide Next, Selected;
      }
    }
  }

  /**
   * Once one copy is marked attempted at the generation of the armed record or above, and stays readable,
   * no sequence of EDL, USB-mode, stage and normal-boot writes, power cuts and losses of the other copy
   * selects an armed record again.
   */
  lemma {:induction false} OneTrial(cs: Copies, keeper: Slot, events: seq<Event>)
    requires Spent(cs, keeper)
    requires forall i :: 0 <= i < |events| ==>
               if events[i].Lose? then events[i].slot != keeper else Neutral(events[i].writer)
    ensures Selected(Play(cs, events)).Some? && Selected(Play(cs, events)).value.phase != Armed
    ensures Spent(Play(cs, events), keeper)
  {
    if events != [] {
      OneTrial(cs, keeper, events[..|events| - 1]);
      SpentStays(Play(cs, events[..|events| - 1]), keeper, events[|events| - 1]);
    }
    SpentSelectsOther(Play(cs, events), keeper);
  }

  /** Marking one copy attempted at the selected armed generation, or above, spends the activation. */
  lemma MarkSpends(cs: Copies, keeper: Slot, generation: nat)
    requires Selected(cs).Some? && generation >= Selected(cs).value.generation
    ensures var marked := Selected(cs).value.(phase := Attempted, generation := generation);
            Spent(cs.Put(keeper, Some(marked)), keeper)
  {
  }
}
