/** The clock service: a saved floor across power loss, and forward-only synchronization by ranked sources. */
module Clock {
  import opened Common

  const TEN_YEARS := 315576000.0
  const PRECEDENCE := 600.0

  datatype Source = Nts | Gps | App

  /** What the saved state holds under `unixTime`: a finite number, something else, or nothing. */
  datatype Saved = Number(value: real) | Other | Missing

  /** The per-boot file in /run. */
  datatype Runtime = Runtime(restored: bool, last: Option<(Source, real)>)

  datatype Verdict = Forward | Slewed | NetworkCurrent | GpsCurrent

  /** An accepted sample and the boot it was accepted in. */
  datatype Sample = Sample(boot: nat, source: Source, at: real)

  predicate ValidEpoch(s: Saved, build: real) {
    s.Number? && build <= s.value <= build + TEN_YEARS
  }

  /** The larger of the valid ones among the build time and the saved value. */
  function BootFloor(build: real, saved: Saved): (floor: real)
    ensures build <= floor <= build + 315576000.0
    ensures saved.Number? && build <= saved.value <= build + 315576000.0 ==> floor >= saved.value
    ensures floor == build || Number(floor) == saved
  {
    if ValidEpoch(saved, build) && saved.value > build then saved.value else build
  }

  predicate Outranks(s: Source, t: Source) {
    (s == Nts && t != Nts) || (s == Gps && t == App)
  }

  /** A sample is accepted only when no outranking one was accepted less than 600 seconds before, in its boot. */
  predicate Ranked(samples: seq<Sample>) {
    forall i, j :: 0 <= i < j < |samples| && samples[i].boot == samples[j].boot && Outranks(samples[i].source, samples[j].source)
      ==> samples[j].at - samples[i].at >= 600.0
  }

  predicate Ordered(samples: seq<Sample>) {
    forall i, j :: 0 <= i < j < |samples| ==>
      samples[i].boot <= samples[j].boot && (samples[i].boot == samples[j].boot ==> samples[i].at <= samples[j].at)
  }

  /** `last` describes the latest accepted sample of this boot, if there is one. */
  predicate Recorded(samples: seq<Sample>, boot: nat, mono: real, last: Option<(Source, real)>) {
    && Ranked(samples) && Ordered(samples)
    && (forall i :: 0 <= i < |samples| ==> samples[i].boot <= boot)
    && if samples != [] && samples[|samples| - 1].boot == boot
       then var latest := samples[|samples| - 1]; last == Some((latest.source, latest.at)) && latest.at <= mono
       else last == None
  }

  lemma OrderExtends(samples: seq<Sample>, boot: nat, mono: real, last: Option<(Source, real)>, next: Sample)
    requires Recorded(samples, boot, mono, last) && next.boot == boot && next.at == mono
    ensures Ordered(samples + [next])
  {
    var longer := samples + [next];
    forall i, j | 0 <= i < j < |longer|
      ensures longer[i].boot <= longer[j].boot && (longer[i].boot == longer[j].boot ==> longer[i].at <= longer[j].at)
    {
      if j == |samples| && i < |samples| - 1 {
        assert samples[i].boot <= samples[|samples| - 1].boot;
      }
    }
  }

  /** Comparing with the latest accepted sample alone is enough to keep the whole history ranked. */
  lemma LastDecides(samples: seq<Sample>, boot: nat, mono: real, last: Option<(Source, real)>, source: Source)
    requires Recorded(samples, boot, mono, last)
    requires last.Some? && mono - last.value.1 < PRECEDENCE ==> !Outranks(last.value.0, source)
    ensures Recorded(samples + [Sample(boot, source, mono)], boot, mono, Some((source, mono)))
  {
    var next := Sample(boot, source, mono);
    OrderExtends(samples, boot, mono, last, next);
    var longer, n := samples + [next], |samples|;
    forall i, j | 0 <= i < j < |longer| && longer[i].boot == longer[j].boot && Outranks(longer[i].source, longer[j].source)
      ensures longer[j].at - longer[i].at >= 600.0
    {
      if j == n && i < n - 1 {
        assert longer[i].boot <= longer[n - 1].boot <= longer[n].boot;
        assert longer[i].at <= longer[n - 1].at <= longer[n].at;
        assert samples[i] == longer[i] && samples[n - 1] == longer[n - 1];
        assert Outranks(samples[i].source, samples[n - 1].source) || Outranks(samples[n - 1].source, source);
      }
    }
  }

  // ---------------------------------------------------------------- steps

  /** The whole state of the service and its clocks. */
  datatype View = View(
    build: real, saved: Saved, runtime: Runtime, wall: real, mono: real, slewing: real, boot: nat, accepted: seq<Sample>)
  {
    /** Stage 1 has restored, and the runtime file agrees with the history. */
    predicate Valid() {
      runtime.restored && mono >= 0.0 && Recorded(accepted, boot, mono, runtime.last)
    }

    /** The clock lies in the lifetime of the image. */
    predicate Plausible() {
      build <= wall <= build + TEN_YEARS
    }

    /** Time passes; adjtime only changes the rate, so the wall clock moves forward too. */
    function Ticked(elapsed: real, shown: real): View {
      this.(mono := mono + elapsed, wall := wall + shown)
    }

    /** adjtime with the adjustment clamped to 2000 seconds: the clock itself is not touched. */
    function Slew(seconds: real): View {
      this.(slewing := if seconds < -2000.0 then -2000.0 else if seconds > 2000.0 then 2000.0 else seconds)
    }

    /** The larger of clock and saved value; an implausible clock raises and saves nothing. */
    function Checkpointed(): (View, Result<()>) {
      if !Plausible() then (this, Err)
      else (this.(saved := if ValidEpoch(saved, build) && saved.value > wall then saved else Number(wall)), Ok(()))
    }

    /** Only the first call of a boot sets the clock; `lag` passes before the checkpoint reads it again. */
    function Restored(lag: real): (View, Result<()>) {
      if runtime.restored then (this, Ok(()))
      else this.(wall := BootFloor(build, saved) + lag, runtime := Runtime(true, None)).Checkpointed()
    }

    /** Power-on: no clock survives, and stage 1 restores before anything else uses the service. */
    function PoweredOn(hardware: real, lag: real): View {
      this.(wall := hardware, mono := 0.0, boot := boot + 1, runtime := Runtime(false, None)).Restored(lag).0
    }

    /** Whether the latest accepted sample of this boot is from `source` and less than 600 seconds old. */
    predicate Current(source: Source) {
      runtime.last.Some? && 0.0 <= mono - runtime.last.value.1 < PRECEDENCE && runtime.last.value.0 == source
    }

    /** The clock behind an accepted sample, before it is saved. */
    function Noted(target: real, source: Source, lag: real): View {
      var step := target - wall > 0.25;
      Slew(if step then 0.0 else target - wall)
        .(wall := (if step then target else wall) + lag,
          runtime := runtime.(last := Some((source, mono))), accepted := accepted + [Sample(boot, source, mono)])
    }

    /** A sound sample that is not outranked: step forward or slew, remember it, save the clock. */
    function Taken(target: real, source: Source, lag: real): (View, Result<Verdict>) {
      var step := target - wall > 0.25;
      var noted := Noted(target, source, lag);
      var (after, saves) := noted.Checkpointed();
      (after, if saves.Err? then Err else Ok(if step then Forward else Slewed))
    }

    /**
     * One sample; `taken` is when a GPS sample was taken on the monotonic clock. A sample that is accepted on an
     * implausible clock, which slewing does not mend at once, still raises when the clock is saved.
     */
    function Synchronized(sample: real, source: Source, taken: Option<real>, lag: real): (View, Result<Verdict>) {
      if source == Gps && (taken == None || !(0.0 <= mono - taken.value <= 2.0)) then (this, Err)
      else
        var target := if source == Gps then sample + (mono - taken.value) else sample;
        if !ValidEpoch(Number(target), build) then (this, Err)
        else if source != Nts && Current(Nts) then (this, Ok(NetworkCurrent))
        else if source == App && Current(Gps) then (this, Ok(GpsCurrent))
        else Taken(target, source, lag)
    }
  }

  datatype Event =
    | PowerOn(hardware: real, lag: real)
    | Tick(elapsed: real, shown: real)
    | Restore
    | Checkpoint
    | Synchronize(sample: real, source: Source, taken: Option<real>, lag: real)

  /** Time does not run backwards. */
  predicate Passing(e: Event) {
    match e
    case PowerOn(_, lag) => lag >= 0.0
    case Tick(elapsed, shown) => elapsed >= 0.0 && shown >= 0.0
    case Synchronize(_, _, _, lag) => lag >= 0.0
    case _ => true
  }

  function Next(v: View, e: Event): View {
    match e
    case PowerOn(hardware, lag) => v.PoweredOn(hardware, lag)
    case Tick(elapsed, shown) => v.Ticked(elapsed, shown)
    case Restore => v.Restored(0.0).0
    case Checkpoint => v.Checkpointed().0
    case Synchronize(sample, source, taken, lag) => v.Synchronized(sample, source, taken, lag).0
  }

  function Steps(v: View, events: seq<Event>): View {
    if events == [] then v else Next(Steps(v, events[..|events| - 1]), events[|events| - 1])
  }

  // ---------------------------------------------------------------- what the steps guarantee

  /** A saved time, once valid, stays valid and does not decrease. */
  predicate Kept(build: real, before: Saved, after: Saved) {
    ValidEpoch(before, build) ==> ValidEpoch(after, build) && after.value >= before.value
  }

  lemma CheckpointKeeps(v: View)
    ensures var (after, r) := v.Checkpointed();
            && Kept(v.build, v.saved, after.saved) && after == v.(saved := after.saved)
            && (r.Ok? <==> v.Plausible()) && (r.Err? ==> after.saved == v.saved)
            && (r.Ok? ==> ValidEpoch(after.saved, v.build) && after.saved.value >= v.wall
                          && (after.saved.value == v.wall || after.saved == v.saved))
  {
  }

  /** Only the first call of a boot sets the clock, to the floor, which is never before a valid saved time. */
  lemma RestoreOnce(v: View, lag: real)
    requires lag >= 0.0
    ensures var after := v.Restored(lag).0;
            && Kept(v.build, v.saved, after.saved)
            && after.accepted == v.accepted && after.boot == v.boot && after.mono == v.mono && after.build == v.build
            && (v.runtime.restored ==> after == v)
            && (!v.runtime.restored ==> after.wall == BootFloor(v.build, v.saved) + lag && after.runtime == Runtime(true, None))
  {
    CheckpointKeeps(v.(wall := BootFloor(v.build, v.saved) + lag, runtime := Runtime(true, None)));
    hide View.Checkpointed;
  }

  /** Whether a better source was accepted less than 600 seconds ago. */
  predicate Outranked(v: View, source: Source) {
    v.runtime.last.Some? && v.mono - v.runtime.last.value.1 < 600.0 && Outranks(v.runtime.last.value.0, source)
  }

  /** Whether a sample is fresh and lies in the lifetime of the image; `target` is the time it gives. */
  predicate Sound(v: View, source: Source, taken: Option<real>, target: real) {
    && (source == Gps ==> taken.Some? && 0.0 <= v.mono - taken.value <= 2.0)
    && v.build <= target <= v.build + 315576000.0
  }

  /** The clock behind an accepted sample; a step ends any adjustment, and slewing is clamped to 2000 seconds. */
  lemma NotedClock(v: View, target: real, source: Source, lag: real)
    requires v.Valid() && lag >= 0.0 && !Outranked(v, source)
    ensures var noted := v.Noted(target, source, lag);
            && noted.Valid() && noted.saved == v.saved && noted.build == v.build && noted.boot == v.boot && noted.mono == v.mono
            && noted.accepted == v.accepted + [Sample(v.boot, source, v.mono)]
            && noted.wall == (if target - v.wall > 0.25 then target else v.wall) + lag
            && noted.slewing == (if target - v.wall > 0.25 then 0.0
                                 else if target - v.wall < -2000.0 then -2000.0 else target - v.wall)
  {
    LastDecides(v.accepted, v.boot, v.mono, v.runtime.last, source);
    hide Recorded;
  }

  lemma SavedValid(v: View)
    requires v.Valid()
    ensures v.Checkpointed().0.Valid()
  {
    hide Recorded;
  }

  lemma Decided(v: View, sample: real, source: Source, taken: Option<real>, lag: real)
    requires v.Valid()
    ensures var target := if source == Gps && taken.Some? then sample + (v.mono - taken.value) else sample;
            v.Synchronized(sample, source, taken, lag)
            == if !Sound(v, source, taken, target) then (v, Err)
               else if Outranked(v, source) then (v, Ok(if v.runtime.last.value.0 == Nts then NetworkCurrent else GpsCurrent))
               else v.Taken(target, source, lag)
  {
    assert v.runtime.last.Some? ==> v.runtime.last.value.1 <= v.mono;
    hide Recorded, View.Taken;
  }

  /**
   * Exactly the sound samples that are not outranked are accepted; the clock then steps forward, which ends any
   * adjustment, or does not jump at all and is slewed by at most 2000 seconds. Anything else changes nothing.
   */
  lemma SampleAccepted(v: View, sample: real, source: Source, taken: Option<real>, lag: real)
    requires v.Valid() && lag >= 0.0
    ensures var target := if source == Gps && taken.Some? then sample + (v.mono - taken.value) else sample;
            var (after, r) := v.Synchronized(sample, source, taken, lag);
            if Sound(v, source, taken, target) && !Outranked(v, source) then
              && after.accepted == v.accepted + [Sample(v.boot, source, v.mono)] && after.boot == v.boot && after.mono == v.mono && after.build == v.build
              && after.wall == (if target - v.wall > 0.25 then target else v.wall) + lag >= v.wall
              && after.slewing == (if target - v.wall > 0.25 then 0.0
                                   else if target - v.wall < -2000.0 then -2000.0 else target - v.wall)
              && r == (if after.Plausible() then Ok(if target - v.wall > 0.25 then Forward else Slewed) else Err)
              && (after.Plausible() ==> after.saved.Number? && after.saved.value >= after.wall)
              && after.Valid() && Kept(v.build, v.saved, after.saved)
            else
              && after == v
              && r == (if !Sound(v, source, taken, target) then Err
                       else if v.runtime.last.value.0 == Nts then Ok(NetworkCurrent) else Ok(GpsCurrent))
  {
    var target := if source == Gps && taken.Some? then sample + (v.mono - taken.value) else sample;
    Decided(v, sample, source, taken, lag);
    hide View.Valid, View.Checkpointed, View.Noted, View.Synchronized, Sound, Outranked;
    if Sound(v, source, taken, target) && !Outranked(v, source) {
      NotedClock(v, target, source, lag);
      CheckpointKeeps(v.Noted(target, source, lag));
      SavedValid(v.Noted(target, source, lag));
    }
  }

  lemma NextKeeps(v: View, e: Event)
    requires v.Valid() && Passing(e)
    ensures var after := Next(v, e);
            && after.Valid() && after.build == v.build && Kept(v.build, v.saved, after.saved)
            && if e.PowerOn? then after.wall >= BootFloor(v.build, v.saved) else after.wall >= v.wall
  {
    hide View.Checkpointed, View.Restored, View.Synchronized, Sound, Outranked;
    match e {
      case PowerOn(hardware, lag) => RestoreOnce(v.(wall := hardware, mono := 0.0, boot := v.boot + 1, runtime := Runtime(false, None)), lag);
      case Tick(elapsed, shown) =>
      case Restore => RestoreOnce(v, 0.0);
      case Checkpoint => CheckpointKeeps(v);
      case Synchronize(sample, source, taken, lag) => SampleAccepted(v, sample, source, taken, lag);
    }
  }

  /**
   * Over any run of boots with one build time: accepted samples respect their ranks within each boot, only a
   * power-on moves the wall clock back, and no further than the floor; and the saved time, once valid, stays
   * valid and never decreases.
   */
  lemma {:induction false} EveryRun(v: View, events: seq<Event>)
    requires v.Valid() && forall i :: 0 <= i < |events| ==> Passing(events[i])
    ensures var end := Steps(v, events);
            && end.Valid() && Ranked(end.accepted) && end.build == v.build
            && (forall i :: 0 <= i <= |events| ==> Kept(v.build, Steps(v, events[..i]).saved, end.saved))
            && (events != [] ==>
                  var before := Steps(v, events[..|events| - 1]);
                  if events[|events| - 1].PowerOn? then end.wall >= BootFloor(v.build, before.saved) else end.wall >= before.wall)
  {
    hide Next, View.Valid;
    assert events[..|events|] == events;
    if events != [] {
      var n := |events| - 1;
      var front := events[..n];
      EveryRun(v, front);
      NextKeeps(Steps(v, front), events[n]);
      forall i | 0 <= i <= n
        ensures Kept(v.build, Steps(v, events[..i]).saved, Steps(v, events).saved)
      {
        assert front[..i] == events[..i];
      }
    }
    ValidRanked(Steps(v, events));
  }

  lemma ValidRanked(v: View)
    requires v.Valid()
    ensures Ranked(v.accepted)
  {
  }

  // ---------------------------------------------------------------- the service

  class Service {
    const build: real
    var saved: Saved         // survives power loss
    var runtime: Runtime     // gone after a reboot
    var wall: real           // CLOCK_REALTIME
    var mono: real           // CLOCK_MONOTONIC
    var slewing: real        // the last adjustment handed to adjtime
    var boot: nat
    var accepted: seq<Sample>  // history: every sample accepted so far

    function Now(): View
      reads this
    {
      View(build, saved, runtime, wall, mono, slewing, boot, accepted)
    }

    constructor (build: real, saved: Saved)
      ensures Now() == View(build, saved, Runtime(true, None), 0.0, 0.0, 0.0, 0, []) && Now().Valid()
    {
      this.build, this.saved := build, saved;
      runtime, wall, mono, slewing, boot := Runtime(true, None), 0.0, 0.0, 0.0, 0;
      accepted := [];
    }

    method Tick(elapsed: real, shown: real)
      modifies `mono, `wall
      ensures Now() == old(Now()).Ticked(elapsed, shown)
    {
      mono, wall := mono + elapsed, wall + shown;
    }

    method Slew(seconds: real)
      modifies `slewing
      ensures Now() == old(Now()).Slew(seconds)
    {
      slewing := if seconds < -2000.0 then -2000.0 else if seconds > 2000.0 then 2000.0 else seconds;
    }

    method Checkpoint() returns (r: Result<()>)
      modifies `saved
      ensures (Now(), r) == old(Now()).Checkpointed()
    {
      var now := wall;
      if !ValidEpoch(Number(now), build) { return Err; }
      saved := if ValidEpoch(saved, build) && saved.value > now then saved else Number(now);
      r := Ok(());
    }

    method Restore(lag: real) returns (r: Result<()>)
      modifies `saved, `runtime, `wall
      ensures (Now(), r) == old(Now()).Restored(lag)
    {
      if runtime.restored { return Ok(()); }
      var target := BootFloor(build, saved);
      if target != wall { wall := target; }
      runtime := Runtime(true, None);
      wall := wall + lag;
      r := Checkpoint();
    }

    method PowerOn(hardware: real, lag: real)
      modifies `saved, `runtime, `wall, `mono, `boot
      ensures Now() == old(Now()).PoweredOn(hardware, lag)
    {
      wall, mono, boot, runtime := hardware, 0.0, boot + 1, Runtime(false, None);
      var _ := Restore(lag);
    }

    method Synchronize(sample: real, source: Source, taken: Option<real>, lag: real) returns (r: Result<Verdict>)
      modifies `saved, `runtime, `wall, `slewing, `accepted
      ensures (Now(), r) == old(Now()).Synchronized(sample, source, taken, lag)
    {
      hide View.Checkpointed;
      var target := sample;
      if source == Gps {
        if taken == None || !(0.0 <= mono - taken.value <= 2.0) { return Err; }
        target := target + (mono - taken.value);
      }
      if !ValidEpoch(Number(target), build) { return Err; }
      if source != Nts && Now().Current(Nts) { return Ok(NetworkCurrent); }
      if source == App && Now().Current(Gps) { return Ok(GpsCurrent); }
      var offset := target - wall;
      var verdict := Slewed;
      if offset > 0.25 {
        Slew(0.0);
        wall := target;
        verdict := Forward;
      } else {
        Slew(offset);
      }
      runtime := runtime.(last := Some((source, mono)));
      accepted := accepted + [Sample(boot, source, mono)];
      wall := wall + lag;
      var checkpoint := Checkpoint();
      r := if checkpoint.Ok? then Ok(verdict) else Err;
    }

    /** The service does what `Steps` says, event by event. */
    method Run(events: seq<Event>)
      modifies this
      ensures Now() == Steps(old(Now()), events)
    {
      for n := 0 to |events|
        invariant Now() == Steps(old(Now()), events[..n])
      {
        assert events[..n + 1][..n] == events[..n];
        Happen(events[n]);
      }
      assert events[..|events|] == events;
    }

    method Happen(e: Event)
      modifies this
      ensures Now() == Next(old(Now()), e)
    {
      hide View.Checkpointed, View.Restored, View.PoweredOn, View.Synchronized;
      match e {
        case PowerOn(hardware, lag) => PowerOn(hardware, lag);
        case Tick(elapsed, shown) => Tick(elapsed, shown);
        case Restore => var _ := Restore(0.0);
        case Checkpoint => var _ := Checkpoint();
        case Synchronize(sample, source, taken, lag) => var _ := Synchronize(sample, source, taken, lag);
      }
    }
  }
}
