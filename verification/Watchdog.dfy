/**
 * `watchdog()` and `commit()` run as two processes that talk through marker files, while the hardware timer
 * can fire between any two of their steps. The steps below are the file and device accesses of both.
 */
module Watchdog {
  /** Where the watchdog process stands: the access it makes next. */
  datatype Watch =
    | NotStarted
    | Open           // open the device, retrying until a deadline
    | Configure      // set the timeout, read the boot status
    | WritePid | TouchReady
    | CheckHealthy
    | Feed           // health deadline, then one feeding write
    | MagicWrite     // write "V"
    | Close
    | TouchDisarmed
    | Expired        // sleeps until the hardware resets the board
    | DropReady | DropPid
    | Gone

  /** Where `commit()` stands. */
  datatype Commit =
    | Idle
    | NeedReady | NeedStage | NeedProcess
    | Diagnose
    | TouchHealthy
    | Poll           // until the disarmed marker appears or five seconds pass
    | Confirm        // look at the marker once more
    | DropHealthy
    | Settle         // commit_boot
    | Rollback       // it raised: rollback_boot, then reboot

  datatype State = State(
    trial: bool, watch: Watch, commit: Commit,
    pid: bool, ready: bool, healthy: bool, disarmed: bool,  // marker files, gone after a reset
    armed: bool,      // the hardware timer
    diagnosed: bool,  // diagnose("healthy") has returned in this boot
    refused: bool,    // the last commit of this boot raised "did not disarm"
    abandoned: bool,  // the last commit of this boot stored neither the new record nor the rollback
    committed: bool)  // boot control is stable on the trial slot

  /** A step of one process; `ok` is false when the operation raises, `late` when a deadline has passed. */
  datatype Action =
    | Launch
    | WatchStep(ok: bool, late: bool)
    | Call
    | CommitStep(ok: bool, late: bool)
    | Reset(trial: bool)  // the timer fires, or somebody reboots: a new boot starts with the timer armed

  function Boot(trial: bool, committed: bool): State {
    State(trial, NotStarted, Idle, false, false, false, false, true, false, false, false, committed)
  }

  /** The state after one step; a step that its process cannot take changes nothing. */
  function Next(s: State, a: Action): State {
    match a
    case Launch => if s.watch.NotStarted? then s.(watch := Open) else s
    case WatchStep(ok, late) => WatchNext(s, ok, late)
    case Call => if s.commit.Idle? then s.(commit := NeedReady, refused := false, abandoned := false) else s
    case CommitStep(ok, late) => CommitNext(s, ok, late)
    case Reset(trial) => Boot(trial, s.committed)
  }

  /** The access made at each place: marker files written or removed, the timer switched off by a magic close. */
  function WatchNext(s: State, ok: bool, late: bool): State {
    s.(watch := WatchGoes(s.watch, s.healthy, ok, late),
       pid := s.watch.WritePid? || (s.pid && !s.watch.DropPid?),
       ready := s.watch.TouchReady? || (s.ready && !s.watch.DropReady?),
       disarmed := s.watch.TouchDisarmed? || s.disarmed,
       armed := s.armed && !s.watch.Close?)
  }

  function WatchGoes(w: Watch, healthy: bool, ok: bool, late: bool): Watch {
    match w
    case NotStarted => NotStarted
    case Open => if ok then Configure else if late then DropReady else Open
    case Configure => if ok then WritePid else DropReady
    case WritePid => TouchReady
    case TouchReady => CheckHealthy
    case CheckHealthy => if healthy then MagicWrite else Feed
    case Feed => if late then Expired else if ok then CheckHealthy else DropReady
    case MagicWrite => if ok then Close else DropReady  // closed without "V", the timer keeps running
    case Close => TouchDisarmed
    case TouchDisarmed => DropReady
    case Expired => Expired
    case DropReady => DropPid
    case DropPid => Gone
    case Gone => Gone
  }

  /** A commit_boot that raises rolls back; the reboot comes only behind a rollback that returns. */
  function CommitNext(s: State, ok: bool, late: bool): State {
    if s.commit.Rollback? && ok then Boot(false, s.committed)
    else s.(commit := CommitGoes(s, ok, late),
            diagnosed := s.diagnosed || (s.commit.Diagnose? && ok),
            healthy := s.commit.TouchHealthy? || (s.healthy && !s.commit.DropHealthy?),
            refused := s.refused || s.commit.DropHealthy?,
            abandoned := s.abandoned || s.commit.Rollback?,
            committed := s.committed || (s.commit.Settle? && ok))
  }

  function CommitGoes(s: State, ok: bool, late: bool): Commit {
    match s.commit
    case Idle => Idle
    case NeedReady => if s.ready then NeedStage else Idle
    case NeedStage => if ok then NeedProcess else Idle
    case NeedProcess => if s.pid && !s.watch.Gone? then Diagnose else Idle
    case Diagnose => if ok then TouchHealthy else Idle
    case TouchHealthy => Poll
    case Poll => if late || s.disarmed then Confirm else Poll
    case Confirm => if !s.disarmed then DropHealthy else if s.trial then Settle else Idle
    case DropHealthy => Idle
    case Settle => if ok then Idle else Rollback
    case Rollback => Idle
  }

  // ---------------------------------------------------------------- runs

  function Steps(s: State, actions: seq<Action>): State {
    if actions == [] then s else Next(Steps(s, actions[..|actions| - 1]), actions[|actions| - 1])
  }

  /** Past the point where the watchdog has seen the healthy marker. */
  predicate Disarming(s: State) {
    s.watch.MagicWrite? || s.watch.Close? || s.watch.TouchDisarmed?
  }

  predicate Diagnosed(c: Commit) {
    c.TouchHealthy? || c.Poll? || c.Confirm? || c.DropHealthy? || c.Settle? || c.Rollback?
  }

  predicate Inv(s: State) {
    && (s.healthy || Disarming(s) || !s.armed ==> s.diagnosed)
    && (Diagnosed(s.commit) ==> s.diagnosed)
    && (s.disarmed || s.watch.TouchDisarmed? ==> !s.armed)
    && (!s.armed ==> s.watch.TouchDisarmed? || s.watch.DropReady? || s.watch.DropPid? || s.watch.Gone?)
    && (s.commit.Settle? || s.commit.Rollback? ==> s.disarmed && s.trial)
    && (s.healthy ==> s.disarmed || s.commit.Poll? || s.commit.Confirm? || s.commit.DropHealthy?)
    && (s.watch.DropPid? || s.watch.Gone? ==> !s.ready)
  }

  lemma WatchKeepsInv(s: State, ok: bool, late: bool)
    requires Inv(s)
    ensures Inv(WatchNext(s, ok, late))
  {
  }

  lemma CommitKeepsInv(s: State, ok: bool, late: bool)
    requires Inv(s)
    ensures Inv(CommitNext(s, ok, late))
  {
  }

  lemma StepKeepsInv(s: State, a: Action)
    requires Inv(s)
    ensures Inv(Next(s, a))
  {
    hide WatchNext, CommitNext;
    match a {
      case WatchStep(ok, late) => WatchKeepsInv(s, ok, late);
      case CommitStep(ok, late) => CommitKeepsInv(s, ok, late);
      case _ =>
    }
  }

  lemma {:induction false} RunKeepsInv(s: State, actions: seq<Action>)
    requires Inv(s)
    ensures Inv(Steps(s, actions))
  {
    if actions != [] {
      var n := |actions| - 1;
      RunKeepsInv(s, actions[..n]);
      StepKeepsInv(Steps(s, actions[..n]), actions[n]);
    }
  }

  predicate Diagnoses(s: State, a: Action) {
    a.CommitStep? && a.ok && s.commit.Diagnose?
  }

  predicate Restarts(s: State, a: Action) {
    a.Reset? || (a.CommitStep? && a.ok && s.commit.Rollback?)
  }

  /** Since the latest restart of a run, `diagnose("healthy")` returned at some step. */
  predicate DiagnosedThisBoot(s: State, actions: seq<Action>) {
    exists k :: 0 <= k < |actions| && DiagnosedAt(s, actions, k)
  }

  predicate DiagnosedAt(s: State, actions: seq<Action>, k: nat)
    requires k < |actions|
  {
    && Diagnoses(Steps(s, actions[..k]), actions[k])
    && forall j :: k < j < |actions| ==> !Restarts(Steps(s, actions[..j]), actions[j])
  }

  lemma FlagStep(s: State, a: Action)
    requires Next(s, a).diagnosed
    ensures Diagnoses(s, a) || (s.diagnosed && !Restarts(s, a))
  {
    hide WatchGoes, CommitGoes;
  }

  /** One more step that is no restart keeps a diagnosis in this boot. */
  lemma HistoryGrows(s: State, actions: seq<Action>)
    requires actions != [] && DiagnosedThisBoot(s, actions[..|actions| - 1])
    requires !Restarts(Steps(s, actions[..|actions| - 1]), actions[|actions| - 1])
    ensures DiagnosedThisBoot(s, actions)
  {
    hide Steps, Diagnoses, Restarts;
    var n := |actions| - 1;
    var front := actions[..n];
    var k :| 0 <= k < n && DiagnosedAt(s, front, k);
    forall j | k < j < |actions|
      ensures !Restarts(Steps(s, actions[..j]), actions[j])
    {
      if j < n { assert front[..j] == actions[..j] && front[j] == actions[j]; }
    }
    assert front[..k] == actions[..k];
    assert DiagnosedAt(s, actions, k);
  }

  lemma HistoryBegins(s: State, actions: seq<Action>)
    requires actions != [] && Diagnoses(Steps(s, actions[..|actions| - 1]), actions[|actions| - 1])
    ensures DiagnosedThisBoot(s, actions)
  {
    hide Steps, Diagnoses, Restarts;
    assert DiagnosedAt(s, actions, |actions| - 1);
  }

  lemma {:induction false} FlagIsHistory(s: State, actions: seq<Action>)
    requires !s.diagnosed && Steps(s, actions).diagnosed
    ensures DiagnosedThisBoot(s, actions)
  {
    hide Next, Diagnoses, Restarts, DiagnosedThisBoot;
    assert actions != [];
    var n := |actions| - 1;
    FlagStep(Steps(s, actions[..n]), actions[n]);
    if Diagnoses(Steps(s, actions[..n]), actions[n]) {
      HistoryBegins(s, actions);
    } else {
      FlagIsHistory(s, actions[..n]);
      HistoryGrows(s, actions);
    }
  }

  lemma CommittedStep(s: State, a: Action)
    requires Inv(s) && Next(s, a).committed && !s.committed
    ensures a.CommitStep? && a.ok && s.commit.Settle? && s.trial && s.disarmed && !s.armed && s.diagnosed
  {
  }

  /**
   * In every interleaving, with the timer firing anywhere: the timer is disarmed only after diagnose("healthy")
   * returned in that boot, and boot control becomes stable on the trial slot only in a commit step taken while
   * the disarmed marker stands and the timer is off.
   */
  lemma EveryRun(trial: bool, actions: seq<Action>, next: Action)
    ensures var s0 := Boot(trial, false);
            var s := Steps(s0, actions);
            && (!s.armed ==> DiagnosedThisBoot(s0, actions))
            && (Next(s, next).committed && !s.committed ==>
                  && next.CommitStep? && s.trial && s.disarmed && !s.armed && DiagnosedThisBoot(s0, actions))
  {
    hide Next;
    var s0 := Boot(trial, false);
    var s := Steps(s0, actions);
    RunKeepsInv(s0, actions);
    if s.diagnosed { FlagIsHistory(s0, actions); }
    if Next(s, next).committed && !s.committed { CommittedStep(s, next); }
  }

  // ---------------------------------------------------------------- a boot that does not get healthy in time

  /** The watchdog has given up feeding: it is none of the places that feed, look for the marker, or disarm. */
  predicate GivenUp(s: State) {
    && s.armed && !s.disarmed
    && !s.watch.NotStarted? && !s.watch.Open? && !s.watch.Configure? && !s.watch.WritePid? && !s.watch.TouchReady?
    && !s.watch.CheckHealthy? && !s.watch.Feed? && !s.watch.MagicWrite? && !s.watch.Close? && !s.watch.TouchDisarmed?
  }

  /** No restart among the actions from `k` up to `j`. */
  predicate SameBoot(s: State, actions: seq<Action>, k: nat, j: nat) {
    k <= j <= |actions| && forall i :: k <= i < j ==> !Restarts(Steps(s, actions[..i]), actions[i])
  }

  lemma GivenUpStays(s: State, a: Action)
    requires Inv(s) && GivenUp(s) && !Restarts(s, a)
    ensures GivenUp(Next(s, a)) && (Next(s, a).committed ==> s.committed)
  {
  }

  lemma StepsNext(s: State, actions: seq<Action>, i: nat)
    requires i < |actions|
    ensures Steps(s, actions[..i + 1]) == Next(Steps(s, actions[..i]), actions[i])
  {
    hide Next;
    assert actions[..i + 1][..i] == actions[..i];
  }

  lemma {:induction false} GivenUpHolds(s: State, actions: seq<Action>, k: nat, j: nat)
    requires Inv(s) && SameBoot(s, actions, k, j) && GivenUp(Steps(s, actions[..k]))
    ensures GivenUp(Steps(s, actions[..j])) && (Steps(s, actions[..j]).committed ==> Steps(s, actions[..k]).committed)
    decreases j
  {
    hide Next, Inv, GivenUp, Restarts;
    if j > k {
      GivenUpHolds(s, actions, k, j - 1);
      RunKeepsInv(s, actions[..j - 1]);
      StepsNext(s, actions, j - 1);
      hide Steps;
      GivenUpStays(Steps(s, actions[..j - 1]), actions[j - 1]);
    }
  }

  /**
   * The health deadline: once the watchdog is past it when it is about to feed, the timer runs on, the watchdog
   * neither feeds nor looks for the marker nor disarms again, and boot control does not become stable, until the
   * board restarts.
   */
  lemma DeadlineIsFinal(trial: bool, actions: seq<Action>, k: nat, j: nat)
    requires k < j <= |actions| && actions[k].WatchStep? && actions[k].late && Steps(Boot(trial, false), actions[..k]).watch.Feed?
    requires SameBoot(Boot(trial, false), actions, k + 1, j)
    ensures var s, t := Steps(Boot(trial, false), actions[..k]), Steps(Boot(trial, false), actions[..j]);
            && t.armed && !t.disarmed
            && !t.watch.CheckHealthy? && !t.watch.Feed? && !t.watch.MagicWrite? && !t.watch.Close? && !t.watch.TouchDisarmed?
            && (t.committed ==> s.committed)
  {
    var s0 := Boot(trial, false);
    RunKeepsInv(s0, actions[..k]);
    StepsNext(s0, actions, k);
    DeadlinePassed(Steps(s0, actions[..k]), actions[k]);
    hide Steps, Next, Inv;
    GivenUpHolds(s0, actions, k + 1, j);
  }

  lemma DeadlinePassed(s: State, a: Action)
    requires Inv(s) && s.watch.Feed? && a.WatchStep? && a.late
    ensures GivenUp(Next(s, a)) && Next(s, a).committed == s.committed
  {
  }

  // ---------------------------------------------------------------- what switches the timer off

  /** At step `k` the watchdog found the healthy marker. */
  predicate SawMarker(s: State, actions: seq<Action>, k: nat) {
    k < |actions| && actions[k].WatchStep? && Steps(s, actions[..k]).watch.CheckHealthy? && Steps(s, actions[..k]).healthy
  }

  /** At step `k` the write of the magic character succeeded. */
  predicate WroteMagic(s: State, actions: seq<Action>, k: nat) {
    k < |actions| && actions[k].WatchStep? && actions[k].ok && Steps(s, actions[..k]).watch.MagicWrite?
  }

  predicate SwitchedOff(s: State) {
    s.watch.Close? || s.watch.TouchDisarmed? || !s.armed
  }

  lemma MarkerStep(s: State, a: Action)
    requires Next(s, a).watch.MagicWrite?
    ensures !Restarts(s, a) && (s.watch.MagicWrite? || (a.WatchStep? && s.watch.CheckHealthy? && s.healthy))
  {
    hide CommitGoes;
  }

  lemma MagicStep(s: State, a: Action)
    requires SwitchedOff(Next(s, a))
    ensures !Restarts(s, a) && (SwitchedOff(s) || (a.WatchStep? && a.ok && s.watch.MagicWrite?))
  {
    hide CommitGoes;
  }

  lemma SameBootJoins(s: State, actions: seq<Action>, i: nat, k: nat, j: nat)
    requires SameBoot(s, actions, i, k) && k < |actions| && !Restarts(Steps(s, actions[..k]), actions[k])
    requires SameBoot(s, actions, k + 1, j)
    ensures SameBoot(s, actions, i, j)
  {
    hide Steps, Restarts;
  }

  /** The step before `j`: either it found the marker, or the watchdog was past it already. */
  lemma MarkerBefore(s: State, actions: seq<Action>, j: nat)
    requires s.watch.NotStarted? && j <= |actions| && Steps(s, actions[..j]).watch.MagicWrite?
    ensures j > 0 && !Restarts(Steps(s, actions[..j - 1]), actions[j - 1])
    ensures SawMarker(s, actions, j - 1) || Steps(s, actions[..j - 1]).watch.MagicWrite?
    ensures SameBoot(s, actions, j, j)
  {
    assert j > 0;
    StepsNext(s, actions, j - 1);
    hide Steps, Next, Restarts;
    MarkerStep(Steps(s, actions[..j - 1]), actions[j - 1]);
  }

  lemma MagicBefore(s: State, actions: seq<Action>, j: nat)
    requires s.watch.NotStarted? && s.armed && j <= |actions| && SwitchedOff(Steps(s, actions[..j]))
    ensures j > 0 && !Restarts(Steps(s, actions[..j - 1]), actions[j - 1])
    ensures WroteMagic(s, actions, j - 1) || SwitchedOff(Steps(s, actions[..j - 1]))
    ensures SameBoot(s, actions, j, j)
  {
    assert j > 0;
    StepsNext(s, actions, j - 1);
    hide Steps, Next, Restarts, SwitchedOff;
    MagicStep(Steps(s, actions[..j - 1]), actions[j - 1]);
  }

  lemma {:induction false} MarkerSeen(s: State, actions: seq<Action>, j: nat) returns (k: nat)
    requires s.watch.NotStarted? && j <= |actions| && Steps(s, actions[..j]).watch.MagicWrite?
    ensures k < j && SawMarker(s, actions, k) && SameBoot(s, actions, k + 1, j)
  {
    MarkerBefore(s, actions, j);
    hide Steps, Restarts, SawMarker, SameBoot;
    k := j - 1;
    if !SawMarker(s, actions, k) {
      k := MarkerSeen(s, actions, j - 1);
      SameBootJoins(s, actions, k + 1, j - 1, j);
    }
  }

  lemma {:induction false} MagicSeen(s: State, actions: seq<Action>, j: nat) returns (k: nat)
    requires s.watch.NotStarted? && s.armed && j <= |actions| && SwitchedOff(Steps(s, actions[..j]))
    ensures k < j && WroteMagic(s, actions, k) && SameBoot(s, actions, k + 1, j)
  {
    MagicBefore(s, actions, j);
    hide Steps, Restarts, WroteMagic, SameBoot, SwitchedOff;
    k := j - 1;
    if !WroteMagic(s, actions, k) {
      k := MagicSeen(s, actions, j - 1);
      SameBootJoins(s, actions, k + 1, j - 1, j);
    }
  }

  /**
   * The timer is off only in a boot in which the watchdog found the healthy marker and then wrote the magic
   * character. A watchdog that raises, or gives up, or cannot write it, leaves the timer running.
   */
  lemma OnlyMagicDisarms(trial: bool, actions: seq<Action>) returns (i: nat, k: nat)
    requires !Steps(Boot(trial, false), actions).armed
    ensures i < k < |actions| && SawMarker(Boot(trial, false), actions, i) && WroteMagic(Boot(trial, false), actions, k)
    ensures SameBoot(Boot(trial, false), actions, i + 1, |actions|)
  {
    var s := Boot(trial, false);
    assert actions[..|actions|] == actions;
    hide Steps, Restarts, SameBoot, SawMarker;
    k := MagicSeen(s, actions, |actions|);
    i := MarkerSeen(s, actions, k);
    assert actions[k].WatchStep?;
    WatchRestartsNothing(Steps(s, actions[..k]), actions[k]);
    SameBootJoins(s, actions, i + 1, k, |actions|);
  }

  lemma WatchRestartsNothing(s: State, a: Action)
    requires a.WatchStep?
    ensures !Restarts(s, a)
  {
  }

  /** Before the deadline a boot is not given up: from any turn of the loop the next one is reached by feeding. */
  lemma KeepsWatching(s: State)
    requires s.watch.CheckHealthy? && !s.healthy
    ensures var feed := Next(s, WatchStep(true, false));
            feed == s.(watch := Feed) && Next(feed, WatchStep(true, false)) == s
  {
    hide CommitGoes;
  }

  // ---------------------------------------------------------------- what a commit has seen

  /** Where `commit()` stands, counted along its checks. */
  function Place(c: Commit): nat {
    match c
    case Idle => 0 case NeedReady => 1 case NeedStage => 2 case NeedProcess => 3 case Diagnose => 4 case TouchHealthy => 5
    case Poll => 6 case Confirm => 7 case DropHealthy => 8 case Settle => 8 case Rollback => 9
  }

  /** At step `i` the check at this place was passed, and the call has gone on from there to the end of the run. */
  predicate PassedAt(s: State, actions: seq<Action>, place: nat, i: nat)
    requires i < |actions|
  {
    && actions[i].CommitStep? && Place(Steps(s, actions[..i]).commit) == place
    && (forall j :: i < j <= |actions| ==> Place(Steps(s, actions[..j]).commit) > place)
    && (place == 1 ==> Steps(s, actions[..i]).ready)
    && (place == 2 || place == 4 ==> actions[i].ok)
    && (place == 3 ==> Steps(s, actions[..i]).pid && !Steps(s, actions[..i]).watch.Gone?)
    && (place == 7 ==> Steps(s, actions[..i]).disarmed && Steps(s, actions[..i]).trial)
  }

  ghost predicate Passed(s: State, actions: seq<Action>, place: nat) {
    exists i :: 0 <= i < |actions| && PassedAt(s, actions, place, i)
  }

  /** The checks that lead up to a place; DropHealthy comes of a failed one. */
  predicate LeadsTo(place: nat, c: Commit) {
    1 <= place < Place(c) && (place == 7 ==> c.Settle? || c.Rollback?)
  }

  lemma CommitAdvances(s: State, a: Action, place: nat)
    requires LeadsTo(place, Next(s, a).commit)
    ensures || (LeadsTo(place, s.commit) && !a.Reset? && !a.Call?)
            || (a.Call? && LeadsTo(place, s.commit) && Next(s, a).commit == s.commit)
            || (a.CommitStep? && Place(s.commit) == place
                && (place == 1 ==> s.ready) && (place == 2 || place == 4 ==> a.ok)
                && (place == 3 ==> s.pid && !s.watch.Gone?) && (place == 7 ==> s.disarmed && s.trial))
  {
    hide LeadsTo, Place, WatchGoes;
    hide CommitGoes;
    match a {
      case CommitStep(ok, late) => GoesForward(s, ok, late, place);
      case Reset(_) => IdleLeadsNowhere(place);
      case Call => CallLeadsNowhere(place);
      case Launch =>
      case WatchStep(_, _) =>
    }
    IdleLeadsNowhere(place);
  }

  lemma IdleLeadsNowhere(place: nat)
    ensures !LeadsTo(place, Idle)
  {
  }

  lemma CallLeadsNowhere(place: nat)
    ensures !LeadsTo(place, NeedReady)
  {
  }

  lemma GoesForward(s: State, ok: bool, late: bool, place: nat)
    ensures LeadsTo(place, CommitGoes(s, ok, late)) ==>
      || LeadsTo(place, s.commit)
      || (Place(s.commit) == place && (place == 1 ==> s.ready) && (place == 2 || place == 4 ==> ok)
          && (place == 3 ==> s.pid && !s.watch.Gone?) && (place == 7 ==> s.disarmed && s.trial))
  {
    hide WatchGoes;
  }

  lemma {:induction false} ChecksPassed(s: State, actions: seq<Action>, place: nat)
    requires s.commit.Idle? && LeadsTo(place, Steps(s, actions).commit)
    ensures Passed(s, actions, place)
  {
    hide Next, PassedAt;
    assert actions != [];
    var n := |actions| - 1;
    var front := actions[..n];
    CommitAdvances(Steps(s, front), actions[n], place);
    if LeadsTo(place, Steps(s, front).commit) {
      ChecksPassed(s, front, place);
      PassedGrows(s, actions, place);
    } else {
      PassedNow(s, actions, place);
    }
  }

  lemma PassedGrows(s: State, actions: seq<Action>, place: nat)
    requires actions != [] && Passed(s, actions[..|actions| - 1], place) && LeadsTo(place, Steps(s, actions).commit)
    ensures Passed(s, actions, place)
  {
    hide Steps;
    var n := |actions| - 1;
    var front := actions[..n];
    var i :| 0 <= i < n && PassedAt(s, front, place, i);
    forall j | i < j <= |actions|
      ensures Place(Steps(s, actions[..j]).commit) > place
    {
      if j <= n { assert front[..j] == actions[..j]; } else { assert actions[..j] == actions; }
    }
    assert front[..i] == actions[..i];
    assert PassedAt(s, actions, place, i);
  }

  lemma PassedNow(s: State, actions: seq<Action>, place: nat)
    requires actions != [] && LeadsTo(place, Steps(s, actions).commit)
    requires var t, a := Steps(s, actions[..|actions| - 1]), actions[|actions| - 1];
             && a.CommitStep? && Place(t.commit) == place
             && (place == 1 ==> t.ready) && (place == 2 || place == 4 ==> a.ok)
             && (place == 3 ==> t.pid && !t.watch.Gone?) && (place == 7 ==> t.disarmed && t.trial)
    ensures Passed(s, actions, place)
  {
    hide Steps;
    assert actions[..|actions|] == actions;
    assert PassedAt(s, actions, place, |actions| - 1);
  }

  /**
   * Boot control becomes stable only at the end of one call of `commit()` that passed every check on the way, one
   * after the other: the ready marker, stage 1 and the state, the watchdog process, the diagnosis, and the disarmed
   * marker on a trial boot.
   */
  lemma CommitSawEverything(trial: bool, actions: seq<Action>, next: Action)
    requires var s := Steps(Boot(trial, false), actions); Next(s, next).committed && !s.committed
    ensures forall place :: place in {1, 2, 3, 4, 7} ==> Passed(Boot(trial, false), actions, place)
  {
    var s0 := Boot(trial, false);
    RunKeepsInv(s0, actions);
    CommittedStep(Steps(s0, actions), next);
    hide Steps, Next, Passed;
    forall place | place in {1, 2, 3, 4, 7}
      ensures Passed(s0, actions, place)
    {
      ChecksPassed(s0, actions, place);
    }
  }

  // ---------------------------------------------------------------- a commit that ends without effect

  /** An uncommitted trial with the timer off and no watchdog process: nothing but a reboot can end it. */
  predicate Stranded(s: State) {
    s.trial && !s.committed && !s.armed && s.watch.Gone? && !s.ready && (s.commit.Idle? || s.commit.NeedReady?)
  }

  lemma StrandedStays(s: State, a: Action)
    requires Stranded(s) && !a.Reset?
    ensures Stranded(Next(s, a))
  {
  }

  /** Only the watchdog process takes steps. */
  predicate Alone(actions: seq<Action>) {
    forall i :: 0 <= i < |actions| ==> actions[i].WatchStep?
  }

  /** One more step of a run from `s0`. */
  lemma Then(s0: State, actions: seq<Action>, s: State, a: Action) returns (longer: seq<Action>, after: State)
    requires Steps(s0, actions) == s
    ensures longer == actions + [a] && after == Next(s, a) && Steps(s0, longer) == after
  {
    longer, after := actions + [a], Next(s, a);
    assert longer[..|longer| - 1] == actions;
  }

  /** Steps left for a watchdog that is disarming or cleaning up. */
  function Left(w: Watch): nat {
    match w
    case MagicWrite => 5 case Close => 4 case TouchDisarmed => 3 case DropReady => 2 case DropPid => 1 case _ => 0
  }

  lemma DownStep(s: State)
    requires Left(s.watch) > 0
    ensures var t := WatchNext(s, true, false);
            && Left(t.watch) == Left(s.watch) - 1 && (Left(t.watch) == 0 ==> t.watch.Gone?)
            && t.armed == (s.armed && !s.watch.Close?) && t.ready == (s.ready && !s.watch.DropReady?)
            && t == s.(watch := t.watch, pid := t.pid, ready := t.ready, disarmed := t.disarmed, armed := t.armed)
            && Next(s, WatchStep(true, false)) == t
  {
  }

  /** The watchdog alone finishes disarming and goes away. */
  lemma {:induction false} FinishDisarming(s0: State, begun: seq<Action>, s: State) returns (own: seq<Action>, after: State)
    requires Steps(s0, begun) == s && (Left(s.watch) > 0 || s.watch.Gone?) && (Left(s.watch) <= 1 ==> !s.ready)
    ensures Steps(s0, begun + own) == after && Alone(own)
    ensures after.watch.Gone? && !after.ready && after.armed == (s.armed && Left(s.watch) <= 3)
    ensures after.trial == s.trial && after.commit == s.commit && after.refused == s.refused && after.abandoned == s.abandoned && after.committed == s.committed
    decreases Left(s.watch)
  {
    hide Steps, Next, WatchNext;
    if s.watch.Gone? {
      own, after := [], s;
      assert begun + own == begun;
    } else {
      DownStep(s);
      var go := WatchStep(true, false);
      var actions, t := Then(s0, begun, s, go);
      var rest: seq<Action>;
      rest, after := FinishDisarming(s0, actions, t);
      own := [go] + rest;
      assert actions + rest == begun + own;
    }
  }

  lemma {:induction false} StaysArmed(s: State, own: seq<Action>)
    requires s.armed && !s.healthy && !Disarming(s) && Alone(own)
    ensures var after := Steps(s, own); after.armed && !after.healthy && !Disarming(after)
  {
    if own != [] {
      var n := |own| - 1;
      assert own[n].WatchStep?;
      StaysArmed(s, own[..n]);
    }
  }

  /**
   * However a commit ends on a trial it did not commit, short of a reboot: the watchdog left alone can strand the
   * trial exactly when it was past the healthy marker or the timer already off. After a refusal ("did not
   * disarm") both cases occur; once both records were refused the timer is always off.
   */
  lemma EndedCommitStrands(s: State, ok: bool, late: bool)
    requires Inv(s) && s.trial && !s.commit.Idle? && !(s.commit.Rollback? && ok)
    requires CommitNext(s, ok, late).commit.Idle? && !CommitNext(s, ok, late).committed
    ensures (exists own: seq<Action> :: Alone(own) && Stranded(Steps(CommitNext(s, ok, late), own)))
            <==> Disarming(s) || !s.armed
    ensures s.commit.Rollback? ==> !s.armed
  {
    var after := CommitNext(s, ok, late);
    assert after.watch == s.watch && after.armed == s.armed && after.trial && (after.healthy ==> after.disarmed);
    CommitKeepsInv(s, ok, late);
    hide Next, WatchNext, CommitNext;
    if Disarming(s) || !s.armed {
      var own, stuck := FinishDisarming(after, [], after);
      assert [] + own == own;
      assert Alone(own) && Stranded(Steps(after, own));
    } else {
      forall own: seq<Action> | Alone(own)
        ensures !Stranded(Steps(after, own))
      {
        StaysArmed(after, own);
      }
    }
  }

  /** A trial boot whose watchdog is up. */
  const SUPERVISED := Boot(true, false).(watch := CheckHealthy, pid := true, ready := true)

  lemma Supervise() returns (actions: seq<Action>)
    ensures Steps(Boot(true, false), actions) == SUPERVISED
  {
    var s0, w := Boot(true, false), WatchStep(true, false);
    var s := s0;
    actions := [];
    actions, s := Then(s0, actions, s, Launch);
    actions, s := Then(s0, actions, s, w);
    actions, s := Then(s0, actions, s, w);
    actions, s := Then(s0, actions, s, w);
    actions, s := Then(s0, actions, s, w);
  }

  lemma PollHealthy(s0: State, begun: seq<Action>) returns (actions: seq<Action>)
    requires Steps(s0, begun) == SUPERVISED
    ensures Steps(s0, actions) == POLLING
  {
    hide Steps;
    var c := CommitStep(true, false);
    var s := SUPERVISED;
    actions := begun;
    actions, s := Then(s0, actions, s, Call);
    actions, s := Then(s0, actions, s, c);
    actions, s := Then(s0, actions, s, c);
    actions, s := Then(s0, actions, s, c);
    assert s == SUPERVISED.(commit := Diagnose);
    actions, s := Then(s0, actions, s, c);
    actions, s := Then(s0, actions, s, c);
  }

  const POLLING := SUPERVISED.(commit := Poll, diagnosed := true, healthy := true)

  lemma TimeOut(s0: State, begun: seq<Action>) returns (actions: seq<Action>, s: State)
    requires Steps(s0, begun) == POLLING
    ensures Steps(s0, actions) == s == POLLING.(watch := MagicWrite, commit := Idle, healthy := false, refused := true)
  {
    hide Steps;
    s := POLLING;
    actions := begun;
    actions, s := Then(s0, actions, s, WatchStep(true, false));
    assert s == POLLING.(watch := MagicWrite);
    actions, s := Then(s0, actions, s, CommitStep(true, true));
    assert s == POLLING.(watch := MagicWrite, commit := Confirm);
    actions, s := Then(s0, actions, s, CommitStep(true, false));
    assert s == POLLING.(watch := MagicWrite, commit := DropHealthy);
    actions, s := Then(s0, actions, s, CommitStep(true, false));
  }

  /** A trial boot can be stranded: the watchdog sees the healthy marker, but commit times out before it disarms. */
  lemma StrandedIsReachable() returns (actions: seq<Action>, stuck: State)
    ensures Steps(Boot(true, false), actions) == stuck && Stranded(stuck) && stuck.refused
  {
    hide WatchNext, CommitNext;
    var s0 := Boot(true, false);
    actions := Supervise();
    actions := PollHealthy(s0, actions);
    var s: State;
    actions, s := TimeOut(s0, actions);
    var own: seq<Action>;
    own, stuck := FinishDisarming(s0, actions, s);
    actions := actions + own;
  }

  const DISARMED := POLLING.(watch := DropReady, disarmed := true, armed := false)

  lemma Disarm(s0: State, begun: seq<Action>) returns (actions: seq<Action>)
    requires Steps(s0, begun) == POLLING
    ensures Steps(s0, actions) == DISARMED
  {
    hide Steps;
    var s, w := POLLING, WatchStep(true, false);
    actions := begun;
    actions, s := Then(s0, actions, s, w);
    assert s == POLLING.(watch := MagicWrite);
    actions, s := Then(s0, actions, s, w);
    assert s == POLLING.(watch := Close);
    actions, s := Then(s0, actions, s, w);
    assert s == POLLING.(watch := TouchDisarmed, armed := false);
    actions, s := Then(s0, actions, s, w);
  }

  lemma BothRefused(s0: State, begun: seq<Action>) returns (actions: seq<Action>, s: State)
    requires Steps(s0, begun) == DISARMED
    ensures Steps(s0, actions) == s == DISARMED.(commit := Idle, abandoned := true)
  {
    hide Steps;
    s := DISARMED;
    var c, fails := CommitStep(true, false), CommitStep(false, false);
    actions := begun;
    actions, s := Then(s0, actions, s, c);
    assert s == DISARMED.(commit := Confirm);
    actions, s := Then(s0, actions, s, c);
    assert s == DISARMED.(commit := Settle);
    actions, s := Then(s0, actions, s, fails);
    assert s == DISARMED.(commit := Rollback);
    actions, s := Then(s0, actions, s, fails);
  }

  /** The other way there: the watchdog disarmed in time, but neither the commit nor its rollback could be stored. */
  lemma AbandonedIsReachable() returns (actions: seq<Action>, stuck: State)
    ensures Steps(Boot(true, false), actions) == stuck && Stranded(stuck) && stuck.abandoned
  {
    hide WatchNext, CommitNext;
    var s0 := Boot(true, false);
    actions := Supervise();
    actions := PollHealthy(s0, actions);
    var s: State;
    actions := Disarm(s0, actions);
    actions, s := BothRefused(s0, actions);
    var own: seq<Action>;
    own, stuck := FinishDisarming(s0, actions, s);
    actions := actions + own;
  }
}
