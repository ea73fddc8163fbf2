/** The thread that keeps the Riot Client hidden for one play session, step by step,
    beside a caller that may call `stop` between any two of its steps.

    Each read of the flag, the clock or the process table is a step of its own. Time
    passes by any amount between steps, and a sleep ends no earlier than it should.
 */
module Hider {

  // Milliseconds.
  const GAME_WAIT_TIMEOUT := 300_000
  const POLL_INTERVAL := 2_000
  const SESSION_POLL_INTERVAL := 5_000
  const REHIDE_WINDOW := 10_000

  /** Where the thread is. */
  datatype Pc =
    | Starting                                     // building its client
    | WaitTop | WaitSleep | WaitFlag | WaitGame    // waiting for the game
    | FirstHide
    | PlayGame | PlayFlag | PlaySleep              // while the game runs
    | RehideStart | RehideTop | RehideFlag | RehideSleep | Rehide
    | Closing
    | Finished                                     // ran to its end
    | GaveUp                                       // returned early
  {
    predicate IsOver() { Finished? || GaveUp? }
  }

  datatype State = State(
    pc: Pc,
    now: nat,
    wakeAt: nat,      // when the current sleep is due
    limit: nat,       // the deadline of the loop the thread is in
    stopped: bool,    // the flag both sides share
    stopCalled: bool, // whether the caller called `stop`
    sawGame: bool,    // whether a poll saw the game
    hides: nat,       // hides issued
    lateHides: nat)   // hides issued after `stop` was called

  ghost predicate Init(s: State) {
    s == State(Starting, s.now, s.now, s.now, false, false, false, 0, 0)
  }

  function Hide(s: State): State {
    s.(hides := s.hides + 1, lateHides := if s.stopCalled then s.lateHides + 1 else s.lateHides)
  }

  /** The thread's own steps. */
  ghost predicate ThreadStep(s: State, t: State) {
    match s.pc
    case Starting =>
      t == s.(pc := GaveUp) || t == s.(pc := WaitTop, limit := s.now + GAME_WAIT_TIMEOUT)
    case WaitTop =>
      t == if s.now < s.limit then s.(pc := WaitSleep, wakeAt := s.now + POLL_INTERVAL) else s.(pc := GaveUp)
    case WaitSleep => s.wakeAt <= s.now && t == s.(pc := WaitFlag)
    case WaitFlag => t == s.(pc := if s.stopped then GaveUp else WaitGame)
    case WaitGame => t == s.(pc := WaitTop) || t == s.(pc := FirstHide, sawGame := true)
    case FirstHide => t == Hide(s).(pc := PlayGame)
    case PlayGame => t == s.(pc := PlayFlag) || t == s.(pc := RehideStart)
    case PlayFlag =>
      t == if s.stopped then s.(pc := RehideStart)
           else s.(pc := PlaySleep, wakeAt := s.now + SESSION_POLL_INTERVAL)
    case PlaySleep => s.wakeAt <= s.now && t == s.(pc := PlayGame)
    case RehideStart => t == s.(pc := RehideTop, limit := s.now + REHIDE_WINDOW)
    case RehideTop => t == s.(pc := if s.now < s.limit then RehideFlag else Closing)
    case RehideFlag =>
      t == if s.stopped then s.(pc := Closing) else s.(pc := RehideSleep, wakeAt := s.now + POLL_INTERVAL)
    case RehideSleep => s.wakeAt <= s.now && t == s.(pc := Rehide)
    case Rehide => t == Hide(s).(pc := RehideTop)
    case Closing => t == s.(pc := Finished, stopped := true)
    case Finished => false
    case GaveUp => false
  }

  ghost predicate StopStep(s: State, t: State) {
    t == s.(stopped := true, stopCalled := true)
  }

  ghost predicate TimeStep(s: State, t: State) {
    s.now <= t.now && t == s.(now := t.now)
  }

  ghost predicate Next(s: State, t: State) {
    ThreadStep(s, t) || StopStep(s, t) || TimeStep(s, t)
  }

  ghost predicate IsRun(run: seq<State>) {
    && run != [] && Init(run[0])
    && forall i | 0 < i < |run| :: Next(run[i - 1], run[i])
  }

  // ---- The invariant -----------------------------------------------------

  predicate BeforeFirstHide(pc: Pc) {
    pc.Starting? || pc.WaitTop? || pc.WaitSleep? || pc.WaitFlag? || pc.WaitGame? || pc.FirstHide?
  }

  // The thread has not seen the game, and if it is over will not.
  predicate BeforeSight(pc: Pc) {
    pc.Starting? || pc.WaitTop? || pc.WaitSleep? || pc.WaitFlag? || pc.WaitGame? || pc.GaveUp?
  }

  predicate Rehiding(pc: Pc) {
    pc.RehideTop? || pc.RehideFlag? || pc.RehideSleep? || pc.Rehide?
  }

  // A hide is on its way, and none has come after a stop.
  predicate AboutToHide(pc: Pc) {
    BeforeFirstHide(pc) || pc.RehideSleep? || pc.Rehide?
  }

  // When the re-hiding began.
  function RehideBegan(s: State): int {
    s.limit - REHIDE_WINDOW
  }

  ghost predicate Inv(s: State) {
    && (s.stopCalled ==> s.stopped)
    && (s.stopped && !s.stopCalled ==> s.pc.Finished?)
    && (s.pc.Finished? ==> s.stopped)
    // Hiding waits for the game.
    && (s.hides > 0 ==> s.sawGame)
    && (s.sawGame <==> !BeforeSight(s.pc))
    && (BeforeFirstHide(s.pc) ==> s.hides == 0)
    && (!BeforeFirstHide(s.pc) && !s.pc.GaveUp? ==> s.hides >= 1)
    && (s.pc.GaveUp? ==> s.hides == 0)
    // At most one hide is late.
    && s.lateHides <= 1
    && (!s.stopCalled || AboutToHide(s.pc) ==> s.lateHides == 0)
    // Re-hiding is paced by its sleeps, inside its window.
    && (s.pc.PlayGame? || s.pc.PlayFlag? || s.pc.PlaySleep? || s.pc.RehideStart? ==> s.hides == 1)
    && (Rehiding(s.pc) ==> RehideBegan(s) + (s.hides - 1) * POLL_INTERVAL <= s.now)
    && (s.pc.RehideFlag? || s.pc.RehideSleep? || s.pc.Rehide? ==> s.hides <= 5)
    && (s.pc.RehideSleep? ==> RehideBegan(s) + s.hides * POLL_INTERVAL <= s.wakeAt)
    && (s.pc.Rehide? ==> RehideBegan(s) + s.hides * POLL_INTERVAL <= s.now)
    && s.hides <= 6
  }

  lemma InvHolds(s: State, t: State)
    requires Inv(s) && Next(s, t)
    ensures Inv(t)
  {
  }

  lemma {:induction false} RunsKeepInv(run: seq<State>, i: nat)
    requires IsRun(run) && i < |run|
    ensures Inv(run[i])
  {
    if i > 0 {
      RunsKeepInv(run, i - 1);
      InvHolds(run[i - 1], run[i]);
    }
  }

  // ---- Main results ------------------------------------------------------

  /** In every run, whenever it is looked at: nothing is hidden before a poll saw the
      game, at most one hide follows a `stop`, there are at most six in all, and a thread
      that ran to its end has hidden at least once. */
  lemma HidingIsSafe(run: seq<State>, i: nat)
    requires IsRun(run) && i < |run|
    ensures run[i].hides > 0 ==> exists k :: 0 <= k <= i && SeesGame(run, k)
    ensures run[i].lateHides <= 1
    ensures run[i].hides <= 6
    ensures run[i].pc.Finished? ==> run[i].hides >= 1
  {
    RunsKeepInv(run, i);
    if run[i].hides > 0 { GameWasSeen(run, i); }
  }

  lemma {:induction false} WaitsOutItsDeadline(run: seq<State>, i: nat)
    requires IsRun(run) && i < |run|
    ensures run[0].now <= run[i].now
    ensures BeforeFirstHide(run[i].pc) && !run[i].pc.Starting? ==> run[i].limit >= run[0].now + GAME_WAIT_TIMEOUT
  {
    if i > 0 { WaitsOutItsDeadline(run, i - 1); }
  }

  /** A thread that started its wait and was not stopped gives up only when five minutes have
      passed. */
  lemma GivesUpAfterFiveMinutes(run: seq<State>, i: nat)
    requires IsRun(run) && 0 < i < |run| && run[i].pc.GaveUp? && !run[i - 1].pc.GaveUp?
    requires !run[i - 1].pc.Starting? && !run[i - 1].stopCalled
    ensures run[i].now >= run[0].now + GAME_WAIT_TIMEOUT
  {
    RunsKeepInv(run, i - 1);
    WaitsOutItsDeadline(run, i - 1);
  }

  /** A step of the run in which the thread's look at the process table finds the game. */
  ghost predicate SeesGame(run: seq<State>, k: int) {
    0 < k < |run| && run[k - 1].pc.WaitGame? && run[k].pc.FirstHide? && run[k - 1].hides == 0
  }

  lemma {:induction false} GameWasSeen(run: seq<State>, i: nat)
    requires IsRun(run) && i < |run| && run[i].sawGame
    ensures exists k :: 0 <= k <= i && SeesGame(run, k)
  {
    if i > 0 && run[i - 1].sawGame {
      GameWasSeen(run, i - 1);
    } else if i > 0 {
      RunsKeepInv(run, i - 1);
      assert SeesGame(run, i);
    }
  }

  /** A `stop` the thread can still read ends it: from the moment of the call, no further
      look at the flag lets it wait or sleep again. */
  lemma StopIsHeeded(run: seq<State>, i: nat)
    requires IsRun(run) && 0 < i < |run| && run[i - 1].stopCalled
    ensures run[i].pc != run[i - 1].pc ==>
      !run[i].pc.WaitGame? && !run[i].pc.PlaySleep? && !run[i].pc.RehideSleep?
  {
    hide ThreadStep;
    RunsKeepInv(run, i - 1);
    StoppedStep(run[i - 1], run[i]);
  }

  lemma StoppedStep(s: State, t: State)
    requires s.stopped && Next(s, t)
    ensures t.pc != s.pc ==> !t.pc.WaitGame? && !t.pc.PlaySleep? && !t.pc.RehideSleep?
  {
  }

  lemma {:induction false} SightStays(run: seq<State>, k: nat, i: nat)
    requires IsRun(run) && k <= i < |run| && SeesGame(run, k)
    ensures run[i].sawGame
    decreases i
  {
    if k < i {
      SightStays(run, k, i - 1);
      SawStays(run[i - 1], run[i]);
    } else {
      RunsKeepInv(run, i);
    }
  }

  lemma SawStays(s: State, t: State)
    requires Next(s, t) && s.sawGame
    ensures t.sawGame
  {
  }

  /** Once the thread is over, the watch reports it if and only if a poll saw the game or the
      caller called `stop`: a thread that could not start, or whose game did not, returns
      early and leaves the flag as it was. */
  lemma OverIsReported(run: seq<State>, i: nat)
    requires IsRun(run) && i < |run| && run[i].pc.IsOver()
    ensures run[i].stopped <==> (exists k :: 0 <= k <= i && SeesGame(run, k)) || run[i].stopCalled
  {
    hide Next;
    RunsKeepInv(run, i);
    if run[i].sawGame { GameWasSeen(run, i); }
    if k :| 0 <= k <= i && SeesGame(run, k) {
      SightStays(run, k, i);
    }
  }

  /** So there is a run whose thread is over and whose watch still says it is watching. */
  lemma EarlyReturnGoesUnreported() returns (run: seq<State>)
    ensures IsRun(run) && run[|run| - 1].pc.IsOver() && !run[|run| - 1].stopped
  {
    var s := State(Starting, 0, 0, 0, false, false, false, 0, 0);
    run := [s, s.(pc := GaveUp)];
  }

  /** The six hides can all happen: one when the game is seen, and one after each of five
      sleeps that end on time. */
  lemma SixHidesCanHappen() returns (run: seq<State>)
    ensures IsRun(run) && run[|run| - 1].hides == 6
  {
    var s := State(Starting, 0, 0, 0, false, false, false, 0, 0);
    var top := s.(pc := WaitTop, limit := GAME_WAIT_TIMEOUT);
    var sleep := top.(pc := WaitSleep, wakeAt := POLL_INTERVAL);
    var woken := sleep.(now := POLL_INTERVAL);
    var flag := woken.(pc := WaitFlag);
    var game := flag.(pc := WaitGame);
    var seen := game.(pc := FirstHide, sawGame := true);
    var hidden := Hide(seen).(pc := PlayGame);
    var gone := hidden.(pc := RehideStart);
    var rehiding := gone.(pc := RehideTop, limit := POLL_INTERVAL + REHIDE_WINDOW);
    run := [s, top, sleep, woken, flag, game, seen, hidden, gone, rehiding];
    var at := rehiding;
    for n := 0 to 5
      invariant IsRun(run) && run[|run| - 1] == at
      invariant at == State(RehideTop, (n + 1) * POLL_INTERVAL, at.wakeAt, POLL_INTERVAL + REHIDE_WINDOW,
                            false, false, true, n + 1, 0)
    {
      var a := at.(pc := RehideFlag);
      var b := a.(pc := RehideSleep, wakeAt := a.now + POLL_INTERVAL);
      var c := b.(now := b.wakeAt);
      var d := c.(pc := Rehide);
      at := Hide(d).(pc := RehideTop);
      run := run + [a] + [b] + [c] + [d] + [at];
    }
  }
}
