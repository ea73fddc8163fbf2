/** Asking a Riot Client for a launch: what its answers mean, and the wait that asks.

    Everything the wait learns comes from outside: the stop flag, the process table, the
    client's answers and the clock. One `Pass` holds what a turn of the wait meets, each
    clock read as an instant of its own, and the world is any sequence of passes whose
    instants are in order and whose sleeps are not cut short.
 */
module Launch {
  import opened Client

  /** Nanoseconds since the wait began. */
  type Instant = nat

  const SECOND := 1_000_000_000
  const BOOT_TIMEOUT := 120 * SECOND
  const POLL_INTERVAL := SECOND
  const REFUSAL_GRACE := 30 * SECOND
  const WAKE_COOLDOWN := 10 * SECOND
  const WAKE_ATTEMPTS := 3
  const U32 := 0x1_0000_0000

  datatype LaunchRoute = ExistingClient | ColdStart | AlreadyRunning | Adopted

  datatype LaunchOutcome = LaunchOutcome(route: LaunchRoute, riotClientPid: Option<nat>, sessionId: Option<string>)

  /** Why a client counts as unreachable. */
  datatype Reason =
    | DidNotFinishStarting
    | NeverTookTheRequest
    | NeverLeftTheTray
    | NeverBecameReady
    | UnexplainedRefusal
    | NoConnection

  datatype LauncherError =
    | RiotClientNotFound
    | RiotClientUnreachable(reason: Reason)
    | Refused(code: string, message: string)
    | Stopped
    | SpawnFailed
    | UnsupportedPlatform

  datatype LaunchResult = Launched(outcome: LaunchOutcome) | Failed(error: LauncherError)

  datatype Stage =
    | Resolving | HandingOff | ColdStarting | WakingClient | WaitingForClient
    | LaunchedStage | AlreadyRunningStage | StoppedStage | ErrorStage

  datatype Progress = Progress(stage: Stage, waitedSecs: nat, timeoutSecs: nat)

  function At(stage: Stage): Progress {
    Progress(stage, 0, 0)
  }

  /** `as_secs() as u32`. */
  function Secs(t: Instant): nat {
    (t / SECOND) % U32
  }

  /** The flag that calls a launch off. Its clones are one object, and nothing clears it. */
  class StopFlag {
    var stopped: bool

    constructor ()
      ensures !IsStopped()
    {
      stopped := false;
    }

    predicate IsStopped()
      reads this
    {
      stopped
    }

    method Stop()
      modifies this
      ensures IsStopped()
    {
      stopped := true;
    }
  }

  // ---- What answers mean -------------------------------------------------

  datatype Readiness = Serving(launchPending: bool) | Idle | NotYet

  function ReadinessOf(response: Response): (r: Readiness)
    ensures r.Serving? ==> (r.launchPending <==> response.body == Bool(true))
    ensures r.Idle? ==> response.status == 404
    ensures r.NotYet? <==>
      500 <= response.status < 600
      || (response.status == 404 && response.body.RiotError? && response.body.code == "RPC_ERROR")
  {
    match PresenceOf(response)
    case Serving =>
      if response.IsServerError() then NotYet
      else Readiness.Serving(response.body == Bool(true))
    case Absent => Idle
    case Registered => NotYet
  }

  function ReadinessFrom(probe: Outcome): (r: Readiness)
    ensures probe.Err? ==> r.NotYet?
  {
    match probe case Ok(response) => ReadinessOf(response) case Err(_) => NotYet
  }

  /** A launch request: done, unanswered, or turned down - with Riot's own error or not. */
  datatype Attempt = Done(sessionId: Option<string>) | NoAnswer | TurnedDown(error: LauncherError)

  function Refusal(response: Response): LauncherError {
    match response.body
    case RiotError(code, prose) => Refused(code, prose)
    case _ => RiotClientUnreachable(UnexplainedRefusal)
  }

  function AttemptOf(post: Outcome): (a: Attempt)
    ensures a.Done? <==> post.Ok? && 200 <= post.response.status < 300
    ensures a.NoAnswer? <==>
      post.Err? || 500 <= post.response.status < 600
      || (post.response.status == 404 && post.response.body.RiotError? && post.response.body.code == "RPC_ERROR")
    ensures a.TurnedDown? && post.response.body.RiotError? ==>
      a.error == Refused(post.response.body.code, post.response.body.prose)
    ensures a.TurnedDown? && !post.response.body.RiotError? ==> a.error == RiotClientUnreachable(UnexplainedRefusal)
  {
    match post
    case Err(_) => NoAnswer
    case Ok(response) =>
      if response.status == NOT_FOUND && PresenceOf(response) == Presence.Registered then NoAnswer
      else if response.IsServerError() then NoAnswer
      else if !response.IsSuccess() then TurnedDown(Refusal(response))
      else Done(match response.body case Text(id) => Some(id) case _ => None)
  }

  // ---- One pass ----------------------------------------------------------

  datatype Pass = Pass(
    start: Instant, stopped: bool,         // the stop flag, first thing
    gameUp: bool,                          // the process check
    openSession: Option<string>,           // the session the client has open, if asked
    probe: Outcome,
    livePid: Option<nat>,                  // the lockfile just before a launch request
    postAt: Instant, post: Outcome,
    sinceAt: Instant, graceAt: Instant,    // the clock at a refusal: its start, its age
    coolAt: Instant, wakeAt: Instant,      // the clock at an idle client: cooldown, wake
    wakes: seq<Outcome>,
    checkAt: Instant,                      // the deadline check that ends the pass
    waitAt: Instant,                       // the clock as the wait is reported
    end: Instant)                          // the end of the sleep
  {
    predicate OnTime() {
      && start <= postAt <= sinceAt <= graceAt <= checkAt
      && start <= coolAt <= wakeAt <= checkAt
      && checkAt <= waitAt && waitAt + POLL_INTERVAL <= end
      && |wakes| == WAKE_ATTEMPTS
    }
  }

  /** The wait's variables between passes. */
  datatype Loop = Loop(lastReason: Reason, refusedSince: Option<Instant>, lastWake: Option<Instant>)

  const BEGIN := Loop(DidNotFinishStarting, None, None)

  datatype Context = Context(route: LaunchRoute, pid: nat)

  predicate Asks(p: Pass) {
    !p.stopped && !p.gameUp
  }

  /** The pass sends a launch request. */
  predicate Posts(p: Pass) {
    Asks(p) && ReadinessFrom(p.probe) == Readiness.Serving(false)
  }

  predicate IsRefused(p: Pass) {
    Posts(p) && AttemptOf(p.post).TurnedDown? && AttemptOf(p.post).error.Refused?
  }

  /** The pass wakes the client. */
  predicate Wakes(l: Loop, p: Pass) {
    Asks(p) && ReadinessFrom(p.probe).Idle?
    && (l.lastWake.None? || p.coolAt - l.lastWake.value >= WAKE_COOLDOWN)
  }

  function Since(l: Loop, p: Pass): Instant {
    match l.refusedSince case Some(since) => since case None => p.sinceAt
  }

  function NextLoop(l: Loop, p: Pass): Loop {
    Loop(
      if !Asks(p) then l.lastReason
      else
        (match ReadinessFrom(p.probe)
         case Serving(true) => l.lastReason
         case Serving(false) => if AttemptOf(p.post).NoAnswer? then NeverTookTheRequest else l.lastReason
         case Idle => NeverLeftTheTray
         case NotYet => NeverBecameReady),
      if IsRefused(p) then Some(Since(l, p)) else l.refusedSince,
      if Wakes(l, p) then Some(p.wakeAt) else l.lastWake)
  }

  /** How the pass ends the wait, if it does. */
  function PassResult(c: Context, l: Loop, p: Pass): Option<LaunchResult> {
    if p.stopped then Some(Failed(Stopped))
    else if p.gameUp then Some(Launched(LaunchOutcome(c.route, Some(c.pid), p.openSession)))
    else
      var deadline :=
        if p.checkAt >= BOOT_TIMEOUT then Some(Failed(RiotClientUnreachable(NextLoop(l, p).lastReason))) else None;
      if ReadinessFrom(p.probe) != Readiness.Serving(false) then deadline
      else
        match AttemptOf(p.post)
        case Done(id) =>
          var pid := match p.livePid case Some(pid) => pid case None => c.pid;
          Some(Launched(LaunchOutcome(c.route, Some(pid), id)))
        case NoAnswer => deadline
        case TurnedDown(Refused(code, message)) =>
          if p.graceAt - Since(l, p) >= REFUSAL_GRACE then Some(Failed(Refused(code, message))) else deadline
        case TurnedDown(error) => Some(Failed(error))
  }

  function PassProgress(c: Context, l: Loop, p: Pass): seq<Progress> {
    (if Wakes(l, p) then [At(WakingClient)] else [])
    + (if PassResult(c, l, p).None? then [Progress(WaitingForClient, Secs(p.waitAt), 120)] else [])
  }

  /** What a pass sends that could start a game: wakes, by their arguments, and launches. */
  datatype Request = NewArgs(args: seq<string>) | LaunchPost

  /** How many requests a wake takes: up to the first 204, or all of them. */
  function WakeRequests(replies: seq<Outcome>): (n: nat)
    ensures n <= |replies| && (replies != [] ==> n > 0)
  {
    if replies == [] then 0
    else if IsNoContent(replies[0]) then 1
    else 1 + WakeRequests(replies[1..])
  }

  predicate IsNoContent(reply: Outcome) {
    reply.Ok? && reply.response.status == NO_CONTENT
  }

  /** A wake ends with the first 204, and goes through all its tries without one. */
  lemma {:induction false} WakeEndsAtNoContent(replies: seq<Outcome>)
    ensures forall i | 0 <= i < WakeRequests(replies) - 1 :: !IsNoContent(replies[i])
    ensures WakeRequests(replies) < |replies| ==> IsNoContent(replies[WakeRequests(replies) - 1])
  {
    if replies != [] && !IsNoContent(replies[0]) {
      WakeEndsAtNoContent(replies[1..]);
      assert forall i | 0 < i < |replies| :: replies[i] == replies[1..][i - 1];
    }
  }

  function PassRequests(l: Loop, p: Pass): seq<Request> {
    if Posts(p) then [LaunchPost]
    else if Wakes(l, p) then seq(WakeRequests(p.wakes), _ => NewArgs([]))
    else []
  }

  // ---- Runs --------------------------------------------------------------

  function After(passes: seq<Pass>): Loop {
    if passes == [] then BEGIN else NextLoop(After(passes[..|passes| - 1]), passes[|passes| - 1])
  }

  function ProgressOf(c: Context, passes: seq<Pass>): seq<Progress> {
    if passes == [] then []
    else
      var front := passes[..|passes| - 1];
      ProgressOf(c, front) + PassProgress(c, After(front), passes[|passes| - 1])
  }

  function RequestsOf(passes: seq<Pass>): seq<Request> {
    if passes == [] then []
    else
      var front := passes[..|passes| - 1];
      RequestsOf(front) + PassRequests(After(front), passes[|passes| - 1])
  }

  predicate GoesOn(c: Context, passes: seq<Pass>, i: nat)
    requires i < |passes|
  {
    PassResult(c, After(passes[..i]), passes[i]).None?
  }

  /** Passes in order of time, none but the last ending the wait. */
  ghost predicate Begins(c: Context, passes: seq<Pass>) {
    && (forall i | 0 <= i < |passes| :: passes[i].OnTime())
    && (forall i | 0 < i < |passes| :: passes[i - 1].end <= passes[i].start)
    && (forall i | 0 <= i < |passes| - 1 :: GoesOn(c, passes, i))
  }

  /** None of them ends the wait. */
  predicate AllGoOn(c: Context, passes: seq<Pass>) {
    forall i | 0 <= i < |passes| :: GoesOn(c, passes, i)
  }

  /** A whole wait. */
  ghost predicate IsRun(c: Context, passes: seq<Pass>) {
    passes != [] && Begins(c, passes) && !GoesOn(c, passes, |passes| - 1)
  }

  function ResultOf(c: Context, passes: seq<Pass>): LaunchResult
    requires passes != [] && !GoesOn(c, passes, |passes| - 1)
  {
    PassResult(c, After(passes[..|passes| - 1]), passes[|passes| - 1]).value
  }

  // ---- The code ----------------------------------------------------------

  /** `wake`: an empty argv, up to three times. */
  method Wake(replies: seq<Outcome>) returns (woken: bool, sent: seq<Request>)
    requires |replies| == WAKE_ATTEMPTS
    ensures sent == seq(WakeRequests(replies), _ => NewArgs([]))
    ensures woken <==> exists i :: 0 <= i < |replies| && IsNoContent(replies[i])
  {
    sent := [];
    for attempt := 0 to WAKE_ATTEMPTS
      invariant |sent| == attempt && sent == seq(attempt, _ => NewArgs([]))
      invariant WakeRequests(replies) == attempt + WakeRequests(replies[attempt..])
      invariant forall i | 0 <= i < attempt :: !IsNoContent(replies[i])
    {
      assert replies[attempt..][1..] == replies[attempt + 1..];
      sent := sent + [NewArgs([])];
      if replies[attempt].Ok? && replies[attempt].response.status == NO_CONTENT {
        return true, sent;
      }
    }
    return false, sent;
  }

  /** One turn of the loop of `wait_for_launcher`: its variables before and after, what
      it reported and sent, and how it ended the wait if it did. */
  method WaitOnce(c: Context, p: Pass, lastReason: Reason, refusedSince: Option<Instant>, lastWake: Option<Instant>)
    returns (done: Option<LaunchResult>, reason: Reason, since: Option<Instant>, wake: Option<Instant>,
             progress: seq<Progress>, sent: seq<Request>)
    requires p.OnTime()
    ensures var l := Loop(lastReason, refusedSince, lastWake);
      && done == PassResult(c, l, p)
      && Loop(reason, since, wake) == NextLoop(l, p)
      && progress == PassProgress(c, l, p) && sent == PassRequests(l, p)
  {
    reason, since, wake, progress, sent := lastReason, refusedSince, lastWake, [], [];
    if p.stopped {
      return Some(Failed(Stopped)), reason, since, wake, progress, sent;
    }
    if p.gameUp {
      done := Some(Launched(LaunchOutcome(c.route, Some(c.pid), p.openSession)));
      return;
    }
    match ReadinessFrom(p.probe) {
      case Serving(false) =>
        var pid := match p.livePid case Some(pid) => pid case None => c.pid;
        sent := [LaunchPost];
        match AttemptOf(p.post) {
          case Done(id) =>
            done := Some(Launched(LaunchOutcome(c.route, Some(pid), id)));
            return;
          case NoAnswer =>
            reason := NeverTookTheRequest;
          case TurnedDown(error) =>
            if error.Refused? {
              if since.None? {
                since := Some(p.sinceAt);
              }
              if p.graceAt - since.value >= REFUSAL_GRACE {
                return Some(Failed(error)), reason, since, wake, progress, sent;
              }
            } else {
              return Some(Failed(error)), reason, since, wake, progress, sent;
            }
        }
      case Serving(true) =>
      case Idle =>
        if wake.None? || p.coolAt - wake.value >= WAKE_COOLDOWN {
          progress := [At(WakingClient)];
          wake := Some(p.wakeAt);
          var woken;
          woken, sent := Wake(p.wakes);
        }
        reason := NeverLeftTheTray;
      case NotYet =>
        reason := NeverBecameReady;
    }
    if p.checkAt >= BOOT_TIMEOUT {
      return Some(Failed(RiotClientUnreachable(reason))), reason, since, wake, progress, sent;
    }
    progress := progress + [Progress(WaitingForClient, Secs(p.waitAt), 120)];
    done := None;
  }

  lemma NothingMet(c: Context, world: nat -> Pass)
    ensures Met(world, 0) == [] && After([]) == BEGIN
    ensures ProgressOf(c, []) == [] && RequestsOf([]) == [] && Begins(c, []) && AllGoOn(c, [])
  {
  }

  lemma PrefixGoesOn(c: Context, a: seq<Pass>, b: seq<Pass>, i: nat)
    requires i < |a| && a <= b
    ensures GoesOn(c, a, i) == GoesOn(c, b, i)
  {
    assert a[..i] == b[..i];
  }

  lemma OneMoreMet(c: Context, world: nat -> Pass, n: nat)
    requires IsWorld(world)
    requires Begins(c, Met(world, n)) && AllGoOn(c, Met(world, n))
    ensures var l := After(Met(world, n));
      && Begins(c, Met(world, n + 1))
      && After(Met(world, n + 1)) == NextLoop(l, world(n))
      && ProgressOf(c, Met(world, n + 1)) == ProgressOf(c, Met(world, n)) + PassProgress(c, l, world(n))
      && RequestsOf(Met(world, n + 1)) == RequestsOf(Met(world, n)) + PassRequests(l, world(n))
      && (PassResult(c, l, world(n)).None? ==> AllGoOn(c, Met(world, n + 1)))
      && (PassResult(c, l, world(n)).Some? ==>
          IsRun(c, Met(world, n + 1)) && Some(ResultOf(c, Met(world, n + 1))) == PassResult(c, l, world(n)))
  {
    hide PassResult, NextLoop, PassProgress, PassRequests;
    var a, b := Met(world, n), Met(world, n + 1);
    assert b[..n] == a;
    forall i | 0 <= i < n ensures GoesOn(c, b, i) {
      PrefixGoesOn(c, a, b, i);
    }
    forall i | 0 < i < n + 1 ensures b[i - 1].end <= b[i].start {
      assert world(i - 1).end <= world((i - 1) + 1).start;
    }
  }

  /** A pass that goes on came before the deadline, and the next starts a sleep later. */
  lemma PassTakesASleep(c: Context, l: Loop, p: Pass)
    requires p.OnTime() && PassResult(c, l, p).None?
    ensures p.start <= p.checkAt < BOOT_TIMEOUT && p.end >= p.start + POLL_INTERVAL
  {
  }

  /** The world: what each pass would meet. */
  ghost predicate IsWorld(world: nat -> Pass) {
    && (forall i: nat :: world(i).OnTime())
    && (forall i: nat :: world(i).end <= world(i + 1).start)
  }

  /** The first `n` passes of it. */
  function Met(world: nat -> Pass, n: nat): (passes: seq<Pass>)
    ensures |passes| == n && forall i: nat | i < n :: passes[i] == world(i)
  {
    seq(n, i requires 0 <= i => world(i))
  }

  lemma WorldIsOnTime(world: nat -> Pass, n: nat)
    requires IsWorld(world)
    ensures world(n).OnTime() && world(n).end <= world(n + 1).start
  {
  }

  /** `wait_for_launcher`. In every world it ends, having met a run of passes. */
  method WaitForLauncher(c: Context, world: nat -> Pass)
    returns (result: LaunchResult, progress: seq<Progress>, sent: seq<Request>, n: nat)
    requires IsWorld(world)
    ensures IsRun(c, Met(world, n))
    ensures result == ResultOf(c, Met(world, n))
    ensures progress == ProgressOf(c, Met(world, n))
    ensures sent == RequestsOf(Met(world, n))
  {
    hide IsWorld, Met, Begins, AllGoOn, GoesOn, IsRun, After, ProgressOf, RequestsOf;
    hide PassResult, NextLoop, PassProgress, PassRequests, Pass.OnTime;
    NothingMet(c, world);
    var lastReason := DidNotFinishStarting;
    var refusedSince: Option<Instant> := None;
    var lastWake: Option<Instant> := None;
    progress, sent, n := [], [], 0;
    while true
      invariant Begins(c, Met(world, n))
      invariant AllGoOn(c, Met(world, n))
      invariant Loop(lastReason, refusedSince, lastWake) == After(Met(world, n))
      invariant progress == ProgressOf(c, Met(world, n)) && sent == RequestsOf(Met(world, n))
      decreases BOOT_TIMEOUT - world(n).start
    {
      var p := world(n);
      WorldIsOnTime(world, n);
      var done, reported, requests: seq<Request>;
      done, lastReason, refusedSince, lastWake, reported, requests :=
        WaitOnce(c, p, lastReason, refusedSince, lastWake);
      OneMoreMet(c, world, n);
      if done.None? {
        PassTakesASleep(c, After(Met(world, n)), p);
      }
      progress, sent, n := progress + reported, sent + requests, n + 1;
      if done.Some? {
        return done.value, progress, sent, n;
      }
    }
  }
}
