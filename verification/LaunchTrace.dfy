/** A whole launch: which way it is delivered, and what its observer is told, from the
    first stage to the last.
 */
module LaunchTrace {
  import opened Client
  import opened Launch
  import opened LaunchRuns

  const I32_MAX := 0x7fff_ffff

  /** What a launch meets before it waits. */
  datatype Start = Start(
    stopped: bool,                  // the stop flag, before anything else
    windows: bool,
    gamePid: Option<nat>,           // the game, if it is up already
    lockfile: Option<nat>,          // the live client's pid
    openSession: Option<string>,    // the session the client has open, if asked
    connects: bool,                 // a connection can be set up
    adopted: Outcome,               // the answer to an adoption
    clientFound: bool,              // an installed client resolves
    spawned: Option<nat>)           // the pid of a cold start

  // ---- The code ----------------------------------------------------------

  method Adopt(s: Start, gamePid: nat) returns (session: Option<string>)
    ensures session == Adoption(s, gamePid)
  {
    if gamePid > I32_MAX {
      return None;
    }
    if !s.connects {
      return None;
    }
    if s.adopted.Err? || !s.adopted.response.IsSuccess() {
      return None;
    }
    session := if s.adopted.response.body.Text? then Some(s.adopted.response.body.text) else None;
  }

  method ReportRunning(s: Start, gamePid: nat) returns (outcome: LaunchOutcome)
    ensures outcome.riotClientPid == s.lockfile
    ensures outcome.route == AlreadyRunning || outcome.route == Adopted
    ensures outcome.route == Adopted <==> s.openSession.None? && Adoption(s, gamePid).Some?
    ensures outcome.sessionId == if s.openSession.Some? then s.openSession else Adoption(s, gamePid)
  {
    if s.openSession.Some? {
      return LaunchOutcome(AlreadyRunning, s.lockfile, s.openSession);
    }
    var session := Adopt(s, gamePid);
    match session {
      case Some(_) => outcome := LaunchOutcome(Adopted, s.lockfile, session);
      case None => outcome := LaunchOutcome(AlreadyRunning, s.lockfile, None);
    }
  }

  method HandOff(s: Start, pid: nat, world: nat -> Pass)
    returns (result: LaunchResult, progress: seq<Progress>, sent: seq<Request>, n: nat)
    requires IsWorld(world)
    ensures var c := Context(ExistingClient, pid);
      if s.connects then Waited(c, [At(HandingOff)], world, result, progress, sent, n)
      else result == Failed(RiotClientUnreachable(NoConnection)) && progress == [] && sent == []
  {
    if !s.connects {
      return Failed(RiotClientUnreachable(NoConnection)), [], [], 0;
    }
    progress := [At(HandingOff)];
    var told;
    result, told, sent, n := WaitForLauncher(Context(ExistingClient, pid), world);
    progress := progress + told;
  }

  method ColdStart(s: Start, world: nat -> Pass)
    returns (result: LaunchResult, progress: seq<Progress>, sent: seq<Request>, n: nat)
    requires IsWorld(world)
    ensures s.spawned.Some? && s.connects ==>
      Waited(Context(LaunchRoute.ColdStart, s.spawned.value), [At(ColdStarting)], world, result, progress, sent, n)
    ensures s.spawned.None? || !s.connects ==>
      && progress == [At(ColdStarting)] && sent == []
      && result == Failed(if s.spawned.None? then SpawnFailed else RiotClientUnreachable(NoConnection))
  {
    progress, sent, n := [At(ColdStarting)], [], 0;
    if s.spawned.None? {
      return Failed(SpawnFailed), progress, sent, n;
    }
    if !s.connects {
      return Failed(RiotClientUnreachable(NoConnection)), progress, sent, n;
    }
    var told;
    result, told, sent, n := WaitForLauncher(Context(LaunchRoute.ColdStart, s.spawned.value), world);
    progress := progress + told;
  }

  method LaunchInner(s: Start, world: nat -> Pass)
    returns (result: LaunchResult, progress: seq<Progress>, sent: seq<Request>, n: nat)
    requires !s.stopped && IsWorld(world)
    ensures Delivered(s, world, result, progress, sent, n)
  {
    hide Waited, Adoption;
    assert [At(Resolving)] + [At(HandingOff)] == [At(Resolving), At(HandingOff)];
    assert [At(Resolving)] + [At(ColdStarting)] == [At(Resolving), At(ColdStarting)];
    progress, sent, n := [], [], 0;
    if !s.windows {
      return Failed(UnsupportedPlatform), progress, sent, n;
    }
    progress := [At(Resolving)];
    if s.gamePid.Some? {
      var outcome := ReportRunning(s, s.gamePid.value);
      return Launched(outcome), progress, sent, n;
    }
    if !s.clientFound {
      return Failed(RiotClientNotFound), progress, sent, n;
    }
    var told;
    match s.lockfile {
      case Some(pid) =>
        result, told, sent, n := HandOff(s, pid, world);
        if s.connects {
          WaitedAfter(Context(ExistingClient, pid), progress, [At(HandingOff)], world, result, told, sent, n);
        }
      case None =>
        result, told, sent, n := ColdStart(s, world);
        if s.spawned.Some? && s.connects {
          WaitedAfter(Context(LaunchRoute.ColdStart, s.spawned.value), progress, [At(ColdStarting)], world,
                      result, told, sent, n);
        }
    }
    progress := progress + told;
  }

  /** The stage that closes a launch. */
  function Closing(result: LaunchResult): (stage: Stage)
    ensures stage == StoppedStage <==> result == Failed(Stopped)
    ensures stage == ErrorStage <==> result.Failed? && result != Failed(Stopped)
    ensures stage == LaunchedStage <==>
      result.Launched? && (result.outcome.route.ExistingClient? || result.outcome.route.ColdStart?)
    ensures stage == AlreadyRunningStage <==>
      result.Launched? && (result.outcome.route.AlreadyRunning? || result.outcome.route.Adopted?)
  {
    match result
    case Launched(outcome) =>
      if outcome.route == AlreadyRunning || outcome.route == Adopted then AlreadyRunningStage else LaunchedStage
    case Failed(Stopped) => StoppedStage
    case Failed(_) => ErrorStage
  }

  /** `launch_with_stop`. What its observer hears is one sentence of the language below,
      closed by one stage that agrees with the result; a launch stopped before it began
      does nothing; and requests are sent only by the wait. */
  method LaunchWithStop(s: Start, world: nat -> Pass)
    returns (result: LaunchResult, progress: seq<Progress>, sent: seq<Request>, n: nat)
    requires IsWorld(world)
    ensures s.stopped ==> result == Failed(Stopped) && progress == [At(StoppedStage)] && sent == []
    ensures !s.stopped ==>
      && progress != []
      && Delivered(s, world, result, progress[..|progress| - 1], sent, n)
    ensures Heard(Nothing, progress) == Over(Closing(result), ViaOf(s))
    ensures WaitOf(s).Some? && result.Launched? ==> result.outcome.route == WaitOf(s).value.route
    ensures LaunchPost in sent ==> WaitOf(s).Some?
  {
    hide Delivered, Heard;
    if s.stopped {
      result, progress, sent, n := Failed(Stopped), [], [], 0;
      HeardStopped();
    } else {
      result, progress, sent, n := LaunchInner(s, world);
      HeardWhole(s, world, result, progress, sent, n);
    }
    assert (progress + [At(Closing(result))])[..|progress|] == progress;
    progress := progress + [At(Closing(result))];
  }

  // ---- What it computes --------------------------------------------------

  /** The session an adoption opens: none for a pid that is no 32-bit integer, and none
      unless the client takes it and says which. */
  function Adoption(s: Start, gamePid: nat): (session: Option<string>)
    ensures session.Some? ==> gamePid <= I32_MAX && s.adopted.Ok? && s.adopted.response.IsSuccess()
  {
    if gamePid <= I32_MAX && s.connects && s.adopted.Ok?
      && s.adopted.response.IsSuccess() && s.adopted.response.body.Text?
    then Some(s.adopted.response.body.text)
    else None
  }

  /** The wait a launch comes to, if it comes to one: on the live client, and on a client
      of its own only when there is none. */
  function WaitOf(s: Start): (c: Option<Context>)
    ensures c.Some? <==>
      && !s.stopped && s.windows && s.gamePid.None? && s.clientFound && s.connects
      && (s.lockfile.Some? || s.spawned.Some?)
    ensures c.Some? && s.lockfile.Some? ==> c.value == Context(ExistingClient, s.lockfile.value)
    ensures c.Some? && s.lockfile.None? ==> c.value == Context(LaunchRoute.ColdStart, s.spawned.value)
  {
    if s.stopped || !s.windows || s.gamePid.Some? || !s.clientFound || !s.connects then None
    else
      match s.lockfile
      case Some(pid) => Some(Context(ExistingClient, pid))
      case None => match s.spawned case Some(pid) => Some(Context(LaunchRoute.ColdStart, pid)) case None => None
  }

  ghost predicate Waited(c: Context, before: seq<Progress>, world: nat -> Pass, result: LaunchResult,
                         progress: seq<Progress>, sent: seq<Request>, n: nat)
  {
    && IsRun(c, Met(world, n)) && result == ResultOf(c, Met(world, n))
    && progress == before + ProgressOf(c, Met(world, n)) && sent == RequestsOf(Met(world, n))
  }

  lemma WaitedAfter(c: Context, first: seq<Progress>, before: seq<Progress>, world: nat -> Pass,
                    result: LaunchResult, progress: seq<Progress>, sent: seq<Request>, n: nat)
    requires Waited(c, before, world, result, progress, sent, n)
    ensures Waited(c, first + before, world, result, first + progress, sent, n)
  {
    hide IsRun, Met;
    assert first + (before + ProgressOf(c, Met(world, n))) == first + before + ProgressOf(c, Met(world, n));
  }

  /** What an unstopped launch has done when it is about to close. */
  ghost predicate Delivered(s: Start, world: nat -> Pass, result: LaunchResult, progress: seq<Progress>,
                            sent: seq<Request>, n: nat)
  {
    if WaitOf(s).Some? then
      var stage := if s.lockfile.Some? then HandingOff else ColdStarting;
      Waited(WaitOf(s).value, [At(Resolving), At(stage)], world, result, progress, sent, n)
    else
      && sent == []
      && (if !s.windows then result == Failed(UnsupportedPlatform) && progress == []
          else if s.gamePid.Some? then
            && progress == [At(Resolving)] && result.Launched?
            && result.outcome.riotClientPid == s.lockfile
            && (result.outcome.route == Adopted || result.outcome.route == AlreadyRunning)
            && (result.outcome.route == Adopted <==>
                s.openSession.None? && Adoption(s, s.gamePid.value).Some?)
            && (result.outcome.sessionId ==
                if s.openSession.Some? then s.openSession else Adoption(s, s.gamePid.value))
          else if !s.clientFound then result == Failed(RiotClientNotFound) && progress == [At(Resolving)]
          else if s.lockfile.Some? then
            result == Failed(RiotClientUnreachable(NoConnection)) && progress == [At(Resolving)]
          else
            && progress == [At(Resolving), At(ColdStarting)]
            && result == Failed(if s.spawned.None? then SpawnFailed else RiotClientUnreachable(NoConnection)))
  }

  /** A launch adopts a running game if and only if the game is up before anything is asked,
      the client has no session of it, its pid fits 32 signed bits and the client, reached,
      says a session id; that id is then the launch's, and nothing was sent that could
      start a game. */
  lemma AdoptedMeans(s: Start, world: nat -> Pass, result: LaunchResult, progress: seq<Progress>,
                     sent: seq<Request>, n: nat)
    requires !s.stopped && Delivered(s, world, result, progress, sent, n)
    ensures result.Launched? && result.outcome.route == Adopted <==>
      && s.windows && s.gamePid.Some? && s.openSession.None?
      && s.gamePid.value <= I32_MAX && s.connects && s.adopted.Ok?
      && 200 <= s.adopted.response.status < 300 && s.adopted.response.body.Text?
    ensures result.Launched? && result.outcome.route == Adopted ==>
      result.outcome.sessionId == Some(s.adopted.response.body.text) && sent == []
  {
    hide IsRun, Heard;
    if WaitOf(s).Some? {
      HeardRun(WaitOf(s).value, Met(world, n), ViaOf(s));
    }
  }

  lemma {:induction false} WaitsAreConnected(passes: seq<Pass>)
    ensures After(passes).lastReason != NoConnection && After(passes).lastReason != UnexplainedRefusal
  {
    if passes != [] { WaitsAreConnected(passes[..|passes| - 1]); }
  }

  lemma WaitFailsItsOwnWay(c: Context, passes: seq<Pass>)
    requires IsRun(c, passes)
    ensures ResultOf(c, passes).Failed? ==>
      ResultOf(c, passes).error.Stopped? || ResultOf(c, passes).error.Refused?
      || (ResultOf(c, passes).error.RiotClientUnreachable? && ResultOf(c, passes).error.reason != NoConnection)
  {
    hide ReadinessFrom, After;
    var n := |passes| - 1;
    WaitsAreConnected(passes[..n]);
    ReasonAfter(After(passes[..n]), passes[n]);
  }

  /** Of the ways an unstopped launch fails before it waits, each has its own cause, and the
      earlier one is told. */
  lemma FailuresMean(s: Start, world: nat -> Pass, result: LaunchResult, progress: seq<Progress>,
                     sent: seq<Request>, n: nat)
    requires !s.stopped && Delivered(s, world, result, progress, sent, n)
    ensures result == Failed(UnsupportedPlatform) <==> !s.windows
    ensures result == Failed(RiotClientNotFound) <==> s.windows && s.gamePid.None? && !s.clientFound
    ensures result == Failed(SpawnFailed) <==>
      s.windows && s.gamePid.None? && s.clientFound && s.lockfile.None? && s.spawned.None?
    ensures result == Failed(RiotClientUnreachable(NoConnection)) <==>
      && s.windows && s.gamePid.None? && s.clientFound && !s.connects
      && (s.lockfile.Some? || s.spawned.Some?)
  {
    hide IsRun, ResultOf;
    if WaitOf(s).Some? { WaitFailsItsOwnWay(WaitOf(s).value, Met(world, n)); }
  }

  // ---- The language of an observer's stages ------------------------------

  datatype Via = Neither | Handed | Cold

  /** What an observer has heard so far. */
  datatype Told =
    | Nothing
    | Looking
    | Asking(via: Via)
    | Woken(via: Via)
    | Over(closing: Stage, route: Via)
    | Garbled

  predicate Closes(stage: Stage) {
    stage == LaunchedStage || stage == StoppedStage || stage == ErrorStage
  }

  function Hear(told: Told, stage: Stage): Told {
    match told
    case Nothing =>
      if stage == Resolving then Looking
      else if stage == StoppedStage || stage == ErrorStage then Over(stage, Neither)
      else Garbled
    case Looking =>
      if stage == HandingOff then Asking(Handed)
      else if stage == ColdStarting then Asking(Cold)
      else if stage == AlreadyRunningStage || stage == ErrorStage then Over(stage, Neither)
      else Garbled
    case Asking(via) =>
      if stage == WakingClient then Woken(via)
      else if stage == WaitingForClient then Asking(via)
      else if Closes(stage) then Over(stage, via)
      else Garbled
    case Woken(via) =>
      if stage == WaitingForClient then Asking(via)
      else if stage == ErrorStage then Over(stage, via)
      else Garbled
    case Over(_, _) => Garbled
    case Garbled => Garbled
  }

  function Heard(told: Told, progress: seq<Progress>): Told {
    if progress == [] then told
    else Hear(Heard(told, progress[..|progress| - 1]), progress[|progress| - 1].stage)
  }

  /** How far a launch got in being delivered. */
  function ViaOf(s: Start): Via {
    if s.stopped || !s.windows || s.gamePid.Some? || !s.clientFound then Neither
    else if s.lockfile.None? then Cold
    else if s.connects then Handed
    else Neither
  }

  lemma {:induction false} HeardInTwo(told: Told, a: seq<Progress>, b: seq<Progress>)
    ensures Heard(told, a + b) == Heard(Heard(told, a), b)
    decreases |b|
  {
    hide Hear;
    if b == [] {
      assert a + b == a;
    } else {
      var front := b[..|b| - 1];
      assert (a + b)[..|a + b| - 1] == a + front;
      HeardInTwo(told, a, front);
    }
  }

  lemma HeardOne(told: Told, p: Progress)
    ensures Heard(told, [p]) == Hear(told, p.stage)
  {
    assert [p][..0] == [];
  }

  lemma HeardStopped()
    ensures Heard(Nothing, [] + [At(StoppedStage)]) == Over(StoppedStage, Neither)
  {
    HeardOne(Nothing, At(StoppedStage));
    assert [] + [At(StoppedStage)] == [At(StoppedStage)];
  }

  lemma HeardTwo(told: Told, p: Progress, q: Progress)
    ensures Heard(told, [p, q]) == Hear(Hear(told, p.stage), q.stage)
  {
    HeardOne(told, p);
    HeardInTwo(told, [p], [q]);
    HeardOne(Hear(told, p.stage), q);
    assert [p] + [q] == [p, q];
  }

  /** A pass that goes on says, at most, that it woke the client and that it waits. */
  lemma HeardGoingOn(c: Context, l: Loop, p: Pass, via: Via)
    requires PassResult(c, l, p).None?
    ensures Heard(Asking(via), PassProgress(c, l, p)) == Asking(via)
  {
    hide Heard, PassResult, Wakes, Secs, ReadinessFrom, AttemptOf;
    var waiting := Progress(WaitingForClient, Secs(p.waitAt), 120);
    if Wakes(l, p) {
      assert PassProgress(c, l, p) == [At(WakingClient), waiting];
      HeardTwo(Asking(via), At(WakingClient), waiting);
    } else {
      assert PassProgress(c, l, p) == [waiting];
      HeardOne(Asking(via), waiting);
    }
  }

  lemma {:induction false} HeardWaiting(c: Context, passes: seq<Pass>, via: Via)
    requires Begins(c, passes) && AllGoOn(c, passes)
    ensures Heard(Asking(via), ProgressOf(c, passes)) == Asking(via)
  {
    hide Heard, PassResult, PassProgress, NextLoop;
    if passes == [] {
      HeardNone(Asking(via));
    } else {
      var n := |passes| - 1;
      var front := passes[..n];
      BeginsFront(c, passes);
      forall i | 0 <= i < n ensures GoesOn(c, front, i) {
        PrefixGoesOn(c, front, passes, i);
      }
      HeardWaiting(c, front, via);
      assert GoesOn(c, passes, n);
      HeardGoingOn(c, After(front), passes[n], via);
      HeardInTwo(Asking(via), ProgressOf(c, front), PassProgress(c, After(front), passes[n]));
    }
  }

  lemma HeardNone(told: Told)
    ensures Heard(told, []) == told
  {
  }

  /** The last pass says nothing, or that it woke a client that then ran out of time. */
  lemma HeardLast(c: Context, l: Loop, p: Pass, via: Via)
    requires PassResult(c, l, p).Some?
    requires c.route == ExistingClient || c.route == LaunchRoute.ColdStart
    ensures Hear(Heard(Asking(via), PassProgress(c, l, p)), Closing(PassResult(c, l, p).value))
      == Over(Closing(PassResult(c, l, p).value), via)
  {
    hide AttemptOf, ReadinessOf;
    if Wakes(l, p) {
      assert PassProgress(c, l, p) == [At(WakingClient)];
      HeardOne(Asking(via), At(WakingClient));
      assert PassResult(c, l, p) == Some(Failed(RiotClientUnreachable(NeverLeftTheTray)));
    } else {
      assert PassProgress(c, l, p) == [];
    }
  }

  lemma HeardRun(c: Context, passes: seq<Pass>, via: Via)
    requires IsRun(c, passes)
    requires c.route == ExistingClient || c.route == LaunchRoute.ColdStart
    ensures Hear(Heard(Asking(via), ProgressOf(c, passes)), Closing(ResultOf(c, passes)))
      == Over(Closing(ResultOf(c, passes)), via)
    ensures ResultOf(c, passes).Launched? ==> ResultOf(c, passes).outcome.route == c.route
  {
    hide Heard, Hear, PassProgress, NextLoop, Closing;
    var n := |passes| - 1;
    var front := passes[..n];
    BeginsFront(c, passes);
    forall i | 0 <= i < n ensures GoesOn(c, front, i) {
      PrefixGoesOn(c, front, passes, i);
    }
    HeardWaiting(c, front, via);
    HeardLast(c, After(front), passes[n], via);
    HeardInTwo(Asking(via), ProgressOf(c, front), PassProgress(c, After(front), passes[n]));
  }

  lemma HeardWhole(s: Start, world: nat -> Pass, result: LaunchResult, progress: seq<Progress>,
                   sent: seq<Request>, n: nat)
    requires !s.stopped && Delivered(s, world, result, progress, sent, n)
    ensures Heard(Nothing, progress + [At(Closing(result))]) == Over(Closing(result), ViaOf(s))
    ensures WaitOf(s).Some? && result.Launched? ==> result.outcome.route == WaitOf(s).value.route
    ensures LaunchPost in sent ==> WaitOf(s).Some?
  {
    hide Heard, IsRun, ResultOf, ProgressOf, RequestsOf;
    var closing := At(Closing(result));
    HeardInTwo(Nothing, progress, [closing]);
    HeardOne(Heard(Nothing, progress), closing);
    if WaitOf(s).Some? {
      var c, passes := WaitOf(s).value, Met(world, n);
      var stage := if s.lockfile.Some? then HandingOff else ColdStarting;
      HeardTwo(Nothing, At(Resolving), At(stage));
      HeardInTwo(Nothing, [At(Resolving), At(stage)], ProgressOf(c, passes));
      HeardRun(c, passes, ViaOf(s));
    } else {
      HeardNone(Nothing);
      HeardOne(Nothing, At(Resolving));
      HeardTwo(Nothing, At(Resolving), At(ColdStarting));
    }
  }

  /** No launch is closed twice, and nothing is heard after it is. */
  lemma {:induction false} ClosedOnce(progress: seq<Progress>, i: nat)
    requires Heard(Nothing, progress).Over? && i < |progress|
    ensures Heard(Nothing, progress[..i + 1]).Over? <==> i == |progress| - 1
    ensures !Heard(Nothing, progress[..i + 1]).Garbled?
    decreases |progress| - i
  {
    hide Hear;
    if i == |progress| - 1 {
      assert progress[..i + 1] == progress;
    } else {
      ClosedOnce(progress, i + 1);
      assert progress[..i + 2][..i + 1] == progress[..i + 1];
      NotOverYet(Heard(Nothing, progress[..i + 1]), progress[i + 1].stage);
    }
  }

  lemma NotOverYet(told: Told, stage: Stage)
    requires !Hear(told, stage).Garbled?
    ensures !told.Over? && !told.Garbled?
  {
  }

  // ---- The seconds it reports --------------------------------------------

  /** The reports of waiting, in order, count strictly up. */
  ghost predicate CountsUp(progress: seq<Progress>) {
    forall i, j | 0 <= i < j < |progress| ::
      progress[i].stage == WaitingForClient == progress[j].stage ==>
        progress[i].waitedSecs < progress[j].waitedSecs
  }

  ghost predicate NoneWaits(progress: seq<Progress>, secs: nat) {
    forall i | 0 <= i < |progress| :: progress[i].stage == WaitingForClient ==> progress[i].waitedSecs <= secs
  }

  /** The seconds waited increase strictly while they fit 32 bits. */
  lemma {:induction false} SecondsCountUp(c: Context, passes: seq<Pass>)
    requires Begins(c, passes)
    requires forall i | 0 <= i < |passes| :: passes[i].waitAt < U32 * SECOND
    ensures CountsUp(ProgressOf(c, passes))
    ensures passes != [] ==> NoneWaits(ProgressOf(c, passes), Secs(passes[|passes| - 1].waitAt))
  {
    hide NextLoop, PassResult, PassProgress, Secs, CountsUp, NoneWaits;
    if passes == [] {
      NoReports();
    } else {
      var n := |passes| - 1;
      var front := passes[..n];
      BeginsFront(c, passes);
      SecondsCountUp(c, front);
      OneReport(c, After(front), passes[n]);
      var before := if n > 0 then Secs(passes[n - 1].waitAt) else 0;
      if n == 0 {
        NoReports();
      } else {
        WentOn(c, passes, n - 1);
        assert passes[n].OnTime();
        SecsIncrease(passes[n - 1].waitAt, passes[n].waitAt);
      }
      CountsOn(ProgressOf(c, front), PassProgress(c, After(front), passes[n]), before, Secs(passes[n].waitAt));
    }
  }

  lemma NoReports()
    ensures CountsUp([]) && forall secs: nat :: NoneWaits([], secs)
  {
  }

  /** A pass reports its own seconds, once. */
  lemma OneReport(c: Context, l: Loop, p: Pass)
    ensures CountsUp(PassProgress(c, l, p))
    ensures forall r | r in PassProgress(c, l, p) && r.stage == WaitingForClient :: r.waitedSecs == Secs(p.waitAt)
  {
    hide PassResult, Wakes, Secs;
  }

  lemma CountsOn(progress: seq<Progress>, more: seq<Progress>, before: nat, now: nat)
    requires CountsUp(progress) && NoneWaits(progress, before) && CountsUp(more)
    requires forall r | r in more && r.stage == WaitingForClient :: r.waitedSecs == now
    requires progress == [] || before < now
    ensures CountsUp(progress + more) && NoneWaits(progress + more, now)
  {
    forall i, j | 0 <= i < j < |progress + more|
      && (progress + more)[i].stage == WaitingForClient == (progress + more)[j].stage
      ensures (progress + more)[i].waitedSecs < (progress + more)[j].waitedSecs
    {
      if i < |progress| <= j {
        assert more[j - |progress|] in more;
      }
    }
  }

  lemma SecsIncrease(earlier: Instant, later: Instant)
    requires earlier + SECOND <= later < U32 * SECOND
    ensures Secs(earlier) < Secs(later)
  {
    assert later / SECOND < U32;
  }

  /** When a pass reads its deadline and its report at one instant, the seconds also stay
      below the 120 they are reported out of. */
  lemma {:induction false} SecondsStayBelow120(c: Context, passes: seq<Pass>)
    requires Begins(c, passes)
    requires forall i | 0 <= i < |passes| :: passes[i].waitAt == passes[i].checkAt
    ensures forall p | p in ProgressOf(c, passes) && p.stage == WaitingForClient ::
      p.waitedSecs < p.timeoutSecs == 120
  {
    hide NextLoop, PassResult, Secs;
    if passes != [] {
      var n := |passes| - 1;
      var front := passes[..n];
      BeginsFront(c, passes);
      SecondsStayBelow120(c, front);
      OneReportIsBelow120(c, After(front), passes[n]);
    }
  }

  lemma OneReportIsBelow120(c: Context, l: Loop, p: Pass)
    requires p.waitAt == p.checkAt
    ensures PassResult(c, l, p).None? ==> Secs(p.waitAt) < 120
  {
    hide NextLoop, Secs;
    if PassResult(c, l, p).None? {
      assert p.checkAt < BOOT_TIMEOUT;
      BelowTimeout(p.waitAt);
    }
  }

  lemma BelowTimeout(t: Instant)
    requires t < BOOT_TIMEOUT
    ensures Secs(t) < 120
  {
  }

  // ---- What it reports, in number ----------------------------------------

  function Reports(progress: seq<Progress>, stage: Stage): nat {
    if progress == [] then 0
    else Reports(progress[..|progress| - 1], stage) + if progress[|progress| - 1].stage == stage then 1 else 0
  }

  lemma {:induction false} ReportsAdd(a: seq<Progress>, b: seq<Progress>, stage: Stage)
    ensures Reports(a + b, stage) == Reports(a, stage) + Reports(b, stage)
  {
    if b == [] {
      assert a + b == a;
    } else {
      ReportsAdd(a, b[..|b| - 1], stage);
      assert (a + b)[..|a + b| - 1] == a + b[..|b| - 1];
    }
  }

  lemma ReportsOfOne(p: Progress, stage: Stage)
    ensures Reports([p], stage) == if p.stage == stage then 1 else 0
    ensures Reports([], stage) == 0
  {
    assert [p][..0] == [];
  }

  lemma ReportsOfPass(c: Context, l: Loop, p: Pass)
    ensures Reports(PassProgress(c, l, p), WakingClient) == if Wakes(l, p) then 1 else 0
    ensures Reports(PassProgress(c, l, p), WaitingForClient) == if PassResult(c, l, p).None? then 1 else 0
    ensures PassResult(c, l, p).None? ==>
      PassProgress(c, l, p) != [] && PassProgress(c, l, p)[|PassProgress(c, l, p)| - 1].waitedSecs == Secs(p.waitAt)
  {
    hide Wakes, PassResult, Reports;
    var woken := if Wakes(l, p) then [At(WakingClient)] else [];
    var waiting := if PassResult(c, l, p).None? then [Progress(WaitingForClient, Secs(p.waitAt), 120)] else [];
    assert PassProgress(c, l, p) == woken + waiting;
    forall stage ensures Reports(woken + waiting, stage) == Reports(woken, stage) + Reports(waiting, stage) {
      ReportsAdd(woken, waiting, stage);
    }
    ReportsOfOne(At(WakingClient), WakingClient);
    ReportsOfOne(At(WakingClient), WaitingForClient);
    ReportsOfOne(Progress(WaitingForClient, Secs(p.waitAt), 120), WakingClient);
    ReportsOfOne(Progress(WaitingForClient, Secs(p.waitAt), 120), WaitingForClient);
  }

  function CountGoingOn(c: Context, passes: seq<Pass>): nat {
    if passes == [] then 0
    else
      var n := |passes| - 1;
      CountGoingOn(c, passes[..n]) + if PassResult(c, After(passes[..n]), passes[n]).None? then 1 else 0
  }

  lemma {:induction false} GoingOnIsAll(c: Context, passes: seq<Pass>)
    requires Begins(c, passes) && AllGoOn(c, passes)
    ensures CountGoingOn(c, passes) == |passes|
  {
    hide PassResult;
    if passes != [] {
      var n := |passes| - 1;
      BeginsFront(c, passes);
      forall i | 0 <= i < n ensures GoesOn(c, passes[..n], i) {
        PrefixGoesOn(c, passes[..n], passes, i);
      }
      GoingOnIsAll(c, passes[..n]);
      assert GoesOn(c, passes, n);
    }
  }

  lemma {:induction false} ReportsAreCounted(c: Context, passes: seq<Pass>)
    ensures Reports(ProgressOf(c, passes), WakingClient) == CountWakes(passes)
    ensures Reports(ProgressOf(c, passes), WaitingForClient) == CountGoingOn(c, passes)
  {
    hide PassProgress, PassResult, Wakes, NextLoop, Reports;
    if passes == [] {
      ReportsOfOne(At(WakingClient), WakingClient);
      ReportsOfOne(At(WakingClient), WaitingForClient);
    } else {
      var n := |passes| - 1;
      var front := passes[..n];
      ReportsAreCounted(c, front);
      ReportsOfPass(c, After(front), passes[n]);
      ReportsAdd(ProgressOf(c, front), PassProgress(c, After(front), passes[n]), WakingClient);
      ReportsAdd(ProgressOf(c, front), PassProgress(c, After(front), passes[n]), WaitingForClient);
    }
  }

  /** A wait reports each wake, and each of its passes but the last as a pass of waiting. */
  lemma EveryWakeAndPassIsReported(c: Context, passes: seq<Pass>)
    requires IsRun(c, passes)
    ensures Reports(ProgressOf(c, passes), WakingClient) == CountWakes(passes)
    ensures Reports(ProgressOf(c, passes), WaitingForClient) == |passes| - 1
  {
    hide PassResult, NextLoop, CountWakes, Reports;
    var n := |passes| - 1;
    ReportsAreCounted(c, passes);
    BeginsFront(c, passes);
    forall i | 0 <= i < n ensures GoesOn(c, passes[..n], i) {
      PrefixGoesOn(c, passes[..n], passes, i);
    }
    GoingOnIsAll(c, passes[..n]);
  }
}
