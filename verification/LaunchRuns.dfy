/** What holds over whole waits: how long they last, what stopping does, when a refusal
    is believed, how often the client is woken - and that a launch the client accepted
    is never asked for again.
 */
module LaunchRuns {
  import opened Client
  import opened Launch

  // ---- Length ------------------------------------------------------------

  lemma WentOn(c: Context, passes: seq<Pass>, i: nat)
    requires Begins(c, passes) && i + 1 < |passes|
    ensures passes[i].start <= passes[i].checkAt < BOOT_TIMEOUT
    ensures Asks(passes[i]) && passes[i].waitAt + POLL_INTERVAL <= passes[i].end <= passes[i + 1].start
  {
    assert GoesOn(c, passes, i) && passes[i].OnTime();
    assert passes[(i + 1) - 1].end <= passes[i + 1].start;
  }

  lemma {:induction false} StartsAreSpaced(c: Context, passes: seq<Pass>, i: nat, j: nat)
    requires Begins(c, passes) && i <= j < |passes|
    ensures passes[j].start >= passes[i].start + (j - i) * SECOND
    ensures i < j ==> passes[i].end <= passes[j].start
    decreases j - i
  {
    if i < j {
      StartsAreSpaced(c, passes, i, j - 1);
      WentOn(c, passes, j - 1);
      if i < j - 1 { WentOn(c, passes, i); }
    }
  }

  /** A wait is at most 121 passes long. */
  lemma AtMost121Passes(c: Context, passes: seq<Pass>)
    requires Begins(c, passes)
    ensures |passes| <= 121
  {
    var n := |passes|;
    if n > 1 {
      StartsAreSpaced(c, passes, 0, n - 2);
      WentOn(c, passes, n - 2);
    }
  }

  /** A wait ends within the boot budget, one pause between passes and one pass's work:
      with exact sleeps and nothing between the clock reads, the pause is the poll
      interval. */
  lemma EndsInTime(c: Context, passes: seq<Pass>, pause: nat, work: nat)
    requires IsRun(c, passes)
    requires passes[0].start <= pause
    requires forall i | 0 < i < |passes| :: passes[i].start <= passes[i - 1].checkAt + pause
    requires forall i | 0 <= i < |passes| :: passes[i].checkAt <= passes[i].start + work
    ensures passes[|passes| - 1].checkAt < BOOT_TIMEOUT + pause + work
  {
    var last := |passes| - 1;
    if last > 0 { WentOn(c, passes, last - 1); }
  }

  // ---- Readings of the last pass -----------------------------------------

  /** A wait that ends for no answer of the client's ran its whole budget. */
  lemma DeadlineIsReal(c: Context, passes: seq<Pass>)
    requires IsRun(c, passes)
    requires ResultOf(c, passes).Failed? && ResultOf(c, passes).error.RiotClientUnreachable?
    requires ResultOf(c, passes).error.reason != UnexplainedRefusal
    ensures passes[|passes| - 1].checkAt >= BOOT_TIMEOUT
  {
  }

  /** A wait reports a launch exactly when it saw the game up or the client took the
      request, and then says which client and which session as it learned them. */
  lemma LaunchedMeans(c: Context, passes: seq<Pass>)
    requires IsRun(c, passes)
    ensures var last, result := passes[|passes| - 1], ResultOf(c, passes);
      && (result == Failed(Stopped) <==> last.stopped)
      && (result.Launched? <==>
          !last.stopped && (last.gameUp || (Posts(last) && last.post.Ok? && last.post.response.IsSuccess())))
      && (result.Launched? ==>
          && result.outcome.route == c.route
          && result.outcome.riotClientPid == Some(
              if !last.gameUp && last.livePid.Some? then last.livePid.value else c.pid)
          && (last.gameUp ==> result.outcome.sessionId == last.openSession)
          && (!last.gameUp ==> forall id ::
                result.outcome.sessionId == Some(id) <==> last.post.response.body == Text(id)))
  {
  }

  /** An answer that refuses without saying why ends the wait at once; a pass that goes on
      was not given one. */
  lemma UnexplainedRefusalEndsAtOnce(c: Context, passes: seq<Pass>, i: nat)
    requires IsRun(c, passes) && i < |passes|
    requires Posts(passes[i]) && passes[i].post.Ok? && !passes[i].post.response.body.RiotError?
    requires !passes[i].post.response.IsSuccess() && !passes[i].post.response.IsServerError()
    ensures i == |passes| - 1 && ResultOf(c, passes) == Failed(RiotClientUnreachable(UnexplainedRefusal))
  {
    assert AttemptOf(passes[i].post) == TurnedDown(RiotClientUnreachable(UnexplainedRefusal));
    if i < |passes| - 1 { EndsHere(c, passes, i); }
  }

  lemma EndsHere(c: Context, passes: seq<Pass>, i: nat)
    requires Begins(c, passes) && i < |passes|
    requires PassResult(c, After(passes[..i]), passes[i]).Some?
    ensures i == |passes| - 1
  {
    assert i < |passes| - 1 ==> GoesOn(c, passes, i);
  }

  /** A pass asks for a launch if and only if it was not stopped, saw no game, and a mounted
      launcher answered its probe with anything but a readable `true`. */
  lemma PostsExactly(p: Pass)
    ensures Posts(p) <==>
      && !p.stopped && !p.gameUp && p.probe.Ok?
      && p.probe.response.status != NOT_FOUND && !p.probe.response.IsServerError()
      && p.probe.response.body != Bool(true)
  {
  }

  // ---- What it sends -----------------------------------------------------

  /** How many of the requests ask for a launch. */
  function Launches(requests: seq<Request>): nat {
    if requests == [] then 0
    else Launches(requests[..|requests| - 1]) + if requests[|requests| - 1] == LaunchPost then 1 else 0
  }

  lemma {:induction false} LaunchesAdd(a: seq<Request>, b: seq<Request>)
    ensures Launches(a + b) == Launches(a) + Launches(b)
  {
    if b == [] {
      assert a + b == a;
    } else {
      LaunchesAdd(a, b[..|b| - 1]);
      assert (a + b)[..|a + b| - 1] == a + b[..|b| - 1];
    }
  }

  lemma {:induction false} NoLaunchesAmong(requests: seq<Request>)
    ensures Launches(requests) == 0 <==> LaunchPost !in requests
    ensures Launches(requests) <= |requests|
  {
    if requests != [] {
      NoLaunchesAmong(requests[..|requests| - 1]);
      assert requests == requests[..|requests| - 1] + [requests[|requests| - 1]];
    }
  }

  /** The passes that ask for a launch. */
  function CountPosts(passes: seq<Pass>): nat {
    if passes == [] then 0
    else CountPosts(passes[..|passes| - 1]) + if Posts(passes[|passes| - 1]) then 1 else 0
  }

  /** What one pass sends: one launch request, or up to three wakes, or nothing. */
  lemma OnePassSends(l: Loop, p: Pass)
    requires |p.wakes| == WAKE_ATTEMPTS
    ensures Launches(PassRequests(l, p)) == if Posts(p) then 1 else 0
    ensures var wakes := |PassRequests(l, p)| - Launches(PassRequests(l, p));
      if Wakes(l, p) then 1 <= wakes <= 3 else wakes == 0
    ensures forall request | request in PassRequests(l, p) :: request == LaunchPost || request == NewArgs([])
  {
    hide ReadinessFrom;
    var sent := PassRequests(l, p);
    if Posts(p) {
      assert [LaunchPost][..0] == [] && sent == [LaunchPost];
      assert Launches([LaunchPost]) == Launches([]) + 1;
      PostsDoNotWake(l, p);
    } else {
      NoLaunchesAmong(sent);
    }
  }

  lemma PostsDoNotWake(l: Loop, p: Pass)
    ensures !(Posts(p) && Wakes(l, p))
  {
  }

  /** Over a whole wait: as many launch requests are sent as there are passes that ask, and
      for each pass that wakes, one to three requests with an empty argument list; nothing
      else is. */
  lemma {:induction false} SentExactly(c: Context, passes: seq<Pass>)
    requires Begins(c, passes)
    ensures var sent := RequestsOf(passes);
      && Launches(sent) == CountPosts(passes)
      && CountWakes(passes) <= |sent| - Launches(sent) <= 3 * CountWakes(passes)
      && forall request | request in sent :: request == LaunchPost || request == NewArgs([])
  {
    hide PassRequests, Posts, Wakes, Launches, NextLoop;
    if passes == [] {
      NothingSent();
    } else {
      var n := |passes| - 1;
      var front := passes[..n];
      BeginsFront(c, passes);
      SentExactly(c, front);
      assert passes[n].OnTime();
      OnePassSends(After(front), passes[n]);
      LaunchesAdd(RequestsOf(front), PassRequests(After(front), passes[n]));
    }
  }

  lemma NothingSent()
    ensures Launches([]) == 0 && RequestsOf([]) == []
  {
  }

  /** What the passes after the first `n` sent. */
  function RequestsAfter(passes: seq<Pass>, n: nat): seq<Request>
    requires n <= |passes|
  {
    if n == |passes| then []
    else
      var front := passes[..|passes| - 1];
      RequestsAfter(front, n) + PassRequests(After(front), passes[|passes| - 1])
  }

  lemma {:induction false} SentInTwo(passes: seq<Pass>, n: nat)
    requires n <= |passes|
    ensures RequestsOf(passes) == RequestsOf(passes[..n]) + RequestsAfter(passes, n)
    decreases |passes|
  {
    hide PassRequests;
    if n == |passes| {
      assert passes[..n] == passes;
    } else {
      var front := passes[..|passes| - 1];
      SentInTwo(front, n);
      assert front[..n] == passes[..n];
    }
  }

  lemma {:induction false} NoPostsNoLaunches(passes: seq<Pass>, n: nat)
    requires n <= |passes| && forall i | n <= i < |passes| :: !Posts(passes[i])
    ensures LaunchPost !in RequestsAfter(passes, n)
    decreases |passes|
  {
    if n < |passes| {
      hide ReadinessFrom;
      NoPostsNoLaunches(passes[..|passes| - 1], n);
    }
  }

  // ---- Why it ran out ----------------------------------------------------

  /** What a pass has to say about why there is no launch yet. A pass that found a launch
      under way, or was refused, has nothing. */
  function Complaint(p: Pass): Option<Reason> {
    if !Asks(p) then None
    else if ReadinessFrom(p.probe).Idle? then Some(NeverLeftTheTray)
    else if ReadinessFrom(p.probe).NotYet? then Some(NeverBecameReady)
    else if Posts(p) && AttemptOf(p.post).NoAnswer? then Some(NeverTookTheRequest)
    else None
  }

  /** The reason a wait runs out with is the latest complaint. */
  lemma {:induction false} ReasonIsTheLatest(passes: seq<Pass>, i: nat)
    requires i <= |passes|
    requires i < |passes| ==> Complaint(passes[i]).Some?
    requires forall j | i < j < |passes| :: Complaint(passes[j]).None?
    requires i == |passes| ==> forall j | 0 <= j < i :: Complaint(passes[j]).None?
    ensures After(passes).lastReason ==
      if i < |passes| then Complaint(passes[i]).value else DidNotFinishStarting
  {
    if passes != [] {
      var n := |passes| - 1;
      var front := passes[..n];
      ReasonAfter(After(front), passes[n]);
      if i != n { ReasonIsTheLatest(front, if i == |passes| then n else i); }
    }
  }

  lemma ReasonAfter(l: Loop, p: Pass)
    ensures NextLoop(l, p).lastReason == if Complaint(p).Some? then Complaint(p).value else l.lastReason
  {
  }

  // ---- Stopping ----------------------------------------------------------

  /** The flag is set at `stopAt` and stays set. */
  ghost predicate StopsAt(passes: seq<Pass>, stopAt: Instant) {
    forall i | 0 <= i < |passes| :: passes[i].stopped <==> stopAt <= passes[i].start
  }

  predicate AreReads(passes: seq<Pass>, starts: seq<Instant>, read: seq<bool>) {
    |passes| == |starts| == |read|
    && forall i | 0 <= i < |passes| :: passes[i].start == starts[i] && passes[i].stopped == read[i]
  }

  /** What the wait reads, at the start of its passes, of a flag that a clone - the same
      object - stops at `stopAt`: what the results below assume of a wait. */
  method FlagReads(ours: StopFlag, clone: StopFlag, stopAt: Instant, starts: seq<Instant>)
    returns (read: seq<bool>)
    requires ours == clone && !ours.IsStopped()
    requires forall i | 0 < i < |starts| :: starts[i - 1] <= starts[i]
    modifies ours
    ensures |read| == |starts|
    ensures forall i | 0 <= i < |starts| :: read[i] <==> stopAt <= starts[i]
    ensures forall passes: seq<Pass> | AreReads(passes, starts, read) :: StopsAt(passes, stopAt)
  {
    read := [];
    var called := false;
    for i := 0 to |starts|
      invariant |read| == i && called == ours.IsStopped()
      invariant called <==> i > 0 && stopAt <= starts[i - 1]
      invariant forall k | 0 <= k < i :: read[k] <==> stopAt <= starts[k]
    {
      if !called && stopAt <= starts[i] {
        clone.Stop();
        called := true;
      }
      read := read + [ours.IsStopped()];
    }
  }

  /** A pass that begins after the stop is the last, sends nothing and reports nothing. */
  lemma StopEndsTheWait(c: Context, passes: seq<Pass>, stopAt: Instant, i: nat)
    requires IsRun(c, passes) && StopsAt(passes, stopAt)
    requires i < |passes| && stopAt <= passes[i].start
    ensures i == |passes| - 1 && ResultOf(c, passes) == Failed(Stopped)
    ensures PassRequests(After(passes[..i]), passes[i]) == []
    ensures PassProgress(c, After(passes[..i]), passes[i]) == []
  {
    if i + 1 < |passes| { WentOn(c, passes, i); }
  }

  /** At most one launch request is sent after the stop: the one of the pass it fell in. */
  lemma OneLatePost(c: Context, passes: seq<Pass>, stopAt: Instant, i: nat, j: nat)
    requires IsRun(c, passes) && StopsAt(passes, stopAt)
    requires i < |passes| && Posts(passes[i]) && stopAt <= passes[i].postAt
    requires j < |passes| && Posts(passes[j]) && stopAt <= passes[j].postAt
    ensures i == j
  {
    if i < j { StartsAreSpaced(c, passes, i, j); }
    if j < i { StartsAreSpaced(c, passes, j, i); }
  }

  /** The launch requests sent at or after an instant. */
  function LaunchesSince(passes: seq<Pass>, since: Instant): nat {
    if passes == [] then 0
    else
      var front, last := passes[..|passes| - 1], passes[|passes| - 1];
      LaunchesSince(front, since) + if since <= last.postAt then Launches(PassRequests(After(front), last)) else 0
  }

  // Passes that sent nothing from the instant on.
  lemma {:induction false} NoneSince(passes: seq<Pass>, since: Instant)
    requires forall i | 0 <= i < |passes| :: |passes[i].wakes| == WAKE_ATTEMPTS
    requires forall i | 0 <= i < |passes| :: Posts(passes[i]) ==> passes[i].postAt < since
    ensures LaunchesSince(passes, since) == 0
  {
    hide PassRequests, Posts, Launches;
    if passes != [] {
      var front := passes[..|passes| - 1];
      NoneSince(front, since);
      OnePassSends(After(front), passes[|passes| - 1]);
    }
  }

  lemma {:induction false} OneSince(c: Context, passes: seq<Pass>, since: Instant)
    requires Begins(c, passes)
    requires forall i, j | 0 <= i < j < |passes| :: Posts(passes[i]) && Posts(passes[j]) && since <= passes[j].postAt ==>
      passes[i].postAt < since
    ensures LaunchesSince(passes, since) <= 1
  {
    hide PassRequests, Posts, Launches, GoesOn;
    if passes != [] {
      var n := |passes| - 1;
      var front, last := passes[..n], passes[n];
      BeginsFront(c, passes);
      assert forall i | 0 <= i < |passes| :: passes[i].OnTime();
      OnePassSends(After(front), last);
      if Posts(last) && since <= last.postAt {
        NoneSince(front, since);
      } else {
        OneSince(c, front, since);
      }
    }
  }

  /** In number: a stopped wait sends at most one launch request after the stop. */
  lemma AtMostOneLateLaunch(c: Context, passes: seq<Pass>, stopAt: Instant)
    requires IsRun(c, passes) && StopsAt(passes, stopAt)
    ensures LaunchesSince(passes, stopAt) <= 1
  {
    hide Posts;
    forall i, j | 0 <= i < j < |passes| && Posts(passes[i]) && Posts(passes[j]) && stopAt <= passes[j].postAt
      ensures passes[i].postAt < stopAt
    {
      if stopAt <= passes[i].postAt { OneLatePost(c, passes, stopAt, i, j); }
    }
    OneSince(c, passes, stopAt);
  }

  // ---- Refusals ----------------------------------------------------------

  /** `k` is the first pass the client refused. */
  ghost predicate FirstRefused(passes: seq<Pass>, k: nat) {
    k < |passes| && IsRefused(passes[k]) && forall i | 0 <= i < k :: !IsRefused(passes[i])
  }

  /** The refusal clock is started once and never reset. */
  lemma {:induction false} RefusalClock(passes: seq<Pass>, k: nat)
    ensures FirstRefused(passes, k) ==> After(passes).refusedSince == Some(passes[k].sinceAt)
    ensures (forall i | 0 <= i < |passes| :: !IsRefused(passes[i])) ==> After(passes).refusedSince == None
  {
    hide IsRefused;
    if passes != [] {
      var front := passes[..|passes| - 1];
      RefusalClock(front, k);
      if k < |front| { assert FirstRefused(passes, k) ==> FirstRefused(front, k); }
      assert forall i | 0 <= i < |front| :: front[i] == passes[i];
    }
  }

  lemma {:induction false} SomeFirstRefused(passes: seq<Pass>, i: nat) returns (k: nat)
    requires i < |passes| && IsRefused(passes[i])
    ensures FirstRefused(passes, k) && k <= i
  {
    if j :| 0 <= j < i && IsRefused(passes[j]) {
      k := SomeFirstRefused(passes, j);
    } else {
      k := i;
    }
  }

  lemma SinceFirst(passes: seq<Pass>, k: nat, i: nat)
    requires FirstRefused(passes, k) && k <= i < |passes|
    ensures Since(After(passes[..i]), passes[i]) == passes[k].sinceAt || i == k
    ensures i == k ==> Since(After(passes[..i]), passes[i]) == passes[k].sinceAt
  {
    hide IsRefused;
    var front := passes[..i];
    RefusalClock(front, k);
    if k < i { assert FirstRefused(front, k); }
  }

  /** A refusal is reported only once the first one is 30 seconds old. */
  lemma RefusedOnlyAfterGrace(c: Context, passes: seq<Pass>) returns (k: nat)
    requires IsRun(c, passes)
    requires ResultOf(c, passes).Failed? && ResultOf(c, passes).error.Refused?
    ensures FirstRefused(passes, k) && IsRefused(passes[|passes| - 1])
    ensures passes[|passes| - 1].graceAt >= passes[k].sinceAt + REFUSAL_GRACE
  {
    var last := |passes| - 1;
    k := SomeFirstRefused(passes, last);
    SinceFirst(passes, k, last);
  }

  /** When every pass from the first refusal on is refused, the wait ends at the first
      refusal that is 30 seconds old or at the deadline, whichever comes first, and says
      which. */
  lemma RefusalDecides(c: Context, passes: seq<Pass>, k: nat)
    requires IsRun(c, passes) && FirstRefused(passes, k)
    requires forall i | k <= i < |passes| :: IsRefused(passes[i])
    ensures IsRefused(passes[|passes| - 1])
    ensures passes[|passes| - 1].graceAt >= passes[k].sinceAt + REFUSAL_GRACE ==>
      ResultOf(c, passes) == Failed(AttemptOf(passes[|passes| - 1].post).error)
    ensures passes[|passes| - 1].graceAt < passes[k].sinceAt + REFUSAL_GRACE ==>
      && passes[|passes| - 1].checkAt >= BOOT_TIMEOUT
      && ResultOf(c, passes) == Failed(RiotClientUnreachable(After(passes).lastReason))
  {
    hide IsRefused, FirstRefused, Begins, PassResult, NextLoop, AttemptOf;
    var last := |passes| - 1;
    LastIsLatest(passes, k);
    assert IsRefused(passes[last]);
    SinceFirst(passes, k, last);
    RefusedPass(c, After(passes[..last]), passes[last]);
  }

  lemma LastIsLatest(passes: seq<Pass>, k: nat)
    requires FirstRefused(passes, k)
    ensures k <= |passes| - 1
  {
  }

  /** How a refused pass ends the wait. */
  lemma RefusedPass(c: Context, l: Loop, p: Pass)
    requires IsRefused(p)
    ensures PassResult(c, l, p) ==
      if p.graceAt - Since(l, p) >= REFUSAL_GRACE then Some(Failed(AttemptOf(p.post).error))
      else if p.checkAt >= BOOT_TIMEOUT then Some(Failed(RiotClientUnreachable(NextLoop(l, p).lastReason)))
      else None
    ensures AttemptOf(p.post).TurnedDown? && AttemptOf(p.post).error.Refused?
  {
    hide AttemptOf, ReadinessFrom, Since, NextLoop;
  }

  /** So a refusal that begins by 90 seconds and does not let up is reported as itself,
      when a pass reads the refusal clock and the deadline at one instant. */
  lemma SteadyRefusalIsReported(c: Context, passes: seq<Pass>, k: nat)
    requires IsRun(c, passes) && FirstRefused(passes, k)
    requires forall i | k <= i < |passes| :: IsRefused(passes[i])
    requires passes[k].sinceAt <= 90 * SECOND
    requires forall i | 0 <= i < |passes| :: passes[i].graceAt == passes[i].checkAt
    ensures ResultOf(c, passes).Failed? && ResultOf(c, passes).error.Refused?
  {
    hide PassResult, NextLoop, AttemptOf, Begins;
    var last := |passes| - 1;
    RefusalDecides(c, passes, k);
    RefusedPass(c, After(passes[..last]), passes[last]);
  }

  // ---- Waking ------------------------------------------------------------

  predicate WakesAt(passes: seq<Pass>, i: nat)
    requires i < |passes|
  {
    Wakes(After(passes[..i]), passes[i])
  }

  function CountWakes(passes: seq<Pass>): nat {
    if passes == [] then 0
    else CountWakes(passes[..|passes| - 1]) + if WakesAt(passes, |passes| - 1) then 1 else 0
  }

  lemma {:induction false} LastWakeIsLatest(c: Context, passes: seq<Pass>, i: nat)
    requires Begins(c, passes) && i < |passes| && WakesAt(passes, i)
    ensures After(passes).lastWake.Some? && passes[i].wakeAt <= After(passes).lastWake.value
    decreases |passes|
  {
    hide GoesOn, Wakes;
    var n := |passes| - 1;
    var front := passes[..n];
    assert passes[n].OnTime();
    LastWakeAfter(After(front), passes[n]);
    if i < n {
      BeginsFront(c, passes);
      assert front[..i] == passes[..i];
      LastWakeIsLatest(c, front, i);
      StartsAreSpaced(c, passes, i, n);
      assert passes[i].OnTime();
    }
  }

  lemma LastWakeAfter(l: Loop, p: Pass)
    ensures NextLoop(l, p).lastWake == if Wakes(l, p) then Some(p.wakeAt) else l.lastWake
    ensures Wakes(l, p) && l.lastWake.Some? ==> p.coolAt >= l.lastWake.value + WAKE_COOLDOWN
  {
  }

  lemma BeginsFront(c: Context, passes: seq<Pass>)
    requires Begins(c, passes) && passes != []
    ensures Begins(c, passes[..|passes| - 1])
  {
    hide GoesOn;
    var front := passes[..|passes| - 1];
    forall i | 0 <= i < |front| - 1 ensures GoesOn(c, front, i) {
      PrefixGoesOn(c, front, passes, i);
    }
  }

  /** Wakes are at least 10 seconds apart, so none falls into the boot the last began. */
  lemma WakesAreApart(c: Context, passes: seq<Pass>, i: nat, j: nat)
    requires Begins(c, passes) && i < j < |passes|
    requires WakesAt(passes, i) && WakesAt(passes, j)
    ensures passes[j].wakeAt >= passes[i].wakeAt + WAKE_COOLDOWN
  {
    var front := passes[..j];
    BeginsPrefix(c, passes, j);
    assert front[..i] == passes[..i];
    LastWakeIsLatest(c, front, i);
    assert passes[j].OnTime();
  }

  lemma {:induction false} BeginsPrefix(c: Context, passes: seq<Pass>, n: nat)
    requires Begins(c, passes) && n <= |passes|
    ensures Begins(c, passes[..n])
    decreases |passes| - n
  {
    if n < |passes| {
      BeginsPrefix(c, passes, n + 1);
      BeginsFront(c, passes[..n + 1]);
      assert passes[..n + 1][..n] == passes[..n];
    } else {
      assert passes[..n] == passes;
    }
  }

  lemma {:induction false} WakesTakeTime(c: Context, passes: seq<Pass>)
    requires Begins(c, passes)
    ensures CountWakes(passes) > 0 ==>
      && After(passes).lastWake.Some?
      && After(passes).lastWake.value >= (CountWakes(passes) - 1) * WAKE_COOLDOWN
    ensures CountWakes(passes) == 0 ==> After(passes).lastWake.None?
  {
    hide GoesOn, Wakes, NextLoop;
    if passes != [] {
      var n := |passes| - 1;
      BeginsFront(c, passes);
      WakesTakeTime(c, passes[..n]);
      assert passes[n].OnTime();
      LastWakeAfter(After(passes[..n]), passes[n]);
    }
  }

  /** At most 13 wakes, when sleeps are exact and a probe takes at most two seconds. */
  lemma {:induction false} AtMost13Wakes(c: Context, passes: seq<Pass>)
    requires Begins(c, passes)
    requires passes != [] ==> passes[0].start <= POLL_INTERVAL
    requires forall i | 0 < i < |passes| :: passes[i].start <= passes[i - 1].checkAt + POLL_INTERVAL
    requires forall i | 0 <= i < |passes| :: passes[i].coolAt <= passes[i].start + 2 * SECOND
    ensures CountWakes(passes) <= 13
  {
    hide Begins, After, Wakes;
    if passes != [] {
      var n := |passes| - 1;
      BeginsFront(c, passes);
      AtMost13Wakes(c, passes[..n]);
      if n > 0 { WentOn(c, passes, n - 1); }
      WakesTakeTime(c, passes[..n]);
      LastWakeAfter(After(passes[..n]), passes[n]);
    }
  }

  /** A pass wakes the client if and only if it asks, finds the client idle, and every earlier
      wake is at least 10 seconds old when it looks. */
  lemma WakesExactly(c: Context, passes: seq<Pass>, i: nat)
    requires Begins(c, passes) && i < |passes|
    ensures WakesAt(passes, i) <==>
      && Asks(passes[i]) && ReadinessFrom(passes[i].probe).Idle?
      && forall j | 0 <= j < i && WakesAt(passes, j) :: passes[i].coolAt >= passes[j].wakeAt + WAKE_COOLDOWN
  {
    hide GoesOn, NextLoop, ReadinessFrom, CountWakes;
    var front := passes[..i];
    BeginsPrefix(c, passes, i);
    forall j | 0 <= j < i && WakesAt(passes, j)
      ensures WakesAt(front, j) && After(front).lastWake.Some? && passes[j].wakeAt <= After(front).lastWake.value
    {
      assert front[..j] == passes[..j];
      LastWakeIsLatest(c, front, j);
    }
    if After(front).lastWake.Some? {
      var j := LastWakeWas(front);
      assert front[..j] == passes[..j] && WakesAt(passes, j);
    }
  }

  lemma {:induction false} LastWakeWas(passes: seq<Pass>) returns (j: nat)
    requires After(passes).lastWake.Some?
    ensures j < |passes| && WakesAt(passes, j) && After(passes).lastWake == Some(passes[j].wakeAt)
  {
    hide Wakes, NextLoop;
    EmptyLoop(passes);
    var n := |passes| - 1;
    var front := passes[..n];
    LastWakeAfter(After(front), passes[n]);
    if Wakes(After(front), passes[n]) {
      j := n;
    } else {
      j := LastWakeWas(front);
      assert front[..j] == passes[..j];
    }
  }

  lemma EmptyLoop(passes: seq<Pass>)
    ensures After([]) == BEGIN
    ensures passes != [] ==> After(passes) == NextLoop(After(passes[..|passes| - 1]), passes[|passes| - 1])
  {
  }

  /** A pass wakes or asks for a launch, never both; a wake is one to three requests, and
      their argument list is empty. */
  lemma WakesCannotLaunch(l: Loop, p: Pass)
    requires |p.wakes| == WAKE_ATTEMPTS
    ensures !(Posts(p) && Wakes(l, p))
    ensures Posts(p) <==> LaunchPost in PassRequests(l, p)
    ensures Wakes(l, p) ==> 1 <= |PassRequests(l, p)| <= 3
    ensures forall request | request in PassRequests(l, p) :: request == LaunchPost || request == NewArgs([])
  {
  }

  // ---- At most one launch ------------------------------------------------

  /** What the client is doing about this product: nothing, working through a launch it
      accepted (from us or anyone), or running the game. */
  datatype Phase = Quiet | Pending | Up

  predicate Onwards(a: Phase, b: Phase) {
    a.Quiet? || a == b || b.Up?
  }

  /** The client's side of a pass. */
  datatype Behind = Behind(atCheck: Phase, atProbe: Phase, atPost: Phase, after: Phase, accepted: bool)

  /** A probe that a mounted launcher answered. */
  predicate IsServed(probe: Outcome) {
    probe.Ok? && PresenceOf(probe.response).Serving? && !probe.response.IsServerError()
  }

  /** What the launch relies on, pass by pass. `readable` and `steady` switch the two rules
      that are about more than honesty: that a serving launcher with a launch under way
      says so readably, and that the game does not come up between the process check of
      a pass and its probe. */
  predicate Honest(p: Pass, h: Behind, readable: bool, steady: bool) {
    && Onwards(h.atCheck, h.atProbe) && Onwards(h.atProbe, h.atPost) && Onwards(h.atPost, h.after)
    && (p.gameUp <==> h.atCheck.Up?)
    && (steady && h.atProbe.Up? ==> h.atCheck.Up?)
    && (readable && IsServed(p.probe) && h.atProbe.Pending? ==> p.probe.response.body == Bool(true))
    && (h.accepted ==> !h.after.Quiet?)
  }

  ghost predicate Rules(passes: seq<Pass>, behind: seq<Behind>, readable: bool, steady: bool) {
    && |behind| == |passes|
    && (forall i | 0 <= i < |passes| :: Honest(passes[i], behind[i], readable, steady))
    && (forall i | 0 < i < |passes| :: Onwards(behind[i - 1].after, behind[i].atCheck))
  }

  lemma {:induction false} NeverQuietAgain(passes: seq<Pass>, behind: seq<Behind>, i: nat, j: nat)
    requires Rules(passes, behind, true, true) && i < j < |passes|
    requires !behind[i].after.Quiet?
    ensures !behind[j].atCheck.Quiet?
    decreases j
  {
    assert Onwards(behind[j - 1].after, behind[j].atCheck);
    if i < j - 1 {
      NeverQuietAgain(passes, behind, i, j - 1);
      assert Honest(passes[j - 1], behind[j - 1], true, true);
    }
  }

  /** While a launch is under way or the game is up - whoever asked - none is sent. */
  lemma NoLaunchOnTopOfAnother(passes: seq<Pass>, behind: seq<Behind>, i: nat, j: nat)
    requires Rules(passes, behind, true, true) && i < j < |passes|
    requires !behind[i].after.Quiet?
    ensures !Posts(passes[j])
  {
    NeverQuietAgain(passes, behind, i, j);
    assert Honest(passes[j], behind[j], true, true);
  }

  /** At most one launch: none is sent after one that the client accepted, though its
      answer was lost. */
  lemma AtMostOneLaunch(passes: seq<Pass>, behind: seq<Behind>, i: nat, j: nat)
    requires Rules(passes, behind, true, true) && i < j < |passes|
    requires behind[i].accepted
    ensures !Posts(passes[j])
  {
    assert Honest(passes[i], behind[i], true, true);
    NoLaunchOnTopOfAnother(passes, behind, i, j);
  }

  /** So of what is sent after it, nothing asks for a launch. */
  lemma NothingSentAfterAcceptance(passes: seq<Pass>, behind: seq<Behind>, i: nat)
    requires Rules(passes, behind, true, true) && i < |passes| && behind[i].accepted
    ensures RequestsOf(passes) == RequestsOf(passes[..i + 1]) + RequestsAfter(passes, i + 1)
    ensures LaunchPost !in RequestsAfter(passes, i + 1)
  {
    hide Posts;
    SentInTwo(passes, i + 1);
    forall j | i + 1 <= j < |passes| ensures !Posts(passes[j]) {
      AtMostOneLaunch(passes, behind, i, j);
    }
    NoPostsNoLaunches(passes, i + 1);
  }

  // ---- Both switched rules are needed ------------------------------------

  /** The pass asks for a launch and the client accepts it, not having refused. */
  predicate TakesLaunch(p: Pass, h: Behind) {
    Posts(p) && h.accepted && !AttemptOf(p.post).TurnedDown?
  }

  function Silent(): Outcome {
    Err(Transport)
  }

  function PassAt(start: Instant, probe: Outcome, post: Outcome): (p: Pass)
    ensures p.OnTime()
  {
    Pass(start, false, false, None, probe, None, start, post, start, start, start, start,
         [Silent(), Silent(), Silent()], start, start, start + POLL_INTERVAL)
  }

  /** Two launches can be accepted if a pending launch may be answered for unreadably. */
  lemma UnreadableAnswerLaunchesTwice(c: Context) returns (passes: seq<Pass>, behind: seq<Behind>)
    ensures IsRun(c, passes) && Rules(passes, behind, false, true)
    ensures |passes| == 2 && TakesLaunch(passes[0], behind[0]) && TakesLaunch(passes[1], behind[1])
  {
    var p := PassAt(0, Ok(Response(200, Bool(false))), Silent());
    var q := PassAt(POLL_INTERVAL, Ok(Response(200, Unreadable(""))), Ok(Response(200, Text("id"))));
    passes := [p, q];
    behind := [Behind(Quiet, Quiet, Quiet, Pending, true), Behind(Pending, Pending, Pending, Pending, true)];
    TwoPasses(c, p, q);
  }

  /** And two if the game may come up between a pass's process check and its probe. */
  lemma UnsteadyGameLaunchesTwice(c: Context) returns (passes: seq<Pass>, behind: seq<Behind>)
    ensures IsRun(c, passes) && Rules(passes, behind, true, false)
    ensures |passes| == 2 && TakesLaunch(passes[0], behind[0]) && TakesLaunch(passes[1], behind[1])
  {
    var p := PassAt(0, Ok(Response(200, Bool(false))), Silent());
    var q := PassAt(POLL_INTERVAL, Ok(Response(200, Bool(false))), Ok(Response(200, Text("id"))));
    passes := [p, q];
    behind := [Behind(Quiet, Quiet, Quiet, Pending, true), Behind(Pending, Up, Up, Up, true)];
    TwoPasses(c, p, q);
  }

  lemma TwoPasses(c: Context, p: Pass, q: Pass)
    requires p.OnTime() && q.OnTime() && p.end <= q.start
    requires Posts(p) && AttemptOf(p.post).NoAnswer? && p.checkAt < BOOT_TIMEOUT
    requires Posts(q) && AttemptOf(q.post).Done?
    ensures IsRun(c, [p, q])
  {
    var passes := [p, q];
    assert passes[..0] == [] && passes[..1] == [p];
    assert GoesOn(c, passes, 0) && !GoesOn(c, passes, 1);
  }
}
