/** Following a session: a stream of polls digested into a stream of events. */
module Session {
  import opened Client

  /** A session record as the watcher reads it. */
  datatype Record = Record(phase: string, version: string, ended: bool, exitCode: int, reason: string)

  /** One poll: what the client answered, and the process table's word on the game. */
  datatype Poll = Poll(session: Option<Record>, alive: bool)

  datatype Event =
    | Opened(phase: string, version: string, gameRunning: bool)
    | PhaseChanged(from: string, to: string)
    | GameRunning(running: bool)
    | Ended(exitCode: int, reason: string)
    | Lost
  {
    predicate IsTerminal() { Ended? || Lost? }
  }

  /** What the tracker holds between polls. */
  datatype State = State(phase: Option<string>, gameRunning: Option<bool>)

  const NEW := State(None, None)

  const POLL_SECS := 2
  const SESSION_POLL_SECS := 5

  function NextState(s: State, p: Poll): State {
    if p.session.Some? then State(Some(p.session.value.phase), Some(p.alive)) else s
  }

  function StepEvents(s: State, p: Poll): seq<Event> {
    match p.session
    case None => if p.alive then [] else [Lost]
    case Some(record) =>
      (match s.phase
       case None => [Opened(record.phase, record.version, p.alive)]
       case Some(previous) => if previous != record.phase then [PhaseChanged(previous, record.phase)] else [])
      + (if s.phase.Some? && s.gameRunning != Some(p.alive) then [GameRunning(p.alive)] else [])
      + (if record.ended then [Ended(record.exitCode, record.reason)] else [])
  }

  predicate IsOver(p: Poll) {
    match p.session case None => !p.alive case Some(record) => record.ended
  }

  function PollSecs(s: State): nat {
    if s.gameRunning == Some(true) then SESSION_POLL_SECS else POLL_SECS
  }

  class SessionTracker {
    var phase: Option<string>
    var gameRunning: Option<bool>

    function Current(): State
      reads this
    {
      State(phase, gameRunning)
    }

    constructor ()
      ensures Current() == NEW
    {
      phase, gameRunning := None, None;
    }

    method Step(session: Option<Record>, gameAlive: bool) returns (events: seq<Event>, over: bool)
      modifies this
      ensures var p := Poll(session, gameAlive);
        && events == StepEvents(old(Current()), p) && over == IsOver(p)
        && Current() == NextState(old(Current()), p)
    {
      if session.None? {
        if gameAlive {
          return [], false;
        }
        return [Lost], true;
      }
      events := [];
      var now := session.value.phase;
      var opening := phase.None?;
      var before := phase;
      phase := Some(now);
      match before {
        case None => events := [Opened(now, session.value.version, gameAlive)];
        case Some(previous) =>
          if previous != now {
            events := [PhaseChanged(previous, now)];
          }
      }
      var previously := gameRunning;
      gameRunning := Some(gameAlive);
      if !opening && previously != Some(gameAlive) {
        events := events + [GameRunning(gameAlive)];
      }
      if session.value.ended {
        events := events + [Ended(session.value.exitCode, session.value.reason)];
        return events, true;
      }
      return events, false;
    }
  }

  // ---- The watch ---------------------------------------------------------

  /** The tracker after some polls, and all it reported. */
  function After(polls: seq<Poll>): State {
    if polls == [] then NEW else NextState(After(polls[..|polls| - 1]), polls[|polls| - 1])
  }

  function Reported(polls: seq<Poll>): seq<Event> {
    if polls == [] then []
    else Reported(polls[..|polls| - 1]) + StepEvents(After(polls[..|polls| - 1]), polls[|polls| - 1])
  }

  /** No poll but the last can have ended the watch. */
  predicate Watched(polls: seq<Poll>) {
    forall i | 0 <= i < |polls| - 1 :: !IsOver(polls[i])
  }

  lemma NothingReported()
    ensures After([]) == NEW && Reported([]) == []
  {
  }

  lemma OneMorePoll(polls: seq<Poll>, n: nat)
    requires n < |polls|
    ensures After(polls[..n + 1]) == NextState(After(polls[..n]), polls[n])
    ensures Reported(polls[..n + 1]) == Reported(polls[..n]) + StepEvents(After(polls[..n]), polls[n])
  {
    assert polls[..n + 1][..n] == polls[..n];
  }

  class SessionWatch {
    var stopped: bool

    constructor ()
      ensures IsWatching()
    {
      stopped := false;
    }

    predicate IsWatching()
      reads this
    {
      !stopped
    }

    method Stop()
      modifies this
      ensures !IsWatching()
    {
      stopped := true;
    }
  }

  /** A turn of the watching thread: whether `stop` was called before it looked at the
      flag, and what it would poll. */
  datatype Turn = Turn(stopCalled: bool, poll: Poll)

  function PollsOf(turns: seq<Turn>): (r: seq<Poll>)
    ensures |r| == |turns| && forall i | 0 <= i < |r| :: r[i] == turns[i].poll
  {
    seq(|turns|, i requires 0 <= i < |turns| => turns[i].poll)
  }

  /** The thread of `watch_session`, for as many turns as the script holds. It polls up to
      the first stop or the poll that ends the watch, and whichever comes first, the
      watch then says that it is over; the wait before each turn is the tracker's. */
  method WatchSession(watch: SessionWatch, turns: seq<Turn>)
    returns (events: seq<Event>, polled: nat, waits: seq<nat>, finished: bool)
    requires watch.IsWatching()
    modifies watch
    ensures polled <= |turns| && Watched(PollsOf(turns)[..polled])
    ensures events == Reported(PollsOf(turns)[..polled])
    ensures forall i | 0 <= i < polled :: !turns[i].stopCalled
    ensures finished <==>
      (polled < |turns| && turns[polled].stopCalled) || (polled > 0 && IsOver(turns[polled - 1].poll))
    ensures !finished ==> polled == |turns|
    ensures finished ==> !watch.IsWatching()
    ensures forall i | 0 <= i < |waits| :: i < polled && waits[i] == PollSecs(After(PollsOf(turns)[..i + 1]))
    ensures |waits| == if polled > 0 && IsOver(turns[polled - 1].poll) then polled - 1 else polled
  {
    hide After, Reported, StepEvents, NextState, PollSecs;
    NothingReported();
    var tracker := new SessionTracker();
    events, polled, waits, finished := [], 0, [], false;
    ghost var polls := PollsOf(turns);
    while polled < |turns|
      invariant polled <= |turns| && |waits| == polled && watch.IsWatching()
      invariant forall i | 0 <= i < polled :: !turns[i].stopCalled && !IsOver(turns[i].poll)
      invariant tracker.Current() == After(polls[..polled]) && events == Reported(polls[..polled])
      invariant forall i | 0 <= i < polled :: waits[i] == PollSecs(After(polls[..i + 1]))
    {
      if turns[polled].stopCalled {
        watch.Stop();
      }
      if !watch.IsWatching() {
        finished := true;
        return;
      }
      var poll := turns[polled].poll;
      OneMorePoll(polls, polled);
      var found, over := tracker.Step(poll.session, poll.alive);
      events := events + found;
      polled := polled + 1;
      if over {
        watch.Stop();
        finished := true;
        return;
      }
      waits := waits + [PollSecs(tracker.Current())];
    }
  }

  // ---- The stream against a simple description ---------------------------

  function AnsweredPhases(polls: seq<Poll>): seq<string> {
    if polls == [] then []
    else
      var p := polls[|polls| - 1];
      AnsweredPhases(polls[..|polls| - 1]) + if p.session.Some? then [p.session.value.phase] else []
  }

  function AnsweredLiveness(polls: seq<Poll>): seq<bool> {
    if polls == [] then []
    else
      var p := polls[|polls| - 1];
      AnsweredLiveness(polls[..|polls| - 1]) + if p.session.Some? then [p.alive] else []
  }

  /** Neighbouring repeats removed. */
  function Destutter<T(==)>(s: seq<T>): seq<T> {
    if |s| <= 1 then s
    else Destutter(s[..|s| - 1]) + if s[|s| - 1] != s[|s| - 2] then [s[|s| - 1]] else []
  }

  function Told<T>(events: seq<Event>, of: Event -> seq<T>): seq<T> {
    if events == [] then [] else Told(events[..|events| - 1], of) + of(events[|events| - 1])
  }

  function PhaseIn(event: Event): seq<string> {
    match event
    case Opened(phase, _, _) => [phase]
    case PhaseChanged(_, to) => [to]
    case _ => []
  }

  function LivenessIn(event: Event): seq<bool> {
    match event
    case Opened(_, _, running) => [running]
    case GameRunning(running) => [running]
    case _ => []
  }

  function PhasesTold(events: seq<Event>): seq<string> {
    Told(events, PhaseIn)
  }

  function LivenessTold(events: seq<Event>): seq<bool> {
    Told(events, LivenessIn)
  }

  lemma {:induction false} ToldAdds<T>(a: seq<Event>, b: seq<Event>, of: Event -> seq<T>)
    ensures Told(a + b, of) == Told(a, of) + Told(b, of)
  {
    if b == [] {
      assert a + b == a;
    } else {
      var front, last := b[..|b| - 1], of(b[|b| - 1]);
      ToldAdds(a, front, of);
      assert (a + b)[..|a + b| - 1] == a + front;
      assert Told(a, of) + Told(front, of) + last == Told(a, of) + (Told(front, of) + last);
    }
  }

  lemma OneTold(event: Event)
    ensures PhasesTold([event]) == PhaseIn(event) && LivenessTold([event]) == LivenessIn(event)
  {
    assert [event][..0] == [];
    assert Told([], PhaseIn) + PhaseIn(event) == PhaseIn(event);
    assert Told([], LivenessIn) + LivenessIn(event) == LivenessIn(event);
  }

  lemma NothingTold()
    ensures PhasesTold([]) == [] && LivenessTold([]) == []
  {
  }

  lemma BothToldAdd(a: seq<Event>, b: seq<Event>)
    ensures PhasesTold(a + b) == PhasesTold(a) + PhasesTold(b)
    ensures LivenessTold(a + b) == LivenessTold(a) + LivenessTold(b)
  {
    ToldAdds(a, b, PhaseIn);
    ToldAdds(a, b, LivenessIn);
  }

  function Last<T>(s: seq<T>): Option<T> {
    if s == [] then None else Some(s[|s| - 1])
  }

  /** The tracker holds the last answered poll. */
  lemma {:induction false} TrackerHoldsTheLastAnswer(polls: seq<Poll>)
    ensures After(polls).phase == Last(AnsweredPhases(polls))
    ensures After(polls).gameRunning == Last(AnsweredLiveness(polls))
    ensures AnsweredPhases(polls) == [] <==> AnsweredLiveness(polls) == []
  {
    if polls != [] { TrackerHoldsTheLastAnswer(polls[..|polls| - 1]); }
  }

  lemma StepTells(s: State, p: Poll)
    requires s.phase.None? <==> s.gameRunning.None?
    ensures p.session.None? ==> PhasesTold(StepEvents(s, p)) == [] && LivenessTold(StepEvents(s, p)) == []
    ensures p.session.Some? ==>
      && PhasesTold(StepEvents(s, p)) == (if s.phase == Some(p.session.value.phase) then [] else [p.session.value.phase])
      && LivenessTold(StepEvents(s, p)) == (if s.gameRunning == Some(p.alive) then [] else [p.alive])
  {
    hide PhasesTold, LivenessTold;
    NothingTold();
    OneTold(Lost);
    if p.session.Some? {
      var record := p.session.value;
      OneTold(Opened(record.phase, record.version, p.alive));
      OneTold(PhaseChanged(if s.phase.Some? then s.phase.value else "", record.phase));
      OneTold(GameRunning(p.alive));
      OneTold(Ended(record.exitCode, record.reason));
      var first := match s.phase
        case None => [Opened(record.phase, record.version, p.alive)]
        case Some(previous) => if previous != record.phase then [PhaseChanged(previous, record.phase)] else [];
      var second := if s.phase.Some? && s.gameRunning != Some(p.alive) then [GameRunning(p.alive)] else [];
      var third := if record.ended then [Ended(record.exitCode, record.reason)] else [];
      BothToldAdd(first + second, third);
      BothToldAdd(first, second);
    }
  }

  /** The phases told, from the opening on, are the answered polls' phases without
      repeats, and the same for the game being up. */
  lemma {:induction false} EventsAreTheChanges(polls: seq<Poll>)
    ensures PhasesTold(Reported(polls)) == Destutter(AnsweredPhases(polls))
    ensures LivenessTold(Reported(polls)) == Destutter(AnsweredLiveness(polls))
  {
    hide StepEvents, NextState, After, Destutter;
    if polls == [] {
      DestutterNothing();
    } else {
      var front, p := polls[..|polls| - 1], polls[|polls| - 1];
      EventsAreTheChanges(front);
      TrackerHoldsTheLastAnswer(front);
      StepTells(After(front), p);
      BothToldAdd(Reported(front), StepEvents(After(front), p));
      if p.session.Some? {
        DestutterOneMore(AnsweredPhases(front), p.session.value.phase);
        DestutterOneMore(AnsweredLiveness(front), p.alive);
        assert AnsweredPhases(polls) == AnsweredPhases(front) + [p.session.value.phase];
        assert AnsweredLiveness(polls) == AnsweredLiveness(front) + [p.alive];
      } else {
        assert AnsweredPhases(polls) == AnsweredPhases(front);
        assert AnsweredLiveness(polls) == AnsweredLiveness(front);
      }
    }
  }

  /** The place of an event among those of one poll. */
  function Rank(event: Event): nat {
    match event
    case Opened(_, _, _) => 0
    case PhaseChanged(_, _) => 0
    case GameRunning(_) => 1
    case Ended(_, _) => 2
    case Lost => 2
  }

  /** Poll by poll: what poll `n` adds to the stream tells its phase if the answered poll
      before it had another or there was none, and the same for the game being up; phase,
      liveness and ending in this order, each at most once. */
  lemma EachPollTellsItsChanges(polls: seq<Poll>, n: nat) returns (added: seq<Event>)
    requires n < |polls|
    ensures Reported(polls[..n + 1]) == Reported(polls[..n]) + added
    ensures forall i, j | 0 <= i < j < |added| :: Rank(added[i]) < Rank(added[j])
    ensures !IsAnswered(polls[n]) ==> added == if polls[n].alive then [] else [Lost]
    ensures IsAnswered(polls[n]) ==>
      var record := polls[n].session.value;
      && PhasesTold(added) == (if Last(AnsweredPhases(polls[..n])) == Some(record.phase) then [] else [record.phase])
      && LivenessTold(added) == (if Last(AnsweredLiveness(polls[..n])) == Some(polls[n].alive) then [] else [polls[n].alive])
      && (forall from, to | PhaseChanged(from, to) in added :: Last(AnsweredPhases(polls[..n])) == Some(from))
      && (forall event | event in added && event.Opened? :: event.version == record.version)
      && (forall event | event in added && event.IsTerminal() :: event == Ended(record.exitCode, record.reason))
      && (record.ended <==> Ended(record.exitCode, record.reason) in added)
  {
    hide Reported, After, PhasesTold, LivenessTold;
    OneMorePoll(polls, n);
    TrackerHoldsTheLastAnswer(polls[..n]);
    added := StepEvents(After(polls[..n]), polls[n]);
    StepTells(After(polls[..n]), polls[n]);
  }

  lemma DestutterNothing()
    ensures Destutter<string>([]) == [] && Destutter<bool>([]) == []
  {
  }

  lemma DestutterOneMore<T>(s: seq<T>, x: T)
    ensures Destutter(s + [x]) == Destutter(s) + if Last(s) == Some(x) then [] else [x]
  {
    assert (s + [x])[..|s|] == s;
  }

  /** What was told is enough to know the tracker, and so the next wait. */
  lemma EventsRebuildTheTracker(polls: seq<Poll>)
    ensures After(polls)
         == State(Last(PhasesTold(Reported(polls))), Last(LivenessTold(Reported(polls))))
    ensures PollSecs(After(polls)) == if Last(LivenessTold(Reported(polls))) == Some(true) then 5 else 2
  {
    TrackerHoldsTheLastAnswer(polls);
    EventsAreTheChanges(polls);
    LastOfDestutter(AnsweredPhases(polls));
    LastOfDestutter(AnsweredLiveness(polls));
  }

  lemma {:induction false} LastOfDestutter<T>(s: seq<T>)
    ensures Last(Destutter(s)) == Last(s)
  {
    if |s| > 1 { LastOfDestutter(s[..|s| - 1]); }
  }

  // ---- The order of the stream -------------------------------------------

  predicate IsAnswered(p: Poll) {
    p.session.Some?
  }

  predicate AnyAnswered(polls: seq<Poll>) {
    exists k :: 0 <= k < |polls| && IsAnswered(polls[k])
  }

  /** `Opened` comes first and once, if the session was; an ending comes last and once,
      if the watch is over, and is `Lost` exactly when the last poll was. */
  predicate InOrder(events: seq<Event>, begun: bool, over: bool, lost: bool) {
    && (forall i | 0 <= i < |events| :: events[i].Opened? <==> i == 0 && begun)
    && (forall i | 0 <= i < |events| :: events[i].IsTerminal() <==> i == |events| - 1 && over)
    && (over ==> events != [] && (events[|events| - 1].Lost? <==> lost))
    && (begun ==> events != [])
  }

  /** The stream of a watch is in that order: it opens if any poll was answered, and it is
      lost when the poll that ended it was not - which may be before anything was. */
  lemma {:induction false} StreamOrder(polls: seq<Poll>)
    requires Watched(polls)
    ensures InOrder(Reported(polls), AnyAnswered(polls),
                    polls != [] && IsOver(polls[|polls| - 1]),
                    polls != [] && !IsAnswered(polls[|polls| - 1]))
    ensures !AnyAnswered(polls) && (polls == [] || !IsOver(polls[|polls| - 1])) ==> Reported(polls) == []
  {
    if polls != [] {
      var front, p := polls[..|polls| - 1], polls[|polls| - 1];
      StreamOrder(front);
      StepOrder(After(front), p);
      TrackerHoldsTheLastAnswer(front);
      SomethingAnswered(front);
      SilentStep(After(front), p);
      hide StepEvents;
      AnsweredInOneMore(polls);
      hide AnyAnswered, InOrder, AnsweredPhases;
      StepInOrder(Reported(front), StepEvents(After(front), p), AnyAnswered(front),
                  front != [] && !IsAnswered(front[|front| - 1]), IsAnswered(p), IsOver(p));
    }
  }

  lemma AnsweredInOneMore(polls: seq<Poll>)
    requires polls != []
    ensures AnyAnswered(polls) <==> IsAnswered(polls[|polls| - 1]) || AnyAnswered(polls[..|polls| - 1])
  {
    var front := polls[..|polls| - 1];
    if k :| 0 <= k < |front| && IsAnswered(front[k]) {
      assert IsAnswered(polls[k]);
    }
    if k :| 0 <= k < |polls| && IsAnswered(polls[k]) {
      assert k < |front| ==> IsAnswered(front[k]);
    }
  }

  /** So a watch can be lost without ever having opened. */
  lemma LostCanComeFirst() returns (polls: seq<Poll>)
    ensures Watched(polls) && polls != [] && IsOver(polls[|polls| - 1])
    ensures Reported(polls) == [Lost]
  {
    polls := [Poll(None, false)];
    OneMorePoll(polls, 0);
    assert polls[..0] == [] && polls[..1] == polls;
  }

  // A step's events behind those of a watch that is not over.
  lemma StepInOrder(before: seq<Event>, found: seq<Event>, begun: bool, silent: bool,
                    answered: bool, over: bool)
    requires InOrder(before, begun, false, silent) && (!begun ==> before == [])
    requires InOrder(found, answered && !begun, over, !answered)
    ensures InOrder(before + found, begun || answered, over, !answered)
  {
    var events := before + found;
    assert forall i | 0 <= i < |before| :: events[i] == before[i];
    assert forall i | |before| <= i < |events| :: events[i] == found[i - |before|];
  }

  lemma SilentStep(s: State, p: Poll)
    ensures !IsAnswered(p) && !IsOver(p) ==> StepEvents(s, p) == []
  {
  }

  lemma StepOrder(s: State, p: Poll)
    ensures InOrder(StepEvents(s, p), IsAnswered(p) && s.phase.None?, IsOver(p), !IsAnswered(p))
  {
  }

  lemma {:induction false} SomethingAnswered(polls: seq<Poll>)
    ensures AnsweredPhases(polls) != [] <==> AnyAnswered(polls)
  {
    if polls != [] {
      hide AnyAnswered;
      SomethingAnswered(polls[..|polls| - 1]);
      AnsweredInOneMore(polls);
    } else {
      assert !AnyAnswered(polls);
    }
  }

  lemma ReportedAndOne(polls: seq<Poll>, p: Poll)
    ensures Reported(polls + [p]) == Reported(polls) + StepEvents(After(polls), p)
    ensures After(polls + [p]) == NextState(After(polls), p)
  {
    OneMorePoll(polls + [p], |polls|);
    assert (polls + [p])[..|polls|] == polls && (polls + [p])[..|polls| + 1] == polls + [p];
  }

  lemma SilentLast(polls: seq<Poll>, silent: Poll)
    requires silent.session.None? && silent.alive
    ensures Reported(polls + [silent]) == Reported(polls) && After(polls + [silent]) == After(polls)
  {
    hide Reported, After;
    ReportedAndOne(polls, silent);
  }

  /** A poll that is not answered while the game lives changes nothing at all. */
  lemma {:induction false} UnansweredIsInvisible(before: seq<Poll>, after: seq<Poll>, silent: Poll)
    requires silent.session.None? && silent.alive
    ensures Reported(before + [silent] + after) == Reported(before + after)
    ensures After(before + [silent] + after) == After(before + after)
    decreases |after|
  {
    hide Reported, After;
    if after == [] {
      SilentLast(before, silent);
      assert before + [silent] + after == before + [silent] && before + after == before;
    } else {
      hide StepEvents, NextState;
      var front, p := after[..|after| - 1], after[|after| - 1];
      UnansweredIsInvisible(before, front, silent);
      ReportedAndOne(before + [silent] + front, p);
      ReportedAndOne(before + front, p);
      assert before + [silent] + after == before + [silent] + front + [p];
      assert before + after == before + front + [p];
    }
  }
}
