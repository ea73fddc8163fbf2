# Verified model of the Riot Client launcher

The repository starts and follows games through the Riot Client: a launch protocol that
polls a client it cannot see into, watchers that follow a session, a request engine with
retries, and a generator that turns the client's own description of its API into Rust
modules. This project models the parts where branching, state and arithmetic meet, and
proves what they keep over every input and every run.

- **Launching** (`Client`, `Launch`, `LaunchRuns`, `LaunchTrace`). `WaitForLauncher` is the
  wait loop over its own variables. Everything it learns - the stop flag, the process
  table, the client's answers, each read of the clock - comes from a *world*, any sequence
  of passes whose instants are in order and whose sleeps are not cut short. In every world
  the loop ends, and what it met is a *run*; the theorems of `LaunchRuns` are about all
  runs: at most one launch, time and wake bounds, when a refusal is believed, what stopping
  does. `LaunchTrace` adds the ways a launch is delivered and the language of progress
  stages.
- **Watching** (`Session`). The tracker is a class whose `Step` digests one poll; the
  stream of a whole watch is compared with a plain description, the answered polls without
  repeats.
- **Hiding** (`Hider`). The hide thread is a transition system beside a caller that may call
  `stop` between any two of its steps; the theorems hold in every interleaving.
- **Retrying** (`Retry`). The schedule, the policies and the loop of `send`, for every
  policy and every sequence of outcomes.
- **Routes** (`Route`). `bind` replaces placeholders one after another; it is compared with
  filling all of them at once, and values are recovered from the bound path.
- **Generating** (`Text`, `FunctionName`, `Surface`, `Endpoints`, `Emission`, `Closure`,
  `Calendar`). Function names and their printer, path derivation, route tables, the walk
  over a possibly cyclic type graph that reserves slots, worklists as least closed sets, and
  the date arithmetic as the proleptic Gregorian calendar.

Loops and objects of the source are methods, loops and classes here. Each is proved against
a function or a predicate, and the lemmas are about that.

## Rules about the environment

The client decides whether it accepts a launch; the code can only ask. That no launch is
requested after an accepted one rests on rules about the client, stated in
`LaunchRuns.Honest`: an accepted launch is pending until the game is up, and the game then
stays up; a serving launcher that has a launch under way says so with a readable `true`; and
the game does not come up between a pass's process check and its probe. The last two are about more than honesty, and each has a lemma that shows a
second accepted launch without it: an unreadable answer counts as "nothing pending", and
the check and the probe are two separate looks.

## Where code and documentation differ

The model follows the code.

- `SessionWatch::is_watching` is documented to answer `false` once the watcher has finished
  on its own. A hide thread that cannot build a client, or whose game never starts, returns
  without setting the flag (`Hider.EarlyReturnGoesUnreported`); `Hider.OverIsReported` says
  exactly when the answer is right: if a poll saw the game or the caller called `stop`.
- Session events are documented as `Opened` once and then the others. A watch whose every
  poll goes unanswered and whose game is gone reports `Lost` alone (`Session.StreamOrder`, `Session.LostCanComeFirst`).
- `RetryPolicy::attempts` and `deadline` accept any bound, but the schedule converts to a
  duration before it caps, and that conversion panics from the 69th attempt.
  `Retry.AttemptsPanicFromSeventy` and `Retry.DeadlinePanicsPast65Seconds` give the exact
  bounds that are safe.
- `bind` is documented as substitution of placeholders. A value that itself looks like a
  later placeholder is substituted again (`Route.PlaceholderLikeValueIsBoundAgain`);
  `Route.AtOnceExactly` says exactly when that does not matter, and `Route.WhatIsLeftAlone`
  how to see it in the text of a value.
- The comment in `parse_function` speaks of a fixed order of verbs; `FunctionName.VerbIsUnique`
  shows that any order gives the same result.

## Model

| member | source | states |
|---|---|---|
| Launch.StopFlag.Stop | crates/ritoclient/src/launch.rs:192-194 | A stopped flag reads as stopped. |
| LaunchRuns.FlagReads | crates/ritoclient/src/launch.rs:174-199 | What a wait reads of a flag that a clone stops at an instant: unset at reads before it, set at every read from then on. These are the passes that the results about stopping are about. |
| Launch.ReadinessOf | crates/ritoclient/src/launch.rs:816-837 | Only a readable `true` from a mounted launcher counts as a launch under way; not-yet exactly for a server error or a 404 that says `RPC_ERROR`; any other 404 is a client idling in the tray. |
| Launch.AttemptOf | crates/ritoclient/src/launch.rs:865-921 | Done exactly on a success; no answer exactly on a failed request, a server error or a 404 that says `RPC_ERROR`; otherwise turned down, with Riot's own code and prose if it gave them, else unexplained. |
| Launch.WakeEndsAtNoContent | crates/ritoclient/src/launch.rs:1001-1019 | A wake takes as many tries as there are up to the first 204, or all three. |
| Launch.Wake | crates/ritoclient/src/launch.rs:977-1023 | Sends an empty argument list one to three times, up to the first 204, and succeeds exactly if one of the tries was answered 204. |
| Launch.WaitOnce | crates/ritoclient/src/launch.rs:1137-1246 | One turn of the wait on its three variables: what it sends, reports and remembers, and how it ends the wait, equal the specification functions that the lemmas of `LaunchRuns` are about. |
| Launch.WaitForLauncher | crates/ritoclient/src/launch.rs:1088-1248 | In every world the wait ends, having met passes of which none but the last ends a wait; its result, its reports and its requests are those of that run. |
| LaunchRuns.AtMost121Passes | crates/ritoclient/src/launch.rs:1233-1246 | A wait is at most 121 passes long, whatever the passes cost. |
| LaunchRuns.EndsInTime | crates/ritoclient/src/launch.rs:1233-1246 | The last deadline check of a wait comes before 120 s plus one pause between passes plus one pass's work. |
| LaunchRuns.DeadlineIsReal | crates/ritoclient/src/launch.rs:1233-1237 | A reading of the last pass: a wait that fails as unreachable, other than for an unexplained refusal, has run at least 120 s. |
| LaunchRuns.LaunchedMeans | crates/ritoclient/src/launch.rs:1141-1180 | A reading of the last pass: the wait reports a launch if and only if it saw the game up or had its launch request answered with a success; which pid and session it then reports. It reports a stop if and only if it read the flag set. |
| LaunchRuns.PostsExactly | crates/ritoclient/src/launch.rs:1141-1170 | A reading of one pass: it asks for a launch if and only if it was not stopped, saw no game, and a mounted launcher answered its probe with anything but a readable `true`. |
| LaunchRuns.UnexplainedRefusalEndsAtOnce | crates/ritoclient/src/launch.rs:1193 | A request turned down without a reason of Riot's ends the wait in that pass, as an unexplained refusal. |
| LaunchRuns.SentExactly | crates/ritoclient/src/launch.rs:1173-1221 | Over a whole wait: as many launch requests are sent as there are passes that ask, one each; one to three wakes with an empty argument list for each pass that wakes; nothing else. |
| LaunchRuns.ReasonIsTheLatest | crates/ritoclient/src/launch.rs:1134-1237 | The reason a timed-out wait gives is the latest complaint of any pass; refused passes and passes that found a launch pending leave it alone. |
| LaunchRuns.StopEndsTheWait | crates/ritoclient/src/launch.rs:1138-1144 | A pass that begins after the stop is the last one, returns `Stopped`, sends nothing and reports nothing. |
| LaunchRuns.OneLatePost | crates/ritoclient/src/launch.rs:1138-1144 | At most one pass asks for a launch after the stop. |
| LaunchRuns.AtMostOneLateLaunch | crates/ritoclient/src/launch.rs:1138-1144 | At most one launch request is sent after the stop, counted in what was sent. |
| LaunchRuns.RefusalClock | crates/ritoclient/src/launch.rs:1185-1191 | The refusal clock holds the instant of the first refusal for the rest of the wait, and is unset before it. |
| LaunchRuns.RefusedOnlyAfterGrace | crates/ritoclient/src/launch.rs:1185-1191 | `Refused` is returned only by a refused pass, at least 30 s after the first refusal of the wait. |
| LaunchRuns.RefusalDecides | crates/ritoclient/src/launch.rs:1185-1237 | When every pass from the first refusal on is refused, the wait ends with the last refusal if the first is 30 s old by then, and otherwise at the deadline with its last reason. |
| LaunchRuns.SteadyRefusalIsReported | crates/ritoclient/src/launch.rs:1114-1123 | A refusal that starts by 90 s and does not let up ends the wait as `Refused`, never as unreachable, when refusal clock and deadline are read at one instant. |
| LaunchRuns.WakesAreApart | crates/ritoclient/src/launch.rs:1206-1210 | Any two wakes of a wait are at least 10 s apart. |
| LaunchRuns.WakesExactly | crates/ritoclient/src/launch.rs:1206-1210 | A pass wakes the client if and only if it asks, finds it idle, and every earlier wake is at least 10 s old. |
| LaunchRuns.AtMost13Wakes | crates/ritoclient/src/launch.rs:1206-1210 | At most 13 wakes, under exact sleeps and probes of at most 2 s. |
| LaunchRuns.WakesCannotLaunch | crates/ritoclient/src/launch.rs:1206-1222 | A reading of one pass: it does not both wake and ask for a launch; a wake is one to three requests and every argument list it sends is empty. |
| LaunchRuns.NoLaunchOnTopOfAnother | crates/ritoclient/src/launch.rs:1198-1204 | Under the environment rules, no launch request is sent once the client is working through a launch or running the game, whoever asked for it. |
| LaunchRuns.AtMostOneLaunch | crates/ritoclient/src/launch.rs:1153-1204 | Under the environment rules, no pass asks for a launch after one the client accepted, even if its answer was lost. |
| LaunchRuns.NothingSentAfterAcceptance | crates/ritoclient/src/launch.rs:1153-1204 | So of all that is sent after the pass of the accepted request, nothing is a launch request. |
| LaunchRuns.UnreadableAnswerLaunchesTwice | crates/ritoclient/src/launch.rs:816-837 | Without the rule that a pending launch is reported readably, a run exists in which the client accepts two launches. |
| LaunchRuns.UnsteadyGameLaunchesTwice | crates/ritoclient/src/launch.rs:1150-1160 | Without the rule that the game does not come up between a pass's process check and its probe, so does one. |
| LaunchTrace.AdoptedMeans | crates/ritoclient/src/launch.rs:677-732 | A launch adopts the running game if and only if the game was up before anything was asked, the client has no session of it, a connection can be set up, the pid fits 32 signed bits and the client answers with a success that is a session id; that id is the launch's, and nothing was sent that could start a game. |
| LaunchTrace.FailuresMean | crates/ritoclient/src/launch.rs:609-665 | Each failure before the wait comes exactly of its own cause: no Windows, no client found, none spawned, no connection - the earlier one first. |
| LaunchTrace.ReportRunning | crates/ritoclient/src/launch.rs:677-703 | `Adopted` exactly when the client had no session open and took the pid; the session reported is the open one, else the adopted one, else none. |
| LaunchTrace.HandOff | crates/ritoclient/src/launch.rs:1034-1068 | A connection that cannot be set up fails before `HandingOff` is reported; otherwise the wait on the live client follows it. |
| LaunchTrace.ColdStart | crates/ritoclient/src/launch.rs:638-665 | `ColdStart` is reported before either failure; otherwise the wait on the spawned client follows it. |
| LaunchTrace.WaitOf | crates/ritoclient/src/launch.rs:609-627 | Exactly when a launch comes to a wait, and on which pid: the live client's if one holds the lockfile, else the spawned one's. |
| LaunchTrace.LaunchInner | crates/ritoclient/src/launch.rs:597-629 | Which of its endings a launch comes to, in the order the code tries them, and what it reported and sent by then. |
| LaunchTrace.LaunchWithStop | crates/ritoclient/src/launch.rs:322-364 | The stages observed form a sentence of the language `Hear` accepts, closed by the stage that agrees with the result; a launch stopped beforehand only says so; a waited launch keeps its route; launches are asked for only in the wait. |
| LaunchTrace.HeardRun | crates/ritoclient/src/launch.rs:1206-1245 | A whole wait is heard as a repetition of an optional `WakingClient` and a `WaitingForClient`, an optional last `WakingClient`, and then the closing stage, which after such a wake is `Error`. |
| LaunchTrace.EveryWakeAndPassIsReported | crates/ritoclient/src/launch.rs:1206-1245 | A wait reports `WakingClient` once for each wake and `WaitingForClient` once for each of its passes but the last. |
| LaunchTrace.ClosedOnce | crates/ritoclient/src/launch.rs:343-361 | In a sentence of the language the closing stage is the last one and the only one. |
| LaunchTrace.SecondsCountUp | crates/ritoclient/src/launch.rs:1239-1245 | The seconds reported as waited increase strictly from report to report while they fit 32 bits. |
| LaunchTrace.SecondsStayBelow120 | crates/ritoclient/src/launch.rs:1233-1245 | They stay below the 120 reported as the budget, when deadline and report are read at one instant. |
| Session.SessionTracker.Step | crates/ritoclient/src/session.rs:259-312 | One poll: the events reported, whether the watch is over, and the new state, as the specification functions give them. |
| Session.SessionWatch.Stop | crates/ritoclient/src/session.rs:59-61 | A stopped watch is not watching. |
| Session.WatchSession | crates/ritoclient/src/session.rs:209-230 | Polls up to the first stop or the poll that ends the watch; reports what the specification reports of those polls; waits between them as the tracker says; leaves the watch not watching. |
| Session.TrackerHoldsTheLastAnswer | crates/ritoclient/src/session.rs:281-304 | After any polls the tracker holds phase and liveness of the last answered one. |
| Session.EachPollTellsItsChanges | crates/ritoclient/src/session.rs:266-312 | What each poll adds: a phase if it differs from the last answered poll's, a liveness if it does, and the ending, in this order and each at most once, with the right previous phase, version, exit code and reason; for an unanswered poll nothing, or `Lost` if the game is gone. |
| Session.EventsAreTheChanges | crates/ritoclient/src/session.rs:281-304 | The phases told by a stream are the answered polls' phases without repeats, and likewise whether the game is up. |
| Session.EventsRebuildTheTracker | crates/ritoclient/src/session.rs:319-324 | The events told determine the tracker's state, and so the next wait: 5 s if the last liveness told is up, else 2 s. |
| Session.StreamOrder | crates/ritoclient/src/session.rs:74-80 | `Opened` comes first and once if any poll was answered; a terminal event comes last and once if the watch is over, and is `Lost` exactly if the last poll was unanswered - which may be before any `Opened`. |
| Session.LostCanComeFirst | crates/ritoclient/src/session.rs:266-276 | A watch whose whole stream is `Lost`: the first poll is unanswered and the game is not up. |
| Session.UnansweredIsInvisible | crates/ritoclient/src/session.rs:266-276 | An unanswered poll while the game lives can be removed from any sequence of polls without changing events or state. |
| Hider.InvHolds | crates/ritoclient/src/session.rs:378-429 | Every step of the thread, of the caller and of time keeps the invariant. |
| Hider.RunsKeepInv | crates/ritoclient/src/session.rs:378-429 | So every state of every interleaving satisfies it. |
| Hider.HidingIsSafe | crates/ritoclient/src/session.rs:391-407 | In every interleaving: no hide before a poll saw the game, at most one hide after `stop`, at most six hides, and at least one when the thread ran to its end. |
| Hider.GivesUpAfterFiveMinutes | crates/ritoclient/src/session.rs:417-429 | A wait for the game that was not stopped gives up only when 300 s have passed. |
| Hider.GameWasSeen | crates/ritoclient/src/session.rs:417-429 | A thread past the wait has a step in which its look at the process table found the game. |
| Hider.StopIsHeeded | crates/ritoclient/src/session.rs:398-407 | Once `stop` was called, no step takes the thread into another game check, session sleep or re-hide sleep. |
| Hider.OverIsReported | crates/ritoclient/src/session.rs:376-414 | When the thread is over, the watch says so if and only if a poll saw the game or the caller called `stop`. |
| Hider.EarlyReturnGoesUnreported | crates/ritoclient/src/session.rs:379-389 | A run whose thread has returned while the watch still says it is watching. |
| Hider.SixHidesCanHappen | crates/ritoclient/src/session.rs:399-407 | A run with six hides: the bound is reached. |
| Retry.Send | crates/ritoclient-core/src/client.rs:449-479 | Returns the outcome of the last attempt made, after retries that the policy each asked for; at most `max_attempts` attempts; a body that failed to encode is returned without an attempt. |
| Retry.CeilingEndsTheLoop | crates/ritoclient-core/src/retry.rs:169-171 | Fewer retries than the ceiling, for every policy and outcomes. |
| Retry.RetriesWereAllowed | crates/ritoclient-core/src/retry.rs:166-183 | Every retry followed an outcome the predicate accepted, slept what the schedule says and fitted the deadline strictly when decided. |
| Retry.RetriesExactly | crates/ritoclient-core/src/retry.rs:160-184 | A call goes on past an attempt if and only if the predicate accepts its outcome, the ceiling is not reached, and the schedule has a delay that fits strictly inside the deadline. |
| Retry.AttemptsRetryExactly | crates/ritoclient-core/src/retry.rs:90-121 | While the schedule is defined, `attempts(max)` goes on past an attempt if and only if that was a transport failure or a 5xx and fewer than `max` were made. |
| Retry.AttemptsAreAtMost | crates/ritoclient-core/src/retry.rs:110-121 | `attempts(max)` makes at most `max` attempts, and one for 0. |
| Retry.DeadlineRetriesExactly | crates/ritoclient-core/src/retry.rs:90-135 | While the schedule is defined, `deadline(d)` goes on past an attempt if and only if that was a transport failure or a 5xx and min(0.1 s * 2^k, 1 s) more is strictly before `d`. |
| Retry.ScheduleGrowsByItsMultiplier | crates/ritoclient-core/src/retry.rs:37-50 | In an exponential schedule the first delay is the initial one and each further one is the one before multiplied, all cut to the cap. |
| Retry.BuiltInsRetryFailuresOnly | crates/ritoclient-core/src/retry.rs:80-135 | The built-in policies repeat after transport failures and server errors alone; the default policy repeats nothing. |
| Retry.SleepsFitTheDeadline | crates/ritoclient-core/src/retry.rs:177-183 | All the sleeping of a call is strictly less than its deadline. |
| Retry.DeadlineEndsTheLoop | crates/ritoclient-core/src/retry.rs:177-183 | If no delay is shorter than a positive `least`, fewer than deadline / least retries are made. |
| Retry.BuiltInSchedule | crates/ritoclient-core/src/retry.rs:37-50 | The built-in schedule is min(0.1 s * 2^(n-1), 1 s) up to attempt 68, and panics exactly from attempt 69 to 2^31. |
| Retry.BuiltInDelays | crates/ritoclient-core/src/retry.rs:110-121 | 0.1, 0.2, 0.4, 0.8 and then 1 s. |
| Retry.BuiltInIsMonotoneAndCapped | crates/ritoclient-core/src/retry.rs:37-50 | Delays never shrink and stay within 0.1 s and 1 s. |
| Retry.AttemptsPanicFromSeventy | crates/ritoclient-core/src/retry.rs:110-121 | No run under `attempts(max)` panics if and only if max <= 69. |
| Retry.DeadlinePanicsPast65Seconds | crates/ritoclient-core/src/retry.rs:124-135 | No run under `deadline(d)` panics if and only if d <= 65.5 s. |
| Route.EncodeSegment | crates/ritoclient-core/src/route.rs:175-188 | The loop encodes character by character, to the text that the next three results are about. |
| Route.EncodedIsSafe | crates/ritoclient-core/src/route.rs:175-188 | An encoded value has no `/`, `?`, `#` or space, and every `%` in it begins one of the five escapes. |
| Route.OrdinaryIsUnchanged | crates/ritoclient-core/src/route.rs:175-188 | A value with none of the five characters is sent as it is. |
| Route.Bind | crates/ritoclient-core/src/route.rs:96-109 | The loop is the in-turn replacement that the lemmas are about. |
| Route.InTurnIsAtOnce | crates/ritoclient-core/src/route.rs:96-100 | On every template, whole segments or not, whose text has no `{` and whose names have no brace, with values free of `{`: replacing one parameter after another equals filling all placeholders at once, the first binding of a name winning. |
| Route.BindsBySegment | crates/ritoclient-core/src/route.rs:96-100 | Binding a path is binding each of its segments, whatever they and the values hold: no value reaches across a `/`. |
| Route.AtOnceExactly | crates/ritoclient-core/src/route.rs:96-100 | Where placeholders are whole segments, for arbitrary values: one after another equals all at once if and only if each bound value is left alone by the parameters after the one that binds it. |
| Route.WhatIsLeftAlone | crates/ritoclient-core/src/route.rs:96-100 | A value is left alone if no placeholder of a later parameter occurs in its encoded text, and only then when no later value has a `{`; a value without `{` always is. |
| Route.PlaceholderLikeValueIsBoundAgain | crates/ritoclient-core/src/route.rs:96-100 | A value `{b}` is bound again by a later `b`: the condition on values cannot be dropped. |
| Route.NoBraceLeft | crates/ritoclient-core/src/route.rs:102-106 | A placeholder that no parameter names always trips the debug assertion, whatever the values hold; with values free of `{` nothing else does. |
| Route.MarksArePreserved | crates/ritoclient-core/src/route.rs:89-100 | Binding, one parameter after another, keeps the number of `/`, of `?`, of `#` and of spaces of any path, whatever the values hold. |
| Route.SlashesArePreserved | crates/ritoclient-core/src/route.rs:96-100 | In particular it moves no path separator. |
| Route.DecodeEncode | crates/ritoclient-core/src/route.rs:175-188 | Percent-decoding (section 2.1 of RFC 3986) undoes the encoding, for every value. |
| Route.ValuesComeBack | crates/ritoclient-core/src/route.rs:96-109 | When placeholders are whole segments, splitting the bound path at `/` gives each literal back, and decoding gives each value that is left alone back. |
| Route.NoBraceLeftInSegments | crates/ritoclient-core/src/route.rs:102-106 | When placeholders are whole segments, for arbitrary values: the debug assertion holds if and only if every placeholder is bound and its value, once the later parameters had their turn, has no `{`. |
| Route.BindingIsInjective | crates/ritoclient-core/src/route.rs:96-109 | Two bindings that address the same path agree on every placeholder whose values they leave alone. |
| Route.PathIsSegments | crates/ritoclient-core/src/route.rs:78-85 | The path is namespace, version and the segments of the trimmed resource, or the first two alone when it trims to nothing. |
| Route.TrimmedIs | crates/ritoclient-core/src/route.rs:79 | Trimming takes exactly the slashes at both ends of the resource. |
| FunctionName.ParseFunction | xtask/src/surface.rs:40-75 | The loop finds the first boundary and cuts the name there. |
| FunctionName.VerbIsUnique | xtask/src/surface.rs:41-52 | Any arrangement of the verb table finds the same verb. |
| FunctionName.FirstBoundaryIs | xtask/src/surface.rs:56-74 | The namespace ends at the first `V` and digit past position 0. |
| FunctionName.ParseThenPrint | xtask/src/surface.rs:40-75 | A parsed name prints back to itself but for leading zeros of the version. |
| FunctionName.AnyDigitsParse | xtask/src/surface.rs:40-75 | A record the parser can answer is the answer to its name however many digits spell its version. |
| FunctionName.PrintThenParse | xtask/src/surface.rs:40-75 | Every record the parser can answer is the answer to its printed form. |
| FunctionName.NamesThatParse | xtask/src/surface.rs:40-75 | A name parses if and only if it has a verb, a boundary after it, and at the first boundary a number below 2^32. |
| Surface.SplitWords | xtask/src/surface.rs:225-238 | The loop cuts before every capital but the first; the words join to the text again and have capitals only in front. |
| Surface.Separate | xtask/src/codegen/mod.rs:1451-1464 | The loop of `snake` and of `kebab`: lower case with a separator before each inner capital. |
| Surface.Kebab | xtask/src/surface.rs:85-98 | The same with a dash. |
| Surface.KebabIsTheWords | xtask/src/surface.rs:85-98 | Parted at its dashes, kebab text gives the words of the Pascal text in lower case, and it has no capital. |
| Surface.SnakeIsTheWords | xtask/src/codegen/mod.rs:1451-1464 | The same of snake text and underscores. |
| Surface.LowerPassesThrough | xtask/src/codegen/mod.rs:1450 | A name without capitals passes through as it is. |
| Surface.PascalUndoesCase | xtask/src/codegen/mod.rs:1438-1464 | `pascal` turns kebab and snake text back into the Pascal text it came from. |
| Surface.ArgWords | xtask/src/surface.rs:142-150 | An argument name as lower-case words, parted at dashes and capitals. |
| Surface.ArgWordsAre | xtask/src/surface.rs:142-150 | The words of any argument have no capital and spell it but for its dashes. |
| Surface.BothSpellingsAreOne | xtask/src/surface.rs:140-149 | `product-id` and `productId` alike: an argument in kebab case has the words, and the placeholder, of the same name with capitals. |
| Surface.PlaceholderIsTheWords | xtask/src/surface.rs:118-132 | A placeholder's name begins in lower case and, cut at its capitals, gives the argument's words back. |
| Surface.LongestIsTheChoice | xtask/src/surface.rs:172-188 | The match is the longest argument that fits, the first of a tie; there is none if and only if none fits. |
| Surface.MatchParam | xtask/src/surface.rs:171-189 | The loop over the arguments computes that match. |
| Surface.SpansAreLaid | xtask/src/surface.rs:170-209 | The segments tile the words; a parameter stands at a `By` and is the chosen argument; a `By` left in a literal matched no argument; two literals never touch. |
| Surface.DeriveSegments | xtask/src/surface.rs:164-210 | The loop computes those segments. |
| Surface.DerivationLosesNothing | xtask/src/surface.rs:164-210 | Literals back in Pascal case and each parameter as `By` with its words spell the input. |
| Surface.LiteralsAreApart | xtask/src/surface.rs:158-159 | A run of words is one segment. |
| Surface.LiteralsAreKebab | xtask/src/surface.rs:191-208 | Parted at its dashes, a derived literal gives the words of its run in lower case. |
| Endpoints.ShapesAreOfRecords | xtask/src/codegen/mod.rs:391-431 | An endpoint has a shape if and only if its function is in the snapshot and its name spells a record of this namespace; version, name, resource and parameters are then the record's, or the override's. |
| Endpoints.ConstNameIsTheWords | xtask/src/codegen/mod.rs:468 | A route constant, parted at its underscores, gives the words of the endpoint's name in capitals. |
| Endpoints.ParamsAreInOrder | xtask/src/codegen/mod.rs:413-422 | An endpoint's parameters are those of its segments, in their order. |
| Endpoints.RouteFor | xtask/src/codegen/mod.rs:453-473 | Keeps the table free of duplicates; the constant is that of a table entry for the endpoint's own resource and version that spells its doc; fails if and only if an entry for them spells another; adds an entry, at the end, only if there was none. |
| Endpoints.TableGrows | xtask/src/codegen/mod.rs:449-488 | One more endpoint keeps the table free of duplicates, each entry declared by the first endpoint that needs it, and every endpoint routed to the entry of its own resource and version. |
| Endpoints.DocsGrow | xtask/src/codegen/mod.rs:458-464 | The doc comparison with the one existing entry fails if and only if some earlier endpoint of that route spells another doc. |
| Endpoints.VersionsAreOne | xtask/src/codegen/mod.rs:490-492 | Sorted and with neighbouring repeats removed, the versions leave exactly one if and only if there are endpoints and all agree, and it is theirs. |
| Endpoints.ResolveEndpoints | xtask/src/codegen/mod.rs:391-488 | Succeeds if and only if every endpoint has a shape and docs agree; then table and routing are as above. |
| Endpoints.ResolveNamespace | xtask/src/codegen/mod.rs:391-521 | Succeeds if and only if, besides, there is one version and timeouts are declared and used; no two route entries share resource and version; and each endpoint has the name, parameters, timeout and route - path, version and doc - that its function's name and its overrides say, the namespace having that version. |
| Endpoints.PathIsPieces | xtask/src/surface.rs:213-222 | The path of a derived resource is namespace, version and the derived segments, each a whole segment. |
| Endpoints.EndpointsBindTheirPaths | xtask/src/codegen/mod.rs:1151-1164 | An endpoint whose resource is derived names every placeholder of its path when it binds; of the parameters that share a placeholder name the first one's value, if left alone, can be read back from the path; no brace is left when no value has one. |
| Endpoints.PathsBeginAsNamed | crates/ritoclient-core/src/route.rs:78-85 | The path an endpoint binds begins with its function's namespace in kebab case and the version its name gives. |
| Emission.SelectIs | xtask/src/codegen/mod.rs:780-792 | An override's fields are found if and only if each is described; each is then the first described field of its name, in the override's order. |
| Emission.FlatFieldIs | xtask/src/codegen/mod.rs:800-810 | A field keeps its name on the wire and has it in snake case in Rust, renamed exactly if the two differ. |
| Emission.SlotHasItsFields | xtask/src/codegen/mod.rs:780-816 | A filled slot has exactly the fields its override lists, in that order and under those wire names, or all the described ones without an override; each of the type described. |
| Emission.OutputLeadsTo | xtask/src/codegen/mod.rs:699-745 | A return type leads to a struct, and has a spelling at all, exactly by what is inside its vector or map. |
| Emission.OutputsAreSpeltAsFields | xtask/src/codegen/mod.rs:692-853 | A return type and a field of one type are spelt alike, but for a struct's shortened name. |
| Emission.MapsAreSpeltAsVectors | xtask/src/codegen/mod.rs:717-720 | A map is spelt as the vector of its element, but for what is put around it. |
| Emission.ShortName | xtask/src/codegen/mod.rs:857-862 | The short name is the flat one without the prefix exactly if something is left, else the flat one. |
| Emission.ModelResolver.EmitStruct | xtask/src/codegen/mod.rs:758-818 | Ends on cyclic graphs; keeps earlier slots; on success the type has a slot and every new slot is filled; new slots are for types that this one leads to; it fails only if something it leads to cannot be emitted. |
| Emission.ModelResolver.EmitFields | xtask/src/codegen/mod.rs:780-811 | The kept fields in order, each written as its type demands, and every struct they name emitted. |
| Emission.ModelResolver.MapFieldType | xtask/src/codegen/mod.rs:820-853 | A field's spelling, its struct emitted; fails only if the type has no spelling or its struct cannot be emitted. |
| Emission.ModelResolver.MapOutput | xtask/src/codegen/mod.rs:692-754 | A return type's spelling, its struct emitted and its short name recorded. |
| Emission.Reserved | xtask/src/codegen/mod.rs:772-778 | Reserving a slot keeps names distinct and leaves fewer types to emit: the measure that ends the recursion. |
| Emission.SlotFilled | xtask/src/codegen/mod.rs:813-817 | Overwriting the reserved slot, after a recursion that appended any number of slots, leaves every other slot as it was and all new ones filled. |
| Emission.SlotsAreClosed | xtask/src/codegen/mod.rs:763-811 | When names are apart, the slots contain the outputs' structs and whatever the kept fields of a slot name. |
| Emission.SharedNamesLoseAType | xtask/src/codegen/mod.rs:763-765 | If two reached types share a Rust name, the slots are not all that is reached. |
| Emission.ModelResolver.ResolveOutputs | xtask/src/codegen/mod.rs:442-443 | Over all outputs: succeeds if all that is reached can be emitted; on success every slot is filled, and the slots are exactly what the outputs reach if and only if no two reached types share a Rust name. |
| Emission.PushInners | xtask/src/codegen/mod.rs:872-881 | Each emitted type a field names that is neither found nor an export is pushed on both lists, once. |
| Emission.SearchOne | xtask/src/codegen/mod.rs:868-882 | One turn keeps: what was found is forced, what is not waiting was looked at; it finds more or waits for less. |
| Emission.ReachableFrom | xtask/src/codegen/mod.rs:865-884 | Returns, without duplicates, exactly the emitted types that the exports lead to and that are not exports. |
| Emission.InnerIsTheStruct | xtask/src/codegen/mod.rs:873 | Trimming a field's spelling gives the Rust name of the struct the field names, for names not themselves bracketed. |
| Emission.ReexportsAreReached | xtask/src/codegen/mod.rs:542-550 | After a complete walk, what a namespace re-exports beyond its exports is exactly the structs that its exports reach in the schema's type graph, when no struct's Rust name reads as a primitive or as bracketed. |
| Closure.CloseOver | xtask/src/snapshot.rs:205-222 | The worklist ends, duplicates and all, with the least set of described names that has the roots and is closed under references. |
| Closure.LeastIsReached | xtask/src/snapshot.rs:205-222 | That set is exactly what a path of references from a root leads to. |
| Closure.LeastIsUnique | xtask/src/snapshot.rs:205-222 | There is only one such set. |
| Closure.RootsAre | xtask/src/snapshot.rs:265-283 | The roots are the nonempty type and element names of the functions' arguments and results. |
| Closure.IndexHas | xtask/src/snapshot.rs:200-203 | The described types are the named ones. |
| Closure.IndexIs | xtask/src/snapshot.rs:200-221 | A type refers to what the fields of the last entry of its name do. |
| Closure.SchemaRefsAre | xtask/src/snapshot.rs:337-359 | The names collected from a document are exactly the tails of its `$ref` strings with the schema prefix, at any depth. |
| Closure.SchemaIndexIs | xtask/src/snapshot.rs:306-322 | Each schema refers to the names it has a `$ref` to. |
| Closure.FilterHelp | xtask/src/snapshot.rs:200-222 | The types kept are those the in-scope functions' arguments and results reach. |
| Closure.FilterOpenapi | xtask/src/snapshot.rs:312-322 | The schemas kept are those that the kept paths' `$ref`s reach, at any depth. |
| Calendar.CivilIsADate | xtask/src/snapshot.rs:549-559 | Month and day are valid for the year, for every integer day number. |
| Calendar.CivilFollowsTheCalendar | xtask/src/snapshot.rs:549-559 | Day 0 is 1970-01-01 and day n + 1 is the calendar successor of day n, for every integer n. |
| Calendar.CivilIncreases | xtask/src/snapshot.rs:549-559 | Later days have later dates. |
| Calendar.EveryDateHasADay | xtask/src/snapshot.rs:549-559 | Every date of the calendar is the date of exactly one day number. |
| Calendar.SplitsIntoMarchYear | xtask/src/snapshot.rs:550-555 | Era, day of era and year of era split a day number into a year from March 1st and a day of it. |
| Calendar.YearOfEraIsTheYear | xtask/src/snapshot.rs:553 | The year-of-era formula finds the year whose first and next first of March enclose the day. |
| Calendar.TodayTellsDaysApart | xtask/src/snapshot.rs:544-560 | Two instants have one date if and only if no UTC midnight parts them; otherwise the earlier has the earlier date. |
| Calendar.TodayFollowsTheCalendar | xtask/src/snapshot.rs:544-560 | The first day of the Unix epoch is 1970-01-01, and a day later is the next date. |

## Left out

- Retry.Send: covers as many attempts as a script holds, because a policy with neither bound need not end; the ceiling and the deadline are proved to end it.
- Retry.BuiltInSchedule: arithmetic is exact, so the rounding of floats is not modelled; the limit of 2^64 seconds on the conversion is.
- LaunchRuns.SteadyRefusalIsReported: takes the refusal clock and the deadline as read at one instant; RefusalDecides says what happens without that.
- LaunchRuns.AtMost13Wakes: takes sleeps as exact and probes as at most 2 s long; WakesAreApart needs neither.
- LaunchTrace.SecondsStayBelow120: takes the deadline and the report as read at one instant; a report read later may say 120 or more.
- Route.InTurnIsAtOnce: values free of `{` are a sufficient condition for templates whose placeholders are only part of a segment, where a value can combine with its neighbours; where placeholders are whole segments, as in every derived route, AtOnceExactly gives the exact one.
- Route.NoBraceLeft: with a `{` in a value and placeholders that are only part of a segment, whether one is left is not characterised beyond the placeholders that no parameter names; NoBraceLeftInSegments is exact for whole segments.
- Endpoints.EndpointsBindTheirPaths: does not speak of endpoints whose resource is spelled by an override, which the generator does not check against the parameters.
- Emission.InnerIsTheStruct: does not speak of structs renamed to something that starts with `Vec<` or ends with `>`.
- Emission.ReexportsAreReached: does not speak of such structs either, nor of structs renamed to the spelling of a primitive, which every field of that primitive then seems to lead to.
- Launch.Wake: does not model the pause between tries, whose length no result depends on.
- The counter of `send` is taken to wrap at 32 bits, as a release build does; a debug build panics there.
- HTTP, TLS, the lockfile on disk, the process table, process creation and window calls: their outcomes are inputs.
- JSON and TOML decoding: a body is an already classified value; a document is already a tree.
- Logging, error texts and doc texts, the eligibility warning before a hand-off, and the trimming of docs.
- `open_session`, `close`, `availability` and the builders: lookups and thin wrappers.
- Which functions, paths and events of the snapshot are in scope: filters over lists.
- Request bodies and generated tests of endpoints, field aliases and docs, method names and the Rust names of path fields.
- Uniqueness of constant names and of short model names within a namespace: the code does not enforce it.
- The text of the generated modules.
- The formatting of the date with leading zeros.
- `installs.rs`, `lockfile.rs`, `models_ext.rs`, `tolerant.rs`, generated tables and handlers: constant data or easy members; whether a session has ended is an input.
- Non-ASCII letters: case is ASCII throughout, as in the code that matters here.
