# tsession, verified

tsession lists agent sessions on this machine and on remote hosts, shows what each of them is
doing, and attaches terminals and editors to them. Most of its code moves data between processes.
Its promises sit in a few small protocols, history-dependent state machines, backward scans over
event logs, quoting layers and caches. This project models those parts in Dafny and proves what
they guarantee over every input, every run and every interleaving.

How the model is laid out:

- **Event logs.** `EventLog` defines what a log says: permission balances of suffixes, tool
  surpluses of prefixes, turn boundaries. `LocalClassifier` and `RemoteClassifier` are the two
  backward scans, proved against these notions, and `VerdictMeanings` says what they answer in terms
  of the events and their numbers alone. `ClassifierAgreement` says exactly when the two
  scans agree, `TailWindow` relates the bounded tail read to a read of the whole file, and
  `LongTurns` does so when one turn is longer than the window.
- **Instances and terminals.** `InstanceLifecycle` is one code-server instance as a class, one method
  per critical section, and as a transition system over those same sections; `InstanceHistory` tells
  its status and error from what has happened to it. `PortScanner` finds the marker line in chunked
  output. `KeyedRegistry` is the shared shape of the two registries, and `RegistryHistory` what they
  make of a history of calls. `RingBuffer` is the output log. `TerminalProtocol` lets broadcasts and
  subscriptions interleave, `Terminal` is the class with one method per critical section,
  `TerminalHistory` tells from the actions alone who is subscribed and what each has been sent,
  `GaplessReplay` says exactly when a
  subscriber sees the output without gap, repeat or reordering, and `LateClients` how often one is
  shown the exit marker.
- **Quoting.** `ShellLexer` is the shell's own lexer, after POSIX.1-2017, Shell Command Language,
  section 2.2 (Quoting) and section 2.3 (Token Recognition), and `ShellEval` runs straight-line
  scripts of assignments and case commands. `ShellQuote` proves that the lexer undoes the quoting,
  `LoginCommand` that sh undoes the layers of the login command, and `LoginSource` that its pieces
  make up the text of the source. `OtherShells` reads the quoting as fish and csh do, `LoginShells`
  says exactly when a script comes through such a shell, and `FishTransport` what fish does over ssh.
- **Stores.** `AliasStore` is the locked read-modify-write of the alias file with failures and
  crashes at any step. `NotifyStore` detects transitions between polls, `NotifyReports` says what is
  notified in terms of the states reported, and `NotifyProtocol` lets any number of observers run
  those polls concurrently. `DoneMarker` follows the done marker through
  passes and clears.
- **Listing and naming.** `Listing`, `TitleMatch` and `TmuxNames`.
- **Caches.** `SessionCache` (stale-while-revalidate), `SharedLists` (the lists it hands out, which it
  later renames in place), `RefreshTiming` (when it calls its provider), `RenameVisibility` (which
  renames the stored list shows) and `PaneCache`
  (the browser's LRU of panes, over the general facts in `Recency`).
- `Prelude`, `Runs` and `Text` hold shared vocabulary: `Runs` says once what a run of a transition
  system is and that an inductive invariant holds along it.

Clocks, file contents, process exits, provider answers, write failures and map iteration order are
inputs or nondeterministic choices of the model. The marker pattern, the JSON parser of one log
line and `filepath.Clean` are function parameters, so the results hold for every such function.
Strings are sequences of characters, and a byte is a character below 256. Times are integers, with
0 as the zero time. Where the source updates a thing in place the model has a class or an array,
and where it computes a value the model has a function.

Where the code does less than its comments say, the code is modelled as it is:

- A teardown that `PortReady` returns together with an error is dropped when that error is recorded
  (internal/codeserver/registry.go:279-283). `FailedResolveLosesTeardown` is such a run, and
  `TeardownsExactlyOnce` shows that one is lost if and only if such an error reached an instance that
  was still starting.
- A poll whose batch contradicts itself about a session can fire twice for it, although the comment
  promises one notification even when a session occurs repeatedly
  (internal/notify/notify.go:191-195). `ConflictingDuplicatesFireTwice` is an example and
  `FiresOnceIffAgreeing` gives the exact condition.
- The same comment promises that each transition fires exactly once. A poll whose snapshot could not
  be saved fires all the same, and so does the next one: `FailedSaveFiresTwice`.
  `FiresAgainUntilSaved` says exactly when a transition fires again.
- The two classifiers count tool completions differently and can disagree
  (internal/sessions/statedir.go:376-388, internal/remote/remote.go:230-237). `ClassifiersAgree`
  gives the exact condition for every log. `PromptTestsDiffer` says when the two tests for an open
  prompt differ, and `ParallelToolsDisagree` is an instance.
- A window that holds a turn_end can still be missing the last turn_start. `WindowVerdict` says
  exactly when that changes the verdict, `StaleStartMisleads` is an example, and with ordered
  timestamps it never does. For a window in the middle of a long turn `OpenWindowVerdict` gives the
  exact condition, and `DroppedPromptMisleads` is an example.
- A broadcast writes the log before it takes the lock to fan out, and a subscription replays the log
  before it takes the lock to register (internal/webterm/webterm.go:241-290). A subscriber that
  overlaps a broadcast can see it twice (`OverlapRepeats`) or not at all (`OverlapMisses`), and after
  the exit the marker can overtake the last output (`MarkerOvertakes`). `ScreenIsGaplessIff` and
  `ScreenIsCompleteIff` give the exact conditions.
- A client that joins after the exit is sent the marker explicitly, although the marker is in the log
  as well (internal/webterm/webterm.go:237, 265-280). Such a client is usually shown the marker twice
  (`UsuallyShownTwice`) and possibly three times (`ShownThreeTimes` is a run). Whatever else has been
  output, `MarkerShownOnceIff` says exactly when the client is shown the marker once.
- The login command is meant to work whether the user's shell is zsh, bash, fish or csh
  (internal/shellutil/shellutil.go:31-35). fish takes the backslash of a quoted quote for an escape:
  over ssh and codespace it never reads the login command back, and a script of two words does not
  arrive at all (`FishSplitsScript`). `TransportIntactIff` says for every shell, transport and script
  when all layers come through, and `WhatDoesNotSurvive` names what csh and fish stumble over.
- A rename through the cache is lost when an answer from before it is stored after it, be it by a
  refresh (`RefreshLosesRename`) or by a second load of a cold cache (`LoadLosesRename`)
  (internal/webui/sessioncache.go:80-99). `RenameIsVisibleIff` says exactly which renames the stored
  list shows, `RenameSurvivesCommitIff` which of them a commit keeps.

## Model

| member | source | states |
|---|---|---|
| EventLog.CreditIsGreatestPrefixSurplus | internal/sessions/statedir.go:354-389 | the saturating counter of a backward scan equals the greatest surplus of completions over starts that any prefix has |
| EventLog.TurnBoundary | internal/sessions/statedir.go:359-363 | the boundary is just past the last turn_end, with none after it |
| EventLog.ExtendBack | internal/sessions/statedir.go:357-389 | how reading one event further back changes each of the balances, counters and blocking conditions |
| LocalClassifier.OutstandingIsCreditShortfall | internal/sessions/statedir.go:391-395 | comparing the two counters at the end of the scan decides whether the prompting starts outnumber the spare completions of every prefix |
| LocalClassifier.BlockedSuffixBlocksTurn | internal/sessions/statedir.go:368-375 | a request found in any suffix of the turn justifies the scan's early answer for the whole turn |
| LocalClassifier.BlockedOnUser | internal/sessions/statedir.go:350-395 | the scan reports blocked exactly when the events after the last turn_end hold a user request, a suffix with more permission requests than completions, or more prompting starts than any prefix can answer |
| LocalClassifier.ClassifyFromEvents | internal/sessions/statedir.go:343-413 | the verdict and the lsof flag are those of the declarative meaning: shutdown first, then blocked, then mid-turn by timestamps |
| LocalClassifier.LoadStateDir | internal/sessions/statedir.go:96-160 | a session without events, or whose events do not decide, is active if its database is locked or a process holds it and else inactive; the time is that of the last event |
| VerdictMeanings.CountersAreNumbers | internal/sessions/statedir.go:354-389 | the counters of both scans are differences of the numbers of requests, grants, completions, prompts and plain starts, where the tools that prompt are ask_user, ask_question and request_permission |
| VerdictMeanings.MidTurnMeans | internal/sessions/statedir.go:397-408 | a log is mid-turn if and only if its last turn_start has a stamp, and a later one than its last turn_end |
| VerdictMeanings.LocalVerdictMeans | internal/sessions/statedir.go:343-413 | on every log the local answer is exited, waiting, working or undecided according to the events alone: a shutdown anywhere; else in the current turn a user request, a suffix with more permission requests than grants, or more prompts than completions beyond the plain starts of any prefix; else a running turn |
| VerdictMeanings.RemoteVerdictMeans | internal/remote/remote.go:201-260 | on every log the remote answer likewise, over the whole log and with a prompt behind which no stretch completes more tools than it starts; a log that ends with a turn_end is active idle for a positive pid and else inactive idle, any other unknown |
| VerdictMeanings.IdleAnswersAgree | internal/remote/remote.go:253-259 | where both classifiers find nothing else, a log that ends with a turn_end gets remotely what the local caller makes of an unlocked database, and any other log no idle state |
| VerdictMeanings.EndedTurnIsIdle | internal/sessions/statedir.go:146-156 | a log that ends with a turn_end is shut down, out of order or idle, and then active exactly if the database is locked or the pid is positive |
| RemoteClassifier.ExtendBackUnanswered | internal/remote/remote.go:215-239 | a log has an unanswered prompt exactly when its first event is one with nothing to spare behind it, or the rest has one |
| RemoteClassifier.BlockedSuffixBlocksLog | internal/remote/remote.go:222-237 | what blocks a suffix blocks the whole log, so the early returns are right |
| RemoteClassifier.BlockedOnUser | internal/remote/remote.go:213-239 | the remote scan answers waiting exactly when the whole log holds a user request, a pending permission, or a prompting start whose later completions are used up by later starts |
| RemoteClassifier.ClassifyEventsTail | internal/remote/remote.go:201-260 | the state equals the declarative verdict for every log and pid, and the time is that of the last event, or the zero time of an empty log |
| ClassifierAgreement.OpenMeansNoneToSpare | internal/remote/remote.go:213-239 | a tool is left open when each completion closes the latest open one exactly if its start has no completion to spare behind it |
| ClassifierAgreement.RemotePromptTest | internal/remote/remote.go:230-237 | on every log the remote scan finds an unanswered prompt exactly if a prompting tool is left open in that sense |
| ClassifierAgreement.LocalPromptTest | internal/sessions/statedir.go:376-395 | on every turn the local scan does exactly if at every point the prompting starts to come outnumber the completions in excess of starts so far |
| ClassifierAgreement.OwedSinceIdle | internal/sessions/statedir.go:376-395 | on a turn that never completes more tools than it started, that is a prompting start since the last point at which no tool was open |
| ClassifierAgreement.RemotePromptImpliesLocal | internal/remote/remote.go:230-237 | on such a turn whatever the remote prompt test reports the local one reports too |
| ClassifierAgreement.PromptTestsDiffer | internal/remote/remote.go:230-237 | on such a turn the prompt tests differ if and only if a prompting start has come since the last idle point and later completions have closed every such start |
| ClassifierAgreement.PromptsByTurn | internal/remote/remote.go:213-239 | a turn that overdraws nothing leaves the prompts of earlier turns open or closed as they were |
| ClassifierAgreement.PendingOnlyInCurrentTurn | internal/remote/remote.go:220-227 | settled earlier turns neither hide nor create a pending permission |
| ClassifierAgreement.ClassifiersAgree | internal/remote/remote.go:201-260 | for every log, local and remote verdicts agree on exited, waiting and working if and only if the log has a shutdown, the current turn asks for the user outright, or the turn owes an answer to a prompt just when the remote scan finds a request, a pending permission or an open prompt anywhere |
| ClassifierAgreement.SettledTurnsAgree | internal/remote/remote.go:201-260 | after settled earlier turns a turn without overdraft makes them differ only over prompts opened since the last idle point and all closed since |
| ClassifierAgreement.SequentialTurnsAgree | internal/remote/remote.go:201-260 | after settled earlier turns they agree on every turn that runs its tools one at a time |
| ClassifierAgreement.SequentialCredits | internal/sessions/statedir.go:354-395 | when tools run one at a time both ways of counting see the one prompting tool still open, if any, and nothing else |
| ClassifierAgreement.ParallelToolsDisagree | internal/remote/remote.go:230-237 | a plain tool and a prompt started in parallel, with one completion, make the classifiers disagree: the local one waits |
| TailWindow.ReadTail | internal/sessions/statedir.go:186-203 | the text looked at is the last 64 KiB without a first line that may be partial, or nothing if no line starts in it |
| TailWindow.ParseEach | internal/sessions/statedir.go:204-215 | the loop yields the events of all lines in order, whatever the line parser |
| TailWindow.TailRecentEvents | internal/sessions/statedir.go:174-220 | missing, empty and event-less files, and those without a newline in the window, give no answer, any other file the events of its last 65536 bytes behind the first newline there |
| TailWindow.TailTextMeans | internal/sessions/statedir.go:186-203 | a file that fits is looked at entirely; of a longer one exactly what follows the first newline in the window, so every line that begins behind a newline of the window is kept and one that begins with the window is not; without a newline there is nothing |
| TailWindow.ParseLinesMeans | internal/sessions/statedir.go:204-215 | each line gives its event in its place, or nothing |
| Text.LinesRebuild | internal/sessions/statedir.go:205 | the lines of a text hold no newline and, put together again, are the text |
| TailWindow.TailTextFollowsNewline | internal/sessions/statedir.go:196-203 | a window that was cut begins right behind a newline of the file |
| TailWindow.TailIsSuffix | internal/sessions/statedir.go:186-220 | the events of the window are a suffix of the events of the file, and all of them when the file fits |
| TailWindow.SameCurrentTurn | internal/sessions/statedir.go:357-363 | a window with a turn_end has the same current turn as the whole log |
| TailWindow.WindowVerdict | internal/sessions/statedir.go:343-413 | a window with a turn_end gives the verdict of the whole log if and only if it holds a shutdown, or none was dropped and either its current turn is blocked or no dropped turn_start is later than its last turn_end with none in the window |
| TailWindow.StaleStartMisleads | internal/sessions/statedir.go:397-408 | a dropped turn_start stamped 10 before a turn_end stamped 5 makes the whole log working and the window unknown |
| TailWindow.RequestDecides | internal/sessions/statedir.go:368-375 | a request or pending permission in a window without a turn_end decides the whole log if and only if no shutdown is out of sight |
| TailWindow.TailRequestDecides | internal/sessions/statedir.go:170-220 | so the tail read is right about it even when one turn is longer than the window, with the same exception |
| TailWindow.NoStaleStart | internal/sessions/statedir.go:397-408 | with nondecreasing timestamps a dropped turn_start is never later than the last turn_end of the window |
| TailWindow.TailReadAgrees | internal/sessions/statedir.go:170-220 | for ordered logs whose window holds a turn_end, the bounded tail read and a full read of the file are classified alike, lsof flag included, if and only if a shutdown in the file is also in the window |
| LongTurns.OutstandingAcross | internal/sessions/statedir.go:376-395 | the prompt counters of the two parts of a turn decide whether the whole turn owes an answer |
| LongTurns.OwedPromptDecides | internal/sessions/statedir.go:376-395 | unless the dropped part of the turn completes more tools than it starts, a prompt still to be answered in a window without a turn_end decides the whole log, a dropped shutdown aside |
| LongTurns.OpenWindowVerdict | internal/sessions/statedir.go:343-413 | the exact condition, in the guards of the scan, for a window without a turn_end to give the verdict of the whole log: shutdowns, requests, permissions, prompts and turn stamps of both parts |
| LongTurns.LongTurnReadAgreesIff | internal/sessions/statedir.go:170-220 | the same of the bounded read of any file whose window holds no turn_end |
| LongTurns.DroppedPromptMisleads | internal/sessions/statedir.go:170-220 | a prompt that has dropped out of the window makes the log waiting and the window unknown |
| InstanceLifecycle.Instance.constructor | internal/codeserver/registry.go:189-197 | a launched instance is starting, without port, error, dial or teardown |
| InstanceLifecycle.Instance.CommitPort | internal/codeserver/registry.go:267-287 | the result of PortReady is committed, recorded as a failure, or handed back for teardown when the instance has left starting |
| InstanceLifecycle.Instance.OnStartTimeout | internal/codeserver/registry.go:290-303 | the timeout fails and kills only an instance that is still starting |
| InstanceLifecycle.Instance.OnProcessExit | internal/codeserver/registry.go:305-317 | an exit fails an active instance and leaves a failed or stopped one alone |
| InstanceLifecycle.Instance.BeginClose | internal/codeserver/registry.go:325-335 | every close ends in stopped, only the first closer gets the stored teardown to run, and the process is killed if the instance was starting or running |
| InstanceLifecycle.StepKeepsInv | internal/codeserver/registry.go:257-356 | each critical section of reader, timer, waiter and closers keeps the invariant on status, error, callers and the place where the teardown currently is |
| InstanceLifecycle.RunKeepsInv | internal/codeserver/registry.go:257-356 | the invariant holds in every state of every interleaving with any number of closers |
| InstanceLifecycle.StatusOnlyAdvances | internal/codeserver/registry.go:257-356 | along every run the status only moves forward through starting, running, failed, stopped |
| InstanceLifecycle.AtMostOnce | internal/codeserver/registry.go:257-356 | in every reachable state PortReady has been called, the error written, and each teardown run at most once |
| InstanceLifecycle.RunningServesAskedPort | internal/codeserver/registry.go:257-288 | in every reachable state a running instance shows the port PortReady was asked for and dials what it returned, and a failed one has its error recorded |
| InstanceLifecycle.AskedIsFirstReported | internal/codeserver/registry.go:257-265 | under every interleaving PortReady is asked for the first port that the reader reports or for none at all |
| InstanceLifecycle.LostIffFailedInStarting | internal/codeserver/registry.go:267-283 | in every run the error of PortReady stands recorded if and only if its failed result reached the instance while it was still starting |
| InstanceLifecycle.TeardownsExactlyOnce | internal/codeserver/registry.go:322-356 | once close and the reader are done, Spec.Teardown and the teardown that PortReady handed over have each run exactly once, the latter unless and only unless PortReady failed and that was committed while the instance was starting |
| InstanceLifecycle.FailedResolveLosesTeardown | internal/codeserver/registry.go:265-283 | a run in which PortReady fails but hands over a teardown, and the teardown never runs |
| InstanceHistory.StatusByHistory | internal/codeserver/registry.go:257-335 | in every state of every run: starting means that no timeout, exit, commit or close has happened; running that an accepted port was committed while starting and no exit or close has happened since; stopped that a close has happened; failed the rest |
| InstanceHistory.CauseByHistory | internal/codeserver/registry.go:267-317 | the error recorded is a timeout, an exit with its status or a rejected first port if and only if that happened while the instance was starting, or for the exit up |
| InstanceHistory.AskedByHistory | internal/codeserver/registry.go:257-265 | PortReady is asked for a port if and only if that was reported while the instance was starting |
| PortScanner.FirstHitIsEarliest | internal/codeserver/registry.go:239-252 | the port found is that of the earliest complete line with the marker, and none is found exactly when no complete line has it |
| PortScanner.FirstPortOfConcat | internal/codeserver/registry.go:218-229 | more output never changes a port already found, and only the open line and the new output still matter |
| PortScanner.UnterminatedLineNeverTriggers | internal/codeserver/registry.go:239-244 | text without a newline never triggers, whatever it contains |
| PortScanner.KeptConcat | internal/codeserver/registry.go:214-230 | what counts of a sequence of reads is what counts of each read, in order |
| PortScanner.LeftoverFollowsHit | internal/codeserver/registry.go:239-252 | what precedes the text left over is the first marker line, behind complete lines without the marker |
| PortScanner.LineScanner.ConsumeLines | internal/codeserver/registry.go:239-252 | the scan reports the first marker line and keeps exactly what follows it, or else the open line |
| PortScanner.LineScanner.ReadLoop | internal/codeserver/registry.go:214-235 | however the output is cut into reads, the first port reported is that of the first marker line in the concatenation of what was read while active |
| KeyedRegistry.Registry.Look | internal/codeserver/registry.go:376-381 | an object that is registered under the key and alive is returned as it is, and otherwise the lock is kept for a launch |
| KeyedRegistry.Registry.Spawn | internal/codeserver/registry.go:383-388 | a launched object is registered under its own key in the same critical section |
| KeyedRegistry.Registry.SpawnFailed | internal/webterm/webterm.go:105-108 | a failed launch leaves table and objects as they were |
| KeyedRegistry.Registry.Take | internal/codeserver/registry.go:402-411 | Stop and Close take what is registered under the key, if anything, out of the table and into their own hands |
| KeyedRegistry.Drain | internal/webterm/webterm.go:154-158 | whatever order the map yields, each registered object is listed once |
| KeyedRegistry.Registry.TakeAll | internal/codeserver/registry.go:417-424 | Shutdown leaves an empty table and holds each object that was registered exactly once |
| KeyedRegistry.Registry.CloseNext | internal/codeserver/registry.go:426-431 | closing ends the life of the next object held, and leaves every other object with its key and its life |
| KeyedRegistry.StepKeepsInv | internal/codeserver/registry.go:375-433 | every step of Start, Stop, Shutdown and expiry keeps the table honest, what is held unregistered, and no live object orphaned |
| KeyedRegistry.RunKeepsInv | internal/webterm/webterm.go:97-168 | these invariants hold in every state of every interleaving on all keys |
| KeyedRegistry.NoLiveObjectIsOrphaned | internal/codeserver/registry.go:375-433 | a live object is registered under its own key or else held, by one holder in one place, until it is closed |
| KeyedRegistry.TableMatchesKeys | internal/webterm/webterm.go:97-168 | every entry names an object of that very key and no object has two entries |
| KeyedRegistry.QuiescentMeansRegistered | internal/webterm/webterm.go:135-168 | when no Stop, Close or Shutdown is under way, every live object is in the table |
| RegistryHistory.StepLife | internal/codeserver/registry.go:375-433 | a step launches at most the object it names, ends only the life of the object that expires or is next to be closed, and leaves every other object as it was |
| RegistryHistory.LivesUntilEnded | internal/codeserver/registry.go:402-431 | over every stretch of every run a live object lives on, under its own key, if and only if it has neither expired nor had its turn to be closed |
| RegistryHistory.LiveIffLaunched | internal/webterm/webterm.go:97-168 | in every state an object is alive if and only if it has been launched and not ended since |
| RegistryHistory.RegisteredIffFiled | internal/webterm/webterm.go:97-168 | and registered under a key if and only if it was launched for it, with nothing taken out from there or launched for it since |
| RegistryHistory.StartLaunchesIff | internal/codeserver/registry.go:375-388 | Start launches a new object if and only if none that was launched for the key is still registered and alive |
| RegistryHistory.TakersHoldWhatWasFiled | internal/codeserver/registry.go:402-424 | Stop, Close and Shutdown take exactly what leaves the table, each object once |
| RingBuffer.TrimThenAppend | internal/webterm/ringbuffer.go:28-31 | dropping old bytes early does not change which bytes are kept |
| RingBuffer.Buffer.Write | internal/webterm/ringbuffer.go:21-32 | the buffer always equals the last capacity bytes of all that was ever written |
| RingBuffer.Buffer.Snapshot | internal/codeserver/ringbuffer.go:41-47 | a snapshot is the last capacity bytes of the write history |
| TerminalProtocol.FanOutKeepsOrdered | internal/webterm/webterm.go:241-251 | each of any number of broadcasts is fanned out once or still in flight, never both and never twice |
| TerminalProtocol.ReceivedGrows | internal/webterm/webterm.go:246-250 | one more broadcast leaves what was received alone and adds what the writer takes of it |
| TerminalProtocol.StepKeepsInv | internal/webterm/webterm.go:231-290 | every half of a broadcast or subscription, every leave, failure and the exit keeps log, order and screens explained |
| Terminal.FanOut | internal/webterm/webterm.go:246-250 | in any iteration order each subscriber is sent the bytes once, and exactly those whose write fails are dropped |
| Terminal.Terminal.WriteLog | internal/webterm/webterm.go:242 | the log takes the text and nobody has been sent it yet |
| Terminal.Terminal.Deliver | internal/webterm/webterm.go:244-250 | registered clients are sent the text, for any pattern of failing writers, whatever has been written since |
| Terminal.Terminal.Broadcast | internal/webterm/webterm.go:241-251 | uninterrupted, both halves of the protocol in turn |
| Terminal.Terminal.Snapshot | internal/webterm/webterm.go:265-270 | a new client is sent the log as it is, or refused if a nonempty replay cannot be written |
| Terminal.Terminal.Check | internal/webterm/webterm.go:273-280 | before the exit the client is registered, after it is sent as much of the marker as its writer takes and stays to be registered |
| Terminal.Terminal.Subscribe | internal/webterm/webterm.go:264-290 | uninterrupted, the steps of the protocol in turn |
| Terminal.Terminal.Unsubscribe | internal/webterm/webterm.go:285-289 | leaving stops further output and keeps what was sent |
| Terminal.Terminal.MarkExited | internal/webterm/webterm.go:231-236 | the exit changes neither subscriptions nor screens |
| TerminalHistory.LogByHistory | internal/webterm/webterm.go:218-251 | in every state the texts written and the texts fanned out are those of the writes and fan-outs of the run, in their order |
| TerminalHistory.InFlightByHistory | internal/webterm/webterm.go:241-251 | a sender has a text under way if and only if it has written one and not fanned it out since |
| TerminalHistory.SubscribedIff | internal/webterm/webterm.go:244-290 | a client is a subscriber if and only if it has been registered and has since neither left nor failed in a fan-out |
| TerminalHistory.ScreenByHistory | internal/webterm/webterm.go:241-290 | what a subscriber has been sent, from the actions alone: the last capacity bytes of what was written before its replay, what it took of the exit marker if its check came after the exit, and the texts fanned out since its registration |
| GaplessReplay.ScreenOfSubscriber | internal/webterm/webterm.go:241-290 | in every reachable state a registered client has been sent the log as of its snapshot, cut to capacity, what it took of the marker if it came late, and what has been fanned out since it was registered |
| GaplessReplay.ScreenOfClient | internal/webterm/webterm.go:241-290 | a client that has left, or whose writer has failed, has been sent its replay and the beginning of what it would have been sent otherwise |
| GaplessReplay.SequenceIsGapless | internal/webterm/webterm.go:241-290 | broadcasts sent in written order from the snapshot on give one stretch of the log |
| GaplessReplay.GaplessIsSequence | internal/webterm/webterm.go:241-290 | no other broadcasts and no other order do, whatever the broadcasts contain |
| GaplessReplay.ScreenIsGaplessIff | internal/webterm/webterm.go:241-290 | under every interleaving of broadcasts and subscriptions a client that was not late sees a stretch of the log, whatever the texts, if and only if those fanned out for it are the ones written since its snapshot in written order |
| GaplessReplay.ScreenIsCompleteIff | internal/webterm/webterm.go:241-290 | with nothing in flight it sees the log to the end if and only if the broadcasts written before its snapshot are exactly those fanned out before its registration and the later ones were fanned out in written order |
| GaplessReplay.BeforeTheExit | internal/webterm/webterm.go:218-229 | before the exit everything is fanned out in written order, so only an overlapped subscription can miss or repeat something |
| GaplessReplay.UnoverlappedSubscription | internal/webterm/webterm.go:264-290 | in every run a client that no broadcast overlaps, from its snapshot to its registration before the exit, is in step with the log, whatever other clients do meanwhile |
| GaplessReplay.UndisturbedSubscription | internal/webterm/webterm.go:264-290 | in particular from every reachable state a subscription that nothing interrupts |
| GaplessReplay.SpanStaysInRun | internal/webterm/webterm.go:273-283 | where a client joined never changes in the rest of the run |
| GaplessReplay.SubscriberSeesGaplessOutput | internal/webterm/webterm.go:253-290 | in every later state of the run up to the exit such a client has been sent the last capacity bytes from before it joined followed by the output since, as one stretch of the log, whatever the chunking; if it is still there and nothing is in flight the stretch is the log to its end, and if it has left or failed it ends there |
| GaplessReplay.GoneClientKeepsScreen | internal/webterm/webterm.go:246-289 | a client that has left or failed is sent nothing more in the rest of the run, the exit included |
| GaplessReplay.OverlapRepeats | internal/webterm/webterm.go:241-268 | a run in which a client that replays between a write and its fan-out sees the text twice |
| GaplessReplay.OverlapMisses | internal/webterm/webterm.go:241-283 | a run in which a broadcast between snapshot and registration never reaches the client |
| GaplessReplay.MarkerOvertakes | internal/webterm/webterm.go:217-251 | a run in which the waiter fans out the exit marker before the reader fans out the last output, so the screen is out of order |
| LateClients.CountOfReplay | internal/webterm/ringbuffer.go:21-32 | whatever the log holds, a replay contains a given byte of a broadcast once if that was written before the snapshot and no more than capacity bytes follow from there, and otherwise not |
| LateClients.ShownThreeWays | internal/webterm/webterm.go:241-290 | in every reachable state each byte that a registered client has been shown has an origin, and any byte of any broadcast is among the origins once for the replay and once for the fan-out since the registration, if it is in them, and any byte of the explicit marker once if the client took it |
| LateClients.MarkerShownOnceIff | internal/webterm/webterm.go:231-283 | whatever has been output, a late client that takes the marker is shown each byte of it once if and only if its broadcast was written after the replay, or cut from it, and fanned out before the registration; three times if and only if neither; else twice |
| LateClients.UsuallyShownTwice | internal/webterm/webterm.go:231-283 | whatever else has been output, a client that joins when the marker has been fanned out and is still in the log is shown all of it twice, once within its replay and once behind it |
| LateClients.ShownThreeTimes | internal/webterm/webterm.go:231-283 | a run in which a client joins between the write of the marker and its fan-out and is shown it three times |
| ShellQuote.Join | internal/shellutil/shellutil.go:23-29 | the loop produces the quoted arguments in order, separated by single blanks |
| ShellQuote.EscapesDecode | internal/shellutil/shellutil.go:19 | either way of writing a quote inside single quotes adds one quoted quote and stays inside |
| ShellQuote.EscapedBodyDecodes | internal/shellutil/shellutil.go:18-20 | the lexer reads an escaped body back as the original characters, all of them quoted |
| ShellQuote.QuotedDecodes | internal/shellutil/shellutil.go:18-20 | a quoted string starts exactly one word, which spells the string |
| ShellQuote.JoinRoundTrip | internal/shellutil/shellutil.go:22-29 | the shell splits a joined command line back into exactly the arguments, for every list of strings |
| ShellQuote.RemoteQuoteRoundTrip | internal/remote/remote.go:311-313 | the other quoting variant decodes to exactly the one argument as well |
| LoginCommand.SetupTokens | internal/shellutil/shellutil.go:38-39 | the login setup lexes to exactly its assignment and its case command and leaves the lexer between two commands |
| LoginCommand.CaseSetsFlags | internal/shellutil/shellutil.go:39 | exactly one arm of the case command sets the flags, chosen by the last path component of the shell |
| LoginCommand.SetupSets | internal/shellutil/shellutil.go:38-39 | running the setup sets the two variables and nothing else, whatever command follows and whatever the environment |
| LoginCommand.LoginChoosesShell | internal/shellutil/shellutil.go:38-39 | the shell is the user's own or else /bin/sh, and csh and tcsh in any directory are started with -ic, all other shells with -lic |
| LoginCommand.LoginHandsOver | internal/shellutil/shellutil.go:36-41 | in every environment the login command ends by running that shell with those flags on the inner script, unchanged, as four separate words |
| OtherShells.QuotedReadsBackIff | internal/shellutil/shellutil.go:18-20 | fish and csh read a quoted string back as it was if and only if it is free of what each of them still interprets between quotes |
| LoginShells.LoginDeliversIff | internal/shellutil/shellutil.go:31-41 | in every environment the login command makes the user's shell, be it POSIX, fish or csh, hand exactly the command to /bin/sh if and only if the command survives in that shell |
| LoginShells.CarriedIff | internal/shellutil/shellutil.go:80-92 | the far side executes sh -c with the login command as one argument if and only if the transport is a devcontainer, which executes its arguments as they are, or, over ssh and codespace, where all arguments are joined by blanks and read by the user's shell, the login command survives in that shell |
| LoginShells.FishUnsafeLogin | internal/shellutil/shellutil.go:36-41 | the login command of every script holds a backslash before a quote, so it never survives in fish |
| LoginShells.CshSafeLogin | internal/shellutil/shellutil.go:36-41 | the login command survives in csh if and only if the script does |
| LoginShells.TransportIntactIff | internal/shellutil/shellutil.go:31-92 | over ssh, codespace and devcontainer all layers of every script come through if and only if the script survives in the user's shell and, with fish, the transport is a devcontainer |
| LoginShells.DevcontainerDeliversIff | internal/shellutil/shellutil.go:88-90 | in a devcontainer, which executes its arguments as they are, /bin/sh receives the script if and only if it survives in the user's shell |
| LoginShells.WhatDoesNotSurvive | internal/shellutil/shellutil.go:31-35 | a line break does not survive in csh, nor a backslash before a quote or another backslash in fish |
| LoginShells.TransportRoundTrip | internal/shellutil/shellutil.go:80-92 | with a POSIX shell ssh, codespace and devcontainer alike deliver every script unchanged to /bin/sh, and other types are refused |
| FishTransport.FishSplitsScript | internal/shellutil/shellutil.go:84-87 | with fish as the user's shell, ssh and codespace do not deliver any script whose first blank follows a plain word |
| LoginSource.CommandText | internal/shellutil/shellutil.go:36-41 | the assembled login command is, character for character, the text of the source around the quoted command |
| AliasStore.StepKeepsLockInv | internal/reponames/reponames.go:77-90 | whatever step, failure or crash comes next, exactly the lock holder is inside the critical section |
| AliasStore.StepKeepsCommitInv | internal/reponames/reponames.go:121-148 | each commit belongs to one caller and happens once, and success is reported only for a commit |
| AliasStore.TmpStaysWithItsWriter | internal/reponames/reponames.go:92-102 | a caller about to rename finds in the temporary file what it wrote |
| AliasStore.StepKeepsInv | internal/reponames/reponames.go:115-149 | every step of every process keeps all of this and the file equal to the fold of the commits |
| AliasStore.FileIsFoldOfCommits | internal/reponames/reponames.go:113-149 | in every reachable state the file is the fold of the committed edits in lock order, and a finished call for a real key succeeded exactly if its edit is among them |
| AliasStore.CommitsFollowCalls | internal/reponames/reponames.go:113-149 | the commits are the renames of the run in their order, each with the edit that its caller asked for |
| AliasStore.LoadSeesPrefix | internal/reponames/reponames.go:49-75 | a Load without the lock sees the result of some prefix of the commits, never a torn file |
| AliasStore.LastEditWins | internal/reponames/reponames.go:139-143 | a key holds what its last edit gave it, and an empty alias removes it |
| AliasStore.UneditedKeysStay | internal/reponames/reponames.go:139-143 | a key without an edit holds what it held before |
| AliasStore.NoUpdateIsLost | internal/reponames/reponames.go:113-149 | a committed alias is in the file until a later commit for the same key |
| AliasStore.Store.Set | internal/reponames/reponames.go:115-149 | on success for a real key the file holds what it decoded to before with that one key set, or removed for an empty alias; an empty key or any failure leaves the file untouched; and the lock is released on every path |
| AliasStore.SetFollowsProtocol | internal/reponames/reponames.go:115-149 | an uninterrupted Set is a sequence of steps of the multi-process protocol with the same files and result |
| NotifyStore.Diff | internal/notify/notify.go:285-310 | the scan records every state of the batch and collects the transitions in batch order |
| NotifyStore.Prune | internal/notify/notify.go:312-316 | exactly the sessions that the batch mentions survive |
| NotifyStore.Store.DiffAndUpdate | internal/notify/notify.go:273-319 | after a saved poll the snapshot is exactly the states of the batch, after a failed save it is the old one, and the events are returned either way |
| NotifyStore.EventsAreEntries | internal/notify/notify.go:289-310 | how often a session fires depends only on what was recorded for it and on its own entries |
| NotifyStore.OneEventPerTransition | internal/notify/notify.go:188-195 | however often a session occurs in an agreeing batch it fires once if it made a transition and never otherwise |
| NotifyStore.FiresOnceIffAgreeing | internal/notify/notify.go:191-195 | the promise of one event per transition holds from every snapshot if and only if the batch does not contradict itself about the session |
| NotifyStore.ConflictingDuplicatesFireTwice | internal/notify/notify.go:289-310 | a batch that calls a session done, working and done again fires twice |
| NotifyStore.EventsReportTheBatch | internal/notify/notify.go:304-309 | each event carries the kind that its batch gives the session, the sound of that kind and the title of an entry of that session |
| NotifyStore.StoredIsLastSaved | internal/notify/notify.go:312-319 | in any run of polls the snapshot compared with is that of the last poll whose save succeeded, or the initial one |
| NotifyStore.PollsFireOnTransitions | internal/notify/notify.go:179-195 | over any run of polls by any observers, saved or not, an event fires, once, exactly when the last saved poll saw the session in another state and it is now done or has a question |
| NotifyStore.FiresAgainUntilSaved | internal/notify/notify.go:191-195 | while the polls report the same of a session, what fired once fires again at every poll until one has been saved, and from then on not |
| NotifyStore.FailedSaveFiresTwice | internal/notify/notify.go:191-195 | one failed save makes one transition fire twice |
| NotifyReports.PollNotifiesIff | internal/notify/notify.go:38-47 | over any run of polls, a poll that is consistent about a session notifies of it, once, if and only if the last saved poll knew it and it is now waiting and was not then, or is now done and was not then |
| NotifyReports.EventsTellOfEntries | internal/notify/notify.go:304-309 | from any snapshot and batch, each event tells of one entry, in batch order: a question with the sound Funk of a waiting session, or done with the sound Tink of a done one, with its title |
| NotifyReports.StatesAreReports | internal/notify/notify.go:285-319 | what is recorded of a batch is the last state that it reports for each session, as question, done or neither |
| NotifyReports.CountIsNumberOfPlaces | internal/notify/notify.go:289-310 | the events counted for a session are its places in the answer |
| NotifyProtocol.StepKeepsInv | internal/notify/notify.go:273-319 | every step of every observer, failures and crashes included, keeps the lock exclusive and the snapshot equal to what the polls in lock order leave behind |
| NotifyProtocol.PollsAreSerialized | internal/notify/notify.go:161-163 | however calls interleave, each answers exactly the events of its place in the lock order |
| NotifyProtocol.EachPollIsAnsweredOnce | internal/notify/notify.go:191-195 | every poll that took effect is answered by one call and no other, unless that call crashed |
| NotifyProtocol.AnswersReportTransitions | internal/notify/notify.go:179-195 | in every reachable state an answer holds one event for a session if and only if the last saved poll before it, of any observer, knew the session, and it is now waiting and was not then, or is now done and was not then |
| NotifyProtocol.AnswersTellOfEntries | internal/notify/notify.go:304-309 | every event of an answer tells of an entry of that call's own batch, with the kind and sound of its state |
| NotifyProtocol.PollsFollowCalls | internal/notify/notify.go:161-195 | the polls of a run are the calls that came to write, in that order and with their own batches, and count as saved if they replaced the file |
| NotifyStore.NoFloodAndNoRepeat | internal/notify/notify.go:181-190 | a session that the last saved snapshot does not have, or has in the state it is in now, fires nothing |
| DoneMarker.Runtime.Visit | internal/sessions/merge.go:46-69 | one session in one pass: the state shown, and an entry that is written only if it changed |
| DoneMarker.Runtime.Merge | internal/sessions/merge.go:21-76 | a pass reports the rows, and if it can be saved leaves the file, as if every entry had been written, although it skips unchanged ones; a file that cannot be read counts as empty and is overwritten |
| DoneMarker.Runtime.Clear | internal/donestate/donestate.go:102-117 | clearing takes the marker off one session and keeps its last state, if it can be saved |
| DoneMarker.FileTracks | internal/donestate/donestate.go:22-61 | the file follows each session's own history, in which a pass over an unreadable file forgets, whatever happens to other sessions |
| DoneMarker.TrackedDone | internal/sessions/merge.go:46-70 | the marker is up exactly in a block of active or inactive idle passes that a working pass led into with no Clear since the block began, and its time is that of the pass that began the block |
| DoneMarker.ShownIsDoneInFinishedBlock | internal/sessions/merge.go:46-70 | over any sequence of passes and clears, with failing reads and saves, a session is shown as done exactly in such a block and otherwise in its raw state, and its entry says since when |
| Listing.LessIsStrictWeakOrder | internal/sessions/merge.go:124-175 | the comparator is irreflexive and transitive, and so are its ties |
| Listing.InsertionSortIsStable | internal/sessions/merge.go:124-135 | a sorted rearrangement exists that keeps tied sessions in their order |
| Listing.StablyRearrangedIsPermutation | internal/sessions/merge.go:124-135 | a rearrangement that keeps every group of ties is a permutation |
| Listing.StableSortIsUnique | internal/sessions/merge.go:124-135 | there is only one stable sort of a list, so every stable algorithm gives the same listing |
| Listing.LessMeans | internal/sessions/merge.go:124-175 | the comparator puts one row before another exactly if the order of attached, active and exited rows, of waiting, working, done, active idle and inactive idle ones among them, and of recency forbids the reverse |
| Listing.RowsAreRanked | internal/sessions/merge.go:124-175 | for any two rows: attached sessions before others, then active ones, exited ones last; waiting, working, done, active idle and inactive idle ones follow each other in each group; and among equals the most recent comes first |
| Listing.SortMerged | internal/sessions/merge.go:124-135 | sorting in place leaves the stable sort of what was there |
| TitleMatch.MatchMeansContainment | internal/sessions/remotematch.go:146-166 | every accepted pair has one text inside the other, and short texts match only as a suffix |
| TitleMatch.FitsMeans | internal/sessions/remotematch.go:120-166 | a pane fits a session if and only if the session has a summary and no pane yet, and the nonempty title ends with the summary, or contains it and the summary has more than 10 bytes, or the other way round |
| TitleMatch.FindPane | internal/sessions/remotematch.go:123-140 | the pane found is the first unused one that fits, or none if there is none |
| TitleMatch.AssignByTitle | internal/sessions/remotematch.go:120-142 | the sessions are rewritten in place by a first-fit assignment, with the session name of the pane and its target written as session, window and pane index, and all others are left alone |
| TitleMatch.FirstFitIsMatching | internal/sessions/remotematch.go:120-142 | first fit gives no pane to two sessions and leaves no eligible session with an unused pane that fits it |
| TitleMatch.FirstFitIsUnique | internal/sessions/remotematch.go:120-142 | first fit leaves no choice at any session |
| TitleMatch.GreedyIsHalfOptimal | internal/sessions/remotematch.go:117-142 | the greedy assignment serves at least half as many sessions as any assignment could |
| TitleMatch.GreedyCanMissHalf | internal/sessions/remotematch.go:117-142 | two sessions and two panes for which it serves one although both could be served |
| TmuxNames.DecimalIsInjective | internal/tmux/tmux.go:275 | different suffix numbers print differently |
| TmuxNames.DecimalReadsBack | internal/tmux/tmux.go:275 | a suffix number is printed in decimal digits without a leading zero |
| TmuxNames.TakenSuffixesCount | internal/tmux/tmux.go:274-279 | as many names are taken as suffixes have been tried, which bounds the search |
| TmuxNames.FirstFreeName | internal/tmux/tmux.go:274-279 | the unbounded search ends, within the number of taken names, at the smallest free suffix |
| TmuxNames.ResolveSessionName | internal/tmux/tmux.go:262-280 | the first session at the path is resumed if there is one; otherwise the desired name if it is free, else the one with the smallest free suffix, and never a taken name |
| SessionCache.Cache.WarmRead | internal/webui/sessioncache.go:64-77 | a warm read serves what is stored and starts a refresh exactly when the list is at least as old as the ttl and none is running |
| SessionCache.Cache.CommitLoad | internal/webui/sessioncache.go:82-88 | a load replaces list, error and time, makes the cache warm and leaves a running refresh alone |
| SessionCache.Cache.CommitRefresh | internal/webui/sessioncache.go:93-98 | a refresh replaces list, error and time and ends itself |
| SessionCache.Cache.PatchName | internal/webui/sessioncache.go:106-114 | every stored session with the id gets the name in place, and nothing else changes |
| SessionCache.StepKeepsInv | internal/webui/sessioncache.go:47-114 | every critical section and provider answer keeps the invariant on refreshes, readers, answers and lists |
| SessionCache.OneRefreshAtATime | internal/webui/sessioncache.go:71-74 | in every reachable state the flag is up exactly while one refresh is in flight, and there is never a second |
| SessionCache.WarmGetsNeverLoad | internal/webui/sessioncache.go:54-78 | a Get that found a warm cache and a positive ttl never calls the provider |
| RefreshTiming.FieldsFollowHistory | internal/webui/sessioncache.go:47-99 | in every state of every run ttl, warmth and time of the list are those of the last ttl change, of the loads and of the last commit |
| RefreshTiming.GetLoadsIff | internal/webui/sessioncache.go:54-62 | a Get calls the provider itself if and only if the ttl in force is not positive or nothing has been loaded yet |
| RefreshTiming.RefreshStartsIff | internal/webui/sessioncache.go:64-77 | a warm Get puts a refresh in flight if and only if none is and the time since the last commit of a load or refresh is at least the ttl in force when that Get began |
| RefreshTiming.InFlightIff | internal/webui/sessioncache.go:71-99 | a refresh is in flight if and only if a Get has started it and it has not committed since |
| SessionCache.ServedListsAreExplained | internal/webui/sessioncache.go:54-114 | every list and error ever served is one completed provider answer with the later name patches applied in order |
| SharedLists.HandedOutListsTrackPatches | internal/webui/sessioncache.go:64-114 | whoever holds a list that was handed out sees in it, at any later time, its answer with all patches made while it was the stored list, in order, and no others |
| RenameVisibility.RowBearsNameInForce | internal/webui/sessioncache.go:80-114 | in every state of every run a row of the stored list has the name of the last patch for its session since the list was stored, and otherwise the name that the answer gave it |
| RenameVisibility.NameIsShownIff | internal/webui/sessioncache.go:80-114 | so a name is shown if and only if the last patch for the session since then has it, or there is none and the answer has it |
| RenameVisibility.RenameIsVisibleIff | internal/webui/sessioncache.go:101-114 | a rename shows if and only if it was made since the list was stored and is the last for its session, or the name in force instead is the same |
| RenameVisibility.RenameSurvivesCommitIff | internal/webui/sessioncache.go:80-99 | right after a load or refresh commits, any earlier rename shows if and only if the committed answer has its name |
| RenameVisibility.StoredAtLastCommit | internal/webui/sessioncache.go:80-99 | the list counts as stored since the last commit of a load or refresh in the run |
| RenameVisibility.RenameLasts | internal/webui/sessioncache.go:101-114 | until the next commit and the next rename of the session a rename shows in every state of the run |
| RenameVisibility.RefreshLosesRename | internal/webui/sessioncache.go:91-99 | a run in which a rename is made while a refresh holds its answer, and is lost |
| RenameVisibility.LoadLosesRename | internal/webui/sessioncache.go:80-89 | a run with no refresh at all in which two readers load a cold cache and a rename between their commits is lost |
| SessionCache.WarmReadServesCurrentList | internal/webui/sessioncache.go:64-77 | a warm read serves the stored answer with every patch made since it was stored |
| Recency.RecentIsOrderOfLastSelection | internal/webui/static/app.js:389-395 | re-inserting the touched key keeps the keys ordered by when each was last selected |
| Recency.RecentHasNoDuplicates | internal/webui/static/app.js:392-395 | a touched key is moved, never doubled |
| PaneCache.PaneMap.TouchPane | internal/webui/static/app.js:392-395 | the touched pane becomes the newest and the others keep their order |
| PaneCache.PaneMap.EvictPane | internal/webui/static/app.js:405-415 | the pane disappears from map and screen, and is no longer active if it was |
| PaneCache.PaneMap.EvictLruIfAtCap | internal/webui/static/app.js:417-423 | room is made by dropping the oldest panes only, and never the active one |
| PaneCache.PaneMap.EnsurePane | internal/webui/static/app.js:435-439 | a known key changes nothing, a new one joins hidden as the newest |
| PaneCache.PaneMap.ShowPane | internal/webui/static/app.js:586-597 | the shown pane becomes active and newest and the previously active one is hidden |
| PaneCache.PaneMap.SelectSession | internal/webui/static/app.js:649-668 | after any history of selections map, active key and visible panes are what the history asks for |
| PaneCache.SelectionKeepsExpected | internal/webui/static/app.js:649-668 | selecting moves or adds one key at the newest end and drops the oldest only for lack of room |
| PaneCache.NewestPaneIsActive | internal/webui/static/app.js:586-597 | the last selected key is the newest pane, the active one and the only visible one, among at most eight |
| PaneCache.PanesAreInOrder | internal/webui/static/app.js:389-395 | the panes stand in the order of their last selection |
| PaneCache.EvictedKeysAreOlder | internal/webui/static/app.js:417-423 | a selected key is without a pane only if eight other keys have been selected since |

## Left out

- Process spawning, PTYs, sockets, the ssh, Docker and gh transports, HTTP, WebSockets, SSE and DOM rendering: calls into code outside this model, which appear as inputs and nondeterministic steps.
- Parsing of JSON, YAML, sqlite, lsof, ps and tmux output: the models start from parsed events, sessions and panes, with the parser of one log line as a parameter.
- The port marker's regular expression, `filepath.Clean` and `repository.Normalize`: parameters or already normalised inputs.
- `Start` over a failed instance replaces it without closing it, so teardown claims are per closed instance.
- Goroutine scheduling inside the classes: a concurrent class has one method per critical section and knows other objects by number, and the interleavings are the runs of the transition system beside it.
- InstanceLifecycle.Instance.CommitPort: callbacks are handles, stopping the timer is not modelled because a late timeout is harmless, and error texts are reduced to their cause.
- The shell beyond what the scripts use: an argument has a value only if no expansion could split it, drop it or match files; command substitution, arithmetic, positional parameters, here-documents and other patterns than literals and a lone asterisk have no meaning in `ShellLexer` and `ShellEval`.
- The other shells beyond quoting: unquoted characters other than those of plain words, and history, have no meaning in `OtherShells`; `LoginShells` takes the shell that reads a command line on the far side and the one in SHELL to be the same, and tcsh to have its default settings.
- AliasStore.Store.Set: the process mutex is subsumed by the file lock, and the lock file itself and its error texts are not modelled.
- NotifyStore.Store.DiffAndUpdate: starts with the lock held, a refused lock being a step of the protocol; labels stand for titles, message texts are not formatted, and an unreadable snapshot counts as the empty one.
- GaplessReplay.SubscriberSeesGaplessOutput: a client that joins after the exit is covered by `ScreenOfSubscriber`, which has the marker between replay and later output, and by `LateClients`.
- DoneMarker.Runtime.Merge: runs one at a time, since the runtime file has no lock across processes.
- SessionCache.ServedListsAreExplained: is about the list at the moment it is handed out; what its holder sees later is in `SharedLists`.
- TailWindow.TailReadAgrees: is about windows with a turn_end; without one the tail read can differ, and `LongTurns` says exactly when.
- Listing.SortMerged: sorts by insertion instead of the library's block merge, and uniqueness of the stable sort makes the result the same.
- TitleMatch.AssignByTitle: only the multi-session branch of the pane resolution; the single-session branch and `findRemoteForPane`, whose answer depends on map iteration order, are not modelled.
- Timers and liveness: a timeout may fire at any step, and nothing says that a step must happen.
- `names.Set`, configuration, release resolution, installers, fzf arguments, SHA-derived names and label formatting: easy or string plumbing.
