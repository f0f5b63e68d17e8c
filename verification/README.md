# loc, modelled and proved

`loc` is a local message bus: agents take seats, send each other mail, and are
told by a bell that mail waits. This project models the state machines that
decide whether mail is lost, whether a bell stays silent, and whether what the
record says is what happened, and proves properties of every run of them.

| file | part of the system |
|---|---|
| `Breaker.dfy` | the two-level calendar breaker of a bell, with overlapping rings |
| `BellSpec.dfy`, `Bell.dfy` | the bell as functions from state to state, and as the object whose callbacks take exactly those steps |
| `BellNames.dfy`, `BellStreak.dfy`, `BellSays.dfy` | whom a later try may name; the streaks in the seat's log; how much each try announces and which answer each line records |
| `Events.dfy`, `Record.dfy` | the lines of the record, and the reader that folds them back into a seat's state |
| `Transcript.dfy` | the same record joined by message, and each message's fate |
| `Findings.dfy`, `Seat.dfy`, `House.dfy` | ledger rows, queues and processes: the findings, one beat of the sweep, the verbs |
| `SeatServer.dfy`, `SeatRuns.dfy`, `VerbRuns.dfy` | the server of a seat, runs of a whole house, write by write, and the verbs as such runs |
| `Reading.dfy` | the destructive read, against failures at every point |
| `Text.dfy`, `Handed.dfy` | what a read shows, and the count of what it handed over |
| `Courier.dfy`, `Addressee.dfy` | the evidence a courier's stream gives for a ring, and who an addressee is |
| `Hermes.dfy` | the adapter's bells and drains, and the sorting of what a drain read |
| `Codec.dfy`, `ConfigFile.dfy` | endpoint names and queue object names; the config file printed and read |
| `Basics.dfy` | options, counting and filtering of sequences |

Code that changes things step by step is a class or a method proved against a
specification function or predicate; what the system promises is then proved of
that specification for every input and every run.

## Results that are not what the source says

- **Two writes with a gap.** A row written in the gap between the two writes of
  an unsubscribe does not protect the seat: the late delete takes the queue the
  new row adopted, with its mail (`SeatRuns.AGapCanCostANewSeatItsMail`, for every
  state in a gap). What goes with the seat is exactly the mail accepted before
  the unsubscribe began if and only if no send in the gap found both a row and a
  queue (`SeatRuns.DestroyedMailIsOlderIff`).
- **Held since before the registration.** The report means to drop a streak of a
  seat's previous occupant, but dates a held bell from the first of the trailing
  held tries, whoever's bell wrote it. A seat registered at 90 seconds and first
  held at 100 is shown as held since 10 (`Record.HoldCanPrecedeTheRegistration`).
  The date is the bell's own exactly when the held run does not reach the start
  of its log, or the seat's line before it is not a held try, or was first held
  at the same stamp (`Record.HeldSinceIsThisBellsIff`).
- **`handed=N` and the reader's own name.** A sender's name can never confuse the
  count. The reader's own name can: it stands in the queue heading, and with a
  newline in it the heading is not one line and every message is missed. The
  count is the number of messages shown exactly when the reader's name is one
  line or nothing was shown (`Handed.HandedIsShownIff`; `Handed.TwoLineNameUndercounts`
  gives the input). A seat's server refuses a name that is not a valid endpoint
  (`cmd/loc/mcp.go:290-292`), so what it logs is right
  (`Handed.ServedSeatsAreCountedRight`).
- **A clean departure is logged as a displacement.** A departing server always
  forces its own unsubscribe, so while its runtime lives its own clean leave is
  written down as `displaced`, not `left`, against the comment at
  `cmd/loc/presence.go:335-341` (`SeatServer.Server.Depart`).
- **A dot in an object name.** `endpointOfStream` is undone by `StreamName`
  exactly on names with no dot; with one, two objects read as one endpoint
  (`Codec.NameIsRebuiltIff`, `Codec.DottedNameCollides`). The store bars such names.
- **A failed drain.** A drain of the Hermes adapter that ends by an exception
  leaves a bell behind exactly when `_drain_again` was raised under it
  (`Hermes.FailureLosesNoBellIff`; `Hermes.FailureDropsABell` gives a run). A drain
  that comes back never does (`Hermes.ReturnLosesNoBell`).
- **Stored and recorded as failed.** A publish that was stored and whose answer
  was lost leaves the mail in the queue under a `failed` line (`House.House.Send`).

## Assumptions

- Each bell callback runs to completion and a stopped timer never fires. Asking
  the unread count and the locked section that uses it are one step. While the
  watch is connected an arrival is seen in the step that stores it. Reads take
  from the front of the queue.
- In the breaker a ring is three steps, charge, ask and refund, and any number of
  rings may overlap. The clock does not go backwards. `RingIsBeginAndFinish` ties
  the bell's own ring to that machine.
- One beat of the sweep is atomic and may land, any number of times, between the
  two writes of a subscribe or an unsubscribe. A load-then-save and the
  check-then-unsubscribe of a departure are one step each, as the code takes no
  lock there. A medium that cannot be reached is the parameter `reached`. A row's
  endpoint is its ledger key, and no two registrations carry the same stamp.
- Stamps are the fixed UTC form of section 5.6 of RFC 3339, so they are naturals;
  a missing stamp orders before every other, as the empty string does. An event's
  position in the record stands for its sequence number.
- Envelopes, log lines and stream lines are datatypes; parsing is the value
  given. Text is a sequence of characters. A write to the read tool's own buffer
  does not fail.

## Model

| member | source | states |
|---|---|---|
| Breaker.CapsHold | internal/mcpserve/bell.go:375-428 | in every run of overlapping rings the two counters are the unrefunded charges of the current buckets, no calendar minute or hour holds more of them than its cap, and no hour has two trip lines |
| Breaker.RefundGuardsNeverBite | internal/mcpserve/bell.go:663-676 | a refund into a bucket still current always finds its charge there: the `> 0` guards change nothing |
| Breaker.AdmitsExactly | internal/mcpserve/bell.go:375-428 | a ring is admitted if and only if its own minute and its own hour have unrefunded room |
| Breaker.BucketsAreCalendar | internal/mcpserve/bell.go:786-796 | a minute's bucket is its sixty seconds and an hour's its 3600, from the calendar's own start |
| Breaker.RollKeeps | internal/mcpserve/bell.go:786-796 | turning the calendar keeps the counters equal to the charges of the bucket they now name |
| Breaker.BeginKeeps | internal/mcpserve/bell.go:375-428 | a charge, or a refusal with its one trip line, keeps the breaker's invariant while other rings are open |
| Breaker.FinishKeeps | internal/mcpserve/bell.go:663-676 | a ring kept or refunded late, in any later bucket, keeps the invariant |
| BellSpec.RingFrame | internal/mcpserve/bell.go:375-428 | a ring moves the breaker and its trip lines only, and comes to one of the five results |
| BellSpec.RingIsBeginAndFinish | internal/mcpserve/bell.go:375-428 | the bell's ring is one charge and, when admitted, one finish of the breaker's machine, and is suppressed if and only if the breaker refuses |
| BellObject.Bell.Stop | internal/mcpserve/bell.go:207-219 | stopping disarms both timers and drops the streak, and touches nothing else |
| BellObject.Bell.Arrived | internal/mcpserve/bell.go:224-238 | an arrival adds one to the window, notes its sender once, arms the window if it was not armed, and a nameless one makes it blind |
| BellObject.Bell.Disconnected | internal/mcpserve/bell.go:249-254 | losing the watch marks the count as cut and the way back as not yet seen |
| BellObject.Bell.Note | internal/mcpserve/bell.go:262-272 | a sender is kept once, an empty one never |
| BellObject.Bell.Backlog | internal/mcpserve/bell.go:286-333 | a heard backlog of some mail announces the queue's count where it covers the tally and the tally otherwise, names nobody after a cut, makes the window blind where the count is larger, and fires at once; an unreadable count announces nothing and changes no tally |
| BellObject.Bell.Fire | internal/mcpserve/bell.go:340-368 | the window is emptied and rung for once as try 1 of a fresh streak; what is announced is the pending count and, unless cut, the window's senders |
| BellObject.Bell.Roll | internal/mcpserve/bell.go:786-796 | the object's calendar turn is the breaker's |
| BellObject.Bell.GiveBack | internal/mcpserve/bell.go:663-676 | the object's refund is the breaker's, bucket by bucket |
| BellObject.Bell.Ring | internal/mcpserve/bell.go:375-428 | the charge, the trip line, the answer and the refund are those of the specified ring |
| BellObject.Bell.Try | internal/mcpserve/bell.go:430-434 | a ring is always followed by its counting |
| BellObject.Bell.Counted | internal/mcpserve/bell.go:462-521 | one try line, a give-up line after the last non-held try, and the next timer armed otherwise, at the held gap after a held answer |
| BellObject.Bell.Again | internal/mcpserve/bell.go:549-596 | a later try asks the queue, ends the streak on an empty one, counts an unreadable one as failed, and announces the queue's count under the names it may use |
| BellObject.Bell.LaterNames | internal/mcpserve/bell.go:616-641 | the loop's answer is the specified decision from counts alone |
| BellObject.Bell.ClearStreak | internal/mcpserve/bell.go:652-661 | nothing of a streak survives its end, its timer included |
| BellNames.LaterNamesExact | internal/mcpserve/bell.go:598-641 | in every run of seen, unseen and unparsable arrivals, reads, cuts and tries, whenever a later try names anyone the names are exactly the senders of the mail then waiting, each once |
| BellNames.NamesAreTheQueue | internal/mcpserve/bell.go:616-641 | the same from the invariant: where the two count comparisons pass, the queue is the counted arrivals' own tail |
| BellNames.SecondTryNamesAll | internal/mcpserve/bell.go:340-368 | naming does happen: of any mail all seen and all parsed the second try names every sender |
| BellNames.ArriveKeeps | internal/mcpserve/bell.go:224-238 | an arrival keeps queue and counted arrivals suffix-comparable |
| BellNames.TakeKeeps | internal/mcpserve/bell.go:598-641 | a read from the front keeps them so |
| BellNames.FireKeeps | internal/mcpserve/bell.go:340-368 | opening a streak moves the window's arrivals behind it without losing the agreement |
| BellNames.BacklogKeeps | internal/mcpserve/bell.go:286-333 | a backlog keeps the agreement, forgets every name where it goes blind, and restores it from an empty queue |
| BellNames.AgainKeeps | internal/mcpserve/bell.go:549-596 | a later try keeps the agreement, and an empty queue with the watch back ends the cut |
| BellStreak.LogWellFormed | internal/mcpserve/bell.go:436-521 | in every run each try line is numbered 1 plus the non-held tries since its fire, a held line carries the slot it stands in for, and a give-up follows exactly the non-held try of the last number, with that streak's true ring count and last result |
| BellStreak.NeverSilent | internal/mcpserve/bell.go:224-368 | in every run, while not stopped, unannounced arrivals exist if and only if the window timer is armed, and tries made have a next try armed |
| BellStreak.NeverEndless | internal/mcpserve/bell.go:462-596 | without a new fire the non-held tries still to come are at most those left, a give-up comes if and only if all are spent, and nothing follows it |
| BellStreak.NoFireBounded | internal/mcpserve/bell.go:462-596 | the same from any state of the invariant, not only from a start |
| BellStreak.CountedKeeps | internal/mcpserve/bell.go:462-521 | one counted try extends a well-formed log and leaves the counters equal to the counts of the open streak's lines |
| BellStreak.FireKeeps | internal/mcpserve/bell.go:340-368 | a fire starts a streak at the end of the log with nothing counted |
| BellSays.BacklogSetsTheFigure | internal/mcpserve/bell.go:278-333 | the figure announced is set, not added: the queue's count when it is at least the tally, else the tally, and exactly when the count was heard, not zero and the bell not stopped |
| BellSays.NeverSaysMoreThanWaits | internal/mcpserve/bell.go:278-333 | in every run without a read, of arrivals seen and unseen, cuts, backlogs and tries, what a step announces is at least one message and never more than the queue holds |
| BellSays.ArrivalsWaitForARing | internal/mcpserve/bell.go:224-368 | the tally of unannounced arrivals grows by one with each seen, and only a ring that announces at least as many takes it away |
| BellSays.WhenACutEnds | internal/mcpserve/bell.go:240-320 | every loss begins a cut; a count read by a backlog ends it; an empty queue found by a later try ends it exactly once a backlog was asked for since the loss; nothing else does |
| BellSays.StepTells | internal/mcpserve/bell.go:286-596 | a fire writes one try line, a later try writes one only while mail waits or cannot be counted, and no other step writes any |
| BellSays.EachLineTellsItsAnswer | internal/mcpserve/bell.go:375-541 | in every run each try line carries the word and reason of the answer to that step's own ring: taken is rang with no reason, busy, held and broken their word with the notifier's text, and suppressed exactly what the breaker did not admit |
| BellSays.GiveUpCountsTakenRings | internal/mcpserve/bell.go:462-521 | in every run a give-up's `rang` is the number of admitted rings the pane took since its streak's fire |
| BellSays.NextTryIsDue | internal/mcpserve/bell.go:462-521 | in every run an open streak's next try waits the held gap exactly when its last line is held, and the fixed gap otherwise |
| BellSays.SilentAfterLeaving | internal/mcpserve/bell.go:207-219 | once stopped a bell writes and announces nothing more, whatever still happens |
| Record.FoldRecord | cmd/loc/presence.go:958-1008 | one pass over the record holds, for every name at once, that seat's streak and that reader's latest read |
| Record.LastReadIsLatest | cmd/loc/presence.go:998-1001 | the latest read is a read by that reader and no read by it is later; none exactly where there is none |
| Record.BellStreaks | cmd/loc/presence.go:958-1033 | over the lines themselves, a seat is reported if and only if it is registered, its streak is not before the row's own second, and no read by it is stamped after the streak's last line |
| Record.AReadDropsTheStreak | cmd/loc/presence.go:1024-1029 | the read line a drain writes, stamped after the streak, takes it off the report |
| Record.OnlyTheSeatsLinesCount | cmd/loc/presence.go:958-1008 | lines of other seats, messages and readers, however interleaved, never change what a seat reads back |
| Record.ReaderDescribes | cmd/loc/presence.go:958-1008 | of any lines of one seat the reader keeps the last try, whether a stop follows it, and the first stamp of the trailing run of held tries |
| Record.ReadBack | cmd/loc/presence.go:958-1008 | for any bell run and any record holding its lines behind those of the seat's earlier bells and among any others, the reader recovers the last counted try, `of` and result, says stopped exactly after a give-up, and there carries the streak's true ring count with `last` equal to `result`; a bell that wrote nothing leaves what the earlier ones left |
| Record.OpenStreakReadBack | cmd/loc/presence.go:958-1008 | behind any earlier bells' lines, while a streak is open the reported try is the bell's own count, or the slot a held try fills |
| Record.HoldIsItsOwnIff | cmd/loc/presence.go:978-992 | of any lines behind any others, the hold read is the lines' own if and only if nothing held runs into it from before |
| Record.HeldSinceIsThisBellsIff | cmd/loc/presence.go:978-992 | the reported start of a hold is this bell's own if and only if its held run does not reach the start of its log, or the line before is not a held try, or was first held at the same stamp |
| Record.HoldCanPrecedeTheRegistration | cmd/loc/presence.go:943-1031 | a streak that stands, later than its registration, dated from before it |
| Record.LastWordsAreTheLastTrys | cmd/loc/presence.go:911-929 | for any bell run behind any earlier bells' lines, the word and reason the row prints are the last try's own: a give-up never costs it the reason |
| Transcript.Join | cmd/loc/transcript.go:264-288 | the maps and slices built are the join: messages in order of their first lines, all of each message's lines in log order, the seats' own lines apart |
| Transcript.JoinOne | cmd/loc/transcript.go:264-288 | one more line keeps the join of all lines so far |
| Transcript.EachLineInOneMessage | cmd/loc/transcript.go:264-288 | every event with a uid is in exactly one message, in log order, and in no seat's list |
| Transcript.LastSeatEvent | cmd/loc/transcript.go:374-417 | the least later deletion by stamp and sequence, or else the greatest later bell event, or else none |
| Transcript.OutcomeOf | cmd/loc/transcript.go:290-327 | a message's last line decides its fate, and a message last sent is decided by its seat's events |
| Transcript.FateOfSent | cmd/loc/transcript.go:374-417 | over the lines themselves, a message last sent is lost if and only if its recipient's queue was deleted after it, and pends on a bell if and only if it is not lost and its recipient's bell was tried after it; no other seat's events matter |
| Transcript.FateOfOther | cmd/loc/transcript.go:290-327 | any other last line is the fate itself |
| Transcript.DecidesExactly | cmd/loc/transcript.go:374-417 | the event that decides is the first such deletion by stamp and then position, else the last such bell event, against every other event of the seat |
| Transcript.SeatEventsAreTheRecipients | cmd/loc/transcript.go:374-417 | of the lines the writers write, a deletion or a try attaches to a sent message if and only if its seat is the recipient and it is later |
| Transcript.ClaimedMembers | cmd/loc/transcript.go:297-327 | an event is claimed if and only if some fate was read from it |
| Transcript.Outcomes | cmd/loc/transcript.go:290-327 | every message has its fate, and the claimed events are exactly those a fate was read from |
| Transcript.LostIsForEver | cmd/loc/transcript.go:374-417 | once lost, no seat events appended at any stamps make a message pending again |
| Transcript.MessageStays | cmd/loc/transcript.go:264-288 | lines of other uids leave a message as it is |
| Findings.Find | internal/presence/findings.go:97-132 | the two maps and four slices give the four groups, each sorted by endpoint, in repair order |
| Findings.NeverReadableIsDead | internal/presence/liveness.go:59-74 | a process with no readable start is dead whatever runs, and any other is alive exactly while it runs |
| Findings.FindingsExact | internal/presence/findings.go:73-132 | each disagreement between distinct rows, queues and processes is listed once, nothing else is, and no dead row is also a missing queue |
| Findings.RepairsComeInOrder | internal/presence/findings.go:73-132 | dead rows come before every other kind, missing queues before unreadable rows, and each kind by name |
| Findings.BeforeIsLexical | internal/presence/findings.go:124-132 | the order is that of the first differing character, a shorter name before its extensions |
| Findings.NeverDeadAndMissing | internal/presence/findings.go:97-132 | one row is never both dead and live without its queue |
| Seat.ReportFinds | cmd/loc/presence.go:401-472 | over any listing of ledger and store the findings are those of the records themselves |
| Seat.BeatKeepsRows | cmd/loc/presence.go:401-472 | a beat drops exactly the rows of dead processes and changes no other |
| Seat.BeatKeepsPidFiles | cmd/loc/presence.go:401-472 | and exactly their pid files |
| Seat.BeatMakesQueues | cmd/loc/presence.go:401-472 | and adds exactly the empty queues live rows lacked |
| Seat.BeatConverges | cmd/loc/presence.go:401-472 | with processes unchanged a second beat changes nothing, and what it still finds is only a queue with no row or an unreadable row |
| Seat.BeatsConverge | cmd/loc/presence.go:401-472 | so any number of beats comes to one |
| Seat.BeatsKeepQueues | cmd/loc/presence.go:401-472 | no number of beats takes a queue or a message |
| Seat.SubscribeGap | cmd/loc/presence.go:215-237 | any number of beats in a subscribe's gap leave row and queue, a kept queue is adopted with its mail, and one abandoned there is made whole by the next beat |
| Seat.UnsubscribeGap | cmd/loc/presence.go:310-352 | any number of beats in an unsubscribe's gap leave neither row nor queue; one abandoned there keeps queue and mail through every beat until a later subscribe adopts both |
| House.House.ListAll | internal/presence/ledger.go:145-184 | every file of the ledger is listed once, as a row or as unreadable, each list sorted |
| House.House.Look | cmd/loc/presence.go:401-430 | the findings of this moment are exact against ledger, queues and processes |
| House.House.Sweep | cmd/loc/presence.go:401-472 | acting on each finding in turn comes to the one beat, and the count returned is the number of repairs reported |
| House.House.SeatLines | cmd/loc/presence.go:781-852 | one line for every seat of the ledger, in order, saying exactly what the next beat would do about it and the bell streak that stands for it, and every queue with no row, once and in order |
| House.StatusIsADryRun | cmd/loc/presence.go:781-852 | the changes of a beat are as many as the repairs the status report before it promised |
| House.SecondBeatChangesNothing | cmd/loc/presence.go:401-472 | the beat after a beat reports 0 changes |
| House.House.Subscribe | cmd/loc/presence.go:153-237 | refused with the incumbent while any row stands, else the row first and the queue second, with beats in the gap and the medium out of reach among the outcomes |
| House.House.Unsubscribe | cmd/loc/presence.go:282-352 | the four refusals and no-ops leave everything; else the row goes, beats may land, the queue goes, and one line says why |
| House.House.Send | cmd/loc/main.go:282-397 | mail is accepted if and only if the sender is known, the body fits, and the target is an endpoint with a queue and a ledger entry that takes it; without either no queue changes; every send leaves one line, sent only for mail that is in the queue, failed without the body and with the first reason |
| SeatServer.Server.DisplaceOrRefuse | internal/mcpserve/serve.go:412-467 | refuses an unreadable row, and a row whose process is alive and is not this server's own runtime, and no other; otherwise removes the row only |
| SeatServer.Server.Register | internal/mcpserve/serve.go:341-376 | what is remembered as own is the row the verb wrote, and only when the verb finished; the kept queue is adopted |
| SeatServer.TenuresDiffer | internal/mcpserve/serve.go:255-272 | two registrations are one tenure exactly when process, start and stamp all agree |
| SeatServer.Server.ClaimPidFile | internal/mcpserve/serve.go:577-584 | the pid file names this process and no other seat's file moves |
| SeatServer.Server.ReleasePidFile | internal/presence/serverpid.go:54-73 | the file goes if and only if it still names this process |
| SeatServer.Server.Depart | internal/mcpserve/serve.go:513-596 | with its row replaced, removed or unreadable a departing server changes no row, no queue and no record; with its own row it runs the forced unsubscribe; its own pid file never stays, and one naming a successor at the same seat always does |
| SeatRuns.MailIsConserved | cmd/loc/presence.go:215-352 | over every run of sends, reads, subscribes, unsubscribes, beats, servers, crashes and deaths each accepted letter is in its queue, or was acknowledged, or was in a queue an unsubscribe deleted |
| SeatRuns.OnlyTwoStepsTakeMail | cmd/loc/presence.go:282-352 | of all steps only an acknowledged read and the delete of an unsubscribe shorten a queue |
| SeatRuns.SeatStepsKeepMail | cmd/loc/presence.go:401-472 | a subscribe adopts a kept queue unchanged, and a beat, a displacement and a registration leave every mailbox equal |
| SeatRuns.NothingAcceptedWithoutARow | cmd/loc/main.go:312-346 | after a reap or any loss of the row nothing is accepted until a row is written again |
| SeatRuns.DestroyedMailIsOlderIff | cmd/loc/presence.go:300-334 | for every unsubscribe that goes ahead, of a row or of a kept queue with none, the mail read or destroyed by its end is exactly the mail accepted before its first write if and only if no send in the gap found both a row and a queue |
| SeatRuns.UntakenGapDestroysOnlyOlder | cmd/loc/presence.go:310-334 | a gap in which nobody takes the seat is such a gap |
| SeatRuns.AGapCanCostANewSeatItsMail | cmd/loc/presence.go:320-334 | with a row written in the gap it is not so, from any state in a gap |
| SeatRuns.AtMostOneHolder | internal/mcpserve/serve.go:255-272 | in every run at most one server's remembered tenure matches the row that stands |
| SeatRuns.DepartingStrangerIsHarmless | internal/mcpserve/serve.go:513-553 | in every run, once a server's row was removed, damaged or replaced by any step, then however long the run goes on and whoever takes the seat, that server's departure changes no row, no queue and no mail and starts no unsubscribe |
| SeatRuns.RunKeepsStranger | internal/mcpserve/serve.go:255-272 | a server whose remembered row does not stand never becomes the holder again by any step but its own, since every new row carries a stamp no server remembers |
| SeatRuns.RowLost | internal/mcpserve/serve.go:255-272 | whatever step takes or damages a holder's row leaves it such a server |
| SeatRuns.LiveRowStands | internal/mcpserve/serve.go:412-467 | over any run a live process's row stands until its death, a forced unsubscribe, a later server of the same runtime, its own server's departure, or damage to the file |
| VerbRuns.SubscribeIsARun | cmd/loc/presence.go:215-237 | what the subscribe verb leaves, finished or with the medium lost in its gap, is what the run of its two writes and the beats between them leaves |
| VerbRuns.UnsubscribeIsARun | cmd/loc/presence.go:310-352 | the same of every unsubscribe that goes ahead, the destroyed mail being the mailbox before it |
| VerbRuns.DepartIsARun | internal/mcpserve/serve.go:513-553 | the same of a departure over the server's own row |
| VerbRuns.RegisterIsARun | internal/mcpserve/serve.go:341-376 | the same of a finished registration over a clear seat, with beats before its row and behind it |
| VerbRuns.SendIsAStep | cmd/loc/main.go:282-397 | the verb's own acceptance and queues are those of the send of the runs, so what is proved of every run is of the verb |
| VerbRuns.SubscribeRuns | cmd/loc/presence.go:153-237 | the verb itself, where not refused and not cut off, leaves the house where its run does |
| VerbRuns.UnsubscribeRuns | cmd/loc/presence.go:282-352 | the same of the unsubscribe verb |
| Reading.Provider.Deliver | internal/provider/nats/read.go:200-206 | the broker's next message not in flight is the next of the queue never delivered before |
| Reading.Provider.FetchOne | internal/provider/nats/read.go:193-273 | a fetch hands over the next message, and lists it as outstanding, exactly when one is left and it is neither refused, late nor lost; a miss may strand one but lists nothing |
| Reading.Provider.Taken | internal/provider/nats/read.go:88-95 | exactly the taken message leaves the outstanding list |
| Reading.Provider.Ack | internal/provider/nats/read.go:72-78 | a successful ack deletes that message and no other; a failed one leaves it outstanding whether or not the broker deleted it |
| Reading.Provider.ReturnUnacked | internal/provider/nats/read.go:106-117 | close gives back everything outstanding and nothing else |
| Reading.ShowThenAck | cmd/loc/read.go:378-400 | the signal is heeded above the write and the write above the ack: each stops the turn exactly when it befalls, and a message neither shown nor acked is whole in the store |
| Reading.Drain | cmd/loc/read.go:356-409 | for any write errors, ack errors, fetch errors and signals, what is shown is a prefix of the queue, what is taken all of it or all but the last, the read lines exactly the taken envelopes in order; every turn before the last went well, and the ending is what befell the last: done only behind a fetch that was made and came back dry |
| Reading.ReadQueue | cmd/loc/read.go:234-315 | after the close every message is still in the store or was shown whole first, no taken message is left, at most one is in flight and none that was shown; a read nothing goes wrong in shows and takes the whole queue in order and leaves the store empty |
| Reading.Peek | cmd/loc/read.go:276-286 | a peek takes nothing from the store and gives back what it showed: the first message, exactly when one arrived, no signal was up and both writes before it succeeded |
| Reading.ReadMany | cmd/loc/read.go:234-315 | read after read, with new mail in between and failures anywhere, each message that arrived is still in the store or was shown, and each is recorded as read at most once; and a last read nothing goes wrong in leaves nothing waiting |
| Reading.LossIsSafe | internal/provider/nats/read.go:97-117 | every ending a drain can leave is safe once the provider has closed |
| Handed.RenderEnvelope | internal/loc/render.go:87-117 | the piecewise writes are the header, one marked line for each line of the body, and a blank line |
| Handed.Render | internal/loc/render.go:34-64 | the scanner's loop shows every line that is not blank, parsed or not |
| Handed.EnvelopeIsLong | internal/loc/render.go:87-117 | an envelope has at least three newlines and one more for each of its body's, whatever its fields hold |
| Handed.BodyReadBack | internal/loc/render.go:93-113 | every body line is marked and the body is read back from the lines exactly |
| Handed.HeaderReadBack | internal/loc/render.go:87-91 | sender, recipient and stamp are read back from the first line, each in its place, and a missing one as a question mark |
| Handed.JunkIsShown | internal/loc/render.go:46-56 | an unparsable line is one line of output under its mark, with its first 120 characters, and never nothing |
| Handed.RenderedInOrder | internal/loc/render.go:34-64 | what is rendered of a payload is rendered of its lines, in order |
| Handed.NeverAHeading | internal/mcpserve/tools.go:143-185 | no rendered payload, of any sender, body or unparsable bytes, is taken for a heading |
| Handed.QueueCount.Write | internal/mcpserve/tools.go:169-179 | a heading opens or closes the queue, any other write inside it counts one, and every byte passes through |
| Handed.HandedExactly | internal/mcpserve/tools.go:143-185 | for every sender, body, unparsable payload and ending of a read the count is the number of queue messages shown if the reader's name is one line, and 0 otherwise |
| Handed.HandedIsShownIff | internal/mcpserve/tools.go:112-128 | so it is right exactly when the name is one line or nothing was shown |
| Handed.ServedSeatsAreCountedRight | cmd/loc/mcp.go:286-292 | for every valid endpoint, the only names a server serves, the count is the number of queue messages shown |
| Handed.TwoLineNameUndercounts | cmd/loc/read.go:270-274 | one input on which it is wrong |
| Handed.Show | cmd/loc/read.go:270-324 | the writes of a read, made one by one, leave the counter there |
| Courier.Short | internal/mcpserve/courier.go:295-302 | a reason is one line, capped, and empty only for blank text |
| Courier.ShortKeepsTheFirstLine | internal/mcpserve/courier.go:295-302 | the first line whole where it has at most a hundred characters, else a hundred of them under an ellipsis |
| Courier.Why | internal/mcpserve/courier.go:229-247 | a result has no reason against it if and only if it is a send |
| Courier.WhyIsTheReplysOwn | internal/mcpserve/courier.go:229-247 | a failed send's reason is the reply's own first line, or that none was given |
| Courier.Note | internal/mcpserve/courier.go:104-122 | one more block keeps the maps equal to what the blocks so far say: the last addressee of each id, the last result recorded after its call, the listings |
| Courier.Collect | internal/mcpserve/courier.go:86-124 | the maps hold what the whole stream says, and whether its last result event was clean |
| Courier.FinishedIsTheLast | internal/mcpserve/courier.go:103-106 | a stream has finished exactly when its last result event is not an error |
| Courier.RangIsProof | internal/mcpserve/courier.go:85-175 | an id is judged rung if and only if its last call, its last result after a call and not diverted to a listing, a success, and a passing addressee all stand in the stream by position |
| Courier.AnswerByPosition | internal/mcpserve/courier.go:109-121 | the recorded result is the last one that follows a call under its id with no listing asked for under it |
| Courier.ListingsByPosition | internal/mcpserve/courier.go:109-116 | a text counts as a listing if and only if it is the result of a listing asked for before it |
| Courier.JudgedByPosition | internal/mcpserve/courier.go:137-163 | by the last send and last result of an id: rang on a success to the right session, undelivered with its reason on a failure to it, astray with the delivery told otherwise |
| Courier.UnansweredByPosition | internal/mcpserve/courier.go:137-142 | an id goes unjudged if and only if it has no send or no result that counts |
| Courier.OrderInOrder | internal/mcpserve/courier.go:109-113 | the sends are judged in the order called |
| Courier.StraysInOrder | internal/mcpserve/courier.go:144-156 | the strays are told in the order judged |
| Courier.StrayOfOne | internal/mcpserve/courier.go:144-156 | one for each send that went astray, with its session, whether it was delivered and why not |
| Courier.WrongReasonNamesBoth | internal/mcpserve/courier.go:207-213 | the reason names the session woken and the address meant |
| Courier.Outcome | internal/mcpserve/courier.go:85-175 | the reason is empty if and only if the stream holds such a proof; otherwise it names the last wrong session woken, else the last failed send's own reason, else that nothing was proved; strays are the answered sends to others, in order, and only beside a ring |
| Addressee.FindOnPane | internal/mcpserve/courier.go:272-292 | the search finds a listing line that carries the pane whole and shows the session by name, name and id, or id |
| Addressee.NamedSessionPasses | internal/mcpserve/courier.go:188-205 | a session's name, alone or with its id, passes for that name |
| Addressee.OnlyTheNamedSessionPasses | internal/mcpserve/courier.go:188-205 | nothing else passes for an address that is neither a pane nor a target |
| Addressee.TargetForms | internal/mcpserve/courier.go:177-186 | a session, a colon and a window, with or without an at sign, and with or without a pane, is a target |
| Addressee.ADottedNameIsAName | internal/mcpserve/courier.go:177-186 | a name with no colon, dotted or not, is none |
| Addressee.APaneNeedsItsListing | internal/mcpserve/courier.go:29-36 | a bell to a pane id is proved only by a send to a session that a listing in the stream names on a line carrying that pane |
| Addressee.AShownSessionPasses | internal/mcpserve/courier.go:272-292 | and a session so named passes |
| Addressee.NamesIff | internal/mcpserve/courier.go:285-288 | a field names a session by its name, its name and an id, or its id, and in no other way |
| Addressee.FirstFieldIs | internal/mcpserve/courier.go:285-288 | the name is what stands before the line's first dot |
| Addressee.AWholePaneIsCarried | internal/mcpserve/courier.go:275-283 | a pane standing whole in a line is carried by it |
| Addressee.ALongerPaneIsAnother | internal/mcpserve/courier.go:275-283 | a longer pane's number does not carry a shorter one |
| Addressee.ATargetProvesAnySend | internal/mcpserve/courier.go:37-41 | the known gap: at a pane target any delivered send is proof |
| Hermes.Adapter.RequestDrain | integrations/hermes/loc/adapter.py:348-355 | a bell starts a loop or marks the one under way |
| Hermes.Adapter.Bottom | integrations/hermes/loc/adapter.py:357-365 | a drain that came back starts another exactly when a bell was marked since it started |
| Hermes.NoBellIsLost | integrations/hermes/loc/adapter.py:348-365 | in every run, at rest every bell has a drain that started after it if and only if the again flag is down, and it can be up there only behind a failed drain |
| Hermes.ReturnLosesNoBell | integrations/hermes/loc/adapter.py:357-365 | a drain that comes back leaves every bell with a drain that started after it |
| Hermes.FailureLosesNoBellIff | integrations/hermes/loc/adapter.py:357-365 | a drain that fails leaves none behind if and only if the again flag was not raised under it |
| Hermes.WaitingBellIsPromised | integrations/hermes/loc/adapter.py:348-365 | at every moment a bell still waiting has a drain scheduled for it, failures apart |
| Hermes.DrainsAreFew | integrations/hermes/loc/adapter.py:348-365 | drains never overlap and, with the bells still waiting, never outnumber the bells |
| Hermes.FailureDropsABell | integrations/hermes/loc/adapter.py:357-365 | a run in which a failed drain leaves a bell unanswered |
| Hermes.SortReadOutput | integrations/hermes/loc/core.py:29-72 | what is passed on is exactly the nonblank lines that pass, in order, and every other nonblank line is declined under its own name and objection |
| Hermes.Objection | integrations/hermes/loc/core.py:47-71 | there is no objection to a line if and only if it is mail for this seat from a named other that says something |
| Hermes.NoLineIsDropped | integrations/hermes/loc/core.py:29-72 | each nonblank line is passed on or declined, never both and never neither |
| Hermes.PassedOnExactly | integrations/hermes/loc/core.py:47-71 | what is passed on is exactly the mail to this seat from a sender with a name not its own and with something in it |
| Hermes.ChosenInOrder | integrations/hermes/loc/core.py:29-72 | in the order read, on either side |
| Hermes.DeclineTells | integrations/hermes/loc/core.py:47-71 | a declined line is told with the first objection to it, under its id or its first eighty characters |
| Hermes.ClipBody | integrations/hermes/loc/core.py:81-89 | never over the limit, whole when it fits, and otherwise a prefix under a visible mark |
| Codec.NameReadsBack | internal/provider/nats/presence.go:189-205 | the object name of every valid endpoint reads back as that endpoint |
| Codec.StreamNameInjective | internal/presence/endpoint.go:60-65 | no two valid endpoints share an object name |
| Codec.NameIsRebuiltIff | internal/provider/nats/presence.go:196-205 | a name that reads as an endpoint is that endpoint's object if and only if it holds no dot |
| Codec.DottedNameCollides | internal/provider/nats/presence.go:196-205 | two names, one with a dot, that read as one endpoint |
| Codec.InstanceSplits | internal/presence/endpoint.go:50-58 | a valid endpoint is its instance, one dot and an agent |
| Codec.TwoSegmentsAreAnEndpoint | internal/presence/endpoint.go:20-40 | two segments around a dot are an endpoint |
| Codec.AnEndpointIsTwoSegments | internal/presence/endpoint.go:20-40 | and nothing else is one |
| Codec.SegmentIff | internal/presence/endpoint.go:20-32 | a segment is small letters, digits and hyphens, at least one |
| Codec.Queues | internal/provider/nats/presence.go:233-248 | the listing is sorted and holds each name that reads as an endpoint, once for each object |
| Codec.UnqualifiedQueues | internal/provider/nats/presence.go:259-278 | the listing is sorted and holds each queue object that reads as none |
| Codec.ListingsCount | internal/provider/nats/presence.go:233-278 | the two listings together are as long as the store has queue objects |
| Codec.ListingsPartition | internal/provider/nats/presence.go:250-278 | every queue object is accounted for by one listing and not by both, and no other object is in either |
| ConfigFile.Get | internal/config/config.go:38-57 | the loop's value is that of the last matching line, or the caller's default where it is empty, absent or there is no file |
| ConfigFile.WriteDefault | internal/config/keys.go:166-185 | an existing file is left as it is; otherwise the file holds the printed table |
| ConfigFile.CommentsStandAbove | internal/config/keys.go:166-185 | each entry's comment stands on a line of its own right above its assignment |
| ConfigFile.LoudLine | internal/config/config.go:60-70 | a printed line matches a key if and only if it is that key's, prefixes included |
| ConfigFile.AnyPaddingMatches | internal/config/config.go:27-36 | padding of any width, none included, in front and around the equals sign leaves the assignment and its value as they are |
| ConfigFile.OnlyAssignmentsMatch | internal/config/config.go:60-70 | and whatever matches is padding, the key, padding, an equals sign, padding and the value |
| ConfigFile.OtherLinesAreSilent | internal/config/config.go:45-53 | a line that does not assign the key leaves its value |
| ConfigFile.DefaultsReadBack | internal/config/keys.go:166-185 | for any table of distinct well-formed keys each reads back its own default if and only if the format can carry it: empty, or no leading padding and no trailing carriage return |
| ConfigFile.OtherKeysAbsent | internal/config/config.go:38-70 | a key the table does not hold is absent from what it prints, whatever the comments say |
| ConfigFile.LastLineWins | internal/config/config.go:38-57 | a hand-edited line after the others overrides them |
| ConfigFile.Default | internal/config/keys.go:60-67 | the search finds the one entry of that name, or nothing |

## Left out

- The NATS client and server, dialing, timeouts, `Watch`, `Emit` and the monitor: the medium is a map from endpoint to a sequence of mail, and a call that cannot reach it is a parameter.
- The notifiers: tmux, herdr, HTTP and `claude` calls. To the bell a ring is answered took, busy, held or broke.
- The courier's and the bell's wording of who rang (`bellFrom`, `courierName`, the name-shape checks), `words()` and the status text.
- Addressee.FindOnPane: the patterns of the address forms are written out as predicates on characters; blanks trimmed are those of Latin text.
- The object `Bell` groups the source's flat fields into one record each for window, streak and breaker; no callback of it is interleaved inside itself.
- The topic plane of a read, `presentJSON`, and the topics' own cursor: they run the same loop over a store that keeps its messages.
- Reading.ReadQueue: one read from a provider with nothing in flight; a message stranded by an earlier, killed process comes back after the broker's own wait, which is not part of this model; `Reading.ReadMany` takes it as having come back.
- House.House.Send: the listener file of a medium without presence, and the two faults of a broken build or disk, are not modelled.
- ConfigFile.WriteDefault: the file's first line is any comment, and Handed.Show's peek trailer any one line behind its prefix, so the exact words of the two are not fixed.
- `puller` and the cursor's configuration: a queue with no cursor, and one the medium refuses, are the dry and the denied fetch.
- The transcript's filters and layout (`keepMessage`, `onDay`, `writeBlock`, `jsonLine`), and the parsing and the day files of the record.
- Interleaving inside a sweep, inside a departure, and between concurrent `fire` and `again`: the code holds no lock across them, and the runs are of the steps named under Assumptions.
- `unsubscribe` asks the medium whether the queue exists before its first write; only a failure at the delete is modelled, as one at the question changes nothing.
- Daemon and process plumbing, MCP transport, file modes, atomic renames, uuid generation and JSON encoding. Liveness is a set of (pid, start) pairs.
- The one-megabyte and four-megabyte limits of the two line scanners, beyond which the config reader stops early and a read fails.
- The inbox log, handlers and cancellation of the Hermes adapter; a drain is one step that returns or fails.
- The registry, `Derive`, usage errors, flag parsing and the mentions pattern: easy or presentational.
