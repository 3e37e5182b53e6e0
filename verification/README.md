# A model of chaski's durable cursors, volatile state and at-least-once delivery

chaski keeps three kinds of state consistent: cursors a node stores for it,
durable tables of its own (checkpoints, backfill jobs, a command ledger, a
sample journal, a buffer of points), and whatever a process holds in memory
until it crashes. This project models the code that does so, step by step, and
proves what every run keeps while handlers fail, acknowledgements and replies
are lost, writes are refused and processes die.

A node's stream is given as the log of everything it will ever hold
(`NodeStream.dfy`). What the node answers to a read is a parameter that has to
be a page of that log, and so are handler outcomes, replies, clocks and crash
points, so a statement about a method is one about every run. Objects whose
methods update fields are classes, loops are loops, and each is proved against
functions over plain values, whose own properties are lemmas.

| file | what it models |
|---|---|
| `Options.dfy` | optional values, minimum and maximum |
| `NodeStream.dfy` | a node's log, pages, gaps, and what a page allows to acknowledge |
| `CallLog.dfy` | the handler calls of a stream, and a producer's state as the fold of those it accepted |
| `PageCheckpoints.dfy` | producers within an ingest page: rewind and replay, checkpoints, redelivery, crashes |
| `ReadAhead.dfy` | the ingest loop: read-ahead, collapsing acknowledgements, restarts, rebind |
| `CursorDrain.dfy` | a cursor drained to a captured head through a handler |
| `StreamHints.dfy` | stream-change hints, the doorbell, the consumer that sleeps on it |
| `CommandLedger.dfy` | what one delivery of a command does, durable step by step |
| `OperationKeys.dfy` | runs of deliveries, and the key space that correlation ids and operations share |
| `CommandExecutor.dfy` | the executor of one delivery, cut short by a crash anywhere |
| `CommandDrain.dfy` | the drain of the commands stream, with the scan ahead for answers |
| `LastWrites.dfy`, `RetainedView.dfy` | a retained view: a snapshot read at no one point, caught up, published whole |
| `Topics.dfy`, `ViewScope.dfy` | the paths a view reads and the MQTT topic filters it asks for |
| `Windows.dfy` | the instants, the merged events and the batched ticks of backfill windows |
| `HoldLive.dfy` | a backfill that holds live dispatch, interleaved with live ingest |
| `JobCheckpoints.dfy` | a backfill that carries a checkpointed producer's state |
| `Journal.dfy` | a connector's durable journal of samples |
| `BufferReads.dfy` | the buffer's chunked trim, and reads that go on into a historian |
| `SourceClock.dfy` | the rolling estimate of a source's clock |

## Where the code and its promise differ

The model does what the code does. Where that is less than its documentation
says, a member holds a concrete input that shows it and another one states
exactly when the promise is kept.

* An operation's ledger key is scoped to its sender, but correlation ids share
  the key space. A command whose correlation id is the key of another sender's
  operation has that operation answered 409 without a run
  (`OperationKeys.BlocksTheOperation`), or is itself answered with the
  operation's outcome (`OperationKeys.ShownToAnother`); one whose correlation id
  is its own operation's key loses the outcome
  (`CommandLedger.CollisionPossible`, `CommandLedger.CollisionRefusesTheRepeat`).
  Over every run a key is its operation's alone exactly when no command used it
  as its correlation id (`OperationKeys.OwnKeyExactly`,
  `OperationKeys.FirstTimeRunsExactly`).
* A handler that is cancelled while a rewind runs it again leaves its producer
  as it is, and the page saves that: a record may be counted without its offset
  (`PageCheckpoints.CancelledReplay`). A page does so exactly when, in the state
  it comes in, the first of its calls that ends it fails, the rewind is
  cancelled in a replayed call and leaves another state than that call found,
  no write of the page is refused and the producer can be saved
  (`PageCheckpoints.Lane.Page`); everything stays durable exactly while none
  does (`PageCheckpoints.Lane.Run`).
* A page is to be acknowledged only once its writes were confirmed. When waiting
  for that is cancelled the page saves its producers all the same, and is skipped
  and acknowledged when it comes again (`PageCheckpoints.CancelledConfirmation`).
  A call the cursor passes was saved by such a page, or else by one whose writes
  were confirmed (`PageCheckpoints.Lane.PassedIsCounted`).
* `wait_caught_up` returning true does not make the next snapshot cover the
  heads when the last drain ended midway (`RetainedView.CaughtUpIsNotEnough`).
  For each topic it does exactly when nothing written to it by the head changes
  what is shown from there on, which is so when the published pair was swapped
  in at the head or later (`RetainedView.View.ReadsCoverExactly`).
* A point of a held backfill is handled exactly once exactly when what is
  delivered again after the hand-over is what had arrived behind the points
  already read (`HoldLive.Job.ExactlyOnce`). A page processed while held and not
  acknowledged before the hand-over is handled twice (`HoldLive.HandledTwice`).
  With every record once and in stream and time order, one is never handled that
  comes where the clock of an empty buffer had let the windows go
  (`HoldLive.NeverHandled`), and only such a one (`HoldLive.Job.Run`).
* A window's position and state are two statements on a connection other
  writers commit on, and the commit also happens when the second one raises. A
  commit in between, or a first window whose save raises and that is retried in
  the same process, has the window run again on the state it led to
  (`JobCheckpoints.CommitSplit`, `JobCheckpoints.FirstCommitFails`); a run's job
  goes on from the fold at its position exactly when no window of its script
  does so where it comes (`JobCheckpoints.HeldJob.Run`).
* A sample is retired from the journal without a durable offset exactly when it
  is answered without an error and with a null offset
  (`Journal.RetiredBlindRun`, `Journal.BlindExactly`), which the rule for
  refusals calls no verdict.
* A trim's statements name no order. Between two of them a range read from the
  earliest row that is left is whole exactly when the rows that went are the
  oldest (`BufferReads.ReadsWhileTrimmedExactly`); some choice of rows leaves a
  hole behind some statements exactly when these do not delete all there is
  (`BufferReads.HolePossibleExactly`, `BufferReads.HoleAfterExactly`). A request
  that reads a signal's earliest row before such a statement and its points
  behind it is answered whole exactly when no row of the range went
  (`BufferReads.Reader.FetchMany`).

## Model

| member | source | states |
|---|---|---|
| `NodeStream.SelectExactly` | src/chaski/door.py:85-100 | a page's filter keeps exactly the records of the scanned range that match, in strictly increasing offset order |
| `NodeStream.AckCovers` | src/chaski/door.py:101-116 | acknowledging a page passes no matching record that the page does not hold, moves on whenever the page did, and there is nothing to acknowledge only for an empty page that did not move |
| `NodeStream.SelectBefore` | src/chaski/door.py:607-651 | the records of a page before one of them are all the matching records before it |
| `CallLog.DispatchedInOrder` | src/chaski/dataops/ingest.py:297-347 | the calls of a page come in stream order, then in dispatch order, none twice |
| `CallLog.World.ReplayReaches` | src/chaski/dataops/base.py:517-530 | running a producer's accepted calls again from an earlier memory leads to the memory it had: what a rewind relies on |
| `CallLog.World.TornExactly` | src/chaski/dataops/base.py:517-530 | a state with the handled offsets of a fold is a fold exactly when it is that fold's state: what a cancelled replay leaves is recoverable only when it left what it found |
| `CallLog.World.AtIsFold` | src/chaski/dataops/base.py:434-451 | a producer's memory is the fold of its accepted calls |
| `CallLog.World.AcceptedExactly` | src/chaski/dataops/base.py:434-451 | those are all of its calls that were not rejected, nothing else, none twice, in stream order |
| `CallLog.World.SeenExactly` | src/chaski/dataops/base.py:477-482 | the handled offsets tell exactly which accepted calls a memory already holds, so a redelivered one is skipped if and only if it is in the fold |
| `PageCheckpoints.Lane.Rewind` | src/chaski/dataops/base.py:517-530 | a failed call leaves the producer exactly where its earlier calls of the page had brought it, whatever state the handler left; when a replayed call fails it is at the page's start, and when one is cancelled it is as that left it, with the offsets of the calls before it |
| `PageCheckpoints.Lane.ToStart` | src/chaski/dataops/base.py:532-537 | the producer is back at the page's start, with nothing to replay |
| `PageCheckpoints.OutcomeExactly` | src/chaski/dataops/ingest.py:486-506 | what becomes of a call, by what its handler does: skipped exactly when it was seen, passed over as rejected exactly when its rejection, and every replay of the rewind, came through and the rejection was recorded, failed at its own record or at the page's first one otherwise |
| `PageCheckpoints.UnrecordedHolds` | src/chaski/dataops/ingest.py:486-506 | an unseen record whose handler rejects it and whose rejection is not recorded stops the page, or has it resume at that record or before it |
| `PageCheckpoints.Lane.Handle` | src/chaski/dataops/base.py:477-500 | a seen record is skipped, an accepted one advances the fold by exactly its call, a rejected one leaves the producer as it was, a failed one puts it back and a cancelled one puts it at the page's start; a producer is left torn exactly when the call fails and the rewind that follows is cancelled |
| `PageCheckpoints.Lane.Dispatch` | src/chaski/dataops/ingest.py:297-347 | a page's calls run in order up to the first that ends it and no further: which one that is, what becomes of it and whose memory a cancelled replay tears are those the page's calls and the producers' state before it amount to; no checkpoint and no producer without a call among them is touched, and all but that of the call that ended it hold every call before it |
| `PageCheckpoints.Lane.Abandon` | src/chaski/dataops/base.py:539-549 | an unconfirmed write puts every producer of the page back to its start and saves none |
| `PageCheckpoints.Lane.Finish` | src/chaski/dataops/base.py:551-567 | each producer is saved or put back, and the earliest first record of one that could not be saved is where the page resumes |
| `PageCheckpoints.Lane.Page` | src/chaski/dataops/ingest.py:275-347 | a whole page: everything is durable afterwards exactly unless, in the state before it, its calls tear a memory (a cancelled replay leaves another state than it found), no write of it is refused and that producer can be saved; then exactly what the cancelled replay left is saved. Without a call that ends it each checkpoint holds what the page's calls make of its producer, one that cannot be saved and all of a page whose write is refused are as before, and with every write confirmed and every producer saved the page resumes where the call that ended it says |
| `PageCheckpoints.Lane.PageCutShort` | src/chaski/dataops/ingest.py:287-295 | a crash among a page's calls leaves exactly the committed checkpoints |
| `PageCheckpoints.Lane.PageCutAtEnd` | src/chaski/dataops/base.py:551-567 | a crash while a page saves, when another writer has committed the checkpoints of some producers: they are as the page leaves them, the others as before, and everything is durable exactly unless one of them is a torn memory |
| `PageCheckpoints.Lane.Take` | src/chaski/dataops/base.py:434-567 | one event of a run keeps everything durable exactly unless it is a page that, in the state it comes in, tears a memory and saves it; otherwise it does what it is for where it is possible: a page settles what it reached, an acknowledgement moves the cursor there, a crash leaves what was committed |
| `PageCheckpoints.Lane.Run` | src/chaski/dataops/base.py:434-567 | over every run of pages, failures, rejections, cancellations, unsaved checkpoints, unconfirmed writes, lost acknowledgements and crashes, up to the first page that tears a memory in the state it comes in, and saves it: memory and checkpoint of each producer are the fold of its accepted calls and hold every record at or below the cursor exactly when there is no such page, and there is none where no replay is cancelled; every accepted call the cursor passed was saved either by a page whose writes, if any, were confirmed or by one whose confirmation was cancelled, and by none of the latter in a run without such a page; every rejected one had its rejection recorded by a call of the run, or before it; the lane's stands are returned, each led to by its event |
| `PageCheckpoints.CancelledReplay` | src/chaski/dataops/base.py:486-500 | a page in which a handler is cancelled when it runs again saves a state that is no fold: it counted a record whose offset it does not hold |
| `PageCheckpoints.Lane.PassedIsCounted` | src/chaski/dataops/ingest.py:297-347 | each accepted call the cursor passed is in a checkpoint that was saved by a page whose writes, if any, were confirmed, or else by one whose confirmation was cancelled |
| `PageCheckpoints.Lane.PassedIsNoted` | src/chaski/service.py:1831-1848 | of every rejected call the cursor passed the rejection was recorded |
| `PageCheckpoints.CancelledConfirmation` | src/chaski/dataops/ingest.py:331-347 | a record whose write was never confirmed is skipped when it is delivered again and acknowledged: waiting for its confirmation was cancelled, and its producer saved all the same |
| `PageCheckpoints.Lane.ValidIsDurable` | src/chaski/dataops/base.py:551-567 | every record at or below the acknowledged cursor is already in the saved checkpoint |
| `PageCheckpoints.ReachedCommits` | src/chaski/dataops/ingest.py:297-347 | up to where a page may be acknowledged every producer's calls are in its saved state |
| `ReadAhead.Ingest.BeginStep` | src/chaski/dataops/ingest.py:351-385 | after a refused acknowledgement or a rebind reading restarts at the cursor; otherwise the page read ahead is taken |
| `ReadAhead.Ingest.PageArrives` | src/chaski/dataops/ingest.py:386-405 | a page is read ahead only behind one that moved on, from where it ended |
| `ReadAhead.Ingest.PageProcessed` | src/chaski/dataops/ingest.py:406-411 | only a page whose records were all processed is acknowledged, in the background or in turn |
| `ReadAhead.Ingest.QueueAck` | src/chaski/dataops/ingest.py:413-420 | while one acknowledgement is in flight only the newest wanted one is kept, and none while a refused one is pending |
| `ReadAhead.Ingest.AckSettles` | src/chaski/dataops/ingest.py:422-437 | a failed acknowledgement, taken by the node or not, stops all later ones until reading restarts |
| `ReadAhead.Ingest.Restarted` | src/chaski/dataops/ingest.py:439-449 | the next read starts at the acknowledged cursor |
| `ReadAhead.Ingest.HandlerFails` | src/chaski/dataops/ingest.py:513-543 | a handler failure acknowledges exactly up to before its record |
| `ReadAhead.Ingest.Rebind` | src/chaski/dataops/ingest.py:214-229 | swapping the filter keeps the cursor's position safe |
| `ReadAhead.Ingest.SafeSkipsNothing` | src/chaski/dataops/ingest.py:351-449 | no record at or below the cursor was passed unprocessed: it was read under some filter that does not match it, or its handlers ran, or the node had pruned it |
| `ReadAhead.Ingest.Run` | src/chaski/dataops/ingest.py:351-449 | in every interleaving of steps, background acknowledgements, failures, rebinds and crashes the cursor and every queued acknowledgement lie within the contiguous processed range; every step leads where it should |
| `CursorDrain.Stream.Acknowledge` | src/chaski/door.py:531-539 | an offset the cursor passed is not sent again; a lost reply may still move the node's cursor |
| `CursorDrain.Stream.Observe` | src/chaski/door.py:541-561 | a first page that starts lower takes the known position back to the node's |
| `CursorDrain.Stream.DrainPage` | src/chaski/door.py:624-651 | a page's records are handed out in order and the page is acknowledged only once all are settled; behind a failed record what came before it is |
| `CursorDrain.Stream.Drain` | src/chaski/consume.py:139-174 | the drain ends however long the log is, delivers every matching record from the cursor to the captured head in order, and never moves the cursor past a record whose handler neither returned nor had its rejection recorded; it completes, over any number of pages, where the node answers and every record is settled, fails at a record only when that is not, and then acknowledges what came before it |
| `StreamHints.Watched.Decide` | src/chaski/stream_changes.py:35-42 | a fetch is skipped exactly when a hint gives a head, came on the subscription of the last drain, and the consumer's position is at that head or past it |
| `StreamHints.Watched.Hint` | src/chaski/stream_changes.py:159-171 | a hint, which says where the stream's head was when it was sent, is recorded under its subscription before its bell rings |
| `StreamHints.Watched.Capture` | src/chaski/consume.py:92-96 | the generation is captured before the hint is read |
| `StreamHints.Watched.Run` | src/chaski/consume.py:89-133 | in no interleaving is the consumer asleep on the current generation with no ring to come and the newest hint's head, or anything at all when no hint is due or on its way, unread; every step leads where it should |
| `CommandLedger.KeysApart` | src/chaski/executor.py:591-597 | no two senders and no two operations of one sender share an operation key |
| `CommandLedger.PlanAllowed` | src/chaski/executor.py:485-587 | every effect of a delivery comes only when what it relies on is recorded: keys started before a run, an answer recorded before it is published |
| `CommandLedger.DeliveryKeepsGood` | src/chaski/executor.py:525-587 | a delivery cut short after any number of its durable steps keeps: one run per correlation id, one run per operation, and every published answer is the ledger's |
| `OperationKeys.RecordedStaysInRuns` | src/chaski/executor.py:118-139 | over every run, what is recorded under a key at any step stands at every later one: an answer always, an operation's outcome when no command used its key as its correlation id |
| `OperationKeys.OwnKeyExactly` | src/chaski/executor.py:525-597 | over every run of deliveries cut short anywhere an operation's key holds only a start or an outcome of the operation and is never published, exactly when no command used it as its correlation id |
| `OperationKeys.FirstTimeRunsExactly` | src/chaski/executor.py:546-571 | an operation that comes for the first time, valid and in time, is run exactly unless a command used its key as its correlation id |
| `OperationKeys.RepeatAnsweredInRuns` | src/chaski/executor.py:617-642 | anywhere later in such a run a repeat is not run and is answered with the recorded outcome, or 409 when it asks for something else |
| `OperationKeys.RunKeepsGood` | src/chaski/executor.py:525-587 | over every run of deliveries cut short anywhere: one run per correlation id, one per operation, and every published answer is the ledger's |
| `OperationKeys.BlocksTheOperation` | src/chaski/executor.py:525-597 | a command whose correlation id is another sender's operation key has that operation, sent for the first time, answered 409 and not run |
| `OperationKeys.ShownToAnother` | src/chaski/executor.py:525-543 | whatever stands under a key is published as the answer of a command that has it as its correlation id, whoever sends it |
| `CommandLedger.RunsExactly` | src/chaski/executor.py:546-571 | a delivery runs the handler exactly when nothing is known of the command or its operation, it is valid and not expired; once, after starting every key |
| `CommandLedger.InvalidAnswered` | src/chaski/executor.py:553-587 | an unknown command whose envelope is invalid is not run; what the envelope says stands under its id and is all that is sent |
| `CommandLedger.ExpiredAnswered` | src/chaski/executor.py:558-587 | an unknown command that has expired, or whose link is down until it has, is not run and has 498, with its reason, under its id and in all that is sent |
| `CommandLedger.KnownAnswered` | src/chaski/executor.py:530-544 | a command the ledger knows is not run: what it holds is sent and stands, and one that was started and never answered is recorded and answered as 504 |
| `CommandLedger.RunAnswered` | src/chaski/executor.py:563-587 | a command that runs does so once, and its handler's verdict is recorded and all that is sent |
| `CommandLedger.NothingDone` | src/chaski/executor.py:527-561 | a command answered already, or met while the service stops, leaves everything as it was |
| `CommandLedger.RepeatAnswered` | src/chaski/executor.py:617-642 | a repeat whose digest matches is answered with exactly the recorded outcome, any other with 409; neither runs and the record stands |
| `CommandLedger.LostAnswered` | src/chaski/executor.py:617-633 | a repeat of an operation that never finished is answered as unknown, and that is recorded |
| `CommandLedger.OutcomeRecordedExactly` | src/chaski/executor.py:558-587 | after an execution the operation's outcome is recorded exactly unless the correlation id is the operation's own key |
| `CommandLedger.RecordedTwiceExactly` | src/chaski/executor.py:558-587 | no key is recorded twice by a delivery exactly unless the command collides with its own operation |
| `CommandLedger.CollisionRefusesTheRepeat` | src/chaski/executor.py:634-641 | after such a collision a repeat that asks for the same is answered 409 |
| `CommandLedger.CollisionPossible` | src/chaski/executor.py:591-597 | a sender can choose such a correlation id |
| `CommandExecutor.RemembersRecent` | src/chaski/executor.py:451-455 | while no more ids come up than the memory holds, none of those remembered since is forgotten, whatever is remembered from before |
| `CommandExecutor.Executor.PublishAnswer` | src/chaski/executor.py:670-704 | an answer is sent until it is confirmed, and remembered only then |
| `CommandExecutor.Executor.Execute` | src/chaski/executor.py:563-571 | starting, running and recording leave a prefix of the plan done at any crash |
| `CommandExecutor.Executor.Handle` | src/chaski/executor.py:485-587 | what one delivery does is its plan, and a crash after any durable step leaves exactly that prefix of it done; it stops short only when the service stops or an answer is not confirmed, and is cut short only with no step left |
| `CommandDrain.Drain.NoteAnswers` | src/chaski/executor.py:441-449 | final answers of a page are remembered, progress answers are not, and none remembered since the cursor was last at the end of what was read is forgotten while the ids read since fit the memory |
| `CommandDrain.Drain.ScanAhead` | src/chaski/executor.py:466-481 | the scan ends behind what the log showed when it began, or at once on a node that does not read ahead, and on one that does every answer the log showed is remembered while the ids read since the cursor was last at the end of what was read fit the memory |
| `CommandDrain.Drain.HandlePage` | src/chaski/executor.py:420-429 | a full page is read past, once, before one of its unanswered commands is handled, and no other page is; so each runs only where no answer to it stands behind it in what the log showed |
| `CommandDrain.Drain.DrainTo` | src/chaski/executor.py:389-437 | a drain to a finite head ends, and when it completes every command up to it was settled; over any number of pages it does complete where the node answers without a gap, acknowledgements and answers go through and the service goes on, unless the process runs out of steps |
| `CommandDrain.Drain.PassedIsAnswered` | src/chaski/executor.py:430-437 | a command the cursor passed has its answer in the log, or the answer the ledger holds for it was published |
| `CommandDrain.Drain.Serve` | src/chaski/executor.py:328-437 | over every run of drains and crashes: at most one run per correlation id and operation, answers equal to the ledger's, the cursor behind the answers, and no run of a command that was answered in the log, wherever the ids read ahead of the cursor by then fit the memory; each drain ends as its surroundings have it |
| `LastWrites.FoldIsState` | src/chaski/retained_view.py:386-408 | topic by topic the last-write fold with tombstones is the state of the log |
| `LastWrites.Converges` | src/chaski/retained_view.py:197-215 | a topic read at a point of its own and then caught up shows exactly its state once the log was applied that far, and before a state it had there or when it was read |
| `LastWrites.StepsExpected` | src/chaski/retained_view.py:395-408 | a record not newer than what is held changes nothing; the next one leads to what is expected at it |
| `RetainedView.TracksApplied` | src/chaski/retained_view.py:386-408 | applying the next record of a stream keeps every topic of it what it has to be |
| `RetainedView.View.Bootstrap` | src/chaski/retained_view.py:197-215 | a rebuild follows every stream from the heads it read; one whose acknowledgement raises leaves the view uninitialized under its old revision |
| `RetainedView.View.ApplyRecord` | src/chaski/retained_view.py:386-408 | records out of scope or not newer are not applied, any other takes a new revision |
| `RetainedView.View.TakePage` | src/chaski/retained_view.py:365-385 | a page that starts below the applied position, or has a gap, makes the view rebuild |
| `RetainedView.View.DrainStream` | src/chaski/retained_view.py:345-426 | the drain of a stream ends, and a complete one reaches its head; it raises only where a fetch fails, an acknowledgement does, or a page neither moves on nor finds the head, and rebuilds only for a gap or a page that starts below what was applied: with neither it completes, over any number of pages |
| `RetainedView.View.Snapshot` | src/chaski/retained_view.py:331-444 | after a complete flush what is published is what the view holds, past every head that was read; where the node serves two rounds without a gap it does complete, whatever the view held before |
| `RetainedView.View.Publish` | src/chaski/retained_view.py:427-443 | the published pair is the view's revision and entries |
| `RetainedView.View.NodeRestored` | src/chaski/retained_view.py:370-385 | a node that lost acknowledged records of a stream keeps the view valid until the stream is read next |
| `RetainedView.View.ShowsState` | src/chaski/retained_view.py:345-427 | in every state each topic shows its last write up to where its stream is applied once that passes its snapshot read, and before a state it had there or at that read; without a failed acknowledgement the stream is applied to its position |
| `RetainedView.View.ShowsFold` | src/chaski/retained_view.py:345-427 | past its snapshot reads a stream's topics are exactly the plain fold of everything in scope |
| `RetainedView.View.IsFold` | src/chaski/retained_view.py:345-427 | a view of one stream then is that fold |
| `RetainedView.View.EqualRevisionsEqualEntries` | src/chaski/retained_view.py:284-306 | readers who saw the same revision saw the same entries |
| `RetainedView.View.CaughtUpReads` | src/chaski/retained_view.py:250-282 | caught up with some heads, and the last drain complete, the next read holds for every topic a state at or behind its head |
| `RetainedView.View.ReadsCoverExactly` | src/chaski/retained_view.py:250-306 | what is read next holds for a topic a state at or behind a head exactly when nothing written to it by the head changes what is shown from there on; none does when it was swapped in with the stream applied to the head |
| `RetainedView.View.Run` | src/chaski/retained_view.py:284-444 | over any life of a view, of rebuilds, drains that end early or complete, restored nodes and outages, what readers were shown only grows, those who saw one revision saw the same entries, and what is published shows for every topic a state it had where its stream was applied to when that was swapped in, or later; the view's stands are returned, each led to by its event |
| `RetainedView.CaughtUpIsNotEnough` | src/chaski/retained_view.py:409-443 | a drain that fails midway leaves a view that is caught up with a head its readers do not see |
| `Topics.SplitJoins` | src/chaski/retained_view.py:386-394 | splitting takes apart what a `/` puts together |
| `Topics.LiteralMatches` | src/chaski/retained_view.py:128-150 | literal levels of a filter match exactly themselves (section 4.7.1 of MQTT Version 5.0) |
| `ViewScope.Make` | src/chaski/retained_view.py:77-97 | a scope is refused exactly for no prefix, an unnamed or wildcard prefix, or a bad depth; each prefix is kept once, whole but for its outer slashes |
| `ViewScope.BelowIsUnder` | src/chaski/retained_view.py:113-126 | comparing path strings is comparing levels, empty levels and depth included |
| `ViewScope.Contains` | src/chaski/retained_view.py:113-126 | a path is contained exactly when it lies at or below a prefix within the depth, in whole levels |
| `ViewScope.TopicFilters` | src/chaski/retained_view.py:128-150 | none for the whole node without a depth, an error beyond the node's limit, and otherwise the filters of every contract and prefix |
| `ViewScope.FiltersOfMatch` | src/chaski/retained_view.py:138-143 | the filters of one contract and prefix match exactly that contract's topics under the prefix, parent level and depth included |
| `ViewScope.FiltersAgree` | src/chaski/retained_view.py:113-150 | for every scope, contracts and topic of one of them, the levels of the path are in scope exactly when some generated filter matches the topic |
| `ViewScope.Keeps` | src/chaski/retained_view.py:386-394 | the view's own test of a record's topic string: one of its contracts, at a path in scope; below the root it passes exactly when some filter the view asked the node for matches the topic |
| `Windows.InstantsExactly` | src/chaski/dataops/backfill.py:205-223 | the instants of a window are exactly those that fire in it, once each, in order |
| `Windows.InstantsTile` | src/chaski/dataops/backfill.py:205-223 | windows that tile a range fire every instant exactly once |
| `Windows.IntervalInstants` | src/chaski/dataops/backfill.py:209-216 | an interval fires at exactly the multiples of its length in the window |
| `Windows.CronInstants` | src/chaski/dataops/backfill.py:217-223 | a cron trigger fires at exactly its instants in the window, asked for a second early |
| `Windows.MergeAllSorts` | src/chaski/dataops/backfill.py:788-796 | merged events run in order of time, records before ticks, then declaration |
| `Windows.RecordsBeforeTicks` | src/chaski/dataops/backfill.py:788-796 | of two merged events the earlier comes first, at one instant a record before a tick, and among those what was declared first |
| `Windows.MergeAllKeeps` | src/chaski/dataops/backfill.py:788-796 | merging drops none and adds none |
| `Windows.WindowsTile` | src/chaski/dataops/backfill.py:788-796 | the merged events of a range are those of its windows, one after the other |
| `Windows.RunEvents` | src/chaski/dataops/backfill.py:815-844 | batching consecutive ticks makes every call once, in the order of the events |
| `HoldLive.Job.Deliver` | src/chaski/dataops/service.py:651-653 | a record is buffered, and handled unless live dispatch is held; one that comes in order is never behind the points read |
| `HoldLive.Job.IngestPage` | src/chaski/dataops/ingest.py:287-295 | a page's records are delivered one by one with no hand-over in between |
| `HoldLive.Job.SkipToFirst` | src/chaski/dataops/backfill.py:598-608 | skipping to the first buffered point leaves nothing out; a replay that ran no window also goes back to it |
| `HoldLive.Job.SkipToNext` | src/chaski/dataops/backfill.py:609-614 | skipping to the next buffered point leaves nothing out |
| `HoldLive.Job.Choose` | src/chaski/dataops/backfill.py:615-622 | a window is chosen exactly while the live edge is more than one away |
| `HoldLive.Job.Load` | src/chaski/dataops/backfill.py:766-787 | from its read on a window's points, and no others, are due |
| `HoldLive.Job.HandOver` | src/chaski/dataops/backfill.py:725-764 | under the page lock the rest of the buffer is handled and live dispatch released, unless the edge moved more than a window on |
| `HoldLive.ArriveHeldBalances` | src/chaski/dataops/service.py:651-653 | a held arrival becomes due once, unless it comes behind the points read |
| `HoldLive.LoadBalances` | src/chaski/dataops/backfill.py:766-787 | reading a window makes exactly its points due |
| `HoldLive.Job.ExactlyOnce` | src/chaski/dataops/backfill.py:590-637 | over every interleaving with live ingest, every point from the job's start on is handled exactly once exactly when what came again after the release is what had come too late |
| `HoldLive.Job.Take` | src/chaski/dataops/backfill.py:590-637 | each step does what it is for whenever it is possible: a page is delivered, a skip moves to a point, a window is chosen, its points are read and handled, and a hand-over of an idle, held job within a window of the edge handles the rest and releases live dispatch |
| `HoldLive.Job.Run` | src/chaski/dataops/backfill.py:590-637 | over every run in which nothing fails and records come in stream and time order, once live dispatch is released every point from the job's start on was handled exactly once, by a window, by the hand-over or live, exactly when none came where the clock of an empty buffer had let the windows go; none does when no record is older than a clock read before it; the job's stands are returned, each led to by its step, so a last step that can hand over leaves live dispatch released |
| `HoldLive.HandledTwice` | src/chaski/dataops/backfill.py:725-764 | a page that was processed while held and comes again after the hand-over is handled twice |
| `HoldLive.NeverHandled` | src/chaski/dataops/backfill.py:615-628 | one record, in order and with nothing failing, that comes after a window the clock let go over an empty buffer is never handled |
| `JobCheckpoints.WithinExactly` | src/chaski/dataops/backfill.py:766-796 | of all events in time order a window reads one stretch: every event before it is earlier than the window, every one in it lies in the window, every one behind it is at the window's end or later |
| `JobCheckpoints.FoldSteps` | src/chaski/dataops/backfill.py:797-813 | the fold is the handler called for one event after the other |
| `JobCheckpoints.WithinTiles` | src/chaski/dataops/backfill.py:766-796 | windows that tile a range read its events once each, in order |
| `JobCheckpoints.HeldJob.AtMoves` | src/chaski/dataops/backfill.py:766-813 | a window takes the fold at its start to the fold at its end |
| `JobCheckpoints.HeldJob.Step` | src/chaski/dataops/backfill.py:691-723 | a failed window restores the state it began with, a committed one leaves position and state that fit, and a job taken up after it goes on from the state at its position exactly unless its two writes were split where the window changed the state |
| `JobCheckpoints.HeldJob.Take` | src/chaski/dataops/backfill.py:590-723 | one turn of a run leaves a job to go on from the fold at its position exactly unless it is a window whose two writes are split, in the state it comes in, where it changes the job's state; otherwise the job is as a function of the state before and the turn says |
| `JobCheckpoints.HeldJob.Run` | src/chaski/dataops/backfill.py:590-723 | over every run of windows that fail, are committed or left open, writes that raise or are split, page commits and crashes: whether one of its windows breaks the job is told from the script and the state before it, the job goes on from the fold of all events up to its position exactly when none does, and it is then where the script leads; none does whose two writes are not split |
| `JobCheckpoints.HeldJob.Commit` | src/chaski/dataops/backfill.py:714-723 | what the two writes of a window's end leave visible and durable, wherever they are cut |
| `JobCheckpoints.HeldJob.Die` | src/chaski/dataops/buffer.py:284-300 | a crash leaves the committed tables, and the job goes on from the fold at its position |
| `JobCheckpoints.HeldJob.TakeUp` | src/chaski/dataops/backfill.py:553-582 | a job taken up goes on from the fold of all events up to its position |
| `JobCheckpoints.HeldJob.ValidMeans` | src/chaski/dataops/backfill.py:714-723 | the running state is the fold of all events from the job's start, and so is what a crash or a retry would start from |
| `JobCheckpoints.FirstCommitFails` | src/chaski/dataops/backfill.py:575-578 | a first window whose save raises is run again on the state it led to |
| `JobCheckpoints.CommitSplit` | src/chaski/dataops/buffer.py:284-300 | a commit between a window's two writes and a crash run the window again on its own state |
| `Journal.Connector.AppendBatch` | src/chaski/pending.py:27-34 | an acquisition cycle is accepted whole, its samples in order behind the rows that are there, exactly when it fits, or not at all, and nothing is evicted |
| `Journal.Leaves` | src/chaski/connector.py:1345-1390 | rows that are deleted leave every sample in exactly one place |
| `Journal.RetiresWholeExactly` | src/chaski/connector.py:368-387 | the answers to a page leave of the journal just what is behind the page exactly when each row is admitted, refused for a final reason, or refused without a reason while another one is admitted |
| `Journal.BlindExactly` | src/chaski/connector.py:1362-1373 | a row is retired without a durable offset exactly when it is answered without an error and with a null offset |
| `Journal.Connector.SetAside` | src/chaski/connector.py:1403-1427 | a refusal is counted under its signal, or its topic without one, and the first of a spell or of a changed reason is recorded with its reason, or else the row stays |
| `Journal.Connector.PublishPage` | src/chaski/connector.py:1355-1394 | exactly the decided rows of a page leave the journal, each as its own answer says, the rest stays in order; a lost reply changes nothing; with its records made a page is retired completely exactly when every row is done with |
| `Journal.Connector.PublishPages` | src/chaski/connector.py:1345-1401 | a batch is journaled whole or refused whole; where the node is done with every row, every page leaves and what is reported is whether samples are left |
| `Journal.Connector.Run` | src/chaski/connector.py:1345-1401 | over every run of batches, replies and crashes each sample of an accepted batch is in one row of the journal or left it: admitted and stored by the node, set aside under its own recorded refusal, or retired on a null offset, which needs such an answer; the journal never exceeds its bound; its stands are returned, each led to by its turn |
| `Journal.RetiredBlindRun` | src/chaski/connector.py:1362-1373 | an answer without an error and with a null offset retires a row of which the node stored nothing |
| `BufferReads.Buffer.TrimSignal` | src/chaski/dataops/buffer.py:388-405 | a chunked trim ends, whichever rows its statements take, and leaves exactly the newest row before the cutoff and everything behind it; it reports how many rows went, and behind each statement readers meet what so many of them may leave |
| `BufferReads.Buffer.Trim` | src/chaski/dataops/buffer.py:369-405 | every signal with a horizon is trimmed, every other keeps every point, and the number reported is what all of them lost |
| `BufferReads.TrimKeepsReads` | src/chaski/dataops/buffer.py:369-387 | a trim changes no latest value and no range at or after the cutoff, and leaves a suffix |
| `BufferReads.TrimServes` | src/chaski/dataops/buffer.py:369-387 | a trimmed buffer and a historian still serve a signal's whole series exactly when the historian reaches the row the trim kept; one that holds everything before the cutoff does |
| `BufferReads.TrimServesExactly` | src/chaski/dataops/buffer.py:369-387 | where the historian holds some of the signal's rows they still serve the whole series exactly when it holds each row the trim took |
| `BufferReads.ReadsWhileTrimmedExactly` | src/chaski/dataops/buffer.py:391-405 | what a reader sees after any statements of a trim is whole from the earliest row on exactly when the rows that went are the oldest |
| `BufferReads.StatementsCompose` | src/chaski/dataops/buffer.py:391-405 | any number of statements leave what one could that deletes as much as all of them |
| `BufferReads.HolePossibleExactly` | src/chaski/dataops/buffer.py:391-405 | a statement may leave a hole exactly when it does not delete all there is to delete |
| `BufferReads.HoleAfterExactly` | src/chaski/dataops/buffer.py:391-405 | any number of statements may have left a hole exactly when together they do not delete all there is to delete |
| `BufferReads.OldestFirstPicks` | src/chaski/dataops/buffer.py:391-405 | taking the oldest rows first is one of the choices every statement has |
| `BufferReads.ReadThrough` | src/chaski/dataops/inputs.py:93-138 | the historian's older rows and the buffer's are the whole range, once, in order |
| `BufferReads.Reader.FetchMany` | src/chaski/dataops/inputs.py:93-138 | with a historian a signal's rows are its full history in the range exactly when no row of it goes between the reads of its earliest row and of its points; without one they are the buffer's, and an error comes exactly when, not clamped, the range starts before the earliest point of a signal that has some |
| `SourceClock.SecondLargest` | src/chaski/source_clock.py:184-193 | the second largest estimate is at most a bound exactly when at most one estimate is above it |
| `SourceClock.SecondSmallest` | src/chaski/source_clock.py:184-193 | the second smallest estimate is above a bound exactly when at most one estimate is not |
| `SourceClock.Clock.BucketAt` | src/chaski/source_clock.py:137-148 | the bucket of a receive time is there: making it never expires it |
| `SourceClock.Clock.Bounded` | src/chaski/source_clock.py:137-148 | while receive times do not go back there are at most as many buckets as fit the window |
| `SourceClock.Clock.Observe` | src/chaski/source_clock.py:150-177 | a reading feeds the estimate exactly when it is stamped by a set clock, new for its topic, plausible and of a live driver; it is counted once, in the bucket of its receive time |
| `SourceClock.Clock.StatusAt` | src/chaski/source_clock.py:184-203 | the skew is given from the minimum of minutes on, is never above the true offset when at most one minute holds bad readings, and never below it when two minutes had a delay-free one; the jitter is what lies between it and the second smallest estimate |

## Left out

- HTTP, MQTT, TLS and SQLite mechanics: they are the log and cursor contract, and tables with explicit commits.
- Logging, health counters, findings' text, outage wording, telemetry and backoff times; real timeouts are nondeterministic.
- JSON, hashing and generated ids: an operation's digest is what it asks for, and a JSON string escapes its quotes and backslashes.
- The ledgers' pruning by age and the memory ledger's eviction: claims hold within retention.
- A producer that is not checkpointed: its calls repeat with the page, and no state of it is promised.
- The handler's own effects on other systems: a repeated call repeats them.
- A node that loses log records under the commands cursor: the executor keeps the offset it scanned to, which then may lie past new records.
- RetainedView.View.NodeRestored: a restored node whose cursor is at or past what a view knows as its position, and one that does not report where a page starts, are excluded: a view cannot tell a restore apart then.
- The view's grace period for stale reads, its batching of wake-ups and its background thread: only what a flush and a failure do.
- Backfill jobs with an end of their own, requests for repairs, throttling, stall reports and the choice of the next job.
- The watermark written after a hand-over, and a hand-over whose watermark raises after its commit.
- Points with one time and one signal that replace each other: a held backfill's points are told apart by offset.
- Trims and appends interleaved with a held backfill.
- The connector's polling, discovery, reconnects, heartbeat and signal writes, and samples that cannot be encoded.
- Float rounding: times are whole numbers of a small enough unit, and the next time is one more.
- PageCheckpoints.Lane.Rewind: a kept state that cannot be restored when a rewind begins, before any call runs again, is not modelled.
- PageCheckpoints.Lane.Handle: producers' turns are not modelled; a page's calls run one after the other.
- BufferReads.Buffer.Trim: asks for a chunk of at least one row; with none the loop never ends.
- CommandDrain.Drain.Serve: the promise about answers that stand in the log is for a node that reads ahead, and for runs with no more ids read ahead of the cursor than the memory holds; what a longer backlog forgets is not stated.
- HoldLive.Job.Deliver: a producer with handled offsets; one without repeats its live calls when a page is delivered again.
- HoldLive.Job.Run: states how often each point is handled; that a window's rows come in time order is part of what reading them promises, the order across windows is not stated.
- SourceClock.Clock.StatusAt: the counters are kept but their sums are not reported.
