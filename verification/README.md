# Sequence numbers in the OpenIM client engine

A model, in Dafny, of the parts of openim-sdk-core that work with sequence numbers and shared waiting state, and proofs of
what those parts are for. Each component is a class with the fields the Go code updates and methods with the same branches;
network answers, the clock, random strings and the order in which maps are walked are inputs or arbitrary choices.

| module | what it models | main results |
|---|---|---|
| `Basics`, `ChatLogs`, `ServerLogs` | rows of a conversation's table, the read rule of the table, the complete log on the server | a forward read returns the highest local numbers below the cursor |
| `PageSteps`, `Fills` | the list steps of the gap checks; what one fill achieves, on lists alone | a page of at most fifty rows is an unbroken run of the log after one fill, and fifty is the exact bound, for the fill and for the public read |
| `PullTable` | classification of a pull into inserts and updates, generated ids, the write to the table | one row for every message pulled, new ids pairwise distinct and not local, the exact condition under which a pulled message stays visible |
| `Paging` | `fetchMessagesWithGapCheck` with its checks and recursion, the public read, a caller reading page after page | a read is exactly the first `count` live messages of the complete log; all pages together are the whole history |
| `Lanes` | the reorder buffer of one send lane, on values | every run keeps the account of the lane; without a timeout the order of the numbers |
| `SendOrdering`, `SendRuns` | the numbering of tasks, the lane objects, the select loop of the writer | the loop refines two independent lanes; each lane sends in the order of submission |
| `Syncing` | the marks of the message syncer, direct delivery of pushes, batched range pulls | after any run the delivered numbers tile the range from the first mark to the current one, exactly when no push was mistaken for gapless |
| `Batching` | the adaptive batcher | nothing lost or doubled however handler calls interleave; the window is the last ten seconds; every buffer is due within a second; with timers on time the size limit is never what flushes; what a close loses |
| `Subscriptions` | the table of online states, with shared status objects | nobody waits on an object that is out of the table; losing the connection wakes all; what becomes of a result after the caller was woken |
| `Folding` | folding messages into conversation summaries | batches fuse: folding and merging equals merging one by one; what depends on the order and what does not |

Assumptions about the environment are written as predicates. `ServerLog.Valid`: numbers are consecutive from `lo`, send
times do not decrease with the number, a message that is not deleted has an id no other message has, client ids do not begin
with a bracket, live ids are not empty. `ServerLog.TableOk`: the table is any subset of that log, one row a number; a
deleted message may be stored under a generated id. A request is answered with the messages that the log has, ascending.
`PullTable.FreshSuffixes`: random suffixes are new; only the lemmas about ids use it.

The comment on `validateAndFillInterBlockGaps` (internal/conversation_msg/message_check.go:44-45) speaks of a returned
boolean; the function returns nothing, and the model follows the code.

What the code does not do in general is stated with its exact condition:

* A page of more than fifty rows can keep a gap (`Fills.FiftyIsExact`, with the failing log and table in `Fills.PageWithGap`).
  The public read returns it for every count above fifty (`Paging.WideReadKeepsGap`); a read across one gap of a log of live
  messages is an unbroken part of the history exactly when the count or the gap is at most fifty (`Fills.OneGapClosesIff`,
  `Paging.Pager.GetAdvancedHistoryMessageList`).
* A first read of at most fifty that is made while not connected asks for no gap in its first page; what it shows is an
  unbroken part of the history that reaches at least to the bottom of the page the table gives exactly when every live
  message that the table lacks lies under at least `count` local ones or under all of them
  (`Paging.Pager.FetchMessagesWithGapCheck`, `Fills.FirstReadWithHole`).
* A read may start at a message that its view cannot have got to. When the start lies below the stored end of the view, the
  fill towards the page before asks for numbers above the start (`Fills.AskedBelowStartIff`); when it is answered and none of
  them is local the page shows messages above the start (`Fills.ShownBelowStartIff`, `Fills.ReadBelowEndShowsAbove`), and
  those that are local it hides (`PullTable.AskedAgainIsHidden`), so the result can still be right. When the start lies above
  the stored end, nothing is asked for between them, and the page reaches up to the start exactly when there is no live
  message above both the stored end and the page (`Fills.PageReachesStartIff`). The paging law is about the other starts: the
  last message of a full page, a message that begins the view, or one from which everything down to the stored end is local
  (`Paging.Pager.MayStartAt`). A caller that reads page after page meets no others (`Paging.Pager.ReadHistory`).
* A message that is pulled although it is local is hidden from the page (`PullTable.PulledStaysLiveIff`,
  `PullTable.AskedAgainIsHidden`).
* A push of ascending numbers is taken for gapless although it is not exactly when it begins at or below the mark and counts
  up to its last number (`Syncing.MistakenIff`, `Syncing.DirectDeliveryWithGap`); over a run the delivered numbers are right
  exactly when that never happens at the marks of the time (`Syncing.MsgSyncer.DoListener`).
* The order of messages matters for the latest one exactly when messages that tie for the highest send time of a conversation
  differ and no stored message is as late (`Folding.OrderMattersIff`, `Folding.TieDependsOnOrder`).
* Closing the batcher drops the handler calls that are outstanding: everything that came in has been handed over exactly when
  there were none and nothing came later (`Batching.MessageBatcher.CloseAndAfter`, `Batching.CloseLosesOne`).
* A finished status object can be finished again before a woken caller reads it: its result stays exactly while no operation
  finishes it with another one (`Subscriptions.ResultKeptIff`, `Subscriptions.WokenThenOverwritten`).

`dafny verify dfyconfig.toml` checks the project.

## Model

| member | source | states |
|---|---|---|
| `ServerLogs.ServerLog.ReadIsNewestBelow` | pkg/db/chat_log_model.go:158-190 | a forward read with filter, order and limit returns the highest-numbered local rows below the cursor, descending; what it leaves out is lower than all it returns |
| `ServerLogs.ServerLog.NewerIsHigher` | pkg/db/chat_log_model.go:166-169 | on rows of one log, newer by send time and then number is the same as higher by number |
| `ChatLogs.BelowCursorIs` | pkg/db/chat_log_model.go:158-190 | below a cursor row are the rows it is newer than and, at its time, the other rows without a number; never the cursor itself; without a cursor all rows |
| `ChatLogs.SelectDescOrder` | pkg/db/chat_log_model.go:158-190 | on any table a forward read takes every row below its cursor, as often as the table has it, newest first |
| `ServerLogs.ServerLog.LiveOfBlock` | internal/conversation_msg/conversation.go:163-169 | the rows a page keeps, when its numbers are unbroken, are the specification's live messages of that range |
| `PageSteps.GetMaxAndMinHaveSeqList` | internal/conversation_msg/message_check.go:155-173 | largest and smallest number and the set of all numbers, rows numbered 0 aside; 0 and 0 when there are none |
| `PageSteps.GetLostSeqListWithLimitLength` | internal/conversation_msg/message_check.go:175-200 | the ascending set difference of a range and the numbers at hand; when trimmed, fifty numbers, all others being farther from the start |
| `PageSteps.FirstFiftyAreLost` | internal/conversation_msg/message_check.go:188-191 | trimming to the first fifty keeps the fifty lowest missing numbers |
| `PageSteps.LastFiftyAreLost` | internal/conversation_msg/message_check.go:192-195 | trimming to the last fifty keeps the fifty highest missing numbers |
| `PageSteps.MergeSortedArrays` | internal/conversation_msg/message_check.go:322-353 | the three loops compute the first n elements of the two-way merge, for either direction |
| `PageSteps.MergedMembers` | internal/conversation_msg/message_check.go:329-350 | the merge holds exactly the elements of both lists, as often as both do |
| `PageSteps.MergedSorted` | internal/conversation_msg/message_check.go:330-333 | the merge of two lists sorted by send time and number is sorted |
| `PageSteps.SortedMeans` | internal/conversation_msg/message_check.go:330-333 | sorted is by send time and then number, from the latest down or from the earliest up |
| `PageSteps.ErrHandle` | internal/conversation_msg/message_check.go:304-320 | the page is cut to its longest prefix above the newest number that could not be pulled, unnumbered rows staying in it |
| `PageSteps.Reverse` | internal/conversation_msg/message_check.go:355-359 | the array is reversed in place |
| `Fills.FillMakesBlock` | internal/conversation_msg/message_check.go:202-253 | a page of at most fifty rows, merged with what was pulled for its gaps and cut to the page size, runs down from its bound without a gap; if it is short nothing of the range is missing |
| `Fills.FilledInside` | internal/conversation_msg/message_check.go:23-42 | after an internal fill the page runs unbroken from its first number |
| `Fills.FilledAbove` | internal/conversation_msg/message_check.go:46-71 | after a fill towards the page before, the page runs unbroken from that page's end |
| `Fills.FilledBelow` | internal/conversation_msg/message_check.go:76-84 | after a fill below a short page it is still unbroken, and if it is still short it ends at the log's first message |
| `Fills.ShortFillHoldsAll` | internal/conversation_msg/message_check.go:249 | a page that is short after a fill holds every local row below its bound |
| `Fills.KeptIsRun` | internal/conversation_msg/message_check.go:304-320 | after a failed internal fill the page is the unbroken run from its first number down to the one above the newest missing number |
| `Fills.FiftyIsExact` | internal/conversation_msg/message_check.go:46-71 | over all valid logs, tables and start messages, one answered fill towards the page before always closes the gap if and only if the page size is at most fifty |
| `Fills.PageWithGap` | internal/conversation_msg/message_check.go:187-196 | for every larger page size, a valid log, a table, the page it has below a start message, and the answered fill after which a gap is left |
| `Fills.AskedBelowStartIff` | internal/conversation_msg/message_check.go:57-69 | the fill towards the page before asks only for numbers below the start message if and only if the stored end of the view is not above it |
| `Fills.ShownBelowStartIff` | internal/conversation_msg/message_check.go:57-69 | when that fill is answered and nothing asked for is local, the page holds only messages below the start if and only if the stored end is not above it |
| `Fills.ReadBelowEndShowsAbove` | internal/conversation_msg/message_check.go:57-69 | a valid log and table, a start at message 2 and a stored end at 60, for which a page of one is message 59 |
| `Fills.PageReachesStartIff` | internal/conversation_msg/message_check.go:57-69 | for a start at or above the stored end, the page shows the log's live messages up to the start if and only if there is none above both the stored end and the page |
| `Fills.MergedIsFilled` | internal/conversation_msg/message_check.go:245-249 | merging the reversed answer gives a descending list of log rows with the page's numbers and all numbers asked for that exist |
| `Fills.PageShowsLog` | internal/conversation_msg/conversation.go:149-171 | an unbroken page shows exactly the log's live messages of its range |
| `Fills.PageShowsLogIff` | internal/conversation_msg/message_check.go:224-226 | a page as the table has it shows the log's live messages of its range if and only if none of them is missing in it |
| `Fills.WholeIffDeepHoles` | internal/conversation_msg/conversation.go:211 | the page of the `count` highest local rows lacks no live message of its range if and only if every live message missing from the table lies under at least `count` local ones or under all of them |
| `Fills.FirstReadWithHole` | internal/conversation_msg/message_check.go:224-226 | a valid log and table for which that fails |
| `Fills.RunJoinedIff` | internal/conversation_msg/conversation.go:237-242 | a page followed by an unbroken run below it is an unbroken run if and only if the page is |
| `Fills.FirstLiveJoined` | internal/conversation_msg/conversation.go:237-242 | the live messages of a page followed by the first missing ones below it are the first `count` of the log |
| `Fills.LoweredEndStored` | internal/conversation_msg/conversation.go:172-184 | storing the page's lowest number as the end of the view keeps everything between the stored end and the next cursor local, and leaves other views alone; the end becomes the lower of the two |
| `PullTable.PullMessageIntoTable` | internal/conversation_msg/message_check.go:419-529 | the loops classify, update, filter the page and insert as the functions that the lemmas are about say |
| `PullTable.EachPulledBecomesOneRow` | internal/conversation_msg/message_check.go:437-492 | for every number, send time and sender, as many insert and update rows as messages pulled with them |
| `PullTable.ExceptionEndsWithSuffix` | internal/conversation_msg/message_check.go:369-417 | an exceptional message gets an id that begins with a bracketed tag and ends with its own id, or a generated one if it has none, and the random suffix |
| `PullTable.TagTellsWhy` | internal/conversation_msg/message_check.go:372-398 | the tag of a generated id tells exactly which case the message was: same id and number, same id only, deleted, placeholder, or none, with the number of a placeholder; the row is deleted and keeps its number and time |
| `PullTable.UpdatesAre` | internal/conversation_msg/message_check.go:456-464 | the update rows are exactly the first messages pulled under the id of an own row that has no number yet |
| `PullTable.OwnRowNumbered` | internal/conversation_msg/message_check.go:456-516 | pulling the sender's own message leaves the row that the table had of it with the number and the time of the message, its own id and sender, and a live one marked as sent |
| `PullTable.NumberedRowsStay` | internal/conversation_msg/message_check.go:456-516 | a pull never changes a row that has a number |
| `PullTable.RowOf` | internal/conversation_msg/message_check.go:437-491 | what each message of a pull becomes: a duplicate, tagged by its number, of the first earlier one accepted under its id; else the deleted row of a deleted message; else a duplicate, tagged by its number, of a local message of its id; else the message itself, marked as sent if live |
| `PullTable.DropUpdatedIs` | internal/conversation_msg/message_check.go:499-513 | the page loses exactly the rows that the pull updates and keeps the order of the others |
| `PullTable.OwnKeptApart` | internal/conversation_msg/message_check.go:457-488 | own messages and those of others are kept apart; only own ones number a row |
| `PullTable.InsertedIdsAreNew` | internal/conversation_msg/message_check.go:437-494 | with new suffixes the ids handed to insert are pairwise distinct and not in the table, with duplicates in the pull and against the table |
| `PullTable.NewRowsAllInserted` | internal/conversation_msg/conversation_msg.go:713-734 | rows with new and distinct ids are all inserted |
| `PullTable.InsertsKeepKey` | internal/conversation_msg/conversation_msg.go:713-734 | ids stay a key of the table, and of every id handed to insert there is a row afterwards |
| `PullTable.UpdatesKeepIds` | internal/conversation_msg/conversation_msg.go:681-692 | updates by primary key keep the number, the order and the ids of the rows and change no row of another id |
| `PullTable.PullIsStoredWhole` | internal/conversation_msg/message_check.go:494-520 | with new suffixes the table becomes the updated rows followed by every insert row |
| `PullTable.PulledStaysLiveIff` | internal/conversation_msg/message_check.go:437-491 | a pulled live message is still live for the page if and only if the table has no numbered row under its id and no earlier message of the pull was accepted under it; it is then unchanged |
| `PullTable.AskedAgainIsHidden` | internal/conversation_msg/message_check.go:437-491 | for a table that is part of a log, the page may show of any answer exactly the live messages that were not local |
| `PullTable.PullKeepsTable` | internal/conversation_msg/message_check.go:419-529 | whatever the random strings are, pulling missing messages keeps the table a part of the log, adds only numbers pulled, stores every live one, and gives the page copies of the log's messages |
| `Paging.Pager.FetchAndMergeMissingMessages` | internal/conversation_msg/message_check.go:207-253 | the three outcomes of a fill: untouched when not asked, cut in front of the gap when the request fails, merged with everything the log has of it when answered; the table only grows, by numbers asked for; the lowest pullable number is raised exactly when the server says that it is reached; a failed request is counted and reported to the caller |
| `Paging.Pager.MergePulled` | internal/conversation_msg/message_check.go:245-249 | conversion, reversal and merge make the page a filled one |
| `Paging.Pager.Store` | internal/conversation_msg/message_check.go:238-239 | the write keeps the table a part of the log for whatever the random sources return, and the live copies are local |
| `Paging.Pager.ValidateAndFillInternalGaps` | internal/conversation_msg/message_check.go:23-42 | a page of at most fifty is unbroken below its first number afterwards, answered or not, unless nothing was asked; an unbroken one is left alone; a short answered page still holds all local rows below the bound; the caller is told of a failed request exactly when there was one |
| `Paging.Pager.ValidateAndFillInterBlockGaps` | internal/conversation_msg/message_check.go:46-71 | a page of at most fifty is unbroken from the end of the page before; for any size an answered fill merges what the log has of the fifty highest numbers of the gap; after a failed request it is empty and the number next to that end is not local; the caller is told of a failed request exactly when there was one |
| `Paging.Pager.CheckEndBlock` | internal/conversation_msg/message_check.go:118-153 | a full page is not the end; a short one is the end only at or below the lowest number that can be pulled, and otherwise names the fifty numbers below the page |
| `Paging.Pager.ValidateAndFillEndBlockContinuity` | internal/conversation_msg/message_check.go:76-84 | the end is reported only for a short page that is empty or ends at the log's first message; an empty page reports it |
| `Paging.Pager.ShouldFetchMoreMessagesNum` | internal/conversation_msg/conversation.go:145-201 | collects the live rows, returns how many are missing, and lowers the stored end of the view to the page's lowest number |
| `Paging.Pager.PageRead` | internal/conversation_msg/conversation.go:211 | the page read below a cursor lacks no local row within its range or above it, and none at all below the cursor when it is short |
| `Paging.Pager.FetchPage` | internal/conversation_msg/conversation.go:211-229 | the read and the three checks give an unbroken page below the cursor, up to fifty rows; if gaps are not asked for, the table's page |
| `Paging.Pager.FetchLivePage` | internal/conversation_msg/conversation.go:211-234 | a call that is not the last has a page whose bottom is strictly lower than its cursor, stored as the view's end and usable as the next cursor |
| `Paging.Pager.FetchMessagesWithGapCheck` | internal/conversation_msg/conversation.go:139-246 | for a count of at most fifty, with an answering server exactly the first `count` live messages of the complete log below the cursor; an unbroken run of them whenever gaps are asked for, even if the connection drops; not asked for, a run that reaches at least to the bottom of the table's page exactly when every live message missing from the table lies under at least `count` local ones or under all of them; for any count live messages in the order of the log; the end is reported exactly when fewer than `count` are returned; the recursion ends; a short result that does not reach the first message comes with a failed request, and the error code is set exactly when a request failed |
| `Paging.Pager.HandleEndSeq` | internal/conversation_msg/conversation.go:118-122 | the cursor's number becomes the view's stored end when there is none |
| `Paging.Pager.GetAdvancedHistoryMessageList` | internal/conversation_msg/conversation.go:53-99 | an unknown start message is an error that changes nothing; otherwise the paging law below the start message, or from the newest local message without one, and the last message of a full page can start the next read; for any count, a read across one gap of an all-live log is an unbroken run if and only if the count or the gap is at most fifty; the error code is set exactly when a request of the call failed, and always when a short result does not reach the first message |
| `Paging.WideReadKeepsGap` | internal/conversation_msg/conversation.go:53-99 | for every count above fifty, a pager over a valid log and table whose read, with every request answered, is no unbroken part of the log |
| `Fills.OneGapClosesIff` | internal/conversation_msg/message_check.go:46-71 | an answered fill of the one gap above a page of an all-live log leaves an unbroken run if and only if the page size or the gap is at most fifty |
| `Paging.Pager.LastMayStart` | internal/conversation_msg/conversation.go:202-208 | the last message of a full page is local under its own id and everything from the view's stored end up to it is local |
| `Paging.Pager.ReadHistory` | internal/conversation_msg/conversation.go:53-99 | pages of at most fifty read one after the other until one is short are together the whole live history below the start, in order and once each |
| `Lanes.Flush` | internal/interaction/long_conn_mgr.go:380-400 | sends the longest run of buffered messages from the expected number, leaves the rest, and ends at a number that is missing |
| `Lanes.FlushKeeps` | internal/interaction/long_conn_mgr.go:380-400 | a flush keeps the lane's account: nothing lost, nothing twice, out of order only after a skip |
| `Lanes.ArrivalKeeps` | internal/interaction/long_conn_mgr.go:351-365 | an arrival with a new number keeps the account, late, expected or early |
| `Lanes.TimeoutKeeps` | internal/interaction/long_conn_mgr.go:368-378 | a timeout keeps the account, the numbers it passes being noted as skipped |
| `Lanes.EveryRunKept` | internal/interaction/long_conn_mgr.go:341-400 | in every run of arrivals and timeouts what arrived is what was sent or is buffered, buffered numbers lie above the expected one, the timer runs exactly while something is buffered, and only a skipped number is sent out of order |
| `Lanes.NoTimeoutKeepsOrder` | internal/interaction/long_conn_mgr.go:341-366 | without a timeout and for any order of arrival exactly 1, 2, .., expected - 1 have been sent, in that order, and the rest is buffered |
| `Lanes.AllTasksInOrder` | internal/interaction/long_conn_mgr.go:341-400 | once 1 .. n have all arrived all are sent in order and the lane is empty with its timer off |
| `Lanes.BufferedSurvivesIff` | internal/interaction/long_conn_mgr.go:362 | a buffered message survives an arrival if and only if the arrival has another number or is the same message, which numbers given out once always satisfy |
| `SendOrdering.MessageSender.Decorate` | internal/conversation_msg/send_queue.go:83-111 | a text task, and a media task small enough, takes the next number of its lane; a large media task takes none and is not ordered |
| `SendOrdering.LaneState.StopTimer` | internal/interaction/long_conn_mgr.go:485-496 | the timer is off afterwards, given that an active one exists |
| `SendOrdering.LaneState.StartTimer` | internal/interaction/long_conn_mgr.go:498-515 | the timer runs afterwards |
| `SendOrdering.Writer.FlushLane` | internal/interaction/long_conn_mgr.go:380-400 | the loop on the lane object does what the flush of its value does, and reports false only when it sent nothing and something is buffered |
| `SendOrdering.Writer.HandleLaneTimeout` | internal/interaction/long_conn_mgr.go:368-378 | the skip loop ends, sends at least one message, and leaves the lane as a jump to the smallest buffered number followed by a flush would |
| `SendOrdering.Writer.ProcessIncomingMessage` | internal/interaction/long_conn_mgr.go:341-350 | a message that is not ordered or names no lane goes out at once; any other is an arrival on its lane only |
| `SendOrdering.Writer.Accept` | internal/interaction/long_conn_mgr.go:351-365 | the ordered branch is the arrival of the lane's value |
| `SendOrdering.Writer.WritePump` | internal/interaction/long_conn_mgr.go:305-338 | for any schedule of messages and timers the objects and the wire are what the run of the two values says |
| `SendOrdering.TimeoutSends` | internal/interaction/long_conn_mgr.go:368-378 | a timeout with something buffered sends something |
| `SendRuns.LanesAreIndependent` | internal/interaction/long_conn_mgr.go:290-350 | a run of the writer is a run of each lane on its own events, and messages that are not ordered go out in the order they come |
| `SendRuns.UnorderedMembers` | internal/interaction/long_conn_mgr.go:342-350 | past the lanes go exactly the messages without an order, marked as not ordered, or of no lane |
| `SendRuns.DecorateAll` | internal/conversation_msg/send_queue.go:83-111 | the counters number a list of tasks as the lemmas below assume |
| `SendRuns.DecoratedNumbers` | internal/conversation_msg/send_queue.go:93-98 | the tasks of a lane are numbered 1, 2, .. in the order of submission |
| `SendRuns.SubmissionOrderKept` | internal/interaction/long_conn_mgr.go:290-400 | whatever order the workers hand the tasks over in, without a timeout each lane's messages leave in the order of submission, none missing and none twice |
| `Syncing.GaplessIff` | internal/interaction/msg_sync.go:410-414 | ascending numbers above the mark: the last is mark plus length if and only if they are mark + 1 .. mark + length |
| `Syncing.DirectDeliveryRightIff` | internal/interaction/msg_sync.go:410-414 | an ascending push that reaches mark plus length is gapless if and only if its first number is above the mark |
| `Syncing.DirectDeliveryWithGap` | internal/interaction/msg_sync.go:410-414 | 4, 5, 8 on top of mark 5 passes for 6, 7, 8 |
| `Syncing.MistakenIff` | internal/interaction/msg_sync.go:410-414 | when an ascending push, its messages numbered 0 aside, is handed on in place of others |
| `Syncing.SafeIsNotMistaken` | internal/interaction/msg_sync.go:393-419 | consecutive numbers are never mistaken, nor ascending ones all above the mark or with the last at or below it |
| `Syncing.SafeRunMistakesNothing` | internal/interaction/msg_sync.go:163-219 | a run whose pushes of a conversation are all of that kind, at the marks before them, mistakes none |
| `Syncing.SafeAnsweredRunMistakesNothing` | internal/interaction/msg_sync.go:163-219 | the same for a run whose requests are answered, stated on the commands and the first mark alone |
| `Syncing.SplitStored` | internal/interaction/msg_sync.go:393-408 | the loop keeps the messages with a number in order and remembers the last number |
| `Syncing.LastDecides` | internal/interaction/msg_sync.go:398-414 | the last number that is not 0 alone says where a push takes the mark, and with the count of numbers whether it is handed on |
| `Syncing.AccountsGrow` | internal/interaction/msg_sync.go:410-414 | once the delivered numbers are wrong nothing delivered later makes them right, and right ones stay right exactly with the right continuation |
| `Syncing.MsgSyncer.Advance` | internal/interaction/msg_sync.go:536-538 | the marks of an answered batch move to the ends of its ranges, whose numbers continue at the marks |
| `Syncing.MsgSyncer.SyncAndTriggerMsgs` | internal/interaction/msg_sync.go:507-563 | for any iteration order the requested conversations are parted into batches, each in one only; all but the last are estimated at 100 or more, and none was estimated at 100 before its last conversation; each request asks for the ranges of its conversations; on success every mark is at its range's end, on failure exactly those of the batches before the failed one |
| `Syncing.BatchLimits` | internal/interaction/msg_sync.go:516-527 | a batch of regular conversations is estimated below 100 plus the per-conversation limit; a notification conversation of a hundred numbers or more is the last of its batch |
| `Syncing.SmallCountWhole` | internal/interaction/msg_sync.go:519-524 | notification conversations and short ranges count for all their numbers |
| `Syncing.LargeCountAsAsked` | internal/interaction/msg_sync.go:519-524 | other regular conversations count for the number of messages asked for of each |
| `Syncing.MsgSyncer.PullBatch` | internal/interaction/msg_sync.go:527-538 | an unanswered batch changes no mark |
| `Syncing.MsgSyncer.CompareSeqsAndBatchSync` | internal/interaction/msg_sync.go:332-344 | a mark stays or moves up to the server's maximum; when all requests are answered every mark is at that maximum or above; exactly the conversations with a mark below that maximum are asked for, from the mark on, and from 0 without one |
| `Syncing.MsgSyncer.PushOne` | internal/interaction/msg_sync.go:390-420 | a push is handed on, to be pulled from the mark on, or old; it is noted as mistaken exactly when it is |
| `Syncing.MsgSyncer.HandOn` | internal/interaction/msg_sync.go:411-414 | direct delivery moves the mark to the last number |
| `Syncing.MsgSyncer.PushTriggerAndSync` | internal/interaction/msg_sync.go:378-426 | with all requests answered the mark after a push is the higher of the mark before and the last number pushed that is not 0; exactly the pushes that end above the mark and do not count up to their last number are asked for, from the mark on to that number; the marks when requests fail, and exactly which conversations were mistaken |
| `Syncing.PushedAndPulled` | internal/interaction/msg_sync.go:390-426 | every mark is where the push takes it, except for conversations whose request failed |
| `Syncing.MsgSyncer.StartSync` | internal/interaction/msg_sync.go:349-370 | only one sync starts within the window |
| `Syncing.MsgSyncer.HandlePushMsgAndEvent` | internal/interaction/msg_sync.go:192-219 | every command keeps the account of every conversation and moves its mark only up and only where the command may take it, all the way when requests are answered; a second sync within the window does nothing; exactly which conversations it mistakes, from the marks before it; after a connect each request asks for one message of a conversation, otherwise for ten |
| `Syncing.MsgSyncer.DoListener` | internal/interaction/msg_sync.go:163-180 | after any run, requests failing or not, the delivered numbers of a conversation are those above the first mark up to the current one, each once and ascending, if and only if no command mistook a push at the marks of that time; so they are when pushes are ascending and above the mark or old by then; with an answering server the condition and every mark follow from the commands and the first mark |
| `Syncing.MarkIsHighest` | internal/interaction/msg_sync.go:163-219 | with an answering server the mark after a run is the highest of the mark before it, the last numbers pushed, and the server's maxima at every sync that did not fall into the window of another |
| `Batching.CountMessages` | internal/interaction/message_batcher.go:282-294 | the number of messages of a push, over both parts |
| `Batching.MergePullsLocked` | internal/interaction/message_batcher.go:90-120 | in any iteration order each conversation gets the new messages after the old ones, and the flags of the new |
| `Batching.CountMerge` | internal/interaction/message_batcher.go:77-88 | merging neither loses nor invents messages |
| `Batching.CountOne` | internal/interaction/message_batcher.go:282-294 | one conversation counts for its messages, in either part |
| `Batching.OneMoreMerged` | internal/interaction/message_batcher.go:77-120 | an object merged from pushes, merged with one more, has all their messages in order and of each conversation the flags of the last push that has it |
| `Batching.ConservedMerges` | internal/interaction/message_batcher.go:122-238 | whatever was taken out of the buffer is merged from consecutive pushes, and the buffer from those after them |
| `Batching.DelayFollowsLoad` | internal/interaction/message_batcher.go:259-280 | the delay grows with the load from 50 milliseconds to a second, and clamping changes nothing |
| `Batching.WindowMoves` | internal/interaction/message_batcher.go:240-257 | dropping old records from the front leaves exactly the arrivals of the last ten seconds out of all there ever were |
| `Batching.MessageBatcher.RecordArrivalLocked` | internal/interaction/message_batcher.go:240-257 | after a counted arrival the total is the sum of all arrivals ever made in the last ten seconds; an empty push changes nothing |
| `Batching.MessageBatcher.MergeLocked` | internal/interaction/message_batcher.go:77-88 | the buffer is merged with the push; a missing push changes nothing |
| `Batching.MessageBatcher.ConsumeLocked` | internal/interaction/message_batcher.go:122-132 | takes the buffer with its contexts; without a buffer nothing changes |
| `Batching.MessageBatcher.EnsureTimerLocked` | internal/interaction/message_batcher.go:148-165 | the timer is due at the target, or a millisecond from now when the target has passed |
| `Batching.MessageBatcher.PassThroughLocked` | internal/interaction/message_batcher.go:195-202 | at low load the buffer goes out and the push right behind it |
| `Batching.MessageBatcher.FlushOrWaitLocked` | internal/interaction/message_batcher.go:211-235 | the buffer stays exactly when it is neither full at moderate load nor due for the present load |
| `Batching.MessageBatcher.EnqueueLocked` | internal/interaction/message_batcher.go:185-238 | what is taken and what stays, the window after it, and, with timers on time, no buffered message older than a second |
| `Batching.MessageBatcher.OnTimerLocked` | internal/interaction/message_batcher.go:176-183 | the buffer is taken and the timer is off; on time, no message in it is older than a second |
| `Batching.MessageBatcher.Close` | internal/interaction/message_batcher.go:42-55 | the buffer is handed over once more, and then there is neither handler nor buffer nor timer |
| `Batching.MessageBatcher.PromptNeverFull` | internal/interaction/message_batcher.go:211-214 | while every step has been on time the buffer holds no more messages than the window, and the size limit has never been what flushed it |
| `Batching.MessageBatcher.DueInTime` | internal/interaction/message_batcher.go:148-165 | a buffer has a timer that is due within a second of every message in it, or later only by the length of the steps themselves |
| `Batching.CarriedWithout` | internal/interaction/message_batcher.go:237 | handing over one of several outstanding deliveries loses nothing, and the oldest first keeps the order |
| `Batching.MessageBatcher.TakeStep` | internal/interaction/message_batcher.go:176-238 | one step of a run under the lock, one handler call after it, or Close: it keeps the account while there is a handler, says exactly what is outstanding and what stays buffered afterwards, and notes the deadline before it and whether it came in time |
| `Batching.MessageBatcher.Run` | internal/interaction/message_batcher.go:176-238 | in any run with a handler, for every conversation, what was handed over, what is outstanding and what is buffered are together what came in, and in order when calls are made oldest first; when every step comes before the deadline of the time, the buffer never exceeds the window and is never flushed for its size; every delivery, and the buffer, is merged from consecutive pushes, each conversation with the flags of the last push that has it |
| `Batching.ClosingLeavesOut` | internal/interaction/message_batcher.go:42-55 | after the last flush exactly the messages outstanding are missing from what was handed over |
| `Batching.MessageBatcher.CloseAndAfter` | internal/interaction/message_batcher.go:42-65 | for Close at any point of a run, and any run after it: what is missing in the end is what waited for its handler call at Close and what came later; everything was handed over if and only if there was neither |
| `Batching.CloseLosesOne` | internal/interaction/message_batcher.go:42-65 | a closed batcher with nothing buffered that received a message and a notification, passed them straight through, and never handed them over |
| `Subscriptions.Subscription.AskOne` | internal/interaction/subscription.go:151-171 | a known state, the shared object of an earlier query, or a new object |
| `Subscriptions.Subscription.GetUserOnline` | internal/interaction/subscription.go:138-177 | the distinct users asked for are parted into known and awaited; those without an entry before are exactly the ones to subscribe, once each; known states have no error; which users to unsubscribe, and what is left of them |
| `Subscriptions.Subscription.ApplyChange` | internal/interaction/subscription.go:96-118 | one pushed state finishes the object in the table, makes one for a subscribed user, or marks the user to be unsubscribed |
| `Subscriptions.Subscription.SetUserState` | internal/interaction/subscription.go:89-121 | the objects stay the same ones, their states follow the pushes in order; reported are, with their present states, exactly the users with an object to whom some change brought another state than they had before it, and of the others the subscribed ones that were pushed |
| `Subscriptions.PushedMeans` | internal/interaction/subscription.go:89-121 | a mentioned user with an entry is finished without error with the last state pushed; nobody else is touched |
| `Subscriptions.PushedNew` | internal/interaction/subscription.go:107-114 | the object that a push makes for a subscribed user is unfinished until the next push of that user |
| `Subscriptions.LatestIs` | internal/interaction/subscription.go:96-106 | the last state pushed for a user is that of the last change for it |
| `Subscriptions.Subscription.OnConnClosed` | internal/interaction/subscription.go:65-79 | everyone who ever waited has been woken, those of the table with the error, and the table is empty |
| `Subscriptions.Subscription.Unsubscribe` | internal/interaction/subscription.go:123-136 | the entries of the users leave the table, their waiters get an error, subscribed ones are marked; other entries are untouched |
| `Subscriptions.Subscription.WriteFailed` | internal/interaction/subscription.go:179-194 | only objects that the failed request made are finished, and removed only where they are still the entry of the user |
| `Subscriptions.Subscription.Perform` | internal/interaction/subscription.go:65-194 | what one operation does to every object there was: which it finishes, with what, and whether the object stays the entry of its user |
| `Subscriptions.Subscription.Run` | internal/interaction/subscription.go:65-194 | after any run of operations whoever waits is on the entry of the table or has been woken, and a lost connection wakes all; every object there was before says what its fate under the operations is, and a finished one keeps its result throughout if and only if none of them disturbs it |
| `Subscriptions.ResultKeptIff` | internal/interaction/subscription.go:21-32 | a finished object keeps its result if and only if no other state is pushed while it is the entry, neither its user leaves nor the connection is lost then, and the query that made it does not fail with another error |
| `Subscriptions.LastResultStays` | internal/interaction/subscription.go:21-32 | what an object says in the end is the result of the last operation that finished it |
| `Subscriptions.WokenThenOverwritten` | internal/interaction/subscription.go:123-136 | a query, the answer, and the user leaves: the waiter woken by the answer finds the error |
| `Folding.FoldAssociative` | internal/conversation_msg/conversation_msg.go:825-833 | adding up and taking the later message is associative |
| `Folding.Fusion` | internal/conversation_msg/conversation_msg.go:621-647 | folding a batch and merging it into what is stored is merging its messages one by one |
| `Folding.BatchesDoNotMatter` | internal/conversation_msg/conversation_msg.go:621-647 | two batches one after the other give what their concatenation gives |
| `Folding.LatestIsFirstOfHighest` | internal/conversation_msg/conversation_msg.go:825-833 | the latest message of a folded batch is the first of those with the highest send time |
| `Folding.UnreadAddsUp` | internal/conversation_msg/conversation_msg.go:825-833 | the unread count of a conversation is the stored one and those of all its messages; one without a message stays as it is |
| `Folding.OrderDoesNotMatter` | internal/conversation_msg/conversation_msg.go:821-835 | unread counts and latest send times are the same for every order of the messages |
| `Folding.OrderMattersIff` | internal/conversation_msg/conversation_msg.go:821-835 | every order of the same messages gives the same summaries if and only if messages that tie for the highest send time of their conversation are the same latest message or something stored is as late |
| `Folding.TieDependsOnOrder` | internal/conversation_msg/conversation_msg.go:825 | with equal send times the latest message depends on the order |
| `Folding.LocalConversation.Absorb` | internal/conversation_msg/conversation_msg.go:825-833 | the object takes over counts, and the latest message only when strictly later |
| `Folding.UpdateConversation` | internal/conversation_msg/conversation_msg.go:821-835 | the summary joins its conversation's object, or becomes it |
| `Folding.Diff` | internal/conversation_msg/conversation_msg.go:621-647 | stored conversations are changed in place, new ones are added, or dropped when names cannot be found |
| `Folding.ReceiveBatch` | internal/conversation_msg/conversation_msg.go:345-426 | after a batch the stored and the added objects hold what merging its messages one by one gives; changed and added are exactly the conversations with a message, by whether they were stored |

## Left out

- The backward direction of the history pager as a whole: its progress depends on what the server has; the list steps are modelled for both directions.
- Paging.Pager.FetchAndMergeMissingMessages: the forward direction only; an answer without an entry for the conversation, after which the page is left as it is, is not modelled.
- Paging.Pager.ValidateAndFillInternalGaps: the forward direction only.
- Paging.Pager.ValidateAndFillInterBlockGaps: the forward direction only, for starts as described above.
- Paging.Pager.ValidateAndFillEndBlockContinuity: the forward direction only.
- Paging.Pager.ShouldFetchMoreMessagesNum: the forward direction only; the stored ends of the backward direction are not modelled.
- Paging.Pager.FetchPage: the forward direction, on tables of numbered rows.
- Paging.Pager.FetchLivePage: the forward direction, on tables of numbered rows.
- Paging.Pager.FetchMessagesWithGapCheck: forward reads on tables of numbered rows; above fifty messages only what is said above. A request that fails and a later one of the same call that is answered are not modelled: the second asks for local messages again, which AskedAgainIsHidden says are hidden, and gives the table second rows for their numbers.
- Paging.Pager.HandleEndSeq: rows with number 0 and the search for the latest numbered row below them are not modelled, because the paging law is about tables of numbered rows.
- Paging.Pager.GetAdvancedHistoryMessageList: the law is not stated for a start message below the stored end of its view, nor for one above it with numbers missing in between; what happens there is stated for one page, as described above. The conversion to the public message form and the final sort are left out; burned private messages are not filtered.
- PullTable.PullMessageIntoTable: one conversation a pull; the accumulators that the source shares between conversations, names and pictures, and the rewriting of a conversation's latest message after an update are left out.
- PullTable.NewRowsAllInserted: the batch insert that falls back to single inserts is modelled as single inserts.
- The database behind tables and conversations, its errors and its locks; a table is a sequence with the read rule of its model.
- SendOrdering.MessageSender.Decorate: the media threshold is an input, deadlines and the bounded queue of tasks are left out.
- SendOrdering.Writer.DispatchMessage: sending is appending to a trace; answers and errors of a send are left out.
- Syncing: the phase after a reinstallation, loading of the marks, retries, and the queues that messages are handed to. A range counts as delivered when its request is answered, although the server sends at most the requested number of its messages.
- Batching.MergePullsLocked: a merged map is a value, so that a push buffered as the first of its conversation is the caller's own object in the source is not captured.
- Batching: a batcher's contexts are numbers; rounding of the floating-point delay is not modelled.
- Subscriptions: nothing in the source adds a user to the subscribed set; the model keeps its branches for any such set. Deadlines of waiting callers are left out.
- Folding: names, pictures and the other columns of a conversation, and which messages count as unread.
- Connection handling, encoding, heartbeats, listeners, file transfer, caches and the generic version synchronizer: input and output without a property of this kind.
