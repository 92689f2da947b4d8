# Verified models of the service host's algorithms and message protocols

This project models, in Dafny, the parts of the energy service host in which algorithms, transactions and
shared state meet, and proves what they guarantee over all inputs and all runs.

- **Configuration macro expander** (`StringExpander`). `%KEY%` in a configuration value is replaced by the
  value of `KEY`, with the map that is being expanded as the dictionary, in place, at most ten replacements
  per value and pass and a limited number of passes. `Templates` gives well-formed values a meaning and a
  cost; `StructuralExpansion` shows that the text scanner computes the leftmost-first expansion of
  templates; `ExpansionMeaning`, `ExpansionCompleteness`, `ExpansionSharpness`, `ExpansionLoops`,
  `ExpansionCount` and `ExpansionBounds` hold the results about whole calls. `ConfigurationMap` is the ordered map, `CfgReader` the caller.
- **Export of messages** (`MessageExporter`, `ExportRuns`, `ExportRepeats`, `FailureLog`, `ExportLog`). A dequeue transaction with a send
  delegate, four kinds of catch blocks and a nested enqueue transaction, under arbitrary outcomes of every
  step, and the throttled failure log.
- **Import of messages** (`ImportSubmission`, `ImportHandling`). What becomes of a message that is
  submitted, and of one that is taken from the import queue.
- **Auction periods** (`AuctionPeriods`). The greedy merge of days that lack an auction.
- **Shutdown budget** (`ShutdownBudget`). Stop timeouts handed from module to module.
- **Failover** (`SettingsFactory`, `ExpressExport`). Cached settings that follow a wrapping index, and the
  loop over the machines.
- **PDCom queue** (`PDComQueue`), **role cache** (`RoleCache`), **runner resolver** (`RunnerResolver`),
  **TXY codec** (`TxyCodec`) and **snow values comparison** (`SnowValues`).

`dafny verify dfyconfig.toml` checks everything.

## How the parts are modelled

Objects whose methods change fields are classes; their methods are proved against functions, and the
results about runs are lemmas on those functions. Everything outside the program is a parameter: database
rows, clock readings, and for each step that can throw whether it returns or which class of exception it
throws. The results therefore hold for every combination of outcomes of these steps.

The meaning of a configuration map is a solution of the equations "value of a key = its template with every
reference replaced by the value of its key". Expansion keeps every solution, of cyclic maps too; acyclic
maps have exactly one, the full recursive expansion. A cyclic map need not have any (`A=x%A%` has none,
`NoFiniteMeaning`), and then this says nothing about it. A map of costs counts the replacements each entry
needs; a map has such costs exactly when it is acyclic.

Where the code falls short of what its comments promise, the code is kept and the exact condition proved:

- Not every map can be expanded completely. Every limit from some point on is enough exactly for acyclic
  maps, and for a cyclic map none is (`ResolvesIffAcyclic`).
- A result of 0 from `expandMap` does not always mean that nothing is left to expand: `A=%A%` gives 0 with
  any limit. The count is exact for all limits from some point on exactly when the map holds no silent
  loop, a loop of references that is entered before any unknown reference; with a silent loop it is too
  small under every limit (`CountIsExactIff`). Under a given limit it is exact when there is room to
  spare (`ReturnedCount`), in particular when full expansion leaves some (`CostsLeaveRoom`). Where every reference is defined the result is always 0,
  and it is exact precisely when everything was resolved (`ZeroOnDefinedMaps`).
- `CreateNewAuctionCommands` is meant to request days without an auction only. It requests others exactly
  when some needed day other than the last has no needed neighbour (`OnlyNeededDaysIff`).
- The failover loop is meant to try all machines. When it gives up, it has done so exactly when every
  listed name stands between the starting place and the next place of the starting name (`AllTriedIff`).
- The failover loop is meant to send the message once. It commits it again exactly when a COM exception
  follows a commit, as reporting the success can throw, and a later machine takes the message too
  (`MoreThanOnceIff`); its return value tells what was committed exactly when no exception follows a
  commit (`ReturnValueIsRightIff`).
- An export call is meant not to let exceptions through. While a message is queued that holds exactly when
  reading the queue, deleting the payload and each step of the catch blocks return
  (`ServiceCannotFailIff`).
- A message is meant to be exported once. It can be accepted again exactly when the call that had it
  accepted did not remove it from the queue or queued a copy (`AcceptedAgainIff`, `AcceptedTwiceIff`).
- The first failure of a message is meant to be logged at once. For a message with log id 0 that is not so
  after a success (`FirstFailureIsWritten`).
- `SubmitImport` puts a message on both queues when the completion action itself throws an
  invalid-message exception (`ExactlyOneQueueIff`), and the import service puts a message that was imported
  on the error queue when its payload cannot be deleted (`OnePlaceIff`). A message can be imported again
  exactly when the call that completed it was not committed (`CompletedAgainIff`, `CompletedTwiceIff`).
- A client that has disconnected is meant to get no more replies. That holds for every further run exactly
  when each of its messages taken from the queue before is flagged (`NoReplyIff`,
  `TakenBeforeStillReplies`).
- The linear role lookup is meant to give -1 for absent names only. It does so exactly when no row has the
  key -1 (`LookupsAgree`).
- A saved message is meant to be restored. A message without a series saves nothing, so that on its own it
  can be restored exactly when it has one (`RestorableIffPresent`).

## Assumptions

- A commit that throws has committed nothing, and a message queue transaction that is not pending can be
  neither committed nor rolled back.
- Other programs only add to an export queue while a message is being exported.
- The iterator of the RogueWave list gives access to the queued item itself, not to a copy.
- `TXY_realloc` keeps the header of the series and makes room for the values and their status words.
- Letters and digits in keys, upper case and blanks are those of ASCII.
- Dates are days, the increment is one day, and no date is the null date of `UtcTime`.

## Model

| member | source | states |
|---|---|---|
| StringExpander.StringExpander.ExpandString | src/ConfigurationSystem/CfgServer/StringExpander.cpp:13-53 | the scan of one value ends for every map and gives the text, the miss count and the change flag of the specified scan |
| StringExpander.StringExpander.ExpandMap | src/ConfigurationSystem/CfgServer/StringExpander.cpp:56-76 | the passes in place leave the specified map and return the specified count; the key set stays |
| StringExpander.StringExpander.ExpandOnce | src/ConfigurationSystem/CfgServer/StringExpander.cpp:61-72 | one pass in place is the specified pass, in which later entries read entries already overwritten |
| StringExpander.StringExpander.IsValidKey | src/ConfigurationSystem/CfgServer/StringExpander.cpp:26-31 | accepts exactly keys of letters, digits, underscore, dot and hyphen |
| StringExpander.LookAt | src/ConfigurationSystem/CfgServer/StringExpander.cpp:21-46 | a reference that is found lies behind the position, its key is not empty, and a key that is replaced is defined |
| StringExpander.LookAtByPositions | src/ConfigurationSystem/CfgServer/StringExpander.cpp:22-46 | for every text: what the first meta character, the first one at least two behind it, and the text between them lead to |
| StringExpander.ExhaustedIff | src/ConfigurationSystem/CfgServer/StringExpander.cpp:22-49 | for every text: nothing is found exactly when one of these two meta characters is missing |
| StringExpander.ScanByPositions | src/ConfigurationSystem/CfgServer/StringExpander.cpp:20-51 | for every text: with what text, at what position and with what counts the scan goes on |
| StringExpander.ScanStops | src/ConfigurationSystem/CfgServer/StringExpander.cpp:20-51 | for every text: when the scan ends |
| StringExpander.PassInPlace | src/ConfigurationSystem/CfgServer/StringExpander.cpp:63-72 | the new value of a key is its old one scanned with the new values of the keys before it and the old ones of the others, and when a pass changes or misses nothing |
| Templates.KeyCharacters | src/ConfigurationSystem/CfgServer/StringExpander.cpp:27-30 | the characters of keys one by one |
| StringExpander.ScanTurn | src/ConfigurationSystem/CfgServer/StringExpander.cpp:20-51 | a turn of the loop does not change what the whole scan gives |
| StructuralExpansion.ScanRefinesExpand | src/ConfigurationSystem/CfgServer/StringExpander.cpp:13-53 | on written templates the text scanner computes the structural leftmost-first expansion, with the same counts |
| StructuralExpansion.StrayMetaCharacter | src/ConfigurationSystem/CfgServer/StringExpander.cpp:44-46 | anywhere in a text: after text that is no key, even one that starts with a meta character, the scan goes on at the closing one as a possible opening |
| StructuralExpansion.DoubledMetaCharacter | src/ConfigurationSystem/CfgServer/StringExpander.cpp:23-46 | behind a doubled meta character references are still expanded |
| Templates.ParseRender | src/ConfigurationSystem/CfgServer/StringExpander.h:15-24 | parsing the written form of a template gives the template back |
| Templates.RenderParse | src/ConfigurationSystem/CfgServer/StringExpander.h:15-24 | a well-formed value is the written form of what it parses to |
| Templates.AppendMeaning | src/ConfigurationSystem/CfgServer/StringExpander.h:15-24 | meaning and cost of templates in a row are those of the parts together |
| Templates.FreeIffNoRefs | src/ConfigurationSystem/CfgServer/StringExpander.h:15-24 | a template costs nothing exactly when it refers to no defined key, and then it means itself |
| ExpansionMeaning.ExpandKeepsMeaning | src/ConfigurationSystem/CfgServer/StringExpander.cpp:33-39 | replacing references never changes the meaning of the value |
| ExpansionMeaning.EntryKeepsMeaning | src/ConfigurationSystem/CfgServer/StringExpander.cpp:63-69 | overwriting one entry keeps every meaning of the whole map |
| ExpansionMeaning.PassKeepsMeaning | src/ConfigurationSystem/CfgServer/StringExpander.cpp:60-74 | a pass keeps every meaning although it reads entries it has overwritten |
| ExpansionMeaning.ExpansionKeepsMeaning | src/ConfigurationSystem/CfgServer/StringExpander.cpp:56-76 | a whole call keeps every meaning the map has, cyclic or not, for any order and any limit |
| ExpansionMeaning.NoFiniteMeaning | src/ConfigurationSystem/CfgServer/StringExpander.h:27-30 | a cyclic map that has no meaning |
| ExpansionMeaning.AcyclicHasOneMeaning | src/ConfigurationSystem/CfgServer/StringExpander.h:15-24 | an acyclic map has exactly one meaning |
| ExpansionMeaning.FullExpansionIsMeaning | src/ConfigurationSystem/CfgServer/StringExpander.h:15-24 | the full recursive expansion is a meaning |
| ExpansionCompleteness.ExpandPays | src/ConfigurationSystem/CfgServer/StringExpander.cpp:20-51 | every replacement pays one unit of cost, and a scan that is not cut off leaves nothing to pay |
| ExpansionCompleteness.PassPays | src/ConfigurationSystem/CfgServer/StringExpander.cpp:60-74 | a pass takes ten off the cost of every entry, or what is left of it |
| ExpansionCompleteness.IdlePassMeansResolved | src/ConfigurationSystem/CfgServer/StringExpander.cpp:74 | a pass that changes nothing finds no reference to a defined key anywhere |
| ExpansionCompleteness.ExpansionIsComplete | src/ConfigurationSystem/CfgServer/StringExpander.cpp:56-76 | if every entry needs at most ten replacements per pass the call ends with exactly the meaning of the map |
| ExpansionCompleteness.DocumentedExample | src/ConfigurationSystem/CfgServer/StringExpander.h:20-24 | the documented example gives AlphaBeta |
| ExpansionCompleteness.CoverIffAcyclic | src/ConfigurationSystem/CfgServer/StringExpander.h:27-30 | replacement counts exist exactly for acyclic maps, and are exact there |
| ExpansionCompleteness.OrderDoesNotMatter | src/ConfigurationSystem/CfgServer/StringExpander.cpp:63-72 | within the bound the result is the full expansion in whatever order the map is walked |
| ExpansionSharpness.CompleteIffWithinBound | src/ConfigurationSystem/CfgServer/StringExpander.cpp:20-51 | an entry whose references lead straight to resolved values is expanded completely if and only if it is within the bound |
| ExpansionSharpness.TenPerPass | src/ConfigurationSystem/CfgServer/StringExpander.cpp:20 | the limits in numbers: n references to a plain value are expanded if and only if n is at most ten per pass |
| ExpansionSharpness.OneStepPasses | src/ConfigurationSystem/CfgServer/StringExpander.cpp:56-76 | how many references of such an entry are left after the passes |
| ExpansionLoops.ResolvesIffAcyclic | src/ConfigurationSystem/CfgServer/StringExpander.cpp:56-76 | every limit from some point on resolves all references if the map is acyclic, and no limit does if it is not |
| ExpansionLoops.CostsOrLoop | src/ConfigurationSystem/CfgServer/StringExpander.h:27-30 | either every key has finite costs, or the keys without them are a loop of references |
| ExpansionLoops.ExpandKeepsKnot | src/ConfigurationSystem/CfgServer/StringExpander.cpp:33-39 | a template that refers into a loop does so after any scan |
| ExpansionCount.CountIsExactIff | src/ConfigurationSystem/CfgServer/StringExpander.cpp:64-75 | without a silent loop the result is exact under every limit from some point on, with one it is too small under every limit |
| ExpansionCount.ZeroOnDefinedMaps | src/ConfigurationSystem/CfgServer/StringExpander.cpp:38-45 | where every reference is defined the result is 0, exact precisely when all are resolved, and silent loops are cycles |
| ExpansionCount.ReturnedCount | src/ConfigurationSystem/CfgServer/StringExpander.cpp:64-75 | under a given limit the result never exceeds the number of entries with a meta character left, and equals it after an idle last pass or with room to spare |
| ExpansionCount.CostsLeaveRoom | src/ConfigurationSystem/CfgServer/StringExpander.cpp:64-75 | there is room to spare when every entry needs fewer replacements for full expansion than the limits allow |
| ExpansionCount.ExpandSettles | src/ConfigurationSystem/CfgServer/StringExpander.cpp:20-51 | until a reference is missed every replacement pays one unit of what is left in front of it |
| ExpansionCount.ExpandKeepsSilence | src/ConfigurationSystem/CfgServer/StringExpander.cpp:33-43 | a scan that enters a silent loop stays in it and misses nothing |
| ExpansionCount.CyclicYetExact | src/ConfigurationSystem/CfgServer/StringExpander.cpp:40-43 | a cyclic map without a silent loop |
| ExpansionCount.UnexpandedZero | src/ConfigurationSystem/CfgServer/StringExpander.cpp:75 | that number is 0 exactly when every value is plain |
| ExpansionCount.SelfReferenceReportsZero | src/ConfigurationSystem/CfgServer/StringExpander.cpp:38-45 | an entry that refers to itself is reported as 0 and stays unexpanded, with any limit |
| ExpansionBounds.ExpansionIsIdempotent | src/ConfigurationSystem/CfgServer/StringExpander.cpp:66-75 | after an idle last pass another call changes neither the map nor the result, for every map |
| ExpansionBounds.ExpansionIsBounded | src/ConfigurationSystem/CfgServer/StringExpander.cpp:20-76 | for every map the keys stay, the replacements and the lengths of values are bounded |
| ExpansionBounds.ScanLength | src/ConfigurationSystem/CfgServer/StringExpander.cpp:35-38 | a scan adds at most the longest value per replacement |
| ExpansionBounds.PlainValuesSurvive | src/ConfigurationSystem/CfgServer/StringExpander.cpp:22-50 | a value without meta characters is never changed |
| ConfigurationMap.CfgMap.Insert | src/ConfigurationSystem/CfgServer/CfgReader.cpp:935-947 | adds an entry unless its key is taken, tells whether it did, and keeps the walk in ascending order |
| ConfigurationMap.BeforeIff | src/ConfigurationSystem/CfgServer/CfgReader.cpp:954-959 | the order of the walk: the first difference decides, and a text comes behind its beginnings |
| CfgReader.GetExpandedConfiguration | src/ConfigurationSystem/CfgServer/CfgReader.cpp:927-962 | every write is inside the arrays, the slots hold the expanded dictionary in walk order, and as many stay unused as rows are ignored |
| CfgReader.FirstValueWins | src/ConfigurationSystem/CfgServer/CfgReader.cpp:936-948 | the caller's entries win over rows, and the first of several rows of a name wins |
| CfgReader.EntriesAndIgnored | src/ConfigurationSystem/CfgServer/CfgReader.cpp:937-948 | every row is an entry of its own or ignored |
| CfgReader.CallerWins | src/ConfigurationSystem/CfgServer/CfgReader.cpp:936-951 | a plain user or computer name comes out as the caller gave it |
| MessageExporter.MessageExporter.ExportMessage | src/DataExchangeManager/DataExchangeCommon/MessageExporter.cs:39-123 | queue, accepted messages, throttle, event log and result of a call, from the outcomes of its steps |
| MessageExporter.MessageExporter.HandleReceived | src/DataExchangeManager/DataExchangeCommon/MessageExporter.cs:52-119 | what sending a received message and catching its exceptions does to queue, throttle, log and result |
| MessageExporter.MessageExporter.Send | src/DataExchangeManager/DataExchangeCommon/MessageExporter.cs:52-60 | the first failure of the guarded steps, and that the message has left the queue exactly when the commit was reached and returned |
| MessageExporter.MessageExporter.Catch | src/DataExchangeManager/DataExchangeCommon/MessageExporter.cs:62-119 | what the catch blocks do to the queue and the log, and when an exception leaves them |
| MessageExporter.MessageExporter.CatchMissingField | src/DataExchangeManager/DataExchangeCommon/MessageExporter.cs:87-111 | the low-priority re-enqueue in its own transaction followed by the outer commit or rollback |
| MessageExporter.MessageExporter.OnUnknownError | src/DataExchangeManager/DataExchangeCommon/MessageExporter.cs:175-207 | updates throttle and event log as specified, and fails exactly when there is an entry to write that the event log does not take |
| MessageExporter.QueueTransaction.Commit | src/DataExchangeManager/DataExchangeAPI/Msmq/MsmqDataExchangeTransaction.cs:30-35 | what was received and sent happens to the queue on commit only, and only while pending |
| MessageExporter.ServiceCannotFailIff | src/DataExchangeManager/DataExchangeCommon/MessageExporter.cs:44-119 | with a message queued no exception leaves the call, whatever the guarded steps do, exactly when each unguarded step returns |
| MessageExporter.EscapeAfterCommit | src/DataExchangeManager/DataExchangeCommon/MessageExporter.cs:52-119 | an exception leaves the call after the commit only if deleting the payload failed |
| MessageExporter.CallEndsAs | src/DataExchangeManager/DataExchangeCommon/MessageExporter.cs:52-119 | from the outcomes of the single steps: when an exception leaves the call, and which failures it reports |
| ExportRuns.NoCopyIsLost | src/DataExchangeManager/DataExchangeCommon/MessageExporter.cs:39-123 | over any run every copy that was queued or arrived is queued, was accepted by its receiver, or was discarded as invalid |
| ExportRuns.LeavesQueueIff | src/DataExchangeManager/DataExchangeCommon/MessageExporter.cs:52-119 | from the outcomes of the single steps: a message leaves its place in exactly three cases, and when a copy is queued |
| ExportRuns.OtherErrorKeeps | src/DataExchangeManager/DataExchangeCommon/MessageExporter.cs:112-117 | after any other exception before the commit the queue is as it was |
| ExportRuns.EveryCopyIsExplained | src/DataExchangeManager/DataExchangeCommon/MessageExporter.cs:39-123 | over any run a copy that is queued no more was accepted, or discarded after one of the three invalid-message exceptions |
| ExportRuns.RunRecords | src/DataExchangeManager/DataExchangeCommon/MessageExporter.cs:52-86 | a run records exactly its acceptances and its discardings of invalid messages |
| ExportRuns.NoMessageIsLost | src/DataExchangeManager/DataExchangeCommon/MessageExporter.cs:39-123 | over any run a queued message stays queued, was accepted by its receiver, or was discarded as invalid |
| ExportRuns.Conservation | src/DataExchangeManager/DataExchangeCommon/MessageExporter.cs:39-123 | over any run queued and removed messages balance with initial, arriving and re-enqueued ones |
| ExportRuns.ExportBalance | src/DataExchangeManager/DataExchangeCommon/MessageExporter.cs:52-119 | one call changes the copies of a message by its removal and its re-enqueued copy only |
| ExportRuns.GainIff | src/DataExchangeManager/DataExchangeCommon/MessageExporter.cs:97-111 | the queue gains a copy exactly when the re-enqueue was committed and the outer commit failed |
| ExportRuns.MovedGoesLast | src/DataExchangeManager/DataExchangeCommon/MessageExporter.cs:89-94 | a message moved to low priority is received after every other message of its module |
| ExportRuns.FirstOf | src/DataExchangeManager/DataExchangeAPI/Msmq/MsmqDataExchangeQueue.cs:73-101 | the first message of a module and priority in the queue |
| ExportRuns.NextIsFirstOfHighest | src/DataExchangeManager/DataExchangeAPI/Msmq/MsmqDataExchangeQueue.cs:73-101 | the next message is the first of the highest priority its module has |
| ExportRuns.ModuleOfParts | src/DataExchangeManager/DataExchangeAPI/DataExchangeAPI.cs:69-84 | the module is the part of an address in front of its first colon |
| ExportRepeats.AcceptedAgainIff | src/DataExchangeManager/DataExchangeCommon/MessageExporter.cs:52-119 | a message queued once and accepted can be accepted again exactly when the call does not remove it or queues a copy |
| ExportRepeats.AcceptedTwiceIff | src/DataExchangeManager/DataExchangeCommon/MessageExporter.cs:39-123 | over any run without new arrivals of it a message is accepted more than once exactly when an accepting call left a copy and it was accepted again |
| ExportRepeats.QueuedIsAccepted | src/DataExchangeManager/DataExchangeCommon/MessageExporter.cs:39-60 | a queued message is accepted in the end once calls stop failing |
| FailureLog.StreakIsThrottled | src/DataExchangeManager/DataExchangeCommon/MessageExporter.cs:175-207 | entries of an unbroken streak are at least one interval apart, and a streak of another message is written at once |
| FailureLog.FirstFailureIsWritten | src/DataExchangeManager/DataExchangeCommon/MessageExporter.cs:125-127 | a failure is written at any time exactly when its id is not the remembered one, after a success exactly when its id is not 0 |
| FailureLog.NothingWrittenIff | src/DataExchangeManager/DataExchangeCommon/MessageExporter.cs:175-207 | a streak writes nothing exactly when the message was failing before and no failure comes an interval after the last report |
| FailureLog.DueIsWritten | src/DataExchangeManager/DataExchangeCommon/MessageExporter.cs:186-206 | a failure that is due is written at once, and the interval starts again when its report is stored |
| ExportLog.LogIsThrottled | src/DataExchangeManager/DataExchangeCommon/MessageExporter.cs:125-207 | over any run neighbouring entries of the event log about one message are an interval apart unless a message was accepted between them |
| ExportLog.OtherFailureIsWritten | src/DataExchangeManager/DataExchangeCommon/MessageExporter.cs:175-207 | at any point of a run a failure of a message other than that of the last entry is written at once |
| ImportSubmission.WsLogic.SubmitImport | src/DataExchangeManager/DataExchangeCommon/WsLogicBase.cs:21-55 | when the call returns and which queues have gained the message then; nothing is queued when an exception leaves it |
| ImportSubmission.WsLogic.EnqueueImportMessage | src/DataExchangeManager/DataExchangeAPI/DataExchangeAPI.cs:192-229 | the normalized message or the refusal |
| ImportSubmission.AcceptedIff | src/DataExchangeManager/DataExchangeAPI/DataExchangeAPI.cs:203-221 | which messages are accepted, and that accepted ones are complete, filled in with the defaults, and keep what they had |
| ImportSubmission.Priorities | src/DataExchangeManager/DataExchangeAPI/DataExchangeAPI.cs:217-221 | which priorities are known |
| ImportSubmission.RefusedBy | src/DataExchangeManager/DataExchangeCommon/WsLogicBase.cs:28-47 | from the outcomes of the single steps: what refuses a message, and when it has been sent |
| ImportSubmission.ExactlyOneQueueIff | src/DataExchangeManager/DataExchangeCommon/WsLogicBase.cs:28-53 | exactly one queue gains the message unless the completion action throws an invalid-message exception |
| ImportSubmission.BothQueuesCanGain | src/DataExchangeManager/DataExchangeCommon/WsLogicBase.cs:28-53 | an input for which both queues gain the message |
| ImportHandling.ImportApplication.HandleMessage | src/DataExchangeManager/ImportApplicationManagerLogic/ImportApplication.cs:110-130 | the outcome, and that a message counts as run exactly when its runner completed |
| ImportHandling.DispositionOf | src/DataExchangeManager/ImportApplicationManagerLogic/ImportApplication.cs:38-130 | from the outcomes of the single steps: which exception leads to which disposition |
| ImportHandling.ImportApplication.CatchFailure | src/DataExchangeManager/ImportApplicationManagerLogic/ImportApplication.cs:38-83 | which callback each class of exception leads to, and when an exception leaves the catch blocks, a failing report or callback included |
| ImportHandling.ImportApplication.StartImportJobImmediately | src/DataExchangeManager/ImportApplicationManagerLogic/ImportApplication.cs:93-103 | a message has exactly one disposition, only that one is recorded, and when an exception leaves the call |
| ImportHandling.ImportApplicationManagerService.HandleNext | src/DataExchangeManager/ImportApplicationManagerService/Service/ImportApplicationManagerService.cs:58-64 | what is taken from the queue, and the first failure of taking, handling and deleting it |
| ImportHandling.ImportApplicationManagerService.ProcessNextImportMessage | src/DataExchangeManager/ImportApplicationManagerService/Service/ImportApplicationManagerService.cs:49-98 | both queues and the records after one call, from the outcomes of its steps, and when an exception leaves it |
| ImportHandling.NoImportIsLost | src/DataExchangeManager/ImportApplicationManagerService/Service/ImportApplicationManagerService.cs:49-98 | over any run every copy that was queued or arrived is queued, on the error queue, completed, empty, failed in its runner, or dropped as corrupt |
| ImportHandling.WhereTheHeadGoes | src/DataExchangeManager/ImportApplicationManagerService/Service/ImportApplicationManagerService.cs:57-97 | from the outcomes of the single steps: both queues and all records after a call on a message |
| ImportHandling.WhereOthersGo | src/DataExchangeManager/ImportApplicationManagerService/Service/ImportApplicationManagerService.cs:57-97 | the same for a corrupt body, an empty queue and a queue that cannot be read |
| ImportHandling.OnePlaceIff | src/DataExchangeManager/ImportApplicationManagerService/Service/ImportApplicationManagerService.cs:57-91 | a message that leaves the queue goes to one place exactly when it was not completed with an undeletable payload |
| ImportHandling.CompletedAndErroneous | src/DataExchangeManager/ImportApplicationManagerService/Service/ImportApplicationManagerService.cs:57-91 | an input for which a completed message is put on the error queue |
| ImportHandling.CompletedAgainIff | src/DataExchangeManager/ImportApplicationManagerService/Service/ImportApplicationManagerService.cs:57-95 | a completed message can be completed again exactly when the call that completed it was not committed, and when that is |
| ImportHandling.CompletedTwiceIff | src/DataExchangeManager/ImportApplicationManagerService/Service/ImportApplicationManagerService.cs:49-98 | over any run without new arrivals of it a message is completed more than once exactly when a completing call left a copy and it was completed again |
| ImportHandling.CompletionsAreRecorded | src/DataExchangeManager/ImportApplicationManagerService/Service/ImportApplicationManagerService.cs:49-98 | the runners record each completion of a run |
| AuctionPeriods.MergePeriods | src/DataExchangeManager/NpAuctionRequester/Program.cs:218-236 | the periods are the merge of the needed days: all covered, tight, ascending, at least a day apart |
| AuctionPeriods.StepMerges | src/DataExchangeManager/NpAuctionRequester/Program.cs:225-232 | a turn of the day loop merges one more day |
| AuctionPeriods.MergeIsUnique | src/DataExchangeManager/NpAuctionRequester/Program.cs:218-236 | the conditions of a merge determine the periods |
| AuctionPeriods.SurplusDays | src/DataExchangeManager/NpAuctionRequester/Program.cs:225-231 | a covered day that is not needed lies strictly between the first and second needed day of its period |
| AuctionPeriods.OnlyNeededDaysIff | src/DataExchangeManager/NpAuctionRequester/Program.cs:162 | only needed days are requested exactly when every needed day but the last has a needed neighbour |
| AuctionPeriods.DefinedDaysCanBeRequested | src/DataExchangeManager/NpAuctionRequester/Program.cs:225-231 | an input for which a day that has an auction is requested |
| AuctionPeriods.ForceIsOnePeriod | src/DataExchangeManager/NpAuctionRequester/Program.cs:222-236 | with force there is one period over the whole interval |
| AuctionPeriods.EveryPairIsRequested | src/DataExchangeManager/NpAuctionRequester/Program.cs:247-271 | each operator asks for each period once, from its start to its end, operators in the outer loop |
| AuctionPeriods.EveryNeededDayIsRequested | src/DataExchangeManager/NpAuctionRequester/Program.cs:247-271 | every operator asks for every needed day within the dates of one of its commands |
| AuctionPeriods.CreateNewAuctionCommands | src/DataExchangeManager/NpAuctionRequester/Program.cs:213-274 | the commands are those of all operators for the merged periods |
| ShutdownBudget.ManagerService.StopModules | src/DataExchangeManager/DataExchangeManagerService/DataExchangeManagerService.cs:108-139 | every module gets the timeout of the recursion, in both services |
| ShutdownBudget.ElapsedIsConsistent | src/DataExchangeManager/DataExchangeManagerService/DataExchangeManagerService.cs:118-139 | the timeouts are those left by modules that each take the time they take with their own timeout |
| ShutdownBudget.ManagerService.Shutdown | src/DataExchangeManager/DataExchangeManagerService/DataExchangeManagerService.cs:66-77 | exactly the modules that do not stop within the timeout they get are aborted |
| ShutdownBudget.UnclampedTimeout | src/DataExchangeManager/IccpDataExchangeManagerService/IccpDataExchangeManagerService.cs:109-122 | a module gets the shares of all modules up to it less the time spent |
| ShutdownBudget.UnclampedWithinLimit | src/DataExchangeManager/IccpDataExchangeManagerService/IccpDataExchangeManagerService.cs:99-122 | the total is within the limit exactly when the last module keeps its timeout |
| ShutdownBudget.UnclampedNegativeIff | src/DataExchangeManager/IccpDataExchangeManagerService/IccpDataExchangeManagerService.cs:120-121 | when a negative timeout is handed on |
| ShutdownBudget.ClampedTimeout | src/DataExchangeManager/DataExchangeManagerService/DataExchangeManagerService.cs:118-139 | the balance up to forgiven overruns; no timeout is negative |
| ShutdownBudget.ClampedStep | src/DataExchangeManager/DataExchangeManagerService/DataExchangeManagerService.cs:130-138 | the next timeout is the average and what is left over, or the average when that is negative |
| ShutdownBudget.ClampedWithinLimitPlusOverruns | src/DataExchangeManager/DataExchangeManagerService/DataExchangeManagerService.cs:108-139 | the total exceeds the limit by at most the overruns |
| ShutdownBudget.ClampedGivesMore | src/DataExchangeManager/DataExchangeManagerService/DataExchangeManagerService.cs:130-138 | the clamped service never gives less, and the same exactly until the first reset |
| SettingsFactory.SplitJoin | src/DataExchangeManager/DataExchangeAPI/DataExchangeSettingsFactory.cs:59-72 | splitting a list loses nothing and gives several parts exactly when the separator occurs |
| SettingsFactory.PartsHoldNoSeparator | src/DataExchangeManager/DataExchangeAPI/DataExchangeSettingsFactory.cs:59-72 | no part holds a separator |
| SettingsFactory.DataExchangeSettingsFactory.GetSettings | src/DataExchangeManager/DataExchangeAPI/DataExchangeSettingsFactory.cs:50-83 | the cache cannot be told from deriving the settings, and indices that select are in range |
| SettingsFactory.DataExchangeSettingsFactory.PerformAll | src/DataExchangeManager/DataExchangeAPI/DataExchangeSettingsFactory.cs:16-83 | any sequence of index changes and requests is answered as without a cache |
| SettingsFactory.RequestIsStable | src/DataExchangeManager/DataExchangeAPI/DataExchangeSettingsFactory.cs:50-83 | asking again gives the same answer and moves no index |
| SettingsFactory.RequestAnswers | src/DataExchangeManager/DataExchangeAPI/DataExchangeSettingsFactory.cs:50-83 | what a request answers from each list and index by itself, and where the indices end up |
| ExpressExport.Export | src/DataExchangeManager/ExpressExportConnector/Program.cs:204-308 | machines tried, commits and returned value from the outcomes of the steps of each attempt; the loop ends within one round, in list order, and gives up only after failures only |
| ExpressExport.Send | src/DataExchangeManager/ExpressExportConnector/Program.cs:219-282 | how an attempt ends and whether it committed the message |
| ExpressExport.AttemptEndsAs | src/DataExchangeManager/ExpressExportConnector/Program.cs:217-303 | from the outcomes of the single steps: after which attempts the loop goes on, and what is returned when it ends there |
| ExpressExport.AttemptsOfRun | src/DataExchangeManager/ExpressExportConnector/Program.cs:217-296 | all attempts but the last met a stopped service or a COM exception, and how the last one ended |
| ExpressExport.ReachableIsServed | src/DataExchangeManager/ExpressExportConnector/Program.cs:217-296 | a machine that takes the message gets it if all before it are stopped or fail with a COM exception before the starting name returns |
| ExpressExport.AttemptsAreDetermined | src/DataExchangeManager/ExpressExportConnector/Program.cs:217-296 | the number of attempts follows from the list and the outcomes, and is at most one round |
| ExpressExport.MoreThanOnceIff | src/DataExchangeManager/ExpressExportConnector/Program.cs:272-295 | the message is committed more than once exactly when a COM exception follows a commit and a later machine commits it too |
| ExpressExport.ReturnValueIsRightIff | src/DataExchangeManager/ExpressExportConnector/Program.cs:277-303 | the return value tells what was committed exactly when no exception follows a commit |
| ExpressExport.FailedReportMisleads | src/DataExchangeManager/ExpressExportConnector/Program.cs:277-303 | inputs for which the message is committed twice, and for which a committed message is returned as an error |
| ExpressExport.AllTriedIff | src/DataExchangeManager/ExpressExportConnector/Program.cs:258-294 | when the loop gives up every machine was tried exactly when every name stands before the next place of the starting name |
| ExpressExport.DistinctNamesAreAllTried | src/DataExchangeManager/ExpressExportConnector/Program.cs:217-296 | with distinct names giving up means that every machine was tried once, in list order |
| ExpressExport.RepeatedNameEndsTheRound | src/DataExchangeManager/ExpressExportConnector/Program.cs:288-294 | a list in which a machine is never tried, and one in which all are although the starting name stands twice |
| PDComQueue.PDComMsgQ.ClientDisconnected | src/cpp/PDCom/PDComMsgQ.cpp:34-53 | all items of the client are flagged, the others kept, and the disconnect message is appended |
| PDComQueue.PDComMsgQ.GetMsg | src/cpp/PDCom/PDComMsgQ.cpp:55-68 | takes the first item and its endpoint, or nothing |
| PDComQueue.PDComServer.Unadvise | src/cpp/PDCom/PDComServer.cpp:54-67 | the client's items are flagged and the disconnect message stands last |
| PDComQueue.PDComServer.SendMsg | src/cpp/PDCom/PDComServer.cpp:29-48 | the message is queued with an unflagged endpoint of its client |
| PDComQueue.PDCom.SendMsg | src/cpp/PDCom/PDCom.cpp:79-98 | nothing is sent through a missing or disconnected interface, and an interface that is gone is forgotten |
| PDComQueue.QueueIsFifo | src/cpp/PDCom/PDComMsgQ.cpp:27-68 | in every reachable state messages taken and queued are those added, in order, and disconnect messages stand behind flagged items |
| PDComQueue.ReplyGoesToSender | src/cpp/PDCom/PDComMsgQ.cpp:55-68 | a reply to a message taken goes to the client that sent it, and only if it is not flagged |
| PDComQueue.DisconnectStep | src/cpp/PDCom/PDComMsgQ.cpp:34-50 | what a disconnect flags, keeps and appends |
| PDComQueue.NoReplyIff | src/cpp/PDCom/PDCom.cpp:80 | after a disconnect no run without new messages of the client replies to it exactly when all its messages taken before are flagged |
| PDComQueue.TakenBeforeStillReplies | src/cpp/PDCom/PDComMsgQ.cpp:60-63 | a reply through a message taken before the disconnect is sent |
| RoleCache.LookupsAreFresh | src/ConfigurationSystem/CfgServer.NET/ConfigurationSystemReaderCLIWrapper.cpp:751-797 | every lookup uses one load, completed at most one lifetime before |
| RoleCache.ReloadsIff | src/ConfigurationSystem/CfgServer.NET/ConfigurationSystemReaderCLIWrapper.cpp:751-797 | a lookup loads exactly when the snapshot in use is older than its lifetime or there is none |
| RoleCache.SnapshotIsKept | src/ConfigurationSystem/CfgServer.NET/ConfigurationSystemReaderCLIWrapper.cpp:764-769 | within its lifetime every lookup uses the same snapshot, whatever a load would give |
| RoleCache.LookupsAgree | src/ConfigurationSystem/CfgServer.NET/ConfigurationSystemReaderCLIWrapper.cpp:800-880 | with distinct keys and names the views are inverse, the linear lookup agrees with them, and its -1 tells absent names exactly when no row has that key |
| RoleCache.LinearIsNameView | src/ConfigurationSystem/CfgServer.NET/ConfigurationSystemReaderCLIWrapper.cpp:800-828 | with distinct names the linear lookup gives what the name view gives, whatever the keys |
| RoleCache.LinearIsFirstUsable | src/ConfigurationSystem/CfgServer.NET/ConfigurationSystemReaderCLIWrapper.cpp:800-828 | on any rows the first row of the name without a negative key decides |
| RoleCache.NameViewHoldsRows | src/ConfigurationSystem/CfgServer.NET/ConfigurationSystemReaderCLIWrapper.cpp:857-880 | the name view exists exactly for distinct names and holds the rows |
| RoleCache.KeyViewHoldsRows | src/ConfigurationSystem/CfgServer.NET/ConfigurationSystemReaderCLIWrapper.cpp:831-854 | the key view exists exactly for distinct keys and holds the rows |
| RoleCache.RepeatedNameBreaksTheView | src/ConfigurationSystem/CfgServer.NET/ConfigurationSystemReaderCLIWrapper.cpp:869-871 | with a repeated name the name view throws while the linear lookup answers |
| RoleCache.ConfigurationSystemReader.VerifyCache | src/ConfigurationSystem/CfgServer.NET/ConfigurationSystemReaderCLIWrapper.cpp:751-797 | keeps the cached rows within their lifetime, whatever a load would give, and loads them anew otherwise |
| RoleCache.ConfigurationSystemReader.GetRoleKeyFromCache | src/ConfigurationSystem/CfgServer.NET/ConfigurationSystemReaderCLIWrapper.cpp:800-828 | the linear lookup on the rows in use |
| RoleCache.ConfigurationSystemReader.GetRoleNamesFromCache | src/ConfigurationSystem/CfgServer.NET/ConfigurationSystemReaderCLIWrapper.cpp:857-880 | the name view of the rows in use |
| RunnerResolver.IsAncitraMessageType | src/DataExchangeManager/ImportApplicationManagerLogic/ImportApplicationRunnerResolver.cs:180-195 | reading line by line gives the verdict on the lines of the text |
| RunnerResolver.LinesAreTheSplit | src/DataExchangeManager/ImportApplicationManagerLogic/ImportApplicationRunnerResolver.cs:180-183 | the lines read are the only ones without line ends that, with their line ends, are the text |
| RunnerResolver.ScanSpecification | src/DataExchangeManager/ImportApplicationManagerLogic/ImportApplicationRunnerResolver.cs:183-192 | accepts exactly when the first header line before an empty line carries a listed type, fails exactly when it is too short |
| RunnerResolver.ChoiceByProtocol | src/DataExchangeManager/ImportApplicationManagerLogic/ImportApplicationRunnerResolver.cs:42-109 | the runner for each protocol |
| RunnerResolver.OtherProtocolsAreInvalid | src/DataExchangeManager/ImportApplicationManagerLogic/ImportApplicationRunnerResolver.cs:46-108 | any other protocol is refused |
| RunnerResolver.SpecialCaseBySubAddress | src/DataExchangeManager/ImportApplicationManagerLogic/ImportApplicationRunnerResolver.cs:121-165 | for each sub-address when MSCONS goes to EDKIN |
| RunnerResolver.TrimParts | src/DataExchangeManager/ImportApplicationManagerLogic/ImportApplicationRunnerResolver.cs:111-119 | blanks around a text are taken off, and nothing else |
| RunnerResolver.CaseAndBlanksDoNotMatter | src/DataExchangeManager/ImportApplicationManagerLogic/ImportApplicationRunnerResolver.cs:42-165 | the runner does not depend on case or surrounding blanks of five fields |
| RunnerResolver.PayloadDecidesAncitraOnly | src/DataExchangeManager/ImportApplicationManagerLogic/ImportApplicationRunnerResolver.cs:198-233 | the payload only ever decides for the Ancitra queue, and only a short header line makes the choice fail |
| TxyCodec.PDTXYMsg.RestoreGuts | src/cpp/PDCom/PDTXYMsg.cpp:53-61 | a saved series comes back over memory of any content, also when the message had none: fields, texts up to their terminator, all pairs |
| TxyCodec.PDTXYMsg.SaveGuts | src/cpp/PDCom/PDTXYMsg.cpp:38-43 | the series is appended to the stream, and nothing when there is none |
| TxyCodec.RestorableIffPresent | src/cpp/PDCom/PDTXYMsg.cpp:38-61 | what is saved can be restored on its own exactly when there is a series |
| TxyCodec.TxySeries.RestoreGuts | src/cpp/PDCom/PDTXYMsg.h:49-89 | reading the macro fields over memory of any content gives back the saved series |
| TxyCodec.TxySeries.SaveGuts | src/cpp/PDCom/PDTXYMsg.h:49-89 | the series is written in the order of the macro |
| TxyCodec.HeaderRoundTrip | src/cpp/PDCom/PDTXYMsg.h:49-80 | a saved header restored over memory of any content gives back every field and text |
| TxyCodec.StreamOrder | src/cpp/PDCom/PDTXYMsg.h:49-89 | the stream of a series field by field |
| TxyCodec.CopyThenRead | src/cpp/PDCom/PDBASEMsg.h:61-73 | a text copied into a buffer of any content is read back |
| TxyCodec.PointAt | src/cpp/PDCom/PDTXYMsg.h:83-88 | where the value and status of a point stand in the stream |
| SnowValues.PDHbvSnowValuesMsg.CompareTo | src/cpp/PDCom/PDHbvSnowValuesMsg.cc:178-238 | field by field and value by value is the lexicographic comparison of the fields |
| SnowValues.EqualIffSameContent | src/cpp/PDCom/PDHbvSnowValuesMsg.cc:178-238 | 0 exactly for equal fields and equal values in use |
| SnowValues.FirstFieldDecides | src/cpp/PDCom/PDHbvSnowValuesMsg.cc:184-228 | the first field that differs decides, smaller first |
| SnowValues.FirstValueDecides | src/cpp/PDCom/PDHbvSnowValuesMsg.cc:230-235 | with equal fields the first value that differs decides |
| SnowValues.CompareIsTotalOrder | src/cpp/PDCom/PDHbvSnowValuesMsg.h:54-61 | antisymmetric and transitive, so the comparison operators agree with each other |

## Left out

- Database access, COM marshalling, registry, service installation, logging set-up, option parsing and console output.
- The transports (MSMQ, Azure, AMQP, ICCP, WCF): only whether their steps return is modelled. With distributed transactions the commit takes place when the scope is disposed; the queue is then as after a failed or successful commit, but the exception leaves the call instead of reaching its catch blocks.
- Configuration values that are not templates: only termination, bounds, idempotence and the handling of a stray meta character are proved for them.
- What the express export connector does before its failover loop: arguments, the size limit, reading the message, credentials.
- The machine names of the settings are texts; a missing name counts as an empty one.
- Priorities written as numbers or with blanks, which the enumeration parser also accepts.
- Reloading roles when the load itself throws because an id is repeated: a load gives roles with distinct ids or fails.
- What `Stop` does with a negative timeout, and the rounding of time spans.
- Unpacking messages from and packing them into buffers, posting to the server thread, and the command variant of sending.
- The regular-expression branch of the resolver, and the order of upper-case letters outside ASCII.
- The restore path of snow values, not-a-number values, and the other fixed-size PDCom messages.
- The Azure, ECP and NP auction manager services, whose shutdown repeats the ICCP one.
- Fetching existing auctions and receivers, time zones and daylight saving in the auction requester.
