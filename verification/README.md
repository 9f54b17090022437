# Verified models of the SONiC switch-state common library

The project models the parts of the library that carry state between processes and proves what
they promise over whole runs:

- `Tables.dfy`: rows, tables and the Redis hash commands.
- `Subscriber.dfy`: the table subscriber that takes a snapshot and then follows keyspace events,
  under every interleaving of other clients' writes; it converges exactly when the table name is
  free of the separator.
- `Codec.dfy`, `Serializer.dfy`, `Decimal.dfy`: the byte format of the ZeroMQ path, its round trip
  with the exact condition, and the buffer-writing and buffer-reading loops.
- `ZmqConsumer.dfy`, `ZmqServer.dfy`, `Mirror.dfy`: the queue shared by the receiving and the
  popping thread (no lost wake-up, and draining), the handler registry, the one-to-one
  request/reply handshake, and the background writers that mirror operations into a table, with
  the exact conditions under which they miss a wake-up or leave too early.
- `ProducerScripts.dfy`, `ProducerState.dfy`, `ViewSwitch.dfy`, `ProducerTable.dfy`: the producer's
  Lua scripts and argument vectors, the meaning of the pending state, and the temporary view.
- `Pipeline.dfy`: deferred replies and one publish per flush; no write stays unannounced.
- `ConsumerState.dfy`, `Delivery.dfy`: the loop that counts the pending keys while it subscribes, one
  bounded pop per notification, and that no key is stranded, also together with the pipeline.
- `Select.dfy`: the scheduler over priorities and last-used times; bounded waiting and conservation
  of notifications.
- `Events.dfy`: 32-bit event numbers, duplicates, missed-event accounting and the bounded tracking
  map.
- `DedupQueue.dfy`: the list with an iterator index that keeps a payload once, against keep-last.
- `ConfigDb.dfy`, `ConfigConnector.dfy`, `ConfigRestore.dfy`: the configuration connectors, one
  command at a time and over transactions.

Protocols between threads or processes are state machines whose steps are the locked regions or
the single commands of the source; theorems range over every sequence of enabled steps. Objects
that change their fields are classes, and each method is tied to a function on values about which
the theorems speak. What other clients or threads do during a call, the replies of the server, the
clock and the batches of a SCAN are parameters.

Where a promise needs a condition, the condition is proved exact and a lemma shows a run without it:
a separator in a table name (`ChannelNamesKey`, `SeparatorBreaksConvergence`), the colon that the
dump script assumes (`SeparatorExact`), a placeholder field (`ViewSwitched`, `PlaceholderStays`), the
empty key in a batch (`BatchedSetExact`, `EmptyKeyIsLost`, `EmptyKeyNeverDelivered`), shared handler
names (`StaysReachable`, `SharedNamesDeafen`), a request without a handler (`GoesOnExact`,
`NoHandlerStops`), a call between the writer's count and its wait (`WriterExact`, `WakeUpMissed`,
`DestructorHangs`, `LastWriteLost`), a publish for more keys than a pop takes (`BatchExact`,
`OneBatchStrands`), a length that wraps (`AccessExact`, `LengthWraps`), equal last-used times
(`ReadyExact`, `SameTimesLoseReadiness`), a control event after a gap (`CountExact`, `GapReportedTwice`), a delete
and a set that coalesce (`DeliveryExact`, `DelThenSetMisleads`), table names that differ only in case
(`ModConfigExact`, `SpellingsDiffer`), an unexpected reply (`FlushExact`, `ErrorSilences`,
`PublishesExact`, `LostRegistration`).

Where the source's comments and its code disagree the model follows the code: modifying a
configuration entry with no data deletes it (the comment at common/configdb.cpp:101 says that it
creates an entry with no column), and the background writer does not look at its queue again before
it leaves (the comment at common/asyncdbupdater.cpp:71 says that it does).

## Model

| member | source | states |
|---|---|---|
| Subscriber.ChannelNamesKey | common/subscriberstatetable.cpp:125-140 | the key parsed from an event's channel is the row's key if and only if the table name has no separator |
| Subscriber.HandleEventInv | common/subscriberstatetable.cpp:106-160 | re-reading the current row for an event keeps view and database in step, up to outstanding events |
| Subscriber.DrainEventsInv | common/subscriberstatetable.cpp:95-165 | the event loop keeps that whatever is written between its commands, and leaves no buffered event |
| Subscriber.ConstructedInv | common/subscriberstatetable.cpp:17-43 | subscribing first and listing keys second establishes it, whatever is written between the commands |
| Subscriber.RunInv | common/subscriberstatetable.cpp:45-165 | every interleaving of reads, pops and outside writes keeps it |
| Subscriber.Convergence | common/subscriberstatetable.cpp:17-165 | for every run, once nothing is outstanding, replaying the delivered operations gives exactly the table in the database |
| Subscriber.CatchUp | common/subscriberstatetable.cpp:45-165 | from every reachable state a few calls drain everything, and the view is then current |
| Subscriber.SeparatorBreaksConvergence | common/subscriberstatetable.cpp:133-140 | for every table name with a separator some drained run has a row the consumer never got |
| Subscriber.EmptyKeyNeverDelivered | common/table.h:73-77 | over every database and run in which the hash of the table's own name stays untouched, no row is ever delivered under the empty key |
| Subscriber.SubscriberStateTable.constructor | common/subscriberstatetable.cpp:17-43 | the object starts in the modelled snapshot state |
| Subscriber.SubscriberStateTable.LoadSnapshot | common/subscriberstatetable.cpp:29-42 | listed rows that still exist are buffered as SET, in order |
| Subscriber.SubscriberStateTable.ReadData | common/subscriberstatetable.cpp:45-83 | the replies received move to the event buffer in order, also when the reader then fails |
| Subscriber.SubscriberStateTable.PopEventBuffer | common/subscriberstatetable.cpp:167-178 | first event out, or none |
| Subscriber.SubscriberStateTable.Drain | common/subscriberstatetable.cpp:106-164 | one operation list for all buffered events |
| Subscriber.SubscriberStateTable.Pops | common/subscriberstatetable.cpp:95-165 | the whole buffer, or the operations of all buffered events |
| Subscriber.SubscriberStateTable.Pop | common/consumertablebase.cpp:22-44 | one operation, refilling through pops; none if there is none |
| Decimal.StoiToString | common/binaryserializer.h:152-156 | reading a written count gives it back exactly when it fits an int |
| Codec.RoundTrip | common/binaryserializer.h:36-171 | decoding any buffer that starts with an encoded message: rejected below its size, rejected for a count beyond an int, otherwise every value back, SET or DEL by having fields |
| Codec.RoundTripExact | common/binaryserializer.h:123-171 | the message comes back unchanged if and only if each request is SET with fields or DEL without and every count fits an int |
| Codec.NormalisedFixed | common/binaryserializer.h:149-169 | the tags survive exactly for SET with fields and DEL without |
| Codec.AssembleRequests | common/binaryserializer.h:137-170 | the pair list is regrouped into its requests, and a count beyond an int is refused |
| Codec.DecodeBufferAt | common/binaryserializer.h:73-121 | the pairs are read back, or the buffer is rejected when it is declared shorter |
| Codec.AccessExact | common/binaryserializer.h:73-171 | with memory going on behind the message, decoding any bytes leaves the memory if and only if it comes to a length word whose sum wraps to within the declared size |
| Codec.LengthWraps | common/binaryserializer.h:94 | a length word of 2^64 - 16 behind the count is such a one, whatever follows |
| Serializer.SerializedSize | common/binaryserializer.h:16-34 | the predicted size is the encoded length |
| Serializer.SerializeBuffer | common/binaryserializer.h:36-71 | it succeeds if and only if the encoding fits, returns its length, writes exactly it and nothing behind it |
| Serializer.BinarySerializer.constructor | common/binaryserializer.h:179-189 | the cursor starts behind the count |
| Serializer.BinarySerializer.SetData | common/binaryserializer.h:213-233 | length and data are written if there is room, otherwise nothing |
| Serializer.BinarySerializer.SetKeyAndValue | common/binaryserializer.h:191-198 | a pair is written and counted if it fits |
| Serializer.BinarySerializer.FinishCount | common/binaryserializer.h:200-211 | the count goes to the front and the length is returned |
| Serializer.DeserializePairs | common/binaryserializer.h:73-121 | on any bytes and declared size, exactly the decoding function, errors included |
| Serializer.DeserializeBuffer | common/binaryserializer.h:123-171 | on any bytes and declared size, exactly the message decoding function |
| ZmqConsumer.DoInv | common/zmqconsumerstatetable.cpp:64-122 | every atomic step of either thread keeps the wake-up and ordering invariant |
| ZmqConsumer.NoLostWakeUp | common/zmqconsumerstatetable.cpp:64-122 | in every interleaving, queued work while both threads rest is signalled, and popped then queued is what was received, in order |
| ZmqConsumer.WakeUp | common/selectableevent.cpp:43-80 | one wake-up clears the event, pops one batch and signals again if more is left |
| ZmqConsumer.WakeUpsDrain | common/zmqconsumerstatetable.cpp:89-122 | with nothing arriving, k wake-ups empty any queue of at most k batches |
| ZmqConsumer.ReceivedRun | common/zmqconsumerstatetable.cpp:64-86 | a whole handleReceivedData is a run of the atomic steps |
| ZmqConsumer.PopsRun | common/zmqconsumerstatetable.cpp:89-122 | a whole pops, with messages arriving between its items, is a run of the atomic steps |
| ZmqConsumer.ZmqConsumerStateTable.constructor | common/zmqconsumerstatetable.cpp:20-51 | starts in the initial state with the effective batch size, registered for its names |
| ZmqConsumer.ZmqConsumerStateTable.Detach | common/zmqconsumerstatetable.cpp:53-62 | the destructor takes its names out of the registry |
| ZmqConsumer.ZmqConsumerStateTable.HandleReceivedData | common/zmqconsumerstatetable.cpp:64-86 | all operations reach both queues in order with one signal, as ReceivedRun's state says |
| ZmqConsumer.ZmqConsumerStateTable.ReadData | common/selectableevent.cpp:43-60 | the step that reads the event |
| ZmqConsumer.ZmqConsumerStateTable.Pops | common/zmqconsumerstatetable.cpp:89-122 | the first batch in order, the rest kept with what arrives, a signal when more was counted, as PopsRun's state says |
| Mirror.RunInv | common/asyncdbupdater.cpp:36-122 | in every interleaving the table is what was written, and written then queued is what was submitted |
| Mirror.WriterExact | common/asyncdbupdater.cpp:26-122 | over every interleaving the thread never waits with work nor leaves work unwritten if and only if each wait begins with nothing to do or a notification to come, and each exit with an empty queue |
| Mirror.AllWritten | common/asyncdbupdater.cpp:26-122 | in every run that is in time, at rest everything submitted is in the table, and after the destructor the thread has left |
| Mirror.WakeUpMissed | common/asyncdbupdater.cpp:66-82 | from every such state an operation queued and notified before the thread waits stays unwritten until another call |
| Mirror.DestructorHangs | common/asyncdbupdater.cpp:26-34 | from every such state a stop notified before the thread waits leaves the destructor waiting for ever |
| Mirror.LastWriteLost | common/asyncdbupdater.cpp:66-77 | from every state with nothing queued, an operation queued before the destructor, between count and flag, is never written |
| Mirror.NormalisedMeaning | common/binaryserializer.h:149-169 | encoding and decoding keeps an operation's effect on every table if and only if it is a SET or a DEL without fields |
| Mirror.MirrorsAgree | common/zmqproducerstatetable.cpp:53-165 | the producer's and the consumer's mirror hold equal tables once drained, each in its own interleaving |
| Mirror.AsyncDBUpdater.constructor | common/asyncdbupdater.cpp:16-24 | starts with an empty queue |
| Mirror.AsyncDBUpdater.Update | common/asyncdbupdater.cpp:36-44 | the operation is queued last |
| Mirror.AsyncDBUpdater.WriteToTable | common/asyncdbupdater.cpp:92-115 | SET replaces the row, DEL removes it |
| Mirror.AsyncDBUpdater.UpdateBatch | common/asyncdbupdater.cpp:90-121 | all operations counted at the start of the loop are written in order and taken off while others arrive |
| Mirror.AsyncDBUpdater.Turn | common/asyncdbupdater.cpp:66-122 | one turn: the exit or the wait by the flag when nothing was counted, whatever is queued meanwhile, or the batch |
| HandlerRegistry.FindRegistered | common/zmqserver.cpp:15-32 | registering acts on one name pair, and the first registration wins |
| HandlerRegistry.FindRemoved | common/zmqserver.cpp:34-56 | removing acts on one name pair and leaves no empty inner map |
| HandlerRegistry.RunInv | common/zmqserver.cpp:15-82 | in every interleaving each registered handler is alive, nothing runs in a removed one, and no database maps to nothing |
| HandlerRegistry.ReachableExact | common/zmqserver.cpp:15-56 | a step keeps every listener reachable if and only if it is no registration under the names of a listening handler |
| HandlerRegistry.StaysReachable | common/zmqserver.cpp:15-82 | in every run every listener stays reachable throughout if and only if no handler registers under the names of a listening one |
| HandlerRegistry.SharedNamesDeafen | common/zmqconsumerstatetable.cpp:48-62 | a second handler with the same names takes the first one's entry away when it goes |
| HandlerRegistry.ZmqHandlerRegistry.RegisterHandler | common/zmqserver.cpp:15-32 | the map after registering |
| HandlerRegistry.ZmqHandlerRegistry.RemoveHandler | common/zmqserver.cpp:34-56 | the map after removing |
| HandlerRegistry.ZmqHandlerRegistry.Dispatch | common/zmqserver.cpp:58-82 | the handler a message goes to, or none |
| Handshake.RunInv | common/zmqserver.cpp:245-380 | every interleaving of the polling and the sending thread with registrations, failing sends, throwing receives and requests without a handler keeps the handshake invariant |
| Handshake.OneToOne | common/zmqserver.cpp:245-380 | a request is received only after the previous reply was sent, the shared buffer has one user, and the pair stops for good if and only if the polling thread threw, or waits for a request whose send failed or that had no handler |
| Handshake.GoesOnExact | common/zmqserver.cpp:245-380 | in every run nothing has gone wrong if and only if each request found a handler when dispatched and nothing threw |
| Handshake.NothingMore | common/zmqserver.cpp:245-380 | after a throw or a request without a handler nothing more is received or sent in any continuation |
| Handshake.NoHandlerStops | common/zmqserver.cpp:58-82 | from every state about to receive, a request for names without a handler stops the pair with no send failed |
| ProducerScripts.HashNames | common/table.h:73-77 | single and batched forms name the same hash if and only if the key is not empty |
| ProducerScripts.SetScript | common/producerstatetable.cpp:72-76 | the set script with the assembled arguments adds the key and writes every field |
| ProducerScripts.DelScript | common/producerstatetable.cpp:78-81 | the delete script marks the key and drops its pending hash |
| ProducerScripts.ReadGroup | common/producerstatetable.cpp:83-94 | the index walk recovers a field list from the flattened arguments |
| ProducerScripts.BatchedSetScript | common/producerstatetable.cpp:83-94 | the index walk carries out every set of the batch in order under the prefixed names, whatever the keys |
| ProducerScripts.BatchedDelScript | common/producerstatetable.cpp:96-102 | the same for deletes |
| ProducerScripts.BatchedSetExact | common/producerstatetable.cpp:203-250 | a batch leaves the sets and hashes of its single operations on every database if and only if none of them writes fields under the empty key |
| ProducerScripts.BatchedDelExact | common/producerstatetable.cpp:252-287 | a batched delete equals its single deletes on every database if and only if the empty key is not among them |
| ProducerScripts.BatchPublishes | common/producerstatetable.cpp:104-114 | a batched set publishes if and only if one of the single sets would |
| ProducerScripts.BatchedDelPublishes | common/producerstatetable.cpp:104-114 | a batched delete publishes if and only if one of the single deletes would |
| ProducerState.SetMeans | common/producerstatetable.cpp:72-76 | a set merges its fields into what the key stands for, and changes no other key; under the empty key it changes none |
| ProducerState.DelMeans | common/producerstatetable.cpp:78-81 | a delete makes a non-empty key stand for no row, and changes no other key |
| ProducerState.PopLoopMeans | common/consumer_state_table_pops.lua:5-22 | popping any keys changes what no key stands for |
| ProducerState.NothingPending | common/producerstatetable.cpp:306-322 | with nothing pending, as after a clear, the table stands for itself, which is where every run may start |
| ProducerState.CoalescingPreservesMeaning | common/producerstatetable.cpp:72-201 | for every run of sets, deletes and pops of any keys, table plus pending state is, for every non-empty key, the table of replaying every operation; delete set and pending hashes stay inside the key set |
| ProducerState.PoppedDry | common/consumer_state_table_pops.lua:1-23 | with nothing pending the table itself is the replayed table |
| ProducerState.EmptyKeyIsLost | common/consumer_state_table_pops.lua:15-21 | a set under the empty key is never popped into the table |
| ProducerState.DeliveryExact | common/consumerstatetable.cpp:36-94 | over every run a consumer's copy holds the table's row after each pop if and only if every popped key hides no removed field and no empty set at its pop, and then it is the table |
| ProducerState.DelThenSetMisleads | common/consumerstatetable.cpp:84-92 | from every database, a delete and a set of another field popped together leave the copy with a field that the table has lost |
| ViewSwitch.DiffGivesTarget | common/producerstatetable.cpp:364-428 | deleting keysToDel and merging the rest gives exactly the target, and only differing keys are touched |
| ViewSwitch.CompareRow | common/producerstatetable.cpp:384-405 | whether a row loses a field and whether it differs at all |
| ViewSwitch.CompareExisting | common/producerstatetable.cpp:371-419 | the keys to set and to delete among existing rows, and the rows left to write |
| ViewSwitch.ComputeDiff | common/producerstatetable.cpp:364-428 | keysToSet holds exactly the differing keys once, keysToDel exactly those that lose a field |
| ViewSwitch.ApplyViewScript | common/producer_state_table_apply_view.lua:24-39 | the script's index walks recover exactly what was packed |
| ViewSwitch.ClearParts | common/producerstatetable.cpp:306-322 | clearing drops everything pending and no row |
| ViewSwitch.SwitchRow | common/producerstatetable.cpp:334-481 | for every separator, what each row stands for after the switch, and exactly when that is the view's row |
| ViewSwitch.ViewSwitched | common/table.cpp:223-265 | with the colon as separator each row stands for the view's if and only if no placeholder field is left over, and always apart from that field |
| ViewSwitch.SwitchMeans | common/producerstatetable.cpp:334-481 | the pending state stands for the whole view if and only if each row reaches it |
| ViewSwitch.ViewReachesTable | common/producerstatetable.cpp:334-481 | after a switch that gives the view and any later run that is popped dry the table is the view with the later operations applied |
| ViewSwitch.SeparatorExact | common/table_dump.lua:1 | without placeholder fields every switch gives its view if and only if the separator is the colon that the dump script assumes |
| ViewSwitch.OtherSeparatorKeeps | common/table_dump.lua:1 | with any other separator a stored row survives a switch to the empty view |
| ViewSwitch.PlaceholderStays | common/table.cpp:247-258 | a row with only the placeholder field keeps it when the view gives it another |
| ProducerTable.BatchArguments | common/producerstatetable.cpp:203-240 | the KEYS and ARGV a batched set sends |
| ProducerTable.ProducerStateTable.Set | common/producerstatetable.cpp:129-168 | a set changes only the open view or only the pending state |
| ProducerTable.ProducerStateTable.Delete | common/producerstatetable.cpp:170-201 | a delete changes only the open view or only the pending state |
| ProducerTable.ProducerStateTable.SetBatch | common/producerstatetable.cpp:203-250 | the view collects every set, or the pending state becomes that of the batch, which is that of the single sets unless one writes fields under the empty key |
| ProducerTable.ProducerStateTable.DeleteBatch | common/producerstatetable.cpp:252-287 | the view loses every key, or the pending state becomes that of the batch, which is that of the single deletes unless the empty key is among them |
| ProducerTable.ProducerStateTable.CreateTempView | common/producerstatetable.cpp:324-332 | an empty view is opened |
| ProducerTable.ProducerStateTable.ApplyTempView | common/producerstatetable.cpp:334-481 | fails without a view, otherwise queues the least difference and closes the view |
| Pipeline.FlushCovered | common/redispipeline.h:139-154 | a flush leaves nothing outstanding and no channel silent |
| Pipeline.ReloadCovered | common/producerstatetable.cpp:57-121 | switching buffering keeps every unannounced write covered by a flush |
| Pipeline.NoSilentWrite | common/redispipeline.h:69-223 | over every run of any number of producers, single and batched writes, with replies as expected, an empty pipeline means every entered key was published; each reply meets its own command's type; fewer than COMMAND_MAX are outstanding |
| Pipeline.SilentMeans | common/redispipeline.h:196-205 | a channel is silent if and only if a key entered after its last publish |
| Pipeline.PopAllExact | common/redispipeline.h:116-151 | reading all replies succeeds if and only if each is as its command expects |
| Pipeline.FlushExact | common/redispipeline.h:139-154 | a flush publishes every loaded channel if and only if all outstanding replies are as expected, and otherwise none |
| Pipeline.WriteThenFlush | common/redispipeline.h:69-154 | in every state with an empty pipeline, a write that leaves publishing to the flush is announced by it if and only if its reply is as expected and its channel is one that flushes publish |
| Pipeline.PublishesExact | common/redispipeline.h:181-189 | over every run with any replies, flushes publish every registered channel throughout if and only if no new channel is registered while an outstanding reply is not as expected |
| Pipeline.AnnouncedExact | common/redispipeline.h:69-189 | after every such run, whatever the other replies, a write is announced if and only if its own reply is as expected |
| Pipeline.LostRegistration | common/redispipeline.h:181-189 | a run from the start in which an unrelated error reply makes a registration fail, and every later write on the channel with replies as expected goes unannounced |
| Pipeline.ErrorSilences | common/redispipeline.h:116-154 | a run from the start whose error reply leaves an empty pipeline with an unannounced write |
| Pipeline.RedisPipeline.PopReply | common/redispipeline.h:116-137 | one reply is checked against its own command's type, and a status also for its text |
| Pipeline.RedisPipeline.FlushReplies | common/redispipeline.h:139-154 | all replies are read, then the channels are published |
| Pipeline.RedisPipeline.PushCommand | common/redispipeline.h:69-96 | a deferred command joins the queue and the pipeline flushes when it is full; any other flushes and is carried out at once |
| Pipeline.RedisPipeline.RegisterChannel | common/redispipeline.h:181-189 | a new channel is added to the publish script once |
| ConsumerState.InitialLengthExact | common/consumerstatetable.cpp:21-33 | in every interleaving, when the loop ends there is one notification for each pending key, none twice, and one for each flush since the subscription |
| ConsumerState.NoKeyLeftBehind | common/consumerstatetable.cpp:15-60 | over every run, keys entering before, while or after the consumer subscribes are all counted or announced, as long as no publish announces more than one pop takes |
| ConsumerState.DrainsExact | common/consumer_state_table_pops.lua:5 | the notifications in hand empty the key set if and only if there is one for every POP_BATCH_SIZE keys |
| ConsumerState.OneBatchStrands | common/consumerstatetable.cpp:36-49 | one publish for more keys than a pop takes strands exactly the rest |
| ConsumerState.BatchExact | common/consumerstatetable.cpp:15-60 | no run strands a key if and only if no publish announces more keys than one pop takes |
| ConsumerState.TurnRun | common/consumerstatetable.cpp:23-29 | one turn of the loop, with others acting between its commands, is a run of the state machine |
| ConsumerState.ConsumerStateTable.constructor | common/consumerstatetable.cpp:15-34 | the loop ends in the state of all its turns, with the exact queue length |
| ConsumerState.ConsumerStateTable.Turn | common/consumerstatetable.cpp:23-30 | watch, subscribe and exec: the count, or nothing if the set was changed |
| Delivery.FlushesFit | common/redispipeline.h:69-223 | over every run of single writes with replies as expected no publish announces more than COMMAND_MAX keys |
| Delivery.SingleWritesDelivered | common/consumerstatetable.cpp:15-60 | such producers and a consumer that pops at least COMMAND_MAX keys at a time never strand a key, in every run of both |
| Select.TakeOrder | common/select.cpp:137-162 | the returned object is the least recently used of the highest ready priority that has data; none exactly when no ready object has; the rest stay |
| Select.InsertExact | common/select.h:47-67 | an insertion keeps order and elements, and its object is in the set afterwards if and only if no other has its priority and time |
| Select.EraseExact | common/select.h:47-67 | an erasure takes out exactly what has the given priority and time |
| Select.PollProgress | common/select.cpp:121-162 | a poll that passes a ready object over shortens the list of those ahead of it |
| Select.BoundedWaiting | common/select.h:47-67 | with n objects of a priority and none higher being returned, a ready one is returned or found empty within n object-returning selects |
| Select.NotificationConservation | common/redisselect.cpp:25-73 | over every run, with objects made and time passing at any moment and with failing reads, an object was returned initial length plus read minus left times, and is ready only while it has data if it started non-negative |
| Select.StepReady | common/select.cpp:35-165 | an operation leaves every object with data ready if and only if the places it needs are free |
| Select.ReadyExact | common/select.cpp:35-165 | over every run every object with data is ready between calls if and only if no insertion or removal meets another object of the same priority and time and no failing read gives data to an object that is not ready |
| Select.DistinctReady | common/select.cpp:35-165 | with distinct times and no read errors an object that started non-negative is ready exactly while it has data |
| Select.SameTimesLoseReadiness | common/select.h:47-67 | for every two objects of one priority and time, while one is ready a notification does not make the other ready |
| Select.NegativeStartSwallows | common/redisselect.cpp:11 | after a read an object has data if and only if the notifications make up for its length, so the default of -1 swallows the first |
| Select.Selector.constructor | common/select.cpp:18-28 | starts empty, in the invariant of every run |
| Select.Selector.AddSelectable | common/select.cpp:35-65 | a new object is registered, and ready if it starts with data; a known one is ignored |
| Select.Selector.RemoveSelectable | common/select.cpp:67-82 | the object leaves the registry, and what is equivalent to it leaves the ready set |
| Select.Selector.ReadData | common/redisselect.cpp:25-53 | the length grows by the notifications read, whether the reader then runs dry or fails |
| Select.Selector.ReadEvents | common/select.cpp:121-135 | every reported object is read and inserted into the ready set |
| Select.Selector.TakeReady | common/select.cpp:137-164 | the pass over the ready set |
| Select.Selector.PollDescriptors | common/select.cpp:92-165 | result code, object and state for a signal, an error, a failing read, or reported descriptors |
| Select.Selector.SelectObject | common/select.cpp:167-187 | a poll without waiting decides, and only a timeout with waiting allowed leads to a second one |
| Events.RolloverAgrees | common/events.cpp:507-515 | the branch for sequence 0 agrees with the general one |
| Events.GapExact | common/events.cpp:507-515 | the wrapped difference is the true one if and only if the index lies in a window of 2^32 around the last accepted |
| Events.PruneKeepsNewest | common/events.cpp:397-415 | a prune leaves at most the limit, and all it removes is strictly older than all it keeps |
| Events.TrackBounded | common/events.cpp:525-548 | over every run the map has at most MAX_PUBLISHERS_COUNT + 11 entries |
| Events.MissedConservation | common/events.cpp:502-557 | for a publisher that stays tracked, events returned plus misses reported are the advance of its counter plus the gaps reported at control events; indices are returned in increasing order |
| Events.IncreasingDistinct | common/events.cpp:531-533 | no index is returned twice |
| Events.ControlsExact | common/events.cpp:502-557 | a control event reports no gap if and only if it is a repeat or the very next index, on the arrivals alone |
| Events.CountExact | common/events.cpp:534-557 | the count equals the advance if and only if every control event arrives in that order |
| Events.GapReportedTwice | common/events.cpp:550-557 | a gap before a control event is reported again with the next event |
| Events.CallsLog | common/events.cpp:467-565 | any number of calls consumes a prefix of the stream, returns its events in order and reports its misses modulo 2^32 |
| Events.ReceiveWaits | common/events.cpp:467-565 | a call depends on nothing behind what makes it return, and one that waits goes on as over the longer stream |
| Events.ReportedConservation | common/events.cpp:467-565 | events returned plus counts reported are the advance of all publishers' counters, modulo 2^32 |
| Events.EventPublisher.SendEvent | common/events.cpp:139-164 | the n-th event carries n modulo 2^32 |
| Events.EventSubscriber.Next | common/events.cpp:477-500 | the cache is read to its end, then the channel, as one stream |
| Events.EventSubscriber.HandleMessage | common/events.cpp:502-557 | duplicate, control or data, with its misses and the new map |
| Events.EventSubscriber.EventReceive | common/events.cpp:467-565 | the call over the stream: map, rest, misses, code and event |
| Events.EventSubscriber.PruneTrack | common/events.cpp:397-415 | kept are exactly the publishers that, with all touched no earlier, fit the limit |
| DedupQueue.KeepLastPush | common/notificationconsumer.cpp:339-349 | moving a payload to the tail is keep-last of one more push |
| DedupQueue.PopKept | common/notificationconsumer.h:133-140 | a pop leaves keep-last of the pushes behind the head's last push |
| DedupQueue.RunInv | common/notificationconsumer.cpp:339-372 | at every point of every run the contents are keep-last of the pushes behind the cut, depth is pushed minus hits minus pops, the watermark is the greatest depth, and no payload is lost |
| DedupQueue.DedupExact | common/notificationconsumer.h:84-106 | the end state of every run is that of handling every push if and only if the handler is end-state-idempotent |
| DedupQueue.LruDedupNotificationQueue.Push | common/notificationconsumer.cpp:339-372 | contents and counters after a push, with the index matching the list exactly |
| DedupQueue.LruDedupNotificationQueue.Relink | common/notificationconsumer.cpp:342-349 | the payload's node goes to the tail and the index follows |
| DedupQueue.LruDedupNotificationQueue.Front | common/notificationconsumer.h:128-131 | the head's payload |
| DedupQueue.LruDedupNotificationQueue.Pop | common/notificationconsumer.h:133-140 | the head goes, and its index entry with it |
| ConfigDb.StaleFields | common/configdb.cpp:302-310 | emptying a table that misses a key leaves exactly the fields written before it and not touched since |
| ConfigDb.ModConfigAt | common/configdb.cpp:216-234 | what the sequential form does to each key |
| ConfigDb.ConfigCommandsAt | common/configdb.cpp:403-425 | what the transaction does to each key |
| ConfigDb.ModConfigExact | common/configdb.cpp:403-425 | the transaction ends in the sequential form's database if and only if no key outside it keeps such a field |
| ConfigDb.ModConfigAgrees | common/configdb.cpp:216-234 | they agree for table names free of the separator and distinct after upper-casing, for every batching |
| ConfigDb.SpellingsDiffer | common/configdb.cpp:403-425 | two spellings of one name make them differ |
| ConfigConnector.ConfigEntry | common/configdb.cpp:480-494 | the configuration holds exactly the keys with a separator, each under its table and row |
| ConfigConnector.KeyWhole | common/configdb.cpp:457-464 | a table and a row name make one key and come apart again |
| ConfigConnector.ReplyKinds | common/redistran.cpp:43-54 | every reply of a transaction has its own command's type |
| ConfigConnector.RedisTransactioner.Multi | common/redistran.cpp:16-21 | nothing queued, nothing expected |
| ConfigConnector.RedisTransactioner.Enqueue | common/redistran.cpp:74-79 | the command is queued with its expected type |
| ConfigConnector.RedisTransactioner.Exec | common/redistran.cpp:24-64 | the commands take effect in order and their replies are kept in order if all types match, otherwise none; a refused transaction changes neither database nor replies |
| ConfigConnector.RedisTransactioner.DequeueReply | common/redistran.cpp:81-90 | first reply out, or none |
| ConfigConnector.ConfigDBConnector.SetEntry | common/configdb.cpp:72-94 | the row becomes exactly the given data |
| ConfigConnector.ConfigDBConnector.ModifyEntry | common/configdb.cpp:103-115 | fields are overlaid; no data deletes the row |
| ConfigConnector.ConfigDBConnector.EmptyTable | common/configdb.cpp:196-205 | every key of the table goes |
| ConfigConnector.ConfigDBConnector.ModifyConfig | common/configdb.cpp:216-234 | the tables are modified in order |
| ConfigConnector.ConfigDBConnector.GetConfig | common/dbconnector.cpp:1063-1084 | the whole configuration |
| ConfigConnector.ConfigDBPipeConnector.DeleteEntries | common/configdb.cpp:281-294 | one DEL for each key of a batch |
| ConfigConnector.ConfigDBPipeConnector.EmptyTable | common/configdb.cpp:302-310 | one DEL for each key of every batch |
| ConfigConnector.ConfigDBPipeConnector.ModifyConfig | common/configdb.cpp:403-425 | one transaction; the sequential result for distinct table names |
| ConfigConnector.ConfigDBPipeConnector.SetEntry | common/configdb.cpp:319-367 | the row becomes exactly the given data, in one transaction |
| ConfigConnector.ConfigDBPipeConnector.GetBatch | common/configdb.cpp:436-478 | each reply of a batch lands under its own key |
| ConfigConnector.ConfigDBPipeConnector.GetConfig | common/configdb.cpp:480-494 | for every batching that returns each key at least once, the whole configuration as the sequential form reads it |
| ConfigRestore.RestoreExact | common/configdb.cpp:216-248 | writing what was read into an empty database restores it if and only if every key names a table in upper case |

## Left out

- Key expiry and '@' stripping in Table, and events other than those of HSET, HDEL and DEL.
- The order of fields in an HGETALL reply: rows are maps.
- Glob characters in table names: KEYS and SCAN match a prefix.
- The effect of a clear on other tables whose name starts with this table's name.
- hiredis, ZeroMQ, epoll and eventfd: replies are ordered queues, an eventfd is a counter, readiness is a list of descriptors.
- Data races inside the locked regions: threads interleave at the granularity of those regions.
- Lost connections: after a failing read the calls that follow on that connection are not modelled.
- SCRIPT LOAD failing: the pipeline's scripts load once it has been flushed.
- The plain first-in first-out notification queue, IP and MAC address types, tokenizing, converters, JSON, logging, timers, the C, Python and Rust bindings: easy members next to the protocols.
- Spurious wake-ups of the background writer's condition variable, and calls on it once its destructor has begun.
- The destructor of the ZeroMQ server, which also lets the polling thread go on; an exception there is the end of that thread.
- Two equal readings of the steady clock by two touches within one Select: each touch reads a later time, while objects may be made at any moment and with equal times.
- A table separator of '_', with which the names of a table's sets are names of rows.
- Several consumers on one key set as peers: another consumer's pops are keys that go away.
- Events.EventSubscriber.EventReceive: the method returns when its stream is exhausted, as with a receive timeout; a call without one goes on as ReceiveWaits says.
