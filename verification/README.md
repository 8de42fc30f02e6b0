# pipeline-gnmi in Dafny

A model, with proofs, of the parts of the pipeline telemetry collector that carry its
hard guarantees: the metrics compiler and the walk that turns telemetry into points, the
conversion of key/value telemetry into a tree, the streaming telemetry framing with its
archive and replay, protocol buffer messages as JSON, and the protocols by which
goroutines share state.

`dafny verify dfyconfig.toml` checks everything.

| file | what it models |
|---|---|
| `MetricsSpec.dfy` | the operator's specification tree, compiled in place into maps by type and qualified names |
| `MetricsWalk.dfy` | telemetry fields; the walk over one message as a function of specification and fields |
| `MetricsProduce.dfy` | the walk as it is carried out: maps, early exit, tag slices that share an array |
| `MetricsNaive.dfy` | a walk that searches the raw specification; the two make the same calls |
| `MetricsInflux.dfy` | the calls folded into points |
| `SockDrawer.dfy` | key/value telemetry as a tree for JSON and templates |
| `EncapSt.dfy` | the header, the parser, a TCP connection, a datagram |
| `EncapFrames.dfy` | what is on the wire, without reference to the parser |
| `Archive.dfy` | the raw tap and the replay input |
| `JsonPb.dfy`, `JsonPbRoundTrip.dfy` | marshalling and unmarshalling, and what comes back |
| `JsonPbNames.dfy` | what becomes of fields that share a name |
| `JsonPbShows.dfy`, `JsonPbReads.dfy` | what is written and what is read, each without reference to the other |
| `Duration.dfy`, `DecimalText.dfy` | the text of durations and integers |
| `Router.dfy` | round robin over workers with congestion |
| `GrpcOut.dfy` | the table of clients of the gRPC output |
| `DecodeCache.dfy` | the two caches that check, lock and check again |
| `StatTable.dfy` | sensor statistics and their eviction |
| `KafkaConsumer.dfy` | the Kafka input's loop |
| `GnmiPath.dfy` | gNMI paths as text, and the selector filter |

Code that updates objects is classes and methods proved against specification functions.
Where goroutines interleave, the model is a state machine with one step for every point at
which they can: invariants are shown to be kept by every step, and theorems are about
every run. A Go panic is a result (`None`, or a `panicked` flag), not a precondition.

Several predicates are written as `forall now :: PHere(.., now)` with `PHere` guarded by
`now`. That is a plain conjunction; the form only keeps the definition folded until a proof
names it.

Where a writer and a reader, or a method and its specification function, could be wrong
together, a law fixes each by itself: bytes and digits by position, sub-sequences by index
(`Picks` in `Common.dfy`), maps by the last entry of a key, limits as plain numbers.

## What does not hold, and exactly when it does

- Tags: the early exit of the tag pass loses a tag when a tag name repeats
  (`RepeatedTagLosesOne`); it loses nothing if and only if no tag with a value lies beyond
  the cut (`EarlyExitExact`).
- Trees: a field called like another one with the `_PIPELINE_EDIT` suffix can make a value
  disappear or the conversion panic (`CollisionExamples`); the result is the grouping if and
  only if no field collides (`ConvertsExactly`).
- Archives: messages that are empty, over the limit, of the legacy key/value type or not
  decodable do not come back; the archive reads back if and only if there are none
  (`ArchiveRoundTrip`). A datagram is delivered with whatever follows the announced length
  (`DatagramPayload`). A looping replay of a file without a message spins for ever
  (`ReplayLoopsOn`). A stream that breaks off right behind a header ends like a complete one
  (`FramesDelivered`).
- JSON: without `EmitDefaults` a negative zero in a singular field comes back as zero, with
  it nil slices and maps come back empty; nothing else changes (`ExactRoundTrip`). A
  field whose name is accepted for an earlier one loses its value (`SharedNameLoses`); every
  message comes back under all options if and only if no type has such a field
  (`NamesExact`).
- Durations: zero seconds with negative nanoseconds are written as text that cannot be
  read, and durations over 64 bits of nanoseconds cannot be read either
  (`DurationRoundTrip`).
- Router: with a channel depth of zero every message is dropped (`NoCapacityDropsAll`).
- Statistics: a record can be evicted between being found and being updated
  (`UpdateAfterEviction`); the update reaches the table's record if and only if no visit of
  an eviction pass in between found it stale (`UpdateReachesTable`, `StaysInTable`).
- Kafka: a report requested during a fan-out makes one output miss a message
  (`ReportMissesOne`); an output misses a message if and only if a report is taken at that
  message's turn for it (`MissedExactly`, `HandedAllExactly`). A flush marks a single
  message, so one in another partition stays unmarked (`OtherPartitionUncovered`); a message
  is covered if and only if a flush had a checkpoint at or after it in its own partition
  (`CoveredExactly`). The code reconnects only while it has no consumer.
- gNMI paths: a bracket in a sensor path always panics, whether or not the text behind it
  matches the filter pattern, because no element is given a map (`SecondPanics`,
  `BracketsPanic`); texts are read back if and only if names and origin are free of what
  delimits them (`PathRoundTrip`). A colon in the interval of a path without origin is taken
  for the one behind an origin; otherwise path and interval are both read (`IntervalRead`).
- A comment in `codec_gpb.go` says a cached table may be replaced; under the lock and the
  second check it is stored once (`EveryCallerGetsTheTable`).

## Model

| member | source | states |
|---|---|---|
| MetricsSpec.BuildSubtree | metrics.go:313-401 | compiling a subtree in place fails exactly when some 'Tag' node has children, and otherwise leaves every node with its type, qualified name and maps |
| MetricsSpec.CompilableExactly | metrics.go:349-357 | a specification compiles if and only if no node reachable in it is a 'Tag' node with children |
| MetricsNaive.NodeNames | metrics.go:316-392 | every node of a compiled tree has the type its flag and children give it, and a tag or sensor the names on the way to it, joined by two underscores and adapted as a tag's or a sensor's |
| MetricsSpec.BuildChildren | metrics.go:376-388 | the loop over children compiles all of them and builds the node's maps, or reports the first failure |
| MetricsSpec.BuildChild | metrics.go:378-388 | one child is compiled and entered in the map over all children and in the map of its own type only |
| MetricsSpec.BuildSpecDB | metrics.go:403-429 | the database is built exactly when every specification compiles; it has exactly the paths given, each leading to the root at the last position that gives it, compiled |
| MetricsSpec.FqNamesInjective | metrics.go:316-392 | with distinct siblings and names that are not empty, do not contain and do not end like the separator, no two tags or sensors share a qualified name |
| MetricsSpec.UnsafeNamesCollide | metrics.go:316-322 | three compiled trees with distinct siblings, with an empty name, a name that contains the separator and one that ends like it, in each of which two different sensors share a qualified name |
| MetricsSpec.MapsPartition | metrics.go:376-388 | with distinct siblings the maps by type are disjoint and together are the map over all children |
| MetricsSpec.LookupIs | metrics.go:376-388 | of several children of a name and a type the last is found, and one is found whenever there is one |
| MetricsProduce.Append | codec_gpb.go:643-649 | Go's append on a shared array: the value of the result, and nothing below the length of the argument is written |
| MetricsProduce.TagPass | codec_gpb.go:631-656 | the tag pass with its early exit yields the tags in field order and leaves the caller's view of the slice as it was |
| MetricsProduce.SensorPass | codec_gpb.go:658-709 | the sensor pass tracks and builds in field order with the nearest timestamp, and knows whether anything was written and the last timestamp |
| MetricsProduce.OwnPass | codec_gpb.go:631-713 | tags, sensors and the flush of one node |
| MetricsProduce.ContainerPass | codec_gpb.go:715-747 | the recursion over containers passes each the same tags, however often the shared array is appended to below |
| MetricsProduce.ProduceForNode | codec_gpb.go:605-748 | for every specification, field tree and slice the calls are those of the walk on values, and the caller's tags are unchanged |
| MetricsProduce.KeysPass | codec_gpb.go:774-781 | the keys of a row become tags after those of the message |
| MetricsProduce.RowPass | codec_gpb.go:767-793 | the parts of a row in order, each content with the keys before it |
| MetricsProduce.RowsPass | codec_gpb.go:750-797 | every row restarts from the message's tags although rows share one array |
| MetricsTrace.TagsAtAre | codec_gpb.go:766-781 | the tags at any part of a row are the message's, then key k of each "keys" part before it at its place, with its adapted name and its value |
| MetricsTrace.RowIsContent | codec_gpb.go:767-793 | a row makes the calls of its "content" parts, each with those tags |
| MetricsProduce.ProduceMetrics | codec_gpb.go:1146-1201 | the points of a message are one for each node visit that reads a sensor, in order, each with exactly the visit's sensors and tags, the last of a name counting; none without a specification for the path |
| MetricsProduce.EveryPointTagged | codec_gpb.go:1168-1176 | every point names the message's path and its producer, the peer when the message names none, unless a later tag of that name takes its place |
| MetricsNaive.EarlyExitExact | codec_gpb.go:631-656 | the early exit loses nothing if and only if no tag field beyond it has a value |
| MetricsNaive.TagsOnceSuffices | codec_gpb.go:631-656 | levels without repeated tag names lose nothing |
| MetricsNaive.RepeatedTagLosesOne | codec_gpb.go:651-654 | a repeated tag name makes the exit come too early |
| MetricsNaive.SearchIsLookup | metrics.go:376-388 | with distinct siblings the maps find what a search of the raw fields finds |
| MetricsNaive.WalkIsNaive | codec_gpb.go:605-748 | for distinct siblings and fields with no tag value beyond the cut at any level reached, the compiled walk makes the calls of a walk that searches raw fields and takes the nearest enclosing nonzero timestamp |
| MetricsNaive.MessageIsNaive | codec_gpb.go:750-797 | the same for all rows of a message |
| MetricsNaive.MessageTagsOnce | codec_gpb.go:750-797 | in particular for messages without repeated tags |
| MetricsInflux.InfluxContext.BuildMetric | metrics_influx.go:331-358 | a sensor joins the pending fields; the context stays the fold of all calls so far |
| MetricsInflux.InfluxContext.FlushMetric | metrics_influx.go:360-393 | a flush makes one point: a key is in its fields if and only if a pending field has it, with the value of the last one, and likewise its tags; none is left pending |
| MetricsInflux.VisitPoints | codec_gpb.go:605-748 | a visit starts and ends with nothing pending and adds one point for itself and each visit below that reads a sensor, of that visit's own tags and sensors |
| MetricsInflux.MessagePoints | metrics_influx.go:173-178 | nothing is pending between rows or after a message, and no sensor crosses into another point |
| MetricsInflux.MadePoint | metrics_influx.go:343-383 | the point of a visit has a field for exactly the keys of its sensors, with the value of the last sensor of the key, unsigned 64-bit ones as floating point, and likewise its tags |
| MetricsInflux.PointsAreThose | codec_gpb.go:711-713 | the points of a list of visits are those of the visits that read a sensor, by index |
| MetricsInflux.PointNanosIs | metrics_influx.go:377-378 | the time of a point is the milliseconds times a million, modulo 64 bits |
| MetricsInflux.MessageKeepsTags | codec_gpb.go:766-793 | every visit of a message has the message's tags in front of its own |
| SockDrawer.KvToSockDrawer | codec_gpb.go:143-213 | the loop over two maps computes the conversion, panics included |
| SockDrawer.GroupsExactly | codec_gpb.go:157-209 | a level comes out grouped by name if and only if none of its fields collides with the key of another name |
| SockDrawer.ConvertsExactly | codec_gpb.go:143-213 | the whole tree is grouped by name at every level if and only if no level has a collision |
| SockDrawer.NoSuffixPairSuffices | codec_gpb.go:164-167 | levels in which no name is another with the suffix have no collision |
| SockDrawer.NeverInconsistent | codec_gpb.go:186-203 | in such levels the branch logged as an inconsistency is never taken |
| SockDrawer.UngroupGivesBack | codec_gpb.go:157-209 | the drawer gives back every name's values in order, short of later nil ones |
| SockDrawer.DrawerHolds | codec_gpb.go:143-213 | without collisions a drawer has for every name its fields' values or drawers, by index, short of later ones without a value: under the name when it occurs once, in an array under the longer name when it repeats |
| SockDrawer.DrawerKeys | codec_gpb.go:157-209 | and no other keys |
| SockDrawer.NoFieldsNoDrawer | codec_gpb.go:146-148 | a nil drawer is returned for no fields and for nothing else |
| SockDrawer.CleanKeepsLeaves | codec_gpb.go:143-213 | without collisions the tree has one leaf for every field that carries a value |
| SockDrawer.CollisionExamples | codec_gpb.go:164-167 | inputs on which a value is lost and on which the conversion panics |
| EncapSt.HeaderReadBack | encap_st.go:43-49 | a header written into a stream is read back from there |
| EncapSt.HeaderWrittenBack | encap_st.go:43-49 | any twelve bytes are the header they are read as |
| EncapFrames.HeaderOrder | encap_st.go:43-49 | headers compare byte by byte as their fields do in the order of the struct, which only big-endian fields in that order do |
| EncapFrames.JsonFrame | encap_st.go:260-291 | the fourteen bytes of a two-byte JSON message and what is read from them |
| EncapSt.Parser.NextBlockBuffer | encap_st.go:125-160 | a header is read into the parser's own buffer, every payload and datagram into a new one, and an empty payload is an error |
| EncapSt.Parser.CacheCodec | encap_st.go:165-191 | the cached codec is the one a fresh lookup gives; an unknown encapsulation is refused and changes nothing |
| EncapSt.Parser.NextHeader | encap_st.go:260-291 | a header is accepted exactly when it has a codec, fits and has no flags; a refused one leaves the parser waiting for a header |
| EncapSt.Parser.NextPayload | encap_st.go:246-257 | the payload goes to the codec of its header and the parser waits for the next header, whatever the codec says |
| EncapSt.Parser.NextDatagram | encap_st.go:206-244 | a datagram is judged by its own bytes, whatever came before |
| EncapSt.Parser.NextBlock | encap_st.go:196-296 | one block advances the parser as one step of the parse of the whole stream |
| EncapSt.BlockToDataMsgs | codec_gpb.go:1335-1363 | JSON and GPB messages refer to the buffer they were read into, legacy ones to a new one, and legacy key/value payloads are refused |
| EncapSt.ReadFull | xport_tcp.go:151-158 | a buffer is filled, or the end is told apart as before or after its first byte |
| EncapSt.TakeTurn | xport_tcp.go:134-186 | one turn of a reading loop is one step of the parse |
| EncapSt.HandleConnection | xport_tcp.go:134-215 | for every stream the messages, read after the connection is over, are the frames of a recursive parse, so no later read overwrote one, and no message refers to the header buffer |
| EncapFrames.FramesDelivered | encap_st.go:246-296 | of frames with known encapsulation, no flags and 1 to 1048576 bytes that decode, and a rest that does not begin with one, exactly the frames are delivered, and the rest says how it ends |
| EncapFrames.EveryStream | encap_st.go:246-296 | every stream of bytes is such frames and such a rest |
| EncapSt.DatagramIsStream | encap_st.go:206-296 | a datagram that is exactly one frame carries the same message as the stream |
| EncapSt.DatagramPayload | encap_st.go:226-244 | a datagram's payload has the announced length exactly when nothing follows it |
| EncapFrames.DatagramDelivered | encap_st.go:206-244 | a header and a payload are delivered if and only if there are no flags, at least the announced length and a payload that decodes |
| Archive.Tap | tap.go:111-166 | the tap appends a header and a payload for each message, and nothing for one it cannot identify |
| Archive.RecordLayout | tap.go:118-160 | what is archived of a message: type 1, number 1, 2 or 4 by its kind, version 1, no flags, its length modulo 32 bits, its bytes; nothing for other kinds or without bytes |
| Archive.MessagesAppend | tap.go:62-63 | the messages an archive stands for are those of its parts |
| Archive.RecordsAppend | tap.go:62-63 | successive taps to one file make one archive |
| Archive.OneRecord | encap_st.go:196-296 | a record is read back exactly when its message can be replayed, lengths over 32 bits included |
| Archive.ArchiveRoundTrip | tap.go:111-166 | an archive reads back as its messages, in order and to the end of the file, if and only if each can be replayed |
| Archive.ArchiveEndsAtHeader | encap_st.go:246-296 | after such an archive the parser waits for a header and no byte is left |
| Archive.CutArchiveReads | replay.go:111-127 | of an archive cut anywhere exactly the complete records are read back |
| Archive.Replay.Iteration | replay.go:96-193 | one iteration is one step of the replay: a message, a header, a restart with a new parser, the end or an error; counting and the limit |
| Archive.Replay.Feed | replay.go:96-193 | over any number of iterations the messages handed on are those of the replay up to the limit, each still in its own buffer at the end |
| Archive.PlayIsFirst | replay.go:187-191 | the replay with a limit hands on the first messages of the replay without one, and exactly as many as the limit says |
| Archive.ReplayFirstN | replay.go:187-191 | so for any file; in loop mode a file that holds a message and ends cleanly is played until the limit is reached |
| Archive.ReplayOnce | replay.go:111-127 | without looping, or when the file is damaged, its messages are handed on once and the replay ends |
| Archive.ReplayLoops | replay.go:129-145 | in loop mode a file that ends cleanly never fails and its k-th message is message k modulo m |
| Archive.ReplayLoopsOn | replay.go:129-145 | it hands on any number of messages when it holds one, and none ever when it does not |
| JsonPb.StringOrder | jsonpb.go:1114-1126 | the order of string keys is total and transitive |
| JsonPbShows.KeysInOrder | jsonpb.go:1114-1126 | number keys are written in numeric order, string keys in that of their characters, false before true |
| JsonPb.SortedKeysSorted | jsonpb.go:549-555 | keys are written in strictly increasing order, all of them |
| JsonPb.OneOrder | jsonpb.go:549-555 | there is one such order, so the output does not depend on the order a map is visited in |
| JsonPb.PlainLoop | jsonpb.go:898-935 | the loop over struct fields takes members out of the map in field order |
| JsonPb.AltLoop | jsonpb.go:936-949 | the alternatives of a oneof are looked up under both names |
| JsonPb.UnmarshalObject | jsonpb.go:891-980 | the loops on an object compute the message, or fail, leftover members included |
| JsonPbShows.MessageShown | jsonpb.go:256-639 | under all options, the tree written for a typed message has one member for each field that is not omitted, in order, with the name, the number or string and the nesting that each option asks for |
| JsonPbShows.ShownExactly | jsonpb.go:256-639 | and a tree has that if and only if it is the one written |
| JsonPbShows.MessageLeaf | jsonpb.go:520-639 | every number and string in the tree shows a scalar of the message |
| JsonPbShows.NoWideNumbers | jsonpb.go:628-636 | unless EmitUInt64Unquoted is set, every number is a floating point number or lies between -2^31 and 2^32 - 1 |
| JsonPbShows.WhatIsQuoted | jsonpb.go:520-636 | with it no 64-bit integer is in quotes, and with EnumsAsInts no enumeration |
| JsonPbShows.EveryFieldShown | jsonpb.go:285-313 | with EmitDefaults every field has a member, under the name that OrigName asks for |
| JsonPbReads.IntegerRead | jsonpb.go:1049-1059 | an integer is read from its text, quoted or not, if and only if the field can hold it |
| JsonPbReads.NotRead | jsonpb.go:1049-1059 | a number with a leading zero, or with a sign for an unsigned field, is refused |
| JsonPbReads.EnumRead | jsonpb.go:866-889 | an enumeration is read from a name of its table or from any number of 32 bits |
| JsonPbReads.NullRead | jsonpb.go:1058-1059 | null is read as the zero value by fields of every kind and shape |
| JsonPbReads.OnlyTheirOwn | jsonpb.go:1058-1059 | booleans, strings and bytes are read from nothing else |
| JsonPbReads.FieldRead | jsonpb.go:898-935 | a field whose names no earlier one accepts is read from the last member of its JSON name, or else of its original name, or else is zero |
| JsonPbReads.StrayRefused | jsonpb.go:970-978 | without AllowUnknownFields an object with a member that no field accepts is refused |
| JsonPbReads.StrayIgnored | jsonpb.go:970-978 | with it the result is that of the object without such members |
| JsonPbRoundTrip.IntBack | jsonpb.go:521-542 | integers come back quoted or not, enumerations as name or number, unknown numbers too |
| JsonPbRoundTrip.KeyBack | jsonpb.go:1008-1025 | map keys of every kind come back from their text |
| JsonPbRoundTrip.MapBack | jsonpb.go:1000-1038 | maps come back with every key and value |
| JsonPbRoundTrip.FirstPass | jsonpb.go:898-935 | each field finds its own member under either name, and only its own |
| JsonPbRoundTrip.SecondPass | jsonpb.go:936-949 | each oneof finds the alternative that was set |
| JsonPbRoundTrip.NothingLeft | jsonpb.go:970-978 | no member written is unknown on reading |
| JsonPbRoundTrip.MessageRoundTrip | jsonpb.go:256-329 | for every typed message and all options, unmarshalling what was marshalled gives the message back up to nil against empty and a dropped negative zero |
| JsonPbRoundTrip.ExactRoundTrip | jsonpb.go:274-305 | the message itself comes back if and only if it holds nothing of those kinds |
| JsonPbNames.SharedNameLoses | jsonpb.go:898-949 | in any schema, if a field or alternative shares an accepted name with one read before it, some message does not come back under some options |
| JsonPbNames.NamesExact | jsonpb.go:898-949 | every typed message comes back under all options if and only if no type has such a pair of names |
| Duration.FractionDigits | jsonpb.go:200-220 | the text has 0, 3, 6 or 9 fractional digits, the fewest that are exact |
| Duration.WrittenForm | jsonpb.go:210-219 | the text is the signed seconds, a dot and that many digits of the fraction unless it is zero, and the unit |
| Duration.PaddedAt | jsonpb.go:213 | each of those digits is the one of its position |
| DecimalText.DigitAt | jsonpb.go:624 | each character of an integer's text is the decimal digit of its position |
| Duration.WritableExactly | jsonpb.go:204-209 | marshalling fails if and only if there is a second or more of nanoseconds or the signs differ |
| Duration.Trimmed | jsonpb.go:213-216 | trimming leaves the integer part alone and the fraction as short as that |
| Duration.NegativeFraction | jsonpb.go:210-216 | zero seconds with negative nanoseconds are written as something that cannot be read |
| Duration.DurationRoundTrip | jsonpb.go:783-799 | every other duration that fits is read back as it was under truncated division, and the rest fail |
| Router.Router.HandleMsg | message_router.go:39-79 | a message goes to the first worker found with room or is dropped; queues stay in order and within capacity |
| Router.Router.Send | message_router.go:44-48 | a send after a look that found room does not block |
| Router.TurnIs | metrics_influx.go:264-270 | attempt i is made at worker (last + 1 + i) modulo their number |
| Router.EveryWorkerTried | metrics_influx.go:264-270 | as many attempts as there are workers reach every one of them |
| Router.Router.Run | message_router.go:81-118 | over any run the fate of every message, and every queue as the end of what its worker was sent |
| Router.Router.Drain | message_router.go:92-105 | exactly the messages queued when draining begins are handled, each with the fate it has in a run; what producers add meanwhile stays queued |
| Router.Router.Shutdown | message_router.go:92-112 | shutting down handles what is queued at that moment, each message with its fate in a run, then closes every output once |
| Router.FirstWithRoom | message_router.go:41-60 | at most one attempt more than there are workers, and the first with room is taken |
| Router.QueuesExactly | message_router.go:39-79 | handling a message leaves each worker's queue as it was, short of what the worker took itself, with the message at the end exactly for the worker it went to |
| Router.SelectPicks | message_router.go:81-118 | what a worker was sent is the messages whose fate it was, in order, by index |
| Router.DroppedOnlyWhenFull | metrics_influx.go:271-289 | a drop means every worker's queue was found full during the call |
| Router.NoCapacityDropsAll | message_router.go:44-48 | queues without capacity drop everything |
| Router.UncongestedInTurn | metrics_influx.go:264-270 | when the first attempt always finds room workers are served in turn |
| Router.Fair | metrics_influx.go:264-270 | two workers served in turn differ by one message at most |
| GrpcOut.AddKeeps | xport_grpc_out.go:94-101 | registering a client keeps the invariant: a new number, an open channel, one more live handler |
| GrpcOut.RemoveUnprotectedKeeps | xport_grpc_out.go:106-114 | taking a client out closes its channel, which was open |
| GrpcOut.ReachedKeeps | xport_grpc_out.go:136-153 | a broadcast is enqueued or dropped at one client and leaves the others alone |
| GrpcOut.StepKeeps | xport_grpc_out.go:94-232 | every step of every handler and of the feeder keeps the invariant |
| GrpcOut.NeverPanicsNorBlocks | xport_grpc_out.go:94-153 | in every run: no send on a closed channel, no channel closed twice, the wait group counts live handlers, and the feeder never blocks on a send while it holds the mutex |
| GrpcOut.EveryBroadcastAccounted | xport_grpc_out.go:136-153 | in every run a client's broadcasts, enqueued or dropped, are all those made from its registration until now or until it was taken out, and those enqueued arrive in order within the channel's depth |
| GrpcOut.CountedFrom | xport_grpc_out.go:94-101 | that count begins with the broadcasts made when the client was registered |
| GrpcOut.CountedUntil | xport_grpc_out.go:106-114 | and ends with those made when it was taken out |
| GrpcOut.DroppedExactly | xport_grpc_out.go:140-145 | in every run a broadcast is dropped for a client if and only if its channel held exactly its capacity at the client's turn in that broadcast |
| GrpcOut.NeverFullGetsAll | xport_grpc_out.go:136-153 | hence a client whose channel is never found full gets every broadcast since it was registered, in order |
| GrpcOut.ChosenPicks | xport_grpc_out.go:136-153 | what is enqueued is the broadcasts not dropped, by index |
| GrpcOut.LogIsBroadcasts | xport_grpc_out.go:136-153 | in every run what is broadcast is what the feeder was given, in order |
| GrpcOut.NothingAfterLeaving | xport_grpc_out.go:180-232 | in every run a client whose stream failed, was cancelled or closed is handed nothing more, and no other leaves |
| GrpcOut.NumbersUnique | xport_grpc_out.go:94-101 | in every run client numbers are never reused |
| GrpcOut.EmptyTableDrains | xport_grpc_out.go:334-348 | once all clients are taken out each handler can drain and see its channel closed |
| DecodedTable.StepKeeps | codec_gpb.go:802-900 | every step of every caller keeps the cache right, and what is stored stays |
| DecodedTable.EveryCallerGetsTheTable | codec_gpb.go:802-900 | in every interleaving each caller gets, row by row, the timestamp, the keys decoded as keys if they have a type and the content decoded as content, or nil if and only if there is no table or no mapping; the table is stored at most once |
| DecodedTable.StoredStays | codec_gpb.go:875-893 | a stored table is never replaced |
| InternalNames.ReadersSeeFinalNames | codec_gpb.go:945-966 | in every interleaving a read without the lock sees final names, now and later: for exactly the children that are fields, the Go name of the last such field |
| InternalNames.WritersAlone | codec_gpb.go:945-966 | names are written by one thread at a time and never while another reads |
| StatTable.StepKeeps | metrics.go:178-271 | every find, update and eviction keeps the table within its size and every record right |
| StatTable.RecordsAddUp | metrics.go:205-238 | in every run a record's timestamp is the largest of its first and those applied, it has observed one positive difference for each new largest one, adding up to it, and counted each that was less than one before |
| StatTable.LatestIsMax | metrics.go:229-231 | that timestamp is the maximum |
| StatTable.AdvancesAddUp | metrics.go:229-231 | the observed differences are positive and add up |
| StatTable.PassEvictsExactly | metrics.go:245-261 | in every run an eviction pass visits each key it began with and has removed it at the end if and only if its record's timestamp was then more than 300000 below the pass's clock, updates interleaved |
| StatTable.PassKeepsRecent | metrics.go:253-260 | a key stays if and only if its record had been given a timestamp at most that old |
| StatTable.RecentStays | metrics.go:253-260 | a record that recent when the pass begins, or ahead of the clock, stays |
| StatTable.NoneStaleLeft | metrics.go:253-260 | in every run, when a pass can end no record left in the table is more than 300000 below its clock |
| StatTable.InTableExactly | metrics.go:184-260 | in every run a record is the table's for its key if and only if no visit so far found it stale |
| StatTable.StaysInTable | metrics.go:184-260 | the same from any point of the run on, for a record in the table there |
| StatTable.RecordsConserved | metrics.go:184-199 | in every run the records made are those in the table and those evicted |
| StatTable.TurnedAwayExactly | metrics.go:184-191 | in every run a key is turned away if and only if every record made for it was evicted and the records made less those evicted fill the table |
| StatTable.UpdateAfterEviction | metrics.go:205-238 | an update can reach a record that has been evicted |
| StatTable.UpdateReachesTable | metrics.go:205-238 | in every run an update gives the call's timestamp to the record found for its key and to no other; that record is still the table's if and only if no visit since found it stale |
| KafkaConsumer.StepKeeps | xport_kafka.go:703-833 | every event of the loop keeps its invariant |
| KafkaConsumer.TimersAndConsumers | xport_kafka.go:673-737 | in every run offsets are marked only with a consumer, a connected consumer is never dropped by a reconnect, at most one timer of each kind is out, and one is exactly when it is needed |
| KafkaConsumer.ConnectedExactly | xport_kafka.go:673-702 | in every run there is a consumer if and only if one was connected since the last reconnect |
| KafkaConsumer.CheckpointExactly | xport_kafka.go:721-737 | in every run a message is to be marked if and only if one was taken since the last flush or reconnect, and it is the latest |
| KafkaConsumer.LogIsReceived | xport_kafka.go:730-775 | in every run what is handed on is what the messages taken decode to, in order |
| KafkaConsumer.SelectPicks | xport_kafka.go:775-800 | what an output was handed is the messages it did not miss, by index |
| KafkaConsumer.MarksInOrder | xport_kafka.go:721-737 | marks are in the order of receipt, none twice |
| KafkaConsumer.FlushMarksLatest | xport_kafka.go:721-730 | a mark is of the latest message, after its fan-out |
| KafkaConsumer.FlushCoversOnePartition | xport_kafka.go:721-730 | a flush covers, besides what was covered, exactly the messages in the partition of its checkpoint |
| KafkaConsumer.CoveredExactly | xport_kafka.go:721-730 | in every run a message is covered if and only if some flush had a checkpoint at or after it in its partition |
| KafkaConsumer.OtherPartitionUncovered | xport_kafka.go:721-730 | a run of two partitions that leaves a message uncovered with no flush pending |
| KafkaConsumer.OutputsInOrder | xport_kafka.go:775-800 | each output is handed messages in order, once; the turns missed are the control messages taken in a fan-out |
| KafkaConsumer.MissedExactly | xport_kafka.go:788-798 | in every run an output is handed a message whose turn has come if and only if no report was taken at that turn |
| KafkaConsumer.HandedAllExactly | xport_kafka.go:775-800 | between fan-outs an output has been handed everything received if and only if that holds of every message |
| KafkaConsumer.ReportMissesOne | xport_kafka.go:788-798 | a run in which a report makes the only output miss a message |
| GnmiPath.DecodePath | codec_gnmi.go:23-40 | the builder loop writes origin and names with their delimiters |
| GnmiPath.FillElements | xport_gnmi.go:114-127 | elements are filled in order, entry by entry, and the first panic ends it |
| GnmiPath.SecondPanics | xport_gnmi.go:120-126 | an element is its name without a map, and any entry behind a bracket panics, matched or not |
| GnmiPath.ParseSensorPath | xport_gnmi.go:84-129 | the parser cuts at the first colon, one leading slash and the first at-sign, then at slashes |
| GnmiPath.ParsedShape | xport_gnmi.go:84-129 | what is read has at least one name, no filters and no delimiter in any part |
| GnmiPath.PathRoundTrip | xport_gnmi.go:84-129 | a path's text is read back as the path, without interval, if and only if its parts are free of delimiters |
| GnmiPath.IntervalRead | xport_gnmi.go:101-112 | such a text with an at-sign and an interval is read as the path with the interval, 0 for "change" and -1 for what is no number, if and only if there is an origin or no colon in the interval |
| GnmiPath.BracketsPanic | xport_gnmi.go:114-127 | the parser panics if and only if there is a bracket in front of any interval |
| GnmiPath.Prefilter | xport_gnmi.go:274-287 | updates are compacted in place to exactly the selected ones, in order |
| GnmiPath.KeptPicks | xport_gnmi.go:274-287 | selected are those whose prefixed path is a selector, by index |

## Left out

- Sockets, TLS, gRPC dialling, HTTP pushes, the Kafka and Influx clients, files and clocks: events, streams and timestamps are parameters.
- The protocol buffer wire format, JSON lexing and escapes, base64 and the text of floating point numbers: functions given as parameters, with the inverse each message needs as part of its type.
- JSON arrays of numbers as bytes, quoted numbers with blanks, and which entry wins when JSON has two alternatives of one oneof or two spellings of one map key, which depends on the order of a Go map.
- JsonPb.MarshalMsg: the tree is built as a value; the writer it is written to piece by piece, with its error and its indentation, is not modelled.
- JSON of well-known types other than Duration, of Any, of proto2 extensions and of required fields.
- Timestamp text, which is calendar arithmetic of the time library around the trimming that `Duration.Trimmed` is about.
- Duration.Read: of the duration syntax only one number of seconds, with at most nine fractional digits.
- The reflection walk over compact GPB beyond its name cache: it visits Go maps in random order.
- MetricsProduce.ProduceMetrics: the message counters, compact GPB messages and messages that are not decoded are not modelled.
- MetricsInflux.InfluxContext.FlushMetric: the failure of the Influx library to make a point, which drops it, is not modelled; points are what that library is asked for.
- The key under which a tracked sensor's statistics are kept, and the text of tag values: both are library formatting.
- Nil entries in a specification's list of fields, on which the compiler panics.
- EncapSt.HandleConnection: cancellation, and the hand-over of each message to every data channel in turn.
- Archive.Replay.Iteration: the channels a message is handed to, and that one which is full does not get it; a message handed on is one offered to all of them.
- JsonPb.AltLoop: alternatives are visited in the order of their declaration, the code's order is that of a Go map.
- JsonPb.UnmarshalObject: the branch for extensions of proto2 messages is not modelled.
- Archive.Tap: write errors and the count-only and text modes.
- Router.Router.HandleMsg: what blocking with a timeout does, because the policy modelled never asks for it.
- GrpcOut.NeverPanicsNorBlocks: the time limit on draining and the restart of the server are not modelled, so nothing is claimed about how long a shutdown takes.
- KafkaConsumer.TimersAndConsumers: decoding, logging and rebalancing notifications do not change the loop's state and are not steps.
- Configuration, logging and Prometheus metrics other than as counts.
- The encryption of passwords, the template output, and the other inputs and outputs, which would only add easy members.
