# A verified model of pisa-proxy

A Dafny model of the parts of Pisanix whose correctness depends on state, on whole runs or on
single bytes: the two weighted load balancers, the merge of shard results, the
concurrency-control plugin and the connections that share it, the connection pool, the MySQL
wire encoding, the vectorised upper-casing of the lexer, and the controller's random strings.

`dafny verify dfyconfig.toml` checks the project. Each module has the form of the code it models:
objects are classes whose methods change their fields and are proved against pure functions, and
the laws are lemmas about those functions. Statements over runs quantify over every sequence of
operations, and concurrency is modelled as interleaved steps.

| file | what it models |
|---|---|
| `RoundRobin`, `Wheel`, `RoundRobinFairness` | the interleaved weighted round robin and its fairness |
| `RandomWeighted` | the weighted random choice |
| `MergeStream`, `MergeProgress`, `MergeTermination`, `MergePoll`, `MergeDelivery` | the merge of shard result streams |
| `ConcurrencyControl`, `Permits` | the permits of the plugin, and connections that take and return them |
| `Pool` | idle queues, acquisition with retries, return on drop |
| `Bytes`, `Buffers` | little-endian and length-encoded integers and strings |
| `Framing`, `ColumnEdits` | packet framing and edits of packed column packets |
| `Columns`, `Rows`, `OkPacket` | column definitions, text rows, OK packets |
| `UpperCase`, `RandomString` | sixteen-lane upper-casing, unbiased random strings |
| `Divisibility`, `Endpoints`, `Options` | shared definitions |

Several properties one might expect do not hold of the code. For each there is a run or an input that
shows it, and an exact condition:

| property | fails at | holds if and only if |
|---|---|---|
| a poll of the merge returns | `MergePoll.SomePollNeverReturns` | `MergePoll.PollReturnsIff`, `MergeTermination.BatchCompletesIff` |
| the merge delivers every row | `MergeDelivery.SomeShardsDoNotDeliver` | `MergeDelivery.DeliveredInFullIff` |
| a rule's limit holds in every window | `Permits.ExceedLimit` | `Permits.LimitCanBeExceededIff`, `Permits.LimitIsExceededIff` |
| framing does not depend on how the stream is cut | `Framing.CutHeaderPanics` | `Framing.ChunkingDoesNotMatter` |
| a command is one frame | `Framing.LargeCommandIsCut` | `Framing.CommandRoundTripIff` |
| a column definition survives a round trip | `Columns.EmptySchemaIsLost` | `Columns.ColumnRoundTripIff` |
| an OK packet survives a round trip | `OkPacket.UntrackedInfoGrows` | `OkPacket.OkRoundTripIff` |
| the average of a sharded query is written into every row | `Rows.EmptyShardPanics` | `Rows.AverageStepIff`, `Rows.ReplaceFieldIff` |
| the 64-bit walk over the weights picks as the exact one does | `RandomWeighted.WrappingMatters` | `RandomWeighted.WrappingIsHarmlessIff` |
| an idle connection leaves its queue only when it is taken | `Pool.IdleConnectionIsLost` | `Pool.IdleLeavesIff` |
| every item is picked as often as its weight | any negative weight | `RandomWeighted.SelectionIsExactIff` |
| upper-casing stays inside its buffer | `UpperCase.LongIdentifierOverruns` | `UpperCase.StoresFitIff`, `UpperCase.ToUpper` |

On one point code and documentation disagree, and the model follows the code:
docs/docs/Features/sql-circuit-breaker-and-concurrency-control.md:24 promises that at most
`max_concurrency` matching statements run at a time within `duration`; the code gives permits of an
earlier window back to the current one, and lets the statement that finds a window expired through
uncounted.

## Model

| member | source | states |
|---|---|---|
| `Endpoints.ItemExists` | pisa-proxy/proxy/loadbalance/src/roundrobin_weighted.rs:80-85 | found exactly when an item has the name |
| `RoundRobin.Euclid` | pisa-proxy/proxy/loadbalance/src/roundrobin_weighted.rs:105-116 | the result divides both numbers and every common divisor divides it |
| `RoundRobin.Gcd` | pisa-proxy/proxy/loadbalance/src/roundrobin_weighted.rs:105-116 | the remainder loop computes that greatest common divisor |
| `RoundRobin.Tick` | pisa-proxy/proxy/loadbalance/src/roundrobin_weighted.rs:62-72 | one iteration keeps gcd dividing cw and 0 < cw <= max_weight, and changes only i and cw |
| `RoundRobin.Iterations` | pisa-proxy/proxy/loadbalance/src/roundrobin_weighted.rs:62-77 | a call takes between 1 and n iterations, at most the cyclic distance to a heaviest item |
| `RoundRobin.NextChoice` | pisa-proxy/proxy/loadbalance/src/roundrobin_weighted.rs:53-78 | `next` keeps the invariant, returns a held endpoint, and returns none exactly when empty or when no weight is positive and the walk is back at the start |
| `RoundRobin.NextGoesToDue` | pisa-proxy/proxy/loadbalance/src/roundrobin_weighted.rs:62-77 | from every state, on the weights alone: the first item after the cursor that reaches the threshold, else the first that reaches the next level; without positive weights the next item of weight zero, or none at the end of the lap |
| `RoundRobin.AddKeepsValid` | pisa-proxy/proxy/loadbalance/src/roundrobin_weighted.rs:30-51 | `add` in any state, with any weight and any cursor, keeps the invariant: n, true gcd and maximum of the positive weights, cursor in range; the first positive weight sets the cursor to -1 and 0, every other endpoint leaves it |
| `RoundRobin.Run` | pisa-proxy/proxy/loadbalance/src/roundrobin_weighted.rs:30-102 | the invariant holds after every run of add, next and remove_all from the default value |
| `RoundRobin.RunKeepsEndpoints` | pisa-proxy/proxy/loadbalance/src/roundrobin_weighted.rs:30-102 | after every run the items are the first of each name added since the last remove_all |
| `RoundRobin.RoundRobinWeighted.Add` | pisa-proxy/proxy/loadbalance/src/roundrobin_weighted.rs:30-51 | in-place `add` refines its specification, keeps the invariant, and resets the cursor exactly at the first positive weight |
| `RoundRobin.RoundRobinWeighted.Next` | pisa-proxy/proxy/loadbalance/src/roundrobin_weighted.rs:53-78 | the loop ends within n iterations, changes only i and cw, and returns what the specification returns |
| `RoundRobin.RoundRobinWeighted.RemoveAll` | pisa-proxy/proxy/loadbalance/src/roundrobin_weighted.rs:95-102 | everything is reset and the invariant holds |
| `Wheel.Cycle` | pisa-proxy/proxy/loadbalance/src/roundrobin_weighted.rs:62-77 | from every cursor, n * max_weight / gcd iterations come back to it and hand out item k exactly weight_k / gcd times |
| `Wheel.CallsTicks` | pisa-proxy/proxy/loadbalance/src/roundrobin_weighted.rs:62-77 | c calls are the iterations up to the c-th hand-out, with the same hand-outs |
| `Wheel.CycleIsFair` | pisa-proxy/proxy/loadbalance/src/roundrobin_weighted.rs:62-77 | on weights divided by the gcd, a cycle of calls gives each item its share |
| `Wheel.CallsArePeriodic` | pisa-proxy/proxy/loadbalance/src/roundrobin_weighted.rs:62-77 | the calls repeat with the length of a cycle |
| `RoundRobinFairness.SpinOnWheel` | pisa-proxy/proxy/loadbalance/src/roundrobin_weighted.rs:53-78 | dividing weights and threshold by the gcd commutes with `next`, from every cursor |
| `RoundRobinFairness.CycleIsFair` | pisa-proxy/proxy/loadbalance/src/roundrobin_weighted.rs:53-78 | from every valid state the next (sum of weights) / gcd calls return endpoint k exactly weight_k / gcd times |
| `RoundRobinFairness.CallsArePeriodic` | pisa-proxy/proxy/loadbalance/src/roundrobin_weighted.rs:53-78 | the sequence of returned endpoints has that period |
| `RoundRobinFairness.EveryWindowIsFair` | pisa-proxy/proxy/loadbalance/src/roundrobin_weighted.rs:30-102 | exact fairness of every window of calls after every run with two or more items and a positive weight; items of weight zero or less get no turn |
| `RoundRobinFairness.FreshCursor` | pisa-proxy/proxy/loadbalance/src/roundrobin_weighted.rs:36-49 | a balancer not asked since it was emptied has its cursor before the first item |
| `RoundRobinFairness.FirstCycleIsSchedule` | pisa-proxy/proxy/loadbalance/src/roundrobin_weighted.rs:30-78 | from the added endpoints alone: the first cycle of calls goes through the levels max, max - gcd, .., gcd and at each returns the endpoints whose weight reaches it, in the order they were added |
| `RandomWeighted.PickIff` | pisa-proxy/proxy/loadbalance/src/random_weighted.rs:50-56 | for any weights a draw selects item k exactly when the weights up to k exceed it and no shorter prefix does |
| `RandomWeighted.SelectionIsExactIff` | pisa-proxy/proxy/loadbalance/src/random_weighted.rs:42-59 | over all draws below a positive total every item is selected exactly weight times, if and only if no weight is negative |
| `RandomWeighted.AlwaysPicks` | pisa-proxy/proxy/loadbalance/src/random_weighted.rs:51-58 | for any weights a draw below the total selects in the loop: the fall-through is unreachable |
| `RandomWeighted.WrappingIsHarmlessIff` | pisa-proxy/proxy/loadbalance/src/random_weighted.rs:50-56 | for any 64-bit weights and draw the wrapping walk selects the same item as the exact one if and only if the running weight stays below 2^63 up to that item |
| `RandomWeighted.MachinePicksExactly` | pisa-proxy/proxy/loadbalance/src/random_weighted.rs:42-59 | so it does for every draw when no weight is negative and the total fits |
| `RandomWeighted.WrappedPick` | pisa-proxy/proxy/loadbalance/src/random_weighted.rs:50-58 | for any weights and any draw below a positive 64-bit sum, the wrapping walk stops at the first item at which the 64-bit running weight is used up; the return after the loop is never reached |
| `RandomWeighted.WrappingMatters` | pisa-proxy/proxy/loadbalance/src/random_weighted.rs:50-56 | items with a large negative weight on which the wrapping walk selects another item |
| `RandomWeighted.Balancer.Add` | pisa-proxy/proxy/loadbalance/src/random_weighted.rs:62-68 | a new name is appended, a known one ignored; n and the 64-bit sum stay right |
| `RandomWeighted.Balancer.Next` | pisa-proxy/proxy/loadbalance/src/random_weighted.rs:42-59 | none without items or positive 64-bit sum, else the first item at which the 64-bit running weight is used up |
| `MergeStream.TurnShape` | pisa-proxy/protocol/mysql/src/client/codec.rs:161-222 | what every answered turn does to cursor, sources and buffer; a completed poll returns the buffered answers one by one in order |
| `MergeStream.NothingLost` | pisa-proxy/protocol/mysql/src/client/codec.rs:128-223 | in every run, suspensions and state changes anywhere, the items returned or buffered from a source are exactly those taken from it, in order |
| `MergeStream.OutputInOrder` | pisa-proxy/protocol/mysql/src/client/codec.rs:128-223 | the whole output of every run from the scripts of the n sources alone: answer j is answer j / n of source j % n, and what the polls returned, then the buffer, is the answers in that order, without the ends of stream in the row state |
| `MergeStream.PollsAreEven` | pisa-proxy/protocol/mysql/src/client/codec.rs:161-215 | in every run the answers asked of any two sources differ by at most one |
| `MergeProgress.TurnIsOrderly` | pisa-proxy/protocol/mysql/src/client/codec.rs:161-222 | limit_idx stays congruent to idx; a completed poll leaves idx, none_count and buffer cleared; the end is reported only in the row state with every source exhausted; in the other states a poll completes exactly with the last source and leaves the row counters |
| `MergeProgress.RunsAreOrderly` | pisa-proxy/protocol/mysql/src/client/codec.rs:128-223 | that invariant holds in every run that sets the state between completed polls |
| `MergeProgress.BatchBound` | pisa-proxy/protocol/mysql/src/client/codec.rs:183-214 | from a boundary with limit_idx < limit a poll asks for at most limit - limit_idx answers, emits no more rows, and stops at a boundary |
| `MergeProgress.EndIsSound` | pisa-proxy/protocol/mysql/src/client/codec.rs:183-222 | from a boundary the end is returned only if no source has an item, after exactly base_length answers |
| `MergeProgress.EndIsPrompt` | pisa-proxy/protocol/mysql/src/client/codec.rs:183-222 | with every source exhausted the next poll returns the end after exactly base_length answers |
| `MergeTermination.QuietInBatch` | pisa-proxy/protocol/mysql/src/client/codec.rs:183-214 | from any row state, none_count, limit_idx and the rows left as functions of the rounds done since and the rows left then |
| `MergeTermination.BatchCompletesIff` | pisa-proxy/protocol/mysql/src/client/codec.rs:183-214 | in every state of an orderly run, boundary or mid-batch, the batch completes if and only if limit_idx < limit or after some round none_count, grown by max(0, rounds - rows) of every source, equals base_length |
| `MergeTermination.BatchLeaves` | pisa-proxy/protocol/mysql/src/client/codec.rs:183-222 | a completed batch stopped at the first round that reached the limit or the count of ends, and leaves max(0, rows - rounds) rows and limit_idx zero or not accordingly |
| `MergeTermination.BatchStopsAt` | pisa-proxy/protocol/mysql/src/client/codec.rs:183-222 | conversely the first such round is where the batch stops |
| `MergeTermination.SomeRunGetsStuck` | pisa-proxy/protocol/mysql/src/client/codec.rs:201-213 | shards of 101 and 98 rows reach a boundary with a row left from which no batch completes |
| `MergePoll.PollReturnsIff` | pisa-proxy/protocol/mysql/src/client/codec.rs:159-223 | in every state of an orderly run `poll_next` returns if and only if not in the row state, or limit_idx < limit, or the batch completes by count, or a suspension is left |
| `MergeDelivery.DeliveredIff` | pisa-proxy/protocol/mysql/src/client/codec.rs:159-223 | whether a boundary without rows is reached depends on the rows left and limit_idx alone, by iterating the arithmetic of batches |
| `MergeDelivery.DeliversSoon` | pisa-proxy/protocol/mysql/src/client/codec.rs:183-214 | that iteration needs at most one batch per row |
| `MergeDelivery.DeliveredInFullIff` | pisa-proxy/protocol/mysql/src/client/codec.rs:128-223 | after every run at a row boundary, the polls will have returned all items of all sources if and only if that iteration ends with no rows |
| `MergeDelivery.EqualShardsDeliver` | pisa-proxy/protocol/mysql/src/client/codec.rs:183-214 | any number of shards with equally many rows are delivered in full |
| `MergeDelivery.SomeShardsDoNotDeliver` | pisa-proxy/protocol/mysql/src/client/codec.rs:201-213 | shards of 101 and 98 rows are not |
| `MergePoll.SomePollNeverReturns` | pisa-proxy/protocol/mysql/src/client/codec.rs:201-213 | a reachable state with a row to deliver in which `poll_next` loops for ever |
| `MergePoll.PollReturns` | pisa-proxy/protocol/mysql/src/client/codec.rs:159-223 | polls return in the header states, and mid-batch while limit_idx < limit |
| `MergePoll.Merger.constructor` | pisa-proxy/protocol/mysql/src/client/codec.rs:137-150 | the initial state, with a limit of 100 rounds |
| `MergePoll.Merger.SetState` | pisa-proxy/protocol/mysql/src/client/codec.rs:128-130 | only the state changes |
| `MergePoll.Merger.PollNext` | pisa-proxy/protocol/mysql/src/client/codec.rs:159-223 | the loop takes the turns up to the first that does not go on and returns its outcome; a batch is item by item what was buffered before and then what the turns have heard |
| `ConcurrencyControl.FirstMatch` | pisa-proxy/plugin/src/concurrency_control/mod.rs:111-114 | the first matching rule decides |
| `ConcurrencyControl.DecideAnswers` | pisa-proxy/plugin/src/concurrency_control/mod.rs:108-146 | a statement is refused if and only if the first matching rule is in its window and has no permit left; without a match it is allowed and nothing changes; an expired match is allowed, uncounted, and gets a full semaphore and no window; otherwise the rule starts its window if it had none and gives one permit away |
| `ConcurrencyControl.Plugin.constructor` | pisa-proxy/plugin/src/concurrency_control/mod.rs:63-81 | one rule per configuration entry, with all its permits and no window open |
| `ConcurrencyControl.Plugin.IsAllow` | pisa-proxy/plugin/src/concurrency_control/mod.rs:108-146 | the scan over the rules gives that answer, stated on the rules before it, and changes only the deciding rule |
| `ConcurrencyControl.Plugin.AddPermits` | pisa-proxy/plugin/src/concurrency_control/mod.rs:148-151 | one permit more for the rule's current semaphore |
| `ConcurrencyControl.Plugin.Handle` | pisa-proxy/plugin/src/concurrency_control/mod.rs:163-174 | rejected exactly when refused; failed with the permit kept, or passed with the index of the rule that counts it |
| `ConcurrencyControl.Session.PluginRun` | pisa-proxy/runtime/mysql/src/mysql.rs:438-457 | the breaker comes first; ok exactly when breaker and inner service agree and no rule refuses; the index is set only then, to the rule that counts the statement |
| `ConcurrencyControl.Session.EndCommand` | pisa-proxy/runtime/mysql/src/mysql.rs:359-362 | a held permit is given back once and the index cleared |
| `Permits.ExecuteIsPluginRun` | pisa-proxy/runtime/mysql/src/mysql.rs:438-457 | a statement step of the interleaving changes rules and session index exactly as the session's plugin run |
| `Permits.SettleIsEndCommand` | pisa-proxy/runtime/mysql/src/mysql.rs:359-362 | a completion step does what the session does at the end of a command |
| `Permits.StepKeepsBalance` | pisa-proxy/plugin/src/concurrency_control/mod.rs:108-151 | every step of every connection keeps the permit balance of every rule |
| `Permits.PermitsAddUp` | pisa-proxy/plugin/src/concurrency_control/mod.rs:108-151 | after every interleaving, permits on hand + in use in the current window + lost in it = max_concurrency + earlier permits given back since the last replacement |
| `Permits.LimitHoldsInFirstWindow` | pisa-proxy/plugin/src/concurrency_control/mod.rs:116-125 | until a rule's semaphore is first replaced at most max_concurrency counted statements run |
| `Permits.LimitCanBeExceededIff` | pisa-proxy/plugin/src/concurrency_control/mod.rs:127-151 | some continuation lets a statement in beyond the limit within the current window if and only if the window has not expired and permits on hand plus sessions keeping the rule's index exceed max_concurrency |
| `Permits.LimitIsExceededIff` | pisa-proxy/plugin/src/concurrency_control/mod.rs:108-151 | for every configuration some run exceeds a rule's limit, and by any amount, if and only if max_concurrency is at least one |
| `Permits.ExceedLimit` | pisa-proxy/plugin/src/concurrency_control/mod.rs:127-151 | such a run: statements that outlive their windows, then all completing into the current one |
| `Framing.CommonCodec.DecodeNext` | pisa-proxy/protocol/mysql/src/client/codec.rs:341-360 | a frame is split off in place with its completion flag, or the buffer is left alone; the sequence number is taken in both cases; a panic on one to three bytes |
| `Framing.FrameLength` | pisa-proxy/protocol/mysql/src/util.rs:225-232 | `get_length` of a frame is its payload length, whatever part of the frame has arrived |
| `Framing.FrameLayout` | pisa-proxy/protocol/mysql/src/util.rs:225-232 | length, sequence number and payload of a frame byte by byte |
| `Framing.CommandLayout` | pisa-proxy/protocol/mysql/src/client/codec.rs:415-423 | three bytes of length, sequence number 0, the command, the body |
| `Framing.WriteCommand` | pisa-proxy/protocol/mysql/src/client/codec.rs:415-423 | the command is appended in that layout with its three-byte length |
| `Framing.CommandRoundTripIff` | pisa-proxy/protocol/mysql/src/client/codec.rs:341-360 | a command is decoded as one whole frame if and only if its length is below 2^24 |
| `Framing.LargeCommandIsCut` | pisa-proxy/protocol/mysql/src/client/codec.rs:341-360 | a body of 2^24 - 1 bytes is decoded as a bare header |
| `Framing.DrainStream` | pisa-proxy/protocol/mysql/src/client/codec.rs:341-360 | on any start of a stream of frames, decoding finds the complete ones and keeps the rest, or panics on a header cut short |
| `Framing.ChunkingDoesNotMatter` | pisa-proxy/protocol/mysql/src/client/codec.rs:341-360 | commands come out whole, in order and with an empty buffer however the stream is cut, and it panics if and only if some cut leaves one to three bytes past the last frame |
| `Framing.CutHeaderPanics` | pisa-proxy/protocol/mysql/src/client/codec.rs:341-360 | a quit command cut after its first byte panics |
| `ColumnEdits.PacketOffset` | pisa-proxy/protocol/mysql/src/column.rs:74-79 | the loop over headers is the walk of the specification on any bytes |
| `ColumnEdits.WalkFindsPacket` | pisa-proxy/protocol/mysql/src/column.rs:52-55 | on a run of packets the walk is at the start of packet idx, and leaves the buffer exactly past the last packet |
| `ColumnEdits.ClippedWalkFindsPacket` | pisa-proxy/protocol/mysql/src/column.rs:59-67 | the walk over a chunk stops at its end or at the end of the packets |
| `ColumnEdits.AddColumnByIdx` | pisa-proxy/protocol/mysql/src/column.rs:74-84 | in-place insertion for any buffer, index and new bytes, with the reads beyond the buffer |
| `ColumnEdits.AddsBetweenPackets` | pisa-proxy/protocol/mysql/src/column.rs:74-84 | any new bytes go in before packet idx if and only if there are that many packets; otherwise the walk leaves the buffer |
| `ColumnEdits.AddIsInsert` | pisa-proxy/protocol/mysql/src/column.rs:74-84 | with packets as new bytes this is list insertion |
| `ColumnEdits.RemoveColumnByIdx` | pisa-proxy/protocol/mysql/src/column.rs:48-72 | in-place removal for any buffer and chunk, with the reads beyond the buffer |
| `ColumnEdits.RemoveIsDelete` | pisa-proxy/protocol/mysql/src/column.rs:48-72 | on packets this is list deletion, clipped at the end, if and only if the first index is at most their number |
| `ColumnEdits.ConsecutiveRemoval` | pisa-proxy/protocol/mysql/src/column.rs:47-72 | for consecutive indices exactly the packets at those indices go |
| `ColumnEdits.RemovesNothing` | pisa-proxy/protocol/mysql/src/column.rs:48-72 | an empty chunk leaves any buffer as it is |
| `ColumnEdits.RemoveUndoesAdd` | pisa-proxy/protocol/mysql/src/column.rs:48-84 | on the bytes, removing what was added restores the buffer |
| `Buffers.LencIntRoundTrip` | pisa-proxy/protocol/mysql/src/util.rs:122-131 | every 64-bit number written is read back, null exactly when it is zero and not a number, with the exact width consumed |
| `Buffers.WrittenForm` | pisa-proxy/protocol/mysql/src/util.rs:161-184 | one, three, four or nine bytes and the first byte, by the range of the number |
| `Buffers.FirstByteDecides` | pisa-proxy/protocol/mysql/src/util.rs:122-131 | the reader on any bytes: null, the number itself or the little-endian value of what follows, with what is left; a panic exactly when bytes are missing |
| `Buffers.ReadersAgree` | pisa-proxy/protocol/mysql/src/util.rs:111-131 | the slice reader and the cursor reader accept the same input and agree on it |
| `Buffers.LencStrRoundTrip` | pisa-proxy/protocol/mysql/src/util.rs:133-151 | all three string readers get back a non-empty string and what follows it |
| `Buffers.EmptyReadsAsNull` | pisa-proxy/protocol/mysql/src/util.rs:133-151 | what the string readers make of a zero length |
| `Buffers.CutShort` | pisa-proxy/protocol/mysql/src/util.rs:133-151 | a length beyond the end: padded with zeros, null when nothing follows, or a panic, by reader |
| `Buffers.Buffer.GetLencInt` | pisa-proxy/protocol/mysql/src/util.rs:122-131 | the cursor advances as specified or the reader panics |
| `Buffers.Buffer.GetLencStrBytes` | pisa-proxy/protocol/mysql/src/util.rs:133-146 | zero length as null, short data padded with zeros |
| `Buffers.Buffer.SkipLencLength` | pisa-proxy/protocol/mysql/src/util.rs:148-151 | skips the string or panics |
| `Buffers.Buffer.LengthEncodedString` | pisa-proxy/protocol/mysql/src/util.rs:190-202 | splits the string off, with its two special cases |
| `Buffers.Buffer.PutLencInt` | pisa-proxy/protocol/mysql/src/util.rs:161-184 | appends the encoding |
| `Columns.DecodesAnyDefinition` | pisa-proxy/protocol/mysql/src/column.rs:101-162 | for any catalog, schema, table, physical table, name and physical name (NULL, empty or not), any fixed fields and any suffix: schema, table, name and fixed fields are read, the others skipped, the suffix left; a panic exactly on names that are not UTF-8 or an unknown type |
| `Columns.DecodesAnyDefinitions` | pisa-proxy/protocol/mysql/src/column.rs:91-98 | the same for any list behind four-byte headers of any content; a stub of a header panics |
| `Columns.EncodesDefinition` | pisa-proxy/protocol/mysql/src/column.rs:166-218 | `encode` writes catalog def, the names, no physical names and the fixed fields, in that order |
| `Columns.ColumnRoundTrip` | pisa-proxy/protocol/mysql/src/column.rs:101-218 | decoding an encoded definition consumes exactly the encoding whatever follows, and gives the definition with empty strings normalised |
| `Columns.ColumnRoundTripIff` | pisa-proxy/protocol/mysql/src/column.rs:101-218 | the definition itself comes back if and only if no string is present but empty |
| `Columns.EmptySchemaIsLost` | pisa-proxy/protocol/mysql/src/column.rs:105-110 | a present but empty schema comes back absent |
| `Columns.ColumnsRoundTrip` | pisa-proxy/protocol/mysql/src/column.rs:31-40 | encoded definitions behind four-byte headers of any content come back as a list, normalised |
| `Columns.EncodeTo` | pisa-proxy/protocol/mysql/src/column.rs:166-218 | appends the encoding |
| `Columns.DecodeFrom` | pisa-proxy/protocol/mysql/src/column.rs:101-162 | reads a definition off the cursor, or panics with the specification, which also refuses a byte that names no column type |
| `Columns.DecodeAllFrom` | pisa-proxy/protocol/mysql/src/column.rs:91-98 | the loop decodes all definitions or panics |
| `Rows.RowDataText.GetIdx` | pisa-proxy/protocol/mysql/src/row.rs:58-63 | the first column of the name, or none exists |
| `Rows.RowDataText.GetRowDataWithName` | pisa-proxy/protocol/mysql/src/row.rs:106-127 | not found exactly for unknown names, else the field of the first column of that name |
| `Rows.LookupFindsField` | pisa-proxy/protocol/mysql/src/row.rs:106-127 | on any encoded row the lookup gives the abstract field, nothing for NULL or empty, and its offsets delimit exactly the field's encoding |
| `Rows.LookupInCutRow` | pisa-proxy/protocol/mysql/src/row.rs:106-127 | on a row cut anywhere the lookup is as before if the field is there in full and panics otherwise |
| `Rows.LookupPastEnd` | pisa-proxy/protocol/mysql/src/row.rs:106-127 | a row with fewer fields than columns panics past its end |
| `Rows.CutMerge` | pisa-proxy/runtime/mysql/src/server/executor.rs:723-735 | the located bytes are replaced in place and everything else kept |
| `Rows.ReplaceFieldIff` | pisa-proxy/runtime/mysql/src/server/executor.rs:378-392 | on any encoded row an aggregate step updates that one field if and only if it is neither NULL nor empty, and panics otherwise |
| `Rows.CutMergeUpdatesField` | pisa-proxy/runtime/mysql/src/server/executor.rs:723-735 | replacing at what the lookup found updates that one field of the abstract row |
| `Rows.ReplaceValue` | pisa-proxy/runtime/mysql/src/server/executor.rs:447-465 | the step in place by column name, with its panics |
| `Rows.AverageSplices` | pisa-proxy/runtime/mysql/src/server/executor.rs:324-343 | for a count and a sum anywhere in a row: from the start of the count as many bytes as both have give way to the average; a panic exactly when one is NULL or empty or the bytes do not reach |
| `Rows.AverageStepIff` | pisa-proxy/runtime/mysql/src/server/executor.rs:324-343 | on any encoded row the average step makes one field of a count and the sum after it if and only if neither is NULL or empty, and panics otherwise |
| `Rows.CutMergeJoinsNeighbours` | pisa-proxy/runtime/mysql/src/server/executor.rs:324-343 | the joined row when both are present |
| `Rows.EmptyShardPanics` | pisa-proxy/runtime/mysql/src/server/executor.rs:300-331 | a shard with count 0 and a NULL sum, read as zero in the first pass, panics in the second |
| `Rows.ReplaceAverage` | pisa-proxy/runtime/mysql/src/server/executor.rs:324-343 | the step in place by column names, with its panics |
| `OkPacket.DecodesUntracked` | pisa-proxy/protocol/mysql/src/common_packet.rs:111-147 | any packet without session tracking: counts as negotiated, then the rest as info text |
| `OkPacket.DecodesTracked` | pisa-proxy/protocol/mysql/src/common_packet.rs:111-147 | any packet with session tracking: counts, info string, and the session state exactly when the status says so |
| `OkPacket.DecodesStringState` | pisa-proxy/protocol/mysql/src/common_packet.rs:44-86 | session states of kinds 1 to 5 from their string, whatever follows |
| `OkPacket.DecodesVariables` | pisa-proxy/protocol/mysql/src/common_packet.rs:51-60 | system variables as pairs of name and value in order |
| `OkPacket.DecodesUnknownState` | pisa-proxy/protocol/mysql/src/common_packet.rs:81-84 | other kinds are kept as they are |
| `OkPacket.EncodesOk` | pisa-proxy/protocol/mysql/src/common_packet.rs:149-176 | `encode` writes the header byte 0x00, the counts as negotiated and the info text |
| `OkPacket.AbsentIsLeftOut` | pisa-proxy/protocol/mysql/src/common_packet.rs:149-176 | a count that is negotiated but absent is left out |
| `OkPacket.OkRoundTripIff` | pisa-proxy/protocol/mysql/src/common_packet.rs:111-176 | for every capability mask decoding inverts encoding if and only if status and warnings are present as negotiated, there is no session state, and an info text is non-empty, tracked and without the state-changed bit |
| `OkPacket.UntrackedInfoGrows` | pisa-proxy/protocol/mysql/src/common_packet.rs:111-176 | without session tracking an info text comes back longer |
| `OkPacket.DecodePairsFrom` | pisa-proxy/protocol/mysql/src/common_packet.rs:51-60 | the loop decodes all pairs of system variables or panics |
| `OkPacket.DecodeSession` | pisa-proxy/protocol/mysql/src/common_packet.rs:44-86 | each kind of session state from its payload |
| `OkPacket.DecodeFrom` | pisa-proxy/protocol/mysql/src/common_packet.rs:111-147 | fills the record as specified or panics |
| `OkPacket.EncodeNew` | pisa-proxy/protocol/mysql/src/common_packet.rs:149-176 | the packet of the specification |
| `UpperCase.LaneIsUpper` | pisa-proxy/parser/mysql/src/lex.rs:885-895 | masks and signed comparisons compute the ASCII upper case of every byte, also of those from 0x80 on |
| `UpperCase.StoresFitIff` | pisa-proxy/parser/mysql/src/lex.rs:867-911 | all sixteen-byte stores fit the destination if and only if the source has at most 512 bytes |
| `UpperCase.LongIdentifierOverruns` | pisa-proxy/parser/mysql/src/lex.rs:687-698 | an identifier of 513 bytes is stored up to byte 528 |
| `UpperCase.ToUpper` | pisa-proxy/parser/mysql/src/lex.rs:863-926 | in bounds exactly up to 512 bytes; then the destination starts with the upper case of the source, is unchanged past the rounded length, and the used scratch bytes end up zero |
| `UpperCase.Scanner.UpperIdent` | pisa-proxy/parser/mysql/src/lex.rs:687-698 | in bounds exactly up to 512 bytes; then every byte from 0x61 to 0x7a is lowered by 0x20 and every other kept, the result depends on the text alone, and the shared scratch stays all zeros |
| `RandomString.NoBias` | pisa-controller/pkg/utils/strings.go:52-65 | every character comes from exactly 256 / clen accepted bytes |
| `RandomString.EveryCharacterIsEqual` | pisa-controller/pkg/utils/strings.go:52-65 | for distinct characters exactly 256 / clen of the 256 byte values make the generator emit each of them |
| `RandomString.CharacterAt` | pisa-controller/pkg/utils/strings.go:60-66 | character j is chars[x % clen] for the j-th byte x not above 255 - 256 % clen |
| `RandomString.StreamOfReads` | pisa-controller/pkg/utils/strings.go:56-60 | reads that succeed follow one another in the stream, and the first that fails ends it |
| `RandomString.NewLenChars` | pisa-controller/pkg/utils/strings.go:44-72 | character j of the text is chars[x % clen] for the j-th unskipped byte x of the whole stream, however it was cut into reads; empty on an error before that; a panic on a negative length |
| `Pool.NextKeepsUnshared` | pisa-proxy/proxy/pool/src/conn_pool.rs:132-242 | every step leaves each connection in one place |
| `Pool.QueuesAreBounded` | pisa-proxy/proxy/pool/src/conn_pool.rs:64-78 | after every interleaving a queue holds at most `size` connections, all for its endpoint, all distinct and none in use |
| `Pool.DropFindsQueue` | pisa-proxy/proxy/pool/src/conn_pool.rs:231-242 | after every interleaving dropping a held connection finds its queue, and a full queue lets it go |
| `Pool.AcquisitionIsBounded` | pisa-proxy/proxy/pool/src/conn_pool.rs:144-197 | an acquisition makes at most eleven builds and never runs past the retry loop |
| `Pool.IdleLeavesIff` | pisa-proxy/proxy/pool/src/conn_pool.rs:145-156 | an idle connection leaves its queue if and only if a task takes it from the head or a task that had found no queue makes one |
| `Pool.IdleConnectionIsLost` | pisa-proxy/proxy/pool/src/conn_pool.rs:145-156 | a run of two tasks in which a queue made twice loses an idle connection |
| `Pool.AcquireIsRun` | pisa-proxy/proxy/pool/src/conn_pool.rs:144-197 | an acquisition without interruption is one of the interleavings, from any reached state |
| `Pool.AcquireAlone` | pisa-proxy/proxy/pool/src/conn_pool.rs:144-197 | it neither depends on the other tasks nor touches them |
| `Pool.ConnPool.SetFactory` | pisa-proxy/proxy/pool/src/conn_pool.rs:111-115 | the factory is there, whether it was before or not |
| `Pool.ConnPool.TakeIdle` | pisa-proxy/proxy/pool/src/conn_pool.rs:145-156 | the oldest idle connection, or an empty queue to come back to, or a panic exactly when one of capacity zero has to be made |
| `Pool.ConnPool.GetConnWithEndpoint` | pisa-proxy/proxy/pool/src/conn_pool.rs:144-197 | the result and the state of that acquisition; a panic exactly without a factory or with capacity zero; else an idle connection that answers or the first successful build of ten or eleven, failing only when all fail; the time slept is 3 * (2^retries - 1) seconds |
| `Pool.ConnPool.Retry` | pisa-proxy/proxy/pool/src/conn_pool.rs:172-197 | the loop is that of the interleavings, returns the first success of ten builds, fails only when all fail, panics exactly without a factory, and is never left at its end |
| `Pool.SleepsDouble` | pisa-proxy/proxy/pool/src/conn_pool.rs:173-194 | the sleeps start at three seconds and double; nine of them make 1533 seconds |
| `Pool.ConnPool.PutBack` | pisa-proxy/proxy/pool/src/conn_pool.rs:231-242 | the drop step of the interleavings: back into its queue unless that is full; it fails exactly without a queue |

## Left out

- `remove_item` of both balancers and `remove_all` of the random one: they leave counters that no longer describe the items, so the run invariants do not extend to them.
- 64-bit overflow of the merge counters: they are unbounded here; in a build that wraps, a poll that never returns would go on after 2^64 answers.
- Setting the merge state in the middle of a batch: covered by the conservation laws, not by the boundary invariant.
- Columns.DecodeFrom: the conversion of a byte that names no column type is undefined in the source; it counts as a panic here.
- ColumnEdits.AddColumnByIdx: a read beyond the buffer is undefined in the source and counts as a panic; so does a cut past the length, which the source allows up to the capacity of the buffer.
- ColumnEdits.RemoveColumnByIdx: the same.
- UpperCase.ToUpper: nothing is said of the buffers after a store past the end of the destination, which the source does not guard against.
- `RowDataBinary`: its offsets do not follow the row as written.
- The values that the aggregates of rows come to are inputs.
- `rebuild_conn` and `rebuild_conn_with_session`: they presuppose a queue that an earlier acquisition made.
- The framework around the decoder (`Framed`) is the loop `Framing.Feed`: drain after each piece. Pieces of length zero are allowed; end of input is not modelled.
- Regular expressions, clocks, pings, builds, random draws and random bytes are inputs.
- The lexer loop and keyword tables, the grammar and the AST, routing, read-write splitting, discovery and sharding rewrite, the transaction state machine, handshakes and password hashing, the controller's reconcilers, the eBPF daemon: mostly tables, plumbing around I/O, and calls of other services.
