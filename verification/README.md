# Headrace: a model of the stream-processing core

Headrace runs pipelines of sources, transforms and sinks over metric records. This project models the parts that hold
state or decide where state lives, and proves what they promise, alone and together:

- **Window** (`WindowModel`, `WindowTheory`, `WindowTimes`, `WindowRuns`, `WindowNames`, `WindowFlush`, `WindowNode`,
  `Tallies`). A class folds records
  into tumbling or sliding event-time windows, fires them on the watermark, refuses groups over a cap and can be flushed
  when its input goes quiet. Its methods refine a state machine; streaming is then proved equal to a batch group-by of
  the in-time records, independent of arrival order within the lateness, unharmed by idle flushes (whose fragments
  merge), and only shed, never altered, by the cap.
- **Routing** (`Keys`, `Routing`). The typed key bytes form a prefix code, so routing bytes and window groups name the
  same groups; N windows, each with its own partitions, emit together what one window would.
- **Join** (`JoinModel`, `JoinTheory`, `JoinFates`, `JoinCompletes`, `JoinNode`). One loop over the merged inputs. Over
  every interleaving: the loop invariant, the fate of every single record, and exactly which groups complete; and what
  an expression over the inputs comes to.
- **Windows into a join** (`WindowsIntoJoin`). Without idle flushes a window never repeats a join group, and a completed
  group holds, for each input, the aggregate of that window's in-time samples; with them, a fragment the window fired.
  For ungrouped windows the join completes exactly what every input fired.
- **Joins over workers** (`JoinWorkers`). A group is completed by the worker that owns its partition alone; with strictly
  increasing window ends the workers complete together exactly what one join completes, with the same values.
- **Expressions** (`ExprModel`, `ExprGrammar`, `ExprRules`, `ExprPrinter`). Lexer, Pratt parser and evaluator. The parser accepts
  exactly the sentences of a stratified grammar that fit the caps, each with one tree; a printer, numerals in decimal, is
  its inverse.
- **Pipelines** (`Pipelines`, `Validator`, `PipelineGraphs`, `PipelineRules`). The five checks, with the reachability worklist, proved to
  accept exactly the well-formed pipelines, and what acceptance gives the nodes.
- **Deltas** (`Deltas`). Cumulative sums to increments, which add up per series under any interleaving.
- **Delivery** and **Lease**. Ack-after-processing and worker leases as step machines, safe in every reachable state.

`Wrappers`, `Ordered`, `Numbers`, `Records` and `Outlets` (an edge whose receiver may go away) hold what is shared. Strings are byte sequences no longer than an
allocation can be; `u64` is a bounded natural number; a double inside an attribute is its 64-bit pattern; aggregated
values are exact reals. A hash map is listed in no particular order, so what leaves a window is a multiset per firing.

## Where the code and its promises part

The lemmas named give a concrete input where a promise fails, and exactly when it holds.

- A join evicts a bucket once every input has *reached* its end, so with several groups in one window a group every
  input supplies can be lost (`JoinCompletes.AlignedGroupsLost`). Whatever the
  interleaving and the repeats, a group completes exactly when all inputs supply it and the input that is the last to,
  when it first does, had not reached that end (`JoinCompletes.GroupCompletesIff`).
- A series key carries no entry counts: for every length 97 + 256m below 2^56 a resource key of that length, a NUL and
  then ASCII, makes two series share a key (`Keys.SeriesKeyCollision`), and their deltas mix
  (`Deltas.CollidingSeriesMix`). Of lengths below 2^56 and first bytes, exactly those sets tell series apart that admit
  no NUL at a length of 97 modulo 256 (`Keys.TellsApartIff`).
- Validation is meant to reject cycles, and accepts one through a join (`PipelineGraphs.AcceptedCycle`). Every accepted
  cycle goes through a join, and a pipeline has none exactly when its transforms can be started one after another
  (`PipelineGraphs.AcyclicIff`).
- Validation accepts a window of size zero when the slide is omitted (`PipelineGraphs.AcceptedZeroSize`); exactly
  otherwise is its step between one and its size (`PipelineGraphs.WindowSettings`), which is what the window is modelled
  for.
- A lease is renewed and deleted without looking at its owner. A gap of a full TTL lets a second holder in
  (`Lease.LateRenewalOvertaken`), as exactly a lapse does (`Lease.OvertakenIff`); a delete that late removes a
  successor's key (`Lease.LateDeleteOvertakes`).
- A join's expression is over the ids of its inputs, but validation lets an id be any text. An accepted text can read an
  input exactly when its id lexes as one identifier and is not `value` (`ExprPrinter.ReadableIff`,
  `JoinNode.NameableIsRead`); `value` and `cpu-a` do not (`JoinNode.UnreadableIds`), and such an input makes no
  difference to what is emitted, whatever the expression (`JoinNode.UnnameableIsIgnored`).
- DESIGN.md:133-135 speaks of late records that update a window already emitted. The code never updates one: a record is
  dropped as late exactly when its newest window has closed (`WindowTheory.LateIffNewestClosed`), which never happens to a record
  within the lateness of the newest before it (`WindowRuns.NothingLate`).

## Model

| member | source | states |
|---|---|---|
| Records.FieldReads | crates/headrace-record/src/lib.rs:107-124 | A field is read from the record's attributes whatever the resource holds, and from the resource only failing that; an integer reads as itself, a boolean or a text is invalid, and the reserved name is the record's own value. |
| Records.KnownDoubles | crates/headrace-record/src/lib.rs:44-50 | Patterns of some doubles, 1, 2.5, -2.5 and 2^53 + 2 among them, read as those numbers. |
| Records.DoubleScales | crates/headrace-record/src/lib.rs:44-50 | One more in the exponent of a normal double is twice its value, and the top bit its sign. |
| Tallies.TallyMeaning | crates/headrace-core/src/transform/window.rs:77-100 | For each of the five ops, the value read from the accumulated tally is the count, the sum, the least, the greatest or the mean of the samples; without samples only a count is emitted. |
| Tallies.TallyOfPermutation | crates/headrace-core/src/transform/window.rs:77-83 | The tally does not depend on the order in which samples are added. |
| Keys.KeyBuffer.WriteKeyBytes | crates/headrace-record/src/lib.rs:57-77 | Appends the type-tagged encoding of a value, strings length-prefixed, and leaves what was there. |
| Keys.KeyBytes | crates/headrace-core/src/backend/nats.rs:134-143 | The routing bytes of a record are the encodings of its group_by fields in order, an absent one being a tag of its own. |
| Keys.FieldPrefixFree | crates/headrace-record/src/lib.rs:57-77 | Field encodings are a prefix code: if two encodings, each with anything after it, are equal, the fields are equal, absent or typed, and so is what follows. |
| Keys.KnownEncodings | crates/headrace-record/src/lib.rs:57-77 | The tags 0 to 4 and the byte order, by examples of an absent field, both booleans, integers of both signs, a double and a text. |
| Keys.AllFieldBytesInjective | crates/headrace-core/src/backend/nats.rs:134-143 | Two field lists of one length with equal routing bytes are equal. |
| Keys.BucketKey | crates/headrace-core/src/transform/join.rs:228-238 | The buffer the join builds is the bounds, little-endian, and then the labels in key order. |
| Keys.BucketKeyInjective | crates/headrace-core/src/transform/join.rs:228-238 | Bucket keys are injective on start, end and labels, with no condition. |
| Keys.SeriesKey | crates/headrace-core/src/otlp/convert.rs:95-111 | The buffer the decoder builds is name, scope, resource section and attribute section, in that order. |
| Keys.SeriesKeyInjective | crates/headrace-core/src/otlp/convert.rs:95-111 | Series keys are injective on name, scope with none read as empty, resource and attributes, when no resource key imitates the attribute mark and attribute keys are shorter than 2^56. |
| Keys.SeriesKeyCollision | crates/headrace-core/src/otlp/convert.rs:103-109 | For every m below 2^48 two different series with ASCII attributes, one with a NUL-led resource key of length 97 + 256m, share a key. |
| Keys.TellsApartIff | crates/headrace-core/src/otlp/convert.rs:95-111 | Whatever lengths below 2^56 and first bytes are admitted in resource keys, series are told apart by their keys exactly if NUL is not admitted at a length of 97 modulo 256. |
| WindowNode.StartsListed | crates/headrace-core/src/transform/window.rs:194-212 | A list of starts as the window computes it is strictly descending, holds exactly the multiples of the slide whose window contains the time, and has at most ceil(size / slide) entries. |
| WindowNode.Window.WindowStarts | crates/headrace-core/src/transform/window.rs:197-212 | Terminates without underflow; the list has min(t/slide + 1, ceil((size - t mod slide)/slide)) entries, each one slide before the last. |
| WindowNode.Window.GroupKey | crates/headrace-core/src/transform/window.rs:363-374 | One typed part per group_by field, and as labels exactly the fields the record has. |
| WindowNode.Window.constructor | crates/headrace-core/src/transform/window.rs:168-186 | A new window has no groups, event time zero and no drops. |
| WindowNode.Window.OnRecord | crates/headrace-core/src/transform/window.rs:217-276 | Fails, changing nothing, exactly on a fault the policy makes an error; otherwise the record is folded into every open window that contains it and admits its group, and one counter or none moves. |
| WindowNode.Window.DrainReady | crates/headrace-core/src/transform/window.rs:293-297 | Removes exactly the windows that end by the watermark and emits their groups' records by window end. |
| WindowNode.Window.DrainAll | crates/headrace-core/src/transform/window.rs:299-303 | Leaves no window open and emits every group. |
| WindowNode.Window.DrainWindows | crates/headrace-core/src/transform/window.rs:305-335 | Removes the windows selected by their end, earliest first, with one record for each group that has a value. |
| WindowNode.Window.DrainSkipped | crates/headrace-core/src/transform/window.rs:278-281 | Returns the count and resets it, touching nothing else. |
| WindowNode.Window.DrainLate | crates/headrace-core/src/transform/window.rs:283-286 | Returns the count and resets it, touching nothing else. |
| WindowNode.Window.DrainCapped | crates/headrace-core/src/transform/window.rs:288-291 | Returns the count and resets it, touching nothing else. |
| WindowNode.Handle | crates/headrace-core/src/transform/window.rs:437-456 | One turn of the loop: fold, meter what was dropped, emit what is ready; an idle timeout flushes all. |
| WindowNode.Emit | crates/headrace-core/src/transform/window.rs:508-522 | Sends records in order, up to the first that cannot be sent, and says whether all were. |
| WindowNode.Run | crates/headrace-core/src/transform/window.rs:392-469 | A whole run sends the records of the stream's firings, in order of window end if there is no idle flush, with the drops it metered and whether it failed; a record it cannot send ends it, after all that was due before was sent in full. |
| WindowTheory.LateIffNewestClosed | crates/headrace-core/src/transform/window.rs:244-274 | No window takes a record exactly when the newest window that contains it has closed. |
| WindowTimes.MaxTsIsNewest | crates/headrace-core/src/transform/window.rs:188-193 | Event time is a timestamp of the records so far and none is newer. |
| WindowTimes.SamplesByTime | crates/headrace-core/src/transform/window.rs:244-249 | The samples of a group are the values of its records that lie in the window and came before event time had reached the window's end and the lateness after it. |
| WindowTimes.FiredIff | crates/headrace-core/src/transform/window.rs:293-297 | At every point of a run without idle flushes, a window that some record reached in time has fired exactly if its end plus the lateness is at most the newest timestamp, and is open otherwise; a cap makes no difference. |
| WindowTimes.LateExactly | crates/headrace-core/src/transform/window.rs:244-274 | The late drops of any clean run are exactly the records with a number whose newest window's end plus the lateness was at most the newest timestamp before them. |
| WindowTimes.OneFate | crates/headrace-core/src/transform/window.rs:262-274 | A record is skipped for a fault, late if it reaches no window that is not past, capped if it reaches only full ones, and otherwise taken; the one counter moves. |
| WindowTimes.TakenWhere | crates/headrace-core/src/transform/window.rs:247-261 | Its group gains one sample in every window it reaches that has room, and nothing else gains or loses. |
| WindowTimes.EveryArrivalCounted | crates/headrace-core/src/transform/window.rs:487-506 | Over a clean run the records are those taken, skipped, late and capped, and the capped drops are those that found every window they reached full. |
| WindowTimes.FailsIff | crates/headrace-core/src/transform/window.rs:218-240 | A run fails exactly at a record that lacks the field when a missing one is an error, or has it as a boolean or text when an invalid one is. |
| WindowTimes.FailedStops | crates/headrace-core/src/transform/window.rs:437-444 | A failed run emits what had fired before, and nothing of what was open. |
| WindowTimes.IdleFiresAll | crates/headrace-core/src/transform/window.rs:451-456 | An idle timeout fires every open window as it is, earliest first, and leaves none; event time and drops stay. |
| WindowTheory.OnRecordAdvances | crates/headrace-core/src/transform/window.rs:262-274 | Every record handled without error leaves event time at the maximum of before and its timestamp, though the late branch never writes it. |
| WindowTheory.EventTimeIsMax | crates/headrace-core/src/transform/window.rs:188-193 | Over any run, with idle flushes anywhere, event time is the maximum timestamp of the records so far. |
| WindowTheory.Conservation | crates/headrace-core/src/transform/window.rs:217-335 | At every point of an uncapped run, what a window and group have emitted and what they still hold merge to the tally of their in-time samples. |
| WindowTheory.FragmentsMergeToBatch | crates/headrace-core/src/transform/window.rs:294-335 | What a whole run emits for a window and group merges to the tally of exactly the samples that arrived before that window closed. |
| WindowTheory.DropsMatchBatch | crates/headrace-core/src/transform/window.rs:487-506 | The metered drops are exactly the faulty records and the late ones, nothing capped, in an uncapped run. |
| WindowRuns.StreamIsBatch | crates/headrace-core/src/transform/window.rs:437-467 | Without cap and idle flushes a run fires each window once, in ascending start order, with exactly the groups that have in-time samples and their batch tallies. |
| WindowFlush.EmittedRecord | crates/headrace-core/src/transform/window.rs:307-335 | The record of a fired group, capped or not, carries the window's bounds, the group's labels and nothing else, and the chosen aggregate of all its in-time samples. |
| WindowNames.EmittedName | crates/headrace-core/src/transform/window.rs:256-261 | The record is called as configured, or else like the group's first in-time record to arrive, capped or not. |
| WindowRuns.StreamAscends | crates/headrace-core/src/transform/window.rs:119-121 | Without idle flushes window starts strictly ascend over the whole run, capped or not. |
| WindowRuns.StreamSound | crates/headrace-core/src/transform/window.rs:250-261 | Every fired group has a sample and labels that determine its key; a fired window has at least one group and at most the cap. |
| WindowRuns.NothingLate | crates/headrace-core/src/transform/window.rs:273-274 | Records that stay within the lateness of the newest before them are never late. |
| WindowRuns.OrderIndependence | crates/headrace-core/src/transform/window.rs:217-303 | Two arrival orders of the same records, both within the lateness, fire the same windows in the same order with the same tallies, and nothing is late. |
| WindowRuns.OrderIndependentRecords | crates/headrace-core/src/transform/window.rs:320-332 | With an output name set, such orders emit the same multiset of records. |
| WindowRuns.LabelsNameGroup | crates/headrace-core/src/transform/window.rs:363-374 | The labels a group carries lose nothing: the group's key can be read back from them. |
| WindowFlush.IdleFlushLosesNothing | crates/headrace-core/src/transform/window.rs:451-456 | With idle flushes at arbitrary points, the fragments of each window and group merge to what the run without them emits, and the drops are the same. |
| WindowFlush.CapOnlySheds | crates/headrace-core/src/transform/window.rs:242-261 | Against the uncapped run of the same events: the same event time, failures, lateness and open windows throughout, and each open or fired window holds a subset of the groups with unaltered values, all of them until full, at least one and at most the cap when fired. |
| WindowFlush.CapEmitsLess | crates/headrace-core/src/transform/window.rs:242-261 | For the same events the capped run emits a sub-multiset of the records the uncapped run emits. |
| Routing.OwnersPartition | crates/headrace-core/src/backend/nats.rs:65-71 | Over the workers of a valid shape every partition has exactly one owner, and every worker owns one. |
| Routing.Partition | crates/headrace-core/src/backend/nats.rs:148-157 | The loop computes 64-bit FNV-1a, wrapping, reduced below the partition count. |
| Routing.LastByteShows | crates/headrace-core/src/backend/nats.rs:148-157 | Keys that differ in their last byte alone have different hashes. |
| Routing.KnownHashes | crates/headrace-core/src/backend/nats.rs:148-157 | The published hashes of the empty key and of the letter a, and a partition of each. |
| Routing.PartitionConfig.Validate | crates/headrace-core/src/backend/nats.rs:41-63 | A shape is valid exactly if there is a worker, no more workers than partitions, and the index is one of them. |
| Routing.Router.Route | crates/headrace-core/src/backend/nats.rs:162-167 | A keyed edge sends by the record's key and leaves the cursor; an unkeyed one takes the cursor's partition and advances it, wrapping at 2^32. |
| Routing.SameGroupIffSameBytes | crates/headrace-core/src/transform/window.rs:37-52 | Two records are in one window group exactly when their routing bytes are equal. |
| Routing.FiredKeepsKey | crates/headrace-core/src/transform/window.rs:322-330 | Over whole runs, the record a fired group becomes has the group key and the partition of every record of that group. |
| Routing.OwnerFiresGroup | crates/headrace-core/src/backend/nats.rs:65-71 | A worker fires a group exactly when it owns the group's partition and the single window would, with the same tally. |
| Routing.WorkersRefineSingle | crates/headrace-core/src/backend/nats.rs:134-167 | N workers, each with the records of its partitions in some in-lateness order, emit together exactly the records one window emits. |
| Routing.WorkersInOrder | crates/headrace-core/src/backend/nats.rs:134-167 | Workers that get their shares in the order of a single run within the lateness are within it, so they emit together what the single window emits. |
| JoinTheory.LoopInvariant | crates/headrace-core/src/transform/join.rs:82-145 | After every message of any interleaving each open bucket is under its own key, counts its filled slots, is neither empty nor complete, ends after the least newest end, and the cap holds. |
| JoinTheory.EveryRecordAccounted | crates/headrace-core/src/transform/join.rs:98-145 | The records handled are as many as those refused, replaced, completed, evicted and held. |
| JoinFates.EveryRecordHasItsFate | crates/headrace-core/src/transform/join.rs:98-145 | Each single record of any interleaving has one fate, borne out by the run: refused with the cap reached, replaced while held by a later value of its input, part of the bucket a step completed with its own value in it, part of one a step evicted, or still held. |
| JoinFates.RefusedIff | crates/headrace-core/src/transform/join.rs:103-105 | A record is refused exactly when as many buckets are open as the cap allows and none is its group's. |
| JoinCompletes.CompletedExactly | crates/headrace-core/src/transform/join.rs:98-131 | With two inputs or more, over any interleaving with any repeats, the completed buckets are in order those of the messages that are the last their group waits for and their input's first to reach that end; each holds every input's newest value by then. |
| JoinCompletes.CompletesOnce | crates/headrace-core/src/transform/join.rs:118-131 | No two buckets the join completes have the same bounds and labels. |
| JoinCompletes.GroupCompletesIff | crates/headrace-core/src/transform/join.rs:133-145 | A bucket with a group's bounds and labels is among the completed exactly when all inputs supply the group and the input of the first message after which all have done so had not yet reached that end. |
| JoinCompletes.StrictCompletesIff | crates/headrace-core/src/transform/join.rs:8-12 | When each input's window ends strictly increase, the groups the join completes are exactly those all inputs supply, in any interleaving. |
| JoinCompletes.EvictedNeverFills | crates/headrace-core/src/transform/join.rs:133-145 | Then an evicted bucket is one that some input never fills, before or after. |
| JoinCompletes.AlignedGroupsLost | crates/headrace-core/src/transform/join.rs:136-139 | Two inputs that both send two groups of one window, in order, can lose both groups. |
| JoinNode.CarryInputs | crates/headrace-core/src/transform/join.rs:205-210 | Adds every input's value under its id, a later one winning. |
| JoinNode.CarriedAt | crates/headrace-core/src/transform/join.rs:205-210 | Afterwards the attributes are the labels and the ids; each id's last slot holds that input's value, and every other label is as it was. |
| JoinNode.Emit | crates/headrace-core/src/transform/join.rs:185-203 | A record with the bucket's bounds: the labels and the expression's value, or none if that is not finite; without an expression the inputs as attributes. |
| JoinNode.AlignOnly | crates/headrace-core/src/transform/join.rs:197-202 | Without an expression a complete bucket becomes a record of its bounds, the value zero and the node's name, which carries the labels and every input's value. |
| JoinNode.AlignOnlyAll | crates/headrace-core/src/transform/join.rs:197-202 | So every completed bucket does, in order. |
| JoinNode.Run | crates/headrace-core/src/transform/join.rs:82-152 | Over a whole merged stream the node sends the completed buckets' records in order and counts capped, incomplete and invalid exactly; it stops early only at a record it cannot send, with what it did before. |
| Outlets.Outlet.Send | crates/headrace-core/src/backend.rs:44-47 | A record is sent, after the ones before it, unless the receiver is gone. |
| JoinNode.ReducesInputs | crates/headrace-core/src/transform/join.rs:185-203 | A record is emitted exactly when the expression has a finite value over the inputs and, failing those, the numeric labels; it carries that value, the node's name and the labels alone, and falls in the same group of a later join. |
| JoinNode.LabelsDoNotMatter | crates/headrace-core/src/transform/join.rs:185-203 | An expression that names inputs only is a function of their values alone. |
| JoinNode.Combines | crates/headrace-core/src/transform/expr.rs:77-95 | An operator between two inputs combines their values, the left one first. |
| JoinNode.NameableIsRead | crates/headrace-core/src/transform/join.rs:205-210 | If an input is the last under its id and the id is an identifier other than the reserved one, some accepted text has that input's value in every bucket. |
| JoinNode.UnnameableIsIgnored | crates/headrace-core/src/transform/join.rs:190-192 | Otherwise the input's value makes no difference to what is emitted, whatever text was accepted. |
| JoinNode.NameableIff | crates/headrace-core/src/transform/expr.rs:145-153 | An ASCII id is readable exactly when it lexes as one identifier and is not the reserved name. |
| JoinNode.UnreadableIds | crates/headrace-core/src/transform/expr.rs:206-210 | The reserved name and a name with a dash are not readable. |
| JoinNode.SingleInputPasses | crates/headrace-core/src/transform/join.rs:118-131 | With one input every record completes its own bucket at once; nothing is held, refused or evicted. |
| WindowsIntoJoin.WindowsNeverRepeat | crates/headrace-core/src/transform/join.rs:6-12 | However windows without idle flushes are interleaved into a join, no input sends two records for one group. |
| WindowsIntoJoin.JoinedFragments | crates/headrace-core/src/transform/join.rs:1-12 | With windows of any kind, idle flushes and caps included, every group the join completes has in each slot what a group of some firing of that window amounts to, under the same bounds and labels. |
| WindowsIntoJoin.JoinedAggregates | crates/headrace-core/src/transform/join.rs:1-12 | Without idle flushes every group the join completes holds, for each input, the aggregate of exactly that window's in-time samples for the same bounds and labels. |
| WindowsIntoJoin.UngroupedJoinIsExact | crates/headrace-core/src/transform/join.rs:6-12 | A join of ungrouped windows delivered in order completes exactly the windows that every input fires. |
| JoinWorkers.WorkerReceives | crates/headrace-core/src/backend/nats.rs:134-167 | A worker receives of an input exactly the records that are routed to it. |
| JoinWorkers.OnlyOwnerCompletes | crates/headrace-core/src/transform/join.rs:133-145 | In whatever order shares arrive, a worker completes a group only if it owns it and all inputs supply it. |
| JoinWorkers.WorkerCompletesIff | crates/headrace-core/src/transform/join.rs:133-145 | With strictly increasing window ends a worker completes exactly the groups it owns among those a single join completes. |
| JoinWorkers.WorkersJoinAlike | crates/headrace-core/src/runtime.rs:183-190 | Then the workers complete together exactly the buckets of the single join, with the same values. |
| ExprModel.Lex | crates/headrace-core/src/transform/expr.rs:112-159 | Tokens are read greedily, leftmost first, whitespace skipped; the first character that starts no token is the error. |
| ExprModel.Parser.Expr | crates/headrace-core/src/transform/expr.rs:184-200 | Climbing by binding power from the current token, with the depth cap: the tree and the position after it, or the first error. |
| ExprModel.Parser.Prefix | crates/headrace-core/src/transform/expr.rs:202-221 | Number, name, unary minus at its binding power, or a parenthesised expression that must close. |
| ExprModel.Parse | crates/headrace-core/src/transform/expr.rs:28-45 | The whole text: empty, too long, malformed and trailing input are told apart in that order. |
| ExprGrammar.ReadsDerivation | crates/headrace-core/src/transform/expr.rs:184-221 | Wherever the text of a derivation stands, the parser reads exactly it and goes on with its tree. |
| ExprGrammar.SentenceParses | crates/headrace-core/src/transform/expr.rs:225-235 | Every sentence of the stratified grammar that fits the caps parses to its tree. |
| ExprGrammar.SentenceHasOneTree | crates/headrace-core/src/transform/expr.rs:225-235 | The grammar is unambiguous: one token list, one tree. |
| ExprGrammar.AcceptsExactly | crates/headrace-core/src/transform/expr.rs:28-45 | A token list is accepted with a tree exactly when it has at most 1024 tokens and derives that tree with at most 64 levels of nesting. |
| ExprRules.WordLexes | crates/headrace-core/src/transform/expr.rs:145-153 | A letter or underscore followed by letters, underscores, digits and points is one identifier. |
| ExprRules.NumberLexes | crates/headrace-core/src/transform/expr.rs:128-143 | Digits, then perhaps a point and digits or none, are one number. |
| ExprRules.SignsLex | crates/headrace-core/src/transform/expr.rs:118-127 | Blank, tab, line feed, form feed and carriage return are passed over, and each of the eight signs is its token. |
| ExprRules.OthersFail | crates/headrace-core/src/transform/expr.rs:155 | Any other character is the error. |
| ExprRules.TwoOperators | crates/headrace-core/src/transform/expr.rs:223-235 | Of two operators in a row the first goes first if it ranks higher, or as high and is no power; powers rank above products, products above sums. |
| ExprRules.MinusFirst | crates/headrace-core/src/transform/expr.rs:182-204 | A minus in front takes in a power and no other operator. |
| ExprRules.MinusSecond | crates/headrace-core/src/transform/expr.rs:182-204 | After an operator a minus is its operand's. |
| ExprRules.ParensFirst | crates/headrace-core/src/transform/expr.rs:211-217 | Parentheses go first and leave no trace. |
| ExprRules.Rejections | crates/headrace-core/src/transform/expr.rs:28-45 | Nothing, too many tokens, something left over, an open parenthesis and a missing operand are told apart. |
| ExprRules.TooDeepNesting | crates/headrace-core/src/transform/expr.rs:184-189 | More than 64 levels of parentheses or minuses are too deep, whatever they enclose. |
| ExprPrinter.PrintParse | crates/headrace-core/src/transform/expr.rs:112-235 | Printing a tree with the fewest parentheses, lexing and parsing it returns the tree, whenever the text fits the caps. |
| ExprPrinter.ReadableIff | crates/headrace-core/src/transform/expr.rs:112-221 | Some accepted text is a field, or mentions it, exactly when its name lexes as one identifier and is not the reserved one. |
| ExprPrinter.WritableIff | crates/headrace-core/src/transform/expr.rs:128-143 | Numerals denote exactly the numbers with finitely many decimal places. |
| ExprPrinter.DecimalReads | crates/headrace-core/src/transform/expr.rs:128-143 | A number written in decimal is a numeral and is read back as that number. |
| ExprPrinter.ToSynShortest | crates/headrace-core/src/transform/expr.rs:225-235 | No sentence for a tree is shorter than the printed one. |
| ExprPrinter.AcceptedTextReprints | crates/headrace-core/src/transform/expr.rs:28-45 | What an accepted text parses to can be printed, and the print is accepted with the same result. |
| Validator.CheckIds | crates/headrace-core/src/runtime.rs:14-22 | The first repeated id, if any. |
| Validator.CheckSettings | crates/headrace-core/src/runtime.rs:30-97 | The first source or transform whose settings do not hold, and why. |
| Validator.CheckUses | crates/headrace-core/src/runtime.rs:99-108 | The first input that names no output or one already consumed. |
| Validator.ReachableIds | crates/headrace-core/src/runtime.rs:262-276 | The worklist terminates with exactly the ids that some path from a source reaches. |
| Validator.CheckReachable | crates/headrace-core/src/runtime.rs:262-284 | The first transform that no path from a source reaches. |
| Validator.CheckJoins | crates/headrace-core/src/runtime.rs:122-182 | The first join with an input that is no window or is not aligned with the first, or that feeds a sink unreduced. |
| Validator.Validate | crates/headrace-core/src/runtime.rs:13-117 | The first fault of the pipeline in the order of the checks, or none. |
| PipelineRules.AcceptsExactly | crates/headrace-core/src/runtime.rs:11-117 | The checks accept exactly the pipelines with unique ids, durations that read, slides between one and the size, no zero cap, expressions that parse, every input an output read once, every transform reachable, joins of aligned windows and no unreduced join into a sink. |
| PipelineRules.AnswersAreReal | crates/headrace-core/src/runtime.rs:11-117 | Whatever problem the checks answer is so, of the node, text or input they name. |
| PipelineRules.OtherEdgesUnkeyed | crates/headrace-core/src/runtime.rs:191-205 | An output that no window and no join reads is not keyed. |
| PipelineGraphs.OneConsumer | crates/headrace-core/src/runtime.rs:246-258 | In an accepted pipeline an output is read by one transform at most and by no sink beside it, and a join's inputs are all different. |
| PipelineGraphs.WindowInputKeyed | crates/headrace-core/src/runtime.rs:191-205 | An edge into a window is keyed by that window's group_by. |
| PipelineGraphs.JoinInputsKeyedAlike | crates/headrace-core/src/runtime.rs:191-205 | All edges into a join come from windows of one group_by and size and are keyed by that group_by. |
| PipelineGraphs.JoinInputsMeet | crates/headrace-core/src/runtime.rs:183-190 | Outputs with the same labels that enter a join by different inputs are sent to one partition. |
| PipelineGraphs.WindowSettings | crates/headrace-core/src/runtime.rs:52-74 | In an accepted pipeline a window's step is between one and its size exactly when the slide is given or the size is not zero. |
| PipelineGraphs.AcceptedZeroSize | crates/headrace-core/src/runtime.rs:52-74 | A pipeline with a window of size zero and no slide is accepted; its step is zero. |
| PipelineGraphs.CyclesPassThroughJoin | crates/headrace-core/src/runtime.rs:260-284 | Every cycle of an accepted pipeline goes through a join. |
| PipelineGraphs.AcyclicIff | crates/headrace-core/src/runtime.rs:260-284 | An accepted pipeline has no cycle exactly when its transforms can be started one after another, each once all its inputs have been. |
| PipelineGraphs.AcceptedCycle | crates/headrace-core/src/runtime.rs:271-277 | A join of two windows, one of which reads the join, is accepted and is a cycle. |
| Deltas.Normalizer.Delta | crates/headrace-core/src/otlp/normalize.rs:24-30 | The reading replaces the series' last one and no other; none for a first reading, the reading itself after a reset, otherwise the difference. |
| Deltas.DecodeMetric | crates/headrace-core/src/otlp/convert.rs:42-87 | Appends one record for each point with a number and a worth, cumulative sums through the normalizer, others as they are. |
| Deltas.PlainMetric | crates/headrace-core/src/otlp/convert.rs:53-86 | A gauge, or a sum of delta temporality, yields one record for each point with a number, with that number, the point's times and attributes and the metric's name, and leaves the normalizer alone. |
| Deltas.CumulativeMetric | crates/headrace-core/src/otlp/convert.rs:53-75 | A sum of temporality code 2 has one running total for each point with a number, under the point's series; other kinds of data yield nothing. |
| Deltas.RecordsTell | crates/headrace-core/src/otlp/convert.rs:77-85 | Every record tells its reading's times, a start of zero being none, and its series. |
| Deltas.PlainSeriesPass | crates/headrace-core/src/otlp/convert.rs:66-68 | Over any sequence of requests, a series none of whose readings is a running total is emitted reading by reading, in order. |
| Deltas.Decode | crates/headrace-core/src/otlp/convert.rs:21-33 | One normalizer runs through all resources, scopes and metrics of a request, in order. |
| Deltas.CallsAreOneRun | crates/headrace-core/src/otlp/convert.rs:21-33 | Successive requests decoded with one normalizer yield what their readings yield in one run. |
| Deltas.SeriesIndependent | crates/headrace-core/src/otlp/convert.rs:66-75 | The values emitted for a series depend on that series' readings alone, however others are interleaved. |
| Deltas.DeltasTelescope | crates/headrace-core/src/otlp/normalize.rs:24-30 | The deltas of a series add up to its last reading less its first, plus the readings just before each reset, one fewer than the readings. |
| Deltas.CounterDeltasNonNegative | crates/headrace-core/src/otlp/normalize.rs:20-23 | A counter with nonnegative readings never yields a negative delta. |
| Deltas.SeriesTelescopes | crates/headrace-core/src/otlp/convert.rs:66-75 | All of this for each series of any sequence of requests, whatever series they interleave. |
| Deltas.StateIsPerSeries | crates/headrace-core/src/otlp/convert.rs:89-94 | With unambiguous keys, readings share a delta state exactly when they are of the same series. |
| Deltas.CollidingSeriesMix | crates/headrace-core/src/otlp/convert.rs:103-109 | Two colliding series with ASCII attributes mix: the first reading of one is emitted as an increment of the other. |
| Delivery.AckedAreFinished | crates/headrace-core/src/backend/nats.rs:453-456 | In every reachable world an acked message is unreadable or was returned to a caller that has come back since; a finished one is acked, still held to be acked, or lost its ack to a failure. |
| Delivery.GoneForGood | crates/headrace-core/src/backend/nats.rs:94-105 | A message whose ack has been heard and of which the process holds no copy is never given to a process again, over all that can happen. |
| Delivery.RebindForgets | crates/headrace-core/src/backend/nats.rs:543-553 | After a rebind that holds of every message acked before it. |
| Delivery.ComesBackIff | crates/headrace-core/src/backend/nats.rs:94-105 | Wherever a process is when it crashes, some continuation gives a readable message to a process again exactly when its ack had not been heard. |
| Delivery.UnfinishedComesBack | crates/headrace-core/src/backend/nats.rs:491-556 | So whatever no caller has finished is unacked and comes back. |
| Delivery.NatsConsumer.AckPrevious | crates/headrace-core/src/backend/nats.rs:512-515 | Acks what was held, once, and then holds nothing. |
| Delivery.NatsConsumer.EnsureBound | crates/headrace-core/src/backend/nats.rs:496-511 | The streams are bound if they were or can be; otherwise the round ends, with the call if draining. |
| Delivery.NatsConsumer.TakePull | crates/headrace-core/src/backend/nats.rs:529-553 | A readable message is held and returned, an unreadable one acked and skipped, an error or an end leads to a rebind, silence ends a drain. |
| Delivery.NatsConsumer.TakeRound | crates/headrace-core/src/backend/nats.rs:493-553 | Once round the loop: bind if need be, settle the last message, pull; the streams are dropped exactly if the pull fails. |
| Delivery.NatsConsumer.Recv | crates/headrace-core/src/backend/nats.rs:491-556 | Whatever the environment answers, the outcome, what is held and what the server has heard are what the rounds determine, and the call is a run of the step machine with one rebind for each failed pull, so it is safe at each point where it can be cut short. |
| Delivery.FailedPullForgets | crates/headrace-core/src/backend/nats.rs:540-553 | After a failed pull a call returns nothing that was acked by then, and if it drains and cannot bind at once it is closed. |
| Delivery.NothingComes | crates/headrace-core/src/backend/nats.rs:496-528 | Silence closes a call that drains and leaves another waiting; a bind that fails closes it only if it drains, and is tried again otherwise. |
| Delivery.MessageComes | crates/headrace-core/src/backend/nats.rs:529-539 | A message that comes is returned and held if it can be read, and acked and passed over if not. |
| Delivery.NextCallAcks | crates/headrace-core/src/backend/nats.rs:512-515 | What one call returns is acked by the next before anything else, if the ack arrives. |
| Lease.TimelyIsExclusive | crates/headrace-core/src/backend/nats.rs:268-272 | If no running task lets a full TTL pass since its last write, there is never more than one, hence never two holders. |
| Lease.OvertakenIff | crates/headrace-core/src/backend/nats.rs:280-297 | While one task runs another worker can claim exactly when that task has lapsed and no unheard claim holds the key. |
| Lease.CrashedIndexFrees | crates/headrace-core/src/backend/nats.rs:305-306 | After the only task crashes its index can be claimed exactly once a TTL has passed since its last write. |
| Lease.ReleasedIndexFrees | crates/headrace-core/src/backend/nats.rs:382-385 | Dropping the guard and deleting the key frees the index at once. |
| Lease.LateRenewalOvertaken | crates/headrace-core/src/backend/nats.rs:377-381 | A renewal gap of a full TTL ends with two holders. |
| Lease.LateRenewalOverwrites | crates/headrace-core/src/backend/nats.rs:377-381 | A late renewal takes the key back from a successor that goes on holding the index. |
| Lease.LateDeleteOvertakes | crates/headrace-core/src/backend/nats.rs:382-385 | A delete a full TTL late ends with two holders, neither of which has lapsed. |

## Left out

- Scheduling: tasks, channels, `select!` and signals are an arbitrary order of events; the join's forwarders are an
  arbitrary interleaving of tagged messages. A forwarder calls `recv` again once a record is queued, so for a join the
  delivery property is about the forwarder.
- Floating point: aggregates, deltas and numerals are exact reals, infinities and NaN do not occur, and the arithmetic of
  an expression is a parameter, as is the 64-bit pattern a value is carried as.
- JoinNode.ReducesInputs: assumes that this pattern reads back as the same value, which holds for doubles; so does
  JoinNode.UnnameableIsIgnored.
- Counters are unbounded naturals where the code uses 64 bits.
- WindowNode.Window.OnRecord: the timestamp plus the window size must fit in 64 bits, as in the code's own additions.
- Routing.WorkersRefineSingle: assumes an output name. Without one the emitted name is that of the group's first record
  to arrive, which depends on the order; tallies are compared without it (WindowRuns.OrderIndependence).
- A group's accumulator is a value inside the window's map, not an object updated in place.
- JoinCompletes.CompletedExactly: is about two inputs or more and no cap, like what follows from it; one input is
  JoinNode.SingleInputPasses.
- JoinWorkers.WorkersJoinAlike: is about strictly increasing window ends on each worker; without them each worker has a
  watermark of its own and completes by JoinCompletes.GroupCompletesIff over its share.
- The window and join snapshots for inspection, their publishing, logging and metrics other than the drop counts.
- Duration texts are read by a parameter; the expression in a `map` is checked, its evaluation per record is not modelled.
- Settings of nodes that the checks do not look at: aggregates, source and sink addresses, wasm modules.
- The servers: delivery has one that sends what is unacked, any number of times, into a buffer that a crash or a rebind
  empties; leases have one that drops a key a TTL after its last write. Stream limits, consumer configuration and retries of a publish are not modelled.
- Lease: claiming and renewing are steps, not loops; a failed attempt changes nothing and a claim whose reply is lost is a
  step of its own.
- Numerals that round when parsed. The printer puts a space after each token.
- `filter`, `map`, wasm, OTLP transport and encoding, the state server, the command line, sources and sinks.
