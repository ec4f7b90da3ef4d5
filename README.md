# Causal ordering for the chatroom: logical clocks, vector clocks and a message receptacle

This project models the Go library that the chatroom uses to order messages
causally.

- `logical/logicalClock.go` holds Lamport clocks. A clock is an unbounded
  counter that may be nil, and a nil counter reads as zero.
- `vector/vectorClock.go` holds vector clocks. A clock has a 1-based owner id
  and one counter per process. It also holds the timestamps that carry a
  clock inside a message, and the `MessageReceptacle`. A monitor uses the
  receptacle to hold received messages until every message that causally
  precedes them has been delivered.

The Dafny modules follow the Go packages:

| file | module | models |
|---|---|---|
| `wrappers.dfy` | `Wrappers` | `Option` and `Result` |
| `numerals.dfy` | `Numerals` | what the clocks use of math/big: `Int.Text(base)` and `Int.SetString(s, base)` for bases 2 to 62 |
| `logical_clock.dfy` | `Logical` | class `Clock`. Its counter is `Option<nat>`, where `None` is a nil counter. Every method updates the counter in place, as the Go methods do |
| `vector_clock.dfy` | `Vector` | class `Clock` (`id`, `vector: seq<nat>`), datatype `Timestamp`, class `Message`, datatype `ClockBuilder`, the comparisons, `String`, `Timestamp`, `ClockBase` and `Unmarshal` |
| `receptacle.dfy` | `Receptacle` | class `MessageReceptacle` (`counter`, and `received`, a map keyed by message reference), `Receive`, `deliver` (as `Deliver`) and `Deliverables` |

`Deliverables` ranges over a Go map, and Go leaves the order of that range
unspecified. The model therefore takes the visit order as a parameter. Any
order is allowed if it visits every stored message exactly once (`VisitOrder`).
The method is proved against a function on values. `Pass(counter, stamps,
order)` gives the counter and delivery list that one pass leaves, where
`stamps` holds the values of the stored clocks (`Snapshot`). Lemmas about
`Pass` then state what a pass guarantees:

- it delivers only messages it visits, and each one at most once;
- each counter grows by exactly the number of that process's messages
  delivered;
- every delivered clock is dominated by the final counter;
- the delivery list is in causal order;
- the receptacle shrinks by exactly the number of messages delivered.

`Size` and `Length` of the receptacle are plain functions, and so are `Id`
and `Length` of a vector clock. `Size` and `Length` appear in the contracts
of `NewMessageReceptacle` and `Receive`. `String` reads a vector clock's
`Length`. A vector clock's `Id` has only its own contract.

The code and its comments disagree in three places. The model follows the
code:

- The comment on `Cmp` (logical/logicalClock.go:40-45) lists 0 for
  "clk > other" and 1 for "clk = other". The code returns math/big's -1, 0 or
  +1, so `Compare` is specified that way.
- The comment on `deliver` (vector/vectorClock.go:182-184) says it fails when
  `counter < ts`. The code tests `counter > ts` (line 201). That branch can
  never be taken, because the guard requires `counter + 1 == ts` for the
  sender. `Deliver` proves this: its error result is always `None`.
- `ExampleClock_LessThan` (vector/vectorClock_test.go:333) comments that
  `TickReceive` leaves `[0, 0, 2]`. Vector `TickReceive` never ticks the local
  component, so the clock becomes `[1, 0, 1]` (`ReceiveOrderScenario`). The
  expected output `[1, 0, 0] < [0, 0, 2]: true` (line 339) holds only for
  `[1, 0, 1]`. Against `[0, 0, 2]`, `LessThan` would be false, because the
  owner's component 1 is larger than 0.

## Model

| member | source | states |
|---|---|---|
| Numerals.TextDigits | logical/logicalClock.go:16-22 | `Text(n, base)` uses only digits of the base, and those digits denote `n` |
| Numerals.ParseText | logical/logicalClock.go:56-68 | `SetString` of the text that `Text` wrote succeeds and gives back the same number, also as a natural number |
| Numerals.ParseNegativeText | logical/logicalClock.go:61-63 | a minus sign before a positive number parses to a negative value, which a clock refuses |
| Numerals.ParseRejects | logical/logicalClock.go:61-62 | empty text, or text ending in a character that is not a digit of the base, does not parse |
| Logical.Compare | logical/logicalClock.go:46-54 | the result is -1, 0 or +1 exactly when the first value is smaller, equal or larger |
| Logical.Clock.constructor | logical/logicalClock.go:9-14 | the zero value has a nil counter and reads as 0 |
| Logical.Clock.Text | logical/logicalClock.go:16-22 | a nil counter becomes an explicit zero, the value is kept, and the text is the value written in the base |
| Logical.Clock.String | logical/logicalClock.go:24-30 | the same as `Text` in base 10 |
| Logical.Clock.Tick | logical/logicalClock.go:32-38 | the value grows by exactly one, including from a nil counter |
| Logical.Clock.Cmp | logical/logicalClock.go:40-54 | three-way comparison of the two values; both counters end up non-nil with their values kept |
| Logical.Clock.SetString | logical/logicalClock.go:56-68 | succeeds exactly when the text parses to a value that is not negative, and the clock then holds that value; on failure the counter is unchanged; the clock itself is returned |
| Logical.Clock.Max | logical/logicalClock.go:70-76 | the clock becomes the larger of the two values and is returned; the other clock's value is unchanged |
| Logical.Clock.TickReceive | logical/logicalClock.go:78-81 | the clock becomes max{clk, other} + 1; a distinct other clock keeps its value |
| Logical.TextThenSetString | logical/logicalClock.go:16-68 | writing a clock in a base and setting it back from that text succeeds and restores its value |
| Logical.TickScenarios | logical/clock_test.go:8-42 | ticking a zero-value clock, or one set from "0", reads "1" |
| Logical.SetStringScenarios | logical/clock_test.go:17-33 | "0" sets a clock to zero; "-1" is refused |
| Logical.TickReceiveZeroScenario | logical/clock_test.go:44-51 | max{0, 0} + 1 reads "1" |
| Logical.TickReceiveOneScenario | logical/clock_test.go:53-61 | max{0, 1} + 1 reads "2" |
| Logical.TickReceiveOtherNilScenario | logical/clock_test.go:63-70 | max{1, 0} + 1 reads "2" when the other clock is nil |
| Logical.CmpZeroScenarios | logical/clock_test.go:72-94 | zero-value clocks, and a zero-value clock against one set from "0", compare equal in both directions |
| Vector.ClockBuilder.Length | vector/vectorClock.go:216-220 | sets the length and keeps the id |
| Vector.ClockBuilder.Id | vector/vectorClock.go:222-226 | sets the id and keeps the length |
| Vector.NewClockBuilder | vector/vectorClock.go:243-246 | a new builder has id 0 and length 0, which `Build` refuses until both are set |
| Vector.ClockBuilder.Build | vector/vectorClock.go:228-241 | succeeds exactly when 1 <= id <= length, with a fresh clock of that id and `length` zero components; otherwise no clock and the id-out-of-range error |
| Vector.Message.constructor | vector/vectorClock.go:54-60 | a message holds its content and its timestamp |
| Vector.Clock.constructor | vector/vectorClock.go:26-42 | the zero-value clock has id 0 and no components |
| Vector.Clock.Id | vector/vectorClock.go:248-251 | the owner's id, which names one of the components of a valid clock that has any |
| Vector.Clock.Length | vector/vectorClock.go:253-256 | the number of components, zero exactly when the clock is uninitialized for comparison |
| Vector.Clock.ErrComparableTo | vector/vectorClock.go:484-498 | no error exactly when the clock has components and the other clock has as many; the uninitialized error exactly when the clock has no components |
| Vector.Clock.PairwiseInconsistent | vector/vectorClock.go:473-482 | requires valid clocks that are comparable, the assumption stated at line 478; inconsistent clocks never have the same components; `PairwiseInconsistentSymmetric` and `SameOwnerInconsistent` state the rest |
| Vector.Clock.LessThan | vector/vectorClock.go:424-446 | holds only for comparable clocks |
| Vector.Clock.Concurrent | vector/vectorClock.go:448-471 | when it holds, the owners differ and happens-before holds in neither direction |
| Vector.Clock.Equal | vector/vectorClock.go:403-422 | as written, true exactly when the two clocks have the same length, whatever their components |
| Vector.Clock.SameValue | vector/vectorClock.go:403-406 | equality as documented: true exactly when the component sequences are equal, ids ignored |
| Vector.Clock.TickLocal | vector/vectorClock.go:363-372 | only the owner's component grows, by one; a clock without components is unchanged |
| Vector.Clock.TickReceive | vector/vectorClock.go:374-401 | errs exactly when the clocks are not comparable or are pairwise inconsistent, and then nothing changes; otherwise every component except the owner's becomes the larger of the two, the owner's component is kept, and the other clock is unchanged |
| Vector.Clock.Timestamp | vector/vectorClock.go:281-291 | the timestamp holds the id and each component written in the base, in order |
| Vector.Timestamp.ClockBase | vector/vectorClock.go:293-318 | no clock exactly when the id names no component; otherwise a fresh clock of that id and length; no error exactly when every component parses, and the clock then holds the decoded components; otherwise the first unparsable component is reported |
| Vector.Timestamp.Clock | vector/vectorClock.go:320-326 | `ClockBase` in the largest base: no clock exactly when the id names no component, and then the id-out-of-range error; otherwise a fresh clock of that id and length; no error exactly when every component parses, and the clock then holds the decoded components; otherwise the first unparsable component is reported |
| Vector.Clock.Unmarshal | vector/vectorClock.go:333-361 | after JSON decoding: a timestamp whose id names no component is refused and the clock is unchanged; otherwise the clock takes the id and length, succeeds exactly when every component parses, and then holds the decoded components |
| Vector.ParseEncode | vector/vectorClock.go:281-318 | parsing the texts that `Timestamp` writes gives back the same components |
| Vector.DecodeTimestamp | vector/vectorClock.go:281-318 | a clock's timestamp in any base, decoded in that base, gives back the same components |
| Vector.MarshalRoundTrip | vector/vectorClock.go:328-361 | the timestamp a clock marshals to, unmarshalled into any clock, gives it the same id and components |
| Vector.String | vector/vectorClock.go:258-279 | "<nil>" for no clock; otherwise the base-10 components joined by ", " inside brackets, which is "[]" for a clock without components |
| Vector.NewMessage | vector/vectorClock.go:68-78 | the message carries the content and the clock's timestamp in the largest base, and that timestamp decodes back to the clock's components |
| Vector.PairwiseInconsistentSymmetric | vector/vectorClock.go:473-482 | comparability and pairwise inconsistency do not depend on the order of the two clocks |
| Vector.SameOwnerInconsistent | vector/vectorClock.go:473-482 | two clocks of one owner are pairwise inconsistent exactly when the owner's components differ |
| Vector.LessThanIrreflexive | vector/vectorClock.go:434-440 | no clock happens before itself |
| Vector.LessThanSameOwnerAsymmetric | vector/vectorClock.go:434-440 | between clocks of one owner, happens-before never holds both ways |
| Vector.LessThanOtherOwner | vector/vectorClock.go:434-446 | between owners, `a < b` exactly when the clocks are comparable and consistent and agree on `a`'s own component |
| Vector.LessThanBothWays | vector/vectorClock.go:434-446 | as written, two clocks of different owners with equal components each happen before the other |
| Vector.ConcurrentSymmetric | vector/vectorClock.go:458-471 | concurrency does not depend on the order of the two clocks |
| Vector.ConcurrentIffUnordered | vector/vectorClock.go:448-471 | for consistent, comparable clocks of different owners, concurrency is exactly the absence of happens-before in both directions |
| Vector.BuildScenarios | vector/vectorClock.go:228-246 | id 2 with length 1 and an unset id are refused with their values; id 1 with length 3 builds [0, 0, 0] |
| Vector.StringScenarios | vector/vectorClock_test.go:25-49 | "<nil>", "[]", "[0]" and "[0, 0]" |
| Vector.TickedStringScenario | vector/vectorClock_test.go:126-133 | a five-component clock ticked once reads "[1, 0, 0, 0, 0]" and marshals as id 1 with "1", "0", "0", "0", "0" |
| Vector.UnmarshalScenario | vector/vectorClock_test.go:116-124 | unmarshalling id 1 with "1", "0", "0", "0", "0" into a zero-value clock reads "[1, 0, 0, 0, 0]" |
| Vector.EqualScenarios | vector/vectorClock_test.go:51-66 | two empty clocks are equal, different lengths are not, different ids are ignored; as written, [0, 0, 0] equals [0, 1, 0], while `SameValue` tells them apart |
| Vector.ComparableScenarios | vector/vectorClock_test.go:68-83 | empty clocks are uninitialized, different lengths differ, different ids are comparable |
| Vector.LessThanScenarios | vector/vectorClock_test.go:85-114 | fresh clocks of one owner are unordered; a tick orders them one way only, and so does a tick of another owner |
| Vector.ReceiveOrderScenario | vector/vectorClock_test.go:324-351 | [1, 0, 0] and [0, 0, 1] are unordered and concurrent; after the receive the second reads "[1, 0, 1]" and the first happens before it, not the reverse |
| Vector.TickReceiveScenario | vector/vectorClock_test.go:146-174 | the exchange between A and B leaves [0, 1, 0, 0] twice, then [0, 1, 1, 0] twice, without errors |
| Vector.ClockBaseScenario | vector/vectorClock_test.go:135-144 | "9", "10", "11", "12" in base 10 decode to [9, 10, 11, 12] |
| Vector.NewMessageScenario | vector/vectorClock_test.go:12-23 | a new clock of one component is sent with id 1 and components "0" |
| Receptacle.PassDeliversFromOrder | vector/vectorClock.go:167-176 | a pass delivers only messages it visits, each at most once when the order visits each message once |
| Receptacle.PassCounts | vector/vectorClock.go:185-214 | after a pass, each process's counter has grown by exactly the number of its messages delivered |
| Receptacle.PassDominates | vector/vectorClock.go:188-211 | every delivered clock is dominated, component by component, by the counter the pass leaves |
| Receptacle.PassCausal | vector/vectorClock.go:151-155 | each message in a delivery has seen more events of its own sender than every message delivered before it, so under the vector order it cannot happen before any of them |
| Receptacle.RemovedCount | vector/vectorClock.go:139-143 | removing distinct stored messages leaves exactly that many fewer |
| Receptacle.DeliveredCount | vector/vectorClock.go:200-211 | a pass removes exactly as many messages from the receptacle as it delivers, so `Size` drops by the length of the delivery |
| Receptacle.MessageReceptacle.Size | vector/vectorClock.go:139-143 | the number of stored messages, zero exactly when none is stored |
| Receptacle.MessageReceptacle.Length | vector/vectorClock.go:145-149 | the number of processes, one counter each |
| Receptacle.MessageReceptacle.constructor | vector/vectorClock.go:100-103 | `n` zero counters and no messages |
| Receptacle.NewMessageReceptacle | vector/vectorClock.go:92-104 | none exactly when `n < 0`; otherwise length `n`, size 0, zero counters |
| Receptacle.MessageReceptacle.Receive | vector/vectorClock.go:106-137 | refuses a timestamp of another length, then one that does not decode, then a message already stored, in that order and with the matching error, leaving the receptacle as it was; otherwise stores the message with a fresh clock of its decoded value, so `Size` grows by one; the counter never changes |
| Receptacle.MessageReceptacle.Deliver | vector/vectorClock.go:178-214 | delivers exactly when the timestamp is the sender's next event and has seen nothing undelivered from the others: only the sender's counter changes, to the timestamp's component, and the message is appended and taken out; otherwise nothing changes; the error branch is never taken |
| Receptacle.MessageReceptacle.Deliverables | vector/vectorClock.go:151-176 | for any visit order over the stored messages, the counter and delivery are those of `Pass` over the stored clocks, the delivered messages leave the receptacle, and no error is returned |
| Receptacle.EmptyReceptacleScenario | vector/vectorClock_test.go:176-197 | a new receptacle for two processes has length 2, size 0, counter [0 0] and delivers nothing |
| Receptacle.FirstSend | vector/vectorClock_test.go:199-206 | p1's first send reads [1, 0], and its message decodes to [1, 0] |
| Receptacle.Reply | vector/vectorClock_test.go:208-225 | p2 receives [1, 0], ticks, and sends [1, 1] |
| Receptacle.Report | vector/vectorClock_test.go:278-295 | p1 receives [1, 1], ticks, and reports [2, 1] |
| Receptacle.EarlyReportWaits | vector/vectorClock_test.go:227-247 | p2's reply, stored alone, is not delivered and the counter stays [0 0] |
| Receptacle.FirstMessageDelivered | vector/vectorClock_test.go:249-266 | with p1's message stored too, a pass visiting the reply first delivers only p1's message, and the counter becomes [1 0] |
| Receptacle.ReplyDelivered | vector/vectorClock_test.go:267-276 | the next pass delivers the reply, and the counter becomes [1 1] |
| Receptacle.ReportDelivered | vector/vectorClock_test.go:297-317 | p1's report is delivered at once, and the counter becomes [2 1] |
| Receptacle.StoreExchange | vector/vectorClock_test.go:176-259 | p1's first message and p2's reply, received by a new receptacle in the test's order, are both accepted; the stored clocks have the values [1, 0] of owner 1 and [1, 1] of owner 2, and the counter stays [0 0] |
| Receptacle.ReceiveReply | vector/vectorClock_test.go:227-240 | a new receptacle for two processes accepts p2's reply and stores a fresh clock of value [1, 1], owner 2, with the counter at [0 0] |
| Receptacle.ReceiveBoth | vector/vectorClock_test.go:249-259 | after the reply, p1's first message is accepted too; the size is 2, and the reply's stored clock is untouched |
| Receptacle.MonitorFirstPass | vector/vectorClock_test.go:249-266 | on that receptacle, `Deliverables` visiting the reply first delivers p1's message alone and leaves the counter at [1 0]; the stored clocks are the ones `FirstMessageDelivered` starts from |
| Receptacle.TwoPassesAnyOrder | vector/vectorClock_test.go:260-276 | in either visit order, the two passes together deliver p1's message and then the reply, and leave the counter at [1 1] |
| Receptacle.VisitOrderMatters | vector/vectorClock_test.go:260-266 | a pass visiting p1's message before the reply delivers both, so the test's single delivery depends on visit order |
| Receptacle.ReceiveScenario | vector/vectorClock.go:121-137 | a decodable message is accepted once, refused as already received the second time, and refused by a receptacle of another length |

## Findings

| source | as written | input that shows it | evidently intended | confidence | as-written member | corrected member |
|---|---|---|---|---|---|---|
| vector/vectorClock_test.go:260-273 | expects exactly one delivery from each of two passes, though Go does not fix the order of a map range | p1's message and the reply stored together, with p1's message visited first: the first pass delivers both, and the second delivers nothing | the two passes together deliver p1's message, then the reply, whatever the visit order | high, not executed | Receptacle.VisitOrderMatters (against Receptacle.FirstMessageDelivered) | Receptacle.TwoPassesAnyOrder |
| vector/vectorClock.go:416-420 | `Equal` compares each component of `clk` with itself, so only the lengths decide | clocks [0, 0, 0] and [0, 1, 0], owners 1 and 2: `Equal` is true | compare `clk.vector[i]` with `other.vector[i]`, as the comment at line 403 says | high, not executed | Vector.Clock.Equal (and Vector.EqualScenarios) | Vector.Clock.SameValue |

## Left out

- The JSON byte layer is left out, because encoding/json is a library outside this model. This covers `MarshalJSON` and the `json.Unmarshal` call in `UnmarshalJSON`, the struct tags of `Timestamp` and `Message`, and `ExampleMessage`. `Timestamp` is modelled, and so is what `UnmarshalJSON` does after decoding (`Clock.Unmarshal`). The tests' marshal-then-unmarshal steps pass timestamps directly.
- `Numerals` covers math/big's text forms only for bases 2 to 62. Base 0 (prefix detection and underscores) and bases outside that range (a panic in Go) are not modelled. The clocks never use them.
- `logical.MaxBase`, `Clock.CmpOffset` and `Clock.Set` are not part of this model, because logicalClock.go does not define them. The model reads `MaxBase` as 62, the largest base math/big accepts. It reads `CmpOffset(+1, x) == 0` as `counter + 1 == x`, and `Set` as copying the value.
- Vector components are modelled as natural numbers, not as `logical.Clock` objects. A nil counter inside a vector is therefore not told apart from zero. The component references that `Max` and `Cmp` receive (`&other.vector[i]`) are not modelled as shared objects.
- Error values are constructors of `Vector.Error`. The texts of Go's error messages, including the clock strings in the pairwise-inconsistent error, are not modelled.
- Go's `int` is modelled as an unbounded integer. Ids and lengths never come close to 64 bits.
- Go's map iteration order is not modelled as a particular order. `Deliverables` takes the visit order as a parameter.
- Receptacle.MessageReceptacle.Deliverables: its contract states only its equation with `Pass`, the messages taken out, and the absent error. Causal order and the drop in `Size` are proved about `Pass`, in `PassCausal` and `DeliveredCount`, and follow from that equation.
- Receptacle.MessageReceptacle.Valid: the receptacle invariant only requires each stored clock to fit the receptacle. The link between a stored clock and its message's decoded timestamp is stated by `Receive`, message by message, and is not kept as an invariant.
- Logical.Clock.Max: the contract says the other clock keeps its value. It does not say that a nil counter of the other clock becomes an explicit zero.
- Vector.ClockBuilder.Length and Vector.ClockBuilder.Id return a new builder value. Go's methods change the builder in place and return the same pointer, so a Go caller that ignores the result still sees the change. The model loses that. Every call shown chains the calls.
- The rest of the repository is not part of this model: the chat servers (src/server/server.go, server/server.go, server.go), which are sockets, goroutines, locks and timers; the package documentation src/vector/doc.go; and the test-runner script grading.py, which drives external processes and files.
