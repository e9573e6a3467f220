# SurgeProtector core, modelled in Dafny

SurgeProtector studies algorithmic-complexity attacks on packet schedulers. A
discrete-event simulator serves packets through a network application (Echo or
TCP reassembly) behind a queueing policy (FCFS, FQ, SJF-Inorder, WSJF-Inorder,
...), with packets coming from synthetic or trace-driven traffic generators. A
set of Python adversary analyzers compute, for each policy, the attack that
does the most harm to innocent goodput. A hardware-friendly scheduler library
(HFFS heaps, bounded heaps, a FIFO) backs the WSJF scheduler of the benchmark
server.

This project models that core:

- the shared utilities: `endsWith`, `split` and the `MinHeapEntry` comparator
  (module `Utils`), the rate strings of the Python scripts (`RateConverter`),
  the number parsing and printing they rely on (`Text`, `Numeric`);
- packets, flow identifiers and TCP headers (`Packets`);
- the Echo application and the application parameters (`Applications`);
- TCP reassembly, both as a specification on values (`TcpSpec`) and as the
  imperative flow state and flow table (`TcpReassemblyApp`);
- the simulator's server (`Servers`) and its queues (`SimFcfs`, `SimFq`,
  `SimSjfInorder`, `SimWsjfInorder`);
- the scheduler heaps: the HFFS tree of bitmaps (`HffsTree`) and queue
  (`Hffs`), the bounded heap (`BoundedHeaps`) and the scheduler's FIFO
  (`SchedFcfs`);
- the synthetic and trace traffic generators (`Traffic`, `TraceTraffic`);
- the adversary analyzers: the common trace parsing and goodput formulas
  (`AnalyzeCommon`), the optimum scan they share (`AnalyzeScan`), per-flow
  aggregates (`FlowProfile`), and one module per policy (`AnalyzeFcfs`,
  `AnalyzeFq`, `AnalyzeSjf`, `AnalyzeSjfInorder`, `AnalyzeWsjf`,
  `AnalyzeWsjfInorder`).

Code that updates objects in place (the queues, heaps, flow states, server,
generators and analyzer objects) is modelled as classes with `modifies`
clauses and loops with invariants; each method is proved against a function
on values whose properties are proved as lemmas. Pure code (formulas, parsing,
the comparator) is modelled as functions and lemmas.

C++ unsigned arithmetic is written out modulo 2^16, 2^32 or 2^64 where the
source relies on it. Python floats and C++ doubles are modelled as exact
reals; Python `int()` on a float is truncation toward zero, `round()` is
banker's rounding, and a division by zero is a `ZeroDivision` failure.

## Model

| member | source | states |
|---|---|---|
| Numeric.Narrow32 | simulator/src/traffic/trace_trafficgen.cpp:82-83 | conversion to `uint32_t` (the low 32 bits) leaves a value that already fits unchanged |
| Numeric.Narrow16 | simulator/src/traffic/trace_trafficgen.cpp:84-85 | conversion to `uint16_t` (the low 16 bits) leaves a value that already fits unchanged |
| Numeric.Narrow64 | simulator/src/traffic/trace_trafficgen.cpp:79-80 | `unsigned long` arithmetic (the low 64 bits) leaves a value that already fits unchanged |
| Numeric.Trunc | simulator/scripts/adversary/analyze_sjf.py:25 | Python `int()` of a float lies within 1 of it toward zero: the floor for non-negative values, never beyond the value on either side |
| Numeric.Round | simulator/scripts/adversary/analyze_wsjf.py:48-49 | Python `round()` lies within 1/2 of its argument, and an exact half goes to the even neighbour |
| Numeric.RoundMonotone | simulator/scripts/adversary/analyze_wsjf.py:48-49 | rounding is monotone, so the rounded ratios of sorted arrivals are sorted |
| Numeric.TruncMonotone | simulator/scripts/adversary/analyze_sjf_inorder.py:59-60 | truncation is monotone, so the truncated averages of sorted flows are sorted |
| Text.Strip | simulator/scripts/common.py:18 | `str.strip` leaves a string that is empty or starts and ends with a character other than ASCII whitespace, and is no longer than its input |
| Text.PyInt | simulator/scripts/common.py:18 | `int(s)` succeeds only on a string that is not blank; the definition accepts surrounding ASCII whitespace, an optional sign and ASCII decimal digits, and fails with ValueError otherwise |
| Text.StoUL | simulator/src/traffic/trace_trafficgen.cpp:79-85 | `std::stoul` returns a value below 2^64 on success; the definition reads the longest digit prefix after whitespace and sign, and fails without a digit or above 2^64 |
| Text.StoI | simulator/src/traffic/trace_trafficgen.cpp:86 | `std::stoi` returns a value in the 32-bit `int` range on success |
| Text.StoULOfDigits | simulator/src/traffic/trace_trafficgen.cpp:79-85 | `std::stoul` reads back the digits of any `unsigned long`, in any base from 2 to 16 |
| Text.StoIOfDigits | simulator/src/traffic/trace_trafficgen.cpp:86 | `std::stoi` reads back the decimal digits of any non-negative `int` |
| Text.StoDOfExponent | simulator/src/traffic/trace_trafficgen.cpp:108-110 | `std::stod` reads digits followed by an exponent ("15e-1") as the digits' value times ten to that power, stopping before any non-digit that follows |
| Text.PyFloatOfDecimal | simulator/scripts/adversary/analyze_common.py:34-35 | Python's `float` reads "w.f" as the exact decimal value of w followed by the fraction digits f |
| Text.PyFloatOfScientific | simulator/scripts/adversary/analyze_common.py:34-35 | Python's `float` reads "w.fe<exponent>" as that decimal value times ten to the exponent, for negative exponents too |
| Text.StoDOfDigits | simulator/src/traffic/trace_trafficgen.cpp:108-110 | `std::stod` reads back the decimal digits of a natural number as its value |
| Text.NatToDigits | simulator/src/packet/packet.cpp:21-30 | printing a number in a base gives one or more digits of that base |
| Text.NatToDigitsValue | simulator/src/packet/packet.cpp:21-30 | the printed digits of `n` in a base denote `n` |
| Text.IntToString | simulator/scripts/common.py:33-35 | Python `str(n)` of an int is never empty |
| Text.IntToStringRoundTrip | simulator/scripts/common.py:18 | `int(str(n)) == n` for every int |
| Text.IntToStringNoSpace | simulator/scripts/common.py:33-35 | `str(n)` holds no whitespace |
| Text.HexPadded | simulator/src/packet/packet.cpp:21-30 | `setfill('0') << setw(w) << hex` prints only hex digits |
| Text.HexPaddedExact | simulator/src/packet/packet.cpp:21-30 | a value below 16^w prints as exactly `w` hex digits that read back as the value |
| Utils.EndsWithIffConcat | common/utils.cpp:26-29 | `endsWith(s, x)` holds exactly when `s` is some string followed by `x` |
| Utils.FindFrom | common/utils.cpp:35 | `find(d, start)` that succeeds returns an index at or after `start` where `d` fits in the string |
| Utils.FindFromFirst | common/utils.cpp:35 | `find(d, start)` returns an occurrence with none before it from `start`, and npos exactly when there is none |
| Utils.SplitSpec | common/utils.cpp:31-46 | Python's `s.split(d)`, the behaviour `split` emulates, returns at least one token |
| Utils.JoinSplit | common/utils.cpp:31-46 | joining Python's split tokens with the delimiter gives back the string |
| Utils.SplitJoin | common/utils.cpp:31-46 | splitting on a one-character delimiter undoes joining tokens free of it |
| Utils.SplitNoDelimiter | common/utils.cpp:31-46 | no token contains the delimiter |
| Utils.SplitCount | common/utils.cpp:31-46 | there is exactly one token more than there are non-overlapping delimiter occurrences |
| Utils.SplitEdgeCases | common/utils.cpp:42-44 | splitting "" gives [""], and for a one-character delimiter a trailing delimiter gives a trailing "" token |
| Utils.SplitFromLoop | common/utils.cpp:34-44 | Python's split is the loop's tokens plus a final "" exactly when the loop stopped right at the end of the string |
| Utils.PushToken | common/utils.cpp:35-40 | one loop pass moves `start` forward, keeps the tokens pushed and the tokens still to come adding up to all the loop's tokens, and does not change where the loop ends |
| Utils.SplitAsWritten | common/utils.cpp:31-46 | `split` as written returns the loop's tokens, then "" when the string is empty or ends with the delimiter |
| Utils.Split | common/utils.cpp:31-46 | `split` with the trailing test corrected returns exactly Python's `s.split(d)` for every non-empty delimiter |
| Utils.SplitAsWrittenSingleChar | common/utils.cpp:42-44 | for one-character delimiters `split` as written equals Python's split |
| Utils.SplitAsWrittenOverlap | common/utils.cpp:42-44 | "aaa" split on "aa" as written gives ["", "a", ""], not Python's ["", "a"], and does not join back to "aaa" |
| Utils.EntryLessReflexive | common/utils.h:26-33 | the `MinHeapEntry` comparator holds between an entry and itself, so it is no strict weak order |
| Utils.EntryLessOnDistinctKeys | common/utils.h:26-33 | on distinct (metric, time) keys the comparator is exactly the reverse of the lexicographic key order, and exactly one direction holds |
| Utils.HeapTopIsKeyMinimum | common/utils.h:26-33 | the top of a max-heap under the comparator is exactly an entry with the smallest metric and, among those, the earliest insertion time |
| Utils.HeapTopExists | common/utils.h:26-33 | every non-empty multiset of entries has such a top |
| Utils.HeapTopOfAddition | common/utils.h:26-33 | adding an entry to a heap gives a top that is the key-earlier of the new entry and the old top |
| RateConverter.Multiplier | simulator/scripts/common.py:10-12 | 'K', 'M' and 'G' scale by 10^3, 10^6 and 10^9, and no other character is a suffix |
| RateConverter.FromStr | simulator/scripts/common.py:8-18 | `from_str` fails the assert exactly on ""; with a rate suffix it succeeds iff the float before it reads; otherwise it succeeds iff `int(s)` does, with that value |
| RateConverter.FromStrOfFloat | simulator/scripts/common.py:15-16 | a string ending in a rate suffix is the float before the suffix (in any notation `float` reads, e.g. "1.5e3K") times the suffix's multiplier, truncated by `int()` |
| RateConverter.FromRate | simulator/scripts/common.py:8-9 | an int rate is returned as it is; a string is read by `from_str` |
| RateConverter.ToStr | simulator/scripts/common.py:21-37 | `to_str` succeeds exactly when the rate reads |
| RateConverter.PlainIffNoUnitFits | simulator/scripts/common.py:31-37 | the rate prints as plain digits exactly when no unit divides it |
| RateConverter.SuffixOf | simulator/scripts/common.py:31-35 | when a unit fits, the printed unit divides the rate, no larger unit does, and the string is the quotient, a space iff `pretty`, and the suffix |
| RateConverter.RenderRoundTrip | simulator/scripts/common.py:8-37 | reading back the printed form of any int rate gives the rate, pretty or not |
| RateConverter.PlainRoundTrip | simulator/scripts/common.py:18 | plain digits read back as the rate, their last digit never taken for a suffix |
| RateConverter.SuffixRoundTrip | simulator/scripts/common.py:15-16 | a positive quotient, an optional space and a suffix read back as the quotient times the unit |
| RateConverter.ToStrRoundTrip | simulator/scripts/common.py:8-37 | `from_str(to_str(x)) == from_str(x)` for every readable rate |
| RateConverter.ToStrIdempotent | simulator/scripts/common.py:21-37 | `to_str(to_str(x)) == to_str(x)`: the printed form is a fixed point |
| Packets.DefaultFlowId | simulator/src/packet/packet.cpp:15 | the default flow id has all four fields zero |
| Packets.FlowIdFromSpec | simulator/src/packet/packet.cpp:32-34 | `FlowId::from(v)` has source address `v` and every other field zero, is injective, and `from(0)` is the default flow id |
| Packets.EqualToFlowIdIsEquality | simulator/src/packet/packet.cpp:46-52 | `EqualToFlowId` holds exactly when the flow ids are equal, so it is reflexive, symmetric and transitive |
| Packets.FlowIdToStringFields | simulator/src/packet/packet.cpp:21-30 | the printed flow id is 24 hex digits whose four fixed-width fields read back as the addresses and ports |
| Packets.FlowIdToStringInjective | simulator/src/packet/packet.cpp:21-30 | two flow ids print the same exactly when they are equal |
| Packets.DefaultTcpHeaderFacts | simulator/src/packet/packet.cpp:57-64 | the default TCP header is invalid, carries no SYN, FIN or RST, is a pass-through packet and has the range (0, 0) |
| Packets.SequenceNumberRangeSpec | simulator/src/packet/packet.cpp:66-69 | the sequence range of a header is (psn, next psn), and it is empty exactly for a pass-through packet |
| Packets.NewPacket | simulator/src/packet/packet.cpp:74-82 | a new packet carries its index, flow, class and size, invalid job sizes, zero times and the default TCP header |
| Packets.ClassTag | simulator/src/packet/packet.h:132-134 | the class tag is "A" exactly for attack packets and "I" exactly for innocent ones |
| Packets.GetLatency | simulator/src/packet/packet.h:136-141 | the latency is defined exactly when the packet departed no earlier than it arrived, and is then the non-negative difference; otherwise the assertion fails |
| Packets.SettersChangeOnlyTheirField | simulator/src/packet/packet.h:143-147 | each mutator sets its own field and leaves every other field of the packet unchanged |
| Applications.DefaultParameters | simulator/src/applications/application.h:20-22 | by default the heuristic is off, the scale is 1 and the maximum attack job size is NaN |
| Applications.ToJobSizeInNs | simulator/src/applications/application.h:53-56 | an invalid service time stays invalid; any other is scaled by the parameters' factor |
| Applications.ToJobSizeInNsFacts | simulator/src/applications/application.h:53-56 | with scale 1 the conversion is the identity, and a non-negative time under a non-negative scale stays non-negative |
| Applications.EchoProcess | simulator/src/applications/echo.cpp:6-17 | an attack packet, whose actual size must be non-negative, yields that size; an innocent one its estimate |
| Applications.EchoGetJobSizeEstimate | simulator/src/applications/echo.cpp:19-23 | the packet's estimate, which must be set, is returned and is non-negative |
| Applications.EchoEstimateMatchesProcess | simulator/src/applications/echo.cpp:6-23 | for a packet whose estimate equals its actual size, Echo's estimate and processed size agree |
| TcpSpec.ToServiceTime | simulator/src/applications/tcp_reassembly.cpp:12-14 | the service time is 116 plus 4 per traversal whenever that fits in 32 bits (the sum is taken modulo 2^32) |
| TcpSpec.FirstEndAtLeast | simulator/src/applications/tcp_reassembly.cpp:16-31 | the insertion search stops at the first range whose end reaches the segment's end: every range before it ends below it |
| TcpSpec.KeptBefore | simulator/src/applications/tcp_reassembly.cpp:94-106 | the backward erasure keeps a prefix: every range it erases starts at or after the clipped start, and the range kept before them starts below it |
| TcpSpec.Release | simulator/src/applications/tcp_reassembly.cpp:119-128 | releasing drops a prefix of the list, after which no range starts at the new expected PSN |
| TcpSpec.ClipOf | simulator/src/applications/tcp_reassembly.cpp:83-112 | the number of kept ranges is at most the insertion position, which is within the list |
| TcpSpec.ServiceTimeEstimate | simulator/src/applications/tcp_reassembly.cpp:33-56 | the estimate is invalid exactly for SYN, in-order, out-of-window and duplicate segments, and is otherwise the service time of the current list length |
| TcpSpec.InsertSegmentCoverage | simulator/src/applications/tcp_reassembly.cpp:83-116 | clipping, erasing and inserting an out-of-order segment keeps the list sorted and beyond the expected PSN, changes it only when inserting, and holds exactly the old sequence numbers and the segment's |
| TcpSpec.InsertSegmentCoversNew | simulator/src/applications/tcp_reassembly.cpp:83-116 | every sequence number of the new list was in the old list or in the segment |
| TcpSpec.InsertSegmentCoversOld | simulator/src/applications/tcp_reassembly.cpp:83-116 | every sequence number at or beyond the expected PSN in the old list or in the segment is in the new list |
| TcpSpec.ErasedInsideSegment | simulator/src/applications/tcp_reassembly.cpp:96-106 | each erased range lies inside the clipped segment, which is then non-empty |
| TcpSpec.RangeOrigin | simulator/src/applications/tcp_reassembly.cpp:94-116 | every range of the new list is an old range or the inserted clipped segment |
| TcpSpec.ReleaseCoverage | simulator/src/applications/tcp_reassembly.cpp:119-128 | releasing moves the expected PSN forward over exactly the released sequence numbers and leaves a well-formed list beyond it |
| TcpSpec.ReleaseHead | simulator/src/applications/tcp_reassembly.cpp:120-124 | releasing the head range that starts at the expected PSN and then the tail accounts for the whole list |
| TcpSpec.ReleaseNothing | simulator/src/applications/tcp_reassembly.cpp:120-121 | when the head does not start at the expected PSN, releasing keeps the list and the PSN |
| TcpSpec.ProcessSpecWellFormed | simulator/src/applications/tcp_reassembly.cpp:58-133 | `process` keeps the out-of-order list sorted, non-empty-ranged, disjoint and beyond the expected PSN, with no range starting at it |
| TcpSpec.SettleWellFormed | simulator/src/applications/tcp_reassembly.cpp:114-129 | settling a well-formed splice gives a well-formed state with no range at the expected PSN |
| TcpSpec.ProcessSpecCoverage | simulator/src/applications/tcp_reassembly.cpp:71-133 | for in-order, duplicate and out-of-order segments the expected PSN never moves back, and the sequence numbers the flow accounts for at or beyond the old PSN are exactly the old ones and the segment's |
| TcpSpec.SettleAccounts | simulator/src/applications/tcp_reassembly.cpp:114-129 | settling a splice that holds the old ranges and the segment keeps that reassembly guarantee |
| TcpSpec.ProcessSpecResult | simulator/src/applications/tcp_reassembly.cpp:58-133 | `process` returns a valid service time exactly for out-of-order segments, and leaves the state unchanged for out-of-window and duplicate ones; an out-of-order segment costs at least the base cost of 116 while its list holds fewer than 2^28 segments |
| TcpSpec.EstimateAgreesWithProcess | simulator/src/applications/tcp_reassembly.cpp:33-81 | the estimate is invalid exactly when `process` returns an invalid service time |
| TcpReassemblyApp.TcpFlowState.constructor | simulator/src/applications/tcp_reassembly.h:45 | a new flow state has an empty list and next expected PSN 0 |
| TcpReassemblyApp.TcpFlowState.InsertionPosition | simulator/src/applications/tcp_reassembly.cpp:16-31 | the walk returns the first range whose end reaches `e` (every earlier one ends below it) and the number of ranges it visited |
| TcpReassemblyApp.TcpFlowState.EraseCovered | simulator/src/applications/tcp_reassembly.cpp:94-112 | the backward erasure removes exactly the ranges between the kept prefix and the position, and clips the start to the end of the last kept range |
| TcpReassemblyApp.TcpFlowState.ReleaseInOrder | simulator/src/applications/tcp_reassembly.cpp:118-128 | the release loop leaves the list, the PSN and the count of released ranges that `Release` gives |
| TcpReassemblyApp.TcpFlowState.ClipSegment | simulator/src/applications/tcp_reassembly.cpp:83-112 | the search and clipping give the clip of the specification and the traversal count, and remove exactly the covered ranges |
| TcpReassemblyApp.TcpFlowState.MergeSegment | simulator/src/applications/tcp_reassembly.cpp:83-132 | a non-empty remainder is inserted and released, charging the search and release traversals; an empty one leaves the trimmed list and charges the search only |
| TcpReassemblyApp.TcpFlowState.Process | simulator/src/applications/tcp_reassembly.cpp:58-133 | `process` leaves the flow in the state, and returns the service time, that the value-level `process` gives |
| TcpReassemblyApp.FirstEndAtLeastUnique | simulator/src/applications/tcp_reassembly.cpp:22-29 | any index with the two properties of the search result is that result |
| TcpReassemblyApp.ProcessInnerTable | simulator/src/applications/tcp_reassembly.cpp:138-172 | an estimate never changes the flow table; other flows are never touched; FIN/RST removes the flow when updating; an updating data packet leaves its flow stored; invalid and pass-through packets change nothing |
| TcpReassemblyApp.ProcessInnerWellFormed | simulator/src/applications/tcp_reassembly.cpp:138-172 | `process_` keeps every stored flow state well formed |
| TcpReassemblyApp.ProcessInnerServiceTime | simulator/src/applications/tcp_reassembly.cpp:138-172 | the service time is valid exactly for a valid, non-FIN/RST, non-pass-through data packet of an out-of-order flow that is stored or being updated |
| TcpReassemblyApp.TcpReassembly.constructor | simulator/src/applications/tcp_reassembly.h:66 | a new application has its parameters and an empty flow table |
| TcpReassemblyApp.TcpReassembly.ProcessInner | simulator/src/applications/tcp_reassembly.cpp:138-172 | `process_` leaves the flow table and returns the scaled service time that the value-level `process_` gives |
| TcpReassemblyApp.TcpReassembly.Process | simulator/src/applications/tcp_reassembly.cpp:174-189 | an attack packet yields its actual size; with the heuristic the packet is processed for real; without it the estimate stands; only the heuristic case changes the table |
| TcpReassemblyApp.TcpReassembly.GetJobSizeEstimate | simulator/src/applications/tcp_reassembly.cpp:191-205 | an attack packet yields its estimate; an innocent packet, whose estimate must be unset, is processed for real without the heuristic and only estimated with it |
| Servers.IsFlowOrderRequired | simulator/src/applications/tcp_reassembly.h:86 | only TCP reassembly requires per-flow order |
| Servers.CheckFlowOrder | simulator/src/server/server.cpp:10-19 | the server refuses exactly an application needing per-flow order behind a queue that does not keep it |
| Servers.Server.Create | simulator/src/server/server.cpp:10-19 | creation fails exactly when the flow-order check does; otherwise the server is new and idle, with departure time 0 |
| Servers.Server.constructor | simulator/src/server/server.h:15-20 | a new server is idle, holds the default packet and has departure time 0 |
| Servers.HeuristicEstimateAgrees | simulator/src/applications/tcp_reassembly.cpp:138-172 | in heuristic mode the estimate of a TCP packet is invalid exactly when processing it gives an invalid size |
| Servers.Server.SetJobSizeEstimateAndActual | simulator/src/server/server.cpp:26-29 | only the two job sizes of the packet change; for Echo they are the estimate and Echo's size; for TCP reassembly the table is updated once, by the estimate without the heuristic (the actual size then equals it) or by processing with it |
| Servers.Served | simulator/src/server/server.cpp:43-54 | a packet served from `time` departs after its actual job size, every other field unchanged |
| Servers.ServedLatency | simulator/src/server/server.cpp:43-54 | a packet that arrived by the time it entered service, with a non-negative size, has latency equal to its wait plus its job size, so at least its job size |
| Servers.Server.Schedule | simulator/src/server/server.cpp:43-54 | an idle server whose clock has reached its departure time takes a packet with a set estimate and valid size and is busy until that size has elapsed |
| Servers.Server.RecordDeparture | simulator/src/server/server.cpp:34-38 | the packet in service is returned stamped with the departure time, and the server is idle |
| Servers.Server.ServeOne | simulator/src/server/server.cpp:34-54 | scheduling a packet and recording its departure returns the packet as served from `time` and leaves the server idle |
| SimFcfs.FcfsQueue.constructor | simulator/src/queueing/fcfs_queue.h:40 | a new FCFS queue is empty and has seen no packet |
| SimFcfs.FcfsQueue.Size | simulator/src/queueing/fcfs_queue.cpp:3-17 | the queue holds the packets pushed and not yet popped |
| SimFcfs.FcfsQueue.Push | simulator/src/queueing/fcfs_queue.cpp:15-17 | `push` appends the packet at the back |
| SimFcfs.FcfsQueue.Pop | simulator/src/queueing/fcfs_queue.cpp:3-8 | `pop` on an empty queue fails and changes nothing; otherwise it returns and removes the front packet, and the packets popped are always a prefix of those pushed (first come, first served) |
| SimFcfs.FcfsQueue.Peek | simulator/src/queueing/fcfs_queue.cpp:10-13 | `peek` fails on an empty queue and otherwise returns the front packet |
| SimFq.FqFlowMetadata.Push | simulator/src/queueing/fq_queue.cpp:9-19 | a flow's push counts one more packet and sets its virtual clock to the packet's estimate plus the old clock, or plus the arrival time when the flow was empty |
| SimFq.FqFlowMetadata.Pop | simulator/src/queueing/fq_queue.cpp:21-27 | a flow's pop fails on an empty flow queue; otherwise it counts one packet fewer, keeps the clock and reports whether the flow became empty |
| SimFq.FlowAfterPush | simulator/src/queueing/fq_queue.cpp:53-54 | pushing a packet counts one more packet for its flow than were stored (none for a new flow) |
| SimFq.FlowAfterPushClock | simulator/src/queueing/fq_queue.cpp:13-16 | in a consistent queue the new clock is the estimate plus the stored flow's clock, or plus the arrival time for a flow not stored |
| SimFq.FlowsAfterPop | simulator/src/queueing/fq_queue.cpp:38-40 | popping a flow's packet decrements its count, erases it exactly when it held one packet, and leaves every other flow as it was |
| SimFq.PushConsistent | simulator/src/queueing/fq_queue.cpp:51-61 | `push` keeps the queue consistent: the size is the number of heap entries and the sum of the flow counts, each stored flow counts exactly its entries, and every entry's flow is stored |
| SimFq.PopSumOver | simulator/src/queueing/fq_queue.cpp:38-42 | popping a flow's packet lowers the sum of the flow counts by one |
| SimFq.PopConsistent | simulator/src/queueing/fq_queue.cpp:32-44 | removing any heap entry finds its flow stored with a packet, and keeps the queue consistent |
| SimFq.PopCountsMatch | simulator/src/queueing/fq_queue.cpp:38-40 | after removing an entry each stored flow still counts exactly its heap entries |
| SimFq.PopEntriesStored | simulator/src/queueing/fq_queue.cpp:38-40 | after removing an entry every remaining entry's flow is still stored |
| SimFq.FqQueue.constructor | simulator/src/queueing/fq_queue.h:44-52 | a new FQ queue is empty and consistent |
| SimFq.FqQueue.Push | simulator/src/queueing/fq_queue.cpp:51-61 | `push` updates the flow's count and virtual clock as `FQFlowMetadata::push` does, adds an entry keyed by (clock, arrival time) and increments the size |
| SimFq.FqQueue.Pop | simulator/src/queueing/fq_queue.cpp:32-44 | `pop` fails on an empty queue and changes nothing; otherwise it returns the packet of a heap top (smallest virtual clock, then earliest arrival), removes that entry, decrements the size and pops the packet's flow |
| SimFq.FqQueue.TopIndex | common/utils.h:26-33 | the search returns the index of an entry that is a heap top under the `MinHeapEntry` order |
| SimFq.FqQueue.RemoveEntry | simulator/src/queueing/fq_queue.cpp:35-42 | removing a heap entry removes exactly it, decrements the size and pops its flow, keeping the queue consistent |
| SimFq.FqQueue.ReleaseFlowPacket | simulator/src/queueing/fq_queue.cpp:38-40 | the flow's metadata is popped, and erased when it becomes empty |
| SimFq.FqQueue.Peek | simulator/src/queueing/fq_queue.cpp:46-49 | `peek` fails on an empty queue and otherwise returns the packet of a heap top |
| SimSjfInorder.SumEstimatesAppend | simulator/src/queueing/sjf_inorder_queue.cpp:10-11 | appending a packet adds its estimate to the sum of the queued estimates |
| SimSjfInorder.SumEstimatesNonNegative | simulator/src/queueing/sjf_inorder_queue.cpp:22-23 | the sum of non-negative estimates is non-negative, so the sanity check of `pop` holds |
| SimSjfInorder.SjfInorderFlowMetadata.constructor | simulator/src/queueing/sjf_inorder_queue.h:25-27 | new flow metadata has an empty queue and total job size 0 |
| SimSjfInorder.SjfInorderFlowMetadata.Push | simulator/src/queueing/sjf_inorder_queue.cpp:6-14 | a flow's push appends the packet and adds its estimate to the total, which stays the sum of the queued estimates |
| SimSjfInorder.SjfInorderFlowMetadata.Pop | simulator/src/queueing/sjf_inorder_queue.cpp:16-27 | a flow's pop fails on an empty flow queue; otherwise it returns the front packet and subtracts its estimate, the total staying the (non-negative) sum of the queued estimates |
| SimSjfInorder.FlowAfterPush | simulator/src/queueing/sjf_inorder_queue.cpp:64-86 | pushing a packet puts it at the back of its flow's queue |
| SimSjfInorder.FlowAfterPop | simulator/src/queueing/sjf_inorder_queue.cpp:37 | popping a flow removes the front of its queue |
| SimSjfInorder.FlowsAfterPop | simulator/src/queueing/sjf_inorder_queue.cpp:37-51 | popping a flow erases it exactly when it held one packet, and leaves every other flow as it was |
| SimSjfInorder.TopIsMinimumRatio | simulator/src/queueing/sjf_inorder_queue.cpp:32-37 | in a consistent queue the heap top is the entry of a stored flow carrying its current ratio, and that flow has the smallest average queued estimate of all flows |
| SimSjfInorder.NonEmptyHasPriority | simulator/src/queueing/sjf_inorder_queue.cpp:32-34 | a consistent non-empty queue has a heap entry |
| SimSjfInorder.RekeyMatches | simulator/src/queueing/sjf_inorder_queue.cpp:69-86 | inserting or updating a flow's heap entry keeps exactly one entry per stored flow, carrying its ratio |
| SimSjfInorder.DropMatches | simulator/src/queueing/sjf_inorder_queue.cpp:47-51 | removing a flow and its heap entry keeps exactly one entry per stored flow |
| SimSjfInorder.PushFlowOk | simulator/src/queueing/sjf_inorder_queue.cpp:64-86 | pushing a packet with a non-negative estimate keeps every flow's totals equal to its queued sums |
| SimSjfInorder.PushConsistent | simulator/src/queueing/sjf_inorder_queue.cpp:64-88 | `push` keeps the queue consistent: flow totals match, the size is the number of queued packets, one heap entry per flow with its ratio |
| SimSjfInorder.PopFlowOk | simulator/src/queueing/sjf_inorder_queue.cpp:37-51 | popping a flow keeps every flow's totals equal to its queued sums |
| SimSjfInorder.PopSumOver | simulator/src/queueing/sjf_inorder_queue.cpp:53 | popping a flow's packet lowers the number of queued packets by one |
| SimSjfInorder.PopConsistent | simulator/src/queueing/sjf_inorder_queue.cpp:32-54 | `pop` keeps the queue consistent |
| SimSjfInorder.SjfInorderQueue.constructor | simulator/src/queueing/sjf_inorder_queue.h:91 | a new SJF-Inorder queue is empty and consistent |
| SimSjfInorder.SjfInorderQueue.Push | simulator/src/queueing/sjf_inorder_queue.cpp:64-88 | `push` appends the packet to its flow (created when new), re-keys the flow's heap entry to its new ratio, increments the size and keeps the queue consistent |
| SimSjfInorder.SjfInorderQueue.PushState | simulator/src/queueing/sjf_inorder_queue.cpp:64-88 | the state changes of `push`: the flow after the push, its re-keyed heap entry, the size plus one |
| SimSjfInorder.SjfInorderQueue.Top | simulator/src/queueing/sjf_inorder_queue.cpp:34 | the heap top is the entry of the stored flow with the smallest average queued estimate |
| SimSjfInorder.SjfInorderQueue.Pop | simulator/src/queueing/sjf_inorder_queue.cpp:32-55 | `pop` fails on an empty queue and changes nothing; otherwise it returns the head packet of a flow with the smallest average estimate, pops that flow and decrements the size, keeping the queue consistent (so same-flow packets leave in arrival order) |
| SimSjfInorder.SjfInorderQueue.PopState | simulator/src/queueing/sjf_inorder_queue.cpp:35-53 | the state changes of `pop`: the flow's head is returned, the flow popped, its heap entry re-keyed or removed, the size minus one |
| SimSjfInorder.SjfInorderQueue.Peek | simulator/src/queueing/sjf_inorder_queue.cpp:57-62 | `peek` fails on an empty queue and otherwise returns the head packet of a flow with the smallest average estimate |
| SimWsjfInorder.SumsAppend | simulator/src/queueing/wsjf_inorder_queue.cpp:10-12 | appending a packet adds its estimate and its size to the queued sums |
| SimWsjfInorder.SumPacketSizesPositive | simulator/src/queueing/wsjf_inorder_queue.h:35 | a non-empty queue of packets of positive size has a positive total size, so the flow ratio is defined |
| SimWsjfInorder.WsjfInorderFlowMetadata.constructor | simulator/src/queueing/wsjf_inorder_queue.h:27-28 | new flow metadata has an empty queue and totals 0 |
| SimWsjfInorder.WsjfInorderFlowMetadata.Push | simulator/src/queueing/wsjf_inorder_queue.cpp:6-15 | a flow's push appends the packet and adds its estimate and size to the totals, which stay the queued sums |
| SimWsjfInorder.WsjfInorderFlowMetadata.Pop | simulator/src/queueing/wsjf_inorder_queue.cpp:17-28 | a flow's pop fails on an empty flow queue; otherwise it returns the front packet and subtracts its estimate and size, the totals staying the queued sums |
| SimWsjfInorder.FlowAfterPush | simulator/src/queueing/wsjf_inorder_queue.cpp:65-89 | pushing a packet puts it at the back of its flow's queue |
| SimWsjfInorder.FlowAfterPop | simulator/src/queueing/wsjf_inorder_queue.cpp:17-28 | popping a flow removes the front of its queue |
| SimWsjfInorder.FlowsAfterPop | simulator/src/queueing/wsjf_inorder_queue.cpp:33-56 | popping a flow erases it exactly when it held one packet, and leaves every other flow as it was |
| SimWsjfInorder.TopIsMinimumRatio | simulator/src/queueing/wsjf_inorder_queue.cpp:33-38 | in a consistent queue the heap top is the entry of a stored flow carrying its current ratio, and that flow has the smallest queued job size per queued bit |
| SimWsjfInorder.NonEmptyHasPriority | simulator/src/queueing/wsjf_inorder_queue.cpp:33-35 | a consistent non-empty queue has a heap entry |
| SimWsjfInorder.RekeyMatches | simulator/src/queueing/wsjf_inorder_queue.cpp:65-89 | inserting or updating a flow's heap entry keeps exactly one entry per stored flow, carrying its ratio |
| SimWsjfInorder.DropMatches | simulator/src/queueing/wsjf_inorder_queue.cpp:33-56 | removing a flow and its heap entry keeps exactly one entry per stored flow |
| SimWsjfInorder.PushFlowOk | simulator/src/queueing/wsjf_inorder_queue.cpp:65-89 | pushing a packet of positive size keeps every flow's totals equal to its queued sums, with a positive total size |
| SimWsjfInorder.PushConsistent | simulator/src/queueing/wsjf_inorder_queue.cpp:65-89 | `push` keeps the queue consistent |
| SimWsjfInorder.PopFlowOk | simulator/src/queueing/wsjf_inorder_queue.cpp:33-56 | popping a flow keeps every flow's totals equal to its queued sums |
| SimWsjfInorder.PopSumOver | simulator/src/queueing/wsjf_inorder_queue.cpp:33-56 | popping a flow's packet lowers the number of queued packets by one |
| SimWsjfInorder.PopConsistent | simulator/src/queueing/wsjf_inorder_queue.cpp:33-56 | `pop` keeps the queue consistent |
| SimWsjfInorder.WsjfInorderQueue.constructor | simulator/src/queueing/wsjf_inorder_queue.h:94 | a new WSJF-Inorder queue is empty and consistent |
| SimWsjfInorder.WsjfInorderQueue.Push | simulator/src/queueing/wsjf_inorder_queue.cpp:65-89 | `push` appends the packet to its flow (created when new), re-keys the flow's heap entry to its new ratio, increments the size and keeps the queue consistent |
| SimWsjfInorder.WsjfInorderQueue.PushState | simulator/src/queueing/wsjf_inorder_queue.cpp:65-89 | the state changes of `push`: the flow after the push, its re-keyed heap entry, the size plus one |
| SimWsjfInorder.WsjfInorderQueue.Top | simulator/src/queueing/wsjf_inorder_queue.cpp:35 | the heap top is the entry of the stored flow with the smallest job size per bit |
| SimWsjfInorder.WsjfInorderQueue.Pop | simulator/src/queueing/wsjf_inorder_queue.cpp:33-56 | `pop` fails on an empty queue and changes nothing; otherwise it returns the head packet of a flow with the smallest job size per bit, pops that flow and decrements the size, keeping the queue consistent |
| SimWsjfInorder.WsjfInorderQueue.PopState | simulator/src/queueing/wsjf_inorder_queue.cpp:35-55 | the state changes of `pop`: the flow's head is returned, the flow popped, its heap entry re-keyed or removed, the size minus one |
| SimWsjfInorder.WsjfInorderQueue.Peek | simulator/src/queueing/wsjf_inorder_queue.cpp:58-63 | `peek` fails on an empty queue and otherwise returns the head packet of a flow with the smallest job size per bit |
| HffsTree.HighestSetBit | scheduler/heaps/hffs_queue/software/hffs_queue.hpp:111-114 | for a non-zero bitmap, `31 - __builtin_clz` is a set bit with no set bit above it |
| HffsTree.LowestSetBit | scheduler/heaps/hffs_queue/software/hffs_queue.hpp:108-110 | for a non-zero bitmap, `__builtin_ctz` is a set bit with no set bit below it |
| HffsTree.IsolateLowest | scheduler/heaps/hffs_queue/software/hffs_queue.hpp:108-110 | `x & -x` of a non-zero bitmap is a single bit of `x` with no bit of `x` below it |
| HffsTree.OffsetMonotone | scheduler/heaps/hffs_queue/software/hffs_queue.hpp:51-56 | level offsets increase, each level leaving room for its 32^i bitmaps |
| HffsTree.OffsetInjective | scheduler/heaps/hffs_queue/software/hffs_queue.hpp:101-102 | each (level, intra-level index) pair has its own bitmap slot |
| HffsTree.ChildParts | scheduler/heaps/hffs_queue/software/hffs_queue.hpp:119-120 | the child index `j * 32 + b` divides back into its parent `j` and bit `b` |
| HffsTree.ChildOfParts | scheduler/heaps/hffs_queue/software/hffs_queue.hpp:166-178 | every index is the child of its quotient by 32 at bit `index & 0x1F` |
| HffsTree.ChildBound | scheduler/heaps/hffs_queue/software/hffs_queue.hpp:119-120 | the child of a node on level `i` is a valid node (or bucket) on level `i + 1` |
| HffsTree.EmptyTreeOk | scheduler/heaps/hffs_queue/software/hffs_queue.hpp:58-60 | all-zero bitmaps over empty buckets satisfy the bitmap invariant |
| HffsTree.EmptyUnderClearBit | scheduler/heaps/hffs_queue/software/hffs_queue.hpp:99-121 | every bucket under a clear bit of a consistent tree is empty |
| HffsTree.RootNonZero | scheduler/heaps/hffs_queue/software/hffs_queue.hpp:104 | when some bucket holds a tag the root bitmap of a consistent tree is non-zero |
| HffsTree.MinStep | scheduler/heaps/hffs_queue/software/hffs_queue.hpp:108-110 | descending along the lowest set bit keeps every bucket left of the current subtree empty |
| HffsTree.MaxStep | scheduler/heaps/hffs_queue/software/hffs_queue.hpp:111-114 | descending along the highest set bit keeps every bucket right of the current subtree empty |
| HffsTree.PathStart | scheduler/heaps/hffs_queue/software/hffs_queue.hpp:99-104 | a consistent tree with a tag starts the descent at a non-zero root with nothing outside it |
| HffsTree.DescendStep | scheduler/heaps/hffs_queue/software/hffs_queue.hpp:100-121 | one level of the descent along the lowest (highest) set bit reaches a non-zero child, or a non-empty bucket, with every bucket to its left (right) empty |
| HffsTree.WriteRepairs | scheduler/heaps/hffs_queue/software/hffs_queue.hpp:130-135 | writing a node with the one wrong bit fixed leaves only the edge above that node possibly wrong |
| HffsTree.ExceptRepaired | scheduler/heaps/hffs_queue/software/hffs_queue.hpp:128-135 | a tree wrong at most on an edge that is in fact right satisfies the invariant |
| HffsTree.BucketChange | scheduler/heaps/hffs_queue/software/hffs_queue.hpp:124-129 | changing one bucket can only break the last-level bit of that bucket |
| HffsTree.BucketFilled | scheduler/heaps/hffs_queue/software/hffs_queue.hpp:162-163 | filling a bucket leaves the tree consistent, or wrong only at the bucket's clear bit when it was empty |
| HffsTree.BucketDrained | scheduler/heaps/hffs_queue/software/hffs_queue.hpp:125-129 | draining a bucket leaves the tree consistent, or wrong only at the bucket's set bit when it became empty |
| HffsTree.SetStep | scheduler/heaps/hffs_queue/software/hffs_queue.hpp:168-179 | setting the pending bit fixes that edge and moves the pending edge to the parent exactly when the bitmap was zero before |
| HffsTree.ClearStep | scheduler/heaps/hffs_queue/software/hffs_queue.hpp:130-135 | clearing the pending bit fixes that edge and moves the pending edge to the parent exactly when the bitmap became zero |
| Hffs.BucketIndex | scheduler/heaps/hffs_queue/software/hffs_queue.hpp:157-158 | the bucket index is `uint32_t(num * scale / den)`: the floor of a non-negative weight, and non-negative exactly when the weight is above -1 |
| Hffs.SetBitOf | scheduler/heaps/hffs_queue/software/hffs_queue.hpp:173-174 | or-ing in `1 << b` sets bit `b` and keeps every other bit |
| Hffs.ClearBitOf | scheduler/heaps/hffs_queue/software/hffs_queue.hpp:131-133 | `x & ~(1 << b)` clears bit `b` and keeps every other bit |
| Hffs.TotalSizeUpdate | scheduler/heaps/hffs_queue/software/hffs_queue.hpp:136-181 | replacing one bucket changes the number of queued tags by the difference in its length |
| Hffs.TotalSizePositive | scheduler/heaps/hffs_queue/software/hffs_queue.hpp:96-98 | a queue holding tags has a non-empty bucket |
| Hffs.PathEnd | scheduler/heaps/hffs_queue/software/hffs_queue.hpp:122-124 | the descent along the lowest (highest) set bits ends at the lowest (highest) non-empty bucket |
| Hffs.PathRecordStep | scheduler/heaps/hffs_queue/software/hffs_queue.hpp:115-120 | the level stack records, for each level, the bitmap visited and the bit chosen |
| Hffs.PathParents | scheduler/heaps/hffs_queue/software/hffs_queue.hpp:130-135 | the stacked (bitmap, bit) of each level is the edge above the node visited on the next level |
| Hffs.InitStepAsWritten | scheduler/heaps/hffs_queue/software/hffs_queue.hpp:51-56 | one iteration of `init` as written adds a level and keeps 32-bit counters, multiplying the bucket count by 32 while it fits |
| Hffs.InitCoverageAsWritten | scheduler/heaps/hffs_queue/software/hffs_queue.hpp:46-56 | as written, the buckets covered grow 32, 1024, ... up to 2^30 and then wrap to 0 for good |
| Hffs.InitNeverEndsAsWritten | scheduler/heaps/hffs_queue/software/hffs_queue.hpp:51 | as written, a bucket count above 2^30 is never covered, so the loop of `init` does not end |
| Hffs.LevelLayout | scheduler/heaps/hffs_queue/software/hffs_queue.hpp:44-61 | `init` with unbounded counters gives the fewest levels whose 32^L buckets cover `num_buckets`, the level offsets 1 + 32 + ... and their total |
| Hffs.PickBit | scheduler/heaps/hffs_queue/software/hffs_queue.hpp:106-116 | the bit chosen is set, the lowest for `popMin` and the highest for `popMax` |
| Hffs.HffsQueue.constructor | scheduler/heaps/hffs_queue/software/hffs_queue.hpp:64-68 | a new queue has the layout of `init`, all bitmaps zero, `num_buckets` empty buckets and size 0 |
| Hffs.HffsQueue.Size | scheduler/heaps/hffs_queue/software/hffs_queue.hpp:82 | the size is the number of tags in the buckets |
| Hffs.HffsQueue.Push | scheduler/heaps/hffs_queue/software/hffs_queue.hpp:155-182 | `push` appends the tag to the bucket its weight maps to, updates the bitmaps so the invariant holds again, and counts one more |
| Hffs.HffsQueue.PropagateSet | scheduler/heaps/hffs_queue/software/hffs_queue.hpp:168-179 | the upward pass of `push` sets bits until it reaches a bitmap that was non-zero, restoring the invariant |
| Hffs.HffsQueue.SetAt | scheduler/heaps/hffs_queue/software/hffs_queue.hpp:169-174 | setting the pending bit of one level reports whether that bitmap was zero, and moves the pending edge up accordingly |
| Hffs.HffsQueue.Pop | scheduler/heaps/hffs_queue/software/hffs_queue.hpp:94-138 | `pop_` fails on an empty queue and changes nothing; otherwise it returns the front tag of the lowest (popMin) or highest (popMax) non-empty bucket, removes it, restores the invariant and counts one fewer |
| Hffs.HffsQueue.Descend | scheduler/heaps/hffs_queue/software/hffs_queue.hpp:99-121 | the descent ends at the lowest (highest) non-empty bucket and records the bitmaps and bits it visited |
| Hffs.HffsQueue.PickAt | scheduler/heaps/hffs_queue/software/hffs_queue.hpp:101-120 | one level of the descent reads the bitmap at the level offset and moves to the child of the chosen bit |
| Hffs.HffsQueue.PropagateClear | scheduler/heaps/hffs_queue/software/hffs_queue.hpp:128-135 | the upward pass of `pop_` clears bits while bitmaps become zero, restoring the invariant |
| Hffs.HffsQueue.ClearAt | scheduler/heaps/hffs_queue/software/hffs_queue.hpp:131-134 | clearing the pending bit of one level reports whether that bitmap became zero, and moves the pending edge up accordingly |
| Hffs.HffsQueue.PopMin | scheduler/heaps/hffs_queue/software/hffs_queue.hpp:144 | `popMin` removes the front tag of the lowest non-empty bucket |
| Hffs.HffsQueue.PopMax | scheduler/heaps/hffs_queue/software/hffs_queue.hpp:150 | `popMax` removes the front tag of the highest non-empty bucket |
| SchedFcfs.FcfsQueue.constructor | scheduler/heaps/fcfs_queue.hpp:17 | a new FIFO is empty and has seen no tag |
| SchedFcfs.FcfsQueue.Size | scheduler/heaps/fcfs_queue.hpp:23 | the size is the number of tags pushed and not yet popped |
| SchedFcfs.FcfsQueue.Peek | scheduler/heaps/fcfs_queue.hpp:34-39 | `peek` fails exactly on an empty queue and otherwise returns the front tag |
| SchedFcfs.FcfsQueue.Pop | scheduler/heaps/fcfs_queue.hpp:45-52 | `pop` fails on an empty queue and changes nothing; otherwise it returns and removes the front tag, and the tags popped are always a prefix of those pushed |
| SchedFcfs.FcfsQueue.Push | scheduler/heaps/fcfs_queue.hpp:57-60 | `push` appends the tag and ignores the weight |
| BoundedHeaps.TopIsExtreme | scheduler/heaps/bounded_heap.hpp:40-47 | the top of the min-ordered heap is an entry of least weight, and the top of the max-ordered drop heap one of greatest weight |
| BoundedHeaps.TopExists | scheduler/heaps/bounded_heap.hpp:40-47 | every non-empty heap has a top in either order |
| BoundedHeaps.PushBounded | scheduler/heaps/bounded_heap.hpp:118-143 | after `push` the heap never exceeds its capacity; with nothing erased it gained the entry, otherwise it lost one entry of the grown heap whose tag is reported |
| BoundedHeaps.PushMayDropItself | scheduler/heaps/bounded_heap.hpp:113-117 | a push at capacity can erase the very entry it pushed: with room for one entry of weight 1, pushing weight 2 reports the pushed tag and leaves the heap as it was |
| BoundedHeaps.BoundedHeap.constructor | scheduler/heaps/bounded_heap.hpp:74-75 | a new bounded heap is empty with capacity `max_size` |
| BoundedHeaps.BoundedHeap.Size | scheduler/heaps/bounded_heap.hpp:79 | the two heaps have the same size, which never exceeds the capacity |
| BoundedHeaps.BoundedHeap.Peek | scheduler/heaps/bounded_heap.hpp:90-95 | `peek` fails exactly on an empty heap and otherwise returns the tag of an entry of least weight |
| BoundedHeaps.BoundedHeap.Pop | scheduler/heaps/bounded_heap.hpp:101-111 | `pop` fails on an empty heap and changes nothing; otherwise it removes an entry of least weight from both heaps and returns its tag |
| BoundedHeaps.BoundedHeap.Push | scheduler/heaps/bounded_heap.hpp:118-143 | `push` adds the entry to both heaps and, over capacity, erases an entry of greatest weight from both and reports its tag |
| BoundedHeaps.TopOf | scheduler/heaps/bounded_heap.hpp:40-47 | the search returns a top of the heap in the given order |
| Traffic.Advance | simulator/src/traffic/synthetic_trafficgen.cpp:18-20 | adding a gap to the clock gives a finite clock exactly when both the clock and the gap are finite |
| Traffic.ClockAfterClosedForm | simulator/src/traffic/synthetic_trafficgen.cpp:13-20 | after `n` updates from a reset clock a finite gap has moved the clock to `n` gaps; an infinite gap sends it to +infinity at the first update, and a clock at +infinity stays there |
| Traffic.ApproxEqualFacts | common/utils.cpp:52-55 | approximate equality within the default margin is reflexive and symmetric |
| Traffic.RateOf | simulator/src/traffic/synthetic_trafficgen.cpp:43-48 | the rate exists exactly when the gap is not zero; rate times gap is mean size times 10^9; an infinite gap gives rate 0 |
| Traffic.Guarded | simulator/src/traffic/trafficgen.cpp:9-21 | an accessor succeeds exactly when the generator is calibrated, and then returns the value unchanged; otherwise it fails with "not calibrated" |
| Traffic.Period | simulator/src/traffic/synthetic_trafficgen.cpp:35-37 | the number of distinct 32-bit cursor values is between 1 and 2^32 |
| Traffic.CursorStep | simulator/src/traffic/synthetic_trafficgen.cpp:35-37 | a cursor equal to `n` modulo the period steps to `n + 1` modulo the period, wrapping to 0 |
| Traffic.CursorCycles | simulator/src/traffic/synthetic_trafficgen.cpp:34-37 | any `p` consecutive packets take each of the `p` cursor values, and no two of them share one |
| Traffic.SameResidue | simulator/src/traffic/synthetic_trafficgen.cpp:34-37 | two packet counts with the same cursor value are at least one period apart |
| Traffic.FlowNumber | simulator/src/traffic/synthetic_trafficgen.cpp:34-37 | the innocent flow number of the `i`-th packet since a reset is `i` modulo the period |
| Traffic.AttackFlowsDistinct | simulator/src/traffic/synthetic_trafficgen.cpp:101 | adding the 32-bit flow-id offset keeps distinct cursor values distinct |
| Traffic.SyntheticTrafficGenerator.InnocentGenerator | simulator/src/traffic/synthetic_trafficgen.h:100-102 | a new innocent generator has its clock and cursor at 0 and is not calibrated |
| Traffic.SyntheticTrafficGenerator.AttackGenerator | simulator/src/traffic/synthetic_trafficgen.cpp:86-96 | a new attack generator starts its clock at +infinity when the gap is infinite and at 0 otherwise; its cursor is 0 and it is not calibrated |
| Traffic.SyntheticTrafficGenerator.GetCalibratedRate | simulator/src/traffic/trafficgen.cpp:9-14 | the rate is returned exactly when the generator is calibrated, and it is then a finite rate |
| Traffic.SyntheticTrafficGenerator.GetCalibratedAveragePacketSize | simulator/src/traffic/trafficgen.cpp:16-21 | the mean packet size (the distribution mean, or the fixed attack size) is returned exactly when the generator is calibrated |
| Traffic.SyntheticTrafficGenerator.Reset | simulator/src/traffic/synthetic_trafficgen.cpp:13-16 | the clock and the flow cursor go back to 0; calibration is kept |
| Traffic.SyntheticTrafficGenerator.UpdateArrivalTime | simulator/src/traffic/synthetic_trafficgen.cpp:18-20 | the clock advances by one gap; nothing else changes |
| Traffic.SyntheticTrafficGenerator.GetNextArrival | simulator/src/traffic/synthetic_trafficgen.cpp:22-112 | the packet carries the current clock, which does not move; the `i`-th packet since a reset gets flow number `FlowNumber(kind, numFlows, i)`; innocent packets are INNOCENT with the truncated size sample and no job sizes; attack packets are ATTACK with the fixed size and the fixed job size as both estimate and actual |
| Traffic.SyntheticTrafficGenerator.Calibrate | simulator/src/traffic/synthetic_trafficgen.cpp:71-81 | a second calibration fails; a NaN rate succeeds and leaves the generator uncalibrated; otherwise calibration succeeds exactly when the generator's own rate is within 1e-6 of the given rate, and fails with "calibration failed" when it is not |
| TraceTraffic.ParseTcpHeader | simulator/src/traffic/trace_trafficgen.cpp:93-106 | on success the packet gets a valid TCP header and nothing else in it changes |
| TraceTraffic.ParseFields | simulator/src/traffic/trace_trafficgen.cpp:75-111 | fewer than 9 fields is an assertion failure; a parsed packet is INNOCENT with the given index and no actual job size; its TCP header is valid exactly when field 5 reads 1, and default otherwise; with no field 9, or an empty one, the estimate stays unset, and with a non-empty one it is `std::stod`'s reading of that field |
| TraceTraffic.FlagsValueBits | simulator/src/traffic/trace_trafficgen.cpp:100-102 | the flags value of a header is below 8, and its bits 2, 1 and 0 give back SYN, FIN and RST |
| TraceTraffic.FormatFields | simulator/src/traffic/trace_trafficgen.cpp:75-111 | a written record has 9 fields, plus one when it carries a job size |
| TraceTraffic.FlowPart | simulator/src/traffic/trace_trafficgen.cpp:79-85 | the size, address and port part of a record is 5 fields |
| TraceTraffic.TcpPart | simulator/src/traffic/trace_trafficgen.cpp:86-96 | the TCP part of a record is 4 fields |
| TraceTraffic.TraceLineRoundTrip | simulator/src/traffic/trace_trafficgen.cpp:75-111 | parsing the split of a written trace line gives back the packet the record describes |
| TraceTraffic.SplitFormatLine | simulator/src/traffic/trace_trafficgen.cpp:75 | splitting a written line on commas gives back its fields |
| TraceTraffic.ParseFormatFields | simulator/src/traffic/trace_trafficgen.cpp:79-111 | parsing a record's fields gives back the packet the record describes |
| TraceTraffic.FormatFieldsRead | simulator/src/traffic/trace_trafficgen.cpp:79-109 | every field of a written record reads back to the record's value |
| TraceTraffic.FlowPartRead | simulator/src/traffic/trace_trafficgen.cpp:79-85 | the size reads back in decimal and the addresses and ports in hex |
| TraceTraffic.TcpPartRead | simulator/src/traffic/trace_trafficgen.cpp:86-96 | the TCP marker reads back as 1 or 0, and the flags, PSN and next PSN read back when there is a header |
| TraceTraffic.BytesRead | simulator/src/traffic/trace_trafficgen.cpp:79-80 | the size field reads back in decimal |
| TraceTraffic.SrcIpRead | simulator/src/traffic/trace_trafficgen.cpp:82 | the source address reads back in hex |
| TraceTraffic.DstIpRead | simulator/src/traffic/trace_trafficgen.cpp:83 | the destination address reads back in hex |
| TraceTraffic.SrcPortRead | simulator/src/traffic/trace_trafficgen.cpp:84 | the source port reads back in hex |
| TraceTraffic.DstPortRead | simulator/src/traffic/trace_trafficgen.cpp:85 | the destination port reads back in hex |
| TraceTraffic.MarkerRead | simulator/src/traffic/trace_trafficgen.cpp:86 | the TCP marker reads back as 1 with a header and 0 without |
| TraceTraffic.FlagsFieldRead | simulator/src/traffic/trace_trafficgen.cpp:94 | the flags field reads back as the flags value |
| TraceTraffic.PsnRead | simulator/src/traffic/trace_trafficgen.cpp:95 | the PSN reads back in decimal |
| TraceTraffic.NextPsnRead | simulator/src/traffic/trace_trafficgen.cpp:96 | the next PSN reads back in decimal |
| TraceTraffic.ParseRecordFields | simulator/src/traffic/trace_trafficgen.cpp:79-111 | fields that each read back to a record parse to the packet that record describes |
| TraceTraffic.TcpFieldsRoundTrip | simulator/src/traffic/trace_trafficgen.cpp:93-106 | flags, PSN and next PSN fields that read back set exactly the header with those flags and numbers |
| TraceTraffic.NextLine | simulator/src/traffic/trace_trafficgen.cpp:72 | the line read is the text from the position up to, and not including, the next newline (or the end); the position moves past the newline, and strictly forward unless it is at the end |
| TraceTraffic.NoNewlineAfter | simulator/src/traffic/trace_trafficgen.cpp:72 | a suffix with no newline occurrence holds no newline |
| TraceTraffic.NoNewlineBetween | simulator/src/traffic/trace_trafficgen.cpp:72 | a slice with no newline occurrence holds no newline |
| TraceTraffic.Stamp | simulator/src/traffic/trace_trafficgen.cpp:116 | stamping keeps success and failure, sets the arrival time and changes nothing else |
| TraceTraffic.TraceTrafficGenerator.constructor | simulator/src/traffic/trace_trafficgen.cpp:12-18 | a new trace generator reads from the start, has a new arrival exactly when the trace is non-empty, has its clock at 0 and is not calibrated |
| TraceTraffic.TraceTrafficGenerator.GetCalibratedRate | simulator/src/traffic/trafficgen.cpp:9-14 | the rate (mean size times 10^9 over the gap) is returned exactly when the mean size is set |
| TraceTraffic.TraceTrafficGenerator.GetCalibratedAveragePacketSize | simulator/src/traffic/trafficgen.cpp:16-21 | the mean size is returned exactly when it is set |
| TraceTraffic.TraceTrafficGenerator.Reset | simulator/src/traffic/trace_trafficgen.cpp:59-64 | the clock and the read position go back to 0, there is a new arrival exactly when the trace is non-empty, and calibration is kept |
| TraceTraffic.TraceTrafficGenerator.UpdateArrivalTime | simulator/src/traffic/trace_trafficgen.cpp:66-68 | the clock advances by one gap; nothing else changes |
| TraceTraffic.TraceTrafficGenerator.GetNextArrival | simulator/src/traffic/trace_trafficgen.cpp:70-118 | the next line is read and parsed, the packet is stamped with the current clock, which does not move, and there is another arrival exactly when text is left (or parsing failed) |
| TraceTraffic.TraceTrafficGenerator.Calibrate | simulator/src/traffic/trace_trafficgen.cpp:120-129 | a second calibration fails and changes nothing; otherwise the mean size is set to the given value, and the generator is calibrated afterwards exactly when that value is not NaN |
| AnalyzeCommon.NewMetrics | simulator/scripts/adversary/analyze_common.py:7-10 | a zero packet size is a division by zero; otherwise the metrics keep both sizes and the ratio times the packet size is the job size |
| AnalyzeCommon.ReadFloat | simulator/scripts/adversary/analyze_common.py:34-35 | `float(s)` succeeds exactly when the text reads as a finite float literal (surrounding whitespace, an optional sign, a decimal mantissa, an optional exponent), and otherwise raises ValueError |
| AnalyzeCommon.ReadInt | simulator/scripts/adversary/analyze_common.py:38 | `int(s)` succeeds exactly when the text is an optional sign and ASCII decimal digits, within ASCII whitespace, and otherwise raises ValueError |
| AnalyzeCommon.FromFields | simulator/scripts/adversary/analyze_common.py:32-39 | fewer than six fields is an assertion failure; otherwise the record is read from the first six fields alone |
| AnalyzeCommon.FromSix | simulator/scripts/adversary/analyze_common.py:34-39 | the six fields give a record exactly when both clocks, the packet size and the job size read and the packet size is not 0; the record has the clocks and sizes the fields spell, the flow id and class tag verbatim, and consistent metrics; a failure is a ValueError or, only for a packet size of 0, a division by zero |
| AnalyzeCommon.Fields | simulator/scripts/adversary/analyze_common.py:31 | one field per piece of the line split on ";", each stripped of surrounding whitespace |
| AnalyzeCommon.FromLog | simulator/scripts/adversary/analyze_common.py:29-39 | a line that reads as a record has at least six fields |
| AnalyzeCommon.ExtraFieldsIgnored | simulator/scripts/adversary/analyze_common.py:32-39 | fields after the sixth do not change the reading |
| AnalyzeCommon.ZeroPacketSizeFails | simulator/scripts/adversary/analyze_common.py:7-10 | a well-formed record with packet size 0 fails with a division by zero |
| AnalyzeCommon.ParseAll | simulator/scripts/adversary/analyze_common.py:86-88 | a log that reads gives one record per line |
| AnalyzeCommon.ParseAllElements | simulator/scripts/adversary/analyze_common.py:86-88 | each record of a log that reads is the reading of its own line, in file order |
| AnalyzeCommon.ParseAllFailureAt | simulator/scripts/adversary/analyze_common.py:86-88 | a log that does not read fails at some line with that line's error, and every line before it reads |
| AnalyzeCommon.ParseAllStep | simulator/scripts/adversary/analyze_common.py:87-88 | reading one more line appends its record, or fails with its error |
| AnalyzeCommon.ParseAllFailurePersists | simulator/scripts/adversary/analyze_common.py:87-88 | once a prefix fails, the lines after it change nothing |
| AnalyzeCommon.FlowIds | simulator/scripts/adversary/analyze_fq.py:17-18 | the set holds the flow id of every packet and nothing else |
| AnalyzeCommon.MaxPsize | simulator/scripts/adversary/analyze_common.py:96-97 | the running maximum from 0 is at least every packet size and is 0 or one of them |
| AnalyzeCommon.MaxJsize | simulator/scripts/adversary/analyze_common.py:99-100 | the running maximum from 0 is at least every job size and is 0 or one of them |
| AnalyzeCommon.MetricsOf | simulator/scripts/adversary/analyze_common.py:26 | one metrics record per packet, in file order |
| AnalyzeCommon.MetricsPsizeSum | simulator/scripts/adversary/analyze_common.py:89-94 | the packet sizes of the metrics add up to the log's packet-size total |
| AnalyzeCommon.Summarize | simulator/scripts/adversary/analyze_common.py:105-113 | an empty log, or one whose job sizes add up to 0, divides by zero; otherwise the averages times the count give the totals, the packet-size average is truncated after `r_max` is taken from the exact one, and the maxima are kept |
| AnalyzeCommon.Normalise | simulator/scripts/adversary/analyze_common.py:105-113 | from a count, two totals and two maxima: the same divisions and the same division-by-zero cases as for a whole log |
| AnalyzeCommon.TruncatedAverage | simulator/scripts/adversary/analyze_common.py:111-113 | with a non-negative total the truncated average packet size is the floor of the exact one: count times average is at most the total and less than count times (average + 1) |
| AnalyzeCommon.BaseAnalyzer.constructor | simulator/scripts/adversary/analyze_common.py:55-65 | every statistic starts at 0 |
| AnalyzeCommon.BaseAnalyzer.AnalyzeLog | simulator/scripts/adversary/analyze_common.py:84-113 | a bad line, or a division by zero in the normalisation, is the result; otherwise the fields hold the statistics of the log's packets, the count is the number of lines, and the configured attack job size is untouched |
| AnalyzeCommon.BaseAnalyzer.Scan | simulator/scripts/adversary/analyze_common.py:84-113 | the same as `AnalyzeLog`, for any line reader |
| AnalyzeCommon.BaseAnalyzer.Accumulate | simulator/scripts/adversary/analyze_common.py:86-103 | the loop reads the lines in order and stops at the first bad one; after a whole log the count is the number of lines and the running totals and maxima are those of every packet |
| AnalyzeCommon.BaseAnalyzer.ParseConfig | simulator/scripts/adversary/analyze_common.py:129-138 | the call succeeds exactly when `application.max_attack_job_size_ns` is present, and then stores it; a missing key raises and changes nothing |
| AnalyzeCommon.Load | simulator/scripts/adversary/analyze_fcfs.py:5-8 | a new analyzer reports the first bad line, then a division by zero, then a missing configuration key; on success it holds the log's statistics and the configured attack job size |
| AnalyzeCommon.Alpha | simulator/scripts/adversary/analyze_fcfs.py:34-36 | with no attack rate the factor is 0; otherwise the factor times the attack rate is the goodput lost below `min(r_I, r_max)`, clamped at 0, and it is non-negative for a positive attack rate |
| AnalyzeCommon.EncodePacketSize | simulator/scripts/adversary/analyze_wsjf.py:86-90 | a denominator of at most 12144 bits becomes a packet size from 8192 to 12144 bits |
| AnalyzeCommon.EncodeClose | simulator/scripts/adversary/analyze_wsjf.py:86-94 | the encoded job size is within one of the ratio times the encoded packet size |
| AnalyzeCommon.EncodeExact | simulator/scripts/adversary/analyze_wsjf.py:86-94 | with no scaling, or a denominator that divides 8192, the encoded job size is exactly the ratio times the packet size |
| AnalyzeCommon.EncodeZero | simulator/scripts/adversary/analyze_wsjf.py:86-94 | a zero ratio is a zero job size in an 8192-bit packet |
| AnalyzeCommon.Goodput | simulator/scripts/adversary/analyze_sjf.py:62-63 | the goodput is a division by zero exactly when no packets or a zero truncated average make the denominator 0; otherwise goodput times count times average is `r_I` times the scheduled bits |
| AnalyzeCommon.GoodputWhenAllScheduled | simulator/scripts/adversary/analyze_sjf.py:62-63 | since the average packet size is truncated, scheduling every innocent bit gives a goodput of at least `r_I` |
| AnalyzeCommon.GoodputAtLeastRate | simulator/scripts/adversary/analyze_sjf.py:62-63 | scheduling at least count times average bits gives a goodput of at least `r_I` |
| AnalyzeScan.SortBy | simulator/scripts/adversary/analyze_sjf.py:30 | the result is sorted by the key and is a permutation of the input |
| AnalyzeScan.InsertAfterEqual | simulator/scripts/adversary/analyze_sjf.py:30 | inserting into a sorted list keeps it sorted and adds exactly the one element |
| AnalyzeScan.InsertKeepsSorted | simulator/scripts/adversary/analyze_sjf.py:30 | an element placed after the keys not above its own and before the greater ones keeps the list sorted |
| AnalyzeScan.SortedKeys | simulator/scripts/adversary/analyze_sjf.py:34-44 | the keys of `sorted(d.items())` are strictly increasing and are exactly the dictionary's keys |
| AnalyzeScan.ScheduledSize | simulator/scripts/adversary/analyze_sjf.py:57-60 | on a list sorted by the key, the loop that stops at the first key above the bound adds up the size of every element within the bound |
| AnalyzeScan.FilterSumBeyond | simulator/scripts/adversary/analyze_sjf.py:59 | once a sorted list passes the bound, the elements after it add nothing |
| AnalyzeScan.FilterSumAppend | simulator/scripts/adversary/analyze_sjf.py:57-60 | the bounded sum of a concatenation is the sum of the bounded sums |
| AnalyzeScan.FilterSumPermutation | simulator/scripts/adversary/analyze_sjf.py:57-60 | the bounded sum does not depend on the order, so the sorted list schedules what the log order would |
| AnalyzeScan.FilterSumAll | simulator/scripts/adversary/analyze_sjf.py:57-60 | a bound no key exceeds keeps every element |
| AnalyzeScan.FilterSumMonotone | simulator/scripts/adversary/analyze_sjf.py:57-60 | with non-negative sizes a larger bound schedules at least as much |
| AnalyzeScan.TotalSizePermutation | simulator/scripts/adversary/analyze_sjf.py:30 | the total size does not depend on the order |
| AnalyzeScan.TotalSizeBump | simulator/scripts/adversary/analyze_sjf_inorder.py:15 | growing one element's size by `d` grows the total by `d` |
| AnalyzeScan.RealFilterSumAll | simulator/scripts/adversary/analyze_sjf_inorder.py:54-60 | a bound no key exceeds keeps the value of every element |
| AnalyzeScan.RealFilterSumMonotone | simulator/scripts/adversary/analyze_sjf_inorder.py:54-60 | with non-negative values a larger bound keeps at least as much |
| AnalyzeScan.RealTotalAppend | simulator/scripts/adversary/analyze_sjf_inorder.py:54-57 | the total of a concatenation is the sum of the totals |
| AnalyzeScan.RealTotalPermutation | simulator/scripts/adversary/analyze_sjf_inorder.py:48-57 | the total does not depend on the order |
| AnalyzeScan.RealTotalBump | simulator/scripts/adversary/analyze_sjf_inorder.py:16 | growing one element's value by `d` grows the total by `d` |
| AnalyzeScan.SharesScale | simulator/scripts/adversary/analyze_sjf_inorder.py:56-57 | adding up the shares `val / n` within a bound and scaling by `n` gives the bounded sum of `val` |
| AnalyzeScan.RunningStep | simulator/scripts/adversary/analyze_sjf_inorder.py:55-60 | one more element adds its share to the running value, records it under the element's key, and keeps the running-profile invariant |
| AnalyzeScan.StepValues | simulator/scripts/adversary/analyze_sjf_inorder.py:59-60 | after one more element every recorded key holds the shares of the elements with keys up to it |
| AnalyzeScan.StepKeys | simulator/scripts/adversary/analyze_sjf_inorder.py:59-60 | one more element adds its key to the recorded keys |
| AnalyzeScan.FilterSumAtTop | simulator/scripts/adversary/analyze_sjf_inorder.py:59-60 | with ascending keys the elements read so far all lie within the key of the last one |
| AnalyzeScan.RunningShares | simulator/scripts/adversary/analyze_sjf_inorder.py:54-60 | the first share of a non-empty list divides by zero exactly when the count is 0; otherwise the dictionary holds exactly the keys that occur, each with `1 / n` of the total of the elements with keys up to it |
| AnalyzeScan.ProfileScaled | simulator/scripts/adversary/analyze_sjf_inorder.py:54-60 | at the end of the walk the running table is that profile |
| AnalyzeScan.MergedProfile | simulator/scripts/adversary/analyze_sjf_inorder.py:59-60 | writing a profile into a dictionary overwrites the keys that occur and keeps the others |
| AnalyzeScan.RecordShares | simulator/scripts/adversary/analyze_sjf_inorder.py:54-60 | the same division-by-zero case as `RunningShares`; on success the keys that occur hold the profile and every other key of the dictionary is kept |
| AnalyzeScan.RecordedMonotone | simulator/scripts/adversary/analyze_sjf_inorder.py:54-60 | with non-negative values the recorded expectation grows with the key |
| AnalyzeScan.RecordedAtLargest | simulator/scripts/adversary/analyze_sjf_inorder.py:54-60 | at the largest key the recorded expectation times `n` is the total of all values |
| AnalyzeScan.NumpyIndex | simulator/scripts/adversary/analyze_wsjf.py:51-52 | numpy indexing fails exactly outside `-len .. len - 1`, counts a negative index from the end, and keeps an in-range index |
| AnalyzeScan.RunningSharesInto | simulator/scripts/adversary/analyze_wsjf.py:42-52 | the first share of a non-empty list divides by zero exactly when the count is 0; a key outside the array is an IndexError; on success every key indexed the array, and with in-range keys the slot of every key holds the profile and every other slot keeps its value |
| AnalyzeScan.ProfileInSlots | simulator/scripts/adversary/analyze_wsjf.py:42-52 | at the end of the walk the array holds the profile |
| AnalyzeScan.StoreSlot | simulator/scripts/adversary/analyze_wsjf.py:51-52 | the store succeeds exactly when numpy accepts the index, and an in-range store records the value under its key |
| AnalyzeScan.KeyScan | simulator/scripts/adversary/analyze_sjf.py:43-54 | the scan divides by zero exactly when there is a key and the average packet size is 0; otherwise it returns the least key whose load reaches capacity, minus one, or the largest innocent job size when none does |
| AnalyzeScan.FirstSaturating | simulator/scripts/adversary/analyze_sjf.py:51-54 | the first key in ascending order whose load saturates is the least such key, so stopping there gives the optimum |
| AnalyzeScan.NoneSaturating | simulator/scripts/adversary/analyze_sjf.py:43-54 | a scan through every key with no saturating load keeps the initial job size, which is then the optimum |
| AnalyzeScan.SlotScan | simulator/scripts/adversary/analyze_wsjf.py:58-68 | the scan divides by zero exactly when there is a slot and the average packet size is 0; otherwise it returns the ratio of the slot before the first saturating one, the last slot's when none saturates, or the initial ratio when the first slot saturates or there are none |
| AnalyzeScan.SetSumRemove | simulator/scripts/adversary/analyze_sjf.py:34-37 | any key can be taken out of a sum over a set of keys |
| AnalyzeScan.SetSumLe | simulator/scripts/adversary/analyze_sjf.py:34-37 | sums over the same keys compare as their terms do |
| AnalyzeScan.SetSumInsert | simulator/scripts/adversary/analyze_sjf.py:25 | adding a new key adds its term |
| AnalyzeScan.SetSumChangeOne | simulator/scripts/adversary/analyze_sjf.py:25 | changing one key's term changes the sum by the difference |
| AnalyzeScan.CumulativeMonotone | simulator/scripts/adversary/analyze_sjf.py:33-37 | with non-negative terms a cumulative sum does not decrease with its threshold |
| AnalyzeScan.CumulativeAll | simulator/scripts/adversary/analyze_sjf.py:33-37 | a threshold at or above every key sums every term |
| FlowProfile.FlowTotalsCount | simulator/scripts/adversary/analyze_sjf_inorder.py:12-16 | a flow id of the log has at least one packet counted, and any other id has none |
| FlowProfile.ProfilesEmpty | simulator/scripts/adversary/analyze_sjf_inorder.py:28 | an empty dictionary describes an empty log |
| FlowProfile.RecordStep | simulator/scripts/adversary/analyze_sjf_inorder.py:39-43 | the hook on one more packet keeps the dictionary's keys (in insertion order, each once) equal to the log's flows and each flow's metrics equal to its totals |
| FlowProfile.RecordKeys | simulator/scripts/adversary/analyze_sjf_inorder.py:42 | a new flow id goes at the end of the key order, which still holds each key once |
| FlowProfile.RecordFlows | simulator/scripts/adversary/analyze_sjf_inorder.py:42 | the keys after the hook are the flows of the longer log |
| FlowProfile.RecordTotals | simulator/scripts/adversary/analyze_sjf_inorder.py:12-16 | the metrics after the hook are each flow's totals over the longer log |
| FlowProfile.FlowTotalsAbsent | simulator/scripts/adversary/analyze_sjf_inorder.py:7-10 | a flow with no packet in the log has the metrics of a new flow |
| FlowProfile.Values | simulator/scripts/adversary/analyze_sjf_inorder.py:49 | the values are the dictionary's metrics in key order |
| FlowProfile.TotalsOf | simulator/scripts/adversary/analyze_sjf_inorder.py:12-16 | one totals record per flow id, in the given order |
| FlowProfile.ValuesAreTotals | simulator/scripts/adversary/analyze_sjf_inorder.py:48-50 | the values of a dictionary that describes the log are the flows' totals |
| FlowProfile.FlowsConserve | simulator/scripts/adversary/analyze_sjf_inorder.py:12-16 | over distinct ids covering every flow, the flows' packet sizes add up to the log's, and so do their job sizes |
| FlowProfile.NoFlowsNoTotals | simulator/scripts/adversary/analyze_sjf_inorder.py:7-10 | before any packet every flow total is 0 |
| FlowProfile.ProfileConserves | simulator/scripts/adversary/analyze_sjf_inorder.py:48-50 | the flows of the dictionary, in any order, add up to the log's packet sizes and job sizes |
| FlowProfile.ProfileFlowsNonEmpty | simulator/scripts/adversary/analyze_sjf_inorder.py:18-20 | every flow of the dictionary has a packet, so its average job size divides by a non-zero count |
| FlowProfile.RecordedAverage | simulator/scripts/adversary/analyze_sjf_inorder.py:54-60 | at a key no flow exceeds, the recorded expectation times the packet count is the log's total job size |
| AnalyzeFcfs.OptimalStrategy | simulator/scripts/adversary/analyze_fcfs.py:19-41 | a zero average packet size or zero total work divides by zero; otherwise the goodput is `r_I` while the work fits the capacity and `r_I` divided by the work beyond it, never above `r_I`; alpha follows from the goodput, and the strategy is the largest attack job in a 512-bit packet |
| AnalyzeFcfs.GoodputShare | simulator/scripts/adversary/analyze_fcfs.py:30-31 | `r_I * min(1, 1 / w)` is `r_I` when the work fits, `r_I / w` when it does not, never above a non-negative `r_I`, and non-negative for positive work |
| AnalyzeFcfs.ShareFactor | simulator/scripts/adversary/analyze_fcfs.py:30-31 | `min(1, 1 / w)` is 1 when the work fits, `1 / w` otherwise, and positive for positive work |
| AnalyzeFcfs.NoAttack | simulator/scripts/adversary/analyze_fcfs.py:30-36 | with no attack traffic and a load the server keeps up with, the goodput is `r_I` and alpha is 0 |
| AnalyzeFq.FlowsOfNonEmptyLog | simulator/scripts/adversary/analyze_fq.py:19-29 | a non-empty log has at least one flow, so `k` is at least 1 |
| AnalyzeFq.FqAnalyzer.constructor | simulator/scripts/adversary/analyze_fq.py:5-7 | a new FQ analyzer has seen no flows |
| AnalyzeFq.FqAnalyzer.AnalyzePacket | simulator/scripts/adversary/analyze_fq.py:17-19 | the hook adds the packet's flow id to the set of flows |
| AnalyzeFq.FqAnalyzer.AnalyzePackets | simulator/scripts/adversary/analyze_fq.py:17-19 | the hook on a log adds every flow id of it |
| AnalyzeFq.FqAnalyzer.GetOptimalStrategy | simulator/scripts/adversary/analyze_fq.py:21-41 | the strategy of the analyzer's state is the FQ strategy over its number of flows |
| AnalyzeFq.NewFqAnalyzer | simulator/scripts/adversary/analyze_fq.py:5-10 | construction succeeds exactly when the log reads, normalises and the configuration has the attack job size; then the flows are exactly the log's flow ids, at least one of them |
| AnalyzeFq.OptimalStrategy | simulator/scripts/adversary/analyze_fq.py:21-41 | it divides by zero exactly when attack work plus `k` is 0 (never for `k >= 1` and non-negative work); the goodput is at most `r_I` and is `r_I` or the fair share `k * r_max / (work + k)`, never above the share; alpha follows from the goodput, and the strategy is the largest attack job in a 512-bit packet |
| AnalyzeFq.CappedShare | simulator/scripts/adversary/analyze_fq.py:30-31 | `min(r_I, x / d)` is at most `r_I`, is `r_I` or the share, and never exceeds the share |
| AnalyzeFq.GoodputFallsWithAttack | simulator/scripts/adversary/analyze_fq.py:25-31 | more attack traffic never raises the FQ goodput |
| AnalyzeFq.AttackWorkGrows | simulator/scripts/adversary/analyze_fq.py:25-26 | the attack work grows with the attack rate |
| AnalyzeSjf.Bump | simulator/scripts/adversary/analyze_sjf.py:25 | `d[k] += 1` on a `defaultdict(int)` adds `k` to the keys, counts it once more (from 0 when new) and leaves the other counts alone |
| AnalyzeSjf.HistogramAppend | simulator/scripts/adversary/analyze_sjf.py:25 | one more packet counts its truncated job size once more |
| AnalyzeSjf.HistogramKeys | simulator/scripts/adversary/analyze_sjf.py:25 | the keys of the frequencies are exactly the truncated job sizes that occur |
| AnalyzeSjf.KeyOccurs | simulator/scripts/adversary/analyze_sjf.py:25 | every key is the truncated job size of some packet |
| AnalyzeSjf.OccurrenceIsKey | simulator/scripts/adversary/analyze_sjf.py:25 | the truncated job size of every packet is a key |
| AnalyzeSjf.HistogramCount | simulator/scripts/adversary/analyze_sjf.py:25 | each frequency is the number of packets with that truncated job size, and an absent size has none |
| AnalyzeSjf.HistogramTotal | simulator/scripts/adversary/analyze_sjf.py:25-35 | the frequencies add up to the number of packets |
| AnalyzeSjf.CumulativeBelowAll | simulator/scripts/adversary/analyze_sjf.py:33 | below every key the cumulative expectation is 0 |
| AnalyzeSjf.CumulativeStep | simulator/scripts/adversary/analyze_sjf.py:34-37 | moving to the next key in ascending order adds exactly that key's density times the key |
| AnalyzeSjf.Expectations | simulator/scripts/adversary/analyze_sjf.py:33-37 | a non-empty histogram over a count of 0 divides by zero; otherwise every key holds the expected truncated job size over the jobs no larger than it |
| AnalyzeSjf.ExpectationMonotone | simulator/scripts/adversary/analyze_sjf.py:33-37 | with non-negative job sizes the cumulative expectation grows with the key |
| AnalyzeSjf.BumpWeights | simulator/scripts/adversary/analyze_sjf.py:25-36 | counting one more packet of truncated size `t` adds `t / n` to the sum of the weights |
| AnalyzeSjf.HistogramMean | simulator/scripts/adversary/analyze_sjf.py:25-37 | over all keys the weights add up to the mean truncated job size: the histogram loses nothing of the log |
| AnalyzeSjf.ExpectationAtLargest | simulator/scripts/adversary/analyze_sjf.py:33-37 | at a key no smaller than every job size the cumulative expectation is the mean truncated job size |
| AnalyzeSjf.SjfAnalyzer.constructor | simulator/scripts/adversary/analyze_sjf.py:7-11 | a new SJF analyzer has no arrivals, frequencies or expectations |
| AnalyzeSjf.SjfAnalyzer.AnalyzePacket | simulator/scripts/adversary/analyze_sjf.py:22-25 | the hook appends the packet's metrics and keeps the frequencies the histogram of the arrivals |
| AnalyzeSjf.SjfAnalyzer.AnalyzePackets | simulator/scripts/adversary/analyze_sjf.py:22-25 | the hook on a log appends its metrics in order and keeps the frequencies the histogram |
| AnalyzeSjf.SjfAnalyzer.ComputeExpectation | simulator/scripts/adversary/analyze_sjf.py:27-37 | the arrivals become a sorted permutation of themselves; a count of 0 with a non-empty histogram divides by zero and records nothing; otherwise every truncated job size holds its cumulative expectation and other keys are kept |
| AnalyzeSjf.SjfAnalyzer.GetOptimalStrategy | simulator/scripts/adversary/analyze_sjf.py:39-73 | a zero goodput denominator divides by zero, and any other state succeeds; the job size is the scan optimum (the least saturating key minus one, or the largest innocent job size), the goodput is the share of innocent bits of the arrivals no larger than it, alpha follows from the goodput and the packet is 512 bits |
| AnalyzeSjf.Populate | simulator/scripts/adversary/analyze_sjf.py:13-15 | after the hook and the expectations the arrivals are the log's metrics sorted by job size, the frequencies its histogram and every key holds its cumulative expectation |
| AnalyzeSjf.Collect | simulator/scripts/adversary/analyze_sjf.py:22-25 | after the hook on every packet the arrivals are the log's metrics in file order and the frequencies their histogram |
| AnalyzeSjf.NewSjfAnalyzer | simulator/scripts/adversary/analyze_sjf.py:7-15 | construction succeeds exactly when the log reads, normalises and the configuration has the attack job size; then the base holds the log's statistics, the arrivals are its metrics sorted by job size, the frequencies their histogram and the expectations the cumulative ones |
| AnalyzeSjf.SaturationPersists | simulator/scripts/adversary/analyze_sjf.py:44-54 | with non-negative rates and job sizes, a larger key saturates whenever a smaller one does, so the optimum is a threshold |
| AnalyzeSjf.SaturatesMonotone | simulator/scripts/adversary/analyze_sjf.py:52 | more work saturates whenever less does |
| AnalyzeSjf.KeyWorkMonotone | simulator/scripts/adversary/analyze_sjf.py:45-46 | the attack work grows with the job size |
| AnalyzeSjf.AllScheduledGoodput | simulator/scripts/adversary/analyze_sjf.py:57-63 | when the optimum is no smaller than every packet's key, every arrival is scheduled and the goodput is at least `r_I` |
| AnalyzeSjfInorder.AverageJsize | simulator/scripts/adversary/analyze_sjf_inorder.py:18-20 | for a flow with packets, the average times the packet count is the flow's total job size |
| AnalyzeSjfInorder.TruncAveragesAscending | simulator/scripts/adversary/analyze_sjf_inorder.py:48-60 | flows sorted by average job size have ascending truncated averages, so the running profile applies |
| AnalyzeSjfInorder.SortedShares | simulator/scripts/adversary/analyze_sjf_inorder.py:45-60 | the flows become a sorted permutation of themselves; a count of 0 with some flow divides by zero; otherwise each truncated average holds `1 / N` of the job sizes of the flows up to it, and other keys are kept |
| AnalyzeSjfInorder.SjfInorderAnalyzer.constructor | simulator/scripts/adversary/analyze_sjf_inorder.py:24-28 | a new analyzer has no flows, no sorted flows and no expectations |
| AnalyzeSjfInorder.SjfInorderAnalyzer.AnalyzePacket | simulator/scripts/adversary/analyze_sjf_inorder.py:39-43 | the hook adds the packet to its flow (a new flow goes last) and keeps the dictionary describing the packets seen |
| AnalyzeSjfInorder.SjfInorderAnalyzer.AnalyzePackets | simulator/scripts/adversary/analyze_sjf_inorder.py:39-43 | the hook on a log keeps the dictionary describing every packet seen, in order |
| AnalyzeSjfInorder.SjfInorderAnalyzer.ComputeExpectation | simulator/scripts/adversary/analyze_sjf_inorder.py:45-60 | the sorted flows are the dictionary's flows sorted by average job size; a count of 0 with some flow divides by zero and records nothing; otherwise the expectations hold the running profile over the sorted flows |
| AnalyzeSjfInorder.SjfInorderAnalyzer.GetOptimalStrategy | simulator/scripts/adversary/analyze_sjf_inorder.py:62-97 | a zero goodput denominator divides by zero, and any other state succeeds; the job size is the scan optimum, the goodput is the share of the bits of the flows whose average is within it, alpha follows from the goodput and the packet is 512 bits |
| AnalyzeSjfInorder.Populate | simulator/scripts/adversary/analyze_sjf_inorder.py:30-32 | after the hook and the expectations the dictionary describes the log, the sorted flows are its flows sorted by average, and the expectations are the running profile over them |
| AnalyzeSjfInorder.Collect | simulator/scripts/adversary/analyze_sjf_inorder.py:39-43 | after the hook on every packet the dictionary describes the log |
| AnalyzeSjfInorder.NewSjfInorderAnalyzer | simulator/scripts/adversary/analyze_sjf_inorder.py:24-32 | construction succeeds exactly when the log reads, normalises and the configuration has the attack job size; then the base holds the log's statistics and the flows and expectations are those of the log |
| AnalyzeSjfInorder.SaturationPersists | simulator/scripts/adversary/analyze_sjf_inorder.py:67-77 | with non-negative sizes and rates a larger recorded key saturates whenever a smaller one does |
| AnalyzeSjfInorder.AllScheduledGoodput | simulator/scripts/adversary/analyze_sjf_inorder.py:80-87 | when the optimum is no smaller than every flow's average, every flow is scheduled and the goodput is at least `r_I` |
| AnalyzeWsjf.Zeros | simulator/scripts/adversary/analyze_wsjf.py:39-40 | `np.zeros(len)` has the given length and every slot 0 |
| AnalyzeWsjf.SlotsAscending | simulator/scripts/adversary/analyze_wsjf.py:35-49 | arrivals sorted by z-ratio have ascending rounded slots |
| AnalyzeWsjf.SlotsInRange | simulator/scripts/adversary/analyze_wsjf.py:38-52 | every arrival's slot lies between the first one's and the array's last, so a non-negative first slot keeps every store in range |
| AnalyzeWsjf.FillSlots | simulator/scripts/adversary/analyze_wsjf.py:42-52 | the fill succeeds exactly when the count is non-zero and the first slot is no further below 0 than numpy accepts; a count of 0 is a division by zero and a slot out of range an IndexError; with non-negative slots the array holds the running profile |
| AnalyzeWsjf.SlotStrategy | simulator/scripts/adversary/analyze_wsjf.py:54-95 | it divides by zero exactly when the goodput denominator is 0; otherwise the ratio is the slot scan optimum, the job sizes and packet size are its fraction encoded with a packet of 8192 to 12144 bits, the goodput is the share of bits of the arrivals within the ratio, and alpha follows from it |
| AnalyzeWsjf.WsjfAnalyzer.constructor | simulator/scripts/adversary/analyze_wsjf.py:8-16 | a new analyzer has no arrivals and an empty array |
| AnalyzeWsjf.WsjfAnalyzer.AnalyzePacket | simulator/scripts/adversary/analyze_wsjf.py:27-30 | the hook appends the packet's metrics |
| AnalyzeWsjf.WsjfAnalyzer.AnalyzePackets | simulator/scripts/adversary/analyze_wsjf.py:27-30 | the hook on a log appends its metrics in order |
| AnalyzeWsjf.WsjfAnalyzer.ComputeExpectation | simulator/scripts/adversary/analyze_wsjf.py:32-52 | the arrivals become a sorted permutation of themselves; no arrivals is an IndexError and a negative array length a ValueError, both leaving the array; otherwise a fresh array one longer than the top slot is filled, succeeding exactly when the count is non-zero and every slot is in range, and with non-negative slots it holds the running profile over zeros |
| AnalyzeWsjf.WsjfAnalyzer.GetOptimalStrategy | simulator/scripts/adversary/analyze_wsjf.py:54-95 | it divides by zero exactly when the goodput denominator is 0; otherwise the result is the strategy of the slot scan optimum over the analyzer's array and arrivals, with a packet of 8192 to 12144 bits |
| AnalyzeWsjf.Populate | simulator/scripts/adversary/analyze_wsjf.py:91-93 | after the hook and the expectations the arrivals are the log's metrics sorted by z-ratio, and the array is as `ComputeExpectation` leaves it |
| AnalyzeWsjf.Collect | simulator/scripts/adversary/analyze_wsjf.py:27-30 | after the hook on every packet the arrivals are the log's metrics in file order |
| AnalyzeWsjf.NewWsjfAnalyzer | simulator/scripts/adversary/analyze_wsjf.py:8-20 | a bad log line is the error; on success the log read and normalised, the configuration had the attack job size, the base holds the log's statistics, the arrivals are sorted by z-ratio and the array holds the profile |
| AnalyzeWsjf.MetricsJsizeSum | simulator/scripts/adversary/analyze_wsjf.py:44-45 | the job sizes of the metrics add up to the log's total |
| AnalyzeWsjf.TopSlotMean | simulator/scripts/adversary/analyze_wsjf.py:42-52 | the array's last slot times the packet count is the log's total job size |
| AnalyzeWsjf.ProfileGrows | simulator/scripts/adversary/analyze_wsjf.py:42-52 | with non-negative job sizes the profile grows from slot to slot |
| AnalyzeWsjf.SlotValue | simulator/scripts/adversary/analyze_wsjf.py:51-52 | a recorded slot times the count is the total of the arrivals with slots up to it |
| AnalyzeWsjf.OptimumUnique | simulator/scripts/adversary/analyze_wsjf.py:58-68 | the scan optimum is unique |
| AnalyzeWsjf.OptimumFeasible | simulator/scripts/adversary/analyze_wsjf.py:58-68 | the optimum is the initial ratio or the ratio of a slot whose load does not saturate |
| AnalyzeWsjf.ZeroRatioStrategy | simulator/scripts/adversary/analyze_wsjf.py:86-95 | a zero optimum gives zero job sizes in an 8192-bit packet |
| AnalyzeWsjf.AllScheduledGoodput | simulator/scripts/adversary/analyze_wsjf.py:71-78 | when the optimum is no smaller than every z-ratio, every arrival is scheduled and the goodput is at least `r_I` |
| AnalyzeWsjfInorder.AverageZ | simulator/scripts/adversary/analyze_wsjf_inorder.py:20-22 | for a flow with a non-zero packet-size total, the ratio times that total is the flow's job size total |
| AnalyzeWsjfInorder.EvaluateKeys | simulator/scripts/adversary/analyze_wsjf_inorder.py:55-57 | computing every flow's ratio succeeds exactly when no flow has a packet-size total of 0, and otherwise divides by zero |
| AnalyzeWsjfInorder.WsjfInorderAnalyzer.constructor | simulator/scripts/adversary/analyze_wsjf_inorder.py:26-34 | a new analyzer has no flows, no sorted flows and an empty array |
| AnalyzeWsjfInorder.WsjfInorderAnalyzer.AnalyzePacket | simulator/scripts/adversary/analyze_wsjf_inorder.py:46-50 | the hook adds the packet to its flow (a new flow goes last) and keeps the dictionary describing the packets seen |
| AnalyzeWsjfInorder.WsjfInorderAnalyzer.AnalyzePackets | simulator/scripts/adversary/analyze_wsjf_inorder.py:46-50 | the hook on a log keeps the dictionary describing every packet seen, in order |
| AnalyzeWsjfInorder.WsjfInorderAnalyzer.ComputeExpectation | simulator/scripts/adversary/analyze_wsjf_inorder.py:52-75 | a flow with a zero packet-size total divides by zero; otherwise the flows are sorted by ratio; no flows is an IndexError and a negative array length a ValueError; otherwise a fresh array one longer than the top slot is filled, succeeding exactly when the count is non-zero and every slot is in range |
| AnalyzeWsjfInorder.WsjfInorderAnalyzer.GetOptimalStrategy | simulator/scripts/adversary/analyze_wsjf_inorder.py:77-119 | it divides by zero exactly when the goodput denominator is 0; otherwise the result is the strategy of the slot scan optimum over the analyzer's array and sorted flows, with a packet of 8192 to 12144 bits |
| AnalyzeWsjfInorder.SortedRatiosDefined | simulator/scripts/adversary/analyze_wsjf_inorder.py:55-57 | sorting flows whose ratios are defined keeps them defined |
| AnalyzeWsjfInorder.Populate | simulator/scripts/adversary/analyze_wsjf_inorder.py:37-39 | after the hook and the expectations the dictionary describes the log; on success the sorted flows are its flows sorted by ratio and the array holds the profile |
| AnalyzeWsjfInorder.Collect | simulator/scripts/adversary/analyze_wsjf_inorder.py:46-50 | after the hook on every packet the dictionary describes the log |
| AnalyzeWsjfInorder.NewWsjfInorderAnalyzer | simulator/scripts/adversary/analyze_wsjf_inorder.py:26-39 | a bad log line is the error; on success the log read and normalised, the configuration had the attack job size, the flows are sorted by ratio and the array holds the profile |
| AnalyzeWsjfInorder.TopSlotMean | simulator/scripts/adversary/analyze_wsjf_inorder.py:64-75 | the array's last slot times the packet count is the log's total job size |
| AnalyzeWsjfInorder.AllScheduledGoodput | simulator/scripts/adversary/analyze_wsjf_inorder.py:95-102 | when the optimum is no smaller than every flow's ratio, every flow is scheduled and the goodput is at least `r_I` |
| TcpSpec.OutOfOrderState | simulator/src/applications/tcp_reassembly.cpp:83-129 | for an out-of-order segment, `process` settles the list that clipping and inserting the segment produce |
| TcpSpec.OutOfOrderCoverage | simulator/src/applications/tcp_reassembly.cpp:83-129 | for an out-of-order segment on a well-formed state, the new state holds exactly the old ranges and the segment beyond the new expected PSN, the rest having been released |
| TcpSpec.InsertSegmentCovers | simulator/src/applications/tcp_reassembly.cpp:83-116 | at or beyond the expected PSN, a sequence number is in the new list exactly when it was in the old list or in the segment |
| TcpSpec.InsertSegmentOrdered | simulator/src/applications/tcp_reassembly.cpp:83-116 | the ranges of the new list are in order and do not overlap |
| TcpSpec.InsertThenRelease | simulator/src/applications/tcp_reassembly.cpp:114-129 | inserting and then releasing accounts for every sequence number of the old list and of the segment |
| TcpReassemblyApp.TcpFlowState.Copy | simulator/src/applications/tcp_reassembly.h:66 | a flow state object copied out of the flow table has exactly the stored state |
| SimFq.CountFlowMember | simulator/src/queueing/fq_queue.cpp:38-40 | the flow of any heap entry counts at least one entry |
| SimFq.CountFlowPositive | simulator/src/queueing/fq_queue.cpp:38-40 | a flow that counts an entry has one in the heap |
| SimFq.CountFlowRemove | simulator/src/queueing/fq_queue.cpp:35-40 | removing a heap entry lowers the count of its own flow by one and leaves the others |
| Utils.JoinSplitFrom | common/utils.cpp:34-44 | joining the tokens of Python's split from any start gives back the rest of the string |
| Utils.SplitFromCount | common/utils.cpp:34-44 | from any start there is one token more than there are non-overlapping delimiter occurrences |

## Left out

- File and console I/O: the analyzers' log file becomes a sequence of lines, the trace file a string given to the generator's constructor, and the libconf configuration a `map` of sections to key/value maps.
- Printing: `printConfiguration`, `get_policy_name`, the analyzers' report output and `Packet`'s `operator<<` beyond the flow-id text are not modelled.
- Random sampling (common/distributions): an innocent packet-size sample is a method parameter, and inter-arrival times are a constant gap, as in the constant distribution.
- Boost heap internals: each heap is modelled by its contents (a multiset or a set of entries) with pop of a minimal entry; among entries with equal keys the heap's own order picks one, and the model does not fix which.
- Handles into boost heaps (FQ, SJF-Inorder and WSJF-Inorder queues, bounded heap): a handle is the entry it points to; updating a priority replaces that entry.
- TCPReassembly flow table: the C++ `std::unordered_map` of `TCPFlowState` objects is a `map` from flow id to flow-state values; `process_` works on a `TcpFlowState` object built from the stored value and writes it back.
- `HashFlowId` (boost `hash_combine`) is not modelled: the flow maps are keyed by the flow id itself.
- Floating point: doubles and Python floats are exact reals. NaN, where the code uses it as an "unset" marker, is a separate case of a `Double` datatype; +infinity for inter-arrival times and the generators' clocks is a `Time` case, but a packet's arrival time is a real (see the `GetNextArrival` line below). Rounding error, e.g. the accumulation `current_z += 1/4096`, is not reproduced; slot `i` stands for exactly `i / 4096`.
- `Fraction.limit_denominator(12144)` is a function parameter; all the model assumes of it is `LimitsDenominator`: a denominator from 1 to 12144, and 0 returned as 0/1.
- `DoubleApproxEqual` is modelled by its definition on reals (`ApproxEqual`); `getTrafficInterArrivalTimeInNs` (common/utils.cpp:13-21) is not part of this model.
- Python `sorted`/`list.sort`: specified as a permutation sorted by the key; results depend only on the multiset of keys, so the stable order among equal keys is not fixed.
- An analyzer field that is `None` before the profile is computed is modelled as an empty map or array.
- The thin wrapper queues (simulator/src/queueing/sjf_queue.cpp, wsjf_queue.cpp, scheduler/heaps/binomial_heap.hpp), the factories, the simulator main loop, the DPDK benchmark code, and the plotting and job-generation scripts are not part of this model.
- Text.PyInt, Text.StoUL, Text.StoI: their own contracts only bound the result; the parsing facts used elsewhere are the lemmas beside them (e.g. `Text.StoULOfDigits`, `Text.IntToStringRoundTrip`).
- Text.IntToString, Text.HexPadded: their own contracts state only the shape of the output; the round trip and exact width are the lemmas `Text.IntToStringRoundTrip` and `Text.HexPaddedExact`.
- RateConverter.ToStr: its contract states only when it succeeds; the round trip and idempotence are `RateConverter.ToStrRoundTrip` and `RateConverter.ToStrIdempotent`.
- Text.PyFloat, Text.StoD, AnalyzeCommon.ReadFloat, RateConverter.FromStr, TraceTraffic.ParseFields: floats are exact reals with no infinities, so "inf", "infinity" and "nan" in any case, C's hexadecimal floats ("0x1p3"), Python's digit underscores ("1_000") and overflow to infinity or `std::out_of_range` are not read; the simulator's packet log writes fixed-point numbers (simulator/src/simulator.cpp:295-302), so the analyzers' input is covered.
- SimWsjfInorder.WsjfInorderQueue.Push, SimWsjfInorder.WsjfInorderQueue.PushState: a 0-bit packet, whose flow ratio in the source is infinite (or NaN when the job size is also 0), is excluded because the model's priorities are exact reals with no infinity or NaN; the order the heap gives such entries is not modelled.
- Text.Strip, Text.PyInt, AnalyzeCommon.ReadInt: only ASCII is modelled. Whitespace is the six ASCII space characters, so `str.strip` keeps Unicode spaces such as "\xa0", "\x85" and "\u2003". Digits are ASCII `0`-`9`, so `int()`'s non-ASCII decimal digits ("١٢") and digit underscores ("1_000") are refused. The packet log and the rate strings the scripts produce contain only ASCII digits and spaces.
- Traffic.SyntheticTrafficGenerator.GetNextArrival, TraceTraffic.TraceTrafficGenerator.GetNextArrival: a packet is stamped only from a finite clock, because `Packet.arriveTime` is a real. An innocent rate of 0 gives an infinite gap (simulator/src/traffic/trafficgen_factory.cpp:44-49 and 81-83), so the clock is +infinity after the first packet. The simulator still asks that generator for packets when both clocks are infinite (simulator/src/simulator.cpp:162-170), and the packets it stamps at +infinity are not modelled.
- Hffs.HffsQueue.constructor: the bucket count is below 2^32 (the `uint32_t` parameter), and the level layout is the corrected one without `current_buckets` wrapping (see Findings).

## Findings

| source | as written | input that shows it | evidently intended | confidence | as-written member | corrected member |
|---|---|---|---|---|---|---|
| common/utils.cpp:42-44 | a trailing "" token is added whenever the string ends with the delimiter, even when the last occurrence overlapped one the loop already consumed | "aaa" split on "aa" gives ["", "a", ""], which joins back to "aaaaa" | Python's `str.split` (the declaration says it emulates it): ["", "a"] | not executed | Utils.SplitAsWrittenOverlap | Utils.Split |
| scheduler/heaps/hffs_queue/software/hffs_queue.hpp:46-56 | `current_buckets` is a `uint32_t` multiplied by 32 each level; after 32^6 = 2^30 it wraps to 0 | any `num_buckets` above 2^30 (e.g. 2^30 + 1): the guard `kNumBuckets > current_buckets` never fails and `init` never returns | the smallest level count whose 32^L buckets cover `num_buckets`, computed with a counter that does not wrap | not executed | Hffs.InitNeverEndsAsWritten | Hffs.LevelLayout |
