# The benchmark's event machine, verified

`tool/bench.cpp` drives many MQTT clients from one stackless coroutine. Its handlers (an answer, an
expired timer, a received publish) share one phase variable and four counters, and each client has
counters, send-time slots and samples of its own. The program is right only if those counters stay
in step with messages that are still on their way. This project models that machine and proves what
it does on every run, for any number of clients, any counts whose total fits 64 bits, any
interleaving, and late timers.

## How the model is built

- `Protocol.dfy` says what a run means without any of the program's counters: which answers arrived,
  when each client sent and received each message, which phases were stored. `Next` is the step of
  one event, `Inv` what every reachable view satisfies. `Runs.dfy` and `RecvReport.dfy` prove the
  results about whole runs.
- `Clients.dfy` and `Bench.dfy` are the program: a class for a client's record, updated in place, and
  a class for the context, with one method per handler. Each handler is proved to take exactly the
  step its event takes in `Protocol.dfy`, so every result about runs holds of the program; `Run`
  returns its own trace as a complete run. `Coupling.dfy` says how counters, slots, armed handlers
  and the wire stand for a view; `Conservation.dfy` restates that as equations between counters.
- `Readings.dfy` and `Accounts.dfy` read times, samples and publishes off the events of a run alone.
- `Payload.dfy` and `Decimal.dfy` model the fixed-width text in payloads, `Schedule.dfy` and
  `Cluster.dfy` the staggering of clients and nodes, `Targets.dfy` the round robin over brokers,
  `Report.dfy` the statistics, `Rate.dfy` the publish rate and its separators, `Wrapping.dfy` what
  happens when counts wrap. `Settings.dfy`, `Counting.dfy` and `Wrappers.dfy` are shared vocabulary.

The environment is one FIFO channel per client that echoes each QoS 0 publish once, the ordering
section 4.6 of MQTT Version 5.0 promises for one topic. Clock readings never decrease. Timers fire
at their expiry or any time later. In receive mode publishes are arbitrary, with arbitrary payloads
and clock readings. A handler invocation is one step and reads the clock once. That is an assumption:
by default all clients share one io_context with one thread, but the delay and synchronization timers
run on a context with a thread of its own (1833-1834, 1933-1937), so nothing in the program keeps
`OnPubDelay` and `OnDelay` from overlapping a client's handler.

Times are nanoseconds. Where 64-bit arithmetic matters it is written out: the products behind the
publish interval, the counts of publishes, the indexes of clients, the sum behind the average, the
conversion of a duration to a sample, the conversion of time stamps, and the start times the manager
sends and a worker takes for signed ones.

## Where the code falls short of its promise

Each has the exact condition under which the code is right.

- In receive mode the warm-up counter is shared, so one client's publishes can all be taken as
  warm-up; the report then reads the back of an empty vector. It cannot happen exactly when each
  client wants more publishes than all other clients' idle publishes together; otherwise some
  publishes make it happen and, while fields keep to eight digits, a sending process's own do
  (`RecvReport.ReportNeedsEnoughTimes`, `RecvReport.GenuineReportNeedsEnoughTimes`).
- In receive mode a publish with no time stamp in it ends the process. A run finishes exactly when no
  client is refused and every publish after the warm-up carries one
  (`RecvReport.RecvModeTermination`). A stamp a microsecond or more ahead of the receiver's clock
  gives a sample near 2^64 (`RecvReport.TrueDuration`).
- `main` adds `pub_idle_count` to `times` in 64 bits without a check (1536), at 1000 and 2^64 - 500 to
  500. The sum leaves publishes to measure exactly when it does not wrap (`Settings.TimesCoverWarmup`);
  if it wraps, a publishing client's timer is still armed when its send-time slots are used up, and the
  next expiry asks for the slot before the first, while a receiving process counts all publishes as
  warm-up and never finishes (`Wrapping.WrappedSendersFail`, `Wrapping.WrappedReceiversStarve`). All
  counters start right exactly when times * clients fits 64 bits (`Settings.CountersStartRight`),
  which the results about runs assume.
- Fields of more than eight digits run together. Payloads of different publishes differ exactly when
  counts keep to eight digits, or no client's index is another's, at least eight digits long, with one
  more nonzero digit; so both an index and a count have to be too wide (`Payload.DistinctPayloads`,
  `Payload.WideIndexesCollide`). A receiver decodes the right time exactly when both fields keep eight
  digits (`Payload.StampDecodes`).
- Send mode accepts payload sizes of 16 to 47 bytes although its fields take 48, and copies past the
  end of the payload (`Payload.ShortSendPayloads`; `Runs.RoomIsExact` is the exact condition on the
  options, which the results about runs assume because the program checks nothing).
- Worker start times are truncated to microseconds: nodes keep apart exactly when each node's share
  of the stagger is at least one microsecond (`Schedule.NodesStartInOrder`,
  `Schedule.GlobalSchedule`). A worker takes its start time for a signed number: it starts at its
  node's time exactly when that is below 2^63, and at once from there to 2^64
  (`Schedule.StartMessageRoundTrip`, `Schedule.LateStartsWrap`).
- The average is the true one exactly while the sum of the samples fits 64 bits
  (`Report.AverageIsTrue`).
- The rate line divides by zero unless there are at most as many clients as nanoseconds are left of
  the publish interval in 64 bits; an interval of 2^61 milliseconds leaves none (`Rate.RateDefined`,
  `Rate.LongIntervalsWrap`).

## Model

| member | source | states |
|---|---|---|
| BenchProgram.Bench.constructor | tool/bench.cpp:1830-1839 | a program over fresh client records stands at the start of every run, its counters, computed in 64 bits, at clients, idle * clients and times * clients |
| BenchProgram.RunBenchmark | tool/bench.cpp:2055-2084 | making the clients, the benchmark over them and running it fit together: one complete run of the options, with balanced targets |
| BenchProgram.Bench.OnConnack | tool/bench.cpp:372-418 | one CONNACK takes exactly the step the answers themselves call for: the barrier is passed when, and only when, all clients have answered with success; the counter never underflows |
| BenchProgram.Bench.OnSubDelay | tool/bench.cpp:424-439 | after the delay every client subscribes and awaits its own SUBACK |
| BenchProgram.Bench.OnSuback | tool/bench.cpp:509-556 | one SUBACK takes the step the answers call for; a rejection ends the process; a receiving process starts receiving on every client at once |
| BenchProgram.Bench.OnSync | tool/bench.cpp:619-642 | the delay before publishing is entered in the phase that fits the idle count |
| BenchProgram.Bench.OnPubDelay | tool/bench.cpp:643-689 | the loop is entered with one timer per client armed at its own slot and, in single mode, one reception per client |
| BenchProgram.Bench.ArmTimers | tool/bench.cpp:664-689 | client j's timer expires j staggers from now which, in the timers' range, is j/N of the publish interval up to j nanoseconds; nothing was armed twice; nothing else changes |
| BenchProgram.Bench.TriggerPub | tool/bench.cpp:879-904 | the slot of the count left takes the send time, the publish on the wire carries the client's index, that count and in send mode the given wall-clock time, the count goes down by one, no other record changes |
| BenchProgram.Bench.OnTimer | tool/bench.cpp:905-1000 | dispatching on the phase alone runs the right branch for whichever timer fired; the default branch is unreachable; the step is the one of that timer's event |
| BenchProgram.Bench.OnInterval | tool/bench.cpp:908-978 | a client timer's handler is one sending of that client at the handler's clock and wall-clock readings: its slot, its publish, its count, its next deadline, and in send mode the end of the warm-up or of the run when it was the last |
| BenchProgram.Bench.OnDelay | tool/bench.cpp:979-996 | the pause ends with one timer armed per client and nothing else changed |
| BenchProgram.Bench.CheckPublish | tool/bench.cpp:1063-1074 | one complaint for a topic and, in single mode, one for a payload that is not the expected one, and no other |
| BenchProgram.Bench.RecvPublish | tool/bench.cpp:1015-1097 | warm-up publishes are only counted; others add one sample, its own duration, and exactly the complaints they call for; the result tells the end of the warm-up and of the run exactly; a payload without a time stamp throws and changes nothing |
| BenchProgram.Bench.HandlePublish | tool/bench.cpp:744-876 | what one reception does to the shared state, to the wire and to its client, and that the client goes on receiving exactly while publishes are left |
| BenchProgram.Bench.OnReceived | tool/bench.cpp:744-876 | one reception is one step of the run; the last one reports |
| BenchProgram.Bench.ReportResults | tool/bench.cpp:793-829 | all samples sorted in place; the report exists exactly when no client is without samples, and names for each figure the first client attaining its maximum |
| BenchProgram.Bench.ReportExists | tool/bench.cpp:803-813 | in single mode no sample vector is empty at report time |
| BenchProgram.Bench.Run | tool/bench.cpp:253-1004 | running whatever is ready is one complete run: it ends on its own, finishes exactly when no client was refused (single and send mode), and leaves all counts at zero, nothing on the wire, no complaint, a report and one sample per wanted publish; samples and publishes are those the events alone call for |
| Accounts.LogAccounts | tool/bench.cpp:879-1096 | told by the events alone: single-mode samples are the round trips, receive-mode samples the durations against the stamps, send-mode publishes carry index, count and the wall-clock reading of their own sending |
| Clients.MakeClients | tool/bench.cpp:2056-2076 | one fresh record per client, sharing no memory, client i with target (target_index + i) mod the number of targets, so that the loads of two targets differ by at most one |
| Clients.IdsAndTopicsDiffer | tool/bench.cpp:1763-1765 | two clients have the same client identifier, or publish to the same topic, if and only if they are the same client, at any width of their indexes and even if those wrap round in 64 bits |
| Clients.IdsAndTopicsSpelledOut | tool/bench.cpp:1763-1765 | identifier and topic are the prefix followed by the client's index in at least eight digits, without needless zeros |
| Clients.Client.constructor | tool/bench.cpp:1735-1761 | a fresh record: times + pub_idle_count to send and receive, as many zeroed slots, the letter template |
| Protocol.NextKeeps | tool/bench.cpp:253-1004 | every handler keeps the invariant: order and bounds of all logs, samples equal to round trips, phases along the path, progress of each phase |
| Runs.Progress | tool/bench.cpp:779-996 | some handler can run in every reachable view except at the end, or at a barrier with a refusal |
| Coupling.NeverStranded | tool/bench.cpp:868-996 | the same of the program's own state: an armed timer, an awaited answer or a publish for an armed reception exists if and only if the run is not at rest |
| Runs.StepLeft | tool/bench.cpp:691-1003 | every handler uses up exactly one of the planned steps: a strictly decreasing measure |
| Runs.RunsAreBounded | tool/bench.cpp:253-1004 | no run is infinite, none longer than planned |
| Runs.SingleModeTermination | tool/bench.cpp:691-1003 | a complete run finishes if and only if no client was refused; then it has 2 * N * times loop steps, one more with a warm-up, all messages sent and received, and the wanted number of samples per client |
| Runs.SendModeTermination | tool/bench.cpp:908-978 | the same for send mode: all publish finished is reached exactly when every client has sent all |
| RecvReport.RecvModeTermination | tool/bench.cpp:744-876 | a complete receiving run finishes if and only if no client was refused and every publish received after the first N * idle carried a time stamp, which shows in its last one; then it took one step per publish |
| Runs.PhaseOrder | tool/bench.cpp:37-45 | stored phases strictly ascend in enumeration order; without a warm-up two never occur; finished runs of each mode stored exactly the listed ones |
| Runs.ConnectBarrier | tool/bench.cpp:378-400 | under any order of answers the barrier is passed if and only if all N answered with success, so by the last one only |
| Runs.SubscribeBarrier | tool/bench.cpp:515-543 | the same for the SUBACKs |
| Runs.PauseIsQuiet | tool/bench.cpp:779-791 | in the pause every client has sent (and received) exactly its idle publishes, nothing is in flight, and only the delay timer can fire |
| Runs.HandOver | tool/bench.cpp:775-792 | the warm-up ends in the very step of the last idle publish to be done, and in no other |
| Runs.MeasurementStart | tool/bench.cpp:979-996 | when the delay is over every client's timer, disarmed before, is armed once at its own offset |
| Runs.SamplesAreRoundTrips | tool/bench.cpp:1028-1040 | sample j of a client is the receive time minus the send time of its measured message j, in whole microseconds, never negative, modulo 2^64 |
| Readings.LogsAreReadings | tool/bench.cpp:891-903 | a client's send and receive times are the clock readings of its own handlers, and its publishes are made at their wall-clock readings, in order |
| Readings.RoundTripsOfEvents | tool/bench.cpp:1028-1040 | so the samples are the microseconds between those handlers' readings |
| Readings.PublishesOfEvents | tool/bench.cpp:1767-1792 | with fields of eight digits, a client's k-th publish has its topic, and its payload its index, times - k and, in send mode, the wall-clock reading of its own sending, which a receiver decodes |
| Coupling.SlotOfNextReception | tool/bench.cpp:1030-1040 | the slot read for the next message was written by sending that very message and not since |
| Runs.EchoMatches | tool/bench.cpp:1063-1074 | in any run the comparison of payload and topic finds equality |
| Runs.RoomIsExact | tool/bench.cpp:1767-1798 | what is assumed of the options holds if and only if the counts of all clients fit 64 bits and every payload of every client can be built |
| Settings.TimesCoverWarmup | tool/bench.cpp:1530-1536 | times + pub_idle_count, added in 64 bits, exceeds pub_idle_count if and only if it does not wrap, and falls short of it otherwise |
| Settings.IndexesCountUp | tool/bench.cpp:2066 | client indexes count up from start_index and begin again at zero where 64 bits end |
| Settings.CountersStartRight | tool/bench.cpp:1838-1839 | both products and the sum are the true ones if and only if times * clients fits 64 bits |
| Wrapping.WrappedSendersFail | tool/bench.cpp:896-947 | with a wrapped sum a publishing client's timer expires once more after its last slot, where no sending is possible |
| Wrapping.WrappedReceiversStarve | tool/bench.cpp:1083-1096 | with a wrapped sum all receptions are warm-up: rest_times ends at 0 with rest_idle above it, and the run never finishes |
| Runs.SlotsAreRespected | tool/bench.cpp:937-966 | the k-th publish leaves no sooner than the client's offset plus k intervals, however late earlier handlers ran |
| Runs.DeadlineMeans | tool/bench.cpp:937-940 | an armed timer's deadline is its phase's start, plus the client's offset, plus 1000000 * pub_interval_ms for each publish of the phase already made |
| Runs.LoopStart | tool/bench.cpp:643-678 | when the delay before publishing is over every client's timer is armed at its offset from that moment |
| Conservation.CountersBalance | tool/bench.cpp:879-1096 | in every state: rest_times and rest_idle are the sums of the clients' counts, a channel's length is recv_times - send_times, and it holds the descending counts in between |
| Coupling.IntervalArmed | tool/bench.cpp:896-970 | whenever a client timer fires, the slot index is in range, no counter underflows, and the asserts of the branch hold |
| Coupling.ReceptionArmed | tool/bench.cpp:1026-1076 | whenever a publish is handled, the counters are positive, the slot index is in range, the message is the expected one and the computed duration is that message's own |
| Coupling.PhaseTellsTimer | tool/bench.cpp:907-999 | the delay timer is armed exactly in the pause, client timers only while publishing |
| RecvReport.SamplesInAll | tool/bench.cpp:1028-1096 | a finished receiving run has N * wanted samples in all, and no client misses more than the others' idle publishes |
| RecvReport.FewestAre | tool/bench.cpp:1028-1096 | the fewest samples a client has over all finished receiving runs are exactly wanted - (N - 1) * idle, or none |
| RecvReport.ReportNeedsEnoughTimes | tool/bench.cpp:803-813 | every finished receiving run has a sample for every client if and only if wanted > (N - 1) * idle |
| RecvReport.GenuineReportNeedsEnoughTimes | tool/bench.cpp:803-813 | with fields of eight digits the same holds of the runs in which clients receive only a sending process's publishes, in order |
| RecvReport.PublishedIsSent | tool/bench.cpp:1774-1790 | those publishes are the payloads a sending process builds, and their stamps decode |
| RecvReport.SamplesAreDurations | tool/bench.cpp:1028-1096 | in every receiving run a client's samples are the durations of its own publishes, each against its own stamp, in order, without the first N * idle of all clients |
| RecvReport.TrueDuration | tool/bench.cpp:1043-1057 | a sample is the duration since the stamp if and only if the stamp is less than a microsecond ahead of the reading |
| Payload.BuildTemplate | tool/bench.cpp:1753-1760 | the loop fills the template |
| Payload.TemplateSpelledOut | tool/bench.cpp:1753-1760 | sixteen zero characters, then the letters A to Y over and over |
| Payload.FieldsParse | tool/bench.cpp:1767-1792 | with fields of eight digits, characters 0-7 of a payload read back as the index, 8-15 as the count, in send mode 16-47 as the time, and the rest is the template |
| Payload.WindowDecodes | tool/bench.cpp:1044-1045 | a receiver takes for the time the up to thirty-two characters behind the first sixteen, if they are digits and below 2^63 |
| Payload.FitsForEveryCount | tool/bench.cpp:1767-1792 | payloads keep their size and can be built for all counts up to times if and only if the widest fields fit |
| Payload.ShortSendPayloads | tool/bench.cpp:1774-1790 | below 48 bytes no send-mode payload can be built |
| Payload.DistinctPayloads | tool/bench.cpp:1767-1798 | for clients with indexes lo to hi - 1 and counts up to times: equal payloads mean the same client and count, if and only if times < 10^8 or hi <= 10 * max(lo, 10^7) + 1 |
| Payload.WideIndexesCollide | tool/bench.cpp:1771-1772 | how that fails: an index of at least eight digits and the same with one more nonzero digit share payloads, the former's count having nine digits |
| Payload.StampDecodes | tool/bench.cpp:1044-1045 | a receiver decodes every written time stamp if and only if both fields keep eight digits |
| Decimal.ParsePad | tool/bench.cpp:596-598 | a zero-padded number reads back as itself at any width, below the limit of the target type, and not at all from there on |
| Decimal.PadLength | tool/bench.cpp:1771-1775 | a field keeps its width if and only if the number is below 10^width |
| Schedule.StartMessageRoundTrip | tool/bench.cpp:565-598 | the message has the 32 characters the worker reads, and the worker starts at its node's time if and only if that is a signed 64-bit number |
| Schedule.LateStartsWrap | tool/bench.cpp:567-573 | from 2^63 to 2^64 the worker's start time is not positive |
| Schedule.SendStartTimes | tool/bench.cpp:592-598 | the manager's loop writes each worker its message of 32 characters, and while the last start time is below 2^63 each worker reads its own node's start time, its share of the stagger after the manager |
| Schedule.NodesStartInOrder | tool/bench.cpp:572-595 | nodes start strictly one after another at every base time if and only if their spacing is at least 1000 ns |
| Schedule.NodeRange | tool/bench.cpp:591-595 | every node starts less than one client stagger after the manager |
| Schedule.StaggerIsShare | tool/bench.cpp:1647-1649 | the stagger is the equal share of 1000000 * pub_interval_ms modulo 2^64 among the clients, rounded down |
| Schedule.OffsetIsShare | tool/bench.cpp:664-669 | in the timers' range client j's offset is j/N of the publish interval up to j nanoseconds |
| Schedule.NodesShareEqually | tool/bench.cpp:586-587 | the nodes' share is the stagger divided by the number of nodes, rounded down |
| Schedule.NodeStartsInTurn | tool/bench.cpp:565-598 | node j starts j/(workers + 1) of the stagger after the manager up to 1000 + j nanoseconds, at a whole microsecond |
| Schedule.GlobalSchedule | tool/bench.cpp:572-601 | for intervals below 2^63 ns, no two publishes of any client of any node in any round share a deadline, at any base time and delay, if and only if the stagger is positive and, with workers, the node spacing is at least 1000 ns |
| Cluster.TimersNeverCoincide | tool/bench.cpp:664-678 | the armed timers of programs on all nodes, each at its own point of its run, expire together only if they are the same timer |
| Cluster.MeasurementBase | tool/bench.cpp:917-996 | in send mode with ideal timers the measurement starts exactly the span of the idle publishes plus the pause after the warm-up |
| Cluster.NodesStayApart | tool/bench.cpp:917-996 | so sending nodes whose warm-ups started on time stay apart in the measurement, with nothing assumed about when that started |
| Cluster.IdealRunExists | tool/bench.cpp:908-996 | a run with ideal timers exists and finishes, whatever the options and the pause |
| Targets.TurnsBalance | tool/bench.cpp:2056-2076 | taking turns from any first target, the loads of two targets differ by at most one |
| Targets.NextTurn | tool/bench.cpp:2075-2076 | counting on with a wrap is (target_index + i) mod the number of targets |
| Report.SortIsPermutation | tool/bench.cpp:804 | sorting orders the samples and keeps exactly them |
| Report.StatsMeaning | tool/bench.cpp:804-813 | minimum, median and maximum are samples and bound them; more than half are at most the median, at least half at least it; without overflow the average lies between the extremes |
| Report.AverageIsTrue | tool/bench.cpp:808-812 | the average is the sum of the samples modulo 2^64 divided by their number, which is the true average if and only if the sum fits 64 bits |
| Report.Compete | tool/bench.cpp:814-829 | the four comparisons keep each leader the first client attaining its column's maximum |
| Report.SummaryMeaning | tool/bench.cpp:795-829 | maxmax is the largest sample of all clients and names the first client that has it, maxmin <= maxmid <= maxmax and, without overflow, maxmin <= maxavg <= maxmax |
| Rate.RateDefined | tool/bench.cpp:1647-1651 | the rate is defined if and only if 0 < clients <= interval in nanoseconds modulo 2^64 |
| Rate.RateMeans | tool/bench.cpp:1651 | the rate is how many staggers fit into a second |
| Rate.LongIntervalsWrap | tool/bench.cpp:1647-1651 | every multiple of 2^58 milliseconds divides by zero, whatever the number of clients |
| Rate.InsertCommas | tool/bench.cpp:1652-1667 | the loop groups digits by threes from the right: erasing commas gives the input, the length grows by (n - 1) / 3, the comma budget is used up |
| Rate.CommaPositions | tool/bench.cpp:1657-1664 | a comma stands exactly at every fourth character from the right |

## Left out

- QoS 1 and 2 sending (881-895), `fixed_topic`, retained publishes and lost messages: the invariants are not claimed there.
- Handlers that overlap: every handler is one step, also those of the delay timers against those of the clients, although these run on different threads; with several threads per context the counters' check-then-act pairs would overlap as well.
- BenchProgram.Bench.OnSubDelay: the staggered subscribe timers and the packet identifiers are folded into the SUBACK events, because they touch no counter and no phase.
- Schedule.NodesStartInOrder: node starts are exact numbers; each worker has its own while the last one is below 2^63, which `Schedule.SendStartTimes` proves of the messages.
- Schedule.GlobalSchedule: the same holds of its node starts, and of deadlines beyond the range of the clock.
- Runs.SlotsAreRespected: deadlines are added up exactly; once an interval or a deadline leaves the signed 64-bit range of the timers (937-939) the source's arithmetic is undefined, and `Schedule.TimersInRange` names the interval's part of that.
- Errors of connections and timers, which end the process wherever they occur; any exception while decoding is likewise one final stage.
- Sockets, TLS, WebSocket, handshakes, asio executors, the packet encoding of the library; they appear only as events. The connect interval timers are folded into the CONNACK events.
- Waiting for the start time on `tim_sync` and the manager's sockets appear only in `Schedule.dfy` and `Cluster.dfy`; in a run they are one event.
- Options, configuration files, help and progress output, the `limit_ms` line, detail lines of the report, closing after the report; `compare` is taken as switched on.
- The four near-identical client records per protocol: one is modelled. `recv_idle_count` is never used by the program and has no field.
- `std::sort` and `std::accumulate` are represented by their results; the sort in the report loop reassigns the client's samples.
- Signs in the conversion of time stamps, which no payload of the program contains.
- Runs whose counts wrap, beyond the two failures in `Wrapping.dfy`. That times * clients wraps without the sum wrapping cannot happen in practice: each client first allocates a slot per publish (1754).
- Exact sample counts per client in receive mode: nothing orders idle and measured messages across clients; the total and the bound are proved.
- The subscribe barrier is stated from the moment the subscriptions go out.
