# Verified models of the eBPF tools and their dashboard client

The repository pairs in-kernel eBPF handlers, which update shared maps on every event, with
user-space pollers that read, diff or drain those maps and print `key: value` lines, and with a
Python client that runs a poller, bounds its output, parses it and sums it. This project models
the handlers, the pollers, the drain loops, the client's run protocol, its bounded log and its
parser in Dafny, and proves what they keep over every trace, interleaving and iteration order.

How the models are built:

- A handler or poller is a class or method in the form of the C code. Its contract ties the new
  state to a step function on values; the theorems are about whole runs of that step function.
- A run is a `Bpf.Trace` of events. Whole handlers are one event each in the accumulator tools.
  `ReadStat`, `DiskIoSize` and `RunProtocol` are interleavings of smaller steps.
- A kernel map is a Dafny map with its capacity: updates of a present key succeed, inserts into a
  full map are dropped, as the handlers drop them silently. User space walks it in any fixed order.
- u64 arithmetic is explicit (`AddU64`, `SubU64`, `Wrap`); where a counter cannot wrap, that is proved.
- Kernel reads (current PID, process name, clock, socket address, return value) are event fields.
  Where a result needs a monotone clock, or a scheduler that runs a PID on one CPU at a time, it says so.

| file | part of the system |
|---|---|
| `Bpf.dfy` | u64 arithmetic, capacity-bounded maps, traces, sums |
| `Walks.dfy`, `Books.dfy` | `get_next_key`, the drain loops, read-only walks; the books of a drained counter map |
| `CpuUsage.dfy`, `CpuUsagePoll.dfy` | `cpu_usage`, kernel and user side, end to end |
| `StartStop.dfy`, `Fsync.dfy`, `RunDelay.dfy` | the start/stop accumulator, its history, and its two tools |
| `DiskIoSched.dfy`, `DiskIoSize.dfy`, `DiskIoPids.dfy`, `DiskRead.dfy` | the disk tools |
| `ReadStat.dfy`, `IrqStat.dfy`, `Retransmit.dfy` | the counter tools with a drain |
| `Tracecon.dfy`, `Bootstrap.dfy` | the event-correlation probes |
| `LinePattern.dfy`, `Metrics.dfy`, `OutputLog.dfy`, `RunProtocol.dfy` | the client |
| `Dashboard.dfy`, `IrqDashboard.dfy` | disk reads and execve counts from kernel event to dashboard number |

Findings. These promised or natural properties do not hold of the code. Each has a lemma with a
failing run and one with the exact condition under which the property holds:

- `file_fsync_stat` keys the start by process, so overlapping calls of two threads hide calls and
  time (`OverlapHidesTime`; `CountIsExactIff`, `LatencyIsExactIff`).
- `read_stat` can lose events to a racing insert, add or delete, or to a full map, though it never
  counts one twice (`RaceLosesAnEvent`; `EveryEventIsCountedIff`, `StepLosesIff`, `NeverOvercounts`).
- `disk_io_sched` keys the issue time by the PID and CPU that are current, not by request, so a
  completion can be charged with more time than its request took (`OtherKeyOvershoots`;
  `AcceptedAtMostTrueIff`). Its total can wrap (`SafeCountIsTight`;
  `TotalIsExactIff`).
- The per-PID drain of `net_tcp_retransmit` prints nothing, poll after poll, while PID 0 is the last
  key of its map (`StuckPollAfterPoll`, `StuckOnce`; `PollPrintsPidsIff`).
- Collect-then-delete in `read_stat` misses key 0 and what precedes it when key 0 is present
  (`PidZeroIsNotDrained`; `CollectedIsAllIff`, `PollDrains`), and so does the read-only walk of
  `cpu_run_delay` (`PidZeroIsNotVisited`; `EveryPidIsVisitedIff`).
- The client clears the running flag before it reaps the killed process, so two processes of one
  tool can be alive (`TwoLiveProcesses`; `SpawnsAloneIff`, `OneLivePerToolIff`); at most one of them
  is not yet killed, unless a signal was refused (`OneUnkilledProcessPerTool`).
- `irq_stat` shows only five names a poll, so the dashboard number of a name can fall short of its
  events, and the line of the others shares its key with a process of that name (`NamesEndToEnd` gives
  the exact condition for each name; the sum over all names is exact, `TotalEndToEnd`).
- The truncated log is not always a prefix of the output (`KeptAfterDropped`; `LogIsPrefixIff`).

Where the code and its documentation disagree, the model follows the code:

- client/README.md:164 and my_tools/README.md:142 say that a disconnect sends SIGTERM first and
  SIGKILL two seconds later. The code sends only SIGKILL, unless the run was already past its read
  loop (`CancelKills`).
- my_tools/README.md:103 says `irq_stat` counts interrupts. The code counts execve calls per process
  name.

## Model

| member | source | states |
|---|---|---|
| Walks.DrainRestart | my_tools/network/net_tcp_retransmit.c:64-78 | Delete-and-restart from any key, in any order, terminates; it reads and removes every entry exactly once, unless the starting key is the last of the order, when it removes nothing |
| Walks.RestartOrderIsAllOrNothing | my_tools/network/net_tcp_retransmit.c:64-78 | The walk visits nothing if and only if the map is empty or the start key is last; otherwise its visits are a permutation of the map |
| Walks.DrainLookAhead | my_tools/memo/page_fault_stat.c:42-57 | Look-ahead-then-delete reads every entry once in map order and empties the map |
| Walks.CollectPids | my_tools/file/read_stat.c:46-55 | The first pass fills the array, in bounds, with exactly the PIDs ahead of key 0, at most its length |
| Walks.DeletePids | my_tools/file/read_stat.c:57-67 | The second pass prints exactly the collected entries and removes exactly those |
| Walks.DrainCollected | my_tools/file/read_stat.c:46-67 | Both passes print and remove exactly the entries ahead of key 0 |
| Walks.CollectedIsAllIff | my_tools/file/read_stat.c:46-67 | With an array as long as the map's capacity the bound never cuts the walk, and the drain is complete if and only if key 0 is absent |
| Walks.Take | my_tools/memo/page_fault_stat.c:47-53 | Lookup then delete returns the entry's value and removes only that entry; a walk standing on it starts over |
| Books.ListingTotal | my_tools/network/net_tcp_retransmit.c:86-102 | The counts of any full listing add up to the total of the map |
| Books.CountBalance | my_tools/network/net_tcp_retransmit.bpf.c:67-76 | One counted event adds exactly one to printed plus live plus dropped |
| CpuUsage.CpuUsageProbe.HandleSchedSwitch | my_tools/cpu/cpu_usage.bpf.c:34-69 | One switch takes the three maps to the state the step function gives |
| CpuUsage.StartTracksRunning | my_tools/cpu/cpu_usage.bpf.c:34-69 | In every legal run `cpu_start` holds exactly the running tasks whose switch-in was seen, each with its true switch-in time, at most one per core |
| CpuUsage.InsertSucceeds | my_tools/cpu/cpu_usage.bpf.c:63-66 | No insert into `cpu_start` ever fails |
| CpuUsage.DeltaIsClosed | my_tools/cpu/cpu_usage.bpf.c:43-53 | The handler's delta is the true length of the interval that the switch closes |
| CpuUsage.BusyIsExact | my_tools/cpu/cpu_usage.bpf.c:34-69 | `cpu_busy[c]` is exactly the observed non-idle time of core c and at most the elapsed time, so it never wraps |
| CpuUsage.BusyAtMostElapsed | my_tools/cpu/cpu_usage.bpf.c:34-69 | The non-idle time of a core is at most the time from attachment to its last switch |
| CpuUsage.OnCpuAtMostElapsed | my_tools/cpu/cpu_usage.bpf.c:34-69 | A PID's on-CPU time is at most the elapsed time, up to its still open interval |
| CpuUsage.TimeIsExact | my_tools/cpu/cpu_usage.bpf.c:43-61 | Key 0 is never in `cpu_time`; each PID there has exactly its observed time; one is missing only when the map is full |
| CpuUsage.TimeMonotone | my_tools/cpu/cpu_usage.bpf.c:43-61 | No entry of `cpu_time` vanishes or decreases |
| CpuUsage.BooksBalance | my_tools/cpu/cpu_usage.bpf.c:34-69 | The sum over PIDs equals the sum over cores while `cpu_time` is not full, and never exceeds it |
| CpuUsagePoll.PrintGrowth | my_tools/cpu/cpu_usage.c:57-65 | One visit prints one line exactly when its key has a slot and gained at least one whole unit, with the gain in whole units, and brings only its own snapshot up to date |
| CpuUsagePoll.PollPids | my_tools/cpu/cpu_usage.c:49-67 | The PID loop visits exactly the entries ahead of key 0, in order, in bounds |
| CpuUsagePoll.PollCores | my_tools/cpu/cpu_usage.c:70-83 | The core loop visits all 256 slots once |
| CpuUsagePoll.VisitListed | my_tools/cpu/cpu_usage.c:51-67 | After a walk a listed key with a slot has a current snapshot, and was printed once with its gain in whole units if there is one |
| CpuUsagePoll.PidLinesAreExact | my_tools/cpu/cpu_usage.c:49-67 | In every run, in any order of the walk, a poll prints for a PID exactly one line with its nanoseconds since the last poll divided by 1000, if the PID is below 65536 and that is at least one, and none otherwise; no PID is missed |
| CpuUsagePoll.CoreLinesAreExact | my_tools/cpu/cpu_usage.c:69-83 | The same for the milliseconds of each core, from its true busy time |
| CpuUsagePoll.PollLinesArePositive | my_tools/cpu/cpu_usage.c:60-63 | No poll prints a zero, for any PID or core |
| CpuUsagePoll.PrintedMicroseconds | my_tools/cpu/cpu_usage.c:49-67 | After any run with n polls, 1000 times the printed sum of a PID below 65536 is at most its nanoseconds at the last poll and short by at most 999 n |
| CpuUsagePoll.PrintedMilliseconds | my_tools/cpu/cpu_usage.c:69-83 | The same for the milliseconds of each core, against its true busy time |
| ReadStat.ReadStatProbe.HandleEnterRead | my_tools/file/read_stat.bpf.c:12-24 | The whole handler counts one, or drops the event when the map is full |
| ReadStat.UninterruptedIsAtomic | my_tools/file/read_stat.bpf.c:12-24 | Its lookup and second access, run without interruption, have exactly that effect |
| ReadStat.EveryEventIsAccounted | my_tools/file/read_stat.bpf.c:12-24 | In every interleaving, for every set of PIDs, the events are the printed, plus the live and unprinted, plus those in flight, plus those lost by a named step |
| ReadStat.NeverOvercounts | my_tools/file/read_stat.c:57-67 | Printed plus live and unprinted never exceeds the number of events |
| ReadStat.CountsAreBounded | my_tools/file/read_stat.bpf.c:15-22 | A live count never exceeds the number of events |
| ReadStat.StepLosesIff | my_tools/file/read_stat.bpf.c:15-22 | In every reachable state a step loses events if and only if it is an add to an element deleted or replaced since its lookup, an insert over a live count that is not fully printed or into a full map, or a delete of a count that is not the one printed |
| ReadStat.EveryEventIsCountedIff | my_tools/file/read_stat.c:57-67 | In every interleaving, for every set of PIDs, each event is printed, live and unprinted, or in flight, if and only if no step of the run met one of those guards |
| ReadStat.ReadCallSteps | my_tools/file/read_stat.bpf.c:12-24 | From any state, a handler that is not interrupted loses its event if and only if its PID is new to a full map |
| ReadStat.DrainPidSteps | my_tools/file/read_stat.c:60-66 | From any state between two PIDs, an uninterrupted print and delete moves the whole count to the output and loses nothing |
| ReadStat.SerialLosesOnlyWhenFull | my_tools/file/read_stat.bpf.c:12-24 | A run without interference loses events if and only if a new PID met a full map |
| ReadStat.SerialIsAtomic | my_tools/file/read_stat.bpf.c:12-24 | The counters of such a run are those of atomic handlers |
| ReadStat.PollDrains | my_tools/file/read_stat.c:46-67 | Over the map of any run, in any order, the PID array is never too short; a poll prints and deletes exactly the PIDs ahead of key 0, loses nothing, and empties the map if and only if it does not hold PID 0 |
| ReadStat.PidZeroIsNotDrained | my_tools/file/read_stat.c:46-55 | A map that holds only PID 0 is never drained |
| ReadStat.RaceLosesAnEvent | my_tools/file/read_stat.bpf.c:18-22 | Two handlers that miss the same PID leave a count of one for two events |
| StartStop.StartIsOpen | my_tools/file/file_fsync_stat.bpf.c:39-57 | A stored timestamp is always the time of its key's latest event, a begin, even when maps are full |
| StartStop.OpenIsStored | my_tools/file/file_fsync_stat.bpf.c:39-57 | While never more keys are open than the map has entries, a timestamp is stored exactly while its key is open |
| StartStop.RecordedAreDisjoint | my_tools/file/file_fsync_stat.bpf.c:46-57 | The recorded intervals of a key are disjoint and in order |
| StartStop.TotalAtMostElapsed | my_tools/cpu/cpu_run_delay.bpf.c:61-92 | A key's accumulated time is at most the elapsed time |
| StartStop.SameKeys | my_tools/cpu/cpu_run_delay.bpf.c:72-87 | The two accumulator maps have equal key sets in every state, even when full |
| StartStop.TotalsAreExact | my_tools/cpu/cpu_run_delay.bpf.c:61-92 | A key in the maps has exactly the sum and number of its intervals, without wrap-around; one is missing only when they are full |
| Fsync.FsyncProbe.RecordFsyncEntry | my_tools/file/file_fsync_stat.bpf.c:39-44 | The entry stores the process's start, over any earlier one |
| Fsync.FsyncProbe.RecordFsyncExit | my_tools/file/file_fsync_stat.bpf.c:46-82 | The exit takes the four maps to the state the step function gives |
| Fsync.RecordedAtMostTrue | my_tools/file/file_fsync_stat.bpf.c:46-57 | However calls overlap, a recorded latency is at most the exiting call's true duration |
| Fsync.LatencyIsDisjointTime | my_tools/file/file_fsync_stat.bpf.c:39-82 | Recorded intervals of a process are disjoint; its latency is their sum, at most the elapsed time, and its count their number |
| Fsync.GlobalStatsAreSums | my_tools/file/file_fsync_stat.bpf.c:55-67 | The two statistics are the sum and number of all recorded latencies, as u64s |
| Fsync.ProcessesSplitTheTotal | my_tools/file/file_fsync_stat.bpf.c:55-79 | The per-process maps split both statistics while they are not full |
| Fsync.CountIsExactIff | my_tools/file/file_fsync_stat.bpf.c:39-82 | `pid_fsync_count` of a process, zero when absent, is at most its exits, and equal if and only if no two of its exits are adjacent |
| Fsync.LatencyIsExactIff | my_tools/file/file_fsync_stat.bpf.c:39-82 | `pid_fsync_latency` of a process, zero when absent, is at most the true total of its calls, and equal if and only if overlapping calls hide no time |
| Fsync.NonOverlappingIsExact | my_tools/file/file_fsync_stat.bpf.c:39-82 | Calls that do not overlap meet both conditions |
| Fsync.OverlapHidesTime | my_tools/file/file_fsync_stat.bpf.c:39-57 | Two overlapping calls with one counted and 7 of 17 ns recorded |
| RunDelay.RunDelayProbe.HandleSchedWakeup | my_tools/cpu/cpu_run_delay.bpf.c:39-58 | Both wakeup handlers begin a delay |
| RunDelay.RunDelayProbe.HandleSchedSwitch | my_tools/cpu/cpu_run_delay.bpf.c:61-92 | A switch to a task ends its delay and updates both accumulators |
| RunDelay.DelaysAreBounded | my_tools/cpu/cpu_run_delay.bpf.c:38-92 | `run_delay` and `wakeup_count` have equal keys in every state; a PID's delay is exactly the sum of its delays, at most the elapsed time |
| RunDelay.PrintPid | my_tools/cpu/cpu_run_delay.c:52-79 | One visit prints at most one average and brings both snapshots up to date |
| RunDelay.PollOnce | my_tools/cpu/cpu_run_delay.c:48-80 | The loop visits exactly the entries ahead of key 0 |
| RunDelay.WindowIsGrowth | my_tools/cpu/cpu_run_delay.c:56-78 | What the snapshots lack is exactly the delays that ended since the last poll that visited the PID |
| RunDelay.LinesAreExact | my_tools/cpu/cpu_run_delay.c:48-80 | In every run, in any order of the walk, a poll prints for a PID exactly one line with the average of those delays in whole microseconds, if the PID is below 65536, visited, and had one, and none otherwise |
| RunDelay.AverageLiesInWindow | my_tools/cpu/cpu_run_delay.c:48-80 | A line is printed exactly when a delay ended in the window, and its average lies between the floored shortest and longest microseconds of the window |
| RunDelay.EveryPidIsVisitedIff | my_tools/cpu/cpu_run_delay.c:48-52 | The walk visits every PID of the map if and only if key 0 is absent |
| RunDelay.PidZeroIsNotVisited | my_tools/cpu/cpu_run_delay.c:48-52 | A map that holds only PID 0 is never printed |
| DiskIoSched.KeyIsInjective | my_tools/disk/disk_io_sched.bpf.c:43-44 | PID and CPU are packed into one key without collision |
| DiskIoSched.DiskIoSchedProbe.HandleRqIssue | my_tools/disk/disk_io_sched.bpf.c:40-49 | An issue stores its time under PID and CPU |
| DiskIoSched.DiskIoSchedProbe.HandleRqComplete | my_tools/disk/disk_io_sched.bpf.c:51-112 | A completion takes all maps to the state the step function gives, including the ten-second cutoff |
| DiskIoSched.StatsSummarise | my_tools/disk/disk_io_sched.bpf.c:70-96 | The statistics are the sum and number modulo 2^64 and the true maximum of the accepted latencies |
| DiskIoSched.OtherStatsStayZero | my_tools/disk/disk_io_sched.bpf.c:70-96 | The other slots of the statistics are never used |
| DiskIoSched.StatsAreConsistent | my_tools/disk/disk_io_sched.bpf.c:61-96 | max ≤ 10^10 always; while at most 1844674407 completions were accepted, max ≤ total ≤ count·max and total is the true sum |
| DiskIoSched.TotalIsExactIff | my_tools/disk/disk_io_sched.bpf.c:70-79 | The total is the true sum if and only if the accepted latencies add up to less than 2^64 |
| DiskIoSched.SafeCountIsTight | my_tools/disk/disk_io_sched.bpf.c:64-68 | A run on a monotone clock with one accepted completion more, in which the total has wrapped below the maximum |
| DiskIoSched.AcceptedIsSincePending | my_tools/disk/disk_io_sched.bpf.c:51-68 | In every run, full maps included, an accepted latency runs from the latest issue under the same PID and CPU not since completed |
| DiskIoSched.LatenciesAreExpected | my_tools/disk/disk_io_sched.bpf.c:40-68 | While never more issues are pending than the map has entries, exactly the latencies that the history calls for are accepted |
| DiskIoSched.StatsAreHistory | my_tools/disk/disk_io_sched.bpf.c:40-96 | Then the statistics are the sum and number modulo 2^64 and the maximum of the latencies of the history |
| DiskIoSched.AcceptedAtMostTrueIff | my_tools/disk/disk_io_sched.bpf.c:40-68 | On a monotone clock an accepted latency is at most the true duration of its request if and only if the request was issued no later than the latest pending issue of the completing PID and CPU, and equal if and only if issued at that time |
| DiskIoSched.SameKeyAtMostTrue | my_tools/disk/disk_io_sched.bpf.c:40-68 | A request that completes under the PID and CPU that issued it is never charged with more than its true duration |
| DiskIoSched.OtherKeyOvershoots | my_tools/disk/disk_io_sched.bpf.c:40-68 | A request that completes under another PID and CPU can be: 6 for 1 |
| DiskIoSched.SameKeys | my_tools/disk/disk_io_sched.bpf.c:98-108 | The per-PID maps have equal key sets in every state |
| DiskIoSched.PidIsExact | my_tools/disk/disk_io_sched.bpf.c:98-108 | A PID's latency and count are the sum and number of its accepted latencies; it is missing only when the maps are full |
| DiskIoSched.PidsSplitTheTotal | my_tools/disk/disk_io_sched.bpf.c:51-112 | Per-PID latencies and counts add up to the global ones while the maps are not full, and never to more |
| DiskIoSize.SlotAccount | my_tools/disk/disk_io_size.bpf.c:50-66 | In every interleaving what was issued to a slot, at 512 bytes a sector, was added to it or is owed by a running handler |
| DiskIoSize.SlotHoldsAdded | my_tools/disk/disk_io_size.bpf.c:50-66 | A slot holds what was added to it, modulo 2^64 |
| DiskIoSize.TotalBytesLagByInFlight | my_tools/disk/disk_io_size.bpf.c:33-66 | Read plus write bytes exceed total bytes, modulo 2^64, by exactly the bytes of handlers between those two adds |
| DiskIoSize.TotalCountLagsByInFlight | my_tools/disk/disk_io_size.bpf.c:33-66 | Likewise for the counts |
| DiskIoSize.QuiescentTotalsAgree | my_tools/disk/disk_io_size.bpf.c:33-66 | With no handler in flight every slot holds what was issued and the totals agree |
| DiskIoPids.DiskIoSizeProbe.HandleBlockRqIssue | my_tools/disk/disk_io_size.bpf.c:33-92 | The whole handler adds to each slot exactly the request's share, and to its PID's entry |
| DiskIoPids.UninterruptedIsAtomic | my_tools/disk/disk_io_size.bpf.c:50-66 | Four uninterrupted steps of the interleaving model are one whole handler |
| DiskIoPids.PidsSplitRequests | my_tools/disk/disk_io_size.bpf.c:68-89 | The PID entries add up to the requested bytes and counts while the map is not full, and never to more |
| DiskIoPids.PidsSplitArray | my_tools/disk/disk_io_size.bpf.c:33-92 | So they add up to the array's read and write slots |
| DiskRead.DiskReadProbe.UpdateStat | my_tools/disk/disk_read_delay.bpf.c:28-36 | Adds to a counter or creates it |
| DiskRead.DiskReadProbe.HandleVfsReadRet | my_tools/disk/disk_read_delay.bpf.c:47-58 | A return charges its latency and one operation, once, and forgets the start |
| DiskRead.DiskReadProbe.HandleBlkUpdateRequest | my_tools/disk/disk_read_delay.bpf.c:69-80 | The same for a block request |
| DiskRead.DiskReadProbe.HandleVfsRead | my_tools/disk/disk_read_delay.bpf.c:38-45 | An entry stores its time |
| DiskRead.DiskReadProbe.HandleBlkMqStartRequest | my_tools/disk/disk_read_delay.bpf.c:60-67 | The same for a block request |
| DiskRead.NeverBlocked | my_tools/disk/disk_read_delay.bpf.c:21-36 | The capacity of four never blocks a counter |
| DiskRead.KeysStayBelowFour | my_tools/disk/disk_read_delay.bpf.c:21-80 | Only keys 0 to 3 ever occur, and none vanishes |
| DiskRead.CountersAreCharged | my_tools/disk/disk_read_delay.bpf.c:28-80 | Each counter is what was charged to it, modulo 2^64 |
| DiskRead.MeasuredIsHistory | my_tools/disk/disk_read_delay.bpf.c:38-80 | A measured latency runs from the latest entry of the thread, or start of the request, not since ended, in every run; while there is room, every such end is measured |
| DiskRead.ChargedIsTrue | my_tools/disk/disk_read_delay.bpf.c:38-80 | On a monotone clock no more is charged than the history gives, and exactly that while there is room for every start |
| DiskRead.CountersAreSums | my_tools/disk/disk_read_delay.bpf.c:28-80 | Then each counter is, modulo 2^64, the sum of now minus start over the reads or requests that ended, or their number, as the history defines them |
| DiskRead.PollOnce | my_tools/disk/disk_read_delay.c:39-56 | One round prints the four guarded growths and takes the new snapshot; an unreadable counter is zero |
| DiskRead.ComplainsIff | my_tools/disk/disk_read_delay.c:44-48 | A round complains about exactly the counters that cannot be read |
| DiskRead.LogTelescopes | my_tools/disk/disk_read_delay.c:39-56 | The printed growths of a counter add up to its last polled value |
| DiskRead.DashboardIsLastPolled | client/main.py:133-156 | From the rendered log the client has exactly the four keys, by name; 1000 times each of the two times, and each of the two counts, is exactly the last polled counter: three decimals lose no nanosecond |
| DiskRead.DashboardIsExact | client/main.py:133-156 | End to end: 1000 times each time is exactly the nanoseconds, and each count the number, of the reads or requests that the history says ended up to the last poll |
| Retransmit.RetransmitProbe.HandleTcpRetransmit | my_tools/network/net_tcp_retransmit.bpf.c:41-79 | One event updates all three books as the step function says |
| Retransmit.RetransmitPoller.PollOnce | my_tools/network/net_tcp_retransmit.c:49-102 | One poll prints the global growth and drains both maps; the PID map stays, unprinted, exactly when key 0 is its last key |
| Retransmit.DeltasTelescope | my_tools/network/net_tcp_retransmit.c:52-62 | Printed deltas add up to the counter at the last poll, which counts every event |
| Retransmit.PidLinesAddUp | my_tools/network/net_tcp_retransmit.c:64-78 | In any order, a PID drain that is not stuck prints the total of the map |
| Retransmit.CommLinesAddUp | my_tools/network/net_tcp_retransmit.c:80-102 | In any order, the per-name drain prints the total of the map |
| Retransmit.PidLinesAreExact | my_tools/network/net_tcp_retransmit.c:64-78 | In every run with at most 10240 PIDs, in any order of the walk, a poll prints a line for a PID exactly when it had retransmissions since the last poll that was not stuck, once, with their number and the name of the first; a stuck poll prints none |
| Retransmit.NameLinesAreExact | my_tools/network/net_tcp_retransmit.c:80-102 | A poll prints a line for a name exactly when it had retransmissions since the last poll, once, with their number |
| Retransmit.PidBookBalances | my_tools/network/net_tcp_retransmit.bpf.c:56-65 | Over every run each event is printed once per PID, still live, or was dropped by a full map, stuck polls included |
| Retransmit.CommBookBalances | my_tools/network/net_tcp_retransmit.bpf.c:67-76 | The same per process name |
| Retransmit.BooksAgreeAfterPoll | my_tools/network/net_tcp_retransmit.c:49-102 | After a poll that is not stuck, the three printed totals agree up to dropped events |
| Retransmit.StuckNeedsPidZero | my_tools/network/net_tcp_retransmit.c:64-78 | A stuck poll changes nothing in the PID book and needs an earlier event of PID 0 |
| Retransmit.PollPrintsPidsIff | my_tools/network/net_tcp_retransmit.c:64-78 | In every run a poll prints the total of the PID map if and only if key 0 is not its last key |
| Retransmit.StuckOnce | my_tools/network/net_tcp_retransmit.c:64-78 | Whenever PID 0 is in the map, there is an order in which the next poll prints no PID and leaves the map as it is |
| Retransmit.StuckPollAfterPoll | my_tools/network/net_tcp_retransmit.c:64-78 | After one retransmission of PID 0, any number of polls can pass without printing it |
| IrqStat.IrqStatProbe.HandleExecve | my_tools/cpu/irq_stat.bpf.c:17-35 | Insert-zero-then-add counts one, or drops the event when the map is full |
| IrqStat.Drain | my_tools/cpu/irq_stat.c:51-69 | The drain empties the map into the array, every entry once, writes in bounds |
| IrqStat.Sort | my_tools/cpu/irq_stat.c:15-20 | The sort yields a descending permutation |
| IrqStat.PollOnce | my_tools/cpu/irq_stat.c:51-84 | One poll empties the map and prints the report of a ranked permutation of it |
| IrqStat.Print | my_tools/cpu/irq_stat.c:72-84 | Prints five names at most, and the others' u64 sum only when positive |
| IrqStat.ReportAddsUpIff | my_tools/cpu/irq_stat.c:72-84 | The printed lines add up to the listing if and only if the merged counts fit a u64 |
| IrqStat.TopFive | my_tools/cpu/irq_stat.c:70-84 | Every shown count is at least every merged one, nothing is merged while a line is free, nothing is lost |
| IrqStat.PollPrintsTotal | my_tools/cpu/irq_stat.c:51-84 | Whatever the order of walk and sort, the lines add up to the map's total |
| IrqStat.EveryExecveIsAccounted | my_tools/cpu/irq_stat.bpf.c:17-35 | Over every run each execve is printed, live, or dropped by a full map |
| IrqStat.FewNamesDropNothing | my_tools/cpu/irq_stat.bpf.c:10-15 | The map never outgrows the array; nothing is dropped with at most 512 names |
| IrqStat.PrintedIsEveryExecve | my_tools/cpu/irq_stat.c:49-86 | Then, after a poll, everything printed adds up to the execve events |
| IrqDashboard.NamesEndToEnd | my_tools/cpu/irq_stat.c:72-84 | From execve to dashboard, through the JSON lines and the bounded log, for every run with at most 512 names and 2500 polls: the client never shows more of a name than its execve events up to the last poll, and exactly that if and only if no poll ranked it behind the fifth place; "others" collects everything merged, next to a process of that name |
| IrqDashboard.TotalEndToEnd | client/main.py:159-172 | After a poll the sum that the client reports over all names is the number of execve events |
| Tracecon.TraceconProbe.GetaddrinfoEnter | examples/rust/tracecon/src/bpf/tracecon.bpf.c:77-90 | An entry of a traced thread stores the name under the thread |
| Tracecon.TraceconProbe.GetaddrinfoExit | examples/rust/tracecon/src/bpf/tracecon.bpf.c:92-115 | A successful exit moves the name to its address; any exit of a known thread forgets the lookup |
| Tracecon.TraceconProbe.TcpV4ConnectEnter | examples/rust/tracecon/src/bpf/tracecon.bpf.c:118-127 | An entry stores the socket |
| Tracecon.TraceconProbe.TcpV4ConnectExit | examples/rust/tracecon/src/bpf/tracecon.bpf.c:129-160 | A successful exit reports the name and consumes it, or the bare address |
| Tracecon.LookupsAreOpen | examples/rust/tracecon/src/bpf/tracecon.bpf.c:66-115 | `lookups` holds a thread only between an entry and the next exit of that thread, both in the target process, with its name |
| Tracecon.SocketsAreOpen | examples/rust/tracecon/src/bpf/tracecon.bpf.c:66-160 | `sockets` holds a thread only between an entry and the next exit of that thread, both in the target process, with its socket |
| Tracecon.HostnamesWereResolved | examples/rust/tracecon/src/bpf/tracecon.bpf.c:92-115 | Every stored name was once resolved to its address |
| Tracecon.ReportsAreJustified | examples/rust/tracecon/src/bpf/tracecon.bpf.c:129-160 | Every HOSTNAME event in every run is justified by a successful resolution to its address |
| Tracecon.ReportsNeverOutnumberResolutions | examples/rust/tracecon/src/bpf/tracecon.bpf.c:92-160 | HOSTNAME events for an address, and its pending name, never outnumber successful resolutions to it |
| Tracecon.MapsAreHistory | examples/rust/tracecon/src/bpf/tracecon.bpf.c:66-160 | While capacity suffices, both maps are exactly the open calls of the traced threads |
| Tracecon.HostnamesAreHistory | examples/rust/tracecon/src/bpf/tracecon.bpf.c:92-160 | While capacity suffices, `hostnames[ip]` is exactly the latest successful, unconsumed resolution |
| Tracecon.ReportsAreExpected | examples/rust/tracecon/src/bpf/tracecon.bpf.c:129-160 | While capacity suffices, the events are exactly those the history calls for |
| Bootstrap.RingProbe.HandleExec | examples/c/bootstrap.bpf.c:25-62 | An exec records its time and, without a minimum, submits a sample if one can be reserved |
| Bootstrap.RingProbe.HandleExit | examples/c/bootstrap.bpf.c:64-111 | An exit consumes the time and submits a sample unless it is too short or none can be reserved |
| Bootstrap.PerfProbe.HandleExec | examples/c/bootstrap_legacy.bpf.c:26-58 | The same with the perf buffer |
| Bootstrap.PerfProbe.HandleExit | examples/c/bootstrap_legacy.bpf.c:60-103 | The same with the perf buffer |
| Bootstrap.RingRefinesPerf | examples/c/bootstrap.bpf.c:25-111 | On every trace both machines have the same `exec_start`, the ring samples are a subsequence of the perf samples, and they are equal if and only if no reservation failed |
| Bootstrap.StartIsLastExec | examples/c/bootstrap_legacy.bpf.c:26-103 | A remembered time is that of the latest unconsumed exec, even when the map is full |
| Bootstrap.EveryExitIsMeasured | examples/c/bootstrap_legacy.bpf.c:60-103 | With a minimum, every sample is an exit that meets it, measured from an exec not since consumed |
| Bootstrap.EveryExecIsRemembered | examples/c/bootstrap_legacy.bpf.c:26-103 | With no more processes than entries, exactly the unconsumed execs are remembered |
| Bootstrap.SamplesAreExpected | examples/c/bootstrap_legacy.bpf.c:26-103 | Then the samples are exactly those the history calls for |
| Bootstrap.ExitCodeIsSecondByte | examples/c/bootstrap.bpf.c:105 | The reported code is the second byte of the status, whatever stands above and below it |
| LinePattern.ScannerIsPattern | client/main.py:135-137 | A line yields a key and number if and only if it can be cut along the regular expression |
| LinePattern.ClassesAre | client/main.py:135-136 | The classes of the pattern and of `splitlines`, character by character |
| LinePattern.SplitAtLineEnd | client/main.py:136 | A line ends at any one break character, or at a carriage return and newline together |
| LinePattern.SplitJoined | client/main.py:136 | Splitting undoes joining; text behind the last newline is a line of its own |
| LinePattern.SplitConcat | client/main.py:136 | A block of whole lines splits off `splitlines` |
| Metrics.ParseOutputMetrics | client/main.py:133-156 | The loop computes the parse function |
| Metrics.ParseLine | client/main.py:137-155 | The body adds exactly what the line contributes, drops long keys and numbers too large for a float, and tries JSON only when the pattern fails |
| Metrics.ParseJson | client/main.py:146-153 | The inner loop adds the accepted items |
| Metrics.ParseIsSums | client/main.py:133-156 | The result has exactly the keys, of at most 128 characters, to which some line gives something: the finite value of a metric, or the items of a JSON object when the line is no metric; each with the sum of what it is given |
| Metrics.JsonLineParses | client/main.py:142-153 | A line that is no metric parses to exactly the keys, of at most 128 characters, of its JSON items, each with the sum of its items |
| Metrics.ParseIsAdditive | client/main.py:133-156 | Parsing a concatenation of whole-line blocks is the pointwise sum of the parses |
| Metrics.PrintedLineParses | client/main.py:135-141 | A printed integer or fixed-point line contributes exactly its key and value, or nothing when the value is too large for a float |
| Metrics.SignedLineParses | client/main.py:135-141 | A signed number is read with its sign |
| Metrics.LogRoundTrip | client/main.py:133-156 | Parsing any log of metric lines and JSON objects that the decoder reads back, mixed with ignorable lines, gives exactly the per-key sums |
| Metrics.TwoWordsAreNoMetric | client/main.py:135-137 | A line of two words is no metric |
| OutputLog.ReadLoop | client/main.py:241-264 | The loop computes the stream function |
| OutputLog.LogIsBounded | client/main.py:253-261 | The log is a subsequence within 20000 lines and 2 MiB, the counters match it exactly, and what is sent is the log with at most one marker |
| OutputLog.LogIsGreedy | client/main.py:253-261 | For every stream the log is exactly the lines that fit the budget left by the lines kept in front of them, and the marker is sent exactly in the place of the first dropped line |
| OutputLog.MarkerIffTooLong | client/main.py:253-261 | The marker is sent if and only if a line was dropped, which is if and only if the stream exceeds a limit; otherwise the log is the stream |
| OutputLog.LogIsPrefixIff | client/main.py:253-261 | The log is a prefix of the stream if and only if, behind the first dropped line, no line fits the budget that is left |
| OutputLog.KeptBehindDropped | client/main.py:253-261 | Behind any output within the limits, a line that does not fit is dropped and a shorter one that fits is kept |
| OutputLog.KeptAfterDropped | client/main.py:253-261 | A stream of whole lines of at most 64 KiB whose log is not a prefix |
| Dashboard.ParserSeesAllIff | client/main.py:253-288 | A tool's output reaches the parser unchanged if and only if it is within both limits |
| Dashboard.FewPollsFit | my_tools/disk/disk_read_delay.c:39-56 | The output of at most 2500 polls is within both limits of the client |
| Dashboard.DiskReadsEndToEnd | client/main.py:241-288 | For every interleaving of disk events with at most 2500 polls (a run has at most about 300), on a monotone clock with room for every start and sums that fit a u64: through the bounded log the client shows, under the four names, exactly the true microseconds and numbers of operations up to the last poll |
| RunProtocol.OneActivePerTool | client/main.py:218-223 | In every interleaving at most one generator per tool lies between setting and clearing the flag, and the flags are exactly their tools |
| RunProtocol.GaugeIsExact | client/main.py:222-321 | The gauge equals the number of flagged tools and of active generators |
| RunProtocol.AdmittedIff | client/main.py:218-223 | A request is turned away if and only if another generator of its tool is active |
| RunProtocol.RejectedLeavesNoTrace | client/main.py:218-220 | Without the steps of a request that never became active, everything else is the same |
| RunProtocol.InactiveProcessesAreKilled | client/main.py:319-330 | A live process of a run that is over was sent SIGKILL, unless a signal was refused |
| RunProtocol.OneUnkilledProcessPerTool | client/main.py:319-330 | Of two live unkilled processes of one tool, one belongs to a run whose signal was refused |
| RunProtocol.CancelKills | client/main.py:311-330 | A cancelled run clears its flag and is not counted by that; it sends SIGKILL to a live process and awaits it, or ends with the process as it was when the signal is refused, or ends when none is live; SIGTERM came first if and only if the run was past its read loop, except while it reports an error |
| RunProtocol.InactiveEnds | client/main.py:218-330 | A request cancelled before it starts, or turned away, ends without touching shared state; a run that awaits its killed process ends when that exits or the wait is cancelled, and not before |
| RunProtocol.LoopIsOrdered | client/main.py:241-264 | In every state, a line is yielded exactly when a read returned it, a read begins exactly behind a check that goes on, and a check comes exactly behind the spawn, a read without a line, or a yielded line |
| RunProtocol.LoopEndTerminates | client/main.py:244-275 | A run whose output ended or whose duration passed sends SIGTERM to a live process and awaits it, or reports an error when the signal is refused; with an exited process it reports success |
| RunProtocol.TimeoutKills | client/main.py:274-284 | A run that awaits its process after SIGTERM sends SIGKILL when two seconds pass and awaits it again, or reports an error when the signal is refused; an exit is reported as success |
| RunProtocol.ExitIsReported | client/main.py:284-310 | A run that awaits its process after SIGKILL reports success once that exits, and not before |
| RunProtocol.FailureIsReported | client/main.py:313-318 | A failed await anywhere in the run is reported as an error |
| RunProtocol.ReportedRunLeaves | client/main.py:319-330 | A run that has yielded its result or error clears its flag; a live process is sent SIGKILL and awaited; a success ends at once |
| RunProtocol.LateRunsEnd | client/main.py:232-330 | Every run ends: in every continuation of every interleaving, a run whose duration has passed and that is not cancelled is over after at most six resumes, and is counted once, under its tool and status |
| RunProtocol.LateRunsCanEnd | client/main.py:232-330 | From every state of an active run such a continuation exists, with at most six resumes of its own and the exit of its process |
| RunProtocol.SuccessMeansExited | client/main.py:266-310 | Success is reported only after the process exited |
| RunProtocol.RunsAreCountedOnce | client/main.py:290-317 | `tool_runs` holds, for each tool and status, exactly the runs that reported it, each once |
| RunProtocol.TwoLiveProcesses | client/main.py:319-330 | Two live processes of one tool are reachable, because the flag is cleared before the wait |
| RunProtocol.SpawnsAloneIff | client/main.py:232-242 | A process is spawned as the only live one of its tool if and only if no process of an earlier run of the tool is still alive with its flag cleared |
| RunProtocol.OneLivePerToolIff | client/main.py:218-330 | In every interleaving a tool never has two live processes if and only if each of its processes is spawned in that way |

## Left out

- Skeleton loading and attaching, signal handlers of the tools, `sleep`, argument parsing, sudo, HTTP routing, path checks and the web page: plumbing around libraries that are not part of this model.
- `summarize_tool_metrics`, except for its sum in `IrqDashboard`, and the tool configurations: one expression over the parsed metrics.
- `write_stat`, the per-PID reprint of `file_fsync_stat.c`, `cpu_freq_stat`, the tools that repeat a pattern modelled here (mmap, open, socket, tcp_connect, udp, oom, page_swap, disk_write_delay) and the demo probes: they would only add easy members.
- Walks run over a map that no handler changes meanwhile, except in `ReadStat`; what a walk does while entries are inserted or recycled is not modelled.
- Recycling of a freed map element into another key: a pointer to a deleted element is an orphan.
- Handlers of the accumulator tools are atomic; the read-modify-write race on the maximum in `disk_io_sched` is not modelled.
- Floating-point rounding, Unicode digits and spaces, UTF-8 replacement decoding: numbers are exact and text is ASCII.
- Metrics.ParseOutputMetrics: the JSON decoder is a parameter that gives the finite numeric items of a line, so malformed JSON and non-finite numbers are lines without items; a JSON integer too large for a float, at which the source raises, is not modelled.
- IrqDashboard.NamesEndToEnd: assumes that the decoder reads back the printed lines, which holds for names without quotes, backslashes and control characters; a name with one of these makes a line that is no such JSON object.
- OutputLog.ReadLoop: a line is its bytes; the timeouts, the duration limit and disconnects that end the loop, and a line so long that `readline` raises, are outcomes of a read in `RunProtocol`.
- RunProtocol.GaugeIsExact: the spawn is one await, so a process created by a spawn that is then cancelled is not tracked; the bookkeeping before the last yield does not raise.
- ReadStat.EveryEventIsAccounted: counts are natural numbers; that they stay below the number of events is proved, so no u64 wraps below 2^64 events.
- Retransmit.RetransmitPoller.PollOnce: the array lookup of the global counter always succeeds, as it does for an array map.
- DiskRead.CountersAreSums: a thread that enters `vfs_read` again before it returns is measured from its later entry, as the tool does; nested reads have no identity of their own.
- IrqStat.Sort: `qsort` is a library routine; it is modelled by an insertion sort of the values, and every result about reports holds for any descending permutation.
