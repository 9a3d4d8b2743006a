# Kernel-module examples: a verified model

Three parts of the repository are modelled and proved correct in Dafny:

* **The packet capture module** (`netlink/netlink.c`). A netfilter hook copies each
  packet into an skb, with a buffer from a pool, checks a rate limit, queues the skb and
  wakes the daemon `kcapd`, which sends it to the registered listener. Control messages
  change the listener and a table of users at the same time.
* **The netctrl command path** (`netctrl/app.c`, `netctrl/netctrl.c`). A command becomes a
  typed body, a `struct msg_buf` and a netlink message (section 2.3.2 of RFC 3549); the
  kernel walks the received buffer, checks, copies and dispatches.
* **The gratuitous ARP builder** (`nic/garp.c`), a variable-width frame ("Packet format" of
  RFC 826) written into a reserve/put/push buffer.

## How the model is organised

| file | content |
|---|---|
| `Prelude.dfy`, `Bytes.dfy`, `Framing.dfy` | options; machine integers, little-endian fields; netlink headers, alignment, the walk over a buffer, acknowledgements |
| `RateLimit.dfy`, `UserTab.dfy` | `cap_rate_check`; the user table and the broadcasting hook, as classes and as specifications |
| `Machine.dfy` | the capture module as a step system |
| `Pool.dfy`, `Ledger.dfy`, `Custody.dfy`, `References.dfy`, `Coordination.dfy` | its invariants, each kept by every step |
| `Theorems.dfy` | what holds in every reachable state and over whole runs |
| `Histories.dfy`, `Addressing.dfy` | what must have happened in a run for its final state to be what it is; whom a message goes to |
| `Driver.dfy` | the module's own code, updating its variables in place, tied to the steps |
| `Netctrl.dfy`, `NetctrlApp.dfy` | kernel side and user side of netctrl, and the round trip |
| `Garp.dfy` | the ARP builder |

**Interleavings.** `Machine` has any number of hook instances, one `kcapd` and the control
handler (serialised by its mutex). A step is one locked section, one queue operation or one
access to a shared variable. `Apply` is total: a step that cannot be taken leaves the state
alone, so *every* sequence of steps is a run and the theorems quantify over all of them.
Outcomes that depend on the rest of the kernel are part of the step: an allocation works or
not, `netlink_unicast` delivers or is refused, `kthread_run` works or not, time passes.
`wait_event_freezable` is not taken as one atomic action: it tests the queue, puts itself on
the wait queue, tests again and only then sleeps, and a wakeup can fall between any two of
these. A signal or the freezer may wake the daemon without cause.

**Contracts used for kernel calls.** `netlink_unicast` takes one reference whether it delivers
or refuses, also for port 0; `nlmsg_put` fails when the aligned message does not fit the
tailroom (at least 2016 bytes after `nlmsg_new(2000)`) and otherwise appends header, payload
and zeroed padding; `eth_header` pushes 14 bytes and copies six bytes per address;
`LL_RESERVED_SPACE` and `arp_hdr_len` are the kernel's formulas.

**Machine words.** `int` and `u32` have 32 bits, `unsigned long` and so jiffies 64; fields are
little-endian except in ARP frames.

**Packets.** A packet is the `skb->len` bytes that the code copies from `skb->data`, taken as
linear (netlink/netlink.c:152).

**History.** `Log`, and the fields `packet`, `dest`, `origin` and `place` of an skb, record what
happened; no step's outcome depends on them, except that the packet to copy is read from there.

**Where the code and its comments differ, the code is followed.**

* `cap_buffer_free` tests `!cb` before it reads `cb->skb` (netlink/netlink.c:104). With a
  buffer it never frees an skb; with NULL, after a failed `kmalloc`, it dereferences NULL. The
  model makes the same test, and the hook then stands at `Faulted`; nothing is assumed about
  `kmalloc`.
* The rate-limited return (netlink/netlink.c:321-323) keeps the buffer and the skb. The ledgers
  count both.
* `cap_backlog_limit` is described as a limit but nothing waits on `cap_backlog_wait`; no bound
  on the queue is claimed.
* A comment says a buffer is freed when too many are *in use*; the code looks at how many are
  *on the freelist* (netlink/netlink.c:79-81, 108).
* `cap_rate_limit` is never assigned (netlink/netlink.c:95), so as shipped it is zero and every
  check passes. The limit is a parameter of the model and the theorems hold for each value.
* The rate limit bounds the checks that pass, not the entries to the queue: a hook that has
  passed may queue its packet at any later time.
* `user_client.c` numbers CAP_GET_PACKET 2, the module numbers it 3 and rejects 2.

Properties that hold only under a condition are stated with the exact condition:
the rate bound (`RateLimit.WindowBoundExact`), the fall-through return of `user_join`
(`UserTab.FallThroughExact`, `UserTab.ZeroPidFallsThrough`), usable table capacity
(`UserTab.CapacityShrinks`), faults (`Histories.FaultsExactly`), what netctrl copies and its
handlers read (`Netctrl.CopiesInsideExactly`, `Netctrl.HandlersInsideExactly`), the printed ip
string (`NetctrlApp.IpStringExact`), queueing a packet (`Driver.CaptureModule.HookFuncQueue`),
whom a message goes to (`Addressing.Addressed`, `Addressing.Redirected`).

## Model

| member | source | states |
|---|---|---|
| `Theorems.Fifo` | netlink/netlink.c:296-338 | in every reachable state, everything ever enqueued is what was sent, then the message in kcapd's hand, then the queue; nothing occurs twice; what a hook holds is with no other hook and not in line |
| `Theorems.HistoryGrows` | netlink/netlink.c:417-458 | what has been enqueued or sent is never revised by later steps |
| `Theorems.NoLostWakeup` | netlink/netlink.c:329-330 | a sleeping kcapd with a non-empty queue has a hook between enqueue and wake; once all hooks are finished a non-empty queue means kcapd is runnable |
| `Theorems.Drains` | netlink/netlink.c:436-458 | from any state with all hooks finished, any schedule giving kcapd `Work(s)` steps ends with the queue empty and each remaining message sent exactly once in order, whatever the outcomes, control messages and spurious wakeups; without spurious wakeups it ends asleep |
| `Theorems.QuietStep` | netlink/netlink.c:436-458 | with all hooks finished no step enqueues, nothing left to send stays so, and short of that no step adds work and each kcapd step uses some up |
| `Theorems.DaemonWorks` | netlink/netlink.c:439-456 | each kcapd step short of sleep decreases the work measure |
| `Theorems.ReferenceLedger` | netlink/netlink.c:417-434 | one reference for each skb with a hook or in the queue, one or two in kcapd's hand, one for good after a refused send, none after a consumed one, none elsewhere; so references outside working hooks, queue and hand number the refused sends plus the rate-limited packets |
| `Theorems.BufferPool` | netlink/netlink.c:100-164 | freelist counted, at most 1024, distinct, live, null skb, disjoint from held buffers, held buffers distinct; live buffers are exactly listed plus held; listed plus held never exceed the number held together at some moment of the run |
| `Histories.FaultsExactly` | netlink/netlink.c:104-136 | a hook has dereferenced NULL if and only if its kmalloc failed at some step of the run and it moved again after that |
| `Histories.FaultReachable` | netlink/netlink.c:104-105 | the run in which it happens, for every packet and listener |
| `Theorems.CapturedFrames` | netlink/netlink.c:143-152 | the bytes of every message ever in line: nlmsg_len its own length, type 3, no flags, sequence number 0, nlmsg_pid the recorded port, a packet that arrived, and fewer than four zero bytes; it parses as exactly that one message; different messages come from different arrivals |
| `Addressing.Addressed` | netlink/netlink.c:147-423 | the nlmsg_pid in the bytes of every message sent is the port id before the step that made the header, and it went to the port id before the later step that sent it |
| `Addressing.Redirected` | netlink/netlink.c:147-423 | the two can differ: the run in which a message addressed to one listener goes to another, or to port 0 |
| `Theorems.RewrittenIsFrame` | netlink/netlink.c:325-327 | rewriting nlmsg_len to the aligned length makes the skb the frame of one message with packet and padding as payload |
| `Theorems.SmallPacketsFit` | netlink/netlink.c:143-149 | every packet of at most 2000 bytes fits |
| `Theorems.ControlState` | netlink/netlink.c:417-516 | the port id is what its last write dictates; it is written for exactly the ADD and DEL requests the table sees, in order and each before the table, and once for every refused send; non-zero port or non-empty queue implies kcapd was started; between messages a non-zero port is registered, or the counter or the slots admit no more users |
| `Histories.PortRegistered` | netlink/netlink.c:489-507 | with non-zero pids, between messages a non-zero port is registered or all 32 slots are taken |
| `Histories.TableSeesRequests` | netlink/netlink.c:473-507 | the ADD and DEL requests handed to the module are, in order, those dropped because kcapd could not be started, those the table has seen and the pending one; how many were dropped is counted over the failed starts of the run |
| `Histories.SessionsInPipeline` | netlink/netlink.c:473-507 | when every ADD handed to the module was followed by its DEL the table ends empty, under every interleaving with hooks and kcapd, whatever joins were refused and whatever starts of kcapd failed |
| `Histories.PipelineRate` | netlink/netlink.c:321-323 | no HZ window sees more than 2*limit-1 checks pass, if the counter never wraps, or there are fewer than 2^32 + limit checks, or, before jiffies wraps, fewer than 2^32 - 1 in every HZ window, or, however often it wraps, fewer than 2^32 - limit in every window with gaps below 2^64 - HZ ticks; as many packets as passed are or were queued or about to be, and as many as failed keep buffer and skb |
| `Histories.AdmittedExactly` | netlink/netlink.c:321-329 | a hook passed the check at some step of the run if and only if it is about to queue its skb or an skb it made is or was queued |
| `Histories.DeniedExactly` | netlink/netlink.c:321-323 | a hook keeps its buffer and skb for good if and only if the limiter stopped it at some step of the run |
| `Theorems.StepInv` | netlink/netlink.c:100-516 | every step of every actor keeps the whole invariant |
| `Theorems.ReachedInv` | netlink/netlink.c:100-516 | the invariant holds after every interleaving from module start |
| `Pool.PoolStep` | netlink/netlink.c:100-164 | every step keeps freelist and held buffers disjoint, distinct, live and with the field each hook expects |
| `Ledger.BuffersStep` | netlink/netlink.c:100-164 | every step conserves buffers: the live ones are listed or held |
| `Ledger.PoolSizeStep` | netlink/netlink.c:107-131 | listed plus held buffers grow only in steps that leave the freelist empty |
| `Ledger.ListedAgain` | netlink/netlink.c:107-114 | a buffer given back is put at the head of the freelist while fewer than 1024 are listed, and goes to kfree otherwise |
| `Ledger.LastInFirstOut` | netlink/netlink.c:107-131 | the buffer last given back is the next to be taken, and the list is as before |
| `Ledger.KfreedOnlyWhenFull` | netlink/netlink.c:108-109 | no step reduces the live buffers unless 1024 are listed |
| `Custody.CustodyStep` | netlink/netlink.c:296-458 | every step keeps one place per skb, FIFO order and the reference count the place implies |
| `Custody.QueueDistinct` | netlink/netlink.c:329 | no skb is queued twice |
| `References.RefsStep` | netlink/netlink.c:143-158 | every step conserves the sum of references |
| `Coordination.ContentsStep` | netlink/netlink.c:143-152 | every step keeps the bytes of filled and of enqueued skbs as their packet dictates |
| `Coordination.OriginStep` | netlink/netlink.c:296-338 | every step keeps each skb's packet that of the arrival that made it, one skb per arrival |
| `Coordination.WakeupStep` | netlink/netlink.c:329-330 | every step keeps a wakeup coming for a sleeping daemon with work |
| `Coordination.StartedStep` | netlink/netlink.c:473-480 | no hook gets past the port test and nothing is queued before kcapd runs |
| `Coordination.ControlStepOk` | netlink/netlink.c:489-507 | every step keeps port id, table and registration in agreement |
| `Coordination.PortsStep` | netlink/netlink.c:423-507 | every step keeps the writes to the port id in agreement with the requests the table sees and with the refused sends |
| `Coordination.RateStep` | netlink/netlink.c:259-285 | every step keeps the limiter equal to its logged checks, and enqueues equal to admissions |
| `RateLimit.RateChecker.Check` | netlink/netlink.c:259-285 | cap_rate_check with its static variables: result and new state, with both wrap-arounds |
| `RateLimit.NoLimitAdmitsAll` | netlink/netlink.c:268 | with limit 0 every call is admitted and the counter does not move |
| `RateLimit.WindowBound` | netlink/netlink.c:270-281 | from any state, while the counter does not wrap, no HZ window admits more than 2*limit-1 calls |
| `RateLimit.WindowBoundExact` | netlink/netlink.c:259-285 | every run of n calls from boot respects the bound if and only if n < 2^32 + limit |
| `RateLimit.BurstBreaksBound` | netlink/netlink.c:271 | the run that breaks it: 2^32 + limit calls at one instant admit at least 2*limit |
| `RateLimit.SparseDoesNotWrap` | netlink/netlink.c:270-281 | while every tick is below 2^64, fewer than 2^32 - 1 calls in every HZ window never wrap the counter, however many there are |
| `RateLimit.SteadyDoesNotWrap` | netlink/netlink.c:270-281 | the same however often jiffies wraps, for fewer than 2^32 - limit calls in every window and less than 2^64 - HZ ticks between calls |
| `RateLimit.ElapsedAtMost` | netlink/netlink.c:274-275 | wrapping subtraction of jiffies is the real elapsed time modulo 2^64, never more than it |
| `RateLimit.ProgressAfterDenial` | netlink/netlink.c:270-281 | after a denied call at t some call after t has been admitted by the first call later than t + HZ, while the time since the reset does not wrap |
| `RateLimit.NextCallExact` | netlink/netlink.c:274-280 | exactly when the next call is admitted, wrap of the elapsed time and of the counter included |
| `UserTab.JoinRefines` | netlink/netlink.c:202-221 | for every table and pid: 1 is returned iff counter and slots both leave room; then the first free slot, and no other, takes the pid and one occurrence is added; otherwise nothing changes |
| `UserTab.LeaveRefines` | netlink/netlink.c:182-200 | for every table and pid: 1 is returned iff the counter is positive and the pid present; then the first slot holding it, and no other, is freed and one occurrence is removed; otherwise nothing changes |
| `UserTab.UserTable.Clear` | netlink/netlink.c:166-180 | usertab_init: all slots free, counter untouched |
| `UserTab.UserTable.UserLeave` | netlink/netlink.c:182-200 | the scan in place gives the specified table and result |
| `UserTab.UserTable.UserJoin` | netlink/netlink.c:202-221 | the scan in place gives the specified table and result |
| `UserTab.UserTable.HookFunc` | netlink/netlink.c:342-369 | the scan in place, with the table cleared under it by a refusal, gives the specified table and copies |
| `UserTab.BroadcastExactly` | netlink/netlink.c:357-367 | a copy goes out for exactly the occupied slots whose allocation works and that no refusal precedes, in slot order; the first refusal frees all slots; the counter never moves |
| `UserTab.BroadcastReachesAll` | netlink/netlink.c:357-367 | without failures every registration gets exactly one copy |
| `UserTab.Drift` | netlink/netlink.c:177-221 | over every run of joins, leaves and broadcasts: usrcnt minus occupied slots is the entries erased by refusals plus joins minus leaves of pid 0 |
| `UserTab.CapacityShrinks` | netlink/netlink.c:202-221 | with non-zero pids: a join succeeds iff fewer than 32 minus the erased entries are occupied, a leave iff the pid is present, and the fall-through return is never taken |
| `UserTab.DeadTable` | netlink/netlink.c:206-209 | once 32 entries were erased no join ever succeeds again |
| `UserTab.AllErased` | netlink/netlink.c:177-180 | the run that gets there: 32 joins and one broadcast everybody refuses leave 32 free slots, the counter at 32 and every join refused |
| `UserTab.FallThroughExact` | netlink/netlink.c:206-220 | the fall-through return of user_join is taken iff the counter lags behind a full table |
| `UserTab.ZeroPidFallsThrough` | netlink/netlink.c:186-197 | a run with pid 0 that reaches it |
| `UserTab.RegisteredAtMostOpen` | netlink/netlink.c:489-507 | a pid is registered at most as often as it has open sessions, refused joins included |
| `UserTab.AllOverLeavesNothing` | netlink/netlink.c:182-221 | any run of joins and leaves after which no session is open ends with the empty table and usrcnt 0, refused joins and returning clients included |
| `UserTab.SessionsLeaveNothing` | netlink/user_client.c:140-147 | any interleaving of complete ADD-DEL sessions ends with the empty table and usrcnt 0 |
| `Driver.CaptureModule.TakeFree` | netlink/netlink.c:125-131 | the locked pop is one machine step |
| `Driver.CaptureModule.KmallocBuffer` | netlink/netlink.c:133-138 | the allocation gives a new buffer, or NULL on the way to cap_buffer_free |
| `Driver.CaptureModule.NewMessage` | netlink/netlink.c:143-145 | nlmsg_new into cb->skb is one machine step |
| `Driver.CaptureModule.PutMessage` | netlink/netlink.c:147-158 | nlmsg_put and copy, or the release of the skb, is one machine step; it works iff the packet fits |
| `Driver.CaptureModule.CapBufferAlloc` | netlink/netlink.c:100-164 | an uninterrupted call is a run of the machine; it succeeds iff a buffer and the skb can be had and the packet fits; it dereferences NULL iff the freelist is empty and kmalloc fails, through the inverted test of cap_buffer_free |
| `Driver.CaptureModule.TestPort` | netlink/netlink.c:312-315 | capture goes on iff a listener is set |
| `Driver.CaptureModule.CapRateCheck` | netlink/netlink.c:321-323 | the check is one machine step; a denied packet keeps buffer and skb |
| `Driver.CaptureModule.QueueTail` | netlink/netlink.c:325-329 | rewrite and enqueue is one machine step that appends to the queue |
| `Driver.CaptureModule.Deliver` | netlink/netlink.c:325-335 | the admitted branch queues the skb, wakes kcapd and puts the buffer at the head of the freelist if fewer than 1024 are listed |
| `Driver.CaptureModule.HookFuncQueue` | netlink/netlink.c:296-338 | an uninterrupted call is a run of the machine that finishes the hook; exactly when the packet is queued, when it is rate-limited and when NULL is dereferenced; the freelist afterwards: as before, or with a new buffer, or one short when rate-limited |
| `Driver.CaptureModule.SkbDequeue` | netlink/netlink.c:442 | takes the head of the queue, or finds it empty |
| `Driver.CaptureModule.NetlinkUnicast` | netlink/netlink.c:423 | one reference less and one entry in the sent log, for the current port id, delivered or not |
| `Driver.CaptureModule.KcapdSendReply` | netlink/netlink.c:417-434 | the call is a run of three machine steps that sends exactly this skb to the port id it found; a refusal clears the port id and leaves the reference, a delivery drops it and leaves the port id |
| `Driver.CaptureModule.WaitEvent` | netlink/netlink.c:455 | with the queue empty throughout, waiting is a run of the machine that ends asleep |
| `Driver.CaptureModule.KcapdThread` | netlink/netlink.c:436-458 | an uninterrupted activation sends the whole queue in order, with the given outcomes, and sleeps |
| `Driver.SendingsAre` | netlink/netlink.c:417-458 | in such an activation the queue goes out in order, to the listener up to and including the first refusal and to port 0 from then on |
| `Driver.CaptureModule.CapReceiveMsg` | netlink/netlink.c:460-516 | an uninterrupted message is its four machine steps, with the returned error |
| `Machine.MsgResult` | netlink/netlink.c:460-516 | the net effect of a control message: rejected, failed start, ADD, DEL or GET |
| `Driver.CaptureModule.Turn` | netlink/netlink.c:527-533 | one turn handles one message, moves offset and counter by equal amounts, at least 16 bytes |
| `Driver.CaptureModule.CapReceiveSkb` | netlink/netlink.c:518-536 | for every buffer, and any outcome of kthread_run for each message, the loop, in 32-bit arithmetic, terminates with the specified state and acknowledgements |
| `Driver.ReceivesExactly` | netlink/netlink.c:518-536 | for every buffer, by the list it reads as: the table and the port id see exactly the ADDs and DELs without error, once each, in order; the acknowledgements; nothing else changes |
| `Driver.HandledExactly` | netlink/netlink.c:460-516 | the same for a list of messages, and when kcapd runs afterwards |
| `Driver.AcksExactly` | netlink/netlink.c:527-531 | exactly the messages that failed or carry the ACK flag are acknowledged, once each, in order, each with its own error |
| `Driver.ErrsExactly` | netlink/netlink.c:467-480 | that error: -22 for a type other than 0, 1 and 3, none once kcapd runs or an earlier message started it, else what kthread_run reports |
| `Framing.WalkInside` | netctrl/netctrl.c:250-257 | for every buffer and claimed length: each visited header and extent lies inside it, each visit starts at the aligned end of the one before, at most one per 16 bytes |
| `Framing.NextCounterExact` | netlink/netlink.c:527-533 | the 32-bit overflows in nlmsg_next cancel: the counter is the bytes left, at least -3 |
| `Framing.LayoutReads` | netctrl/netctrl.c:242-260 | aligned messages, followed by nothing or by a malformed header, are visited exactly, in order and intact |
| `Framing.UnpaddedReads` | netctrl/netctrl.c:242-260 | the same when the last message comes without padding |
| `Framing.EveryBufferReads` | netctrl/netctrl.c:242-260 | every buffer, well formed or not, reads as exactly one list of messages, so what is proved of lists holds of all buffers |
| `Framing.FrameBytes` | netctrl/app.c:104-118 | a frame byte by byte: length, type, flags, sequence number and pid, least significant byte first, then the payload |
| `Netctrl.ReceiveSkb` | netctrl/netctrl.c:242-260 | for every buffer the loop, in 32-bit arithmetic, gives the specified handler calls and acknowledgements |
| `Netctrl.ReceivesExactly` | netctrl/netctrl.c:212-260 | for every buffer, by the list it reads as: the handler calls and the acknowledgements, exactly, once each, in order |
| `Netctrl.CallsExactly` | netctrl/netctrl.c:166-237 | exactly the messages whose type and inner type are 1, 2 or 3 and whose allocation works have a handler called, once each, in order, with the inner type and their own copied bytes |
| `Netctrl.AcksExactly` | netctrl/netctrl.c:250-255 | exactly the messages that failed or carry the ACK flag are acknowledged, once each, in order, each with its own error |
| `Netctrl.WalkIgnoresBehind` | netctrl/netctrl.c:247-256 | bytes behind the claimed length never change which messages are visited |
| `Netctrl.EarlierCopiesInside` | netctrl/netctrl.c:224-232 | every copy but that of the last message stays inside the skb |
| `Netctrl.LastCopyOverruns` | netctrl/netctrl.c:224-232 | in a list with nothing behind it, with or without final padding, the copy of the last message ends past the skb, by four bytes less the padding sent |
| `Netctrl.CopiesInsideExactly` | netctrl/netctrl.c:224-232 | for every buffer: all copies stay inside the skb if and only if it holds no message or four more bytes follow the last one |
| `Netctrl.HandlersInsideExactly` | netctrl/netctrl.c:146-192 | the handlers read only what was copied if and only if every dispatched port or id has at least four bytes of payload and every dispatched ip a zero byte in the rest of its copy |
| `Netctrl.BareHeaderReadsOutside` | netctrl/netctrl.c:152-156 | the input that breaks it: a bare AUTH_PORT header followed by 2, 0, 0, 0 has the port read outside the copy |
| `NetctrlApp.ParseArgs` | netctrl/app.c:253-292 | succeeds iff every option is a command option with an argument; the last one wins |
| `NetctrlApp.Strncpy` | netctrl/app.c:195 | the 32-byte field is the first 32 bytes of the text, or the text zero-padded |
| `NetctrlApp.SendMsgToKernel` | netctrl/app.c:74-139 | the bytes sent are the frame of one message of the inner type; too long a message is not sent |
| `NetctrlApp.FillHeader` | netctrl/app.c:115-118 | the four header stores and nothing else |
| `NetctrlApp.AuthKernelConfigCmd` | netctrl/app.c:141-172 | the body wrapped in a msg_buf and a netlink frame |
| `NetctrlApp.SyscmdProc` | netctrl/app.c:174-245 | the frame for each command, none for an unset one |
| `NetctrlApp.Tool` | netctrl/app.c:253-315 | it sends iff there is an option and all are `i`, `p` or `d` with an argument; what it sends makes the kernel loop call exactly one handler, 1 for `i`, 2 for `p`, 3 for `d`, as the last option says, showing its number or its text of at most 31 bytes |
| `NetctrlApp.OptionRoundTrip` | netctrl/app.c:270-282 | the same for one option, whatever four bytes follow the message |
| `NetctrlApp.WireBytes` | netctrl/app.c:104-167 | the bytes sent: netlink length, type, no flags, sequence number 0, pid, then msg_type, msg_len and the body |
| `NetctrlApp.BodyBytes` | netctrl/app.c:186-225 | type and bytes of each command's body: 1 and the 32-byte field, 2 or 3 and the number, least significant byte first |
| `NetctrlApp.BodyRoundTrip` | netctrl/netctrl.c:166-260 | any typed body comes out of the kernel loop as exactly one call of its handler, whatever four bytes follow |
| `NetctrlApp.CommandRoundTrip` | netctrl/netctrl.c:166-260 | every command reaches the matching handler once with the same integer or the same 32-byte field, the same C string up to 31 bytes |
| `NetctrlApp.IpStringExact` | netctrl/app.c:190-198 | whatever bytes follow, the handler prints the given string, or even stays inside the copy, iff the string has at most 31 bytes |
| `NetctrlApp.CommandOverruns` | netctrl/netctrl.c:224-232 | every command of the tool makes the kernel copy exactly four bytes past the skb |
| `Garp.GarpCreate` | nic/garp.c:26-87 | for every device but IEEE 1394 ones the frame is the header and five parts tiling it exactly, null addresses replaced as specified; reserve, put and push stay inside the buffer and needed_tailroom stays free |
| `Garp.FillArp` | nic/garp.c:59-80 | the fixed header and four address writes fill exactly the arp_hdr_len region |
| `Garp.StoreRow` | nic/garp.c:67-80 | copies through the moving pointer lie side by side and touch nothing else |
| `Garp.DecodeTiles` | nic/garp.c:59-80 | a receiver that locates fields by the lengths in the header gets back exactly the inputs |
| `Garp.HeaderBytes` | nic/garp.c:55-65 | the first 22 bytes of the frame: link-layer addresses, 08 06, then hardware type, 08 00, lengths and operation in network order |
| `Garp.AddressBytes` | nic/garp.c:67-80 | the rest of the frame: sender hardware and protocol address, target hardware and protocol address, to its end |
| `Garp.SendGratuitousArp` | nic/garp.c:111-122 | one frame for each address whose allocation works, in the order of the list, and no other |
| `Garp.AnnouncementIsGratuitous` | nic/garp.c:116-119 | each frame decodes to a broadcast request from the device whose sender and target addresses are that address and whose target hardware address is zero |

## Left out

- Module init and exit: the model starts after `app_init` and ends before `app_exit`; nothing stops kcapd.
- Driver.CaptureModule.HookFuncQueue: like the other methods of that class it is an uninterrupted call; interleavings are the subject of `Machine` and `Theorems`.
- UserTab.UserTable.HookFunc: it is not the registered hook and reads the table without the lock; only its uninterrupted behaviour is modelled.
- Driver.CaptureModule.NetlinkUnicast: delivery of port-0 messages back into the module and the BUG_ON for errors other than a refusal are not modelled.
- Pids and the port id are u32 values; the C code stores them in ints, which is a one-to-one relabelling.
- Logging, the `cmd` and `data` fields that nothing reads, `cap_backlog_wait`, and kernel data structures behind the calls.
- The release of netctrl's copied message, which the code never frees.
- NetctrlApp.SendMsgToKernel: socket, bind, sendmsg and calloc failures are not modelled; `getopt_long` and `atoi` results are inputs.
- Garp.GarpCreate: devices for which the kernel's `arp_hdr_len` has no target hardware address (IEEE 1394) are not modelled; the freeing of an skb after a failed transmit in `garp_send` is left out.
- The accept-everything hooks of netctrl, `nic/tcp.c`, `nic/udp.c`, `nic/nic.c` and the remaining example modules: fixed packets, or thin wrappers over kernel facilities.
