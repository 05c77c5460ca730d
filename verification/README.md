# Verified models of the Ghaf virtualisation helpers

Dafny models of nine state machines and arithmetic kernels of the Ghaf platform, with proofs of
what they keep over all inputs, all runs or all interleavings. The libraries and kernels around
them are environments: the result of every system call, bus call, clock reading or packet
library call is a parameter, so a contract that does not mention it holds for every value.

Check everything with `dafny verify dfyconfig.toml` (Dafny 4.11).

| file | component |
|---|---|
| `VsockProxy.dfy` | event loop of vsockproxy: paired sockets, in-place buffers, epoll masks, deferred frees |
| `DceGuest.dfy` | reverse-event handshake of the DCE guest device: pump thread, MMIO handler and finalizer as interleaved steps |
| `DceProgress.dfy` | what that device can always still do: deliver its event, and shut down |
| `Balloon.dfy`, `BalloonMonitor.dfy` | memory balloon controller: pressure, hysteresis window, clamp, minimum interval, error budget |
| `RateLimiter.dfy` | sliding-window rate limiter of the packet forwarder and the gate in front of it |
| `SsdpCache.dfy` | SSDP port cache and the two Chromecast filters that use it |
| `Ipv4Checksum.dfy` | IPv4 header checksum, against RFC 1071 section 1 and RFC 791 section 3.1 |
| `PacketRewrite.dfy` | the two header rewrites and the whole inbound path |
| `ProxyRegistry.dfy` | tables of the D-Bus proxy and their agreement with the bus |
| `AgentRegistry.dfy` | agents that clients register through the D-Bus proxy |
| `Environment.dfy`, `Arithmetic.dfy` | machine numbers, optional values, the rule that allocators obey; facts about quotients |

## How to read the models

- A class has the fields the source has. Ghost fields hold histories (bytes ever read and sent,
  requests ever decided, ports ever registered), and `Valid()` relates the fields to them. Each
  method is proved against the history, so the bounded structure refines the unbounded one.
- vsockproxy: an event batch is a script that names descriptors; a wakeup becomes an event if
  its descriptor is registered, with arbitrary event bits, and masks may have changed or clients
  closed by the time it is handled. Hang-up drops buffered bytes, so the claim is that what was
  delivered is a prefix of what was read.
- DCE guest: locks have owners, the condition variable has a wait state, and one step is one
  access to shared state. The theorems about arbitrary guests allow writes of any address and
  width; the delivery theorem is about a driver that reads the slot while the interrupt is high
  and acknowledges the sequence number it read.
- Numbers that wrap or saturate in the source do so in the model: the byte counters in 64 bits,
  the event sequence in 32, `max - 2` in `u8`, the requested limit minus one in `usize`, and the
  unsigned index of the agent loop.

## What the proofs found

- Balloon: settling needs no lower bound on the reserved memory. It holds for exactly the
  thresholds of `Balloon.WellTuned`, assuming only that 100 times the reserved memory is
  representable.
- IPv4: the check equals that of RFC 791 but for a stored checksum of 0xFFFF.
- SSDP: `MAX_DURATION` is 5 seconds in the code; the comment beside it says 3. The model follows
  the code.
- Agents: an Unregister call removes the sender's first entry for that server, whatever path it
  names; and one whose parameters are neither `(o)` nor `(os)` removes nothing although an entry
  was found, so that entry stays until its client leaves the bus
  (`AgentRegistry.NamedEntryGoes` is the exact condition). As a registry entry always has a
  non-zero object id, the branches for secondary registrations cannot be reached.

## Model

| member | source | states |
|---|---|---|
| VsockProxy.Proxy.Run | packages/cpp/vsockproxy/vsockproxy.c:259-498 | over any number of batches with arbitrary kernel results the invariant holds at every wait, and every client ever freed had delivered a prefix of what it read |
| VsockProxy.Proxy.Cycle | packages/cpp/vsockproxy/vsockproxy.c:259-498 | one main-loop iteration keeps the invariant, leaves nothing queued, frees only closed clients, siblings together, each having delivered a prefix of what it read, and frees every half that reported a bare hang-up, unless a failed accept or a pair torn down by data cut the batch short |
| VsockProxy.Proxy.ProcessBatch | packages/cpp/vsockproxy/vsockproxy.c:271-494 | every event is handled unless one ends the batch, which only a failed accept or a pair torn down by data does; nothing is freed while it is walked, every unprocessed entry keeps pointing at allocated memory, and two queue slots per entry suffice |
| VsockProxy.Proxy.HandleEvent | packages/cpp/vsockproxy/vsockproxy.c:271-493 | one entry, however stale: an entry of a closed client changes nothing at all; otherwise exactly what is read, exactly when the pair closes and exactly when the batch ends; every other pending entry stays sound |
| VsockProxy.Proxy.HandleData | packages/cpp/vsockproxy/vsockproxy.c:382-493 | input, output and hang-up stages in order: what is read, passed on and sent, by the counts that read() and send() return, which stages are reached, and exactly when the pair is torn down |
| VsockProxy.Proxy.HandleIn | packages/cpp/vsockproxy/vsockproxy.c:383-427 | by what read() and send() return: the bytes read are received, as many as send() counts are passed on and the others stay buffered; and exactly when the pair is torn down |
| VsockProxy.Proxy.PassOn | packages/cpp/vsockproxy/vsockproxy.c:403-422 | as many bytes as send() counts leave the front of the buffer for the sibling, none if it fails; the rest stays buffered and armed for, or the pair closes |
| VsockProxy.Proxy.HandleOut | packages/cpp/vsockproxy/vsockproxy.c:428-487 | establishes a connecting half or sends exactly the front of the sibling's pending bytes, and exactly when that closes the pair or ends the event |
| VsockProxy.Proxy.SendPending | packages/cpp/vsockproxy/vsockproxy.c:459-486 | as many bytes as send() counts leave the front of the sibling's buffer, none if it fails, and the pair closes in exactly the stated cases |
| VsockProxy.Proxy.Establish | packages/cpp/vsockproxy/vsockproxy.c:429-458 | a connect in progress becomes an armed pair if and only if all four system calls succeed, and is torn down otherwise |
| VsockProxy.Proxy.HandleAccept | packages/cpp/vsockproxy/vsockproxy.c:280-381 | an open pair with two new descriptors exactly if every step succeeds; on every other exit the set of open descriptors is what it was |
| VsockProxy.Proxy.ConnectUplink | packages/cpp/vsockproxy/vsockproxy.c:319-381 | at most the uplink half is new; on failure the descriptors are those of before without the accepted one, on success one more |
| VsockProxy.Proxy.PairUp | packages/cpp/vsockproxy/vsockproxy.c:349-381 | the uplink half is linked both ways and started according to the result of connect |
| VsockProxy.Proxy.CloseConnections | packages/cpp/vsockproxy/vsockproxy.c:84-98 | recursive teardown closes both halves once, touches no other client, and fits the queue |
| VsockProxy.Proxy.CloseOne | packages/cpp/vsockproxy/vsockproxy.c:90-93 | one half: flag, registration, descriptor and queue entry change together and the invariant survives |
| VsockProxy.Proxy.QueueFree | packages/cpp/vsockproxy/vsockproxy.c:67-74 | appends to the fixed array, or leaves it alone when full |
| VsockProxy.Proxy.FlushClosedConnections | packages/cpp/vsockproxy/vsockproxy.c:76-82 | frees each queued client exactly once; what remains is exactly the open clients, whose siblings remain too |
| VsockProxy.Proxy.FreeingKeeps | packages/cpp/vsockproxy/vsockproxy.c:58-82 | freeing the closed clients leaves no pointer to them in siblings, registrations or owners |
| VsockProxy.Proxy.StartReceive | packages/cpp/vsockproxy/vsockproxy.c:100-120 | both halves are registered for input, or both are closed |
| VsockProxy.Proxy.SwitchMod | packages/cpp/vsockproxy/vsockproxy.c:122-136 | the new mask is the one the two buffers call for; a failing EPOLL_CTL_MOD closes the pair |
| VsockProxy.Proxy.SwitchPair | packages/cpp/vsockproxy/vsockproxy.c:419-422 | after both masks are recomputed the pair is settled, or it is closed; without a registration of the sibling it is always closed |
| VsockProxy.Proxy.Forward | packages/cpp/vsockproxy/vsockproxy.c:403-417 | one send with in-place compaction: as many bytes as it counts move from the front of the buffer to the sibling's stream, a short count leaves the others, a failure leaves all |
| VsockProxy.Proxy.Wait | packages/cpp/vsockproxy/vsockproxy.c:259-270 | the batch is the reported wakeups of registered descriptors, in order, cut to the size of the event array |
| VsockProxy.Client.Drain | packages/cpp/vsockproxy/vsockproxy.c:413-414 | memmove drops exactly the sent prefix |
| VsockProxy.Client.Fill | packages/cpp/vsockproxy/vsockproxy.c:387-401 | a read appends to the history and fills the empty buffer |
| VsockProxy.Proxy.BufferedBytesHaveWakeup | packages/cpp/vsockproxy/vsockproxy.c:122-136 | no buffered byte is without a wakeup: its destination is armed for output and its source not for input |
| VsockProxy.Proxy.DeliveryIsPrefix | packages/cpp/vsockproxy/vsockproxy.c:383-427 | bytes read equal bytes sent to the sibling followed by the buffer; rxbytes_total equals the sibling's txbytes_total plus buf_size in 64 bits |
| VsockProxy.Proxy.DescriptorsAreOwned | packages/cpp/vsockproxy/vsockproxy.c:284-381 | open clients have distinct descriptors and every open descriptor belongs to one of them, the listener or epoll |
| DceGuest.RunKeepsInv | packages/qemu/ghaf-nvidia-qemu-bpmp/sources/hw/misc/nvidia_dce_guest.c:113-241 | every reachable state of every interleaving satisfies the lock, handshake, wakeup and count invariants |
| DceGuest.StepKeepsInv | packages/qemu/ghaf-nvidia-qemu-bpmp/sources/hw/misc/nvidia_dce_guest.c:113-241 | each atomic step of each thread, and any guest access of any address and width, keeps the invariant |
| DceGuest.PumpKeepsControl | packages/qemu/ghaf-nvidia-qemu-bpmp/sources/hw/misc/nvidia_dce_guest.c:118-164 | the pump thread's steps keep the control invariant |
| DceGuest.HandlerKeepsControl | packages/qemu/ghaf-nvidia-qemu-bpmp/sources/hw/misc/nvidia_dce_guest.c:193-214 | the write handler's steps keep the control invariant, whatever is written |
| DceGuest.FinalizerKeepsControl | packages/qemu/ghaf-nvidia-qemu-bpmp/sources/hw/misc/nvidia_dce_guest.c:300-308 | raising stopping outside the lock, broadcasting and lowering the line keep the control invariant |
| DceGuest.OnlyTheNumberAcknowledges | packages/qemu/ghaf-nvidia-qemu-bpmp/sources/hw/misc/nvidia_dce_guest.c:201-214 | in every run of an arbitrary guest, an event is acknowledged, or the interrupt lowered before the end, only while the acknowledge register holds the number published last |
| DceGuest.WrongNumberIsIgnored | packages/qemu/ghaf-nvidia-qemu-bpmp/sources/hw/misc/nvidia_dce_guest.c:201-206 | any other number written there leaves the interrupt, the event and the counts as they were |
| DceGuest.RightNumberAcknowledges | packages/qemu/ghaf-nvidia-qemu-bpmp/sources/hw/misc/nvidia_dce_guest.c:206-214 | the number published last lowers the interrupt, marks the event and goes on to wake the pump; a repeat counts nothing |
| DceGuest.WriteIsStored | packages/qemu/ghaf-nvidia-qemu-bpmp/sources/hw/misc/nvidia_dce_guest.c:183-240 | where a write of any address and width lands, what the doorbell may change, and that nothing but the acknowledge register goes further |
| DceGuest.NumberIsStored | packages/qemu/ghaf-nvidia-qemu-bpmp/sources/hw/misc/nvidia_dce_guest.c:201-205 | what a write of a word or of a byte leaves in the acknowledge register |
| DceGuest.LeKeepsLowBytes | packages/qemu/ghaf-nvidia-qemu-bpmp/sources/hw/misc/nvidia_dce_guest.c:236-240 | a write of any width carries the low-order bytes of its data |
| DceGuest.EventIsTaken | packages/qemu/ghaf-nvidia-qemu-bpmp/sources/hw/misc/nvidia_dce_guest.c:128-142 | the pump takes the event as it is on the wire, its size clamped to the payload array |
| DceGuest.FinalizedIsQuiet | packages/qemu/ghaf-nvidia-qemu-bpmp/sources/hw/misc/nvidia_dce_guest.c:300-308 | once finalized, in every run, the pump has ended and the interrupt is low |
| DceGuest.InterruptFollowsEvents | packages/qemu/ghaf-nvidia-qemu-bpmp/sources/hw/misc/nvidia_dce_guest.c:144-158 | for arbitrary guest writes, whenever the big lock is free the interrupt is high exactly if an event is unacknowledged, and published minus acknowledged is 0 or 1 |
| DceGuest.NoLostWakeup | packages/qemu/ghaf-nvidia-qemu-bpmp/sources/hw/misc/nvidia_dce_guest.c:160-163 | a waiting pump with no wake pending has an unacknowledged event and a finalizer that has yet to broadcast |
| DceGuest.ReleaserMoves | packages/qemu/ghaf-nvidia-qemu-bpmp/sources/hw/misc/nvidia_dce_guest.c:144-164 | no deadlock: whoever the big lock waits for, its holder or the holder of the event lock, has a step, and it brings the release nearer |
| DceGuest.BigLockComesFree | packages/qemu/ghaf-nvidia-qemu-bpmp/sources/hw/misc/nvidia_dce_guest.c:113-241 | from every reachable state the big lock comes free by steps of lock holders alone |
| DceProgress.FinalizationEnds | packages/qemu/ghaf-nvidia-qemu-bpmp/sources/hw/misc/nvidia_dce_guest.c:113-308 | the join ends: from every reachable state, wherever each thread is and whatever the guest wrote, the device can be shut down by steps of its own threads |
| DceProgress.MoverMoves | packages/qemu/ghaf-nvidia-qemu-bpmp/sources/hw/misc/nvidia_dce_guest.c:113-308 | whoever the finalizer waits for can move, and each such step brings the shutdown nearer |
| DceGuest.DeliveredInOrder | packages/qemu/ghaf-nvidia-qemu-bpmp/sources/hw/misc/nvidia_dce_guest.c:118-164 | under every interleaving of its separate reads a protocol-following driver receives a prefix of the host's events, whole, in order and once, across sequence wrap-around |
| DceGuest.DriverIsNotified | packages/qemu/ghaf-nvidia-qemu-bpmp/sources/hw/misc/nvidia_dce_guest.c:201-214 | a sampling driver sees the interrupt high exactly while an event it has not received is published |
| DceProgress.EverythingIsDelivered | packages/qemu/ghaf-nvidia-qemu-bpmp/sources/hw/misc/nvidia_dce_guest.c:118-214 | no event gets stuck: unless it is told to stop, from every state of every interleaving the driver and the device can go on until all events read are received and the pump polls again |
| DceProgress.NextDelivers | packages/qemu/ghaf-nvidia-qemu-bpmp/sources/hw/misc/nvidia_dce_guest.c:118-214 | in every such state that is not at rest somebody has a turn that brings delivery nearer |
| DceGuest.PlayKeepsSystem | packages/qemu/ghaf-nvidia-qemu-bpmp/sources/hw/misc/nvidia_dce_guest.c:118-214 | device and driver together keep the system invariant over all runs |
| DceGuest.AdvanceKeepsSystem | packages/qemu/ghaf-nvidia-qemu-bpmp/sources/hw/misc/nvidia_dce_guest.c:118-214 | one turn of anybody keeps the system invariant |
| DceGuest.PublishWritesSlot | packages/qemu/ghaf-nvidia-qemu-bpmp/sources/hw/misc/nvidia_dce_guest.c:145-152 | each publishing step writes its own part of the slot and no other |
| DceGuest.PublishKeepsSlot | packages/qemu/ghaf-nvidia-qemu-bpmp/sources/hw/misc/nvidia_dce_guest.c:145-155 | a slot stays untorn from the moment it is complete until it is acknowledged |
| DceGuest.AwaitKeepsSlot | packages/qemu/ghaf-nvidia-qemu-bpmp/sources/hw/misc/nvidia_dce_guest.c:160-163 | waiting does not disturb the slot |
| DceGuest.HandlerKeepsSlot | packages/qemu/ghaf-nvidia-qemu-bpmp/sources/hw/misc/nvidia_dce_guest.c:200-240 | an access outside the event window, or an acknowledgement, leaves the published slot alone |
| DceGuest.Store32Load32 | packages/qemu/ghaf-nvidia-qemu-bpmp/sources/hw/misc/nvidia_dce_guest.c:147-152 | a stored word reads back and other words are untouched |
| Balloon.SettlesExactlyWhenWellTuned | packages/rust/ghaf-mem-manager/src/main.rs:129-145 | one applied adjustment always settles the loop if and only if low <= 100, high >= 2 and high is 2, at least 100, or at least low + 2 |
| Balloon.WellTunedSettles | packages/rust/ghaf-mem-manager/src/main.rs:209-213 | after an applied adjustment window, clamp and filter ask for nothing more, whichever bound was hit |
| Balloon.ClosedLoopSettles | packages/rust/ghaf-mem-manager/src/main.rs:298-301 | with unchanged usage the size never moves again, however many reports follow |
| Balloon.OverfullTargetRepeats | packages/rust/ghaf-mem-manager/src/main.rs:136-145 | a concrete family that keeps shrinking when a target is above 100 percent, including max - 2 wrapped |
| Balloon.NarrowWindowRepeats | packages/rust/ghaf-mem-manager/src/main.rs:136-145 | a concrete family that is adjusted twice when the thresholds are less than two apart |
| Balloon.Stats.Pressure | packages/rust/ghaf-mem-manager/src/main.rs:113-123 | the rounded percentage is at most 100 and within half a percent of the exact share |
| Balloon.PressureMatchesOriginalFormula | packages/rust/ghaf-mem-manager/src/main.rs:117-122 | for reports in range it equals the formula that the comment in the source names |
| Balloon.Config.Wanted | packages/rust/ghaf-mem-manager/src/main.rs:209-213 | a wanted size is within the clamp and differs from the current one; DecisionIsNearest says which one it is |
| Balloon.DecisionIsNearest | packages/rust/ghaf-mem-manager/src/main.rs:209-213 | inside the window nothing changes; outside, the size after the decision is the one in range nearest to the target of the threshold that was passed |
| Balloon.DecisionDirection | packages/rust/ghaf-mem-manager/src/main.rs:129-145 | low pressure shrinks whatever is above the minimum, high pressure shrinks nothing that is not above the maximum |
| Balloon.AdjustedIsLargest | packages/rust/ghaf-mem-manager/src/main.rs:136-145 | a target is the largest size at which the reserved memory is still that many percent, with the saturation of 100 times it stated |
| Balloon.PressureOfOddReports | packages/rust/ghaf-mem-manager/src/main.rs:113-127 | no memory at all reads as full, more available than there is as idle |
| Balloon.HighNeverShrinks | packages/rust/ghaf-mem-manager/src/main.rs:140-141 | above the upper threshold the target is never below the current size |
| Balloon.LowShrinks | packages/rust/ghaf-mem-manager/src/main.rs:138-139 | below the lower threshold the target is below the current size |
| BalloonMonitor.CrosvmEndpointState.Poll | packages/rust/ghaf-mem-manager/src/main.rs:271-317 | the exact command issued, with the minimum interval counted only from adjustments that succeeded, and when the poll fails |
| BalloonMonitor.CrosvmEndpointState.Adjust | packages/rust/ghaf-mem-manager/src/main.rs:298-316 | before the interval since the last adjustment in the history is over none is issued; from then on the wanted one is, and only one that succeeds starts a new interval |
| BalloonMonitor.CrosvmEndpointState.Tick | packages/rust/ghaf-mem-manager/src/main.rs:270-336 | the exact command, the exact entries in the error history, and when exhaustion is reported |
| BalloonMonitor.CrosvmEndpointState.RecordError | packages/rust/ghaf-mem-manager/src/main.rs:44-51 | reports exhaustion exactly when the fifth consecutive error ends a reachable period |
| BalloonMonitor.CrosvmEndpointState.RecordSuccess | packages/rust/ghaf-mem-manager/src/main.rs:36-39 | clears the error count and makes the endpoint ready |
| BalloonMonitor.ExhaustedOncePerOutage | packages/rust/ghaf-mem-manager/src/main.rs:44-51 | between two reported exhaustions there is a success |
| RateLimiter.WindowBound | packages/rust/ghaf-nw-packet-forwarder/src/filter/security.rs:176-186 | no closed interval as long as the window holds more than the limit of accepted requests of one route |
| RateLimiter.RateLimiter.NeverOverLimit | packages/rust/ghaf-nw-packet-forwarder/src/filter/security.rs:154-194 | the bound, at any moment of any run of the limiter |
| RateLimiter.Security.Run | packages/rust/ghaf-nw-packet-forwarder/src/filter/security.rs:92-111 | over every run of packets and cleanups from a fresh limiter that is on, the packets let through are the accepted requests of the log, and no window holds more of them than the limit |
| RateLimiter.RateLimiter.constructor | packages/rust/ghaf-nw-packet-forwarder/src/filter/security.rs:127-143 | the effective limit is one less than asked for but at least one; zero wraps |
| RateLimiter.RateLimiter.IsAllowed | packages/rust/ghaf-nw-packet-forwarder/src/filter/security.rs:154-179 | accepted exactly if the history counts fewer than the limit of accepted requests of the route in the window that ends now, and a table entry exists or is free; the entry then holds exactly the recent accepted times |
| RateLimiter.RateLimiter.CleanupOldRequests | packages/rust/ghaf-nw-packet-forwarder/src/filter/security.rs:182-194 | a tracked route is forgotten exactly if nothing of it was accepted in the last window; so if one was idle, every route with room is admitted afterwards; no later answer is taken away, and one changes only for an untracked route of a full table |
| RateLimiter.Security.IsPacketSecure | packages/rust/ghaf-nw-packet-forwarder/src/filter/security.rs:92-111 | the port and enabled gates in front of the limiter, and which requests are logged |
| RateLimiter.SweepKeepsAnswers | packages/rust/ghaf-nw-packet-forwarder/src/filter/security.rs:182-191 | cleanup changes no answer except by freeing slots |
| RateLimiter.SweepKeepsAgreement | packages/rust/ghaf-nw-packet-forwarder/src/filter/security.rs:182-191 | a swept table still agrees with the full history and has not grown |
| RateLimiter.SweepFreesIdle | packages/rust/ghaf-nw-packet-forwarder/src/filter/security.rs:182-191 | a sweep frees exactly the routes that have nothing accepted in the last window of the history |
| RateLimiter.DecisionStep | packages/rust/ghaf-nw-packet-forwarder/src/filter/security.rs:174-186 | deciding on the stored times is deciding on the full history |
| RateLimiter.ExpiryIsFaithful | packages/rust/ghaf-nw-packet-forwarder/src/filter/security.rs:174 | expiring the stored times gives what expiring the full history would |
| RateLimiter.RecentIsSuffix | packages/rust/ghaf-nw-packet-forwarder/src/filter/security.rs:174 | what retain keeps of a sorted deque is a suffix |
| RateLimiter.RecentAreThoseWithin | packages/rust/ghaf-nw-packet-forwarder/src/filter/security.rs:174 | and there are as many as the closed window that ends now counts |
| SsdpCache.RegistrationKeepsCaches | packages/rust/ghaf-nw-packet-forwarder/src/filter/chromecast.rs:117-130 | after a registration the deque again holds the last registrations of the latest ports in order |
| SsdpCache.Chromecast.AddSsdpPort | packages/rust/ghaf-nw-packet-forwarder/src/filter/chromecast.rs:117-130 | the registration joins the history and the cache still represents it |
| SsdpCache.Chromecast.IsSsdpPortAvailable | packages/rust/ghaf-nw-packet-forwarder/src/filter/chromecast.rs:132-145 | available exactly if, in the full history, fewer than three other ports were registered since and the last registration is between now and MAX_DURATION ago |
| SsdpCache.CachedIsAuthorised | packages/rust/ghaf-nw-packet-forwarder/src/filter/chromecast.rs:136-141 | for a cached port the stored time decides what the full history says |
| SsdpCache.MissingIsUnauthorised | packages/rust/ghaf-nw-packet-forwarder/src/filter/chromecast.rs:132-145 | a port missing from the cache is unauthorised by the full history |
| SsdpCache.PortsAfterCached | packages/rust/ghaf-nw-packet-forwarder/src/filter/chromecast.rs:117-130 | the ports registered after a cached one are exactly those cached behind it |
| SsdpCache.Chromecast.IntToExtFilter | packages/rust/ghaf-nw-packet-forwarder/src/filter/chromecast.rs:284-331 | which outbound frames pass, and that only searches sent while SSDP is on register a port |
| SsdpCache.Chromecast.ExtToIntFilter | packages/rust/ghaf-nw-packet-forwarder/src/filter/chromecast.rs:180-234 | where inbound frames go; the VM itself is reached exactly by authorised replies to this host's own address |
| Ipv4Checksum.CalculateIpv4Checksum | packages/rust/ghaf-nw-packet-forwarder/src/forward_impl.rs:358-383 | the sum stays in 32 bits, and the result is the complement of the canonical residue of the ten words |
| Ipv4Checksum.FoldCarries | packages/rust/ghaf-nw-packet-forwarder/src/forward_impl.rs:374-377 | the fold loop ends, in 16 bits, at the canonical residue of the sum it started from |
| Ipv4Checksum.IsChecksumCorrect | packages/rust/ghaf-nw-packet-forwarder/src/forward_impl.rs:746-769 | accepts exactly the correct headers; a correct packet is left unchanged, an incorrect one with its field cleared |
| Ipv4Checksum.FoldedSumIsOnesSum | packages/rust/ghaf-nw-packet-forwarder/src/forward_impl.rs:365-377 | summing first and folding last is the word-by-word one's complement sum of section 1 of RFC 1071 |
| Ipv4Checksum.AcceptsIsRfcCheck | packages/rust/ghaf-nw-packet-forwarder/src/forward_impl.rs:746-769 | the check is that of section 3.1 of RFC 791 except that a stored 0xFFFF is accepted only if the rest is zero |
| Ipv4Checksum.NegativeZeroIsRefused | packages/rust/ghaf-nw-packet-forwarder/src/forward_impl.rs:746-769 | a header that the RFC check accepts and this one refuses |
| Ipv4Checksum.StoringIsAccepted | packages/rust/ghaf-nw-packet-forwarder/src/forward_impl.rs:358-383 | storing the computed checksum makes the header acceptable |
| Ipv4Checksum.BitFlipDetected | packages/rust/ghaf-nw-packet-forwarder/src/forward_impl.rs:746-769 | no single inverted bit of an accepted header goes unnoticed, in whichever field |
| Ipv4Checksum.FlipTwice | packages/rust/ghaf-nw-packet-forwarder/src/forward_impl.rs:746-769 | an inverted bit that is inverted again gives the byte back |
| Ipv4Checksum.ByteErrorDetected | packages/rust/ghaf-nw-packet-forwarder/src/forward_impl.rs:746-769 | nor does any error within one byte |
| Ipv4Checksum.WordErrorUnnoticed | packages/rust/ghaf-nw-packet-forwarder/src/forward_impl.rs:746-769 | an error within one word goes unnoticed exactly if it exchanges 0x0000 and 0xFFFF outside the checksum field of a header with another non-zero word |
| PacketRewrite.ModifyExtToInt | packages/rust/ghaf-nw-packet-forwarder/src/forward_impl.rs:279-356 | when it forwards, which it forwards, that the new header checks out, that the source stays, and that only addresses, multicast TTL, checksums and MACs differ |
| PacketRewrite.ModifyIntToExt | packages/rust/ghaf-nw-packet-forwarder/src/forward_impl.rs:564-633 | the same for the outbound rewrite of the source address; and what is sent is recognised as our own when it comes back |
| PacketRewrite.RefreshChecksum | packages/rust/ghaf-nw-packet-forwarder/src/forward_impl.rs:334-348 | clearing, computing and storing gives an accepted header and changes nothing else |
| PacketRewrite.RefreshTransport | packages/rust/ghaf-nw-packet-forwarder/src/forward_impl.rs:304-331 | only TCP and UDP are known, and only their checksum bytes change |
| PacketRewrite.ExtToIntIsPacketSafe | packages/rust/ghaf-nw-packet-forwarder/src/forward_impl.rs:647-709 | exactly well-formed frames that the limiter admits pass, unchanged; malformed ones cost their source nothing |
| PacketRewrite.ExternalToInternal | packages/rust/ghaf-nw-packet-forwarder/src/forward_impl.rs:173-218 | the whole inbound path: when a frame is sent, and that what is sent checks out at the next hop |
| PacketRewrite.SourceIsItsBytes | packages/rust/ghaf-nw-packet-forwarder/src/forward_impl.rs:228-268 | the address that is compared with our own and keys the limiter is bytes 12 to 15 of the IP header; frames have the same one exactly if they agree there |
| PacketRewrite.MulticastIsClassD | packages/rust/ghaf-nw-packet-forwarder/src/forward_impl.rs:300-302 | the time to live is cut for exactly the class D addresses |
| ProxyRegistry.ProxyState.Serve | packages/cpp/dbus-proxy/dbus-proxy/proxy_core.cpp:561-583 | after start-up and any events, from any sound state, the tables agree with the bus, and every export was there before or was shown by the tree, the object manager or an event |
| ProxyRegistry.ProxyState.Run | packages/cpp/dbus-proxy/dbus-proxy/proxy_core.cpp:561-630 | a whole life ends with nothing exported |
| ProxyRegistry.ProxyState.ProxySingleObject | packages/cpp/dbus-proxy/dbus-proxy/proxy_core.cpp:321-420 | exports exactly the non-standard interfaces the bus lets through and none it refuses, leaves known objects alone, and keeps the tables sound |
| ProxyRegistry.ProxyState.RegisterSingleInterface | packages/cpp/dbus-proxy/dbus-proxy/proxy_core.cpp:422-493 | when an interface is added; then it is the one new export and its node info is cached, otherwise nothing is exported |
| ProxyRegistry.ProxyState.DiscoverAndProxyObjectTree | packages/cpp/dbus-proxy/dbus-proxy/proxy_core.cpp:189-304 | every named object of any tree that can be proxied is proxied, or the object manager at the base and its listed objects; and everything exported is an interface shown there |
| ProxyRegistry.ProxyState.ProxyObjectManagerObjects | packages/cpp/dbus-proxy/dbus-proxy/proxy_core.cpp:142-187 | every listed object that can be introspected and proxied is proxied, and everything exported is an interface shown of a listed object |
| ProxyRegistry.ProxyState.UpdateObjectWithNewInterfaces | packages/cpp/dbus-proxy/dbus-proxy/handlers.cpp:155-197 | a known object gets every signalled interface that can be had and no other export is added; an unknown one is discovered with its tree and nothing else |
| ProxyRegistry.ProxyState.OnInterfacesRemoved | packages/cpp/dbus-proxy/dbus-proxy/handlers.cpp:284-320 | exactly the named interfaces of the object are withdrawn; an object left empty is forgotten |
| ProxyRegistry.ProxyState.Cleanup | packages/cpp/dbus-proxy/dbus-proxy/proxy_core.cpp:618-630 | unregistering what is recorded leaves nothing exported |
| ProxyRegistry.TablesAreInverse | packages/cpp/dbus-proxy/dbus-proxy/proxy_core.cpp:400-404 | registered_objects is the exact inverse of the union of all registration_ids, and equals the live exports |
| ProxyRegistry.KeyInjective | packages/cpp/dbus-proxy/dbus-proxy/proxy_core.cpp:403-404 | the path:interface keys of different registrations differ |
| ProxyRegistry.ChildIsObjectPath | packages/cpp/dbus-proxy/dbus-proxy/proxy_core.cpp:274-290 | the path of a child of an object path is an object path, one element longer |
| ProxyRegistry.ExportKeepsAgreement | packages/cpp/dbus-proxy/dbus-proxy/proxy_core.cpp:388-404 | a new export entered into both tables keeps them in agreement |
| ProxyRegistry.UnexportKeepsAgreement | packages/cpp/dbus-proxy/dbus-proxy/handlers.cpp:300-318 | taking an export out of the bus and both tables keeps them in agreement |
| ProxyRegistry.UnexportKeepsCache | packages/cpp/dbus-proxy/dbus-proxy/handlers.cpp:301-304 | the node info cache keeps only live registrations |
| ProxyRegistry.Bus.RegisterObject | packages/cpp/dbus-proxy/dbus-proxy/proxy_core.cpp:388-390 | the bus rule assumed: no id for an exported pair, a refusal or an invalid path, a fresh one otherwise |
| AgentRegistry.AgentRegistry.Serve | packages/cpp/dbus-proxy/dbus-proxy/callback-handling.cpp:277-560 | after any happenings, from any valid state, the entries are the exported agent objects one to one, and each belongs to a client that registered it and has not left the bus since |
| AgentRegistry.AgentRegistry.Run | packages/cpp/dbus-proxy/dbus-proxy/callback-handling.cpp:164-168 | a whole life ends with nothing exported |
| AgentRegistry.AgentRegistry.HandleAgentRegisterCall | packages/cpp/dbus-proxy/dbus-proxy/callback-handling.cpp:277-413 | which calls add an entry; a taken path stays with its owner, whoever asks |
| AgentRegistry.AgentRegistry.HandleAgentUnregisterCall | packages/cpp/dbus-proxy/dbus-proxy/callback-handling.cpp:415-480 | the sender's first entry for the server goes and the server is told that entry's path; unsuitable parameters change nothing |
| AgentRegistry.AgentRegistry.OnNameOwnerChanged | packages/cpp/dbus-proxy/dbus-proxy/callback-handling.cpp:482-560 | the loop with its wrapping index leaves exactly the other owners' entries in order and tells the server of each removed one |
| AgentRegistry.AgentRegistry.GetAgentName | packages/cpp/dbus-proxy/dbus-proxy/callback-handling.cpp:145-162 | a call is routed exactly if an entry at its path is present and answers it, and to that entry's owner |
| AgentRegistry.AgentRegistry.Remove | packages/cpp/dbus-proxy/dbus-proxy/callback-handling.cpp:20-54 | removing an entry unregisters its object and nothing else |
| AgentRegistry.AgentRegistry.UnregisterAllAgentRegistrations | packages/cpp/dbus-proxy/dbus-proxy/callback-handling.cpp:164-168 | freeing the registry leaves no agent object exported |
| AgentRegistry.NamedEntryGoes | packages/cpp/dbus-proxy/dbus-proxy/callback-handling.cpp:426-472 | the sender's entry at the path an unregister call names goes exactly if the parameters can be rewritten and that entry is the sender's first for the server |
| AgentRegistry.WhoIsUnregistered | packages/cpp/dbus-proxy/dbus-proxy/callback-handling.cpp:426-472 | the same for any entry: it goes exactly if no earlier one fits and the parameters can be rewritten |
| AgentRegistry.UnregisterTakesTheFirst | packages/cpp/dbus-proxy/dbus-proxy/callback-handling.cpp:277-480 | from an empty registry: a client of BlueZ that registers two agents and unregisters the second loses the first, and the server is told to drop the first |
| AgentRegistry.DepartureKeepsRouting | packages/cpp/dbus-proxy/dbus-proxy/callback-handling.cpp:521-558 | a departure ends routing to the one who left and changes nobody else's |
| AgentRegistry.OthersIdempotent | packages/cpp/dbus-proxy/dbus-proxy/callback-handling.cpp:521-558 | running the handler again, as every other live subscription does, changes nothing and calls nobody |
| AgentRegistry.FarewellUnregisters | packages/cpp/dbus-proxy/dbus-proxy/callback-handling.cpp:521-558 | what the server is told of a departed agent is an unregister call about that very agent |
| AgentRegistry.OnlyPathRewritten | packages/cpp/dbus-proxy/dbus-proxy/callback-handling.cpp:234-258 | of the parameters of a call only the object path is rewritten, and rewriting it back restores them |
| AgentRegistry.ExportedExactlyIfTaken | packages/cpp/dbus-proxy/dbus-proxy/callback-handling.cpp:319-350 | the bus refuses a path exactly if an entry holds it, as the rules of one bus share a client interface |
| AgentRegistry.RulesUniform | packages/cpp/dbus-proxy/dbus-proxy/callback-rules.cpp:28-72 | the rule table has that property for every bus name |
| AgentRegistry.TableKeepsPaths | packages/cpp/dbus-proxy/dbus-proxy/callback-rules.cpp:28-72 | no rule of the table customises paths, so agents keep the path they gave |
| AgentRegistry.GetCallbackRule | packages/cpp/dbus-proxy/dbus-proxy/callback-rules.cpp:74-86 | the lookup loop finds the first matching rule |
| AgentRegistry.FindRule | packages/cpp/dbus-proxy/dbus-proxy/callback-rules.cpp:74-86 | a found rule is in the table and matches, and none matches when none is found |
| AgentRegistry.RemoveKeepsConsistent | packages/cpp/dbus-proxy/dbus-proxy/callback-handling.cpp:98-100 | removal at any index keeps entries and exports one to one |
| AgentRegistry.AppendKeepsConsistent | packages/cpp/dbus-proxy/dbus-proxy/callback-handling.cpp:98-100 | appending a freshly exported agent keeps them one to one |

## Left out

- vsockproxy: the interval statistics `rxbytes` and `txbytes`, logging, signal handling, start-up
  and failures of `malloc`.
- DCE guest: what the doorbell forwards to the host; it may leave anything in the forward window.
- DceProgress.FinalizationEnds: the finalizer does not hold the big lock, as nothing in the file
  takes it there; a caller that held it during the join would keep the pump from it.
- DceProgress.EverythingIsDelivered: there is a schedule that delivers; that the scheduler is fair is
  not part of the model.
- DCE guest: the model assumes a little-endian host for the words the device stores.
- Balloon: the QMP client and the QEMU loop around the same decision, whose error budget is shared
  by all endpoints and which starts the minimum interval before the command is known to succeed.
- DceGuest.DeliveredInOrder: one driver that follows the protocol, with nobody else writing the
  event window; an arbitrary guest can corrupt its own slot.
- RateLimiter.RateLimiter.constructor: times are natural numbers of one clock that does not run
  backwards, as `Instant` promises; the limiter is replaced as a whole by `set_rate_limiter`, which
  starts a new history.
- RateLimiter.Security.Run: cleanups come at arbitrary times; the counter that spaces them out is
  not modelled.
- Packet rewrite: transport checksum functions, whose results are parameters that land anywhere
  behind the first twenty header bytes; IPv4 options get no claim, as the code sums twenty bytes
  whatever the header length.
- PacketRewrite.ExtToIntIsPacketSafe: when the UDP checksum is wrong the source leaves that field
  cleared in the frame it then drops; the model leaves it as it was.
- PacketRewrite.ModifyExtToInt: a frame with fewer than twenty bytes behind the Ethernet header is
  forwarded with only its MAC addresses rewritten, as in the source; the header claims need twenty.
- D-Bus proxy: locks, the forwarding of calls and signals, freeing of memory, and the SNI mode.
- ProxyRegistry.ProxyState.ProxySingleObject: the per-object table is a value in the table of
  objects rather than an object behind a pointer, so aliasing of `ProxiedObject` is not modelled.
- ProxyRegistry.ProxyState.DiscoverAndProxyObjectTree: what the source service shows below a path is
  a finite tree fixed at the start of the walk.
- AgentRegistry.AgentRegistry.HandleAgentRegisterCall: the NameOwnerChanged subscription succeeds,
  and the subscription ids are not tracked.
- AgentRegistry.AgentRegistry.OnNameOwnerChanged: fewer than 2^32 entries, as the array's length is
  an unsigned 32-bit number; signals with an unexpected signature are ignored before this point.
- USB, audio and kill-switch tools, vinotify, GPS and LDAP helpers and the swtpm shim: plumbing over
  libraries. The BPMP device: a simple bounds check.
