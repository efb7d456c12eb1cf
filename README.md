# NetShaper data plane and engine, modelled in Dafny

NetShaper is a Windows network-conditioning tool. It captures IPv4 packets and runs each outgoing packet through a **rule pipeline**, then forwards it. The pipeline is an ordered array of rule functions and their per-rule states. Each rule may:

- drop the packet, or blackhole it;
- delay it;
- duplicate it;
- mark it for modification;
- ask for a TCP reset to be injected.

Rules never overwrite one another's verdicts. They accumulate into an `ActionResult`: OR for the flag fields, MAX for the delay and duplicate count. A Drop or Blackhole ends the walk early.

Around the pipeline sit:

- **The send decorator (`RulePacketCapture`)**. It acts on the accumulated result. A dropped packet is swallowed. Duplicates of the original bytes go out first. A copy is then corrupted, rewritten or window-clamped. The outgoing bytes are finally parked in a time wheel or forwarded.
- **The time wheel (`TimeWheelScheduler`)**: 1024 slots of 10000 ticks, each a growable array. It is emptied by a backward scan that removes each due entry by moving the slot's last entry into its place.
- **The inject queue (`InjectQueue`)**: a bounded FIFO ring of 64 entries.
- **The engine.** Its start/stop state machine runs a receive loop with telemetry counters. It gives up after more than 1000 consecutive receive errors.
- **The ruleset builder.** It validates the UI configuration and turns it into a ruleset in a fixed order: drop, delay, duplicate and modify, inject.
- **A ring-buffer logger** whose size must be a power of two.

## How the model is organised

There is one Dafny module per C# file of the core, plus small support modules:

- `Numerics`: C# integer casts, truncating division, Min and Max.
- `ActionMask`, `ModifyFlags`, `RuleCapability`: the flag enums as `bv16`/`bv8`.
- `Headers`: IPv4/TCP field offsets from section 3.1 of RFC 791 and section 3.1 of RFC 793.
- `XorShift`: the 32-bit xorshift step.
- `TokenBucket`: the refill shared by Throttle and Bandwidth.
- `RuleStates`: the state record.
- `PacketCapture`: the inner capture device.
- `Wrappers`: Option and Result.

The modelling choices:

- **Rules are pure.** Each rule's `Evaluate` is a function from the packet, the clock, its state and the accumulated result to a returned mask, new state and new result. The C# `ref state` and `ref result` parameters become returned values. The write-back of `states[i]` happens in the imperative loop of `Pipeline.RulePipeline.Evaluate`, which updates the ruleset's state array in place. `RuleFunc.Invoke` dispatches on a `RuleKind`. The pipeline itself is generic over any step function, so a test "spy" rule can be expressed.
- **RuleState** is the common `lastTick`/`counter` fields plus a tagged payload per rule kind. This stands for the C# overlay union in which each rule reads only the fields its own factory wrote.
- **Stateful classes become Dafny classes.** `RulePacketCapture`, `TimeWheelScheduler`, `InjectQueue`, `EngineTelemetry`, `Engine`, `RingBufferPacketLogger`, `RulePipeline` and `Ruleset` have fields that their methods update, with `modifies` frames. Each is proved against specification functions: `Walk`/`Outcome`, `DeviceSends`/`Reply`, `LatestFirst`/`KeptOf`, `Sends`, `Replay`, `Run` and `Window`.
- **The inner capture device** (`PacketCapture.PacketDevice`) keeps a log of every `(bytes, metadata)` pair sent. It answers receives from a scripted inbox; an exhausted inbox reports an aborted operation. It answers sends with a fixed function of the bytes.
- **Time is a parameter.** `Stopwatch.GetTimestamp()` and `Stopwatch.Frequency` become a `Clock(now, frequency > 0)` parameter.

## Model

| member | source | states |
|---|---|---|
| ActionResults.Create | NetShaper.Rules/ActionResult.cs:31-34 | The fresh result has no mask bits, no delay, no duplicates, no modify flags and inject id -1. |
| ActionResults.Accumulate | NetShaper.Rules/ActionResult.cs:41-52 | The mask and modify flags are ORed in. Delay and duplicate count become the larger of old and given (at least both, equal to one). The inject id is untouched. |
| ActionResults.AccumulateCommutes | NetShaper.Rules/ActionResult.cs:5-8 | Merging two actions in either order gives the same result. |
| ActionResults.AccumulateIdempotent | NetShaper.Rules/ActionResult.cs:5-8 | Merging the same action twice equals merging it once. |
| ActionResults.ShortCircuitIsSticky | NetShaper.Rules/ActionResult.cs:57-58 | Once Drop or Blackhole is in the mask, no later merge removes it. |
| ActionMask.OrIntoIsOr | NetShaper.Rules/RulePipeline.cs:36-37 | Folding masks into a result one by one equals ORing the starting mask with all of them. |
| Rulesets.Ruleset.constructor | NetShaper.Rules/Ruleset.cs:20-28 | Keeps both arrays and the capabilities as given, for arrays of equal length. |
| Rulesets.Ruleset.New | NetShaper.Rules/Ruleset.cs:20-28 | Refuses exactly the arrays of different lengths. Otherwise it keeps the arrays themselves and the ruleset is aligned. |
| Rulesets.Ruleset.Empty | NetShaper.Rules/Ruleset.cs:9 | No rules, no states, no capabilities. |
| Rulesets.Ruleset.Create | NetShaper.Rules/Ruleset.cs:38-43 | Refuses exactly unequal lengths. Otherwise it shares the rules array and capabilities, and holds the same states in a fresh array distinct from the caller's. |
| Pipeline.Walk | NetShaper.Rules/RulePipeline.cs:34-42 | The walk returns one mask per invoked rule, in order. Every mask but the last is non-terminal. It stops early only after a terminal mask. States past the stopping point are unchanged. |
| Pipeline.MaskFoldsReturned | NetShaper.Rules/RulePipeline.cs:36-37 | For rules that leave the mask alone, the result mask is the fold of the returned masks into the starting mask. |
| Pipeline.MaskIsOrOfReturned | NetShaper.Rules/RulePipeline.cs:36-37 | The result mask is the starting mask ORed with every returned mask. |
| Pipeline.RuleStepIsLawful | NetShaper.Rules/RulePipeline.cs:34-37 | The step that dispatches to the concrete rules never writes the result mask, so the mask is built only by the pipeline from returned masks. |
| Pipeline.WalkKeepsShape | NetShaper.Rules/RulePipeline.cs:34-36 | Running the concrete rules keeps every state in the shape its rule's factory gives it. |
| Pipeline.Outcome | NetShaper.Rules/RulePipeline.cs:21-45 | With no capabilities the result is the fresh result, no rule runs and every state is unchanged. The state list keeps its length. |
| Pipeline.RulePipeline.constructor | NetShaper.Rules/RulePipeline.cs:11 | A new pipeline starts on an empty ruleset with no capabilities. |
| Pipeline.RulePipeline.CurrentRuleset | NetShaper.Rules/RulePipeline.cs:14 | Reads the active ruleset. |
| Pipeline.RulePipeline.Swap | NetShaper.Rules/RulePipeline.cs:51-55 | After a swap the active ruleset is the new one. |
| Pipeline.RulePipeline.Evaluate | NetShaper.Rules/RulePipeline.cs:21-45 | The returned result and the new state array are those of `Outcome` on the old states: early exit on no capabilities, ordered walk, short circuit. |
| Pipeline.WalkInPlace | NetShaper.Rules/RulePipeline.cs:29-44 | The loop over the state array computes exactly `Walk` from the fresh result, writing rule i's new state into slot i. |
| Pipeline.NoRulesNoChange | NetShaper.Rules/RulePipeline.cs:11 | The empty ruleset returns the fresh result whatever its capabilities. |
| Pipeline.WalkOne | NetShaper.Rules/RulePipeline.cs:34-42 | One rule: its mask is ORed in and its state replaced. |
| Pipeline.WalkTwo | NetShaper.Rules/RulePipeline.cs:34-42 | Two rules: the second runs, with the first's result, exactly when the first mask is not terminal. |
| Pipeline.DropShieldsLaterRules | NetShaper.Tests.Benchmark/Program.cs:48-70 | With Drop first, only Drop runs: its counter rises by one, the second rule's state is untouched and the result short-circuits. |
| Pipeline.LagOrderIrrelevant | NetShaper.Rules/Rules/LagRule.cs:45-46 | Two Lag rules in either order give the delay max(a, b). |
| Pipeline.DuplicatesTakeTheLarger | NetShaper.Rules/Rules/DuplicateRule.cs:40-41 | Duplicate(2) and Duplicate(5) in either order give a duplicate count of 5. |
| RuleFunc.Invoke | NetShaper.Rules/RuleFunc.cs:18-22 | Dispatches to the rule of the given kind; a state of the rule's own shape stays of that shape. |
| RuleFunc.ReturnsOwnAction | NetShaper.Rules/RuleFunc.cs:9-17 | A rule returns either no action or the one action of its kind. |
| RuleFunc.OnlyAccumulates | NetShaper.Rules/RuleFunc.cs:9-11 | No rule touches the result mask; delay and duplicates never fall; modify flags are only added; the inject id is kept or set to 0. |
| RuleFunc.MaskPassesThrough | NetShaper.Rules/RuleFunc.cs:9-10 | No rule writes the result mask itself. |
| RuleFunc.DelayOnlyGrows | NetShaper.Rules/RuleFunc.cs:11 | No rule lowers the accumulated delay. |
| RuleFunc.CopiesOnlyGrow | NetShaper.Rules/RuleFunc.cs:11 | No rule lowers the accumulated duplicate count. |
| RuleFunc.FlagsOnlyGrow | NetShaper.Rules/RuleFunc.cs:11 | No rule clears a modify flag. |
| RuleFunc.FlagsAreAdded | NetShaper.Rules/RuleFunc.cs:11 | A rule either leaves the modify flags alone or ORs in its own flags (Tamper's, Truncate or WindowClamp). |
| RuleFunc.InjectIdKeptOrCleared | NetShaper.Rules/Rules/TcpRstRule.cs:55-63 | The inject id is only ever changed to 0, and only by TcpRst. |
| RuleFunc.CountsAtMostOnce | NetShaper.Rules/RuleFunc.cs:18-22 | Each rule raises its counter by at most one per packet. |
| DropRule.CreateState | NetShaper.Rules/Rules/DropRule.cs:24 | The all-zero state. |
| DropRule.Evaluate | NetShaper.Rules/Rules/DropRule.cs:27-36 | Always Drop (a terminal mask); counter +1 and nothing else changes; the result is untouched. |
| BlackholeRule.CreateState | NetShaper.Rules/Rules/BlackholeRule.cs:17 | The all-zero state. |
| BlackholeRule.Evaluate | NetShaper.Rules/Rules/BlackholeRule.cs:20-28 | Always Blackhole (terminal); counter +1 only; the result is untouched. |
| SynDropRule.CreateState | NetShaper.Rules/Rules/SynDropRule.cs:22 | The all-zero state. |
| SynDropRule.Evaluate | NetShaper.Rules/Rules/SynDropRule.cs:25-59 | Drop exactly for a TCP packet with a whole TCP header (at least 40 bytes, protocol 6, length at least IHL+20) whose flags have SYN without ACK; the counter rises only then; the result is never touched. |
| Headers.IpHeaderLength | NetShaper.Rules/Rules/SynDropRule.cs:41-43 | The IPv4 header length is a multiple of 4 between 0 and 60. |
| Headers.TcpWindow | NetShaper.Rules/Rules/WindowClampRule.cs:50-52 | The big-endian window read is a 16-bit value, read only within the packet. |
| LossPatternRule.CreateState | NetShaper.Rules/Rules/LossPatternRule.cs:25-32 | Keeps the mask, clamps the length into [1, 64] (below to 1, above to 64) and starts at position 0. |
| LossPatternRule.Evaluate | NetShaper.Rules/Rules/LossPatternRule.cs:35-49 | Drop exactly when the current bit of the mask is set. The cursor moves to the next position, wrapping to 0 at the length, so 0 <= cursor < length is kept. Mask, length and result are unchanged; counter +1. |
| LossPatternRule.After | NetShaper.Rules/Rules/LossPatternRule.cs:45 | Repeated evaluation keeps the mask, the length and the cursor bound. |
| LossPatternRule.Run | NetShaper.Rules/Rules/LossPatternRule.cs:35-49 | One mask per packet. |
| LossPatternRule.AfterAdds | NetShaper.Rules/Rules/LossPatternRule.cs:45 | a evaluations then b evaluations equal a+b evaluations. |
| LossPatternRule.AfterAdvances | NetShaper.Rules/Rules/LossPatternRule.cs:45 | Short of the wrap, k evaluations move the cursor by k. |
| LossPatternRule.AfterOne | NetShaper.Rules/Rules/LossPatternRule.cs:45 | One evaluation advances the cursor by one, modulo the length. |
| LossPatternRule.WrapsToZero | NetShaper.Rules/Rules/LossPatternRule.cs:45 | From any cursor, the evaluations left to the length bring it back to 0. |
| LossPatternRule.PositionIsPeriodic | NetShaper.Rules/Rules/LossPatternRule.cs:45 | After `length` evaluations the pattern state is back where it started. |
| LossPatternRule.RunFollowsPattern | NetShaper.Rules/Rules/LossPatternRule.cs:41-48 | The j-th packet is dropped exactly when the bit at the cursor reached after j evaluations is set. |
| LossPatternRule.RunIsPeriodic | NetShaper.Rules/Rules/LossPatternRule.cs:23 | The drop sequence repeats with period `length`. |
| LossPatternRule.AlternatingPattern | NetShaper.Rules/Rules/LossPatternRule.cs:23 | Mask 0b1010 with length 4 passes packets 0 and 2 and drops 1 and 3. |
| TokenBucket.Full | NetShaper.Rules/Rules/ThrottleRule.cs:25-33 | A bucket created full: tokens, capacity and rate all equal the given rate; last refill now. |
| TokenBucket.Refill | NetShaper.Rules/Rules/ThrottleRule.cs:42-52 | With positive earned tokens the bucket becomes min(bucket + earned, capacity) and the last tick moves to now; otherwise nothing changes. Capacity, rate and counter are kept, and 0 <= bucket <= capacity is preserved. |
| TokenBucket.NoTimeNoTokens | NetShaper.Rules/Rules/ThrottleRule.cs:42-52 | With no elapsed time a refill changes nothing. |
| ThrottleRule.CreateState | NetShaper.Rules/Rules/ThrottleRule.cs:25-33 | Starts full at `pps` tokens, capacity and rate, last refilled at the creation time. |
| ThrottleRule.Evaluate | NetShaper.Rules/Rules/ThrottleRule.cs:36-64 | After the refill, passes exactly when a token is left, consuming one and counting; otherwise Drop with the refilled state. The bucket bounds are preserved; the result is untouched. |
| ThrottleRule.Run | NetShaper.Rules/Rules/ThrottleRule.cs:36-64 | One mask per packet. |
| ThrottleRule.RunWithoutTime | NetShaper.Rules/Rules/ThrottleRule.cs:55-63 | With no elapsed time the first `bucket` packets pass and every later one is dropped. |
| ThrottleRule.PassesExactlyRate | NetShaper.Rules/Rules/ThrottleRule.cs:29 | A fresh state at N pps passes exactly N packets and drops the next. |
| BandwidthRule.CreateState | NetShaper.Rules/Rules/BandwidthRule.cs:25-33 | Starts full at `bps` bytes of tokens, capacity and rate, last refilled at the creation time. |
| BandwidthRule.Evaluate | NetShaper.Rules/Rules/BandwidthRule.cs:36-66 | After the refill, passes exactly when the bucket holds at least the packet's length, subtracting it and counting; otherwise Drop with the refilled state. The bounds are preserved; the result is untouched. |
| BandwidthRule.Run | NetShaper.Rules/Rules/BandwidthRule.cs:36-66 | Feeding packets one after the other keeps the bucket's shape. |
| BandwidthRule.RunWithoutTime | NetShaper.Rules/Rules/BandwidthRule.cs:29 | With no elapsed time, the bytes passed plus the bucket left equal the initial bucket, so the bytes passed never exceed it. |
| LagRule.CreateState | NetShaper.Rules/Rules/LagRule.cs:27-33 | Holds the given fixed delay in ticks. |
| LagRule.Evaluate | NetShaper.Rules/Rules/LagRule.cs:36-49 | Always Delay, counter +1. The delay becomes max(old, fixed delay) and every other result field is kept. |
| XorShift.Next | NetShaper.Rules/Rules/JitterRule.cs:45-49 | The 32-bit xorshift step maps non-zero to non-zero and zero to zero. |
| Numerics.ToInt32 | NetShaper.Rules/Rules/JitterRule.cs:31-32 | The C# `(int)` cast: an int32 value congruent to the input modulo 2^32, equal to it when it fits. |
| Numerics.TruncDiv | NetShaper.Rules/Rules/JitterRule.cs:31-32 | C# division of a long: for non-negative dividends the usual quotient, never positive for negative ones. |
| Numerics.Max | NetShaper.Rules/ActionResult.cs:45-49 | The larger of two values. |
| Numerics.Min | NetShaper.Rules/Rules/ThrottleRule.cs:50 | The smaller of two values. |
| JitterRule.CreateState | NetShaper.Rules/Rules/JitterRule.cs:27-35 | Min and max delays are the ms values times the frequency over 1000, cast to int; seed 0 becomes 12345; the generator state is never 0. |
| JitterRule.Pick | NetShaper.Rules/Rules/JitterRule.cs:52-53 | The picked delay lies in [min, max]. |
| JitterRule.Evaluate | NetShaper.Rules/Rules/JitterRule.cs:38-60 | Always Delay, counter +1. The generator advances one xorshift step. The delay it picks lies in [min, max] and the result delay becomes the larger of the old delay and the pick; nothing else changes. |
| JitterRule.After | NetShaper.Rules/Rules/JitterRule.cs:45-53 | Repeated evaluation keeps the state's shape, so the same seed drives the same delay sequence. |
| JitterRule.GeneratorNeverStalls | NetShaper.Rules/Rules/JitterRule.cs:33 | A non-zero generator state stays non-zero for ever. |
| OutOfOrderRule.CreateState | NetShaper.Rules/Rules/OutOfOrderRule.cs:28-36 | Min delay 0; max delay is the ms value times the frequency over 1000, cast to int; seed 0 becomes 54321. |
| OutOfOrderRule.Pick | NetShaper.Rules/Rules/OutOfOrderRule.cs:53 | The picked delay lies in [0, max]. |
| OutOfOrderRule.Evaluate | NetShaper.Rules/Rules/OutOfOrderRule.cs:39-60 | The generator advances one xorshift step and the counter rises. The picked delay lies in [0, max] and is merged by max. The mask is Delay exactly when the pick is positive. |
| BurstRule.CreateState | NetShaper.Rules/Rules/BurstRule.cs:25-32 | The interval in ticks, with the last gate opening at the creation time. |
| BurstRule.Evaluate | NetShaper.Rules/Rules/BurstRule.cs:35-58 | Passes exactly when a whole interval has elapsed, opening the gate now and counting, with the result untouched. Otherwise it is Delay by the time left to the next opening, merged by max, with the state unchanged. |
| BurstRule.WaitIsWithinOneInterval | NetShaper.Rules/Rules/BurstRule.cs:53 | A delayed packet waits more than 0 and at most one interval, and is released exactly at the next opening. |
| AckDelayRule.CreateState | NetShaper.Rules/Rules/AckDelayRule.cs:29-34 | The delay in ticks. |
| AckDelayRule.Evaluate | NetShaper.Rules/Rules/AckDelayRule.cs:37-70 | Delay exactly for a TCP packet whose flags byte is present and has ACK. Then the delay is merged by max and the counter rises. Every other path changes neither state nor result. |
| DuplicateRule.CreateState | NetShaper.Rules/Rules/DuplicateRule.cs:22-27 | Stores the count as given, with no cap. |
| DuplicateRule.Evaluate | NetShaper.Rules/Rules/DuplicateRule.cs:30-45 | A count of 0 or less changes nothing. Otherwise it returns Duplicate, the count is merged by max, the counter rises and no other result field changes. |
| TamperRule.CreateState | NetShaper.Rules/Rules/TamperRule.cs:25-31 | Stores the flags. |
| TamperRule.Evaluate | NetShaper.Rules/Rules/TamperRule.cs:34-48 | No flags changes nothing. Otherwise it returns Modify, ORs the flags in and counts, with nothing else changed. |
| TamperRule.FlagsIdempotent | NetShaper.Rules/Rules/TamperRule.cs:45 | Evaluating again leaves the modify flags as they were. |
| MtuClampRule.CreateState | NetShaper.Rules/Rules/MtuClampRule.cs:22-27 | Stores the maximum size. |
| MtuClampRule.Evaluate | NetShaper.Rules/Rules/MtuClampRule.cs:30-43 | A packet within the size changes nothing. A longer one returns Modify with Truncate ORed in and the counter raised; nothing else changes. |
| WindowClampRule.CreateState | NetShaper.Rules/Rules/WindowClampRule.cs:22-27 | Stores the maximum window. |
| WindowClampRule.Evaluate | NetShaper.Rules/Rules/WindowClampRule.cs:30-61 | Modify exactly for a TCP packet whose window field is present and above the limit. Then WindowClamp is ORed in and the counter rises; otherwise nothing changes. |
| TcpRstRule.CreateState | NetShaper.Rules/Rules/TcpRstRule.cs:25-30 | Mode 1 (armed) for one-shot, 0 for continuous. |
| TcpRstRule.Evaluate | NetShaper.Rules/Rules/TcpRstRule.cs:33-64 | Inject exactly when not yet fired and the packet is TCP of at least 40 bytes. Then the inject id becomes 0, the counter rises and an armed one-shot becomes fired (2). Otherwise nothing changes. |
| TcpRstRule.Run | NetShaper.Rules/Rules/TcpRstRule.cs:33-64 | One mask per packet. |
| TcpRstRule.ModeStaysKnown | NetShaper.Rules/Rules/TcpRstRule.cs:28 | The mode stays in {0, 1, 2}. |
| TcpRstRule.ContinuousFiresOnEveryTcpPacket | NetShaper.Rules/Rules/TcpRstRule.cs:55-63 | In continuous mode every TCP packet, and no other, fires. |
| TcpRstRule.OneShotFiresOnce | NetShaper.Rules/Rules/TcpRstRule.cs:60-61 | An armed one-shot fires on the first TCP packet only. |
| TcpRstRule.FiredStaysSilent | NetShaper.Rules/Rules/TcpRstRule.cs:40-41 | A fired one-shot never fires again. |
| PacketCapture.PacketDevice.Open | NetShaper.Abstractions/IPacketCapture.cs:9 | Records the filter and answers with the device's open outcome. |
| PacketCapture.PacketDevice.Receive | NetShaper.Abstractions/IPacketCapture.cs:10 | Hands out the next scripted input; an exhausted device reports an aborted operation. |
| PacketCapture.PacketDevice.Send | NetShaper.Abstractions/IPacketCapture.cs:12 | Appends the bytes and metadata to the sent log and answers with the device's outcome for those bytes. |
| PacketCapture.PacketDevice.CalculateChecksums | NetShaper.Abstractions/IPacketCapture.cs:14 | Counts the call. |
| PacketCapture.PacketDevice.Shutdown | NetShaper.Abstractions/IPacketCapture.cs:13 | Counts the call. |
| PacketCapture.PacketDevice.Dispose | NetShaper.Abstractions/IPacketCapture.cs:7 | Counts the call. |
| RuleCapture.Corrupted | NetShaper.Rules/RulePacketCapture.cs:124-130 | Same length; every byte but byte 50 is kept; byte 50 differs when present. |
| RuleCapture.CorruptTwiceRestores | NetShaper.Rules/RulePacketCapture.cs:129 | Corrupting twice gives back the packet. |
| RuleCapture.Zeros | NetShaper.Rules/RulePacketCapture.cs:136 | n zero bytes. |
| RuleCapture.Rewritten | NetShaper.Rules/RulePacketCapture.cs:132-137 | Same length; bytes before 60 are kept and every byte from 60 on is 0. |
| RuleCapture.RewriteIdempotent | NetShaper.Rules/RulePacketCapture.cs:132-137 | Rewriting twice is rewriting once. |
| RuleCapture.WindowClamped | NetShaper.Rules/RulePacketCapture.cs:139-159 | On an IPv4/TCP packet with a whole TCP header the window reads back 1024 and every other byte is kept; any other packet is unchanged. |
| RuleCapture.Modified | NetShaper.Rules/RulePacketCapture.cs:116-163 | The modified copy has the packet's length. |
| RuleCapture.OnlyThreeFlagsRewrite | NetShaper.Rules/RulePacketCapture.cs:139-158 | Without Corrupt, Rewrite or WindowClamp the bytes are unchanged: Truncate and MssClamp alone change nothing. |
| RuleCapture.ClampedWindowReadsBack | NetShaper.Rules/RulePacketCapture.cs:148-156 | With WindowClamp on a clampable packet, the window of the modified copy reads 1024 even after Corrupt and Rewrite. |
| RuleCapture.Repeat | NetShaper.Rules/RulePacketCapture.cs:60-61 | n copies of the same send. |
| RuleCapture.Copies | NetShaper.Rules/RulePacketCapture.cs:58-62 | The number of duplicates sent: the duplicate count when the Duplicate bit is set and the count is positive, 0 otherwise. |
| RuleCapture.Outgoing | NetShaper.Rules/RulePacketCapture.cs:64-100 | The bytes that leave last have the packet's length, and are the packet itself unless Modify with flags applies to a packet of at most 2048 bytes. |
| RuleCapture.DeviceSends | NetShaper.Rules/RulePacketCapture.cs:48-113 | A dropped packet sends nothing; otherwise the duplicates and then, unless parked, the outgoing bytes. |
| RuleCapture.Reply | NetShaper.Rules/RulePacketCapture.cs:48-113 | Success for a dropped or parked packet, otherwise the inner device's answer for the outgoing bytes. |
| RuleCapture.RulePacketCapture.constructor | NetShaper.Rules/RulePacketCapture.cs:20-33 | Keeps the inner device, pipeline, scheduler and inject queue. |
| RuleCapture.RulePacketCapture.Send | NetShaper.Rules/RulePacketCapture.cs:48-113 | The pipeline's states advance as `Outcome` says. The inner device receives exactly `DeviceSends` of the verdict, the reply is `Reply`, and the wheel gains the outgoing bytes when the packet is parked. |
| RuleCapture.RulePacketCapture.Deliver | NetShaper.Rules/RulePacketCapture.cs:53-112 | Acting on a verdict sends `DeviceSends` and answers `Reply`. |
| RuleCapture.RulePacketCapture.Forward | NetShaper.Rules/RulePacketCapture.cs:57-112 | For a non-terminal verdict: duplicates, then modification, then park or forward. |
| RuleCapture.RulePacketCapture.Release | NetShaper.Rules/RulePacketCapture.cs:87-112 | Parks the outgoing bytes with the result's delay when Delay is set and a scheduler exists, otherwise forwards them once. |
| RuleCapture.RulePacketCapture.Park | NetShaper.Rules/RulePacketCapture.cs:88-92 | The wheel gains exactly one entry, in the slot of now plus the delay; no other slot changes. |
| RuleCapture.RulePacketCapture.Prepare | NetShaper.Rules/RulePacketCapture.cs:64-85 | Yields the outgoing bytes, modifying a copy so that the caller's bytes stay as they were. |
| RuleCapture.RulePacketCapture.SendCopies | NetShaper.Rules/RulePacketCapture.cs:58-62 | Sends the original bytes exactly n times. |
| RuleCapture.RulePacketCapture.ApplyModifications | NetShaper.Rules/RulePacketCapture.cs:116-163 | The buffer becomes `Modified` of its old contents, and the checksums are recomputed once. |
| RuleCapture.RulePacketCapture.Corrupt | NetShaper.Rules/RulePacketCapture.cs:124-130 | The buffer becomes its corrupted self. |
| RuleCapture.RulePacketCapture.ClearFrom | NetShaper.Rules/RulePacketCapture.cs:135-136 | Keeps the bytes before the offset and zeroes the rest. |
| RuleCapture.RulePacketCapture.ClampWindow | NetShaper.Rules/RulePacketCapture.cs:139-159 | With WindowClamp the buffer becomes its window-clamped self; otherwise it is unchanged. |
| RuleCapture.RulePacketCapture.Open | NetShaper.Rules/RulePacketCapture.cs:35 | Passes through to the inner device. |
| RuleCapture.RulePacketCapture.Receive | NetShaper.Rules/RulePacketCapture.cs:37-38 | Passes through to the inner device. |
| RuleCapture.RulePacketCapture.Shutdown | NetShaper.Rules/RulePacketCapture.cs:171 | Passes through to the inner device. |
| RuleCapture.RulePacketCapture.CalculateChecksums | NetShaper.Rules/RulePacketCapture.cs:173-174 | Passes through to the inner device. |
| RuleCapture.RulePacketCapture.Tick | NetShaper.Rules/RulePacketCapture.cs:165-169 | The wheel sends the due entries of the current slot, then the inject queue flushes in FIFO order. The device log grows by exactly those sends. |
| RuleCapture.RulePacketCapture.Dispose | NetShaper.Rules/RulePacketCapture.cs:176-181 | Disposes the scheduler, then the inject queue (drained), then the inner device. |
| TimeWheel.SlotIndex | NetShaper.Rules/TimeWheelScheduler.cs:69-70 | The slot of a target tick is in [0, 1024). |
| TimeWheel.SlotIndexPeriodic | NetShaper.Rules/TimeWheelScheduler.cs:13-15 | Ticks in the same 10000-tick window share a slot, and a slot recurs every 1024 windows. |
| TimeWheel.DueAndKeptPartition | NetShaper.Rules/TimeWheelScheduler.cs:108-125 | Due and not-yet-due entries together are exactly the slot's entries, as a multiset. |
| TimeWheel.LatestFirstSendsDue | NetShaper.Rules/TimeWheelScheduler.cs:108-125 | The backward scan sends exactly the due entries, as a multiset. |
| TimeWheel.Sends | NetShaper.Rules/TimeWheelScheduler.cs:115-116 | One device send per entry. |
| TimeWheel.SendsAppend | NetShaper.Rules/TimeWheelScheduler.cs:115-116 | Sending one more entry appends its bytes and metadata. |
| TimeWheel.ScanStep | NetShaper.Rules/TimeWheelScheduler.cs:108-125 | The scan at index i sends entry i after the later ones when it is due, and keeps it otherwise. |
| TimeWheel.SwapWithLast | NetShaper.Rules/TimeWheelScheduler.cs:122-123 | Moving the last live entry into slot i keeps the examined tail, as a multiset. |
| TimeWheel.SweepDue | NetShaper.Rules/TimeWheelScheduler.cs:112-124 | A due entry is removed by swap-with-last and the scan invariant holds one step further. |
| TimeWheel.SweepKeep | NetShaper.Rules/TimeWheelScheduler.cs:108-125 | A not-yet-due entry is kept and the scan invariant holds one step further. |
| TimeWheel.SweptDone | NetShaper.Rules/TimeWheelScheduler.cs:108-125 | At the end of the scan the live entries are exactly the not-yet-due ones, and none is due. |
| TimeWheel.TimeWheelScheduler.constructor | NetShaper.Rules/TimeWheelScheduler.cs:43-58 | 1024 empty slots, each with room for 16 entries. |
| TimeWheel.TimeWheelScheduler.Enqueue | NetShaper.Rules/TimeWheelScheduler.cs:64-93 | Appends one entry (bytes, metadata, now + delay) to the slot of its target; the slot's capacity doubles when it was full; no other slot changes; after Dispose nothing changes. |
| TimeWheel.TimeWheelScheduler.Grown | NetShaper.Rules/TimeWheelScheduler.cs:75-82 | A fresh array twice the size that keeps every live entry in place. |
| TimeWheel.TimeWheelScheduler.Tick | NetShaper.Rules/TimeWheelScheduler.cs:98-128 | Sends every due entry of the current slot exactly once, latest index first. What stays is the multiset of not-yet-due entries, none of them due. Other slots are unchanged, and after Dispose nothing happens. |
| TimeWheel.TimeWheelScheduler.SetCount | NetShaper.Rules/TimeWheelScheduler.cs:123 | Changes one slot's live count and nothing else. |
| TimeWheel.TimeWheelScheduler.Sweep | NetShaper.Rules/TimeWheelScheduler.cs:108-125 | The backward loop: sends the due entries latest first and leaves the multiset of the others, none of them due. |
| TimeWheel.TimeWheelScheduler.SweepAt | NetShaper.Rules/TimeWheelScheduler.cs:110-124 | One iteration of the loop keeps the scan invariant and sends entry i only when due. |
| TimeWheel.TimeWheelScheduler.Dispose | NetShaper.Rules/TimeWheelScheduler.cs:130-146 | The first call empties every slot; a second call changes nothing. |
| InjectQueues.Sends | NetShaper.Rules/InjectQueue.cs:72-73 | One device send per entry. |
| InjectQueues.SendsAppend | NetShaper.Rules/InjectQueue.cs:72-73 | Sending one more entry appends its bytes and metadata. |
| InjectQueues.RingPush | NetShaper.Rules/InjectQueue.cs:48-55 | Writing the cell at the tail adds the entry at the end of the queue, and the tail advances modulo 64. |
| InjectQueues.RingPop | NetShaper.Rules/InjectQueue.cs:70-79 | The head cell holds the oldest entry; advancing the head modulo 64 drops it. |
| InjectQueues.RingShift | NetShaper.Rules/InjectQueue.cs:78 | Advancing the head modulo 64 shifts every position by one. |
| InjectQueues.RingDistinct | NetShaper.Rules/InjectQueue.cs:54 | Fewer than 64 apart, two queue positions occupy different cells. |
| InjectQueues.FlushStep | NetShaper.Rules/InjectQueue.cs:68-80 | Sending the head entry extends the log by exactly that entry. |
| InjectQueues.InjectQueue.constructor | NetShaper.Rules/InjectQueue.cs:29-34 | An empty queue of 64 cells, head and tail 0. |
| InjectQueues.InjectQueue.Enqueue | NetShaper.Rules/InjectQueue.cs:40-58 | Succeeds exactly when not disposed and fewer than 64 entries are held. Then it appends the entry, moves the tail on modulo 64 and counts one more. Otherwise nothing changes. |
| InjectQueues.InjectQueue.Flush | NetShaper.Rules/InjectQueue.cs:63-81 | Sends every held entry exactly once in enqueue order and empties the queue; after Dispose it does nothing. |
| InjectQueues.InjectQueue.Dispose | NetShaper.Rules/InjectQueue.cs:83-97 | The first call drains the queue without sending; a second call changes nothing. |
| InjectQueues.FifoOrder | NetShaper.Rules/InjectQueue.cs:63-81 | Two entries enqueued in turn are sent in that order. |
| Telemetry.AfterPacket | NetShaper.Engine/EngineTelemetry.cs:23-27 | One more packet processed, the error run reset to 0, nothing else changed. |
| Telemetry.AfterRecvError | NetShaper.Engine/EngineTelemetry.cs:30-34 | One more receive error and one more consecutive error, nothing else changed. |
| Telemetry.AfterSendError | NetShaper.Engine/EngineTelemetry.cs:37-40 | Only the send errors grow by one. |
| Telemetry.AfterInvalidPacket | NetShaper.Engine/EngineTelemetry.cs:43-46 | Only the invalid-packet count grows by one. |
| Telemetry.EngineTelemetry.constructor | NetShaper.Engine/EngineTelemetry.cs:9-13 | Every counter starts at 0. |
| Telemetry.EngineTelemetry.RecordPacket | NetShaper.Engine/EngineTelemetry.cs:23-27 | The counters become `AfterPacket` of the old ones. |
| Telemetry.EngineTelemetry.RecordRecvError | NetShaper.Engine/EngineTelemetry.cs:30-34 | The counters become `AfterRecvError` of the old ones. |
| Telemetry.EngineTelemetry.RecordSendError | NetShaper.Engine/EngineTelemetry.cs:37-40 | The counters become `AfterSendError` of the old ones. |
| Telemetry.EngineTelemetry.RecordInvalidPacket | NetShaper.Engine/EngineTelemetry.cs:43-46 | The counters become `AfterInvalidPacket` of the old ones. |
| Telemetry.EngineTelemetry.Reset | NetShaper.Engine/EngineTelemetry.cs:48-55 | Every counter is 0. |
| Telemetry.ReplayFromZero | NetShaper.Engine/EngineTelemetry.cs:23-46 | After a reset and any events, each total counts its own events, and the consecutive-error count is the number of receive errors since the last packet. |
| Telemetry.ReplayCovers | NetShaper.Engine/EngineTelemetry.cs:23-46 | Recording never lowers a total and keeps the error run within the receive errors. |
| Engines.IsValidPacket | NetShaper.Engine/Engine.cs:174-179 | A length is valid exactly when it lies in [20, 2048]. |
| Engines.StartOutcome | NetShaper.Engine/Engine.cs:49-76 | Start succeeds exactly from Idle with a non-blank filter and a successful open, and the engine is then Running. Any failure leaves the state as it was, and a Faulted engine never starts. |
| Engines.ReceiveVerdict | NetShaper.Engine/Engine.cs:151-164 | Success goes on unchanged. Aborted or InvalidHandle stop the loop with Stopped. Any other outcome records a receive error and stops with TooManyErrors exactly when the run passes 1000. |
| Engines.SendVerdict | NetShaper.Engine/Engine.cs:187-201 | Success counts a packet. InvalidHandle changes nothing. Anything else is a send error. |
| Engines.AfterAfter | NetShaper.Engine/Engine.cs:129-147 | Prefixing two batches of sends is prefixing their concatenation. |
| Engines.Run | NetShaper.Engine/Engine.cs:124-148 | The loop ends Stopped or TooManyErrors, the latter only after more than 1000 consecutive errors. |
| Engines.RunBounds | NetShaper.Engine/Engine.cs:124-148 | The loop never lowers a counter, keeps the error run within the receive errors, reads a prefix of its inputs and sends at most one packet per input. |
| Engines.RunForwardsValidPackets | NetShaper.Engine/Engine.cs:140-146 | Every packet forwarded has a valid length. |
| Engines.RunCountsDelivered | NetShaper.Engine/Engine.cs:187-192 | The processed count grows by exactly the sends the device accepted. |
| Engines.FailuresTrip | NetShaper.Engine/Engine.cs:159-161 | Enough consecutive failed receives end the loop with TooManyErrors, whatever follows. |
| Engines.Engine.constructor | NetShaper.Engine/Engine.cs:36-47 | A new engine is Idle with zero counters and no stop request. |
| Engines.Engine.Log | NetShaper.Engine/Engine.cs:205-212 | Appends one Info entry with the code, the value and the timestamp to the logger. |
| Engines.Engine.Start | NetShaper.Engine/Engine.cs:49-76 | Result and new state as `StartOutcome`. The device is opened only from Idle with a non-blank filter. On success the stop request clears, the counters reset and EngineStarted is logged; otherwise the counters and the log are unchanged. |
| Engines.Engine.Stop | NetShaper.Engine/Engine.cs:78-85 | From Running: Stopping, a stop request and one device shutdown; from any other state nothing changes. |
| Engines.Engine.RunCaptureLoop | NetShaper.Engine/Engine.cs:87-122 | From Stopping it returns Stopped; from any state but Running, or while another loop is active, it returns InvalidState with nothing changed. From Running it returns what `Run` says on the device's inputs, with the counters and sends it gives; it ends Idle or Faulted by the result and logs EngineStopped with the packet count. |
| Engines.Engine.ProcessLoop | NetShaper.Engine/Engine.cs:124-148 | Result, counters, sends and unread inputs are those of `Run`, and one checksum call per send. |
| Engines.Engine.Step | NetShaper.Engine/Engine.cs:129-147 | One iteration either ends the loop as `Run` would, or forwards at most one packet and consumes one input, the rest of `Run` following. |
| Engines.Engine.HandleReceiveError | NetShaper.Engine/Engine.cs:151-164 | Its stop verdict and the new counters are `ReceiveVerdict`. |
| Engines.Engine.ProcessPacket | NetShaper.Engine/Engine.cs:182-202 | Recomputes the checksums, sends the packet once, and records the outcome as `SendVerdict`. |
| Engines.Engine.Dispose | NetShaper.Engine/Engine.cs:214-224 | The engine is Disposed; the device is disposed on the first call only. |
| PacketLogging.BitAnd | NetShaper.Infrastructure/RingBufferPacketLogger.cs:18 | The bitwise AND of two non-negative numbers is at most each of them. |
| PacketLogging.Unsigned32 | NetShaper.Infrastructure/RingBufferPacketLogger.cs:28 | The bits of an int read as unsigned: below 2^32 and congruent to the value. |
| PacketLogging.SizeCheckAcceptsPowersOfTwo | NetShaper.Infrastructure/RingBufferPacketLogger.cs:15-19 | The size checks accept exactly the positive powers of two, and report NotPositive exactly for sizes of 0 or less. |
| PacketLogging.AndBelowIsZero | NetShaper.Infrastructure/RingBufferPacketLogger.cs:18 | For positive n, n & (n - 1) is 0 exactly when n is a power of two. |
| PacketLogging.AndMaskIsModulo | NetShaper.Infrastructure/RingBufferPacketLogger.cs:28 | Masking with size - 1 is the remainder modulo a power-of-two size. |
| PacketLogging.Pow2 | NetShaper.Infrastructure/RingBufferPacketLogger.cs:18 | Powers of two are at least 1. |
| PacketLogging.Pow2IsPowerOfTwo | NetShaper.Infrastructure/RingBufferPacketLogger.cs:18 | 2^k is a power of two. |
| PacketLogging.ExponentOf | NetShaper.Infrastructure/RingBufferPacketLogger.cs:18 | Every power of two is 2^k for some k. |
| PacketLogging.DividesTwoTo32 | NetShaper.Infrastructure/RingBufferPacketLogger.cs:28 | A power-of-two size that fits an int divides 2^32, so the wrapping index keeps its slot. |
| PacketLogging.Window | NetShaper.Infrastructure/RingBufferPacketLogger.cs:26-30 | The array after a history of entries has the logger's size. |
| PacketLogging.WindowKeepsLatest | NetShaper.Infrastructure/RingBufferPacketLogger.cs:26-30 | Each of the last `size` entries sits in the slot of its position modulo the size. |
| PacketLogging.WindowUnwritten | NetShaper.Infrastructure/RingBufferPacketLogger.cs:21 | Slots not reached yet still hold the empty entry. |
| PacketLogging.Slot | NetShaper.Infrastructure/RingBufferPacketLogger.cs:28 | `index & mask` is the index modulo the size. |
| PacketLogging.NextIndex | NetShaper.Infrastructure/RingBufferPacketLogger.cs:28 | Incrementing the wrapped index gives the wrapped successor. |
| PacketLogging.SlotOfCount | NetShaper.Infrastructure/RingBufferPacketLogger.cs:28 | The wrapped index lands in the same slot as the unwrapped count. |
| PacketLogging.LogStep | NetShaper.Infrastructure/RingBufferPacketLogger.cs:28-29 | Logging one entry writes exactly one slot. |
| PacketLogging.RingBufferPacketLogger.constructor | NetShaper.Infrastructure/RingBufferPacketLogger.cs:21-23 | A fresh array of the size, mask size - 1, index -1, nothing logged. |
| PacketLogging.RingBufferPacketLogger.CreateDefault | NetShaper.Infrastructure/RingBufferPacketLogger.cs:13 | Without a size the logger holds 4096 entries, a power of two the checks accept, with nothing logged. |
| PacketLogging.RingBufferPacketLogger.Create | NetShaper.Infrastructure/RingBufferPacketLogger.cs:13-24 | Refuses exactly the sizes the checks refuse, with NotPositive exactly for sizes of 0 or less. Otherwise it is a logger of that size. |
| PacketLogging.RingBufferPacketLogger.Log | NetShaper.Infrastructure/RingBufferPacketLogger.cs:26-30 | Appends the entry to the history and writes exactly the slot of its position. |
| PacketLogging.RingBufferPacketLogger.Snapshot | NetShaper.Infrastructure/RingBufferPacketLogger.cs:32-35 | A fresh copy of the array, equal to the window of the history. |
| PacketLogging.LoggerKeepsLatest | NetShaper.Infrastructure/RingBufferPacketLogger.cs:26-30 | After any run of Log calls the last `size` entries are in the slots of their positions. |
| RulesConfigs.ValidMeansEnabledInRange | NetShaper.App/Models/RulesConfig.cs:29-43 | In a valid configuration every enabled rule has parameters in range. |
| RulesConfigs.InvalidHasCulprit | NetShaper.App/Models/RulesConfig.cs:29-43 | An invalid configuration has an enabled rule out of range. |
| RulesConfigs.IsValidMeansEnabledInRange | NetShaper.App/Models/RulesConfig.cs:25-43 | Valid exactly when every enabled rule is in range: disabled rules are never looked at. |
| RulesConfigs.NothingEnabledIsValid | NetShaper.App/Models/RulesConfig.cs:25-28 | With every rule off the configuration is valid, whatever its parameters. |
| RulesConfigs.WithEnabled | NetShaper.App/Models/RulesConfig.cs:8-23 | Switching one rule changes only that rule's switch. |
| RulesConfigs.SwitchingRules | NetShaper.App/Models/RulesConfig.cs:29-43 | Turning a rule off keeps a valid configuration valid; turning one on keeps it valid exactly when its parameters are in range. |
| RulesConfigs.DefaultsInRange | NetShaper.App/Models/RulesConfig.cs:8-23 | The default parameters of every rule are in range. |
| RulesConfigs.ReroutedKeepsRules | NetShaper.App/Services/RulesetBuilder.cs:15-19 | Changing Direction and Filter keeps each rule's switch and parameters. |
| RulesConfigs.ValidityIgnoresRouting | NetShaper.App/Services/RulesetBuilder.cs:15-19 | Direction and Filter play no part in validation. |
| RulesetBuilders.KindAt | NetShaper.App/Services/RulesetBuilder.cs:42-158 | The n-th kind of the fixed order has rank n. |
| RulesetBuilders.OrderHasEveryKind | NetShaper.App/Services/RulesetBuilder.cs:42-158 | Every kind has exactly one place in the order. |
| RulesetBuilders.TamperFlags | NetShaper.App/Services/RulesetBuilder.cs:125-128 | Truncate, Corrupt and Rewrite are set exactly by their switches, and no other bit is. |
| RulesetBuilders.KindsStatesAlign | NetShaper.App/Services/RulesetBuilder.cs:162-167 | The rule list and the state list grow together, so they stay aligned. |
| RulesetBuilders.Build | NetShaper.App/Services/RulesetBuilder.cs:36-168 | A valid ruleset in fresh arrays whose rules, states and capabilities are those of the enabled rules in the fixed order. |
| RulesetBuilders.Collect | NetShaper.App/Services/RulesetBuilder.cs:38-158 | The four stages in turn give the lists and capabilities of the enabled rules. |
| RulesetBuilders.ToArray | NetShaper.App/Services/RulesetBuilder.cs:160 | A fresh array holding the list. |
| RulesetBuilders.DropStage | NetShaper.App/Services/RulesetBuilder.cs:45-73 | Adds the enabled drop rules in order. |
| RulesetBuilders.DelayStage | NetShaper.App/Services/RulesetBuilder.cs:78-111 | Adds the enabled delay rules in order. |
| RulesetBuilders.ModifyStage | NetShaper.App/Services/RulesetBuilder.cs:116-148 | Adds the enabled duplicate and modify rules in order. |
| RulesetBuilders.InjectStage | NetShaper.App/Services/RulesetBuilder.cs:153-158 | Adds TcpRst when enabled. |
| RulesetBuilders.AddDrop | NetShaper.App/Services/RulesetBuilder.cs:45-46 | Adds Drop with its zero state and the drop capability exactly when enabled. |
| RulesetBuilders.AddBlackhole | NetShaper.App/Services/RulesetBuilder.cs:48-49 | Adds Blackhole exactly when enabled. |
| RulesetBuilders.AddSynDrop | NetShaper.App/Services/RulesetBuilder.cs:51-52 | Adds SynDrop exactly when enabled. |
| RulesetBuilders.AddLossPattern | NetShaper.App/Services/RulesetBuilder.cs:54-59 | Adds LossPattern with the configured mask and length exactly when enabled. |
| RulesetBuilders.AddThrottle | NetShaper.App/Services/RulesetBuilder.cs:61-66 | Adds Throttle with the configured rate exactly when enabled. |
| RulesetBuilders.AddBandwidth | NetShaper.App/Services/RulesetBuilder.cs:68-73 | Adds Bandwidth with the configured rate exactly when enabled. |
| RulesetBuilders.AddLag | NetShaper.App/Services/RulesetBuilder.cs:78-83 | Adds Lag with the configured delay exactly when enabled. |
| RulesetBuilders.AddJitter | NetShaper.App/Services/RulesetBuilder.cs:85-90 | Adds Jitter with the configured range exactly when enabled. |
| RulesetBuilders.AddOutOfOrder | NetShaper.App/Services/RulesetBuilder.cs:92-97 | Adds OutOfOrder with the configured maximum exactly when enabled. |
| RulesetBuilders.AddBurst | NetShaper.App/Services/RulesetBuilder.cs:99-104 | Adds Burst with the configured interval exactly when enabled. |
| RulesetBuilders.AddAckDelay | NetShaper.App/Services/RulesetBuilder.cs:106-111 | Adds AckDelay with the configured delay exactly when enabled. |
| RulesetBuilders.AddDuplicate | NetShaper.App/Services/RulesetBuilder.cs:116-121 | Adds Duplicate with the configured count exactly when enabled. |
| RulesetBuilders.AddTamper | NetShaper.App/Services/RulesetBuilder.cs:123-134 | Adds Tamper with the flags of its three switches exactly when enabled. |
| RulesetBuilders.AddMtuClamp | NetShaper.App/Services/RulesetBuilder.cs:136-141 | Adds MtuClamp with the configured size exactly when enabled. |
| RulesetBuilders.AddWindowClamp | NetShaper.App/Services/RulesetBuilder.cs:143-148 | Adds WindowClamp with the configured window exactly when enabled. |
| RulesetBuilders.AddTcpRst | NetShaper.App/Services/RulesetBuilder.cs:153-158 | Adds TcpRst with the configured mode exactly when enabled. |
| RulesetBuilders.AddRule | NetShaper.App/Services/RulesetBuilder.cs:162-167 | Appends the rule and its state, and ORs its capability in. |
| RulesetBuilders.Extend | NetShaper.App/Services/RulesetBuilder.cs:162-167 | Adding the next enabled rule extends the built prefix by one entry. |
| RulesetBuilders.Skip | NetShaper.App/Services/RulesetBuilder.cs:45-158 | A disabled rule adds nothing. |
| RulesetBuilders.PrefixMembers | NetShaper.App/Services/RulesetBuilder.cs:45-158 | The first n steps add exactly the enabled rules of rank below n, each with its initial state and capability. |
| RulesetBuilders.PrefixRanksBelow | NetShaper.App/Services/RulesetBuilder.cs:45-158 | The first n steps add only rules of rank below n. |
| RulesetBuilders.PrefixRanked | NetShaper.App/Services/RulesetBuilder.cs:45-158 | The built rules appear in strictly increasing rank. |
| RulesetBuilders.BuildOnePerEnabledRule | NetShaper.App/Services/RulesetBuilder.cs:36-168 | The ruleset holds each enabled rule once, with its initial state and capability, in the fixed order, and no disabled rule. |
| RulesetBuilders.StageFollowsRank | NetShaper.App/Services/RulesetBuilder.cs:28-34 | A rule of lower rank is in the same or an earlier stage. |
| RulesetBuilders.BuildGroupsByStage | NetShaper.App/Services/RulesetBuilder.cs:28-34 | Drop rules come first, then delay rules, then duplicate and modify rules, then inject rules. |
| RulesetBuilders.CapsCollects | NetShaper.App/Services/RulesetBuilder.cs:166 | A capability bit is in the union exactly when some entry carries it; the union is None exactly for no entries. |
| RulesetBuilders.OrBits | NetShaper.App/Services/RulesetBuilder.cs:166 | ORing a capability bit in sets exactly that bit and makes the union non-empty. |
| RulesetBuilders.BuildCapabilities | NetShaper.App/Services/RulesetBuilder.cs:36-168 | A capability bit is set exactly when some enabled rule carries it, and the capabilities are None exactly when no rule is enabled. |
| RulesetBuilders.PrefixIgnoresRouting | NetShaper.App/Services/RulesetBuilder.cs:15-19 | Direction and Filter do not affect any prefix of the build. |
| RulesetBuilders.BuildIgnoresRouting | NetShaper.App/Services/RulesetBuilder.cs:15-19 | Direction and Filter do not affect the built ruleset. |
| RulesetBuilders.InitialStateWellFormed | NetShaper.App/Services/RulesetBuilder.cs:45-158 | In a valid configuration whose tick conversions fit an int without wrapping, every enabled rule's initial state has its rule's shape. |
| RulesetBuilders.InRangeStateWellFormed | NetShaper.App/Services/RulesetBuilder.cs:45-158 | A rule with parameters in range gets an initial state of its rule's shape. |
| RulesetBuilders.JitterStateWellFormed | NetShaper.App/Services/RulesetBuilder.cs:85-90 | An in-range Jitter gets min <= max delays within an int. |
| RulesetBuilders.BuildLoadable | NetShaper.App/Services/RulesetBuilder.cs:36-168 | A valid configuration whose tick conversions fit builds a ruleset the pipeline can take: every state has its rule's shape. |
| RulesetBuilders.NegativeJitterMinimumLoads | NetShaper.App/Models/RulesConfig.cs:32 | A Jitter range from -10 ms to 50 ms is valid, since only a minimum above the maximum is refused, and it builds a loadable ruleset. |

## Left out

- Concurrency is not modelled. The C# code uses `Volatile`, `Interlocked` and the atomic ruleset swap; the model runs one call at a time, so a stop request cannot arrive in the middle of the receive loop.
- The WinDivert native layer is not part of this model. The inner device is a stand-in class with a scripted inbox and a fixed send outcome. `ReceiveBatch` (RulePacketCapture.cs:40-41) is not modelled, because the engine never calls it.
- Checksum recomputation is only counted, not computed, because the inner device computes it.
- ArrayPool renting and returning of packet buffers is not modelled; a copied buffer is a value of type `seq<bv8>`.
- `Stopwatch.GetTimestamp()` and `Stopwatch.Frequency` are parameters. The engine's log timestamps are a `now` parameter.
- One `Send` takes a single `now` for every clock reading it makes. The C# code reads `Stopwatch.GetTimestamp()` separately in the Throttle, Bandwidth and Burst rules (ThrottleRule.cs:42, BandwidthRule.cs:42, BurstRule.cs:41) and again when the wheel computes the target tick (TimeWheelScheduler.cs:69). The model does not capture time passing between those readings within one packet.
- The C# constructors' null-argument checks are not modelled: Dafny references are non-null.
- Truncate and MssClamp are recorded as modify flags but change no bytes, as in the source. Truncation of the outgoing packet is not modelled because the source does not perform it.
- `StartResult.Success` is named `Started` in the model, to keep it apart from `CaptureResult.Success`.
- Integer widths:
  - Counters and token buckets are unbounded integers, so the 64-bit overflow of the C# `long` counters is not modelled.
  - The `(int)` cast of tokensToAdd in the token-bucket refill is not modelled (ThrottleRule.cs:47 and BandwidthRule.cs:47).
  - The int32 casts in the Jitter and OutOfOrder factories and the logger's int32 index wrap-around are modelled exactly.
- TokenBucket.Refill: computes earned tokens with exact integer arithmetic. It omits the C# 64-bit overflow of `elapsed * TokensPerTick` and the truncating `(int)` cast, so it is weaker than the source for huge elapsed times.
- LagRule.CreateState: takes the delay already in ticks. The builder converts milliseconds with a truncating integer division, while the C# code divides a double by 1000.0; the two agree except where a double cannot represent the product exactly.
- RulesetBuilders.BuildLoadable: also requires that the Jitter and OutOfOrder tick conversions fit an int without wrapping, and that the Jitter range width (max minus min ticks) fits an int too. The C# code does not check this, and the rules' range computation assumes it. A negative Jitter minimum is allowed, as in the source.
- Pipeline.RuleStep: for a state whose shape does not match its rule, the step returns no action and leaves everything unchanged. A ruleset held by the pipeline never contains such a state (`RulePipeline.Valid`), so this fallback is never reached.
- The Drop, SynDrop and Duplicate configurations carry their `Chance` fields (default 100), but no rule uses them, because the builder never reads them. Direction and Filter are likewise carried but never given to a rule; `ReroutedKeepsRules` and `BuildIgnoresRouting` state that they play no part.
- The builder's per-rule `Add*` methods and four stage methods split the single C# `Build` method into verifiable steps; they add nothing the C# method does not do.
- The Engine's `IsRunning` and `PacketCount` properties are read-only functions without a contract of their own.
