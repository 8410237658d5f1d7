# Clock synchronisation, command line and client record of a Godot multiplayer demo

This project models three pieces of a small Godot (C#) multiplayer session library:

- **NetworkTime** (`clock_sync.dfy`, `ping_smoothing.dfy`). This is the node that lets a client estimate the server's clock. A connected client pings the server at most once per `1 / PingAndSyncFrequency` seconds. The server answers with its local time. On the answer the client does four things: it sets the clock offset to the server time minus now, takes the round trip as now minus the send time, writes the round trip into a six-slot circular buffer, and re-smooths. The smoothing walks the ring backwards from the newest slot. It weights the samples `0.35, 0.25, 0.20, 0.1, 0.05, 0.05`, most recent first, skips slots holding a value `<= 0`, and divides by the weights it used. Network time on a client is local time plus the offset plus half the smoothed round trip; on the server it is local time.
  - `PingSmoothing` holds the ring as a value (`Ring`) and the functions the class is proved against: `Reset`, `Record`, `Recent` (the most-recent-first view), `WeightedSum`, `TotalWeight` and `Average`.
  - `ClockSync.NetworkTime` is a class over an `array<real>` of six slots and the source's fields. Each method's postcondition ties the new state to those functions.
  - The value of `now` is a parameter everywhere. Godot's multiplayer API is reduced to a `Multiplayer` value: whether a peer is set, whether it is connected, and whether this process is the server.
- **CLIHandler** (`command_line.dfy`). Exact-match search for `server`, and a first-prefix search for `port=` whose argument is split on `=` with field 1 converted. These combine into a port and a start-server decision. Godot's `String.ToInt` is an arbitrary function parameter `toInt`. The lobby's default port is a parameter too; the source reads it and then overwrites it.
- **Client** (`client_record.dfy`). The record of a connected peer's network id, and its serialiser into an object array and back.

The division at `scripts/NetworkTime.cs:178` has no guard. When no slot holds a sample `> 0`, both sums are 0, and C# gives `0f / 0f = NaN`. The model states this outright: `Average` returns `NaN` in that case. The smoothing runs only in the pong handler, right after the new round trip is recorded (`scripts/NetworkTime.cs:219-220`). A reset by itself therefore leaves `smoothedPing` at its initial 0. NaN reaches `smoothedPing`, and through it `GetNetworkTime`, only when the new round trip is `<= 0` and no other slot holds a sample `> 0`. Either the ring held none, or the write overwrote the last one. Two examples:

- The first pong after a reset arrives within the same millisecond tick as its ping.
- On a low-latency link, any six 0 ms round trips in a row bring NaN back.

The code has no guard against this, and the model follows the code.

## Model

| member | source | states |
|---|---|---|
| `PingSmoothing.Reset` | scripts/NetworkTime.cs:118-124 | every slot becomes 0 and the write index is kept |
| `PingSmoothing.Record` | scripts/NetworkTime.cs:130-134 | the new sample lands at the old write index, the other five slots keep their values, and the index stays in [0, 6) |
| `PingSmoothing.SlotStep` | scripts/NetworkTime.cs:169-174 | one step further back in the walk is the previous slot, wrapping from 0 to 5 |
| `PingSmoothing.SlotAfterRecord` | scripts/NetworkTime.cs:130-176 | after a write, the slot k writes back is the one that was k − 1 writes back, and never the slot just written |
| `PingSmoothing.SlotVisitsEachOnce` | scripts/NetworkTime.cs:146-176 | the backward walk from the newest slot reaches every slot, and no slot twice |
| `PingSmoothing.RecordPushesFront` | scripts/NetworkTime.cs:130-176 | after a write, the walk sees the new sample first, then the old order shifted back one place, and the oldest sample is dropped |
| `PingSmoothing.RecordAllRecent` | scripts/NetworkTime.cs:130-176 | after any sequence of writes, the walk sees them newest first, followed by what the ring held before, cut to six |
| `PingSmoothing.KthMostRecentSample` | scripts/NetworkTime.cs:154-164 | the sample recorded k writes ago is the one that gets weight `PING_SMOOTHING_WEIGHTS[k]` |
| `PingSmoothing.TotalWeightPositive` | scripts/NetworkTime.cs:159-167 | the weight used is never negative, and it is positive iff some visited sample is > 0 |
| `PingSmoothing.EmptySlotsIgnored` | scripts/NetworkTime.cs:159-167 | two sample sequences that agree wherever either is > 0 give the same sum and the same total weight |
| `PingSmoothing.NonPositiveSampleIsNoSample` | scripts/NetworkTime.cs:159-167 | recording a round trip <= 0 smooths to the same result as recording nothing (0) |
| `PingSmoothing.AverageDefinedIff` | scripts/NetworkTime.cs:157-178 | the smoothed ping is a number iff some slot holds a sample > 0; otherwise the division yields NaN |
| `PingSmoothing.AverageAfterReset` | scripts/NetworkTime.cs:118-178 | a zeroed ring holds no sample, so smoothing it would divide zero by zero (NaN); the program smooths only after recording a pong |
| `PingSmoothing.PongSmoothsToNaNIff` | scripts/NetworkTime.cs:130-178 | a pong's smoothing gives NaN iff its round trip is <= 0 and no other slot holds a sample > 0 (none held, or the write overwrote the last) |
| `PingSmoothing.FirstPongAfterReset` | scripts/NetworkTime.cs:118-178 | the first pong recorded after a reset smooths to NaN exactly when its round trip is <= 0, and to a number otherwise |
| `PingSmoothing.NaNAfterOverwrite` | scripts/NetworkTime.cs:130-178 | a ring whose only sample > 0 is 5 ms smooths to a number, and writing a 0 round trip over that sample smooths to NaN |
| `PingSmoothing.WeightedSumAbove` | scripts/NetworkTime.cs:157-176 | when every visited sample > 0 is at least lo, the weighted sum is at least lo times the weight used |
| `PingSmoothing.WeightedSumBelow` | scripts/NetworkTime.cs:157-176 | when every visited sample > 0 is at most hi, the weighted sum is at most hi times the weight used |
| `PingSmoothing.MeanWithin` | scripts/NetworkTime.cs:157-178 | for any six samples, most recent first, with one > 0: the normalised mean is a number between any bounds on the samples > 0 |
| `PingSmoothing.AverageWithinSamples` | scripts/NetworkTime.cs:141-178 | with at least one sample > 0, the smoothed ping is a normalised mean between the smallest and largest samples > 0 |
| `PingSmoothing.AverageOfSingleSample` | scripts/NetworkTime.cs:141-178 | with exactly one sample > 0, the smoothed ping equals that sample |
| `PingSmoothing.AverageOfSteadySamples` | scripts/NetworkTime.cs:141-178 | when every sample > 0 has the same value, the smoothed ping is that value |
| `PingSmoothing.TwoSamplesAfterReset` | scripts/NetworkTime.cs:141-178 | round trips 22 then 20 after a reset smooth to (20·0.35 + 22·0.25) / 0.6 = 125/6 |
| `ClockSync.CommandPingReply` | scripts/NetworkTime.cs:235-240 | the server answers a ping with its own current time; on a connected client the role check throws instead |
| `ClockSync.NetworkTime.constructor` | scripts/NetworkTime.cs:17-53 | fields start as their initialisers give: six zero slots, index 0, zero times, zero ping and smoothed ping |
| `ClockSync.NetworkTime.Ready` | scripts/NetworkTime.cs:59-62 | entering the scene tree resets the ring |
| `ClockSync.NetworkTime.ResetPingSamples` | scripts/NetworkTime.cs:118-124 | the array becomes all zeros; the write index and every other field are unchanged |
| `ClockSync.NetworkTime.RecordPingSample` | scripts/NetworkTime.cs:130-134 | writes exactly the slot at the old index, advances the index to (old + 1) % 6, and changes nothing else |
| `ClockSync.NetworkTime.AveragePingSamples` | scripts/NetworkTime.cs:141-179 | the loop computes exactly `Average` of the ring: the walk, the weights, the skip of empty slots and the NaN case |
| `ClockSync.NetworkTime.RpcPong` | scripts/NetworkTime.cs:209-221 | when the role check passes: offset = server time − now, ping = now − send time, the ping is recorded, and the smoothed ping is the new ring's average; the send and sync times are kept; when the check throws, nothing changes |
| `ClockSync.NetworkTime.Process` | scripts/NetworkTime.cs:65-82 | a ping goes out only on a connected client with now > next sync time; then the send time is now and the next sync is now + 1/frequency; otherwise nothing changes |
| `ClockSync.NetworkTime.GetNetworkTime` | scripts/NetworkTime.cs:91-102 | local time on the server; on a client, local time + offset + smoothed/2, NaN while the smoothed ping is NaN |
| `ClockSync.PingExchange` | scripts/NetworkTime.cs:87-101 | after one exchange from a reset node, a client's network time is off the server's clock by exactly half the difference between the outbound and return delays: exact when they are equal, and within the promised 10 ms exactly when they differ by at most 20 ms |
| `CommandLine.SplitJoin` | scripts/CLIHandler.cs:56 | splitting on `=` loses nothing: the fields joined with `=` give the argument back |
| `CommandLine.SplitFieldsFree` | scripts/CLIHandler.cs:56 | no field of the split holds `=` |
| `CommandLine.FirstField` | scripts/CLIHandler.cs:56 | the first field is the text before the first `=` (or all of it) |
| `CommandLine.SplitAfterPrefix` | scripts/CLIHandler.cs:54-57 | after a prefix whose only `=` is its last character, field 1 exists and is the first field of the rest |
| `CommandLine.PortArgumentHasValue` | scripts/CLIHandler.cs:13-57 | any argument that starts with `port=` splits into at least two fields, so index 1 exists |
| `CommandLine.HasArgument` | scripts/CLIHandler.cs:36-47 | true iff some argument equals the query exactly (false for no arguments) |
| `CommandLine.ParseArgumentInt` | scripts/CLIHandler.cs:50-65 | no argument starts with the query iff it reports not found, with value 0; otherwise it converts field 1 of the first such argument in array order, or throws when that argument has no `=` |
| `CommandLine.ProcessCommandLineArguments` | scripts/CLIHandler.cs:17-27 | the port is the `ToInt` of the text after the first `port=` argument's `=`, and 0 when there is none, whatever the default; the server starts iff the exact token `server` is present, so `port=` tokens never start it |
| `ClientRecord.Client.constructor` | scripts/Client.cs:29-32 | stores the given id |
| `ClientRecord.Client.GetNetworkID` | scripts/Client.cs:57-60 | returns the stored id |
| `ClientRecord.Client.ToBlittable` | scripts/Client.cs:70-77 | a fresh array of length 2: slot 0 null, slot 1 the id |
| `ClientRecord.Client.FromBlittable` | scripts/Client.cs:79-82 | a fresh client whose id is the receiver's, whatever the data |
| `ClientRecord.BlittableRoundTrip` | scripts/Client.cs:70-82 | deserialising a client's own array on that client gives its id back; neither step changes the client |
| `ClientRecord.FromBlittableIgnoresData` | scripts/Client.cs:79-82 | client 2 deserialising client 1's array gets id 2 |
| `ClientRecord.Client.FromBlittableDecoded` | scripts/Client.cs:70-82 | corrected reading: the new client's id is the int in slot 1, and there is no client when the array has none |
| `ClientRecord.DecodedRoundTrip` | scripts/Client.cs:70-82 | with the corrected reading, any receiver recovers the sender's id |

## Left out

- Float32 arithmetic: samples, times and weights are exact reals. Rounding, overflow and the cast of `GetTicksMsec` to float are not modelled. The float32 significand has 24 bits, so after about 4.7 hours of uptime `(float)Time.GetTicksMsec() / 1000f` (`scripts/NetworkTime.cs:109`) no longer resolves single milliseconds. A short round trip computed at line 217 can then round to 0. The smoothing then treats it as no sample, which can lead to the NaN at line 178. The model does not capture this. Only `0f / 0f = NaN` is modelled, for round trips that are `<= 0` as reals.
- `Time.GetTicksMsec` is the clock source and is not modelled. Every operation takes `now` instead, so two reads of the clock within one handler give the same value.
- The remote calls themselves (`RpcId`, the `[Rpc]` attributes, unreliable delivery) are left out. `Process` reports whether a ping was sent. `CommandPingReply` gives the value the pong would carry, and `RpcPong` takes it as a parameter.
- `NetworkExtensions.EnsureClient`/`EnsureServer` (enabled by `DEBUG_NETWORKING`) are not modelled as calls. They appear as the `ClientCheckPasses`/`ServerCheckPasses` predicates. A thrown check is modelled as the handler doing nothing and reporting failure.
- ClockSync.NetworkTime.constructor: requires a non-zero `PingAndSyncFrequency`. A float zero there gives an infinite next sync time, so the client never pings again; that case is not modelled.
- `GetLocalTime` is the identity on the `now` parameter and has no member of its own. `GetPing` and `GetPingSmoothed` are plain field reads and have no row.
- CommandLine.ParseArgumentInt: `StartsWith` is culture-sensitive in .NET. It is modelled as an ordinal prefix test, which agrees on ASCII arguments.
- CommandLine.ProcessCommandLineArguments: `String.ToInt` is an arbitrary total function. Its parsing rules and the `(int)` cast are not modelled, and neither is a conversion that fails. If `port=abc` makes the conversion throw at `scripts/CLIHandler.cs:57`, the handler stops before `StartServer` (line 25). The model's promise that the server starts iff `server` is present assumes the conversion returns. `Lobby.GetPort` is the `defaultPort` parameter. The `StartServer` stub does nothing, so the model returns the decision it would be called with. `ARG_BIND_IP` is declared in the source but never used.
- `Client.OnRegisterClient`/`OnUnregisterClient` and `GetPlayer` are left out: they instantiate and free scene nodes. `connectTime` is never written or read by the core, so it is left out too.
- The lobby (admission, roster, eviction) is not part of this model. In the source, every connection handler except `OnClientConnected` throws `NotImplementedException` and its registration body is commented out. The demo player and the menu UI are not part of this model either.

## Findings

| source | as written | input that shows it | evidently intended | confidence | as-written member | corrected member |
|---|---|---|---|---|---|---|
| scripts/Client.cs:79-82 | `fromBlittable` ignores `data` and copies the receiver's own id | client 2 deserialising the array of client 1 (`[null, 1]`) gets id 2 | read the id back from slot 1, where `ToBlittable` put it | medium, not executed | `ClientRecord.FromBlittableIgnoresData` | `ClientRecord.DecodedRoundTrip` |
