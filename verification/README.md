# HiveMQ Edge core, modelled in Dafny

This project models four pieces of HiveMQ Edge and proves properties about them.

- **The PLC4X connection** (`Plc4x`, `Plc4xAddress`).
  - The adapter configuration is checked: a host and a resource path are required, and the port must lie strictly between 0 and the 16-bit maximum.
  - The driver address `protocol://host:port[/resourcePath]` is built from trimmed parts.
  - The nullable driver handle has a life cycle: connect-if-absent, a fail-safe disconnect and `isConnected`.
  - `read` and `subscribe` refuse the call when the driver's metadata says the connection cannot read or subscribe.
  - A granted subscription registers the consumer once for each field.
- **The polling protocol adapter** (`PollingAdapter`).
  - `captureDataSample`:
    - validates the sample, and a failed check throws synchronously;
    - converts it to JSON;
    - counts it in `publishCount`;
    - fires the first-sample INFO event;
    - hands the publish request to the publish service;
    - bumps the read-publish success or failure metric when the publish future completes.
  - A throw from `convertToJson`, from building or firing the first-sample event, or from `publish()`…`send()` gives a failed future. Only the last two keep the count already raised.
  - The scheduler hooks of the inner `Sampler`: `execute`, `error` and `close`.
  - `bindServices` and `stop`.
- **The bridge registry** (`BridgeConfiguration`).
  - A list of MQTT bridges, changed in place by `addBridge` and by a `removeIf` on the id.
  - Read through snapshot copies.
- **The environment utilities** (`EnvironmentUtils`).
  - `toHex`: the UTF-8 bytes of a string, read as one unsigned big-endian number and written in lowercase hex, zero-padded to at least 40 digits.
  - The MAC address of the first network interface that has a hardware address: uppercase hex pairs joined with `-`, or `<unknown>`.
  - `generateInstallationToken`.

## How the code is modelled

Locks, `volatile` and `CompletableFuture` completion are modelled as atomic steps taken one after another.

The outcomes of foreign calls are parameters of the operations:
- whether the PLC4X driver throws, and what its metadata says;
- what `convertToJson` returns;
- whether building or firing the first-sample event throws, and whether the call to the publish service throws;
- whether the publish future succeeds;
- what the sampler's acquisition completes with;
- what the network interface enumeration yields.

One foreign query is given a definition: `getPollingJobsForAdapter(id)` of the polling service is taken to be the jobs the service holds whose sampler carries `id`, in the service's order (`JobsForAdapter`).

Effects on collaborators are recorded in fields of the classes:
- the driver calls issued;
- the events fired;
- the publishes handed over;
- the `stopPolling` calls received.

Java's signed `byte` is the newtype `JavaByte`, and `Unsigned` gives its two's-complement reading. Both `new BigInteger(1, …)` and `%02X` read a byte that way.

`initConnection` stores the handle before it calls `connect()` (`Plc4xConnection.java:74-75`). A failed `connect()` therefore leaves a handle that is present but not connected. The null checks at `Plc4xConnection.java:67` and `:69` then keep every later `initConnection` from trying again. `FailedConnectIsNotRetried` states this.

## Model

| member | source | states |
|---|---|---|
| Common.Unsigned | hivemq-edge/src/main/java/com/hivemq/edge/utils/HiveMQEdgeEnvironmentUtils.java:35-36 | the unsigned reading of a Java byte lies in 0..255 and agrees with the byte modulo 256 |
| Plc4xAddress.ValidConfiguration | modules/hivemq-edge-module-plc4x/src/main/java/com/hivemq/edge/adapters/plc4x/impl/Plc4xConnection.java:154-157 | `validConfiguration`: resource path and host present, and 0 < port < MAX_UINT16; `Create` states that failing it throws before any driver call |
| Plc4xAddress.Trim | modules/hivemq-edge-module-plc4x/src/main/java/com/hivemq/edge/adapters/plc4x/impl/Plc4xConnection.java:50-59 | `trim()` returns the part of the input between a blank prefix and a blank suffix (`BetweenBlanks`), with no character up to U+0020 at either end; it is "" exactly when the input is blank |
| Plc4xAddress.NatToDecimalCanonical | modules/hivemq-edge-module-plc4x/src/main/java/com/hivemq/edge/adapters/plc4x/impl/Plc4xConnection.java:54 | the port digits have no leading zero: 0 is written "0", any other number starts with a non-zero digit |
| Plc4xAddress.IntToDecimalRoundTrip | modules/hivemq-edge-module-plc4x/src/main/java/com/hivemq/edge/adapters/plc4x/impl/Plc4xConnection.java:54 | the decimal text of the port (negative ports included) reads back as the port |
| Plc4xAddress.ConnectionString | modules/hivemq-edge-module-plc4x/src/main/java/com/hivemq/edge/adapters/plc4x/impl/Plc4xConnection.java:47-63 | `createConnectionString`, characterised by the two round-trip lemmas below |
| Plc4xAddress.ConnectionStringRoundTrip | modules/hivemq-edge-module-plc4x/src/main/java/com/hivemq/edge/adapters/plc4x/impl/Plc4xConnection.java:47-63 | the address parses back into exactly the trimmed protocol, the trimmed host and the port; it carries the trimmed resource path iff that path is non-null and not blank, and otherwise has no trailing segment. The protocol and the host may hold `:`; the protocol must not hold `://` and the host must not hold `/` |
| Plc4xAddress.TransportProtocolRoundTrip | modules/hivemq-edge-module-plc4x/src/main/java/com/hivemq/edge/adapters/plc4x/impl/Plc4xConnection.java:48-55 | a protocol of the form driver:transport, as `opcua:tcp`, reads back whole from the address |
| Plc4x.InitializeQueryForSubscription | modules/hivemq-edge-module-plc4x/src/main/java/com/hivemq/edge/adapters/plc4x/impl/Plc4xConnection.java:150-152 | the query for a tag is its name; `Read` and `Subscribe` state where it is used |
| Plc4x.InitConnectionEffect | modules/hivemq-edge-module-plc4x/src/main/java/com/hivemq/edge/adapters/plc4x/impl/Plc4xConnection.java:65-85 | `initConnection`: the driver log only grows, by at most the two connect calls; a present handle is kept; a new handle is for the address; a normal return always leaves a handle; characterised further by the three lemmas below |
| Plc4x.InitConnectionIsIdempotent | modules/hivemq-edge-module-plc4x/src/main/java/com/hivemq/edge/adapters/plc4x/impl/Plc4xConnection.java:65-78 | with a handle present nothing is asked of the driver and the handle is kept; without one, exactly one connection to the address is requested, followed by one `connect()` unless `getConnection` threw |
| Plc4x.InitConnectionOutcome | modules/hivemq-edge-module-plc4x/src/main/java/com/hivemq/edge/adapters/plc4x/impl/Plc4xConnection.java:74-84 | a connect attempt returns normally iff it leaves a connected handle; it throws exactly when `getConnection` or `connect()` throws a `PlcConnectionException`, which surfaces as the connect error |
| Plc4x.FailedConnectIsNotRetried | modules/hivemq-edge-module-plc4x/src/main/java/com/hivemq/edge/adapters/plc4x/impl/Plc4xConnection.java:67-75 | after a failed `connect()`, the next `initConnection` returns normally, asks nothing of the driver and leaves the connection unconnected |
| Plc4x.Plc4xConnection.constructor | modules/hivemq-edge-module-plc4x/src/main/java/com/hivemq/edge/adapters/plc4x/impl/Plc4xConnection.java:32-35 | a new connection holds its protocol and configuration, no handle and no driver calls |
| Plc4x.Plc4xConnection.Create | modules/hivemq-edge-module-plc4x/src/main/java/com/hivemq/edge/adapters/plc4x/impl/Plc4xConnection.java:32-45 | an invalid configuration throws before any driver call; a lazy connection starts with no handle; an eager one has connected, or throws what `initConnection` threw |
| Plc4x.Plc4xConnection.InitConnection | modules/hivemq-edge-module-plc4x/src/main/java/com/hivemq/edge/adapters/plc4x/impl/Plc4xConnection.java:65-85 | the new handle, driver log and outcome are those of the connect-if-absent effect, whose properties the three lemmas above state |
| Plc4x.Plc4xConnection.IsConnected | modules/hivemq-edge-module-plc4x/src/main/java/com/hivemq/edge/adapters/plc4x/impl/Plc4xConnection.java:99-102 | `isConnected()`: a handle is present and reports itself connected; `Disconnect` states that it is false afterwards |
| Plc4x.Plc4xConnection.Disconnect | modules/hivemq-edge-module-plc4x/src/main/java/com/hivemq/edge/adapters/plc4x/impl/Plc4xConnection.java:87-102 | afterwards the handle is null and `isConnected()` is false even when `close()` throws; `close()` is called only on a present and connected handle |
| Plc4x.Plc4xConnection.Read | modules/hivemq-edge-module-plc4x/src/main/java/com/hivemq/edge/adapters/plc4x/impl/Plc4xConnection.java:104-118 | connects if needed; when the connection cannot read it fails and issues no request; otherwise it issues one read request with one item, keyed by the tag name, whose query is the tag name |
| Plc4x.Plc4xConnection.Subscribe | modules/hivemq-edge-module-plc4x/src/main/java/com/hivemq/edge/adapters/plc4x/impl/Plc4xConnection.java:120-133 | connects if needed; when the connection cannot subscribe it fails and issues no request; otherwise it issues one change-of-state subscription for the tag |
| Plc4x.Plc4xConnection.OnSubscriptionResponse | modules/hivemq-edge-module-plc4x/src/main/java/com/hivemq/edge/adapters/plc4x/impl/Plc4xConnection.java:134-144 | an error completion registers nothing; a granted response registers the consumer once per field name, in order |
| PollingAdapter.CaptureEffect | hivemq-edge/src/main/java/com/hivemq/edge/modules/adapters/impl/AbstractPollingProtocolAdapter.java:54-80 | the effect of `captureDataSample` on the publish state, including the `catch` that turns a throw after the count went up into a failed future; characterised by the four lemmas below and the two run lemmas |
| PollingAdapter.MessageText | hivemq-edge/src/main/java/com/hivemq/edge/modules/adapters/impl/AbstractPollingProtocolAdapter.java:62-63 | the first-sample message is the template's fixed text, then the topic, then the closing quote |
| PollingAdapter.InvalidSampleChangesNothing | hivemq-edge/src/main/java/com/hivemq/edge/modules/adapters/impl/AbstractPollingProtocolAdapter.java:55-58 | a sample is rejected iff it is null, has null data or topic, or a QoS outside 0..2; a rejected sample changes no counter, event or publish |
| PollingAdapter.ValidSamplePublishedOnce | hivemq-edge/src/main/java/com/hivemq/edge/modules/adapters/impl/AbstractPollingProtocolAdapter.java:59-79 | a failed conversion gives a failed future and counts nothing; a valid, converted sample is counted once, and it is published once with its topic, QoS and converted payload iff neither the first-sample event nor the publish call throws; otherwise the result is a failed future and nothing is published |
| PollingAdapter.PublishOutcomeCounted | hivemq-edge/src/main/java/com/hivemq/edge/modules/adapters/impl/AbstractPollingProtocolAdapter.java:66-78 | a publish that was handed over is counted once: success bumps only the success counter and failure only the failure counter; when a collaborator threw first, nothing is published and neither counter moves |
| PollingAdapter.FirstSampleEventIffFirstCount | hivemq-edge/src/main/java/com/hivemq/edge/modules/adapters/impl/AbstractPollingProtocolAdapter.java:61-65 | the INFO event fires iff the count goes from 0 to 1 and building or firing it does not throw, with the topic in its message and the converted payload |
| PollingAdapter.CaptureRunAccounted | hivemq-edge/src/main/java/com/hivemq/edge/modules/adapters/impl/AbstractPollingProtocolAdapter.java:54-80 | over any run of captures from a fresh adapter, whatever the collaborators do: at most one first-sample event and none before a sample was counted, no more publishes than counted samples, and every publish counted once as a success or a failure |
| PollingAdapter.CaptureRunWithoutThrows | hivemq-edge/src/main/java/com/hivemq/edge/modules/adapters/impl/AbstractPollingProtocolAdapter.java:54-80 | over a run whose collaborators never throw, the first-sample event has fired once a sample was counted, and every counted sample was published and counted once as a success or a failure |
| PollingAdapter.JobsForAdapter | hivemq-edge/src/main/java/com/hivemq/edge/modules/adapters/impl/AbstractPollingProtocolAdapter.java:50 | `getPollingJobsForAdapter`, characterised by `JobsForAdapterExactly` |
| PollingAdapter.JobsForAdapterExactly | hivemq-edge/src/main/java/com/hivemq/edge/modules/adapters/impl/AbstractPollingProtocolAdapter.java:50 | the polling jobs of an adapter are exactly the jobs carrying its id |
| PollingAdapter.PollingProtocolAdapter.constructor | hivemq-edge/src/main/java/com/hivemq/edge/modules/adapters/impl/AbstractPollingProtocolAdapter.java:29-37 | a new adapter has no polling service, a zero publish count and no events, publishes or metrics |
| PollingAdapter.PollingProtocolAdapter.BindServices | hivemq-edge/src/main/java/com/hivemq/edge/modules/adapters/impl/AbstractPollingProtocolAdapter.java:39-45 | null module services throw; the polling service is taken from them only when none is bound yet |
| PollingAdapter.PollingProtocolAdapter.NewSampler | hivemq-edge/src/main/java/com/hivemq/edge/modules/adapters/impl/AbstractPollingProtocolAdapter.java:117-123 | a sampler belongs to the adapter's id; its initial delay and its period both equal the polling interval; its error limit is `maxPollingErrorsBeforeRemoval` |
| PollingAdapter.PollingProtocolAdapter.CaptureDataSample | hivemq-edge/src/main/java/com/hivemq/edge/modules/adapters/impl/AbstractPollingProtocolAdapter.java:54-80 | the new counters, events and publishes and the result are those of the capture effect, the publish accounting is kept, and nothing outside the publish state changes |
| PollingAdapter.PollingProtocolAdapter.ExecuteSampler | hivemq-edge/src/main/java/com/hivemq/edge/modules/adapters/impl/AbstractPollingProtocolAdapter.java:125-133 | an interrupted thread fails at once without invoking the sampler; otherwise the acquisition future itself is returned, and an acquired sample goes through `captureDataSample` |
| PollingAdapter.PollingProtocolAdapter.Stop | hivemq-edge/src/main/java/com/hivemq/edge/modules/adapters/impl/AbstractPollingProtocolAdapter.java:47-52 | every polling job with this adapter's id is stopped, in order, and nothing else; without a polling service the stop future fails |
| PollingAdapter.PollingProtocolAdapter.OnSamplerError | hivemq-edge/src/main/java/com/hivemq/edge/modules/adapters/impl/AbstractPollingProtocolAdapter.java:106-111 | the error status is always set; the adapter is stopped iff the sampler is not continuing |
| PollingAdapter.PollingProtocolAdapter.CloseSampler | hivemq-edge/src/main/java/com/hivemq/edge/modules/adapters/impl/AbstractPollingProtocolAdapter.java:135-139 | closing a sampler calls `onSamplerClosed` with it, once |
| PollingAdapter.CaptureWithFreshAdapter | hivemq-edge/src/main/java/com/hivemq/edge/modules/adapters/impl/AbstractPollingProtocolAdapter.java:54-80 | a caller that builds its own adapter can capture with it: a published first sample leaves one event, one publish and a count of 1; a collaborator throw leaves a count of 1 and no publish; a rejection or failed conversion counts nothing |
| PollingAdapter.SamplerLifecycleOfFreshAdapter | hivemq-edge/src/main/java/com/hivemq/edge/modules/adapters/impl/AbstractPollingProtocolAdapter.java:106-139 | a caller that builds its own adapter can run one of its samplers through execute, error and close: one invocation, the error status, a stop iff not continuing, and one close |
| BridgeConfiguration.WithoutId | hivemq-edge/src/main/java/com/hivemq/configuration/service/impl/BridgeConfigurationServiceImpl.java:67 | after a remove, no bridge with the id remains and the list never grows |
| BridgeConfiguration.WithoutIdAppend | hivemq-edge/src/main/java/com/hivemq/configuration/service/impl/BridgeConfigurationServiceImpl.java:67 | removing from a concatenation concatenates the removals, so the remaining bridges keep their relative order |
| BridgeConfiguration.WithoutIdKeepsOthers | hivemq-edge/src/main/java/com/hivemq/configuration/service/impl/BridgeConfigurationServiceImpl.java:67 | every bridge with another id stays, as often as it occurred; none with the id stays |
| BridgeConfiguration.WithoutIdShrinks | hivemq-edge/src/main/java/com/hivemq/configuration/service/impl/BridgeConfigurationServiceImpl.java:67 | when some bridge has the id, the list gets shorter |
| BridgeConfiguration.WithoutIdUnchangedIffAbsent | hivemq-edge/src/main/java/com/hivemq/configuration/service/impl/BridgeConfigurationServiceImpl.java:64-69 | the list is unchanged iff no bridge had the id |
| BridgeConfiguration.WithoutIdIdempotent | hivemq-edge/src/main/java/com/hivemq/configuration/service/impl/BridgeConfigurationServiceImpl.java:67 | removing the same id twice is removing it once |
| BridgeConfiguration.BridgeConfigurationService.constructor | hivemq-edge/src/main/java/com/hivemq/configuration/service/impl/BridgeConfigurationServiceImpl.java:33-39 | a new registry is empty |
| BridgeConfiguration.BridgeConfigurationService.AddBridge | hivemq-edge/src/main/java/com/hivemq/configuration/service/impl/BridgeConfigurationServiceImpl.java:42-44 | the bridge is appended at the end and earlier entries are unchanged, even when its id is already present |
| BridgeConfiguration.BridgeConfigurationService.GetBridges | hivemq-edge/src/main/java/com/hivemq/configuration/service/impl/BridgeConfigurationServiceImpl.java:57-62 | the current contents, in insertion order, without changing the registry |
| BridgeConfiguration.BridgeConfigurationService.RemoveBridge | hivemq-edge/src/main/java/com/hivemq/configuration/service/impl/BridgeConfigurationServiceImpl.java:64-69 | the list loses exactly the bridges with the id, in place, and the result is true iff any had it |
| BridgeConfiguration.SnapshotIsACopy | hivemq-edge/src/main/java/com/hivemq/configuration/service/impl/BridgeConfigurationServiceImpl.java:58-62 | a snapshot keeps its contents while the registry goes on to add and remove a bridge; in the model this follows from `seq` being a value, which stands for the copy Java makes |
| BridgeConfiguration.RemoveTwice | hivemq-edge/src/main/java/com/hivemq/configuration/service/impl/BridgeConfigurationServiceImpl.java:64-69 | a second remove of the same id returns false and changes nothing |
| EnvironmentUtils.Utf8Encode | hivemq-edge/src/main/java/com/hivemq/edge/utils/HiveMQEdgeEnvironmentUtils.java:36 | each character takes one to four bytes |
| EnvironmentUtils.Utf8RoundTrip | hivemq-edge/src/main/java/com/hivemq/edge/utils/HiveMQEdgeEnvironmentUtils.java:36 | decoding the UTF-8 bytes of a string gives back its code points, with a decoder that accepts only shortest forms in the RFC 3629 ranges |
| EnvironmentUtils.Utf8CharSecondByte | hivemq-edge/src/main/java/com/hivemq/edge/utils/HiveMQEdgeEnvironmentUtils.java:36 | the encoder writes the shortest form: the byte after a lead byte lies in the range RFC 3629 allows for that lead, so no overlong form, surrogate or value past U+10FFFF |
| EnvironmentUtils.OverlongFormRejected | hivemq-edge/src/main/java/com/hivemq/edge/utils/HiveMQEdgeEnvironmentUtils.java:36 | the decoder the round trip is stated against rejects an overlong form (E0 81 81) |
| EnvironmentUtils.Utf8Ascii | hivemq-edge/src/main/java/com/hivemq/edge/utils/HiveMQEdgeEnvironmentUtils.java:36 | ASCII text encodes as itself, one byte per character |
| EnvironmentUtils.HexDigits | hivemq-edge/src/main/java/com/hivemq/edge/utils/HiveMQEdgeEnvironmentUtils.java:35 | the digits are lowercase hex, denote the number, and have no leading zero |
| EnvironmentUtils.BigEndianValue | hivemq-edge/src/main/java/com/hivemq/edge/utils/HiveMQEdgeEnvironmentUtils.java:35 | `new BigInteger(1, bytes)`: the value of n bytes is below 256^n |
| EnvironmentUtils.BigEndianLeadingByte | hivemq-edge/src/main/java/com/hivemq/edge/utils/HiveMQEdgeEnvironmentUtils.java:35 | the first byte is the most significant, weighing 256 to the power of the number of bytes after it |
| EnvironmentUtils.ToHex | hivemq-edge/src/main/java/com/hivemq/edge/utils/HiveMQEdgeEnvironmentUtils.java:34-37 | the output is only lowercase hex digits; its value is the unsigned big-endian number of the bytes; its length is max(40, number of significant digits) |
| EnvironmentUtils.StringToHex | hivemq-edge/src/main/java/com/hivemq/edge/utils/HiveMQEdgeEnvironmentUtils.java:34-37 | `toHex(str)`: at least 40 lowercase hex digits whose value is the unsigned big-endian number of the UTF-8 bytes of `str` |
| EnvironmentUtils.ToHexIgnoresLeadingZeroBytes | hivemq-edge/src/main/java/com/hivemq/edge/utils/HiveMQEdgeEnvironmentUtils.java:35-36 | leading zero bytes do not change the output |
| EnvironmentUtils.ToHexOfEmpty | hivemq-edge/src/main/java/com/hivemq/edge/utils/HiveMQEdgeEnvironmentUtils.java:34-37 | the empty string gives forty '0's |
| EnvironmentUtils.ToHexWidth | hivemq-edge/src/main/java/com/hivemq/edge/utils/HiveMQEdgeEnvironmentUtils.java:35 | up to 20 bytes always give exactly 40 digits |
| EnvironmentUtils.HexPair | hivemq-edge/src/main/java/com/hivemq/edge/utils/HiveMQEdgeEnvironmentUtils.java:58 | `%02X` gives two uppercase hex digits whose value is the unsigned byte |
| EnvironmentUtils.MacString | hivemq-edge/src/main/java/com/hivemq/edge/utils/HiveMQEdgeEnvironmentUtils.java:56-58 | the formatted hardware address, characterised by `MacStringLength` and `MacStringAt` |
| EnvironmentUtils.MacStringLength | hivemq-edge/src/main/java/com/hivemq/edge/utils/HiveMQEdgeEnvironmentUtils.java:56-58 | n ≥ 1 bytes give 3n-1 characters; no bytes give "" |
| EnvironmentUtils.MacStringAt | hivemq-edge/src/main/java/com/hivemq/edge/utils/HiveMQEdgeEnvironmentUtils.java:56-58 | byte i is written at 3i as two uppercase hex digits of its unsigned value; a '-' follows every byte but the last |
| EnvironmentUtils.FormatMac | hivemq-edge/src/main/java/com/hivemq/edge/utils/HiveMQEdgeEnvironmentUtils.java:56-58 | the `StringBuilder` loop produces the formatted address whose layout the two lemmas above state |
| EnvironmentUtils.FirstMacAddress | hivemq-edge/src/main/java/com/hivemq/edge/utils/HiveMQEdgeEnvironmentUtils.java:52-67 | the first-match walk over the interfaces, characterised by `FirstHardwareAddressWins` and `NoHardwareAddressIsUnknown` |
| EnvironmentUtils.LocalhostMacAddress | hivemq-edge/src/main/java/com/hivemq/edge/utils/HiveMQEdgeEnvironmentUtils.java:40-68 | `getLocalhostMacAddress()`: `<unknown>` when the enumeration throws, else the first-match walk |
| EnvironmentUtils.FirstHardwareAddressWins | hivemq-edge/src/main/java/com/hivemq/edge/utils/HiveMQEdgeEnvironmentUtils.java:52-61 | the first interface with a non-null hardware address decides the result; a zero-length address gives "" rather than `<unknown>` |
| EnvironmentUtils.NoHardwareAddressIsUnknown | hivemq-edge/src/main/java/com/hivemq/edge/utils/HiveMQEdgeEnvironmentUtils.java:52-67 | with no hardware address before the end of the enumeration, or before a lookup that throws, the result is `<unknown>` |
| EnvironmentUtils.GetLocalhostMacAddress | hivemq-edge/src/main/java/com/hivemq/edge/utils/HiveMQEdgeEnvironmentUtils.java:40-68 | the `while` loop returns the first-match result, and `<unknown>` when the enumeration itself throws |
| EnvironmentUtils.GenerateInstallationToken | hivemq-edge/src/main/java/com/hivemq/edge/utils/HiveMQEdgeEnvironmentUtils.java:18-20 | the installation token is the localhost MAC address |

## Left out

- Threads: `synchronized`, `volatile` and the threads that complete futures are not modelled. Each Java method is one atomic step, and a future's continuation runs at once with its outcome given as a parameter.
- The PLC4X library: `PlcDriverManager`, `PlcConnection`, the request builders and subscription handles are outside this model. The driver is reduced to whether its calls throw and what its metadata reports. Issued requests are recorded as a log.
- The read response: the consumer that `read` passes its response to is not modelled, because its future is driver code.
- Collaborators of the adapter: the event service, the publish service, the metrics helper and the base class `AbstractProtocolAdapter` are not part of this model. Their effects are recorded in fields.
  - `super.bindServices`, `super.stop` and `super.close` are not modelled.
  - `EventUtils.generateJsonPayload` is not part of this model, so the event payload is the converted JSON itself. Whether it throws is a parameter.
  - A `fireEvent` that throws is taken to have recorded no event.
  - Log output is not modelled.
- `startPolling` and the polling scheduler: scheduling, the consecutive-error counter and eviction are not part of this model. Only the hooks the adapter gives the scheduler are modelled.
- `addBridge(String)`: it decodes Base64 and parses JSON with Jackson, which are outside this model.
- Environment lookups: `generateEnvironmentMap`, `getLocalUser` and `getJavaVersion` only read system properties. The network interface enumeration is an input sequence.
- `HiveMQEdgeConstants.MAX_UINT16` is not part of this model. It is the parameter `maxUint16`.
- Plc4x.InitConnectionOutcome: the driver is modelled as throwing only `PlcConnectionException`, which Java wraps. An unchecked exception from `getConnection` or `connect()` would leave `initConnection` unwrapped, and the model does not express it.
- Plc4xAddress.ConnectionStringRoundTrip: a protocol holding `://` or a host holding `/` yields an address that does not split back into the same parts, so the round trip is stated without them.
- Plc4xAddress.ConnectionString: requires a present host. Java would throw a NullPointerException on a null host, but the only caller builds the address after `validConfiguration` has accepted the configuration.
- PollingAdapter.PollingProtocolAdapter.CaptureDataSample: `publishCount` is an unbounded count, so the wrap-around of Java's `AtomicLong` after 2^63 samples is not modelled.
- PollingAdapter.IsValidSample: checks only what the code checks (null references and the QoS range). An empty topic passes.
- EnvironmentUtils.Utf8Encode: Dafny strings hold Unicode scalar values, so a Java string with an unpaired surrogate, which `getBytes` would encode as `?`, is not modelled.
