# IENA telemetry receiver: a verified model

This project models the core of DatastreamGui, which is a receiver for IENA telemetry
sent over UDP. An IENA packet has a fixed big-endian layout:

- a 16-byte header: key, size in 16-bit words, time_high, time_low, status, sequence, N;
- N four-byte payload slots, each holding a float32;
- a two-byte `0xDEAD` trailer.

The model covers both implementations in the repository.

- The Java `DataStream` class:
  - schema sizes and the default `a`..`z` schema;
  - `parseIenaPacket` and `parseIenaKey`;
  - the receive loop (key filter, decode, value cache update, listener fan-out) and the `running` flag;
  - the multicast join and leave bookkeeping;
  - stream discovery.
- The Python tools:
  - `parse_iena_packet` and the sort step of `load_xidml`;
  - the bounded-deque receiver `IenaMulticastReceiver`;
  - the counting done by `discover_streams`;
  - the sender's `build_iena_packet` and its `--vars` splitting rule.

Modules, one per concern:

| module | file | models |
|---|---|---|
| `Wrappers` | wrappers.dfy | `Option` and `Result` |
| `Bytes` | bytes.dfy | bytes, big-endian 16/32-bit reads and writes |
| `StableSort` | stable_sort.dfy | the stable sort behind Java's `List.sort` and Python's `list.sort` |
| `Schema` | schema.dfy | `ParameterInfo`, packet sizes, `defaultParameters`, sort by index (Java and XidML) |
| `Codec` | codec.dfy | `parseIenaPacket`, `parseIenaKey`, `parse_iena_packet` |
| `Sender` | sender.dfy | `build_iena_packet` |
| `SenderArgs` | sender_args.dfy | the `--vars` rule: split on `,`, strip, drop empties, reject none |
| `Multicast` | multicast.dfy | interface filters, `joinMulticastOnAllInterfaces`, the group join loop, `leaveAllGroups` |
| `Receiver` | receiver.dfy | the `DataStream` object, its receive loop and its listeners |
| `PyReceiver` | py_receiver.dfy | `IenaMulticastReceiver` and its bounded deques |
| `Discovery` | discovery.dfy | `discoverStreams` (Java) and `discover_streams` (Python) counting |

## How the model represents the system

- **Payload slots.** A float32 slot is an opaque 32-bit word (`U32`). The decoders copy words and never interpret them, so a word stands for the float it encodes. The cache's initial `0.0` is the all-zero word.
- **Java datagrams.** Java reads a datagram as a buffer plus a length. It is modelled as `Received(data, length, source)` with `length <= |data|`. Python receives exactly the bytes of the datagram, that is `data[..length]`.
- **Event sequences.** The receive loops are methods over a sequence of events, each observed between two checks of `running`:
  - a datagram arrives;
  - a timeout;
  - `stop()`;
  - `addListener`;
  - `clearListeners`;
  - a receive error.
- **Loop methods and their specifications.** Each receive loop is proved equal to a specification function over its events. Java's loop gives the state `Receiver.Run` computes. Python's loop gives the state `PyReceiver.PyRun` computes over the events before the first stop (`BeforeStop`). The properties are then proved about those functions. For Python these are: the count (`PyRunCount`), the timestamp deque as the last 10000 accepted times (`PyRunTimestamps`), and each series as the last 10000 values of its slot (`PyRunSeries`).
- **Operating-system answers.** Interface enumeration and the operating system's answer to a join or leave are parameters. The answers are functions `(group, interface) -> bool`, with `None` standing for Java's `null` (OS-default) interface.
- **Stable sort.** Java's `List.sort` and Python's `list.sort` are both stable. They are modelled by one stable insertion sort, `StableSort.SortBy`. `StableSort.SortByUnique` shows that every stable sort of the same input gives the same result.
- **The Java and Python differences are both kept:**
  - Java filters by key before decoding, and Python filters after. `Receiver.FilterOrderIrrelevant` proves that, for a filter key in 0..65535 (or any non-negative key), the two accept the same datagrams with the same values. The "accept all" filter -1 is different: Java accepts every well-formed packet, and Python rejects every packet (`Receiver.NegativeFilterDiffers`).
  - Java discovery counts every datagram of at least two bytes. Python counts only well-formed packets. `Discovery.PyCountsNoMoreThanJava` and `Discovery.CountsAgreeOnWellFormed` relate the two counts.

## Model

| member | source | states |
|---|---|---|
| Bytes.Put16 | iena_multicast_sender.py:121-128 | a 16-bit header field packs to two bytes that read back big-endian as the same value |
| Bytes.Put32 | iena_multicast_sender.py:121-128 | a 32-bit field packs to four bytes that read back big-endian as the same value |
| Bytes.BE32Local | src/main/java/dyn/DataStream.java:424-433 | a big-endian word depends only on its own four bytes |
| Schema.LayoutPartition | src/main/java/dyn/DataStream.java:171-173 | the expected size minus header and trailer is 4N; the size is even and half of it is 9 + 2N |
| Schema.DefaultParameters | src/main/java/dyn/DataStream.java:111-118 | the loop builds exactly the 26-entry default list: entry i is named `'a'+i`, has index i, an empty unit and range 0..i+1 |
| Schema.DefaultNames | src/main/java/dyn/DataStream.java:111-118 | the default schema's names are exactly "a" through "z" in order |
| Schema.Names | src/main/java/dyn/DataStream.java:174-176 | the name array has one entry per parameter, the i-th being parameter i's name |
| Schema.SortedParameters | src/main/java/dyn/DataStream.java:94 | the XidML parameter list sorted by index: sorted, a permutation of the input, and equal-index entries keep their order |
| Schema.DefaultSchemaInOrder | src/main/java/dyn/DataStream.java:111-118 | sorting the default schema by index leaves it unchanged, and its expected packet size is 122 |
| Schema.IndexedParams | iena_multicast_receiver.py:63-66 | each parameter is paired with its name and its index, a missing index defaulting to its position |
| Schema.XidmlOrderSpec | iena_multicast_receiver.py:63-69 | `load_xidml`'s names are a permutation of the parameter names, taken from a list sorted by index in which equal indices keep document order |
| Schema.XidmlOrderWithoutIndices | iena_multicast_receiver.py:65-69 | with no index attributes, names come out in document order |
| Codec.ParseIenaPacket | src/main/java/dyn/DataStream.java:421-440 | null exactly when `length < 16+4N+2` or the word at `16+4N` is not 0xDEAD; otherwise exactly N slots, slot i read big-endian at `16+4i` |
| Codec.ParseIenaKey | src/main/java/dyn/DataStream.java:446-449 | -1 exactly when `length < 2`; otherwise the big-endian word at offset 0, in 0..65535 |
| Codec.ParseJavaIgnoresHeaderAndPadding | src/main/java/dyn/DataStream.java:421-440 | header bytes 0..15 and everything past the expected size do not affect the decoded result |
| Codec.JavaReadsOnlyDatagram | src/main/java/dyn/DataStream.java:424 | buffer bytes past `length` affect neither the decode nor the key |
| Codec.ParsePy | iena_multicast_receiver.py:76-101 | `None` exactly when the data is shorter than 16+4N+2 bytes or the word at 16+4N is not 0xDEAD; otherwise key, size, time_us, status, sequence and n_params are the big-endian words at 0, 2, 4 (32 bits), 10, 12 and 14, and value i is the word at 16+4i |
| Codec.ParsersAgree | iena_multicast_receiver.py:76-101 | Python's parser accepts exactly the datagrams Java's accepts, with the same N values, and its key is Java's key |
| Codec.ParsePyIgnoresTimeLow | iena_multicast_receiver.py:84-101 | time_low (bytes 8-9) is unpacked but never affects the result |
| Sender.BuildIenaPacket | iena_multicast_sender.py:105-132 | a packet is built exactly when N equals the value count, the key fits 16 bits and the size field `9+2N` fits 16 bits; the packet length is `16+4N+2` |
| Sender.PackWordsAt | iena_multicast_sender.py:114 | payload word i reads back big-endian at offset 4i |
| Sender.HeaderFields | iena_multicast_sender.py:119-128 | header offsets 0,2,4,8,10,12,14 hold key, size, time_high, 0, 0, sequence field, N |
| Sender.PacketLayout | iena_multicast_sender.py:105-132 | a built packet carries the key, a size field of half the packet length, 9+2N, the masked clock, zero time_low and status, the wrapped sequence, N, each value at `16+4i`, and ends in 0xDE 0xAD |
| Sender.TrailerAtEnd | iena_multicast_sender.py:130-132 | a packet of the expected size ending in 0xDE 0xAD has the trailer where decoders look for it |
| Sender.RoundTripPy | iena_multicast_sender.py:105-132 | `parse_iena_packet` of a built packet returns the key, `9+2N`, the masked clock, status 0, the wrapped sequence, N and exactly the packed words |
| Sender.RoundTripJava | iena_multicast_sender.py:105-132 | `parseIenaPacket` of a built packet, in any buffer, returns exactly the packed words and `parseIenaKey` returns the key |
| Sender.SequenceWraps | iena_multicast_sender.py:127 | the sequence field is the counter modulo 65536: adding 65536 changes no byte, and 65535 is followed by 0 |
| Sender.LongerSchemaRejects | iena_multicast_receiver.py:78-82 | a packet built for N parameters is rejected by a parser expecting more than N |
| SenderArgs.SplitJoin | iena_multicast_sender.py:163 | `str.split(',')` loses nothing: rejoining the pieces with ',' gives the input back, and no piece holds ',' |
| SenderArgs.JoinSplit | iena_multicast_sender.py:141 | splitting a ','-join of comma-free pieces gives the pieces back |
| SenderArgs.StripSpec | iena_multicast_sender.py:163 | `str.strip()` removes exactly the leading and trailing whitespace: the result sits between all-space ends, is empty exactly for all-space input, and otherwise neither starts nor ends with a space |
| SenderArgs.ParseVarNames | iena_multicast_sender.py:163-167 | accepted name lists are non-empty and each name is non-empty, comma-free and stripped |
| SenderArgs.CleanNamesClean | iena_multicast_sender.py:163 | every name kept from comma-free pieces is clean |
| SenderArgs.RejectedIffBlank | iena_multicast_sender.py:166-167 | `--vars` is rejected exactly when it holds only commas and whitespace |
| SenderArgs.ParseJoinedNames | iena_multicast_sender.py:141-167 | joining clean names with ',' and parsing gives the same names back |
| Multicast.MulticastInterfacesMembers | src/main/java/dyn/DataStream.java:334-344 | an interface is in the multicast list exactly when it is enumerated, up, multicast-capable and not loopback |
| Multicast.UsableInterfacesMembers | src/main/java/dyn/DataStream.java:351-361 | an interface is usable exactly when it is enumerated, up and not loopback |
| Multicast.MulticastIsUsableWithMulticast | src/main/java/dyn/DataStream.java:334-361 | the multicast list is the usable list restricted to multicast-capable interfaces, in enumeration order |
| Multicast.FindMulticastInterfaces | src/main/java/dyn/DataStream.java:334-344 | the loop returns exactly the multicast-capable filter of the enumeration |
| Multicast.FindUsableInterfaces | src/main/java/dyn/DataStream.java:351-361 | the loop returns exactly the usable filter of the enumeration |
| Multicast.JoinedMembers | src/main/java/dyn/DataStream.java:389-398 | an interface is recorded exactly when it is eligible and its join succeeded |
| Multicast.JoinAllSpecCharacterised | src/main/java/dyn/DataStream.java:378-400 | with no eligible interface the group is joined once on the OS default (null) or the call fails; otherwise it never fails and records exactly the eligible interfaces whose join succeeded |
| Multicast.JoinGroupsRecordsOnlySuccesses | src/main/java/dyn/DataStream.java:477-486 | every recorded pair names a requested group whose name resolved and a successful join, on the requested interface when one was given and on an eligible one otherwise |
| Multicast.JoinLog.Memberships | src/main/java/dyn/DataStream.java:475-476 | the two parallel lists read as one list of (group, interface) pairs of the same length |
| Multicast.JoinLog.constructor | src/main/java/dyn/DataStream.java:475-476 | both lists start empty |
| Multicast.JoinLog.Record | src/main/java/dyn/DataStream.java:386-387 | one pair is appended to both lists, which stay of equal length |
| Multicast.JoinLog.JoinOn | src/main/java/dyn/DataStream.java:390-397 | a join on one interface records the pair exactly when the OS accepts it |
| Multicast.JoinLog.JoinOnAllInterfaces | src/main/java/dyn/DataStream.java:378-400 | the loop appends exactly the pairs of the join specification and reports whether it threw |
| Multicast.JoinLog.JoinOne | src/main/java/dyn/DataStream.java:478-485 | a group name that does not resolve fails with nothing recorded; otherwise the group is joined on the requested interface, or on all interfaces when none is requested |
| Multicast.UnresolvedGroupFails | src/main/java/dyn/DataStream.java:478 | if any group name does not resolve, the join sequence fails, whatever the interfaces and join answers |
| Multicast.JoinLog.JoinGroups | src/main/java/dyn/DataStream.java:477-486 | groups are joined in order; the log grows by the specification's pairs and the first failed join stops the loop |
| Multicast.JoinLog.LeaveAll | src/main/java/dyn/DataStream.java:403-412 | without a socket nothing is attempted; otherwise one leave per recorded pair, in order, failures ignored |
| Receiver.FilteredBeforeDecoding | src/main/java/dyn/DataStream.java:292-298 | with a filter, a datagram with another key (including a short one, key -1) is dropped before decoding; an accepted one has the filter's key |
| Receiver.NoFilterAcceptsEveryKey | src/main/java/dyn/DataStream.java:292-295 | with filter -1 the decode decides alone |
| Receiver.FilterOrderIrrelevant | src/main/java/dyn/DataStream.java:292-298 | for a filter key in 0..65535 (or any non-negative key), Java's filter-then-decode and Python's decode-then-filter accept the same datagrams with the same values |
| Receiver.NegativeFilterDiffers | src/main/java/dyn/DataStream.java:292-298 | with filter -1, Java decodes every well-formed packet, while Python's `pkt['key'] != key_filter` rejects every one |
| Receiver.StoreAllKeys | src/main/java/dyn/DataStream.java:300-302 | storing the slots adds exactly the parameter names to the cache's key set |
| Receiver.StoreAllOthers | src/main/java/dyn/DataStream.java:300-302 | keys that are not parameter names keep their values |
| Receiver.StoreAllLastWriter | src/main/java/dyn/DataStream.java:300-302 | a name maps to the slot of its last occurrence |
| Receiver.ArriveEffect | src/main/java/dyn/DataStream.java:288-303 | a dropped datagram changes nothing; an accepted one stores each slot under its name and gives every listener, in order, the same snapshot of the updated cache |
| Receiver.StopEndsRun | src/main/java/dyn/DataStream.java:280 | once a stop is observed, later events have no effect |
| Receiver.RunKeepsKeys | src/main/java/dyn/DataStream.java:280-304 | the cache's key set never changes while the loop runs |
| Receiver.RunExtendsDeliveries | src/main/java/dyn/DataStream.java:544-549 | deliveries are only appended, never altered, so a delivered snapshot stays as delivered |
| Receiver.DataStream.constructor | src/main/java/dyn/DataStream.java:163-179 | `numParams = N`, `payloadSize = 4N`, `expectedPktSize = 16+4N+2`; every name maps to 0; no listeners; not running |
| Receiver.DataStream.GetVariableNames | src/main/java/dyn/DataStream.java:191-193 | the parameter names in list order |
| Receiver.DataStream.GetVariables | src/main/java/dyn/DataStream.java:558-560 | the cache's key set is exactly the set of parameter names |
| Receiver.DataStream.Start | src/main/java/dyn/DataStream.java:223-228 | sets `running`, nothing else |
| Receiver.DataStream.Stop | src/main/java/dyn/DataStream.java:551-556 | clears `running`, nothing else |
| Receiver.DataStream.AddListener | src/main/java/dyn/DataStream.java:535-537 | appends the listener, nothing else |
| Receiver.DataStream.ClearListeners | src/main/java/dyn/DataStream.java:540-542 | empties the listener list, nothing else |
| Receiver.DataStream.NotifyListeners | src/main/java/dyn/DataStream.java:544-549 | one delivery of the current cache per listener, in registration order |
| Receiver.DataStream.StoreSlots | src/main/java/dyn/DataStream.java:300-302 | the cache becomes the specification's in-order `put` of every slot, and its key set is unchanged |
| Receiver.DataStream.ReceiveOne | src/main/java/dyn/DataStream.java:288-303 | accepts exactly what the filter and decoder accept; the new state is the specification's step |
| Receiver.DataStream.ReceiveLoop | src/main/java/dyn/DataStream.java:280-304 | the loop's final state is the specification's run over the events |
| Receiver.DataStream.Listen | src/main/java/dyn/DataStream.java:230-314 | in multicast mode the group is joined first and every recorded pair is left at the end; a group name that does not resolve or a failed join skips the loop; otherwise the state is the run over the events |
| PyReceiver.Push | iena_multicast_receiver.py:220-222 | appending to a deque of maxlen 10000: the new item is last, the length is capped, and the result is the tail of old + item |
| PyReceiver.PushDropsOldest | iena_multicast_receiver.py:220-222 | on a full deque the oldest item is dropped |
| PyReceiver.PushKeeps | iena_multicast_receiver.py:220-222 | below the bound every old item is kept |
| PyReceiver.AppendAll | iena_multicast_receiver.py:250-251 | appending the values never changes the set of series |
| PyReceiver.AppendAllOthers | iena_multicast_receiver.py:250-251 | a series that is not a parameter is untouched |
| PyReceiver.AppendAllDistinct | iena_multicast_receiver.py:250-251 | with distinct names each series gets exactly its own value appended |
| PyReceiver.AppendKeepsAligned | iena_multicast_receiver.py:247-252 | with distinct names, series aligned with the timestamps stay aligned after one packet |
| PyReceiver.AppendAllBounded | iena_multicast_receiver.py:220-224 | no series grows past 10000 |
| PyReceiver.BeforeStop | iena_multicast_receiver.py:237 | the events the loop handles are a prefix of the events with no stop in it |
| PyReceiver.BeforeStopEnds | iena_multicast_receiver.py:237 | the handled prefix ends at the first stop: the event after it is a stop request |
| PyReceiver.StopSeen | iena_multicast_receiver.py:237 | a stop is among the events exactly when the loop does not handle all of them |
| PyReceiver.PushWindow | iena_multicast_receiver.py:220-222 | a bounded deque always holds the last 10000 items appended to it: pushing onto that window gives the window of the longer history |
| PyReceiver.PyStepSeries | iena_multicast_receiver.py:243-251 | with distinct names, an accepted packet appends its slot `j` to series `j`, and any other event leaves the series alone |
| PyReceiver.PyRunCount | iena_multicast_receiver.py:243-252 | after the events, the count has grown by exactly the number of arrivals that parse and carry the key |
| PyReceiver.PyRunTimestamps | iena_multicast_receiver.py:243-249 | after the events, the timestamp deque is the last 10000 of its old entries followed by the arrival times of the accepted packets |
| PyReceiver.PyRunSeries | iena_multicast_receiver.py:243-251 | with distinct names, after the events series `j` is the last 10000 of its old values followed by slot `j` of every accepted packet |
| PyReceiver.IenaMulticastReceiver.constructor | iena_multicast_receiver.py:209-225 | one empty series per name, no timestamps, count 0, running |
| PyReceiver.IenaMulticastReceiver.Stop | iena_multicast_receiver.py:276-277 | clears `_running`, nothing else |
| PyReceiver.IenaMulticastReceiver.AppendValues | iena_multicast_receiver.py:250-251 | the series become the specification's append of each value |
| PyReceiver.IenaMulticastReceiver.AppendEach | iena_multicast_receiver.py:250-251 | the loop over the names appends value `i` to series `names[i]`, the specification's append of each value |
| PyReceiver.IenaMulticastReceiver.ReceiveOne | iena_multicast_receiver.py:243-252 | accepts exactly a packet that parses and has the filter's key; a rejected one changes nothing; an accepted one appends one timestamp, one value per series and adds 1 to the count |
| PyReceiver.IenaMulticastReceiver.Handle | iena_multicast_receiver.py:237-252 | one loop iteration: a stop clears `running` and changes no data; any other event leaves `running` and gives exactly the state `PyStep` computes (an accepted arrival pushes its time and values and counts itself, anything else changes nothing) |
| PyReceiver.IenaMulticastReceiver.Listen | iena_multicast_receiver.py:231-254 | the data becomes `PyRun` over the events before the first stop; `running` stays true exactly when no stop came; the count grows by the accepted packets and the timestamp deque by as many up to 10000; with distinct names all deques keep equal length |
| PyReceiver.IenaMulticastReceiver.HandleUntilStop | iena_multicast_receiver.py:237-252 | the `while self._running` loop handles exactly the events before the first stop, leaving the data `PyRun` computes, and ends running exactly when a stop came |
| Discovery.OccurrencesMatching | src/main/java/dyn/DataStream.java:505-510 | the count of an identity equals the number of datagrams of at least two bytes with that key and source |
| Discovery.FirstSeenMembers | src/main/java/dyn/DataStream.java:489-512 | the insertion-ordered key list holds each seen identity exactly once |
| Discovery.TallyFacts | src/main/java/dyn/DataStream.java:520-526 | before sorting, one entry per identity, each carrying its occurrence count, and every seen identity has one |
| Discovery.ResultsMembers | src/main/java/dyn/DataStream.java:520-527 | sorting keeps exactly the entries of the tally |
| Discovery.ResultsCounts | src/main/java/dyn/DataStream.java:505-527 | each result's count is its matching-datagram count and at least 1; an identity has a result exactly when some datagram matches it |
| Discovery.ResultsUnique | src/main/java/dyn/DataStream.java:489-527 | each (key, source) pair appears once |
| Discovery.ResultsOrdered | src/main/java/dyn/DataStream.java:527 | results are sorted by key, and entries with equal keys keep first-seen order |
| Discovery.CountStreams | src/main/java/dyn/DataStream.java:498-513 | the loop's key list is the first-seen order and each count is the number of occurrences |
| Discovery.CountDatagram | src/main/java/dyn/DataStream.java:505-512 | one iteration keeps the counting invariant: a datagram of at least two bytes is counted under its (key, source) identity, appended to the key order the first time; a shorter one is skipped |
| Discovery.CountOne | src/main/java/dyn/DataStream.java:510 | `computeIfAbsent(...)[0]++` keeps the key order equal to first-seen order and every count equal to the identity's occurrences |
| Discovery.BuildResults | src/main/java/dyn/DataStream.java:520-526 | one StreamInfo per key, in map order, carrying its count |
| Discovery.CountAndSort | src/main/java/dyn/DataStream.java:489-527 | counting then sorting produces exactly the specified results |
| Discovery.DiscoverStreams | src/main/java/dyn/DataStream.java:467-529 | an unresolvable group name or a failed join surfaces as an error with no results; otherwise the specified results, after leaving every recorded pair |
| Discovery.PyDiscoverStreams | iena_multicast_receiver.py:145-162 | each (key, source) of a well-formed packet is counted exactly by its matching packets, and no other identity appears |
| Discovery.PyCountsNoMoreThanJava | iena_multicast_receiver.py:151-153 | Python's count of an identity never exceeds Java's |
| Discovery.CountsAgreeOnWellFormed | iena_multicast_receiver.py:151-157 | when every datagram is well-formed, both counts agree |
| StableSort.SortBy | src/main/java/dyn/DataStream.java:527 | the result is sorted by key and a permutation of the input |
| StableSort.SortByStable | src/main/java/dyn/DataStream.java:527 | elements with equal keys keep their relative order |
| StableSort.SortedSameClassesEqual | src/main/java/dyn/DataStream.java:527 | two sorted sequences that agree, key by key, on the order of their elements are equal |
| StableSort.SortByUnique | src/main/java/dyn/DataStream.java:527 | any sorted arrangement that keeps equal-key order is the result of `SortBy`, so any stable sort gives it |
| StableSort.SortBySorted | src/main/java/dyn/DataStream.java:94 | an already sorted list is left unchanged |

## Left out

- Sockets: creation, bind, `setReuseAddress`, timeouts, `close` and their errors are operating-system I/O. The join and leave calls are kept only as answers passed in as functions. Socket-creation failure is not modelled.
- Receive size: the 4096-byte receive buffers are not modelled. A Java datagram is a buffer with a length, and a Python datagram is the bytes received.
- Threads: `interrupt`, `volatile`, `ConcurrentHashMap`, Python's lock and thread start are concurrency machinery. A `stop()` or `addListener` from another thread is an event observed between two iterations of the loop. A datagram already being received when `stop()` is called is treated as arriving before the stop.
- Receiver.Step, Receiver.Fanout: listeners are assumed not to throw and not to call `addListener` or `clearListeners` from inside their callback. In the Java code, either one would leave `notifyListeners` after only some of the listeners got the snapshot (an exception or a `ConcurrentModificationException` on the `ArrayList`). That exception ends the receive loop through the catch at DataStream.java:305-309, and the groups are then left. The model's listeners are identifiers that always accept a delivery, so `Fanout` reaches every listener and `Run` goes on. `ArriveEffect` and `RunExtendsDeliveries` rely on this.
- Receiver.DataStream.Listen: a receive error ends the loop (the `ReceiveFailed` event). The error logging, which depends on `running`, is not modelled.
- Clocks: `datetime.now()`, `time.time()`, `time.monotonic()` and the discovery deadline are clock reads. Microseconds since midnight and arrival times are parameters, and a discovery scan is the finite list of datagrams received before the deadline.
- Floating point: decoding a word as an IEEE float32, the `float` to `double` widening, Python's rounding of a double to float32 in `struct.pack` (and its overflow error), `packetsPerSecond`/rate, and `generate_random_values` are IEEE arithmetic. A payload value is the 32-bit word that is sent.
- XML: parsing and writing (`loadXidML`'s DOM reads, `generate_xidml`) are library wrappers. Only the sort by index is modelled, and a malformed index (`int()`/`Integer.parseInt` failing) is not.
- `getConnectionInfo`, `keyHex` and `getIPv4Address` are string formatting over `NetworkInterface`/`InetAddress`. They are not part of this model.
- UI and scripts: `get_data`, `choose_stream`, `run_live_plot`, `main`'s argparse, and all JavaFX panels and windows (ConnectionWindow.java, MainApp.java, LayoutManager.java, PlotPanel.java, BarPanel.java, DraggablePanel.java, NumericPanel.java) are presentation. They are not part of this model.
- Multicast.JoinLog.JoinOnAllInterfaces: the interface enumeration is one list given as a parameter. The `SocketException` it may throw is not modelled.
- Discovery.CountStreams: Java's `int[]` counters are unbounded here, so 32-bit overflow after 2^31 packets is not modelled. The `key + "|" + srcIp` string key is modelled as the pair (key, source). The two are equivalent because the key is a decimal number without `|`.
- Discovery.DiscoverStreams: a join failure propagates without leaving the groups already joined, as in the source. Closing the socket is not modelled.
- Discovery.DiscoverStreams, Discovery.PyDiscoverStreams, PyReceiver.IenaMulticastReceiver.Listen: only a timeout is caught around the receive call (`SocketTimeoutException` at DataStream.java:499-503, `socket.timeout` at iena_multicast_receiver.py:146-149 and 239-242). Any other receive error is not modelled. In Java it leaves `discoverStreams` without leaving the groups or closing the socket. In Python it aborts `discover_streams`, or ends the `_listen` thread with `_running` still true, so later datagrams are never handled. These members' inputs are the datagrams or events received without such an error.
- Multicast.JoinOneSpec, Multicast.JoinGroupsSpec, Multicast.JoinLog.JoinGroups, Receiver.DataStream.Listen, Discovery.DiscoverStreams: a group listed twice is joined twice and recorded twice, as the join answer is a function of the group and the interface only. The operating system may refuse a second join of the same group on the same interface. Java then skips that interface (the catch at DataStream.java:394-397) or throws. That history-dependent answer is not modelled. Name resolution is modelled (`resolves`).
- Receiver.FilterOrderIrrelevant: proved for non-negative filters only. With the filter -1 the two receivers differ, as `Receiver.NegativeFilterDiffers` states.
- PyReceiver.IenaMulticastReceiver.Listen: equal deque lengths are proved only for distinct parameter names, and so is the per-series content (`PyReceiver.PyRunSeries`). A repeated name in Python appends twice per packet to the same series. `PyRun` still gives the exact state in that case.
- Sender: the `sequence += 1` loop in `main` and the socket send are I/O plumbing. The sequence counter is a parameter, and its wrapping is `Sender.SequenceWraps`.
- `struct.pack` errors are modelled through `Sender.BuildIenaPacket`'s `Failure`. The error's exact message is not.
