# HawkTracer: a model and its proofs

HawkTracer records timed events in a program, buffers them, writes them to a file or a socket as a stream
that describes itself, and reads that stream back. This project models, in Dafny, the parts of it that have
exact specifications, and proves what those parts promise:

* **The stream** (`Bytes`, `Endianness`, `EventKlasses`, `Registry`, `CoreRegistry`, `Metadata`,
  `KlassRegister`, `ProtocolReader`, `InputStream`, `ChunkedStream`, `Reader`, `Decoding`, `Learning`,
  `RoundTrip`, `Modes`, `WireFormat`, `Delivered`, `Truncation`). The writer emits metadata about every registered class and then events; the parser
  learns the classes from the metadata and decodes the events with what it has learned. Main result: for every
  registry and every sequence of events, on machines of any byte order, the parser uses up every byte and
  delivers the metadata and exactly the events; over the network, where bytes come out as signed characters,
  if and only if every string is made of bytes below 0x80. A recording that breaks off at any byte delivers
  the events that are whole before it.
* **The pipeline** (`ListenerBuffer`, `Timelines`, `FileDump`, `Recording`, `Interleaving`, `TcpListener`,
  `NetworkThreads`, `Tracing`). Two levels of buffering lose, split and reorder nothing, for every buffer
  size, either way of serialising and every interleaving of threads; composed with the stream, a traced
  program is read back whole.
* **The call graph** (`CallGraph`, `CallContexts`, `CallCosts`, `Callgrind`, `CostListing`, `CostContexts`).
  The cursor-driven tree builder computes the calling-context tree of nested intervals, costs are conserved,
  and the listing prints every calling context once, with the counts and times of its events.
* **Data structures of the library** (`Bags`, `HashMaps`, `HashMapObject`, `Scheduling`, `SchedulingTimes`,
  `SchedulerObject`, `StackObject`, `Callstack`, `ScopedTracing`, `Hash`, `CachedStrings`,
  `CachedStringThreads`), under any pattern of failures of the allocations that grow or shrink them.
* **The topological sort** of the amalgamation tool (`TopologySort`).

Code that computes values is modelled by functions. Code that updates state is modelled by a class whose
methods are proved equal to functions on values, and the results over whole runs are lemmas about those
functions. Allocation failures, clock readings, callback results and the arrival of network data are
parameters, so that every result holds for all of them.

Where the code and its documentation disagree, the model follows the code: `add_mapping_dynamic` returns an
identifier it has not announced when memory runs out (`UnannouncedIdentifier`), an identifier can be returned
to one thread before another has announced it (`ReturnedBeforeAnnounced`), labels with one hash share an
identifier (`CollidingLabels`), a stop completes another start than its own once a start was lost
(`StopIsForItsStart`), strings with bytes of 0x80 or more cannot be read over the network stream
(`Tracing.ClientReads`, `Tracing.AccentedLabelIsLost`), nested decoding drops the header of the first event,
of the two metadata classes and of classes derived from them (`Modes.ModesAgree`), and the topological sort
also stops on a node named by the empty string (`TopologySort.Graph.Sort`).

`dafny verify dfyconfig.toml` checks the whole project.

## Model

| member | source | states |
|---|---|---|
| `EndiannessConvert.SwapIsByteReversal` | parser/include/hawktracer/parser/endianness_convert.hpp:31-76 | The shift-and-mask swaps of 2, 4 and 8 byte words reverse the bytes of the word. |
| `EndiannessConvert.ConversionReadsForeignOrder` | parser/include/hawktracer/parser/endianness_convert.hpp:31-76 | Loading a word on the host and converting it gives the number a machine of the stream's byte order stored, for every width and pair of orders. |
| `EventKlasses.SerializeHeader` | lib/events.c:13-22 | Three copies at a moving offset write class id, timestamp and event id and touch nothing else of the buffer. |
| `EventKlasses.SerializeFields` | lib/include/hawktracer/event_macros.h:24-37 | The fields of a class are written one behind the other from the current offset; the rest of the buffer stays. |
| `EventKlasses.SerializedSplit` | lib/include/hawktracer/event_macros.h:48-55 | An event on the wire, and its size, is that of its base class followed by its own fields. |
| `EventKlasses.Serialize` | lib/include/hawktracer/event_macros.h:48-55 | The generated function writes exactly `get_size` bytes, the base structure at the start of the buffer, then the fields, and leaves the rest of the buffer alone. |
| `WireFormat.FieldTypes` | parser/event_klass.cpp:53-90 | Data type 1 is a structure, 2 a string, 6 a pointer, 3 and 99 are signed and unsigned integers of 1, 2, 4 or 8 bytes; every other pair of size and data type makes the parser throw. |
| `WireFormat.FieldCodes` | lib/registry.c:203-223 | The data type and the size each kind of field is described with: 3 signed, 99 unsigned, 2 a string of 8 bytes, 1 the base with its name and size, 6 the class pointer; the fields of a class in order behind its base. |
| `WireFormat.OrderCodes` | lib/include/hawktracer/base_types.h:87-93 | Little endian is 0 and big endian 1, for the writer and for the reader; the reader takes any other code for the order opposite to its own. |
| `WireFormat.EventWords` | parser/klass_register.cpp:8-33 | The names of the header fields, of the base and of the byte order. |
| `WireFormat.MetadataWords` | parser/klass_register.cpp:48-84 | The names under which the parser looks up what an event teaches it. |
| `WireFormat.ImageAt` | lib/include/hawktracer/event_macros.h:24-37 | Byte i of an integer of any width is its i-th digit in base 256, from the front in little and from the back in big endian. |
| `WireFormat.StoreLoad` | parser/protocol_reader.cpp:185-212 | Every byte string is the image of the number read from it. |
| `WireFormat.HeaderImage` | lib/events.c:13-22 | The twenty bytes of a concrete header in each byte order. |
| `WireFormat.EndiannessBytes` | lib/system_info.c:31-47 | The first event of a stream is twenty zeros and the code of the byte order. |
| `WireFormat.SystemInfoBytes` | lib/system_info.c:12-29 | The last event of the metadata is class identifier 8 in the byte order of the machine, sixteen zeros, and the major, the minor and the patch version. |
| `WireFormat.KlassInfoBytes` | lib/registry.c:192-201 | The bytes that describe a class: header with class identifier 2, identifier, name, number of fields modulo 256. |
| `WireFormat.FieldInfoBytes` | lib/registry.c:203-223 | The bytes that describe a field: header with class identifier 3, class, type, name, size, data type. |
| `WireFormat.CallstackBytes` | lib/include/hawktracer/core_events.h:22-32 | Header, eight bytes of duration, four of thread, then the label as eight bytes or as a string. |
| `WireFormat.StringMappingBytes` | lib/include/hawktracer/core_events.h:34-36 | Header, eight bytes of identifier, then the label. |
| `CoreRegistry.CoreRegistryIsValid` | lib/init.c:20-28 | The classes registered at start-up meet every condition of the results about streams: they are well formed, have distinct names and registered bases. |
| `CoreRegistry.RegisterKeepsValid` | lib/registry.c:100-116 | Registering a well-formed class of a new name on a registered base keeps those conditions and every identifier. |
| `CoreRegistry.EventKlassRegistry.constructor` | lib/init.c:20-28 | The registry starts with the core classes. |
| `CoreRegistry.EventKlassRegistry.Register` | lib/registry.c:100-116 | A class is added once, at the end, under its position as identifier; a failed allocation changes nothing. |
| `KlassTable.KlassRegister.constructor` | parser/klass_register.cpp:8-33 | A new register holds exactly the four built-in classes. |
| `KlassTable.KlassRegister.AddParsedKlass` | parser/klass_register.cpp:112-119 | The first class under an identifier stays. |
| `KlassTable.KlassRegister.HasFieldNamed` | parser/event_klass.cpp:104-109 | The search over the fields a class has itself finds a name if and only if one of them has it. |
| `KlassTable.KlassRegister.AddFieldTo` | parser/event_klass.cpp:43-50 | A field is appended unless its name is taken; an unknown class is an error. |
| `KlassTable.KlassRegister.FindKlass` | parser/klass_register.cpp:98-110 | Finds the class of that name registered first, or none. |
| `KlassTable.SearchOrderIrrelevant` | parser/klass_register.cpp:98-110 | The source searches a hash table: where no two classes share a name, every order of search finds the same class, or none. |
| `KlassTable.KlassRegister.HandleRegisterEvents` | parser/klass_register.cpp:48-84 | What an event teaches the register, for the two metadata classes and for all others, including the cases that throw; the types it makes of sizes and data types are those of `FieldTypes`. |
| `ProtocolReader.ParserConsumes` | parser/protocol_reader.cpp:63-106 | Whatever the bytes and the register, an event is delivered only by consuming some of the input, so the reading loop ends. |
| `ProtocolReader.DeliversRun` | parser/protocol_reader.cpp:63-106 | If events are delivered one after the other until no further step is possible, they are what the reading loop delivers. |
| `Decoding.NumericRoundTrip` | parser/protocol_reader.cpp:185-212 | A stored integer of any width is read back, whatever the byte orders of the stream and the host. |
| `Decoding.TextRoundTrip` | parser/protocol_reader.cpp:141-183 | A string is read back up to its terminating zero. |
| `Decoding.FieldMapAt` | parser/event.cpp:115-123 | With distinct names every value is found under its own field's name. |
| `Decoding.BaseRoundTrip` | parser/protocol_reader.cpp:214-240 | The fields of a class and of all its bases are read back through the recursion on base classes, in both modes; over a stream of signed characters exactly when their strings are seven-bit, and otherwise reading fails. |
| `Decoding.EventRoundTrip` | parser/protocol_reader.cpp:112-139 | With every class known, the body of an event of any registered class decodes to its values and uses exactly its bytes; over a stream of signed characters exactly when its strings are seven-bit, and otherwise reading fails. |
| `Learning.LearnKlassRecord` | parser/klass_register.cpp:52-57 | A class description adds that class, without fields, unless it is known. |
| `Learning.LearnFieldRecord` | parser/klass_register.cpp:58-80 | A field description adds that field with the type its size and data type name; fields of built-in classes are ignored. |
| `Learning.PartialStep` | parser/klass_register.cpp:58-84 | Each field description extends the class being described by exactly that field. |
| `Learning.HoldsKnowsAll` | parser/klass_register.cpp:48-125 | Once all descriptions are handled, the register decodes every registered class. |
| `RoundTrip.HeaderRoundTrip` | parser/protocol_reader.cpp:65-76 | The event header is read back from the head of any bytes. |
| `RoundTrip.StepRoundTrip` | parser/protocol_reader.cpp:63-106 | One turn of the reading loop on a serialised event delivers that event and leaves the rest, or ends the loop if the event is not legible on this stream. |
| `RoundTrip.FirstStep` | parser/protocol_reader.cpp:100-103 | The first event is understood before the byte order is known, and sets it. |
| `RoundTrip.RegistryDelivers` | parser/klass_register.cpp:48-84 | Reading the metadata delivers it, up to the first event that is not legible, and teaches the parser the classes one by one. |
| `RoundTrip.ItemsDeliver` | parser/protocol_reader.cpp:63-106 | With every class known, a run of serialised events is delivered in order, up to the first one that is not legible. |
| `RoundTrip.StreamRoundTrip` | parser/protocol_reader.cpp:63-240 | For every registry, event sequence, writer and host byte order, mode and kind of stream: the parser delivers the metadata and then the events with their values, up to the first one that is not legible on the stream, and never crashes; if all are, as in a file, it consumes the whole stream and ends knowing every class. |
| `Modes.ByteOrderIsUnobservable` | parser/protocol_reader.cpp:100-103 | Little and big endian writers read on little and big endian hosts, from files or over the network, deliver the same events after the one that names the order. |
| `Modes.FlatFieldValue` | parser/event.cpp:96-123 | Flat mode reports every field of the class and of each base under its own name; of namesakes, that of the base nearest to HT_Event. |
| `DeliveredEvents.FlatField` | parser/protocol_reader.cpp:214-240 | An event delivered in flat mode holds every field of its class and of each base under its name; of namesakes, that of the base nearest to HT_Event. |
| `DeliveredEvents.FlatHeader` | parser/protocol_reader.cpp:65-106 | In flat mode the class identifier, timestamp and event id are there under their names, unless a field has the name. |
| `DeliveredEvents.NestedField` | parser/protocol_reader.cpp:112-139 | In nested mode an event holds every field of its own class under its name. |
| `DeliveredEvents.NestedBase` | parser/protocol_reader.cpp:214-240 | In nested mode the base is an event of the base class with the base fields, down to the header; only events that describe classes and fields have none. |
| `DeliveredEvents.HeadDelivered` | lib/timeline_listener.c:201-211 | For every registry, in both modes, by name: the first event holds the code of the byte order; then come, class by class, its identifier, name and number of fields modulo 256, and for each field class, type, name, size and data type; then version_major, version_minor and version_patch. |
| `Modes.ModesAgree` | parser/protocol_reader.cpp:65-106 | For every event of every stream, the first one and the metadata included: flattening the event of nested mode gives the event of flat mode if and only if it keeps its header and no field hides a header field with another value, or it loses its header and its fields hide all of it. Where no field is named like a header field, that is every event but the first and those of a metadata class or of a class derived from one. |
| `Modes.MetadataLosesHeader` | parser/protocol_reader.cpp:214-240 | Events of the metadata classes and of classes derived from them report no header anywhere in nested mode, and all of it in flat mode. |
| `Modes.ModesConsumeAlike` | parser/protocol_reader.cpp:112-139 | On any bytes, any register and either kind of stream both modes consume the same bytes, fail together and crash together. |
| `Reader.EventReader.constructor` | parser/protocol_reader.cpp:15-23 | A reader starts with the built-in classes, little endian, at the first byte of its stream. |
| `InputStreams.InputStream.ReadByte` | parser/file_stream.cpp:37-40 | The next byte as a number, or -1 at the end: a file gives 0 to 255, the network a signed character. |
| `InputStreams.InputStream.ReadData` | parser/file_stream.cpp:31-35 | On either stream, for every size: exactly when it succeeds, a read of no bytes included, and that it then reads exactly those bytes. |
| `Reader.EventReader.ReadString` | parser/protocol_reader.cpp:141-183 | The loop with its doubling buffer reads the string up to its zero; it fails at the end of the stream and, over the network, if and only if a byte of the string is 0x80 or more. |
| `Reader.EventReader.ReadNumericField` | parser/protocol_reader.cpp:185-212 | Reads and converts an integer; other types are errors. |
| `Reader.EventReader.ReadStruct` | parser/protocol_reader.cpp:214-240 | Nested structures: the header, a known class, or a crash on an unknown or cyclic one. |
| `Reader.EventReader.ReadEvent` | parser/protocol_reader.cpp:112-139 | The loop over fields computes the specification of event bodies, errors included. |
| `Reader.EventReader.ReadNext` | parser/protocol_reader.cpp:65-106 | One turn of the loop does what one step of the specification says. |
| `Reader.EventReader.ReadEvents` | parser/protocol_reader.cpp:63-110 | The whole loop ends and delivers, learns and stops exactly as the specification of runs says. |
| `Metadata.MetadataPusher.Append` | lib/registry.c:233-240 | An event is put behind the buffered ones. |
| `Metadata.MetadataPusher.PushItem` | lib/registry.c:233-240 | A metadata event is buffered; the buffer is handed over first if and only if the event does not fit in 4096 bytes behind what it holds. Blocks stay whole events and as full as they can be. |
| `Metadata.MetadataPusher.PushKlass` | lib/registry.c:225-258 | Pushes the description of a class and of each of its fields, in order, with the bytes of `KlassInfoBytes` and `FieldInfoBytes`. |
| `Metadata.MetadataPusher.PushRegistry` | lib/registry.c:260-285 | The classes are described in order of their identifiers, in blocks of whole events of at most 4096 bytes, none of which had room for the event behind it, and nothing stays behind. |
| `Metadata.PushMetadata` | lib/timeline_listener.c:201-211 | The listener gets the byte order, the description of every class and the version, in blocks of whole events: the first is twenty zeros and the code of the order, the last the version in the order major, minor, patch, and those between are as full as the buffer allows. |
| `CallGraph.AddEventAdds` | client/call_graph.cpp:25-91 | Adding an event changes one node, one list of calls and one caller's charge, and nothing else. |
| `CallGraph.AddedTree` | client/call_graph.cpp:25-91 | Every added event keeps the structure a tree whose siblings have different labels. |
| `CallGraph.PathInjective` | client/call_graph.cpp:25-50 | Different nodes have different label paths. |
| `CallContexts.ClimbChain` | client/call_graph.cpp:64-82 | Climbing from the cursor finds the deepest node above it that contains the event. |
| `CallContexts.CallingContextTree` | client/call_graph.cpp:10-91 | On distinct starts and intervals that nest or do not overlap: each event lands on the node whose path is the labels enclosing it and its own; counts and totals are those of the events with that path. |
| `CallCosts.CostConservation` | client/call_graph.cpp:25-62 | On every input: totals add up to all durations, and what a node charges its callees is the sum of their totals. |
| `CallCosts.SelfTimeIsExact` | client/call_graph.cpp:25-62 | On nested or disjoint intervals no node is charged more than it took, and no total exceeds an end time: the unsigned difference is exact. |
| `Callgrind.GraphBuilder.Find` | client/call_graph.cpp:30-33 | The first call of that label, or the end of the list. |
| `Callgrind.GraphBuilder.AddNewCall` | client/call_graph.cpp:25-50 | Merges into the callee of that label or appends one. |
| `Callgrind.GraphBuilder.Add` | client/call_graph.cpp:57-91 | The climb and the in-place updates compute one step of the specification and keep the tree. |
| `Callgrind.GraphBuilder.Make` | client/call_graph.cpp:10-23 | The builder computes the specification on the events in order of their starts. |
| `Callgrind.SortedOrders` | client/call_graph.cpp:13-16 | That order is sorted by start and keeps every event. |
| `CostListing.PrintCallees` | client/callgrind_converter.cpp:43-53 | A block holds the self cost and, per callee in order, name, count and cost, and queues exactly the callees. |
| `CostListing.PrintFunction` | client/callgrind_converter.cpp:36-56 | The breadth-first walk ends, prints every node below the root exactly once under the names of its callers, behind the root the callees of each node in turn, and its self costs add up to the root's total. |
| `CostListing.ListThread` | client/callgrind_converter.cpp:57-73 | Each node of a thread's graph is printed in exactly one listing of the file, and each listing accounts for its root. |
| `CostContexts.CallsRise` | client/call_graph.cpp:25-50 | On every input callees are kept in the order their nodes were created in. |
| `CostContexts.NodesNumbered` | client/call_graph.cpp:25-50 | On nested or disjoint intervals nodes are created in the order in which their calling contexts first occur. |
| `CostContexts.NameIsPath` | client/callgrind_converter.cpp:36-56 | A function is printed under its label and those of its callers, outermost last. |
| `CostContexts.BlocksAreContexts` | client/callgrind_converter.cpp:36-73 | On nested or disjoint intervals, from the events alone: every block is a calling context under its name; its callees are its contexts with one more label, in the order they were first called in, each with the number and the time of its events; its own cost is the time of its events less that of its callees. |
| `CostContexts.EveryContextIsListed` | client/callgrind_converter.cpp:57-73 | The calling context of every event has a block. |
| `ListenerBuffers.FillKeepsBytes` | lib/listener_buffer.c:40-67 | Copying serialised bytes through the buffer keeps every byte in order, flushes only full blocks and never ends with a full buffer, also when it starts with one. |
| `ListenerBuffers.SpillKeepsBytes` | lib/listener_buffer.c:69-92 | Serialising late keeps every event in order and never overflows the buffer. |
| `ListenerBuffers.SpillSplits` | lib/listener_buffer.c:69-92 | The blocks are whole events, each had no room for the event that starts the next, and what is left follows the last. |
| `ListenerBuffers.ListenerBuffer.constructor` | lib/listener_buffer.c:11-32 | A new buffer of the given size is empty. |
| `ListenerBuffers.ListenerBuffer.Flush` | lib/listener_buffer.c:94-101 | Hands over exactly what was pending. |
| `ListenerBuffers.ListenerBuffer.ProcessSerialized` | lib/listener_buffer.c:40-67 | The copy loop ends and flushes the blocks of the specification; without a buffer everything is one block. |
| `ListenerBuffers.ListenerBuffer.ProcessUnserialized` | lib/listener_buffer.c:69-92 | The serialising loop flushes the blocks of the specification. |
| `Timelines.FlushKeepsEvents` | lib/timeline.c:32-40 | A flush hands over exactly what was held. |
| `Timelines.PushKeepsEvents` | lib/timeline.c:49-108 | A push hands over or keeps every event, in order, including events larger than the buffer, in both modes. |
| `Timelines.PushNotifiesWhen` | lib/timeline.c:49-108 | A push notifies if and only if the bytes in use and the new event exceed the capacity; otherwise the event is held behind the others. It is handed over at once, alone, if and only if it is larger than the capacity. For serialised bytes and for structures. |
| `Timelines.FlushNotifiesWhen` | lib/timeline.c:32-40 | A flush notifies once, with everything held, if anything is. |
| `Timelines.GroupsPacked` | lib/timeline.c:49-108 | Over every series of pushes: the groups and what is held are the events in order, a group of several events fits the capacity, and no group had room for the event behind it. |
| `Timelines.RunFits` | lib/timeline.c:32-108 | Over every run of pushes and flushes a group of several events fits the capacity. |
| `Timelines.Timeline.constructor` | lib/timeline.c:198-231 | A new timeline holds nothing. |
| `Timelines.Timeline.Flush` | lib/timeline.c:32-40 | Empties the buffer into one notification, serialised or as structures, and into none when it is empty. |
| `Timelines.Timeline.Push` | lib/timeline.c:49-108 | The notifications of a push and the new contents of the byte buffer or of the copied structures, with the sizes that decide between holding the event, flushing the others first and handing it over alone. |
| `FileDump.ReceiveKeepsBytes` | lib/listeners/file_dump_listener.c:125-148 | A running listener appends exactly the bytes of a notification. |
| `FileDump.ReceiveWrites` | lib/listeners/file_dump_listener.c:125-148 | What reaches the file at once: everything without a buffer; whole buffers of serialised bytes, less than one being left; structures only if they do not fit behind what is pending. |
| `FileDump.FileDumpListener.constructor` | lib/listeners/file_dump_listener.c:42-56 | A new listener has an empty file and an empty buffer of the given size. |
| `FileDump.FileDumpListener.Callback` | lib/listeners/file_dump_listener.c:125-148 | The callback does what the specification says; after a stop it changes nothing. |
| `FileDump.FileDumpListener.FlushBuffer` | lib/listeners/file_dump_listener.c:97-123 | Pending bytes go to the file and none is left. |
| `FileDump.FileDumpListener.Stop` | lib/listeners/file_dump_listener.c:150-167 | Pending bytes go to the file, none is left, and later notifications are ignored. |
| `Interleaving.StepKeepsInv` | lib/timeline.c:32-108 | Every step of every thread, a notification being one step, keeps: received bytes are whole logged events, every logged event is of one of the threads, and each thread's pushes are its logged events, those on their way and those held, in order. |
| `Interleaving.WhenEnabled` | lib/timeline.c:49-118 | A thread that has made its notifications can flush, and can push every event the listener can take. |
| `Interleaving.ThreadEffect` | lib/timeline.c:32-108 | A push or a flush of a thread touches that thread only; a flush leaves its timeline empty and everything it held on its way. |
| `Interleaving.NotifyEffect` | lib/timeline_listener.c:61-70 | A notification takes one group out of the thread and appends exactly its bytes at the listener, or drops it if the listener has stopped. |
| `Interleaving.ListenerEffect` | lib/listeners/file_dump_listener.c:97-167 | Flushing and stopping the listener write what is pending and touch no thread. |
| `Interleaving.InterleavingSafety` | lib/listeners/file_dump_listener.c:125-148 | In every state of every run of any number of threads: that invariant, and what each thread has pushed is what its steps so far pushed. |
| `Interleaving.CompleteRun` | lib/timeline.c:248-275 | In every run that ends with all timelines destroyed, stopping the listener leaves the preamble and a merge of exactly what the steps of each thread pushed, and of nothing else. |
| `Recording.Deliver` | lib/timeline_listener.c:61-70 | A series of notifications appends the bytes of their events in order. |
| `Recording.Start` | lib/listeners/file_dump_listener.c:30-78 | Creating a listener hands it the metadata first: it has received exactly those blocks and nothing else. |
| `Recording.Record` | lib/timeline.c:49-118 | For every capacity, listener buffer and way of serialising, the file left behind is the preamble and all events in push order, whatever flushes come between: serialising early or late cannot be told apart. |
| `TcpListeners.PushKeepsBoundary` | lib/listeners/tcp_listener.c:97-129 | A push ends with everything sent or with nothing sent, as the sizes say, for any buffer size: no event is left half sent. |
| `TcpListeners.ProcessFlushes` | lib/listener_buffer.c:40-92 | A notification makes the buffer flush exactly when the sizes say so. |
| `TcpListeners.ConnectKeepsBoundary` | lib/listeners/tcp_listener.c:60-71 | A client that connects between pushes starts at an event boundary. |
| `TcpListeners.TcpStaysOnBoundary` | lib/listeners/tcp_listener.c:35-129 | After every sequence of pushes and connections: the pushes sent are those the sizes say, the others are pending whole, and the client that connected i-th has the metadata of its own connection and exactly the pushes sent since. |
| `TcpListeners.ClientBytes` | lib/listeners/tcp_listener.c:35-129 | The bytes written to each client, from the operations alone. |
| `TcpListeners.TCPListener.FlushCallback` | lib/listeners/tcp_listener.c:35-41 | A block goes to every client and is remembered as a flush. |
| `TcpListeners.TCPListener.PushEvents` | lib/listeners/tcp_listener.c:97-129 | The object computes the specification of a push; one that is not running changes nothing. |
| `TcpListeners.TCPListener.ClientConnected` | lib/listeners/tcp_listener.c:60-71 | The metadata blocks go to the new client's socket: it has been sent a byte order, a description of every class and the version, nothing reaches the others, and a listener on an event boundary stays on it with the new client starting there. |
| `NetworkThreads.StepKeepsInv` | lib/timeline.c:32-108 | Every step of every thread sharing a network listener, and every connection, keeps: the listener is in the state its history of pushes and connections gives, and each thread's pushes are those it was notified of, those on their way and those held, in order. |
| `NetworkThreads.ThreadEffect` | lib/timeline.c:32-108 | The same for threads that share a network listener. |
| `NetworkThreads.ClientGetsMerge` | lib/listeners/tcp_listener.c:35-129 | In every run, for every client: its bytes are its metadata and a merge of events of the threads; each thread's pushes are what was sent before the client joined, all pushed by then, what the client got, what is pending and what is on its way, in that order. |
| `Tracing.PreambleThenEvents` | lib/listeners/file_dump_listener.c:63-63 | Metadata followed by whole events decodes to the metadata and those events, as far as they are legible on the stream. |
| `Tracing.DecodesWhole` | parser/protocol_reader.cpp:141-183 | A stream is delivered whole if and only if it is read from a file or all its strings are seven-bit. |
| `Tracing.MergedFileDecodes` | lib/timeline_listener.c:61-70 | Given what each thread pushes: after every run the file decodes to the metadata and a merge of events of those threads only that contains exactly those events, each thread's in its own order. |
| `Tracing.ClientDecodes` | lib/listeners/tcp_listener.c:60-129 | After every run of the network listener, for every client: its bytes decode to the metadata of its own connection and exactly the groups of events sent since it connected, as far as legible. |
| `Tracing.ClientReads` | client_utils/tcp_client_stream.cpp:145-180 | A reader object on the network stream of that client, however its bytes are split and whenever they arrive, delivers exactly that if and only if all strings are seven-bit. |
| `Tracing.MergedClientDecodes` | lib/listeners/tcp_listener.c:60-129 | Any number of threads, any run, any client: its bytes decode to the metadata of its own connection and, for each thread, a stretch of that thread's events in order, which begins no later than with the first one pushed after the client joined. |
| `Tracing.AccentedLabelIsLost` | client_utils/tcp_client_stream.cpp:145-160 | A concrete label whose mapping, the last event of its stream, is read back from a file; over the network the same bytes give only a proper prefix of the events. |
| `Tracing.Perform` | lib/timeline.c:49-118 | The events a program traces, serialised by their classes between any flushes, are the pushes its timeline sees. |
| `Tracing.TraceAndRead` | lib/timeline_listener.c:201-211 | Writer and reader objects end to end: pushing metadata and events through both buffers into a file, with flushes in between, and parsing the file delivers exactly the events, for all sizes, byte orders and modes, behind a head that holds, by name, the byte order, every class with its fields and the version. |
| `Truncation.FieldsCut` | parser/protocol_reader.cpp:112-240 | On any bytes and any register: decoding cut off after n bytes fails, unless it was over by then, and then gives the same values. |
| `Truncation.NextEvent` | parser/protocol_reader.cpp:65-106 | On any bytes: fewer than twenty end the reading, class identifier 1 is delivered as it is, a class the register does not hold makes the parser throw. |
| `Truncation.RunCut` | parser/protocol_reader.cpp:63-110 | On any bytes: cutting the input off after n bytes delivers exactly the events whose bytes were read by then, the same ones, and never makes a reading throw that would not have thrown. |
| `Truncation.TruncatedRecording` | parser/protocol_reader.cpp:63-110 | A recording that breaks off at any byte behind its metadata reads like the recording of the events that are whole before that byte. |
| `Bags.AddKeepsValid` | lib/include/internal/bag.h:77-91 | Adding appends or fails, and capacities stay the minimum doubled. |
| `Bags.RemoveKeepsValid` | lib/include/internal/bag.h:62-75 | Removing keeps capacities doubled and never shrinks below what is held. |
| `Bags.SwapOutItems` | lib/include/internal/bag.h:62-70 | Removal takes out exactly the named element: the last one takes its place, the others stay; a position past the end drops the last. |
| `Bags.Capacities` | lib/include/internal/bag.h:62-98 | Adding doubles a full bag; removing halves it if and only if it is then less than a quarter full, above its minimum, and memory allows; clearing takes it back to the minimum if memory allows. |
| `Bags.DoubledGap` | lib/include/internal/bag.h:71-86 | Two different capacities over one minimum differ by a factor of at least two. |
| `Bags.ArrayBag.constructor` | lib/include/internal/bag.h:45-60 | A new bag is empty at its minimum capacity. |
| `Bags.ArrayBag.Realloc` | lib/include/internal/bag.h:29-43 | Moving the elements keeps them; on failure nothing changes. |
| `Bags.ArrayBag.Add` | lib/include/internal/bag.h:77-91 | The array form of adding, in bounds: exactly when it succeeds, the elements and the capacity afterwards. |
| `Bags.ArrayBag.Remove` | lib/include/internal/bag.h:62-75 | The array form of removing, in bounds: the elements and the capacity afterwards. |
| `Bags.ArrayBag.RemoveAll` | lib/include/internal/bag.h:93-98 | Clearing leaves no element, and the minimum capacity if memory can be given back. |
| `HashMaps.RollbackRoom` | lib/hash_map.c:111-121 | When a value cannot be added, the position behind the new key is within the key bag. |
| `HashMaps.RolledBack` | lib/hash_map.c:117-121 | The rollback takes out exactly the new key. |
| `HashMaps.InsertFailsWhen` | lib/hash_map.c:96-125 | An insertion fails if and only if its key is new and a full bag cannot grow. |
| `HashMaps.InsertPlaces` | lib/hash_map.c:96-125 | Where an insertion puts its pair: over the old value, behind the other pairs of the bucket, or nowhere. |
| `HashMaps.TableShape` | lib/hash_map.c:8-35 | A new table has 512 empty buckets with room for four pairs; a key belongs to the bucket of its remainder by 512. |
| `HashMaps.InsertMaps` | lib/hash_map.c:96-125 | Under any allocation failures an insertion updates the bucket's map at its key, returns the value before, or changes nothing. |
| `HashMaps.InsertRefines` | lib/hash_map.c:96-125 | The same for the whole table as a finite map. |
| `HashMaps.HashMapRefinesMap` | lib/hash_map.c:96-137 | After every sequence of insertions under any failures a lookup gives the last value inserted with success. |
| `HashMaps.ForEachVisitsOnce` | lib/hash_map.c:139-148 | Visiting the buckets in order reaches every pair exactly once. |
| `HashMaps.PairsInOrder` | lib/hash_map.c:51-62 | Pairs are visited bucket by bucket, and in a bucket in the order their keys were stored in. |
| `HashMapObjects.HashBucket.AddNewPair` | lib/hash_map.c:111-121 | On the arrays of both bags: both parts are added or neither. |
| `HashMapObjects.HashBucket.Insert` | lib/hash_map.c:96-125 | The bucket object computes the specification of an insertion and stays valid. |
| `HashMapObjects.FindKey` | lib/hash_map.c:37-49 | Linear search finds the key's position, or the number of keys. |
| `HashMapObjects.HashMap.constructor` | lib/hash_map.c:64-85 | 512 new buckets that share nothing; the map is empty. |
| `HashMapObjects.HashMap.Insert` | lib/hash_map.c:96-125 | Whatever finite map the table stood for: it then stands for that map updated at the key, or for the same map if the insertion failed; the value the key had is returned. Only the bucket of the key's remainder by 512 changes. |
| `HashMapObjects.HashMap.GetValue` | lib/hash_map.c:127-137 | The value of the key, if any. |
| `HashMapObjects.HashBucket.ForEach` | lib/hash_map.c:51-62 | Pairs of a bucket in order, up to the first one refused. |
| `HashMapObjects.HashMap.ForEach` | lib/hash_map.c:139-148 | Pairs of the table in order, up to the first one refused, otherwise all. |
| `Scheduling.TickVisitsOnce` | lib/task_scheduler.c:118-148 | A tick examines every task present at its start exactly once despite swap-removal, and keeps exactly those not due or whose callback wants to go on. |
| `Scheduling.TickOrder` | lib/task_scheduler.c:118-148 | As long as no callback ends its task, a tick examines the tasks in the order they are stored in. |
| `Scheduling.TickAfterRemoval` | lib/task_scheduler.c:137-141 | A task whose callback ends it is replaced by the last one, which is examined next. |
| `Scheduling.TickIds` | lib/task_scheduler.c:118-148 | A tick keeps identifiers unique and adds none. |
| `Scheduling.TickTracks` | lib/task_scheduler.c:118-148 | In a tick each task has exactly one entry in the trace, the j-th, seeing reading k + j, and is afterwards what that examination made of it, or gone. |
| `SchedulingTimes.IgnoreDelaysSchedule` | lib/task_scheduler.c:128-145 | A task that ignores delays makes run n no earlier than t0 + n * period, the run that ends it included, and its next run is due exactly one period after the schedule of the last. |
| `SchedulingTimes.IgnoreDelaysCatchesUp` | lib/task_scheduler.c:128-145 | Examined k times at time T or later it has run at least min(k, (T - t0) / period) times. |
| `SchedulingTimes.RestartTimerSpacing` | lib/task_scheduler.c:128-145 | A task that restarts its timer leaves at least a period between the end of a run and the start of the next, the run that ends it included. |
| `SchedulingTimes.RunsWhenDue` | lib/task_scheduler.c:124-145 | An examination runs a task if and only if it is due, and when it is due next in each mode. |
| `SchedulingTimes.SurvivesWhenKept` | lib/task_scheduler.c:137-141 | A task outlives its examinations if and only if its callback wanted to go on after every run. |
| `SchedulingTimes.LateRun` | lib/task_scheduler.c:124-131 | Under a clock that does not go back, every examination of a task in operations that begin once the clock shows T is at T or later. |
| `SchedulingTimes.DoKeepsIds` | lib/task_scheduler.c:83-185 | Scheduling, removing and ticking keep identifiers unique and never reuse one. |
| `SchedulingTimes.RunTracks` | lib/task_scheduler.c:83-185 | Over every sequence of operations: the examinations of a task are its own entries in the traces of the ticks; it is there exactly while its callback has not ended it and it was not removed, has then been examined in every tick, and is what those examinations made of it. |
| `SchedulingTimes.TaskTimes` | lib/task_scheduler.c:83-148 | For any task over any run of the scheduler: when it is still there, and the timing laws of its mode for all its runs, the last one included. |
| `SchedulingTimes.TaskCatchesUp` | lib/task_scheduler.c:118-148 | After any operations, and then k ticks among any operations that begin once the clock shows T, a task that ignores delays and is still there has run at least min(k, (T - t0) / period) times. |
| `SchedulerObject.TaskScheduler.constructor` | lib/task_scheduler.c:42-68 | A new scheduler has no tasks and room for sixteen. |
| `SchedulerObject.TaskScheduler.ScheduleTask` | lib/task_scheduler.c:83-116 | Returns -1 if and only if there is no callback, the identifiers have run out, or memory for the task or the full bag is refused, and then adds nothing; otherwise adds, behind the others, a task due one period from now under a fresh identifier. |
| `SchedulerObject.TaskScheduler.Examine` | lib/task_scheduler.c:124-147 | One turn of the tick loop does one step of the specification. |
| `SchedulerObject.TaskScheduler.RunTick` | lib/task_scheduler.c:118-148 | The loop over the bag, with its removals in place, computes a tick. |
| `SchedulerObject.TaskScheduler.RemoveTaskEntry` | lib/task_scheduler.c:150-161 | The loop that goes on after removing takes out exactly one entry. |
| `SchedulerObject.TaskScheduler.RemoveTask` | lib/task_scheduler.c:163-185 | Removes the task of that identifier and no other, and reports whether there was one. |
| `SchedulerObject.GreatestCommonDivisor` | lib/task_scheduler.c:29-40 | A common divisor that every common divisor divides. |
| `SchedulerObject.OptimalTickPeriod` | lib/task_scheduler.c:187-206 | Divides all periods other than zero and is divided by every number that does; zero if all are zero. |
| `StackObject.Stack.NewCapacity` | lib/stack.c:61-67 | The growth loop ends at the first doubling with enough room. |
| `StackObject.Stack.Push` | lib/stack.c:56-84 | Pushes a block of bytes, or fails and leaves the blocks as they were; exactly when it succeeds, and the memory afterwards, which grew by no more doublings than needed. |
| `StackObject.Stack.Top` | lib/include/internal/stack.h:28-29 | The last offset is where the block on top begins. |
| `StackObject.Stack.Pop` | lib/stack.c:86-96 | Removes exactly the block on top; the memory afterwards, and that nothing is lost if it cannot shrink. |
| `Callstack.StopsMatchStarts` | lib/feature_callstack.c:52-74 | Each stop completes the stored start it matches: everything stored between them was closed between them. |
| `Callstack.EmittedIsMatched` | lib/feature_callstack.c:52-74 | A start and a stop are handed over as one event if and only if they match. |
| `Callstack.EmittedTimes` | lib/feature_callstack.c:52-74 | Every event handed over begins at the time of its start and ends at the time of its stop, on the thread of the stop, with the identifier, class and contents of the start. |
| `Callstack.StopIsForItsStart` | lib/feature_callstack.c:52-74 | When memory for starts runs out: a stop completes the start the program wrote it for if and only if neither that start nor any between the two was lost. |
| `Callstack.StopIsForAnOuterStart` | lib/feature_callstack.c:52-74 | A stop never completes a start further in than the one the program wrote it for. |
| `Callstack.EmittedIntervalsNest` | lib/feature_callstack.c:52-74 | Under a clock that does not go back any two emitted intervals nest or do not overlap. |
| `Callstack.ImageRoundTrip` | lib/feature_callstack.c:52-74 | An event is recovered from its image in memory, in either byte order. |
| `Callstack.CallstackFeature.StartEvent` | lib/feature_callstack.c:52-60 | The event, stamped with time and identifier, is pushed as its image in memory exactly if the stack has room or can grow; the stack's memory afterwards. |
| `Callstack.CallstackFeature.Complete` | lib/feature_callstack.c:66-69 | Duration, the time since the start, and thread are written into the event on top where it lies, and nothing else of it changes. |
| `Callstack.CallstackFeature.HandOver` | lib/feature_callstack.c:66-72 | What lies on top after completing it is the event pushed, with the time since its start as duration and the thread of the stop. |
| `Callstack.CallstackFeature.StopEvent` | lib/feature_callstack.c:62-74 | Hands over the event on top with the time since its start as duration and the thread of the stop, its other contents as they were, and pops it. |
| `Callstack.Play` | lib/feature_callstack.c:52-74 | Over a whole run under any pattern of allocation failures, through all growth and shrinking of the stack, each stop hands over the event of the stored start it matches: from the time of that start to the time of the stop, on the thread of the stop, with the contents of the start. |
| `ScopedTracing.ScopesAreIntervals` | client/call_graph.cpp:52-62 | The intervals of a run last from start to stop; a scope opened and closed within another is contained in it, and under a clock that never repeats a time nothing else is. |
| `ScopedTracing.ScopedRunsAreExact` | client/call_graph.cpp:10-91 | What any run of scoped starts and stops emits is input on which the call graph is the calling-context tree and self times are exact. |
| `CachedStrings.AddKeeps` | lib/feature_cached_string.c:112-135 | Adding a label announces it exactly when it is new. |
| `CachedStrings.AddsWhen` | lib/feature_cached_string.c:112-135 | An addition fails, and an event is pushed, exactly as the room in the bucket and the allocations say. |
| `CachedStrings.DoKeepsInv` | lib/feature_cached_string.c:112-195 | Every operation keeps: the keys of each map are those announced for it, each once. |
| `CachedStrings.AnnouncedBeforeUse` | lib/feature_cached_string.c:112-195 | In every run: after a label is added its identifier is among those its map announced if and only if it was stored or both bags of its bucket have room or can grow; one event with the label is pushed exactly when it is new and there is room; add_mapping then returns zero otherwise, add_mapping_dynamic the identifier in any case. |
| `CachedStrings.StoresText` | lib/feature_cached_string.c:112-195 | After a label is added the maps hold: for a static label the new text under its address, if it was stored or fits; for a dynamic one the text first stored; everything else as before. |
| `CachedStrings.UnannouncedIdentifier` | lib/feature_cached_string.c:166-195 | A concrete run: five labels of one bucket are added while memory cannot grow, and the last one gets the hash of its text, which its map has not announced. |
| `CachedStrings.StandsForFirst` | lib/feature_cached_string.c:166-195 | In every run a dynamic identifier has been announced for the label first stored under its hash, and for no other. |
| `CachedStrings.LeadsBack` | lib/feature_cached_string.c:166-195 | The identifier returned for a dynamic label leads back to that label if and only if it is the label first stored under its hash. |
| `CachedStrings.CollidingLabels` | lib/include/internal/hash.h:10-21 | Two concrete labels with one hash: the second is returned the identifier that was announced for the first. |
| `Hashing.Djb2Hash` | lib/include/internal/hash.h:10-21 | The loop of shifts and additions that wrap at 32 bits computes the label as a number in base 33, wrapped once. |
| `Hashing.TwoCharacters` | lib/include/internal/hash.h:10-21 | The hash of every label of two characters as a number; characters from 0x80 on count as negative. |
| `CachedStrings.PushMapAnnouncesAll` | lib/feature_cached_string.c:151-164 | Pushing the maps emits each stored pair exactly once. |
| `CachedStrings.CachedStringFeature.AddMappingTo` | lib/feature_cached_string.c:112-135 | The map and the events pushed after adding a label. |
| `CachedStrings.CachedStringFeature.AddMapping` | lib/feature_cached_string.c:137-142 | The object computes the specification for static labels: it returns the address or zero, and pushes at most the one event with the label and that address. |
| `CachedStrings.CachedStringFeature.AddMappingDynamic` | lib/feature_cached_string.c:166-195 | The object hashes the label and computes the specification for dynamic labels: it returns the hash, and pushes at most the one event with the label and that hash. |
| `CachedStrings.CachedStringFeature.PushMap` | lib/feature_cached_string.c:151-164 | The object pushes both maps. |
| `CachedStringThreads.StepKeepsInv` | lib/feature_cached_string.c:112-195 | Every locked region and every push of an event, by any thread, keeps: a stored identifier has been announced exactly once or exactly one thread is about to, no other ever was, and what calls returned stays true. |
| `CachedStringThreads.AnnouncedOrWaiting` | lib/feature_cached_string.c:112-195 | In every state of every run of any number of threads, for every call that has returned with its label stored: its identifier has been announced once, if and only if no thread is between inserting and announcing it. |
| `CachedStringThreads.AnnouncedWhenReturned` | lib/feature_cached_string.c:112-195 | At the moment a call returns its identifier has been announced if and only if the label is stored and no thread is between inserting and announcing it. |
| `CachedStringThreads.ReturnedBeforeAnnounced` | lib/feature_cached_string.c:112-135 | A concrete run of two threads in which the second is returned an identifier no event has announced yet. |
| `CachedStringThreads.AloneStatic` | lib/feature_cached_string.c:137-142 | The steps of a call that is not interrupted amount to the sequential operation, for static labels. |
| `CachedStringThreads.AloneDynamic` | lib/feature_cached_string.c:166-195 | The same for dynamic labels, whose lookup and insertion are separate steps. |
| `TopologySort.RemoveStep` | tools/amalgamate.py:120-124 | On lists without repetitions, removing one occurrence takes the node out of the graph. |
| `TopologySort.OrderMeansAcyclic` | tools/amalgamate.py:107-118 | A graph with a complete order has no cycle. |
| `TopologySort.StuckMeansCycle` | tools/amalgamate.py:96-101 | If no remaining node is free there is a cycle. |
| `TopologySort.Graph.constructor` | tools/amalgamate.py:89-94 | Exactly the given nodes, each once, in the order first given, without dependencies. |
| `TopologySort.Graph.AddEdge` | tools/amalgamate.py:103-105 | Adds one dependency, keeps lists free of repetitions, and fails on an unknown node. |
| `TopologySort.Graph.GetFreeNode` | tools/amalgamate.py:96-101 | The first node without dependencies, or none if every node has some. |
| `TopologySort.Graph.Sort` | tools/amalgamate.py:107-118 | Passes its assertion if and only if no node is empty, all dependencies are nodes and there is no cycle; then lists each node once after its dependencies, at each point the first one given that waits for no other, and restores the graph. |
| `ChunkedStream.TcpClientStream.Receive` | client_utils/tcp_client_stream.cpp:121-128 | Queueing a chunk changes nothing about what is still to be read. |
| `ChunkedStream.TcpClientStream.WaitForData` | client_utils/tcp_client_stream.cpp:139-143 | Whatever arrives in the meantime: reports data if and only if a byte is still to come. |
| `ChunkedStream.TcpClientStream.Take` | client_utils/tcp_client_stream.cpp:170-176 | Takes bytes off the front; no chunk in the queue is ever used up. |
| `ChunkedStream.TcpClientStream.ReadByte` | client_utils/tcp_client_stream.cpp:145-160 | The next byte as a signed char, or -1. |
| `ChunkedStream.TcpClientStream.ReadData` | client_utils/tcp_client_stream.cpp:162-180 | Exactly when it succeeds, and what is read, across chunks. |
| `ChunkedStream.FaithfulReads` | client_utils/tcp_client_stream.cpp:145-180 | Reads from this stream equal reads from flat bytes if and only if no single byte of 0x80 or more is read, and nothing of size zero at the end. |
| `ChunkedStream.ReadSeries` | client_utils/tcp_client_stream.cpp:139-180 | For every split into chunks and every pattern of arrivals, a series of reads gives what the unsplit bytes give, under exactly that condition. |

## Left out

- Sockets, files, threads, mutexes and clocks are inputs and byte sequences; a locked region is one step.
- Event structures are values: no padding, casts, ownership or frees, and the strings of a buffered structure do not change before it is serialised.
- Null strings, floating-point and pointer fields of events; struct fields other than the leading base.
- The parser's cached timestamp.
- Unchecked allocations: the copy of a dynamic label (lib/feature_cached_string.c:183) and the buffer for an event larger than the timeline's (lib/timeline.c:72) always succeed here.
- KlassTable.KlassRegister.HasFieldNamed: the recursive search through base classes is not modelled.
- KlassTable.KlassRegister.FindKlass: searches in order of registration where the source searches a hash table, which matters only if two classes share a name.
- Repeated initialisation of the library, and the counter event ids are taken from: ids are part of the events here.
- Bags whose elements are wider than a pointer.
- The registry push without serialisation, and metadata events longer than the 4096-byte buffer.
- Listener containers with several listeners: a timeline has one.
- Stopping the network listener, connecting during a push, and clients whose socket fails.
- 64-bit wrap-around of durations, timestamps and sizes. Plain characters are signed, as on x86.
- Failure of the allocations made when a map, bag, stack, scheduler or listener is created.
- Text of the listings, Chrome output, command lines, bindings, scripts other than the sort.
- CallContexts.CallingContextTree: needs distinct start times, because the tree depends on the order of equal ones.
- Callgrind.GraphBuilder.Make: sorts by insertion where the source calls a library sort; nodes are named by index, not by reference.
- ScopedTracing.ScopedRunsAreExact: needs distinct start times, for the same reason.
- FileDump.FileDumpListener.constructor: does not push the metadata, which Recording.Start does, and cannot fail.
- CachedStrings.CachedStringFeature.AddMappingDynamic: copying the label cannot fail.
- Recording.Record: one thread and one listener; several threads are the subject of Interleaving.
- Interleaving.InterleavingSafety: threads have timelines of their own; a timeline shared under a lock is one thread.
- Tracing.TraceAndRead: all classes are registered before the listener is created, and no event is of a class that steers the parser.
- Callstack.Play: no stop finds the stack empty; the source reads outside its stack then.
- NetworkThreads.ClientGetsMerge: a connection is one step, as are notifications, so no client joins in the middle of one.
- SchedulingTimes.TaskCatchesUp: only for a task still there at the end, because one that is gone is not examined any more.
- Tracing.ClientReads: the reader is not stopped before the connection is closed.
