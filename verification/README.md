# Verified models of the DNP3 bindings

This project models the parts of the DNP3 bindings that carry state, loops or arithmetic, and
proves properties of them over every input, run or interleaving. `dafny verify dfyconfig.toml`
checks all of it.

**Requests on their way to the outstation.** `AssignClass.dfy` compiles the class assignments of a
Java application to object headers; `Wire.dfy` writes headers into a bounded buffer and `Parsing.dfy`
reads any bytes back, with `WireBytes.dfy` saying both in plain numbers; `Outstation.dfy` is the header handler with the point database it assigns
into; and `Delivery.dfy` joins them: what the application asked for, against what the outstation's
database, reply and notices are after the bytes were handled. `Agreement.dfy` says for which
requests, from whatever master, the handler does what the standard says. `Requests.dfy` adds scan
headers and control commands.

**Java references held by native code.** `References.dfy` has the tables of live references and the
`LocalRef` wrapper, `WrapperRuns.dfy` every run of wrappers, `Iteration.dfy` the walks over Java
collections, `SoeAdapter.dfy` the measurement batches, `FutureCallback.dfy` the shared completion
callback of commands, `JavaCache.dfy` the cache filled at load time, and `CacheRuns.dfy` every run
of loading and unloading it. A table records the
largest number of references that was ever live, so a bound on it is a bound for every moment of a
call.

**Configuration, recordings and values.** `ConfigDatabase.dfy` copies seven lists into arrays with
16-bit sizes. `CommandSets.dfy`, `ChangeSets.dfy` and `CompletionProxy.dfy` are the composite, the
recorder and the callback chain of the .NET interface; `Updates.dfy` is the pair of interactive
examples; `TimeStamps.dfy` and `ClassFields.dfy` are the time and class-mask arithmetic.
`Sequences.dfy`, `Results.dfy` and `PointClasses.dfy` hold what the others share.

## Where a promise fails, and exactly when

- A class assignment to group 60, variation 1 to 4, without a range is indistinguishable from a
  class header for a reader that follows the standard (`AssignClass.ClassObjectIsMisread`). A
  list reads as asked if and only if leaving such assignments out changes no point's last writer
  (`AssignClass.ListReadsExactly`), and all lists that can be made of given assignments do if and
  only if there is no such assignment among them (`AssignClass.CompiledReadsExactly`).
  This outstation is not fooled, because its handler pairs headers by position
  (`Delivery.CompiledIsCarriedOut`). It agrees with the standard's reading on every stream that
  pairs each class header with one object header (`Agreement.PairedAgrees`), and answers every other
  stream with an error (`Agreement.UnpairedIsReported`), among them streams that the standard would
  carry out (`Agreement.SecondObjectHeaderIsRefused`).
- The Java header factories take wider integers than the wire has room for; a header keeps its
  meaning if and only if its numbers fit (`Requests.FactoryHeadersConvert`). The C# factories take
  the exact widths, so there the condition always holds. Commands are cut in the same way, their
  point index included (`Requests.CrobIsExact`, `Requests.AnalogIsExact`).
- A configuration list of more than 65535 elements is written out of bounds, and only such a list is
  (`ConfigDatabase.FillSlots`, `ConfigDatabase.ConvertDatabase`).
- A change set applied to itself fails after one update if and only if it is not empty
  (`ChangeSets.ChangeSet.Apply`).
- Loading that fails leaves the references of the classes before the failure behind until the
  library is unloaded, and unloading twice releases every class twice (`CacheRuns.UnloadTwice`). In
  a run of loads and unloads an unload releases dead references if and only if some class is stale
  then, that is, was released before and not reached by a load since (`CacheRuns.FaultlessExactly`,
  `CacheRuns.Run`); references leak if and only if a load overwrites a class still held.
- Completing a null future goes wrong at every invocation; everything else about it is harmless
  (`FutureCallback.EveryInterleaving`).
- Timestamps beyond the last date saturate, and only those do not come back
  (`TimeStamps.MillisecondsRoundTrip`).
- A comment in `ClassAssignment.cs`, line 58, says that a full range implies qualifier 0x06. The code
  writes a full range as a 16-bit range with qualifier 0x01; the two name the same points
  (`AssignClass.FullRangeIsAllObjects`). The model follows the code.

`Range` and `Header` follow the Java classes, whose `isDefined` also checks the bounds 0 and 65535;
the C# structure has 16-bit fields and needs no such check.

## Model

| member | source | states |
|---|---|---|
| AssignClass.CompiledReads | app/src/main/java/cpp/adapters/MasterApplicationAdapter.cpp:82-104 | For assignments none of which is an all-objects assignment to a class object (group 60, variations 1 to 4): the emitted stream, read the way IEEE Std 1815-2012 describes ASSIGN_CLASS, gives every object type and index the class of the last assignment that names it |
| AssignClass.CompiledReadsPlain | app/src/main/java/cpp/adapters/MasterApplicationAdapter.cpp:82-104 | For every list: read that way, the stream gives every point the class of its last writer among the assignments that do not look like class headers |
| AssignClass.ListReadsExactly | app/src/main/java/cpp/adapters/MasterApplicationAdapter.cpp:82-104 | A list reads as asked if and only if dropping those that do look like class headers changes no point's last writer |
| AssignClass.CompiledReadsExactly | app/src/main/java/cpp/adapters/MasterApplicationAdapter.cpp:89-103 | Over a repertoire of assignments, every list drawn from it reads as asked if and only if no member of the repertoire looks like a class header |
| AssignClass.ClassObjectIsMisread | app/src/main/java/cpp/adapters/MasterApplicationAdapter.cpp:100-103 | The family that fails: an undefined range on group 60, variation 1 to 4, selects a class and assigns nothing, though the application asked for all its points |
| AssignClass.FullRangeIsAllObjects | app/src/main/java/cpp/adapters/MasterApplicationAdapter.cpp:93-103 | A full range is written as a 16-bit range and an undefined one as all objects; both name the same points (the comment in ClassAssignment.cs, line 58, says otherwise about the qualifier) |
| AssignClass.ObjectHeaderNames | app/src/main/java/cpp/adapters/MasterApplicationAdapter.cpp:93-103 | The object header covers exactly the points the assignment names, and is taken for a class header exactly in the family above |
| AssignClass.WrittenRangesAreExact | app/src/main/java/com/automatak/dnp3/Range.java:34-37 | A range that is written survives the 16-bit casts and is never inverted, because `isDefined` demands 0 to 65535 in order |
| Requests.ConfigureAssignClassRequest | app/src/main/java/cpp/adapters/MasterApplicationAdapter.cpp:76-107 | Emits exactly the compiled stream, restores the local reference table, and holds at most 4 local references at once whatever the number of assignments |
| Wire.HeaderWriter.WriteHeader | app/src/main/cpp/libs/src/opendnp3/app/HeaderWriter.cpp:59-72 | Writes group, variation and qualifier, or nothing when fewer than 3 bytes remain |
| Wire.HeaderWriter.WriteHeaderWithReserve | app/src/main/cpp/libs/src/opendnp3/app/HeaderWriter.cpp:74-77 | Writes the three bytes only if the reserve fits behind them |
| Wire.HeaderWriter.WriteRangeHeader | app/src/main/cpp/libs/src/opendnp3/app/HeaderWriter.h:103-116 | Writes the header with start and stop, whole or not at all |
| Wire.HeaderWriter.WriteCountHeader | app/src/main/cpp/libs/src/opendnp3/app/HeaderWriter.h:118-130 | Writes the header with the count, whole or not at all |
| Wire.HeaderWriter.WriteTo | app/src/main/cpp/libs/src/opendnp3/master/HeaderTypes.cpp:91-108 | Appends the encoding of any header exactly when it fits, otherwise leaves the buffer alone |
| Wire.HeaderWriter.WriteUntilFull | app/src/main/cpp/libs/src/asiodnp3/Conversions.cpp:26-41 | A scan request writes a prefix of the headers, all of them if and only if the whole stream fits |
| Wire.HeaderWriter.WriteEach | app/src/main/cpp/libs/src/opendnp3/master/AssignClassTask.cpp:36-50 | An assign-class request tries every header: success if and only if the whole stream fits, and otherwise the buffer holds the headers that fitted, later short ones included |
| Wire.FittingIsEverything | app/src/main/cpp/libs/src/opendnp3/master/AssignClassTask.cpp:42-49 | Trying everything loses nothing if and only if the whole stream fits |
| Wire.FittingTake | app/src/main/cpp/libs/src/opendnp3/master/AssignClassTask.cpp:42-49 | Of a request whose headers are all tried, each next one is kept if and only if it fits behind those kept so far |
| WireBytes.HeaderBytes | app/src/main/cpp/libs/include/opendnp3/gen/QualifierCode.h:31-42 | Every header's exact bytes, qualifier code and byte order included |
| Parsing.ParseHeader | app/src/main/cpp/libs/src/opendnp3/app/parsing/APDUParser.cpp:77-146 | Parses one header of any of the eight qualifiers with the parser's errors; a header consumes at least one byte and no more than there are, which is why the parser's loop ends |
| Parsing.ReadObjects | app/src/main/cpp/libs/src/opendnp3/app/parsing/CountIndexParser.cpp:51-259 | The objects behind an index-prefixed header are the bytes right behind it, and all there |
| Parsing.EncodedHeaderParses | app/src/main/cpp/libs/src/opendnp3/app/parsing/APDUParser.cpp:77-146 | Parsing an encoded header with anything behind it gives the header and its length back, or fails with exactly the objection of `Objection` (unknown object, start after stop, count of zero, object not possible with the qualifier, free-format object that does not match its layout) |
| Parsing.EncodedIndexed8Parses | app/src/main/cpp/libs/src/opendnp3/app/parsing/CountIndexParser.cpp:51-95 | The case of objects with an 8-bit index: their number and size give the length |
| Parsing.EncodedIndexed16Parses | app/src/main/cpp/libs/src/opendnp3/app/parsing/CountIndexParser.cpp:51-95 | The case of objects with a 16-bit index |
| Parsing.EncodedFreeFormatParses | app/src/main/cpp/libs/src/opendnp3/app/parsing/FreeFormatParser.cpp:56-157 | The case of one free-format object with its own length |
| Parsing.RoundTrip | app/src/main/cpp/libs/src/opendnp3/app/parsing/APDUParser.cpp:61-75 | Every stream of well-formed headers, object-carrying ones included, comes back from the wire or is refused for its first objectionable header |
| Parsing.RequestRoundTrip | app/src/main/cpp/libs/src/opendnp3/master/HeaderTypes.cpp:91-108 | So does every stream the master's header class can write |
| Parsing.ParsedHeaderReencodes | app/src/main/cpp/libs/src/opendnp3/app/parsing/NumParser.cpp:45-106 | What the parser takes from the front of any bytes is acceptable, and encodes to exactly those bytes |
| Parsing.ParsedReencodes | app/src/main/cpp/libs/src/opendnp3/app/parsing/APDUParser.cpp:61-75 | The converse of the round trip: every accepted byte string is the encoding of the headers read, all of them acceptable |
| Parsing.AcceptsExactly | app/src/main/cpp/libs/src/opendnp3/app/parsing/APDUParser.cpp:61-75 | The parser accepts a byte string if and only if it encodes a stream of acceptable headers |
| Parsing.FailsExactly | app/src/main/cpp/libs/src/opendnp3/app/parsing/APDUParser.cpp:61-75 | It fails with an error if and only if acceptable headers are followed by bytes it refuses with that error |
| WireBytes.KnownObjectsExactly | app/src/main/cpp/libs/src/opendnp3/gen/GroupVariation.cpp:29-300 | A request for all objects of a type parses if and only if the type's code is in the generated table or its group is 110 to 113, and is an unknown object otherwise |
| WireBytes.Indexed8Exactly | app/src/main/cpp/libs/src/opendnp3/app/parsing/CountIndexParser.cpp:86-259 | Objects with one-byte indices are accepted if and only if the code has a length in the table and all of them are there; the length of the header follows |
| WireBytes.Indexed16Exactly | app/src/main/cpp/libs/src/opendnp3/app/parsing/CountIndexParser.cpp:86-259 | The same with two-byte indices |
| WireBytes.FreeFormatExactly | app/src/main/cpp/libs/src/opendnp3/objects/Group120.cpp:57-805 | A free-format object is accepted if and only if it has the form of its variation of group 120 |
| WireBytes.RefusedExactly | app/src/main/cpp/libs/src/opendnp3/app/parsing/APDUParser.cpp:77-146 | Each error of the parser by the bytes alone |
| Outstation.TypeOf | app/src/main/cpp/libs/src/opendnp3/outstation/AssignClassHandler.cpp:45-60 | The seven objects the handler accepts are variation 0 of the seven static groups, one for each point type |
| Outstation.DatabaseBuffers.AssignClassTo | app/src/main/cpp/libs/src/opendnp3/outstation/DatabaseBuffers.h:265-275 | Sets the class of exactly the points in the clipped range and returns that range; the 16-bit loop counter ends because sizes are at most 65535 |
| Outstation.DatabaseBuffers.AssignClassToRange | app/src/main/cpp/libs/src/opendnp3/outstation/DatabaseBuffers.cpp:291-312 | Changes the array of one type only, by that rule |
| Outstation.DatabaseBuffers.AssignClassToAll | app/src/main/cpp/libs/src/opendnp3/outstation/DatabaseBuffers.cpp:268-289 | The same for all points of the type |
| Outstation.AssignClassHandler.IsExpectingAssignment | app/src/main/cpp/libs/src/opendnp3/outstation/AssignClassHandler.cpp:104-117 | True exactly right after a class header, which is consumed |
| Outstation.AssignClassHandler.RecordClass | app/src/main/cpp/libs/src/opendnp3/outstation/AssignClassHandler.cpp:152-174 | Remembers position and class of a class header; any other object is a parameter error |
| Outstation.AssignClassHandler.ProcessAssign | app/src/main/cpp/libs/src/opendnp3/outstation/AssignClassHandler.cpp:119-150 | Assigns the range or all points, and notifies the application of the clipped range if there is one |
| Outstation.AssignClassHandler.OnHeader | app/src/main/cpp/libs/src/opendnp3/outstation/AssignClassHandler.cpp:41-102 | The whole state after any header, the error bits included, is that of the specification `Handle` |
| Outstation.HandleAllAppend | app/src/main/cpp/libs/src/opendnp3/app/parsing/IAPDUHandler.cpp:47-60 | Handling one stream after another is handling their concatenation |
| Delivery.PairHandled | app/src/main/cpp/libs/src/opendnp3/outstation/AssignClassHandler.cpp:41-150 | One compiled assignment, from any state between assignments: exactly its points get its class, its error bit and notice are added, everything else is kept |
| Delivery.CompiledIsCarriedOut | app/src/main/cpp/libs/src/opendnp3/outstation/AssignClassHandler.cpp:41-174 | The handler's positional pairing carries out every compiled list: each point ends with the class of its last assignment or its old one, an error bit is set if and only if some assignment raises it, and the notices come in order, with no exception for group 60 |
| Agreement.HandlesExactly | app/src/main/cpp/libs/src/opendnp3/outstation/AssignClassHandler.cpp:41-174 | For every stream the parser can pass on: the class of every point, every error bit and every notice, by the positions of the headers alone |
| Agreement.EveryReply | app/src/main/cpp/libs/src/opendnp3/outstation/OutstationContext.cpp:722-734 | The reply to every byte string: what cannot be parsed changes nothing, notifies nobody and raises the one bit of its error; anything else is known header by header |
| Agreement.GroupsReachTheirArrays | app/src/main/cpp/libs/src/opendnp3/outstation/AssignClassHandler.cpp:45-60 | Each static group number reaches the array of its own name |
| Agreement.PairedAgrees | app/src/main/cpp/libs/src/opendnp3/outstation/AssignClassHandler.cpp:41-174 | For every stream of class headers each followed by one header that names points, and every database, the handler does to each point what the standard's reading of the stream says |
| Agreement.UnpairedIsReported | app/src/main/cpp/libs/src/opendnp3/outstation/AssignClassHandler.cpp:41-174 | Every other stream is answered with an error bit, so a difference from the standard's reading is never silent |
| Agreement.CleanExactly | app/src/main/cpp/libs/src/opendnp3/outstation/AssignClassHandler.cpp:119-136 | A stream raises no error bit if and only if it is paired and every object header names one of the seven types and only points that exist |
| Agreement.CleanRequestsAgree | app/src/main/cpp/libs/src/opendnp3/outstation/OutstationContext.cpp:722-734 | For every byte string: the reply is clean if and only if the bytes parse to such a stream, and then the database is what the standard's reading makes of it; no request changes the number of points |
| Agreement.SecondObjectHeaderIsRefused | app/src/main/cpp/libs/src/opendnp3/outstation/AssignClassHandler.cpp:43-68 | A witness of the difference: a second object header under one class header is refused and changes nothing, though the standard would assign it |
| Delivery.CompiledSize | app/src/main/cpp/libs/src/opendnp3/app/HeaderWriter.h:103-116 | A compiled request takes 6 bytes for an assignment without a range and 10 for one with a range |
| Delivery.RequestGoesOut | app/src/main/java/cpp/adapters/MasterApplicationAdapter.cpp:89-103 | The exact bytes of every request: 60, class, 6, group, variation, and then 6 or 1 with start and stop, low byte first |
| Delivery.CompiledObjection | app/src/main/cpp/libs/src/opendnp3/app/parsing/APDUParser.cpp:86-92 | The only objection the parser can have to a compiled request is an unknown object, and it has it if and only if some assignment names one |
| Delivery.RequestIsAtomic | app/src/main/cpp/libs/src/opendnp3/outstation/OutstationContext.cpp:722-734 | From assignments to reply over the bytes: if every object is known all assignments are carried out, otherwise the reply is one bit, no point changes and nobody is notified, because the parser's first pass runs without the handler |
| Delivery.CleanReply | app/src/main/cpp/libs/src/opendnp3/outstation/OutstationContext.cpp:722-734 | The reply has no error bit if and only if every assignment names one of the seven types and only points that exist |
| Delivery.BuildRequest | app/src/main/cpp/libs/src/opendnp3/master/AssignClassTask.cpp:36-50 | The request is, byte for byte, the class and object headers of each assignment if that fits the buffer, else it is given up; local references are restored |
| Delivery.ParseSinglePass | app/src/main/cpp/libs/src/opendnp3/app/parsing/APDUParser.cpp:61-75 | The loop over the bytes: reports the first error, and with a handler leaves it in the state of handling every header |
| Delivery.HandleAssignClass | app/src/main/cpp/libs/src/opendnp3/outstation/OutstationContext.cpp:722-734 | For every byte string the reply, database and notices are those of the specification `HandleRequest`; an unsupported request and one that cannot be parsed leave the database alone, notify nobody and are answered with the bit of their error |
| References.LocalRef.constructor | app/src/main/java/cpp/adapters/LocalRef.h:39-42 | The wrapper takes the handle as it is |
| References.LocalRef.Move | app/src/main/java/cpp/adapters/LocalRef.h:52-55 | The move constructor hands the reference over and leaves the null handle behind |
| References.LocalRef.Destroy | app/src/main/java/cpp/adapters/LocalRef.h:44-50 | The destructor deletes the owned reference, and nothing for the null handle |
| WrapperRuns.EveryRunBalances | app/src/main/java/cpp/adapters/LocalRef.h:39-55 | Over every run of wrap, move and destroy: every new live reference has exactly one owner, nothing is deleted twice or dead, and when no wrapper is left the table is what it was and every reference handed out was deleted |
| WrapperRuns.RunsAsItsStepsSay | app/src/main/java/cpp/adapters/LocalRef.h:39-55 | By the steps alone: which runs are legal, which wrappers there are at the end, which reference each holds, and what was deleted in which order |
| WrapperRuns.ReturnedIsLiveOrDeleted | app/src/main/java/cpp/adapters/LocalRef.h:39-55 | Every reference that was returned and wrapped is live or was deleted; with no wrapper left, as many were deleted as returned |
| WrapperRuns.RunIsSound | app/src/main/java/cpp/adapters/LocalRef.h:39-55 | The invariant behind it is kept by every run |
| WrapperRuns.DestroyOfMovedFromIsSilent | app/src/main/java/cpp/adapters/LocalRef.h:44-55 | Destroying a moved-from wrapper leaves the table and the list of deletions alone; the move passed the reference on |
| WrapperRuns.ExecuteStep | app/src/main/java/cpp/adapters/LocalRef.h:39-55 | The wrapper objects take each step as the run machine does |
| WrapperRuns.Execute | app/src/main/java/cpp/adapters/LocalRef.h:39-55 | Every legal run can be executed on wrapper objects: each destructor meets its precondition, and the environment ends as the run says |
| Iteration.Call | app/src/main/java/cpp/adapters/JNI.cpp:83-83 | One callback: the temporary element is moved into the parameter and released, so the table is restored if the callback restores it, and bounds on what the callback holds carry over plus one |
| Iteration.Iterate | app/src/main/java/cpp/adapters/JNI.cpp:77-85 | The walk ends, its effect is that of one callback for each element in order, and for any callback that restores the table the table is restored; whatever bounds hold for one callback hold for the walk plus two, for any length |
| Iteration.IterateWithIndex | app/src/main/java/cpp/adapters/JNI.cpp:87-97 | The same with positions |
| Iteration.VisitsInOrder | app/src/main/java/cpp/adapters/JNI.cpp:91-96 | A logging callback sees every element once, in order, with positions 0 to n-1 |
| Iteration.WalkFactorsThroughVisits | app/src/main/java/cpp/adapters/JNI.cpp:91-96 | Whatever a callback does, its effect is the fold over those visits |
| Iteration.Collect | app/src/main/java/cpp/adapters/JNI.cpp:77-85 | A callback that appends builds the concatenation of what it makes of the elements |
| Requests.RefsRestore | app/src/main/java/cpp/com_automatak_dnp3_impl_CommandBuilderImpl.cpp:46-70 | The callbacks' own reference traffic restores any table, with peaks of 1 for scan headers and assignments and 2 for commands |
| Requests.CollectHeaders | app/src/main/java/cpp/com_automatak_dnp3_impl_MasterImpl.cpp:160-178 | The vector given to `Scan` or `AddScan` is the in-order subsequence of the convertible headers; at most 3 local references are live on the way |
| Requests.FactoryHeadersConvert | app/src/main/java/cpp/com_automatak_dnp3_impl_MasterImpl.cpp:129-158 | Every header that a Java factory makes converts, and says the same as the Java header if and only if its numbers fit the native header |
| Requests.ConvertsExactly | app/src/main/java/cpp/com_automatak_dnp3_impl_MasterImpl.cpp:138-157 | Of all Java headers exactly those with one of five qualifiers convert |
| Requests.QualifierGoesOut | app/src/main/java/cpp/com_automatak_dnp3_impl_MasterImpl.cpp:133-157 | The qualifier byte that goes out is Java's own code for the header's qualifier |
| Requests.FactoryGoesOut | app/src/main/java/com/automatak/dnp3/Header.java:81-138 | The exact bytes that come of every call of a Java factory, whatever its numbers |
| Requests.OversizedCountIsCut | app/src/main/java/com/automatak/dnp3/Header.java:94-97 | The smallest kind of counterexample: a count of 300 in a one-byte header goes out as 44 |
| Requests.FactoryScanArrives | app/src/main/java/cpp/com_automatak_dnp3_impl_MasterImpl.cpp:160-178 | A scan over factory headers that fit drops nothing and keeps every number, and the outstation's parser reads the same headers back unless it objects to one |
| Requests.AddCrobs | app/src/main/java/cpp/com_automatak_dnp3_impl_CommandBuilderImpl.cpp:40-74 | The batch is the element-wise conversion with 16-bit indices; at most 4 local references are live on the way, whatever the length |
| Requests.CrobIsExact | app/src/main/java/cpp/com_automatak_dnp3_impl_CommandBuilderImpl.cpp:48-67 | Field by field, a command goes out with the index and numbers the application gave it if and only if they fit the native ones |
| Requests.AnalogIsExact | app/src/main/java/cpp/com_automatak_dnp3_impl_CommandBuilderImpl.cpp:84-93 | The same for an analog command: index and status |
| Requests.AddAnalogs | app/src/main/java/cpp/com_automatak_dnp3_impl_CommandBuilderImpl.cpp:76-100 | The same for the analog commands |
| SoeAdapter.Convert | app/src/main/java/cpp/adapters/SOEHandlerAdapter.cpp:159-169 | The header information keeps its six fields; one reference is returned and at most 4 are held on the way |
| SoeAdapter.CreateMeasurement | app/src/main/java/cpp/adapters/SOEHandlerAdapter.cpp:72-76 | A measurement object, through an enumeration object for double-bit values, which is released |
| SoeAdapter.Add | app/src/main/java/cpp/adapters/SOEHandlerAdapter.cpp:46-51 | One element is appended with its index and the table restored |
| SoeAdapter.Process | app/src/main/java/cpp/adapters/SOEHandlerAdapter.cpp:37-56 | The list handed to the application is the in-order image of the batch with indices kept, the table is restored, and exactly 4 references are live at the worst moment for every batch length |
| SoeAdapter.ProcessTimes | app/src/main/java/cpp/adapters/SOEHandlerAdapter.cpp:140-157 | The same for times, which carry no index |
| SoeAdapter.ImagesAppend | app/src/main/java/cpp/adapters/SOEHandlerAdapter.cpp:37-56 | Batches one after another look like one batch |
| FutureCallback.EveryInterleaving | app/src/main/java/cpp/com_automatak_dnp3_impl_MasterImpl.cpp:81-103 | For every interleaving of copying, dropping and invoking the callback with foreign global references coming and going: no dead handle is used or deleted, the future's reference is live exactly while somebody holds the callback and is deleted once with the last holder, and the invocations complete with their results in order; with a null future the invocations, and nothing else, are faults |
| FutureCallback.RunsAsItsStepsSay | app/src/main/java/cpp/com_automatak_dnp3_impl_MasterImpl.cpp:81-103 | By the steps alone: which runs are legal, who holds the callback at the end, and which other references are live |
| FutureCallback.DeletedExactly | app/src/main/java/cpp/adapters/GlobalRef.h:36-42 | The reference is deleted, once, if and only if there were two drops more than copies, and is live until then |
| FutureCallback.InvokedWhileLive | app/src/main/java/cpp/com_automatak_dnp3_impl_MasterImpl.cpp:99-99 | At every invocation in every run the reference of a future is live |
| FutureCallback.CompletesOnce | app/src/main/java/cpp/com_automatak_dnp3_impl_MasterImpl.cpp:95-99 | Every invocation in a run completes the future once, with its own result, and no other step does |
| FutureCallback.RunIsSound | app/src/main/java/cpp/adapters/GlobalRef.h:36-42 | The invariant behind it is kept by every run |
| FutureCallback.RunCompletes | app/src/main/java/cpp/com_automatak_dnp3_impl_MasterImpl.cpp:82-100 | The completions of a run are those of its invocations, in order |
| FutureCallback.OperateCallback.constructor | app/src/main/java/cpp/com_automatak_dnp3_impl_MasterImpl.cpp:81-82 | Makes the global reference and its two holders |
| FutureCallback.OperateCallback.CopyTo | app/src/main/java/cpp/com_automatak_dnp3_impl_MasterImpl.cpp:82-82 | Copying the callback is the copy step of the run machine |
| FutureCallback.OperateCallback.DropHolder | app/src/main/java/cpp/adapters/GlobalRef.h:39-42 | Dropping a holder is its drop step, the last one deleting the reference |
| FutureCallback.OperateCallback.Call | app/src/main/java/cpp/com_automatak_dnp3_impl_MasterImpl.cpp:82-100 | An invocation is its invoke step, and restores the local table with at most 5 references live |
| FutureCallback.BuildResult | app/src/main/java/cpp/com_automatak_dnp3_impl_MasterImpl.cpp:84-97 | The Java result holds one entry for each point, in order |
| JavaCache.JCache.InitClass | app/src/main/java/cpp/jni/JNIAnalogConfig.cpp:27-49 | Succeeds if and only if the class and all members are found; keeps a global reference if and only if the class is found; no local reference is left |
| JavaCache.JCache.Init | app/src/main/java/cpp/jni/JCache.cpp:118-213 | On a cache in any state: succeeds if and only if every lookup does; takes global references for exactly the classes before the first failure, and for the failing one if only a member was missing; handles beyond that stay as they were; no local reference is left |
| JavaCache.JCache.Cleanup | app/src/main/java/cpp/jni/JCache.cpp:215-309 | Exactly the cached references are released; a fault is counted for each handle that is already dead |
| JavaCache.LoadAndUnload | app/src/main/java/cpp/adapters/JNI.cpp:28-37 | Loading and then unloading, on any cache whose earlier references are released, restores both tables; unloading releases again exactly the stale references of the classes that loading did not get to, so it is without fault if and only if loading reached every class that still has a handle |
| CacheRuns.Run | app/src/main/java/cpp/adapters/JNI.cpp:28-37 | Every run of loads and unloads on one cache, in any order: the outcome of each step is known from the steps before it, and the global table ends as it began if and only if no load overwrote a class whose reference was live and none is held at the end |
| CacheRuns.FaultlessExactly | app/src/main/java/cpp/adapters/JNI.cpp:34-37 | An unload is without fault if and only if no class is stale when it happens |
| CacheRuns.LoadFollows | app/src/main/java/cpp/jni/JCache.cpp:118-213 | A load puts every class it gets to in the state it is said to be in, and leaves the others |
| CacheRuns.UnloadFollows | app/src/main/java/cpp/jni/JCache.cpp:215-309 | An unload makes every held class stale and leaves the others |
| CacheRuns.LoadAccounts | app/src/main/java/cpp/jni/JCache.cpp:118-213 | After a load every live reference is an old one, held by the cache, or leaked; the leaked ones are those it overwrote |
| CacheRuns.UnloadTwice | app/src/main/java/cpp/adapters/JNI.cpp:28-37 | Load and unload restore both tables whether or not loading succeeded, without a double release; a second unload would release again every class that loading had got to, however far it got |
| CacheRuns.LoadTwice | app/src/main/java/cpp/adapters/JNI.cpp:28-37 | Two rounds from a fresh cache: the second unloading releases again what the first loading had taken and the second did not get to |
| ConfigDatabase.DatabaseConfig.constructor | app/src/main/cpp/libs/include/asiodnp3/DatabaseConfig.h:37-56 | Arrays of the narrowed sizes with every slot at its own index, the time-and-interval array empty |
| ConfigDatabase.DatabaseConfig.InitIndices | app/src/main/cpp/libs/include/asiodnp3/DatabaseConfig.h:71-78 | Every slot gets its own position and keeps the rest |
| ConfigDatabase.FillSlots | app/src/main/java/cpp/adapters/ConfigReader.cpp:157-160 | Every slot is written with the conversion of the element at its position; a write out of bounds happens if and only if the list has more than 65535 elements, and then first at the narrowed size; otherwise the table is restored, with 2 references live for each element |
| ConfigDatabase.ConvertElement | app/src/main/java/cpp/adapters/ConfigReader.cpp:189-210 | One element is converted and its temporaries are released |
| ConfigDatabase.ConvertDatabase | app/src/main/java/cpp/adapters/ConfigReader.cpp:153-186 | No write is out of bounds if and only if all seven lists have at most 65535 elements, and then every array is the conversion of its list and the local references are restored, with 2 to 4 live at the worst moment whatever the lengths |
| ConfigDatabase.ConvertOutstationStackConfig | app/src/main/java/cpp/adapters/ConfigReader.cpp:80-109 | The same from the Java configuration on, sizes narrowed first; every array is the conversion of the list of its own name, and exactly 8 references are live at the worst moment, when the sizes are read |
| ConfigDatabase.ConversionIsExact | app/src/main/java/cpp/adapters/ConfigReader.cpp:189-210 | Field by field, a configuration survives the casts if and only if its numbers fit; a deadband survives for the types that have one |
| ConfigDatabase.DeadbandsByType | app/src/main/java/cpp/adapters/ConfigReader.cpp:189-210 | A deadband is read for four of the seven types and for no other |
| CommandSets.Build | app/src/main/dotnet/bindings/CLRInterface/CommandSet.cs:111-117 | Building makes exactly the builder calls of the leaves from left to right, and ends for every nesting |
| CommandSets.ReplayIsFoldOfLeaves | app/src/main/dotnet/bindings/CLRInterface/CommandSet.cs:88-117 | For a builder with any state, node-by-node replay is the fold over the leaves |
| CommandSets.SameLeavesSameOutcome | app/src/main/dotnet/bindings/CLRInterface/CommandSet.cs:106-117 | Sets with the same leaves leave any builder in the same state |
| CommandSets.RecorderSeesLeaves | app/src/main/dotnet/bindings/CLRInterface/CommandSet.cs:88-117 | The converse: a builder that keeps its calls tells two sets apart if and only if their leaves differ |
| CommandSets.RegroupingIsInvisible | app/src/main/dotnet/bindings/CLRInterface/CommandSet.cs:106-109 | Grouping, regrouping and empty sets leave no trace |
| CommandSets.ListedSetsAddEach | app/src/main/dotnet/bindings/CLRInterface/CommandSet.cs:106-117 | A set written as a list of headers adds each of them once, in order |
| CommandSets.EachLeafIsWritten | app/src/main/dotnet/bindings/CLRInterface/CommandSet.cs:88-117 | However deep the nesting, a batch is among the leaves exactly as often as it is written in the set |
| ChangeSets.ChangeSet.Apply | app/src/main/dotnet/bindings/CLRInterface/ChangeSet.cs:49-55 | The target receives all updates in order and the set is unchanged, unless the set is applied to itself: that fails after one update if and only if it is not empty |
| ChangeSets.ChangeSet.Record | app/src/main/dotnet/bindings/CLRInterface/ChangeSet.cs:75-118 | Every overload appends its update |
| ChangeSets.RecordAll | app/src/main/dotnet/bindings/CLRInterface/ChangeSet.cs:75-118 | Recording a list appends it |
| ChangeSets.Relay | app/src/main/dotnet/bindings/CLRInterface/ChangeSet.cs:49-55 | Relaying through any chain of distinct sets: each link ends with its own updates followed by all that came down the chain, and the database receives those of the last |
| ChangeSets.ApplyLastToFirst | app/src/main/dotnet/bindings/CLRInterface/ChangeSet.cs:49-55 | Applying the same sets directly, from the last to the first, sends the database exactly the same |
| ChangeSets.RelayPilesUp | app/src/main/dotnet/bindings/CLRInterface/ChangeSet.cs:49-55 | The closed form of what each link holds |
| ChangeSets.EmptyRelaysAreTransparent | app/src/main/dotnet/bindings/CLRInterface/ChangeSet.cs:49-55 | Through links that were empty, the last one holds exactly the updates of the first |
| ChangeSets.TogetherOrApart | app/src/main/dotnet/bindings/CLRInterface/ChangeSet.cs:49-118 | Recording A and then B into one set and applying it sends a database the same as applying a set with A and a set with B, and leaves any state it keeps the same |
| CompletionProxy.TaskCompletionProxy.Receive | app/src/main/dotnet/bindings/CLRInterface/TaskCompletionProxy.cs:29-53 | A callback at the head of a chain sets every result still open if it completes, and reaches the end of the chain once |
| CompletionProxy.DeliverAll | app/src/main/dotnet/bindings/CLRInterface/TaskCompletionProxy.cs:29-53 | After any run every proxy holds what `Settled` says and the end has received every callback once, in order |
| CompletionProxy.FirstResultWins | app/src/main/dotnet/bindings/CLRInterface/TaskCompletionProxy.cs:37-45 | What is held is the first completed result of the run, and nothing if and only if there was none |
| CompletionProxy.ResultIsFinal | app/src/main/dotnet/bindings/CLRInterface/TaskCompletionProxy.cs:37-45 | A held result never changes |
| CompletionProxy.ChainIsDistinct | app/src/main/dotnet/bindings/CLRInterface/TaskCompletionProxy.cs:16-19 | A chain of proxies that comes to an end never meets the same proxy twice |
| Updates.AddUpdate | app/src/main/cpp/examples/outstation/main.cpp:135-171 | One character: the update it makes and the new state |
| Updates.AddUpdates | app/src/main/cpp/examples/outstation/main.cpp:131-172 | A line's updates are appended to the builder and the state is stepped, as the letter machine says |
| Updates.OutputIsKnown | app/src/main/cpp/examples/outstation/main.cpp:131-172 | Every recognised letter makes one update, in order; the update of the k-th same letter is known by arithmetic: counters modulo 2^32, octet strings modulo 256, binary and double-bit values alternating, analog values up to 2^53 |
| Updates.KindsAreIndependent | app/src/main/cpp/examples/outstation/main.cpp:52-59 | Each kind's state depends only on how often its own letter occurred |
| Updates.NthFromTheStart | app/src/main/cpp/examples/outstation/main.cpp:52-59 | From the initial state, in numbers: counters from 0, octet strings from 1, binary and double-bit values from off |
| Updates.OneLetterLine | app/src/main/cpp/examples/outstation/main.cpp:135-171 | What a line of one letter emits, for every letter |
| Updates.LinesConcatenate | app/src/main/cpp/examples/outstation/main.cpp:131-172 | Two lines one after the other equal their concatenation, for either program |
| Updates.AddTlsUpdate | app/src/main/cpp/examples/tls/outstation/main.cpp:165-194 | One character of the TLS variant |
| Updates.AddTlsUpdates | app/src/main/cpp/examples/tls/outstation/main.cpp:161-195 | A line of the TLS variant |
| Updates.LockStep | app/src/main/cpp/examples/tls/outstation/main.cpp:161-195 | From matching states the TLS variant stays in step with the plain one, and its output is the plain output without the octet strings |
| Updates.SameWithoutOctets | app/src/main/cpp/examples/tls/outstation/main.cpp:161-195 | On lines without the letter o the two emit the same |
| TimeStamps.ConvertsExactly | app/src/main/dotnet/bindings/CLRInterface/Timestamp.cs:47-58 | Which timestamps convert, which saturate, and which fail and how |
| TimeStamps.MillisecondsRoundTrip | app/src/main/dotnet/bindings/CLRInterface/Timestamp.cs:47-69 | Milliseconds to date-time and back is the identity if and only if the timestamp is not beyond the last date, whatever the local zone |
| TimeStamps.DateTimeRoundTrip | app/src/main/dotnet/bindings/CLRInterface/Timestamp.cs:47-69 | Date-time to milliseconds and back differs by less than a millisecond, towards the epoch, and is exact if and only if the ticks are whole milliseconds |
| TimeStamps.ConversionsAreMonotone | app/src/main/dotnet/bindings/CLRInterface/Timestamp.cs:47-69 | Both directions keep order, and distinct timestamps collide only in saturation |
| TimeStamps.ConstantsByCalendar | app/src/main/dotnet/bindings/CLRInterface/Timestamp.cs:35-40 | The epoch and the last date, counted in days from the year 1 |
| TimeStamps.Moments | app/src/main/dotnet/bindings/CLRInterface/Timestamp.cs:47-69 | Some moments around the epoch, in both directions and with a local zone |
| TimeStamps.LocalIsUniversalPlusOffset | app/src/main/dotnet/bindings/CLRInterface/Timestamp.cs:65-69 | Local time is universal time plus the offset, or the nearest representable time |
| ClassFields.From | app/src/main/dotnet/bindings/CLRInterface/ClassField.cs:29-37 | The loop builds the mask of its classes |
| ClassFields.Mask | app/src/main/dotnet/bindings/CLRInterface/ClassField.cs:29-37 | A class bit is set if and only if the class occurs, and no other bit is |
| ClassFields.MaskValues | app/src/main/dotnet/bindings/CLRInterface/ClassField.cs:39-53 | The masks of the single classes and of the two predefined fields |
| ClassFields.OnlyMembersMatter | app/src/main/dotnet/bindings/CLRInterface/ClassField.cs:29-37 | Order and repetition do not matter |
| ClassFields.ConcatenationIsUnion | app/src/main/dotnet/bindings/CLRInterface/ClassField.cs:29-37 | Concatenation is union |
| ClassFields.ClassField.Set | app/src/main/dotnet/bindings/CLRInterface/ClassField.cs:63-141 | The four property setters |
| ClassFields.ClassField.SetAll | app/src/main/dotnet/bindings/CLRInterface/ClassField.cs:63-141 | After any run of setters each class reads as last written, and as before if it was not written |

## Left out

- Delivery.HandleAssignClass: posting notices to an executor is modelled as a list in posting order.
- Parsing.ParseHeader: logging is not modelled, nor the white list, which for assign-class requests admits everything; the objects behind a header are kept as bytes, since every handler modelled here ignores them.
- ConfigDatabase.ConvertDatabase: enumeration codes are given as numbers; nothing is promised about the references after a write out of bounds.
- ConfigDatabase.ConvertOutstationStackConfig: the link, event buffer and outstation parameters are plain field copies and are omitted, and with them the references held while they are read.
- Outstation.AssignClassHandler.OnHeader: the header counter is unbounded here and 32 bits wide there; a fragment is far too short for it to wrap.
- Iteration.IterateWithIndex: the position is unbounded here and an `int` there, so collections of more than 2^31 - 1 elements are not covered; a callback is a pair of functions on the client's state and on the local table, so callbacks that throw or re-enter are not covered.
- Iteration.Iterate: modelled as the indexed walk with a callback that does not look at the position.
- Requests.AddCrobs: the status code is kept as a byte, without the table that maps unknown codes; the same holds for AddAnalogs.
- Requests.CollectHeaders: enumeration codes outside Java's own enumeration cannot occur and are not modelled.
- SoeAdapter.Process: creation of one measurement is a function of the native value; the field lists of the eight measurement types are not spelled out. A handle stands for the wrapper that owns it, since the wrapper's own rules are proved in `WrapperRuns.dfy`.
- FutureCallback.EveryInterleaving: the shared pointer's counter is atomic; the steps are its atomic operations, and thread attachment is not modelled.
- JavaCache.JCache.InitClass: asking for a member of a class that was not found is modelled as a failed lookup; every generated class looks up at least one member.
- CommandSets.Build: an array passed to `CommandSet.From` is taken not to be changed afterwards, so a set cannot contain itself; null elements are not modelled.
- ChangeSets.ChangeSet.Apply: a database is known by the updates it receives, and an update by kind, value, index and mode; a database that throws, or that changes the set while it is applied, is not covered beyond self-application.
- CompletionProxy.TaskCompletionProxy.Receive: a chain that closes into a ring would never return and is excluded by the chain having an end.
- Updates.AddUpdate: a `double` that only ever counts up from a whole number is modelled as a whole number that stops at 2^53; other doubles are not covered.
- TimeStamps.FromDnp: the limit of `TimeSpan.FromMilliseconds` is a parameter, and its conversion of the argument to `double` is exact within any such limit that keeps 64-bit ticks.
- TimeStamps.ToDnp: the local zone is any function from a local time to its offset.
- JVM failures other than failed lookups, null elements of collections, and pending exceptions.
- The raw handles that `ConvertTLSConfig` and the statistics getters use after their wrapper is gone.
- The other generated cache classes, which repeat the shape of the one modelled, and the C++/CLI conversions.
- The rest of the outstation and master state machines, the link and transport layers, and the other function codes.
- Enumeration tables, one-call forwarding adapters, log filters, and the example programs' `main` loops.
