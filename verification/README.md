# RobotRaconteur marshalling and thunk generation: a Dafny model

RobotRaconteur moves typed robot data between programs. A service definition gives the types; a
marshaller turns values into message elements and back; a generator prints C++, C# and Java thunk code
for a definition. This project models the parts of that where the reasoning is hard and proves what they
are for.

**The Python marshaller** (`Types`, `Packing`, `Unpacking`, `PackerClass`, `UnpackerClass`). Values are
trees of Python objects and numpy arrays (shape, element type, elements in row-major order); types are
resolved definitions with scalars, arrays, multi-dimensional arrays, lists, int and string maps,
structures, enums, pods with padded variable-length fields, named arrays and varvalues. `Pack` and
`Unpack` say what a message is; the classes are the recursive, stack-keeping objects of the source and
compute exactly that. `RoundTrip` defines when a value obeys a type (`Fits`) and what comes back
(`Back`); `RoundTripProof`, `PodRoundTrip`, `Layout`, `Containers` and `Repack` prove it, `ErrorPaths`
and `UnpackErrorPaths` say what the error paths mean. `ColumnMajor` has the index arithmetic. A round trip
does not say what is on the wire, so the message format is also said twice more, as relations apart from
the packer and the unpacker: `NumberMeaning` for the values of numbers, `WireFormat` and `WireValues` for
what is sent, `ReadRecords` and `ReadValues` for what is received; `PacksExactly` and `UnpacksExactly`
show that exactly the values and messages with such a meaning are accepted.

**The named-array generators** (`JavaNamedArray`, `JavaArrayLengths`, `CSharpNamedArray`, `CSharpStub`,
`NamedArrayLayouts`). A generator is a compiler from a definition to a list of copies and calls with a running offset; an interpreter runs the
emitted program on a buffer, with the exceptions of the target language.

**The generator's graph algorithms** (`PodOrder`, `AutoImport`, `NameOrder`): emission in dependency
order with its cycle error, and the transitive import closure.

**Printers with a lexer as inverse** (`Unicode`, `StringConstants`, `LiteralLexers`, `DefString`,
`CppTypes`, `CppDeclarations`, `CppReader`, `CppMemberReader`): string constants and embedded definitions
for three languages, read back by sections 3.3 and 3.10.6 of the Java Language Specification SE 8, section 6.4.5.6 of ECMA-334
7th edition and section 5.13.3 of ISO/IEC 14882:2017; the C++ type printer with the functions that take
printed text apart, and a reader that gives back the type.

**Array memories** (`ArrayMemories`) and **two small machines** (`AutoResetEvent`, `Downsampler`).

Some expected laws turn out not to hold of the code, and each is replaced by the exact condition under
which it does: the C# stub cannot read structs with nested arrays of structs (`CSharpStub`), the C++
literal misreads a hexadecimal digit after an escaped byte (`LiteralLexers`), `dforc` drops the word
`virtual` from names (`CppDeclarations`), `fix_name` lets the keywords `constexpr` and `not_eq` through
and maps two names to one where one is a reserved word (`CppReader`), a C# definition literal breaks at
line separators the trimming does not know, and normalising an embedded definition twice is never the same as once (`DefString`), and
the import worklist does not end when files import each other under names they do not define
(`AutoImport`).

Assumptions: dimension products and counts fit their machine integers; floating-point values are reals
in the range of their type, complex numbers are opaque pairs; the parser and printer of type strings are
inverse, so a varvalue's type travels as itself; named types are resolved and their nesting is acyclic.
Where the `Packing` predicates `EnvOk`, `TypeOk` and `PyOk` are required,
they say what a parsed definition and a numpy array guarantee by construction.

## Model

| member | source | states |
|---|---|---|
| `RoundTripProof.ValueRoundTrip` | RobotRaconteurPython/PythonTypeSupport.cpp:763-2165 | For every resolved type and every Python value, packing and then unpacking with the same type both succeed if and only if the value obeys the type, and then the receiver gets the value itself up to fixed normalisations (a sequence given for an int map becomes a map keyed from 0, a string, byte array or numpy array given for a list or int map the list or map of its items, enums their number, pods lose padding); also for values inside varvalues, at any nesting. |
| `Repack.SequencePacksAsList` | RobotRaconteurPython/PythonTypeSupport.cpp:848-904 | A string, byte array or numpy array given for a list or an int map packs exactly as the list of its items. |
| `Repack.LaterTripsAreStable` | RobotRaconteurPython/PythonTypeSupport.cpp:783-817 | One trip normalises a value, varvalues included: packing what was received gives the same message, and unpacking that changes nothing more. |
| `Repack.RepackValue` | RobotRaconteurPython/PythonTypeSupport.cpp:783-817 | Pack, unpack, pack equals pack for every value that obeys its type, although the inferred types of varvalues differ from the ones sent. |
| `NumberMeaning.NumbersOnTheWire` | RobotRaconteurPython/PythonTypeSupport.cpp:2266-2728 | A number, list, byte array or string given where numbers of kind k are declared packs if and only if it lists as many as the type admits and each can be sent as a k; then the wire holds, item by item, the number of kind k with the value of the item, integers exactly and in range, casts from numpy scalars without their fraction and wrapped. Stated for Pack over the values of Python numbers, without its conversion functions. |
| `NumberMeaning.ConvertMeans` | RobotRaconteurPython/PythonTypeSupport.cpp:2266-2577 | The conversion of one item succeeds exactly for the sendable numbers and yields the number of that kind with its value. |
| `NumberMeaning.NumberComesBack` | RobotRaconteurPython/PythonTypeSupport.cpp:2579-2775 | A scalar number comes back as the Python class of its kind, with the value it was sent with. |
| `NumberMeaning.IntegerForDouble` | RobotRaconteurPython/PythonTypeSupport.cpp:2375-2432 | An integer n for a double packs exactly when the double holds it, as the number n, and comes back as the float n. |
| `NumberMeaning.ArrayOnTheWire` | RobotRaconteurPython/PythonTypeSupport.cpp:2776-2841 | A numpy array of numbers packs if and only if it has the declared kind and is one row in some direction; its elements are sent as they are. |
| `NumberMeaning.MultiDimOnTheWire` | RobotRaconteurPython/PythonTypeSupport.cpp:2958-3008 | A multi-dimensional array packs if and only if it has the declared kind and dimensions; the wire holds its shape, and the element of every index at its column-major position. |
| `NumberMeaning.FloatRanges` | RobotRaconteurPython/PythonTypeSupport.cpp:2436-2437 | The range limits of the floating kinds are the largest finite values of section 3.6 of IEEE 754-2019. |
| `NumberMeaning.IntegerRanges` | RobotRaconteurPython/PythonTypeSupport.cpp:2266-2373 | The ranges of the integer kinds, in decimal. |
| `WireValues.PackedIsEncoded` | RobotRaconteurPython/PythonTypeSupport.cpp:763-1217 | Whatever the packer sends for a value of a type stands for that value in the message format `Encodes`, a relation said apart from the packer: element types, names and numbers, field order, enum numbers, array listings, key numbers, type names, at any nesting. |
| `PacksExactly.PacksExactly` | RobotRaconteurPython/PythonTypeSupport.cpp:763-1217 | Every value is packed if and only if it can be sent as the type, a condition said apart from the packer for all types and nestings (missing values, lengths, kinds, ranges, keys, classes, attributes, record counts and lengths); and what is sent stands for it. |
| `WireFormat.RecordIsEncoded` | RobotRaconteurPython/PythonTypeSupport.cpp:589-761 | A pod record is an element list with one named element per field in order, each an array of its used elements, the first index varying fastest. |
| `WireFormat.PodsAreEncoded` | RobotRaconteurPython/PythonTypeSupport.cpp:749-761 | An array of pods is the list of its records, numbered in column-major order. |
| `WireValues.KeyNumberMeans` | RobotRaconteurPython/PythonTypeSupport.cpp:902-946 | The number an int map key is sent as is that of the Python integer, bool or numpy integer it is. |
| `WireValues.AcceptedKeys` | RobotRaconteurPython/PythonTypeSupport.cpp:902-946 | A key is accepted if and only if it stands for an int32. |
| `WireValues.ItemsOfArray` | RobotRaconteurPython/PythonTypeSupport.cpp:848-900 | The items of a numpy array are its numbers, or the arrays that hold at each index the element whose index is the item's position followed by it. |
| `WireValues.ItemsOfText` | RobotRaconteurPython/PythonTypeSupport.cpp:848-900 | The items of a string are its characters, those of a byte array its bytes. |
| `ReadValues.UnpackedIsDecoded` | RobotRaconteurPython/PythonTypeSupport.cpp:1586-2165 | Whatever the unpacker returns for any message element, well-formed or not, with or without an expected type, is what that element stands for in the relation `Decodes`, said apart from the unpacker: first elements of a name, positions, later keys replacing earlier ones, inferred types, record names, listings. |
| `UnpacksExactly.UnpacksExactly` | RobotRaconteurPython/PythonTypeSupport.cpp:1586-2165 | Every message element, well-formed or not, is unpacked if and only if it stands for some value in the relation `Decodes`; so unused and repeated elements, elements in any order and numbers given as names are read, and everything else is refused. |
| `ReadRecords.RecordIsRead` | RobotRaconteurPython/PythonTypeSupport.cpp:1464-1569 | A record is read field by field from the first element of each name; a variable-length field is followed by zeros up to its declared length and keeps the number read. |
| `ReadRecords.MultiDimIsRead` | RobotRaconteurPython/PythonTypeSupport.cpp:3029-3071 | Numbers sent with dimensions are read with these dimensions, the first index varying fastest. |
| `ReadRecords.ItemNumberMeans` | RobotRaconteurPython/PythonTypeSupport.cpp:1800-1820 | An element's number is its own, or the int32 its name writes in decimal. |
| `ReadValues.DictSetMeans` | RobotRaconteurPython/PythonTypeSupport.cpp:1821-1824 | Setting a key replaces its entry or adds one, and leaves the others. |
| `ErrorPaths.PathLeadsToFailure` | RobotRaconteurPython/PythonTypeSupport.cpp:848-1062 | When packing fails, the reported path names exactly the structure fields, list indices and map keys down to the first failing value in traversal order: all earlier siblings at every level pack, and that value fails by itself. |
| `UnpackErrorPaths.PathLeadsToFailure` | RobotRaconteurPython/PythonTypeSupport.cpp:1773-2054 | The same for unpacking a message element, with or without an expected type. |
| `ErrorPaths.ChildFailure` | RobotRaconteurPython/PythonTypeSupport.cpp:848-1062 | A container or structure fails with the error of its first failing child, one level deeper. |
| `ErrorPaths.OwnFailure` | RobotRaconteurPython/PythonTypeSupport.cpp:763-1217 | A value all of whose children pack fails, if it does, without adding a level; pods and varvalues add none. |
| `UnpackErrorPaths.OneLevelAlways` | RobotRaconteurPython/PythonTypeSupport.cpp:1586-2165 | Unpacking enters one level at a time: the outcome of an element is decided by its first failing child, or else by the element itself at no further level. |
| `FieldStack.LevelTexts` | RobotRaconteurPython/PythonTypeSupport.cpp:861-1057 | The texts of the levels: a member's name, an index or number in brackets that reads back as itself, a key in brackets, quoted or bare. |
| `PackerClass.PackMessageElementImpl.PackMessageElement` | RobotRaconteurPython/PythonTypeSupport.cpp:763-1217 | The recursive packer computes the specified element, leaves the field stack unchanged on every normal return, and on an exception leaves the path of the error pushed on top of it. |
| `PackerClass.PackMessageElementImpl.PackStructFields` | RobotRaconteurPython/PythonTypeSupport.cpp:1041-1067 | The field loop: results in field order, stack restored, or the failing field's path on the stack. |
| `PackerClass.PackMessageElementImpl.PackListItems` | RobotRaconteurPython/PythonTypeSupport.cpp:848-874 | The list loop, with the index as level. |
| `PackerClass.PackMessageElementImpl.PackIntMapEntries` | RobotRaconteurPython/PythonTypeSupport.cpp:902-946 | The int map loop; a key outside int32 stops with its own level on the stack. |
| `PackerClass.PackMessageElementImpl.PackStringMapEntries` | RobotRaconteurPython/PythonTypeSupport.cpp:955-996 | The string map loop, with the quoted key as level. |
| `PackerClass.PackMessageElementImpl.PackLevel` | RobotRaconteurPython/PythonTypeSupport.cpp:1222-1232 | A level is pushed before a nested value and popped only when it did not throw. |
| `PackerClass.FillArray` | RobotRaconteurPython/PythonTypeSupport.cpp:2266-2373 | The conversion loop fills a new buffer with the converted items, and throws exactly when some item does not convert or does not fit the width. |
| `PackerClass.PackPodRecords` | RobotRaconteurPython/PythonTypeSupport.cpp:589-761 | The loop over the records of a pod array in column-major order. |
| `UnpackerClass.UnpackMessageElementImpl.UnpackMessageElement` | RobotRaconteurPython/PythonTypeSupport.cpp:1586-2165 | The recursive unpacker computes the specified value with the same stack discipline. |
| `UnpackerClass.UnpackMessageElementImpl.UnpackVarListItems` | RobotRaconteurPython/PythonTypeSupport.cpp:1760-1792 | The list loop of an inferred varvalue list. |
| `UnpackerClass.UnpackMessageElementImpl.UnpackIntMap` | RobotRaconteurPython/PythonTypeSupport.cpp:1990-2027 | The int map loop: later keys replace earlier ones, numbered and named elements are both read. |
| `UnpackerClass.UnpackMessageElementImpl.UnpackStructFields` | RobotRaconteurPython/PythonTypeSupport.cpp:1924-1942 | The structure field loop. |
| `Unpacking.NumbersAsNames` | RobotRaconteurPython/PythonTypeSupport.cpp:1800-1820 | A map key sent as a decimal element name is read back as the same number, for every int32. |
| `PodRoundTrip.RecordsRoundTrip` | RobotRaconteurPython/PythonTypeSupport.cpp:589-1569 | Pods of any nesting come back record by record; packing and unpacking succeed exactly when every record fits. |
| `PodRoundTrip.CellRoundTrip` | RobotRaconteurPython/PythonTypeSupport.cpp:654-1569 | One record comes back with its variable-length fields' first `len` elements and `len`, only the padding reset to zero. |
| `PodRoundTrip.SlotRoundTrip` | RobotRaconteurPython/PythonTypeSupport.cpp:654-1569 | One field: a multi-dimensional field is flattened to its product length and restored at the same indices. |
| `PodRoundTrip.NamedArrayRoundTrip` | RobotRaconteurPython/PythonTypeSupport.cpp:513-1387 | An array of named-array records travels as one flat numeric array and comes back the same, in column-major record order. |
| `Layout.FlattenUnflatten` | RobotRaconteurPython/PythonTypeSupport.cpp:513-587 | The numbers of a record fill exactly the element count of its definition and determine the record. |
| `Layout.UnflattenFlatten` | RobotRaconteurPython/PythonTypeSupport.cpp:1319-1387 | Any numbers of that count and kind are the layout of the record read from them. |
| `Layout.FlattenAllUnflatten` | RobotRaconteurPython/PythonTypeSupport.cpp:513-587 | The same for arrays of records: record i occupies the i-th stretch of `Count` numbers. |
| `ColumnMajor.ColumnIndexInverse` | RobotRaconteurPython/PythonTypeSupport.cpp:2926-2950 | Column-major positions are in range and determine the multi-index, for any rank. |
| `ColumnMajor.ColumnMultiInverse` | RobotRaconteurPython/PythonTypeSupport.cpp:2926-2950 | Every position below the product of the dimensions is that of exactly one in-bounds multi-index. |
| `ColumnMajor.FortranStrides` | RobotRaconteurPython/PythonTypeSupport.cpp:2920-2926 | In a Fortran-contiguous buffer the stride offset of an index is its column-major position. |
| `ColumnMajor.ContiguousBlockIsWireOrder` | RobotRaconteurPython/PythonTypeSupport.cpp:2920-2926 | The block copy of a Fortran-contiguous array equals the element-by-element copy. |
| `ColumnMajor.PackMultiDim` | RobotRaconteurPython/PythonTypeSupport.cpp:2897-2956 | Both branches fill the wire array with the elements in column-major order, whatever the strides. |
| `ColumnMajor.UnpackMultiDim` | RobotRaconteurPython/PythonTypeSupport.cpp:3009-3027 | The numpy array built from a wire array lists as that wire array, with the given shape. |
| `ColumnMajor.ReorderInverse` | RobotRaconteurPython/PythonTypeSupport.cpp:2926-3027 | Reordering to column-major and back are inverse in both directions. |
| `ColumnMajor.WireOrderKeepsElements` | RobotRaconteurPython/PythonTypeSupport.cpp:2926-3071 | Packing and unpacking keep the element at every index, for any rank and any strides. |
| `JavaNamedArray.GenerateNamedArray` | RobotRaconteurGen/JavaServiceLangGen.cpp:909-958 | The generator's running offset is always the summed size of the members already emitted, and the statement for each member carries it. |
| `JavaNamedArray.GetWrites` | RobotRaconteurGen/JavaServiceLangGen.cpp:905-960 | For every acyclic nesting of named arrays the emitted getNumericArray writes exactly the positions from `offset` to `offset + count`, each once and in order, with the object's numbers, and nothing else. |
| `JavaNamedArray.AssignReads` | RobotRaconteurGen/JavaServiceLangGen.cpp:962-1018 | The emitted assignFromNumericArray turns any object of the class into the one laid out in that segment, whatever it held. |
| `JavaNamedArray.AssignUndoesGet` | RobotRaconteurGen/JavaServiceLangGen.cpp:905-1018 | What one object writes, another reads back as the same object. |
| `JavaNamedArray.GetUndoesAssign` | RobotRaconteurGen/JavaServiceLangGen.cpp:905-1018 | What an object reads from a segment it writes back as the same numbers; onto its own segment, nothing changes. |
| `JavaNamedArray.GetEachWrites` | RobotRaconteurGen/JavaServiceLangGen.cpp:1036-1046 | The static array method writes the objects back to back with stride `count`. |
| `JavaNamedArray.ArraysTileTheBuffer` | RobotRaconteurGen/JavaServiceLangGen.cpp:1021-1056 | n objects tile n * count numbers exactly, and the static methods undo each other. |
| `JavaArrayLengths.GetCompletes` | RobotRaconteurGen/JavaServiceLangGen.cpp:905-960 | For an object with arrays of any lengths and null objects anywhere, getNumericArray ends normally if and only if no number array is shorter than declared, nothing is null, and the buffer is as long as the copies reach; then nothing outside that reach has changed. |
| `JavaArrayLengths.AssignCompletes` | RobotRaconteurGen/JavaServiceLangGen.cpp:962-1018 | assignFromNumericArray ends normally under the same condition, and leaves every array its length. |
| `JavaArrayLengths.ReachIsInside` | RobotRaconteurGen/JavaServiceLangGen.cpp:947-962 | Unless an array of objects is longer than declared, the reach is the object's own `count` numbers. |
| `JavaArrayLengths.OverlongWritesPast` | RobotRaconteurGen/JavaServiceLangGen.cpp:947-962 | A concrete object with one nested object too many that writes over the number after its own. |
| `NamedArrayLayouts.SameNumbers` | RobotRaconteurGen/CSharpServiceLangGen.cpp:705-743 | Whatever a record holds, the Java object and the C# struct with its values write the same numbers to the same places, those the Python packer sends for it. |
| `NamedArrayLayouts.SameValues` | RobotRaconteurGen/CSharpServiceLangGen.cpp:745-788 | From the same numbers the Java object, the C# struct and the Python unpacker get the same values. |
| `JavaNamedArray.CountSplit` | RobotRaconteurCore/src/ServiceDefinition.cpp:5068-5158 | The element count of a definition is the count of a prefix of its members plus that of the rest. |
| `CSharpNamedArray.GeneratePod` | RobotRaconteurGen/CSharpServiceLangGen.cpp:705-743 | The emitted program is the specified one, its guard being the final running offset. |
| `CSharpNamedArray.GetRuns` | RobotRaconteurGen/CSharpServiceLangGen.cpp:705-743 | Once the outermost segment passes its guard, the run writes inside the first `count` elements only, every ArraySegment built lies inside the segment of the method that built it, and the run ends with exactly the fault that can be read off the struct. |
| `CSharpNamedArray.AssignRuns` | RobotRaconteurGen/CSharpServiceLangGen.cpp:745-788 | The same for AssignFromNumericArray. |
| `CSharpNamedArray.OnlyOverlongArraysFire` | RobotRaconteurGen/CSharpServiceLangGen.cpp:811-835 | Inner guards fire for nothing but a struct array longer than declared; no segment constructor and no index check ever fails. |
| `CSharpNamedArray.AssignReads` | RobotRaconteurGen/CSharpServiceLangGen.cpp:745-788 | With struct arrays allocated at their declared lengths, assigning makes the struct the one laid out in the segment, whatever its number arrays held. |
| `CSharpNamedArray.GetWrites` | RobotRaconteurGen/CSharpServiceLangGen.cpp:705-743 | A struct laid out by some numbers writes exactly those numbers at the start of its segment. |
| `CSharpNamedArray.NumbersThereAndBack` | RobotRaconteurGen/CSharpServiceLangGen.cpp:795-841 | m * count numbers read into m allocated structs and written back are the same numbers. |
| `CSharpStub.StructFromNumbersExactly` | RobotRaconteurGen/CSharpServiceLangGen.cpp:1363-1375 | The stub's conversion of one struct works if and only if the count matches and the definition, nested structs included, has no array of structs (those are null in a new struct); then it round-trips. |
| `CSharpStub.StructsFromNumbersExactly` | RobotRaconteurGen/CSharpServiceLangGen.cpp:1376-1392 | The array conversion works if and only if the count divides the length and there is nothing to convert or no array of structs is declared; then it round-trips. |
| `CSharpStub.NestedArrayNeverConverts` | RobotRaconteurGen/CSharpServiceLangGen.cpp:1367-1375 | A concrete definition for which the conversion always raises a null reference. |
| `CSharpStub.DefaultAssigns` | RobotRaconteurGen/CSharpServiceLangGen.cpp:1371-1374 | Assigning to a new struct meets a null reference exactly when some array of structs is declared. |
| `CSharpStub.StructThereAndBack` | RobotRaconteurGen/CSharpServiceLangGen.cpp:1363-1375 | A struct with arrays of declared lengths comes back as it was from its own numbers. |
| `PodOrder.OrderPods` | RobotRaconteurGen/CPPServiceLangGen.cpp:1224-1270 | The loop terminates, emits at each round the first entry in name order that names nothing still left, each definition after the local definitions its own members have; it ends with every name emitted, or throws, and that if and only if there is a closed walk of names along such members. |
| `PodOrder.MembersAreEmittedFirst` | RobotRaconteurGen/CPPServiceLangGen.cpp:1237-1264 | In every greedy order a named member without a dot whose type string is a definition of the map comes with that definition before it. |
| `PodOrder.RecursiveIsClosedWalk` | RobotRaconteurGen/CPPServiceLangGen.cpp:1247-1257 | The references form a cycle if and only if some walk along named, undotted members of definitions of the map ends where it began. |
| `PodOrder.AlphaAndZeta` | RobotRaconteurGen/CPPServiceLangGen.cpp:1247-1257 | A pod Alpha with a field of pod Zeta: Zeta is emitted first, and with a field of Alpha in Zeta the order is refused. |
| `PodOrder.EmittedAfterItsReferences` | RobotRaconteurGen/CPPServiceLangGen.cpp:1234-1270 | Every name is emitted at most once and after every local pod or named array its members name. |
| `PodOrder.OneGreedyOrder` | RobotRaconteurGen/CPPServiceLangGen.cpp:1234-1270 | The order is determined by the entries: there is exactly one greedy order that cannot be continued. |
| `PodOrder.OrderedIsNotRecursive` | RobotRaconteurGen/CPPServiceLangGen.cpp:1266-1267 | A complete order excludes every reference cycle. |
| `PodOrder.StuckIsRecursive` | RobotRaconteurGen/CPPServiceLangGen.cpp:1266-1267 | When no entry is free, the remaining entries contain a reference cycle. |
| `PodOrder.FindFree` | RobotRaconteurGen/CPPServiceLangGen.cpp:1237-1264 | The scan finds the first free entry, or there is none. |
| `PodOrder.FirstEntryIsKept` | RobotRaconteurGen/CPPServiceLangGen.cpp:1224-1233 | For a name used twice the map holds the first entry, a named array before a pod. |
| `PodOrder.CollectPods` | RobotRaconteurGen/CPPServiceLangGen.cpp:1224-1234 | The two loops insert every named array, then every pod, each unless its name is taken. |
| `AutoImport.EndsExactly` | RobotRaconteurGen/RobotRaconteurGen.cpp:552-577 | Whatever the files define, the worklist ends if and only if it never reads a file on a cycle of imports between existing files whose names are never defined. |
| `AutoImport.CollectImports` | RobotRaconteurGen/RobotRaconteurGen.cpp:541-578 | Whenever the worklist ends, the loop returns the definitions and the failed names of the rounds up to the one with nothing missing, each round having tried the first missing name in order. |
| `AutoImport.ImportsAreSettled` | RobotRaconteurGen/RobotRaconteurGen.cpp:552-576 | Every import of a collected definition is defined, looked for in vain, still missing, or its file has been read, whatever the files define. |
| `AutoImport.CollectsImportClosure` | RobotRaconteurGen/RobotRaconteurGen.cpp:541-578 | When each file defines the service it is named after, the worklist ends, and the collected definitions are closed under imports whose file exists and contained in every such set that holds the given ones. |
| `AutoImport.RoundsAreRun` | RobotRaconteurGen/RobotRaconteurGen.cpp:552-576 | Then the state after any number of rounds is determined by the names tried, each the first in order of those imported and not yet tried. |
| `AutoImport.CollectedIsLeastClosed` | RobotRaconteurGen/RobotRaconteurGen.cpp:541-578 | The definitions such a run has collected form the least closed set. |
| `AutoImport.TriedOnce` | RobotRaconteurGen/RobotRaconteurGen.cpp:552-576 | In such a run no name is loaded twice, no missing file is tried twice, and no given name is tried. |
| `AutoImport.UndefinableCycle` | RobotRaconteurGen/RobotRaconteurGen.cpp:552-576 | Files importing each other under names that no file and no given definition has: once one is read the worklist does not end. |
| `AutoImport.MisnamedFileIsReadForever` | RobotRaconteurGen/RobotRaconteurGen.cpp:552-576 | A concrete file of this kind, for which the worklist never ends. |
| `NameOrder.First` | RobotRaconteurGen/RobotRaconteurGen.cpp:554-555 | The first element of a std::set: least in name order. |
| `NameOrder.BeforeAtFirstDifference` | RobotRaconteurGen/RobotRaconteurGen.cpp:554-555 | Of two names the one with the smaller character where they part comes first, and a name before its extensions. |
| `LiteralLexers.JavaReadsConstant` | RobotRaconteurGen/JavaServiceLangGen.cpp:3028-3122 | For every valid UTF-8 constant, Java reads the emitted literal, ended at its closing quote, as UTF-16 code units that decode to the scalar values the bytes of the constant decode to, a backslash before `u` or before a non-ASCII run included. |
| `LiteralLexers.CSharpReadsConstant` | RobotRaconteurGen/CSharpServiceLangGen.cpp:2697-2789 | For every valid UTF-8 constant, C# reads the emitted literal as UTF-16 code units that decode to the scalar values of its bytes. |
| `LiteralLexers.CppReadsConstantExactly` | RobotRaconteurGen/CPPServiceLangGen.cpp:4223-4287 | C++ reads the emitted literal back as the bytes of the constant if and only if no byte emitted as a hexadecimal escape is directly followed by a literal hexadecimal digit. |
| `LiteralLexers.CppReads` | RobotRaconteurGen/CPPServiceLangGen.cpp:4223-4287 | Where one is followed by a digit, the literal is refused or has fewer characters than the constant. |
| `LiteralLexers.AccentThenDigit` | RobotRaconteurGen/CPPServiceLangGen.cpp:4244-4252 | A concrete text that C++ reads as a different one. |
| `LiteralLexers.EmitsPrintable` | RobotRaconteurGen/CPPServiceLangGen.cpp:4223-4287 | For all three languages what is emitted between the quotes is printable ASCII, and printable text without quotes and backslashes is emitted as it is. |
| `Unicode.ReadsUtf16` | RobotRaconteurGen/JavaServiceLangGen.cpp:3053-3057 | Reading UTF-16 by section 2.2 of RFC 2781 gives back the scalar values it was made of, surrogate pairs in order. |
| `StringConstants.ReplaceIsScalars` | RobotRaconteurGen/JavaServiceLangGen.cpp:3028-3069 | Replacing match by match, runs included, is escaping one scalar value at a time. |
| `LiteralLexers.ReplaceIsBytes` | RobotRaconteurGen/CPPServiceLangGen.cpp:4223-4253 | For C++ it is escaping one byte at a time. |
| `Unicode.DecodeUtf8` | RobotRaconteurGen/JavaServiceLangGen.cpp:3051-3068 | Decoding inverts encoding for every sequence of scalar values. |
| `Unicode.Utf8Decode` | RobotRaconteurGen/JavaServiceLangGen.cpp:3051-3068 | Whatever decodes is the UTF-8 form of what it decodes to, so overlong forms and surrogates are refused. |
| `DefString.EmitDefString` | RobotRaconteurGen/CPPServiceLangGen.cpp:1753-1763 | The loop writes one escaped and trimmed line after the other. |
| `DefString.CppReadsDefString` | RobotRaconteurGen/CPPServiceLangGen.cpp:1750-1763 | C++ reads the adjacent literals as the definition normalised line by line. |
| `DefString.JavaReadsDefString` | RobotRaconteurGen/JavaServiceLangGen.cpp:1316-1328 | Java reads the literal as the normalised definition, whatever it contains. |
| `DefString.CSharpReadsDefStringExactly` | RobotRaconteurGen/CSharpServiceLangGen.cpp:1096-1108 | C# reads the literal as the normalised definition if and only if the definition has no line separator of C# other than carriage return and newline. |
| `DefString.LineSeparatorBreaksLiteral` | RobotRaconteurGen/CSharpServiceLangGen.cpp:1096-1108 | A concrete definition with U+2028 in a comment: its C# literal is no literal, while Java reads it whole. |
| `DefString.EmitsNormalLine` | RobotRaconteurGen/CPPServiceLangGen.cpp:1757-1760 | Trimming after escaping is escaping after trimming, and the second replacement leaves the first one's output alone. |
| `DefString.NormalLineTwice` | RobotRaconteurGen/CPPServiceLangGen.cpp:1759-1759 | A normalised line is left alone by normalising again. |
| `DefString.NormalTwice` | RobotRaconteurGen/CPPServiceLangGen.cpp:1753-1761 | Normalising the whole text again is never the identity: it always adds exactly one more newline and changes nothing else. |
| `DefString.NormalLineIs` | RobotRaconteurGen/CPPServiceLangGen.cpp:1755-1760 | A line is its normalised form between blanks that trimming takes: line ends for C++, white space for C# and Java, and no such character is left at either end. |
| `DefString.ReturnsRemoved` | RobotRaconteurGen/JavaServiceLangGen.cpp:1318-1324 | Carriage returns go and everything else stays in order. |
| `CppTypes.PrintedTypes` | RobotRaconteurGen/CPPServiceLangGen.cpp:256-460 | Every printed type has balanced angle brackets and no blank outside of them; in non-scalar form every type but void is a pointer to balanced text that remove_RR_INTRUSIVE_PTR recovers. |
| `CppReader.TypesRead` | RobotRaconteurGen/CPPServiceLangGen.cpp:181-460 | A reader of printed types, written apart from the printer, gives back from every printed type its container, key type, kind of array, element's width and sign or character or boolean, and for named types the parts of the qualified name, for scalar and pointer forms. |
| `CppReader.FixedNamesAreNoKeywords` | RobotRaconteurGen/CPPServiceLangGen.cpp:110-152 | fix_name keeps every name from being a C++17 keyword or alternative token except constexpr and not_eq, which its list misspells. |
| `CppReader.FixNameCollides` | RobotRaconteurGen/CPPServiceLangGen.cpp:110-152 | Two different names are printed alike exactly when one is reserved and the other is it with an underscore. |
| `CppReader.OtherReservedWords` | RobotRaconteurGen/CPPServiceLangGen.cpp:127-143 | The reserved words that are no keywords. |
| `CppMemberReader.HoldersRead` | RobotRaconteurGen/CPPServiceLangGen.cpp:758-1152 | The printed return type of a property, function, pipe, wire or memory says which it is and of what type. |
| `CppMemberReader.ParametersRead` | RobotRaconteurGen/CPPServiceLangGen.cpp:758-1152 | Events and callbacks list their parameter types in order, and a generator what it returns before what it takes. |
| `CppMemberReader.ObjRefReads` | RobotRaconteurGen/CPPServiceLangGen.cpp:758-1152 | An object reference reads back as the qualified name of its class. |
| `CppTypes.RemovePointerOfPointer` | RobotRaconteurGen/CPPServiceLangGen.cpp:242-254 | Whatever stands between the brackets of the pointer comes back. |
| `CppDeclarations.Dforc` | RobotRaconteurGen/CPPServiceLangGen.cpp:2585-2617 | The scanning loop stops at the first blank outside of brackets of the stripped declaration. |
| `CppDeclarations.DforcSplitsExactly` | RobotRaconteurGen/CPPServiceLangGen.cpp:2585-2617 | A declaration whose return type has no outer blank is split exactly between return type and name if and only if the word virtual occurs nowhere in it. |
| `CppDeclarations.ReturnTypesSplit` | RobotRaconteurGen/CPPServiceLangGen.cpp:758-1152 | The return types the declaration functions print for properties, functions, generator functions, events, objrefs, pipes, callbacks, wires and memories all have that form, so the split is exact for each of them under the same condition. |
| `CppDeclarations.VirtualIsDropped` | RobotRaconteurGen/CPPServiceLangGen.cpp:2587-2587 | A property named virtual_tool is one whose setter is defined under another name than it is declared. |
| `ArrayMemories.GetBoxCopy` | RobotRaconteurPython/RobotRaconteurPythonDataTypes.py:204-240 | After a box assignment the box holds the other array's elements and everything outside is unchanged, for any rank. |
| `ArrayMemories.GetBoxAssign` | RobotRaconteurPython/RobotRaconteurPythonDataTypes.py:204-240 | For boxes that reach over the edge: the part inside the array holds the other box's elements, the only one of a dimension repeated along it, and everything else is unchanged. |
| `ArrayMemories.FittingBoxIsCopied` | RobotRaconteurPython/RobotRaconteurPythonDataTypes.py:204-240 | A box inside both arrays is always assignable and is copied. |
| `ArrayMemories.ReadAfterWrite` | RobotRaconteurPython/RobotRaconteurPythonDataTypes.py:204-240 | Writing a box and reading the same box gives the written data, for any buffers and positions. |
| `ArrayMemories.DisjointWritesCommute` | RobotRaconteurPython/RobotRaconteurPythonDataTypes.py:223-240 | Writes to boxes apart in some dimension commute. |
| `ArrayMemories.TiledReadIsRead` | RobotRaconteurPython/RobotRaconteurPythonDataTypes.py:204-221 | Reading a region by any tiles that cover it equals reading it at once. |
| `ArrayMemories.CutCovers` | RobotRaconteurPython/RobotRaconteurPythonDataTypes.py:204-221 | Cutting a region along a dimension gives such tiles. |
| `ArrayMemories.OneDimensionalBox` | RobotRaconteurPython/RobotRaconteurPythonDataTypes.py:123-154 | With one dimension the box assignment is the slice assignment of ArrayMemory, clipping, repetition and refusal included. |
| `ArrayMemories.MultiDimArrayMemory.Write` | RobotRaconteurPython/RobotRaconteurPythonDataTypes.py:223-240 | The memory's new value is the box assignment of the old values; boxes numpy cannot assign change nothing. |
| `ArrayMemories.MultiDimArrayMemory.Read` | RobotRaconteurPython/RobotRaconteurPythonDataTypes.py:204-221 | The buffer's new value is the box assignment of the old values; boxes numpy cannot assign change nothing. |
| `ArrayMemories.ArrayMemory.Write` | RobotRaconteurPython/RobotRaconteurPythonDataTypes.py:139-154 | The memory becomes the slice assignment of the old values, clipped at the ends; slices numpy cannot assign change nothing. |
| `ArrayMemories.ArrayMemory.Read` | RobotRaconteurPython/RobotRaconteurPythonDataTypes.py:123-137 | The buffer becomes the slice assignment of the old values, clipped at the ends; slices numpy cannot assign change nothing. |
| `AutoResetEvent.EveryRun` | RobotRaconteurCore/src/AutoResetEvent.cpp:93-118 | In every interleaving of any number of threads completed waits never exceed sets, the monitor holds one thread, and while the mutex is free, the flag set and a thread asleep, another has been woken and not yet rechecked. |
| `AutoResetEvent.RunKeepsInv` | RobotRaconteurCore/src/AutoResetEvent.cpp:93-118 | Mutual exclusion, the account of every set (taken, discarded by Reset, absorbed by a set flag, or still pending) and the wake-up invariant hold in every state of every run. |
| `AutoResetEvent.WokenThreadCompletes` | RobotRaconteurCore/src/AutoResetEvent.cpp:109-118 | From such a state the woken thread completes its wait in three steps of its own. |
| `AutoResetEvent.CompletedWaitsTakeSets` | RobotRaconteurCore/src/AutoResetEvent.cpp:93-118 | Between any two states of a run no more waits complete than sets were made, the flag at the start counted in. |
| `AutoResetEvent.SignalledExactly` | RobotRaconteurCore/src/AutoResetEvent.cpp:93-118 | In every state of every run the flag is set if and only if some Set has been followed by no Reset and no end of a wait. |
| `AutoResetEvent.ResetDiscards` | RobotRaconteurCore/src/AutoResetEvent.cpp:103-107 | After a Reset no more waits complete than sets are made from then on: none is left over. |
| `AutoResetEvent.SeenInside` | RobotRaconteurCore/src/AutoResetEvent.cpp:93-118 | A thread still inside the monitor after its Set sees the flag set, after its Reset or the end of its wait sees it clear. |
| `AutoResetEvent.WaitEndsOnItsSet` | RobotRaconteurCore/src/AutoResetEvent.cpp:109-118 | Every completed wait takes a Set that no Reset and no other wait has taken. |
| `AutoResetEvent.WaitDecides` | RobotRaconteurCore/src/AutoResetEvent.cpp:109-118 | A wait that looks at the flag goes on if such a Set exists, and sleeps otherwise. |
| `AutoResetEvent.CountsAreOfSteps` | RobotRaconteurCore/src/AutoResetEvent.cpp:93-118 | The counts of sets and completed waits are those of the steps of the run. |
| `Downsampler.SentAreMultiples` | RobotRaconteurCore/src/BroadcastDownsampler.cpp:58-110 | Whatever other clients set or disconnect, the packets sent to an endpoint are those at the multiples of its downsample plus one; its downsample is unaffected. |
| `Downsampler.SentFromStart` | RobotRaconteurCore/src/BroadcastDownsampler.cpp:58-110 | From the start n steps send n / (d + 1) packets. |
| `Downsampler.OneInEveryWindow` | RobotRaconteurCore/src/BroadcastDownsampler.cpp:58-110 | Any d + 1 consecutive steps send exactly one. |
| `Downsampler.UndefinedExactlyAtMaximum` | RobotRaconteurCore/src/BroadcastDownsampler.cpp:95-103 | The remainder has no value exactly for the largest 32-bit downsample, whose successor wraps to zero. |
| `Downsampler.DisconnectRevertsToDefault` | RobotRaconteurCore/src/BroadcastDownsampler.cpp:131-147 | A disconnected client is treated as one that never chose a downsample, and nobody else is affected. |
| `Downsampler.LastChoiceIsInForce` | RobotRaconteurCore/src/BroadcastDownsampler.cpp:43-56 | After any events the downsample in force for a client is the last one chosen for it, if it has not disconnected since; the default, if it has. |
| `Downsampler.BroadcastDownsampler.WirePredicate` | RobotRaconteurCore/src/BroadcastDownsampler.cpp:85-106 | The wire predicate is the specified one. |
| `Downsampler.BroadcastDownsampler.PipePredicate` | RobotRaconteurCore/src/BroadcastDownsampler.cpp:108-129 | The pipe predicate is the same function of the state. |
| `Downsampler.BroadcastDownsampler.ServerEvent` | RobotRaconteurCore/src/BroadcastDownsampler.cpp:131-147 | Only a disconnect changes anything, and only that client's entry. |
| `Downsampler.BroadcastDownsampler.BeginStep` | RobotRaconteurCore/src/BroadcastDownsampler.cpp:58-62 | The 64-bit step counter advances, with wrap-around. |

## Left out

- Bulk text of stubs, skeletons and interfaces, string tables, transports, file reading and the command line: string plumbing or I/O.
- The timed `WaitOne(int32_t)` and the Windows branch of `AutoResetEvent`: the timed wait reads and clears the flag outside the lock, so the counting law is not claimed for it.
- Python reference counting, numpy internals and dtype construction; two dtypes are equal when they name the same type. Cyclic Python data.
- Floating-point rounding: values are reals, single precision does not round, NaN and infinities are not modelled.
- Text encoding of message strings: taken as invertible.
- `Packing.PackContainer`: reports a numpy array without dimensions given for a list or int map at once, where the source makes an empty list and leaves the Python error pending until the call returns or the next map key is read; sequence classes written in Python are not modelled, and a record taken out of a numpy record array is refused, where the source may read it as the sequence of its fields.
- Out-of-range casts from a numpy floating scalar to an integer type wrap in an unspecified way; the model wraps modulo the width.
- Scalar bool pod fields: they arrive as numpy scalars and are refused (RobotRaconteurPython/PythonTypeSupport.cpp:2530-2577), which `CellFits` reflects.
- The wording of exception messages (`get_exception_message`); the field stack they are built from is modelled.
- Containers of void and types that no definition can express.
- `Unpacking.UnpackNamedArray`: refuses numbers of another kind also without a declared type, where the source reads them as they are.
- `Unpacking.Unpack`: returns an error where the source's behaviour is undefined (element counts that contradict the dimensions, non-numbers in numeric pod fields, named arrays of count zero).
- `Packing.Pack`: names of numbered elements are dropped, and the type name of a nested element is that of its element list.
- Aliasing between nested objects of a generated Java or C# class, null Java members (a missing nested object is a null pointer, number arrays are present), and shared arrays; values are trees.
- `JavaNamedArray.AssignReads`: requires an object whose arrays have their declared lengths, as the generated constructor makes it; for other lengths `JavaArrayLengths` says when the methods end normally and what they can touch, not which numbers go where.
- `JavaNamedArray.GetWrites`: requires declared lengths in the same way.
- The declared width of the running offset `i` (`int32_t`): counts are unbounded.
- Members of pods that are not properties: the parser admits none.
- Invalid UTF-8 in constants, for which the conversion to UTF-16 skips bytes.
- Embedded NUL in a C++ constant: the literal holds it, a reader of the `char*` stops at it.
- Encodings of the generated source files: definition text is a sequence of character codes as the target compiler sees it.
- The asynchronous forms of C++ members, and in-class declarations of local variables.
- `CppReader.TypesRead`: type names are dotted identifiers that are none of the two keywords `fix_name` lets through and not a reserved word with an underscore, and no service is called `RobotRaconteur` or `std`; other names print like something else (`CppReader.FixNameCollides`).
- `CppMemberReader.HoldersRead`: reads properties and functions of types with such names.
- Member names with blanks or angle brackets: not identifiers.
- `ArrayMemories.MultiDimArrayMemory.Read`: boxes have as many dimensions as both arrays, where numpy also broadcasts across ranks; negative positions, which numpy counts from the end, are left out.
- `ArrayMemories.MultiDimArrayMemory.Write`: as for Read.
- `ArrayMemories.ArrayMemory.Read`: negative positions are left out.
- `ArrayMemories.ArrayMemory.Write`: as for Read.
- Step counter wrap-around in the counting laws of `Downsampler`, and signal connection and expiry of the downsampler beyond a null reference.
