# Symbol store, wire format and messages

A model of the parts of the Protocol Buffers runtime that this repository carries with
it, and of the two messages of the WeWrite application, with proofs of what they promise.

* **Descriptor pool.** `tables.dfy` is the symbol store: hash tables, a stack of
  checkpoints and undo logs. `pool.dfy` is the builder of one file, which loads its imports
  from a fallback database, enters declarations, cross-links and then commits or rolls
  back; cross-linking can load further files, so builds nest. `pool_state.dfy` has the
  promises of a pool and how every step keeps them. `declarations.dfy`, `references.dfy`
  and `file_builds.dfy` say, without the builder, what a file declares, what its references
  must mean and what a built file leaves in the store; `acceptance.dfy` puts these together
  into the rule by which a file is accepted, said of the store from before and the file
  alone: names, packages, imports, references, field numbers and extension ranges. Resolving
  a reference may load further files, but what is loaded then is proved to have no part in
  what the file sees or in the verdict on it. `loading.dfy` says what loading does to a pool
  as a relation on stores, by records of which file was tried where and what came of it, and
  derives the verdict on a file whose imports are still to be read. `imports.dfy` is the import
  graph, `resolution.dfy` the scoping rule, `scoping.dfy` what follows from it for names in
  files, `field_numbers.dfy` how field numbers fit tags, `names.dfy` dotted names and
  `protos.dfy` the descriptor messages.
* **Descriptor databases.** `symbol_index.dfy` is the ordered table that is searched with
  one predecessor lookup, `file_index.dfy` the index of a database, and
  `descriptor_database.dfy` databases filled file by file, merges of databases, and the
  link back to the pool: any merge is a fallback database of the kind the pool relies on.
  `database_names.dfy` says which names are answered, with the full names that a pool enters.
* **Wire format.** `wire.dfy`, `unknown_fields.dfy` and `primitives.dfy` are the primitives
  as functions on bytes; `coded_stream.dfy`, `wire_format.dfy` and `coded_output.dfy` are
  the streams and arrays that the parsers and serialisers work on.
* **Edit and EditSeries.** `edit_message.dfy` and `series_message.dfy` are the messages as
  values, with a plain loop that reads a tag and dispatches; `edit.dfy` and
  `edit_series.dfy` are the classes, whose loops jump ahead to an expected field.
* **Extension sets.** `extension_values.dfy` is what a set holds: reading, writing and
  merging against a registry, with nested messages and groups; `extension_reading.dfy` says
  what a parse does, field by field, where a reader without a registry can read the bytes.
  `extension_slots.dfy` is the state of the object, with cleared extensions and cached
  sizes, and what it stands for;
  `extension_set.dfy` is the class. `extension_sizes.dfy`, `extension_output.dfy` and
  `extension_array.dfy` are sizes and the two serialisers, `message_values.dfy` and
  `message_set.dfy` the message set format.
* **Dynamic messages.** `layout.dfy` places the parts of a message in memory,
  `layout_values.dfy` says which values fit there, `prototypes.dfy` is the memoised,
  recursive factory of prototypes.

A method that changes state is proved equal to a function of the old state, and what the
code promises is proved about those functions.

## Where a promise fails

* The index of a database can lose its prefix invariant: a name that sorts before every key
  is not compared with the first one, because the step past the predecessor skips it. The
  comment in the header (`descriptor_database.h`, lines 184 to 233) assumes the invariant.
  `SymbolIndex.Slips` is the exact case, `SymbolIndex.ParentAfterChild` an instance.
* A database promises to find the file that declares a symbol (`descriptor_database.h`, lines
  76 to 79), and does not for the values of an enum at the top level of a file: they are
  siblings of the enum, and only the enum is entered. So a pool does not load the file for
  them. `DatabaseNames.DeclaredIsAnswered` is the exact case, `DatabaseNames.ValueNotFound` an
  instance.
* Parsing a concatenation is not always merging: a nested message whose length is beyond the
  end of the bytes is cut off there and accepted, and takes more when more follows.
  `SeriesMessage.Overruns` is the exact case, `SeriesMessage.OverrunExample` an instance. It
  concerns EditSeries; for Edit the law holds always.
* In a message set item, type number and message may come in either order, but a message
  that comes first is parsed from a stream of its own with a fresh recursion budget, so the
  two orders agree for all items exactly where the remaining budget is the default.
* When several messages of an item come before its type number, all are kept to be read
  later, and then only the first is read (`MessageSetValues.FirstMessageOnly`); behind the
  type number all are.
* A message set in which an extension with number 1 is a group is not read back, because the
  tag that starts the group is the one that starts an item:
  `MessageSetValues.SetReadBackExactly` is the exact case, `MessageSetValues.GroupLost` an
  instance. The pool refuses to extend a message set with anything but messages
  (`descriptor.cc`, lines 4099 to 4112), so only a set that is used directly, with a finder
  of the caller's own or a type that is no message set, can hold such an extension.
* The comment at lines 3941 to 3943 of `descriptor.cc` says that a collision of extension
  numbers has been reported by the check before it. That check looks at the numbers of one
  file: an extension whose number a file loaded earlier has given to the same message is
  accepted, and then not entered by number (`Acceptance.ExtensionsIgnored`,
  `DescriptorPool.Builder.AddExtension`).
* Listing all extension numbers of a type starts at 0, so negative numbers are not listed
  (`DescriptorDatabases.NumbersExact`, with `NegativeNumber` as an instance), and a merge of
  databases lists numbers whose file it hides (`ListedIsFoundExactly` is the exact case,
  `HiddenNumber` an instance).

Each time the model follows the code.

## Model

The first 50 rows are the main results; the others lead to them or connect a method with
its specification, and the one-line accessors come last.

| member | source | states |
|---|---|---|
| SymbolStore.RollbackRestores | Google Protocol Buffers/google/protobuf/descriptor.cc:575-636 | After any legal run of additions, allocations, nested checkpoints, commits and rollbacks that started at a checkpoint and came back to it, the rollback gives the whole store back exactly as it was, undoing inner checkpoints that were already cleared |
| SymbolStore.ReachableKeysAlive | Google Protocol Buffers/google/protobuf/descriptor.cc:591-636 | In every state that a run from the empty store can reach, no key of the symbol or file table refers to a freed string |
| PoolInvariant.NestedLookupAgrees | Google Protocol Buffers/google/protobuf/descriptor.cc:640-658 | In a committed pool, looking an identifier up under a message or service gives what looking up its full name in the flat table gives |
| PoolInvariant.PackageAncestors | Google Protocol Buffers/google/protobuf/descriptor.cc:2893-2918 | In a committed pool every dotted parent of a package is a package |
| ImportGraph.NoImportCycle | Google Protocol Buffers/google/protobuf/descriptor.cc:3134-3165 | Along any chain of imports that comes back to its start every file is the same one: there is no cycle of two or more files, only a file importing itself |
| ImportGraph.ClosureIsReachable | Google Protocol Buffers/google/protobuf/descriptor.cc:2583-2588 | A set that was filled depth first from direct imports is exactly the files that they reach through public imports |
| References.VisibleStays | Google Protocol Buffers/google/protobuf/descriptor.cc:2590-2618 | Whatever is loaded while a file is linked, it sees under every name what it saw before: the load that a lookup may cause never changes a result |
| DescriptorPool.Builder.LookupSymbol | Google Protocol Buffers/google/protobuf/descriptor.cc:2656-2723 | The string-chopping loop ends and, whatever it loads, its result is that of the scoping rule over what the file saw when it was linked |
| Scoping.CompoundInPool | Google Protocol Buffers/google/protobuf/descriptor.cc:2656-2723 | In a file of a committed pool of built files the result of a lookup of a compound name is what the file sees under it in the innermost scope that has its first part, if anything, and nothing if it sees nothing there and the first part is an enum |
| Acceptance.AcceptableIs | Google Protocol Buffers/google/protobuf/descriptor.cc:3117-3249 | What a builder sees of the file it has entered is, up to addresses, what the rule says of the store from before and the file alone: the verdicts on references, extendee ranges, numbers given out twice and range ends agree |
| DescriptorPool.Builder.BuildFile | Google Protocol Buffers/google/protobuf/descriptor.cc:3020-3132 | The build ends on any database and what was loaded stays loaded; a file being read is refused and nothing changes; in a pool of built files the build is one that Loading.Builds allows: another file is loaded exactly if the rule accepts it in the store that reading its imports in turn left |
| Loading.VerdictInTurn | Google Protocol Buffers/google/protobuf/descriptor.cc:3042-3249 | The verdict with unread imports: they were read in turn, each of them is then loaded, was known to be bad or was refused for a reason that the record of the run tells, and the file is accepted exactly if the rule accepts it in the store that they left |
| Loading.VerdictWithoutReading | Google Protocol Buffers/google/protobuf/descriptor.cc:3042-3249 | When each import is loaded, bad, missing or being read, the file is accepted exactly if the rule accepts it in the store from before |
| DescriptorPool.Pool.FindFileByName | Google Protocol Buffers/google/protobuf/descriptor.cc:964-977 | The request ends; the file is returned exactly if it is loaded afterwards, which it is exactly if it was before or its build is accepted as BuildFile says; when its imports are loaded or cannot be, that is exactly if the rule accepts it in the store from before; no checkpoint is left open and the pool is committed, each loaded file being exactly the build of its database entry |
| SymbolIndex.FindIsScan | Google Protocol Buffers/google/protobuf/descriptor_database.h:191-233 | On a prefix-free table the one predecessor lookup returns an entry exactly if its key is the searched name or a dotted parent of it, and no other key is, for any searched name |
| SymbolIndex.PrefixFreeIffComplete | Google Protocol Buffers/google/protobuf/descriptor_database.cc:180-186 | The lookup misses no match exactly if the table is prefix-free: otherwise some name with a matching key is reported as missing |
| SymbolIndex.AcceptsExactly | Google Protocol Buffers/google/protobuf/descriptor_database.cc:86-134 | On a prefix-free table a new name is refused exactly if it is invalid or in conflict with a key, except that a name before every key slips through when only the first key is below it |
| SymbolIndex.AddingKeepsPrefixFree | Google Protocol Buffers/google/protobuf/descriptor_database.cc:119-131 | Adding an accepted name keeps the table in order, and keeps it prefix-free exactly if it was and the name did not slip through |
| SymbolIndex.ParentAfterChild | Google Protocol Buffers/google/protobuf/descriptor_database.cc:102-131 | "foo" is accepted after "foo.bar", and then a search for "foo.baz" fails although "foo" matches it |
| DescriptorDatabases.RunCoherent | Google Protocol Buffers/google/protobuf/descriptor_database.cc:256-284 | After any run of Add, failing ones included, an entry's value is the file of its own name and asked for that entry; the prefix invariant holds exactly if no name slipped |
| DescriptorDatabases.RunAnswersExactly | Google Protocol Buffers/google/protobuf/descriptor_database.cc:273-284 | If no name slipped, a file is returned for a symbol or extension exactly if it entered that symbol, a dotted parent of it, or that extension |
| DescriptorDatabases.AnswersCoherently | Google Protocol Buffers/google/protobuf/descriptor_database.cc:472-516 | However databases are merged, the file found by a symbol or extension is the file found by its own name |
| DescriptorDatabases.FoundExactly | Google Protocol Buffers/google/protobuf/descriptor_database.cc:472-516 | In any merge, of filled databases or of merges at any depth, a file is the answer exactly if it is that of a source before which no source has an answer or a file of that name |
| DescriptorDatabases.ListedIsFoundExactly | Google Protocol Buffers/google/protobuf/descriptor_database.cc:494-538 | In a merge of filled databases the file of a listed number is found exactly if no source before the first that lists it has a file with the name of that source's answer |
| DescriptorDatabases.ListedIsFoundApart | Google Protocol Buffers/google/protobuf/descriptor_database.cc:494-538 | However databases are merged, exactly the listed numbers are found when no two sources share a file name |
| DescriptorDatabases.MergeIsFallback | Google Protocol Buffers/google/protobuf/descriptor.cc:1320-1394 | Any merge of filled databases is a coherent fallback for a pool, which sees exactly its answers |
| DatabaseNames.AddedIsAnswer | Google Protocol Buffers/google/protobuf/descriptor_database.cc:256-284 | If no name slipped, a file that was added is the answer for a name exactly if that is the full name of something at its top level or lies inside it, and for an extension exactly if the file declares it at any depth |
| DatabaseNames.DeclaredIsAnswered | Google Protocol Buffers/google/protobuf/descriptor_database.h:76-79 | Of all that a proper file declares, under the names that the pool enters, it is the answer for exactly what is not a value of an enum at its top level |
| EditMessage.MergeIsInterpretation | WeWrite/froto/text.pb.cc:236-341 | The tag-dispatch loop accepts the bytes that a generic reading accepts, ends the same way, and gives the interpretation of the generic fields: last one wins, the rest kept as unknown, invalid change types sign-extended |
| EditMessage.ParseOfConcatenation | WeWrite/froto/text.pb.cc:479-499 | For any two fully consumed byte strings, parsing them as one is parsing each and merging |
| EditMessage.ParseEncodeParse | WeWrite/froto/text.pb.cc:236-379 | For every fully consumed byte string, parse-serialise-parse equals parse, unknown fields and invalid enum values included |
| Edits.Edit.MergePartialFromCodedStream | WeWrite/froto/text.pb.cc:236-341 | The loop with jumps to the expected next field gives exactly the outcome of the plain read-tag-and-dispatch loop, wherever the input is cut into blocks |
| SeriesMessage.ConcatenatesExactly | WeWrite/froto/text.pb.cc:607-657 | A fully consumed byte string can be followed by any other, with parsing as one equal to parsing each and merging, exactly if none of its edits has a length beyond its end |
| SeriesMessage.SeriesParseEncodeParse | WeWrite/froto/text.pb.cc:607-676 | The same said of the bytes alone: parse-serialise-parse equals parse for every fully consumed byte string of less than sixteen times the 64 MB that a stream takes by default |
| EditSeriesClass.EditSeries.MergePartialFromCodedStream | WeWrite/froto/text.pb.cc:607-657 | The loop with jumps to the next edit gives exactly the outcome of the plain loop |
| ExtensionValues.ParseIsMerge | Google Protocol Buffers/google/protobuf/extension_set.cc:683-823 | Parsing the encoding of a well-typed set into another is merging it into that set, nested messages and groups included; into an empty set it gives the set back |
| ExtensionReading.ReadIsInterpretation | Google Protocol Buffers/google/protobuf/extension_set.cc:857-1039 | Where a reader without a registry reads all fields, the reader of a set ends in the same way, and leaves what the fields do to the set one by one: unregistered ones and other wire types nothing, enum values only if the enum has them |
| ExtensionSizes.FieldsSizeMatches | Google Protocol Buffers/google/protobuf/extension_set.cc:1251-1392 | ByteSize is the number of bytes written, for packed, repeated, group and message extensions |
| ExtensionSizes.WrittenRangesConcatenate | Google Protocol Buffers/google/protobuf/extension_set.cc:1058-1067 | What is written for two consecutive ranges of numbers is what is written for both as one |
| ExtensionSets.ExtensionSet.MergeFrom | Google Protocol Buffers/google/protobuf/extension_set.cc:683-823 | What shows is the merge of what showed in both |
| ExtensionSets.ExtensionSet.ParseField | Google Protocol Buffers/google/protobuf/extension_set.cc:857-886 | One field is read as the specification reads it; an unregistered one, or one with another wire type, is skipped |
| ExtensionOutput.SerializeWithCachedSizes | Google Protocol Buffers/google/protobuf/extension_set.cc:1058-1067 | With cached sizes, exactly the encoding of the extensions in the range is appended |
| ExtensionArray.SerializeWithCachedSizesToArray | Google Protocol Buffers/google/protobuf/extension_set_heavy.cc:346-357 | The same bytes as into a stream, and nothing else in the array changes |
| MessageSetValues.EitherOrder | Google Protocol Buffers/google/protobuf/extension_set_heavy.cc:549-627 | An item that can be read with the type number first reads the same with the message first |
| MessageSetValues.OrderFreeExactly | Google Protocol Buffers/google/protobuf/extension_set_heavy.cc:577-590 | The order is free for all items exactly where the remaining recursion budget is 100, that of a fresh stream |
| MessageSetValues.SetReadBackExactly | Google Protocol Buffers/google/protobuf/extension_set_heavy.cc:520-540 | A message set is read back exactly if it has no group with number 1, whose start tag is that of an item |
| MessageSetValues.SetSizeExact | Google Protocol Buffers/google/protobuf/extension_set_heavy.cc:698-707 | MessageSetByteSize is the number of bytes written, extensions that are no items included |
| MessageLayout.PartsDisjoint | Google Protocol Buffers/google/protobuf/dynamic_message.cc:494-543 | No two parts overlap and all lie inside the block |
| LayoutValues.ValuesFit | Google Protocol Buffers/google/protobuf/dynamic_message.cc:94-125 | Between the offset of a singular field and the next part there is room for every value that the wire format can give to its type, and the offset is a multiple of that width |
| PrototypeFactory.DynamicMessageFactory.GetPrototype | Google Protocol Buffers/google/protobuf/dynamic_message.cc:466-469 | A request from outside: afterwards every cached type is fully linked, and exactly the types reachable from the requested one through singular message fields were added |
| SymbolStore.RunGrows | Google Protocol Buffers/google/protobuf/descriptor.cc:575-588 | Above an open checkpoint no run changes what was there before it: it only grows the tables, logs and lists |
| SymbolStore.StepValid | Google Protocol Buffers/google/protobuf/descriptor.cc:575-636 | Every operation keeps the invariant that undo logs cover what was added since each open checkpoint |
| SymbolStore.RollbackUndoesGrowth | Google Protocol Buffers/google/protobuf/descriptor.cc:591-636 | Rolling back a store that grew from a checkpoint gives the store before the checkpoint |
| SymbolStore.ClearGrows | Google Protocol Buffers/google/protobuf/descriptor.cc:579-588 | Clearing an inner checkpoint leaves its additions to be undone by the outer one |
| SymbolStore.Tables.PushCheckpoint | Google Protocol Buffers/google/protobuf/descriptor.cc:575-577 | The new state is the old one with a checkpoint that records the lengths of logs and lists |
| SymbolStore.Tables.PopCheckpoint | Google Protocol Buffers/google/protobuf/descriptor.cc:579-588 | The new state is the old one without its last checkpoint; the logs are emptied when it was the only one |
| SymbolStore.Tables.RollbackToLastCheckpoint | Google Protocol Buffers/google/protobuf/descriptor.cc:591-636 | The new state has lost the logged entries, the list tails and the checkpoint, and nothing else |
| SymbolStore.Tables.InsertSymbol | Google Protocol Buffers/google/protobuf/descriptor.cc:731-739 | A symbol is added and logged exactly if its name is new |
| SymbolStore.Tables.InsertFile | Google Protocol Buffers/google/protobuf/descriptor.cc:757-764 | A file is added and logged exactly if its name is new |
| SymbolStore.Tables.InsertExtension | Google Protocol Buffers/google/protobuf/descriptor.cc:787-795 | An extension is added and logged exactly if its extendee and number are new |
| SymbolStore.Tables.AllocateString | Google Protocol Buffers/google/protobuf/descriptor.cc:799-803 | A string is appended and its index returned; nothing else changes |
| SymbolStore.Tables.Allocate | Google Protocol Buffers/google/protobuf/descriptor.cc:820-838 | A block is appended and its index returned; nothing else changes |
| DottedNames.QualifyInjective | Google Protocol Buffers/google/protobuf/descriptor.cc:2855-2891 | A scope and an identifier can be told from the qualified name, which is what makes the flat table and the index by parent agree |
| NameResolution.ResolvesUniquely | Google Protocol Buffers/google/protobuf/descriptor.cc:2656-2723 | The scoping rule (innermost enclosing scope that commits on the first component, no falling through, else the bare name) determines one result |
| NameResolution.SomethingResolves | Google Protocol Buffers/google/protobuf/descriptor.cc:2656-2723 | The scoping rule gives every name a result |
| NameResolution.LastCommit | Google Protocol Buffers/google/protobuf/descriptor.cc:2675-2717 | If any enclosing scope commits there is an innermost one, and it is the last in the scope string |
| Scoping.ParentSeen | Google Protocol Buffers/google/protobuf/descriptor.cc:2576-2654 | A file of a pool that sees a name sees each dotted parent of it, which is a message, a service or a package |
| Scoping.CompoundMeans | Google Protocol Buffers/google/protobuf/descriptor.cc:2675-2717 | Without saying which symbols settle a lookup: if every dotted parent of what is found is found, a compound name is what the innermost scope that has something under its first part has under the whole name, if that is anything |
| Scoping.CompoundMisses | Google Protocol Buffers/google/protobuf/descriptor.cc:2675-2717 | Otherwise the lookup finds nothing if that something is a message, service, package or enum, and goes on further out if it is a field, enum value or method |
| Scoping.NowhereMeansBare | Google Protocol Buffers/google/protobuf/descriptor.cc:2675-2684 | A name whose first part no scope has is what is found under it as it stands |
| Scoping.LeadingDot | Google Protocol Buffers/google/protobuf/descriptor.cc:2660-2663 | A name with a leading dot is what is found under the rest, wherever it stands |
| Scoping.SimpleMeans | Google Protocol Buffers/google/protobuf/descriptor.cc:2685-2717 | A name without a dot is what the innermost scope that has it has; where a type is wanted, what is no message and no enum is passed over |
| Scoping.EnumHides | Google Protocol Buffers/google/protobuf/descriptor.cc:258-261 | Seen from "a.M" the enum "a.E" hides "E.x", which is there |
| Scoping.TypeNameMeans | Google Protocol Buffers/google/protobuf/descriptor.cc:3817-3873 | The type of a field is the innermost message or enum of its type name, whatever else of that name is further in, and must be of the declared kind |
| Scoping.ExtendeeMeans | Google Protocol Buffers/google/protobuf/descriptor.cc:3791-3815 | The extendee is the innermost thing of its name, which must be a message with a range for the number |
| Scoping.MethodMeans | Google Protocol Buffers/google/protobuf/descriptor.cc:3979-4010 | Request and response are the innermost things of their names, which must be messages |
| Scoping.PublicByDescription | Google Protocol Buffers/google/protobuf/descriptor.cc:3167-3181 | A loaded file imports publicly exactly the files that its description marks as public |
| References.LoadedIsSteady | Google Protocol Buffers/google/protobuf/descriptor.cc:2583-2588 | In a committed pool of built files, a file sees loaded files only, and every package that they lie in is known |
| References.FileChecked | Google Protocol Buffers/google/protobuf/descriptor.cc:3739-3760 | Cross-linking part by part, with a table of the numbers given out so far, fails exactly if some reference in the file is wrong or two of all its numbers clash |
| Acceptance.SightIs | Google Protocol Buffers/google/protobuf/descriptor.cc:2583-2588 | A file that may import itself sees, besides itself, the files that its loaded imports reach through public imports |
| Acceptance.LinksAlike | Google Protocol Buffers/google/protobuf/descriptor.cc:3739-3760 | Two finders that find the same under every name give the same verdict on the references of a file, and the same numbers given out by it |
| Acceptance.SameNumberRefused | Google Protocol Buffers/google/protobuf/descriptor.cc:3914-3938 | No file is accepted in which two fields of a message of the file have the same number |
| Acceptance.ExtensionsIgnored | Google Protocol Buffers/google/protobuf/descriptor.cc:3940-3944 | Whatever extensions the pool knows by number, the verdict is the same: an extension number that another file already uses is no error |
| PoolInvariant.ImportsAreEarlier | Google Protocol Buffers/google/protobuf/descriptor.cc:3134-3165 | In a committed pool every import of a loaded file is a loaded file that was there before it, or the file itself |
| PoolInvariant.DeclareConsistent | Google Protocol Buffers/google/protobuf/descriptor.cc:2855-2891 | Entering a declaration in both tables keeps all promises of an error-free pool |
| PoolInvariant.UndeclaredIsUnindexed | Google Protocol Buffers/google/protobuf/descriptor.cc:2855-2891 | A full name that is not in the flat table is in no index that agrees with it, whatever errors there were |
| PoolInvariant.AddPackageConsistent | Google Protocol Buffers/google/protobuf/descriptor.cc:2893-2918 | Entering a package leaves at most its own dotted parent missing |
| PoolInvariant.AliasConsistent | Google Protocol Buffers/google/protobuf/descriptor.cc:3620-3648 | Entering an enum value under its enum as well keeps all promises of an error-free pool |
| PoolInvariant.CommitLoads | Google Protocol Buffers/google/protobuf/descriptor.cc:3242-3248 | Committing a build on top of an outer build leaves the outer store sound and with all it had |
| PoolInvariant.RollbackLoads | Google Protocol Buffers/google/protobuf/descriptor.cc:3242-3248 | Rolling back a failed build, with the builds nested in it, leaves the store of its start |
| PoolInvariant.LeftLess | Google Protocol Buffers/google/protobuf/descriptor.cc:3042-3083 | Putting a name on the list of files being read makes the set of names left to load smaller, which is why cyclic imports end |
| PoolInvariant.LoadsTransitive | Google Protocol Buffers/google/protobuf/descriptor.cc:3074-3083 | Loads one after the other are loads: nothing that was loaded is lost |
| DescriptorPool.Builder.AddSymbol | Google Protocol Buffers/google/protobuf/descriptor.cc:2855-2891 | The declaration is entered in the flat table exactly if its full name is new; then the index of its file has nothing under its parent and name, so it is always entered there as well, and the branch for a failure of that entry is unreachable in every state |
| DescriptorPool.Builder.AddPackage | Google Protocol Buffers/google/protobuf/descriptor.cc:2893-2918 | An error is recorded exactly if the package does not fit; without one the package and all its dotted parents are packages afterwards; nothing already there changes and nothing longer than the package is added |
| Declarations.PackageFitsExactly | Google Protocol Buffers/google/protobuf/descriptor.cc:2893-2918 | In a committed pool a package fits exactly if it and each of its dotted parents is either a package or new with an identifier as last component |
| Declarations.NewAfterPackage | Google Protocol Buffers/google/protobuf/descriptor.cc:3125-3127 | Entering the package of a file takes no name that the file declares, at any depth |
| Declarations.EnteredHas | Google Protocol Buffers/google/protobuf/descriptor.cc:3206-3210 | Without errors each declaration is in the flat table under its full name, as what it was declared as and as one of this file |
| DescriptorPool.Builder.CheckField | Google Protocol Buffers/google/protobuf/descriptor.cc:3496-3537 | An error is recorded exactly if the number is not positive, too large for a field, or reserved, or if an extendee is given for a field or missing for an extension |
| FieldNumbers.ProperNumbersFitTags | Google Protocol Buffers/google/protobuf/descriptor.cc:3496-3519 | The numbers that a field may have are those whose tags fit 32 bits, but for a thousand from 19000 on |
| FieldNumbers.RangesFitTags | Google Protocol Buffers/google/protobuf/descriptor.cc:4060-4074 | No number in a range that is accepted has a tag beyond 32 bits |
| FieldNumbers.LargestNumber | Google Protocol Buffers/google/protobuf/descriptor.h:386-387 | A range is accepted up to the largest number whose tag fits 32 bits and not further |
| DescriptorPool.Builder.BuildField | Google Protocol Buffers/google/protobuf/descriptor.cc:3318-3548 | The field is entered under its full name; an error is recorded exactly if its name, number or extendee is not proper or its full name is taken |
| DescriptorPool.Builder.BuildExtensionRanges | Google Protocol Buffers/google/protobuf/descriptor.cc:3550-3572 | An error is recorded exactly if a range is empty or starts below 1 |
| DescriptorPool.Builder.CheckRangesApart | Google Protocol Buffers/google/protobuf/descriptor.cc:3285-3315 | An error is recorded exactly if a field number lies in an extension range or two ranges overlap |
| Declarations.OverlapShares | Google Protocol Buffers/google/protobuf/descriptor.cc:3301-3306 | The comparison of bounds finds two proper ranges to overlap exactly if they share a number |
| DescriptorPool.Builder.BuildMessage | Google Protocol Buffers/google/protobuf/descriptor.cc:3251-3316 | The message and everything declared in it, at any depth, is entered under its full name, as one of this file, and nothing else; an error is recorded exactly if something in it is not properly declared or a full name is repeated or taken |
| DescriptorPool.Builder.BuildEnumValue | Google Protocol Buffers/google/protobuf/descriptor.cc:3613-3679 | The value is entered as a sibling of its enum, not as its child; an error is recorded exactly if its name is no identifier or the full name is taken |
| DescriptorPool.Builder.BuildService | Google Protocol Buffers/google/protobuf/descriptor.cc:3681-3705 | The service and its methods are entered under their full names and nothing else; an error is recorded exactly if a name is no identifier or a full name is repeated or taken |
| DescriptorPool.Builder.FindImports | Google Protocol Buffers/google/protobuf/descriptor.cc:3139-3165 | Each import is resolved to the loaded file of that name; an error is recorded exactly if one is missing or repeated |
| DescriptorPool.Builder.LinkImports | Google Protocol Buffers/google/protobuf/descriptor.cc:3134-3204 | The block gets the imports; an error is recorded exactly if an import is missing or repeated or a public or weak position is out of range; the visible files are what the imports reach publicly |
| ImportGraph.VisibleFromKept | Google Protocol Buffers/google/protobuf/descriptor.cc:2583-2588 | Blocks that are added later do not change which files a file sees |
| DescriptorPool.Builder.BuildEnum | Google Protocol Buffers/google/protobuf/descriptor.cc:3574-3611 | The enum and its values are entered as siblings; an error is recorded exactly if the enum is empty, a name is no identifier, or a full name is repeated or taken |
| DescriptorPool.Builder.BuildDeclarations | Google Protocol Buffers/google/protobuf/descriptor.cc:3206-3210 | All declared full names, at any depth, are entered and nothing else; an error is recorded exactly if something is not properly declared (names, numbers, ranges, empty enums, extendees) or a full name is repeated or taken |
| DescriptorPool.Builder.DeclareFile | Google Protocol Buffers/google/protobuf/descriptor.cc:3125-3210 | An error is recorded exactly if the file cannot be entered into the store that its imports left: package, imports, declarations; otherwise the file is the build of its description |
| DescriptorPool.Builder.CollectDependencies | Google Protocol Buffers/google/protobuf/descriptor.cc:3184-3188 | The set of visible files is exactly the direct imports and what they reach through public imports |
| DescriptorPool.Builder.RecordPublicImports | Google Protocol Buffers/google/protobuf/descriptor.cc:2583-2588 | The walk ends on any graph; it adds only what the file reaches, and all public imports of what it adds |
| DescriptorPool.Builder.FindSymbolNotEnforcingDeps | Google Protocol Buffers/google/protobuf/descriptor.cc:2590-2618 | The symbol in the table after loading, if it was there before or its claimed owner was loaded by the request; else none |
| DescriptorPool.Builder.FindSymbol | Google Protocol Buffers/google/protobuf/descriptor.cc:2620-2654 | What the file saw before the request, whatever the request loads: a symbol of this file, of a visible file, or a package that one of them lies in |
| DescriptorPool.Builder.ResolveMessage | Google Protocol Buffers/google/protobuf/descriptor.cc:3791-3804 | A message is returned exactly if the scoping rule gives one, whatever the lookup loads, and otherwise an error is recorded |
| DescriptorPool.Builder.CrossLinkExtendee | Google Protocol Buffers/google/protobuf/descriptor.cc:3791-3815 | An error is recorded exactly if the extendee is no message by the scoping rule or has no extension range for the number; the field is then of the message that the rule gives |
| DescriptorPool.Builder.CheckExtensionNumber | Google Protocol Buffers/google/protobuf/descriptor.cc:1306-1316 | An error is recorded exactly if no range of the message has the number |
| DescriptorPool.Builder.AddFieldByNumber | Google Protocol Buffers/google/protobuf/descriptor.cc:776-779 | The number is given out, and an error is recorded exactly if it was already, in this file |
| DescriptorPool.Builder.AddExtension | Google Protocol Buffers/google/protobuf/descriptor.cc:3940-3944 | The extension is in the table of the pool afterwards or another one with its extendee and number is; no error is recorded |
| DescriptorPool.Builder.CrossLinkField | Google Protocol Buffers/google/protobuf/descriptor.cc:3785-3948 | Whatever is loaded on the way, an error is recorded exactly if the extendee or the type is not what it must be, or the number was given out before |
| DescriptorPool.Builder.ValidateMessages | Google Protocol Buffers/google/protobuf/descriptor.cc:4054-4074 | An error is recorded exactly if some extension range, at any depth, ends beyond the largest number |
| DescriptorPool.Builder.CrossLinkFile | Google Protocol Buffers/google/protobuf/descriptor.cc:3739-3760 | Whatever is loaded on the way, an error is recorded exactly if some reference does not mean, by the scoping rule over what the file sees, something of the right kind, an extension is outside the ranges of its extendee, or a number of a message is given out twice |
| DescriptorPool.Builder.LoadImports | Google Protocol Buffers/google/protobuf/descriptor.cc:3042-3083 | Loading imports ends, restores the list of files being read, loses nothing that was loaded, leaves each import loaded or known to be bad, and changes nothing when nothing is left to read; in a pool of built files the imports were read one after the other, each being accepted exactly if the rule accepts it in the store that reading its own imports left |
| Loading.ImportVerdict | Google Protocol Buffers/google/protobuf/descriptor.cc:3042-3083 | An unread import without unread imports of its own is loaded afterwards exactly if the rule accepts it |
| Loading.ReadsExplain | Google Protocol Buffers/google/protobuf/descriptor.cc:1320-1333 | A name that reading imports added to those known to be bad is, somewhere in the record of the run, missing in the database, being read, or refused by the rule in the store that reading its imports left, unless it was found to be bad while a file was linked that could not be entered |
| Loading.EachImportExplained | Google Protocol Buffers/google/protobuf/descriptor.cc:3042-3083 | An import that is not loaded afterwards was known to be bad before, or the record tells why it was refused |
| DescriptorPool.Builder.FinishFile | Google Protocol Buffers/google/protobuf/descriptor.cc:3085-3249 | In a committed pool of built files the file is loaded exactly if the rule accepts it, whatever its references may load |
| DescriptorPool.Builder.Finish | Google Protocol Buffers/google/protobuf/descriptor.cc:3190-3249 | A build with errors is rolled back; another is committed exactly if its references mean what they should, its numbers do not clash and its ranges end in time, whatever its lookups load |
| DescriptorPool.Builder.Conclude | Google Protocol Buffers/google/protobuf/descriptor.cc:3242-3248 | Rolled back to the files of its start or committed, the pool keeps its promises, nested builds included |
| DescriptorPool.Pool.TryFindFileInFallbackDatabase | Google Protocol Buffers/google/protobuf/descriptor.cc:1320-1333 | The file is found exactly if it is in the file table afterwards; one that is known to be bad, unknown to the database or being read is not found and nothing changes; another is found exactly if its build is accepted as BuildFile says; what is not found is known to be bad |
| DescriptorPool.Pool.IsSubSymbolOfBuiltType | Google Protocol Buffers/google/protobuf/descriptor.cc:1335-1355 | True exactly if a dotted prefix of the name is declared as anything but a package |
| FileBuilds.OnlyPackagesAsk | Google Protocol Buffers/google/protobuf/descriptor.cc:1335-1394 | The owner of a name, if it has one that is not loaded, is asked for exactly if all that is known of the dotted parents of the name are packages |
| DescriptorPool.Pool.TryFindSymbolInFallbackDatabase | Google Protocol Buffers/google/protobuf/descriptor.cc:1357-1394 | Found exactly if the claimed owner was not loaded, no dotted prefix of the name is a built type, and the owner is loaded afterwards, which it is exactly if its build is accepted as BuildFile says; otherwise nothing changes |
| DescriptorPool.Pool.FindSymbolByName | Google Protocol Buffers/google/protobuf/descriptor.cc:667-686 | The request ends; a symbol is returned exactly if it was there before, or it is there after the claimed owner was loaded by the request, which it is exactly if its build is accepted as BuildFile says; nothing changes when no owner is asked for; the pool is committed afterwards |
| SymbolIndex.SubSymbolsBetween | Google Protocol Buffers/google/protobuf/descriptor_database.h:207-227 | The keys from a matching key up to the searched name are all sub-symbols of it, because '.' comes before the other characters of a name |
| FileIndex.DescriptorIndex.AddFile | Google Protocol Buffers/google/protobuf/descriptor_database.cc:52-83 | The new state is that of the requests of the file served in order up to the first that is refused; what came before it stays |
| FileIndex.DescriptorIndex.AddSymbol | Google Protocol Buffers/google/protobuf/descriptor_database.cc:86-134 | The new state is that of one request for the symbol |
| FileIndex.DescriptorIndex.AddNestedExtensions | Google Protocol Buffers/google/protobuf/descriptor_database.cc:137-147 | The new state is that of the extensions in the message, innermost first |
| FileIndex.DescriptorIndex.AddExtension | Google Protocol Buffers/google/protobuf/descriptor_database.cc:150-171 | Only an extension with a fully qualified extendee is entered; it is refused if its key is taken |
| FileIndex.DescriptorIndex.FindAllExtensionNumbers | Google Protocol Buffers/google/protobuf/descriptor_database.cc:198-212 | The numbers are those of the run of entries for the type from number 0 on |
| DescriptorDatabases.NumbersExact | Google Protocol Buffers/google/protobuf/descriptor_database.cc:198-212 | The numbers returned are exactly those registered for the type from 0 up, ascending and each once; negative ones are never returned |
| DescriptorDatabases.ServeKeeps | Google Protocol Buffers/google/protobuf/descriptor_database.cc:52-83 | What requests leave: the old entries, only requested new ones, all of them on success, and the prefix invariant exactly if no name slipped |
| DescriptorDatabases.AddedStaysFound | Google Protocol Buffers/google/protobuf/descriptor_database.cc:256-265 | A file whose Add succeeded keeps every entry it asked for through any further run of Add |
| DescriptorDatabases.SimpleDescriptorDatabase.Add | Google Protocol Buffers/google/protobuf/descriptor_database.cc:256-265 | Adding keeps the database coherent whether or not it succeeds |
| DescriptorDatabases.FindFileByName | Google Protocol Buffers/google/protobuf/descriptor_database.cc:461-470 | The answer of a merge is that of the first source that has the file |
| DescriptorDatabases.FindFileContaining | Google Protocol Buffers/google/protobuf/descriptor_database.cc:472-516 | The answer of a merge is that of the first source with one, unless an earlier source has a file of the same name |
| DescriptorDatabases.FindAllExtensionNumbers | Google Protocol Buffers/google/protobuf/descriptor_database.cc:518-538 | The numbers of a merge are the union of those of its sources, ascending and each once, after what was in the output |
| DescriptorDatabases.FoundIsListed | Google Protocol Buffers/google/protobuf/descriptor_database.cc:494-538 | An extension from number 0 up whose file is found is among the numbers listed for its type |
| DescriptorDatabases.HiddenNumber | Google Protocol Buffers/google/protobuf/descriptor_database.cc:494-538 | Two files of the same name, the second with an extension: its number is listed and its file is not found |
| DescriptorDatabases.NegativeNumber | Google Protocol Buffers/google/protobuf/descriptor_database.cc:198-212 | A file with an extension of number -1 is accepted and found by it, but the number is not listed |
| DatabaseNames.RequestsAre | Google Protocol Buffers/google/protobuf/descriptor_database.cc:52-83 | A file asks for exactly the full names, as the pool forms them, of the messages, enums, services and extensions at its top level, and for exactly the extensions of fully qualified types that it declares at any depth |
| DatabaseNames.ValueNotFound | Google Protocol Buffers/google/protobuf/descriptor_database.cc:72-74 | A file with an enum "E" that has the value "V" declares "V", is added, and is not found by it |
| DatabaseNames.SymbolNamesAre | Google Protocol Buffers/google/protobuf/descriptor_database.cc:235-252 | The names that may be entered are those made of dots and the characters of identifiers |
| Wire.VarintSizesExact | Google Protocol Buffers/google/protobuf/io/coded_stream.cc:813-853 | The size functions give the number of bytes that a varint takes |
| Wire.SignExtendedSizeExact | Google Protocol Buffers/google/protobuf/io/coded_stream.h:1020-1026 | A negative int32 takes ten bytes, another as many as its value |
| Wire.VarintRoundTrip | Google Protocol Buffers/google/protobuf/io/coded_stream.cc:307-335 | A written varint is read back whatever follows it; a 32-bit read keeps the low half |
| Wire.VarintExtends | Google Protocol Buffers/google/protobuf/io/coded_stream.cc:422-484 | More bytes after a varint do not change what is read and are left over |
| Wire.AnyVarintRead | Google Protocol Buffers/google/protobuf/io/coded_stream.cc:422-484 | A varint of up to ten bytes is read whether or not it could be shorter, as the sum of its groups of seven bits without the bits beyond those of the result, and a longer one is refused |
| Wire.FixedRoundTrip | Google Protocol Buffers/google/protobuf/io/coded_stream.h:778-840 | A little-endian integer is read back |
| Wire.LowestFirst | Google Protocol Buffers/google/protobuf/io/coded_stream.h:778-840 | In a little-endian integer the bytes of the lower part come first |
| Wire.TagRoundTrip | Google Protocol Buffers/google/protobuf/io/coded_stream.cc:365-420 | A written tag other than 0 is read back |
| Wire.LengthsAccepted | Google Protocol Buffers/google/protobuf/wire_format_lite.cc:344-357 | A length is accepted, in whatever varint it comes, exactly if it is below two to the 31st and so many bytes are left |
| Wire.StringRoundTrip | Google Protocol Buffers/google/protobuf/wire_format_lite.cc:344-357 | A length and its bytes are read back |
| CodedStream.CodedInputStream.ReadTag | Google Protocol Buffers/google/protobuf/io/coded_stream.h:842-851 | 0 at the end of the bytes, which is then a legitimate end, and for a malformed or zero tag, which is not |
| CodedStream.CodedInputStream.ExpectTag | Google Protocol Buffers/google/protobuf/io/coded_stream.h:861-882 | A yes consumes the tag; a no, which may be wrong, consumes nothing |
| CodedStream.CodedInputStream.ExpectAtEnd | Google Protocol Buffers/google/protobuf/io/coded_stream.h:905-918 | A yes is right and marks a legitimate end |
| CodedStream.CodedInputStream.PushLimit | Google Protocol Buffers/google/protobuf/io/coded_stream.cc:112-135 | The new limit is never beyond the old one; a length that does not fit an int leaves the old one |
| CodedStream.CodedInputStream.PopLimit | Google Protocol Buffers/google/protobuf/io/coded_stream.cc:137-146 | The old limit is back and the end is no longer legitimate |
| CodedStream.CodedInputStream.IncrementRecursionDepth | Google Protocol Buffers/google/protobuf/io/coded_stream.h:1054-1057 | True exactly while the budget lasts |
| UnknownFields.FieldsSizeExact | Google Protocol Buffers/google/protobuf/wire_format.cc:291-337 | The computed size of unknown fields is the number of bytes written for them |
| UnknownFields.FieldsRoundTrip | Google Protocol Buffers/google/protobuf/wire_format.cc:81-231 | Written unknown fields are read back in order, groups included, and reading goes on with what follows |
| UnknownFields.ScalarsRead | Google Protocol Buffers/google/protobuf/wire_format_lite.h:86-93 | What the bytes of a field are: the tag byte of a number below 16 for each wire type, then a varint, eight or four bytes, or a length and so many bytes |
| UnknownFields.GroupClosed | Google Protocol Buffers/google/protobuf/wire_format.cc:111-124 | A group is closed by the end tag of its own number, and that of another is an error |
| UnknownFields.OthersRefused | Google Protocol Buffers/google/protobuf/wire_format.cc:111-138 | A group that is not closed and the wire types 6 and 7 are errors |
| UnknownFields.MessageWritable | Google Protocol Buffers/google/protobuf/wire_format.cc:141-159 | Whatever was read as unknown fields can be written and read back |
| UnknownFields.MessageExtends | Google Protocol Buffers/google/protobuf/wire_format.cc:141-159 | Bytes after a fully read message are read as more of its fields; bytes after an end-group tag are left over |
| UnknownFields.MessageNotLonger | Google Protocol Buffers/google/protobuf/wire_format.cc:161-196 | Fields that were read as unknown take no more bytes to write than they were read from |
| WireFormat.SkipField | Google Protocol Buffers/google/protobuf/wire_format.cc:81-139 | The method reads the field that the specification reads and fails where it fails |
| WireFormat.SkipMessage | Google Protocol Buffers/google/protobuf/wire_format.cc:141-159 | The loop ends as the specification does: at the end, at an end-group tag, at a bad tag, or by failing |
| CodedOutput.CodedOutputStream.WriteVarint | Google Protocol Buffers/google/protobuf/io/coded_stream.cc:672-692 | The seven-bit loop appends the varint of the value |
| CodedOutput.CodedOutputStream.SerializeUnknownFields | Google Protocol Buffers/google/protobuf/wire_format.cc:161-196 | The encoding of the fields is appended to the stream |
| CodedOutput.SerializeUnknownFieldsToArray | Google Protocol Buffers/google/protobuf/wire_format.cc:198-231 | The same bytes go into the array from the target on, and nothing else in it changes |
| EditMessage.KindParsed | WeWrite/froto/text.pb.cc:242-259 | The tag byte 8 and a varint set the type if the low half is 0, 1 or 2 (INSERT, REMOVE, CURSOR), and leave an unknown field otherwise, whatever comes before and after |
| EditMessage.KindExactly | WeWrite/froto/text.pb.cc:136-145 | An int32 written as the type of an Edit comes back as its type exactly if it is INSERT, REMOVE or CURSOR |
| EditMessage.TextParsed | WeWrite/froto/text.pb.cc:263-279 | The tag byte 18, a length and so many bytes set the text |
| EditMessage.LocationParsed | WeWrite/froto/text.pb.cc:280-295 | The tag byte 24 and a varint set the location to the low half, as a signed number |
| EditMessage.FlagParsed | WeWrite/froto/text.pb.cc:296-326 | The tag bytes 32 and 40 and a varint set the two flags, to true unless the low half is zero |
| EditMessage.OthersKept | WeWrite/froto/text.pb.cc:327-336 | Every other field, also one of these numbers with another wire type, is kept as it is |
| EditMessage.ParseIntoIsMerge | WeWrite/froto/text.pb.cc:236-341 | Parsing into a message is parsing on its own and merging the result in, for every outcome |
| EditMessage.EditSizeExact | WeWrite/froto/text.pb.cc:421-465 | ByteSize is the number of bytes written |
| EditMessage.EncodeIsGeneric | WeWrite/froto/text.pb.cc:343-379 | The written bytes are those of generic fields in order of their numbers, then the unknown fields |
| EditMessage.EditRoundTrip | WeWrite/froto/text.pb.cc:343-379 | Parsing the encoding of any message that a parse can produce gives the message back |
| EditMessage.ParsedSane | WeWrite/froto/text.pb.cc:236-341 | Whatever a parse produces has a valid type, text that fits an int, and unknown fields that stay unknown |
| EditMessage.ReencodedSize | WeWrite/froto/text.pb.cc:343-379 | Encoding what was parsed takes at most twice as many bytes: a negative number takes ten, and was read from five or more |
| Edits.Edit.Clear | WeWrite/froto/text.pb.cc:220-234 | The message is empty, although fields are reset only if some presence bit is set |
| Edits.Edit.MergeFrom | WeWrite/froto/text.pb.cc:479-499 | Fields that are set in the other replace, its unknown fields are appended |
| Edits.Edit.CopyFrom | WeWrite/froto/text.pb.cc:507-511 | The value of the other, also when it is the same object |
| Edits.Edit.ByteSize | WeWrite/froto/text.pb.cc:421-465 | The size of the encoding, which is also cached |
| Edits.Edit.SerializeWithCachedSizes | WeWrite/froto/text.pb.cc:343-379 | The encoding is appended to the stream |
| Edits.Edit.SerializeWithCachedSizesToArray | WeWrite/froto/text.pb.cc:381-419 | The same bytes as into a stream, and nothing else in the array changes |
| Edits.Edit.ParseFromArray | Google Protocol Buffers/google/protobuf/message_lite.cc:139-143 | True exactly if all bytes were consumed and the type is set; then the value is the parsed one |
| SeriesMessage.SeriesIntoIsMerge | WeWrite/froto/text.pb.cc:607-657 | Parsing into a series is parsing on its own and merging the result in, for every outcome |
| SeriesMessage.UserParsed | WeWrite/froto/text.pb.cc:614-628 | The tag byte 8 and a varint set the user |
| SeriesMessage.EditParsed | WeWrite/froto/text.pb.cc:629-642 | The tag byte 18, a length and the bytes of an Edit add that Edit |
| SeriesMessage.EditRefused | Google Protocol Buffers/google/protobuf/wire_format_lite_inl.h:396-411 | Without budget for nesting a series with an edit fails |
| SeriesMessage.OthersKept | WeWrite/froto/text.pb.cc:643-653 | Every other field is kept as it is |
| SeriesMessage.OverrunExample | Google Protocol Buffers/google/protobuf/wire_format_lite_inl.h:396-411 | An edit that claims five bytes and has none is accepted at the end of the bytes, and swallows what is appended |
| SeriesMessage.SeriesSizeExact | WeWrite/froto/text.pb.cc:699-728 | ByteSize is the number of bytes written |
| SeriesMessage.SeriesRoundTrip | WeWrite/froto/text.pb.cc:659-676 | Parsing the encoding of any series that a parse can produce gives it back |
| SeriesMessage.SeriesReparses | WeWrite/froto/text.pb.cc:607-676 | For every fully consumed byte string whose edits, written again, have lengths that an int can hold, as the source needs for its length prefixes: parse-serialise-parse equals parse |
| EditSeriesClass.EditSeries.MergeFrom | WeWrite/froto/text.pb.cc:742-751 | Copies of the other's edits are appended, its user replaces if set, its unknown fields are appended |
| EditSeriesClass.EditSeries.Clear | WeWrite/froto/text.pb.cc:598-605 | The series is empty |
| EditSeriesClass.EditSeries.ByteSize | WeWrite/froto/text.pb.cc:699-728 | The size of the encoding; every nested edit has its size cached |
| EditSeriesClass.EditSeries.SerializeWithCachedSizes | WeWrite/froto/text.pb.cc:659-676 | With the sizes that ByteSize cached, exactly the encoding is appended |
| EditSeriesClass.EditSeries.SerializeWithCachedSizesToArray | WeWrite/froto/text.pb.cc:678-697 | The same bytes as into a stream, and nothing else in the array changes |
| EditSeriesClass.EditSeries.ParseFromArray | Google Protocol Buffers/google/protobuf/message_lite.cc:139-143 | True exactly if all bytes were consumed and the user and every type are set; then the value is the parsed one |
| EditSeriesClass.ReadMessageNoVirtual | Google Protocol Buffers/google/protobuf/wire_format_lite_inl.h:396-411 | A nested message must consume everything up to its length or the limit in force, whichever is nearer |
| Primitives.ZigZagInverse | Google Protocol Buffers/google/protobuf/wire_format_lite.h:600-616 | With any number of bits, encoding and decoding by shifts and exclusive or are inverse in both directions |
| Primitives.ZigZagIsBits | Google Protocol Buffers/google/protobuf/wire_format_lite.h:600-616 | The shifts and the exclusive or of the source give the even numbers to the numbers from 0 up and the odd ones to the negative ones |
| Primitives.PrimitiveRoundTrip | Google Protocol Buffers/google/protobuf/wire_format_lite_inl.h:50-166 | A written value of any primitive type is read back, whatever follows |
| Primitives.PrimitiveBytes | Google Protocol Buffers/google/protobuf/wire_format_lite_inl.h:50-166 | The bytes of a value of each type: varint of 64 bits, varint, zig-zag, or four or eight bytes |
| Primitives.AnyVarintMeans | Google Protocol Buffers/google/protobuf/wire_format_lite_inl.h:50-166 | What any varint is to each type, also one that no writer of the type makes: the number that agrees in the low half or in all bits, and true unless the low half is zero |
| Primitives.PrimitiveSizeExact | Google Protocol Buffers/google/protobuf/wire_format_lite_inl.h:715-735 | The size functions give the number of bytes written for a value |
| ExtensionValues.ExtensionsRoundTrip | Google Protocol Buffers/google/protobuf/extension_set.cc:876-1039 | The same with arbitrary bytes after the encoding, which are read next |
| ExtensionValues.PackedRoundTrip | Google Protocol Buffers/google/protobuf/extension_set.cc:893-938 | Packed data is read back value by value |
| ExtensionValues.InvalidDropped | Google Protocol Buffers/google/protobuf/extension_set.cc:979-997 | A value that an enum does not have is passed over, and reading goes on behind it with the set unchanged |
| ExtensionValues.InvalidDroppedFromPacked | Google Protocol Buffers/google/protobuf/extension_set.cc:919-931 | Of packed values an enum keeps those that it has, in order; if it has none of them, the set is unchanged |
| ExtensionValues.GetPut | Google Protocol Buffers/google/protobuf/extension_set.cc:1083-1091 | The map returns what was stored under a number and nothing else changes |
| ExtensionValues.MergeIntoNothing | Google Protocol Buffers/google/protobuf/extension_set.cc:683-823 | Merging into an empty set gives the set |
| ExtensionSizes.RangeWhole | Google Protocol Buffers/google/protobuf/extension_set.cc:1058-1067 | A range that has every number writes everything |
| ExtensionSlots.ViewUpdate | Google Protocol Buffers/google/protobuf/extension_set.cc:1083-1091 | Storing an extension that shows is storing its contents; storing one that was cleared removes the number from what shows |
| ExtensionSlots.ClearedSlotsFormed | Google Protocol Buffers/google/protobuf/extension_set.cc:1096-1138 | Cleared extensions show nothing, keep their types, and have emptied strings and messages |
| ExtensionSets.ExtensionSet.Has | Google Protocol Buffers/google/protobuf/extension_set.cc:176-181 | True exactly if the singular extension shows |
| ExtensionSets.ExtensionSet.ExtensionSize | Google Protocol Buffers/google/protobuf/extension_set.cc:194-198 | The number of values that show |
| ExtensionSets.ExtensionSet.GetValue | Google Protocol Buffers/google/protobuf/extension_set.cc:239-248 | The value that shows, else the default |
| ExtensionSets.ExtensionSet.GetMessage | Google Protocol Buffers/google/protobuf/extension_set.cc:436-450 | The message that shows, else an empty one, although the cleared flag is not looked at |
| ExtensionSets.ExtensionSet.GetRepeated | Google Protocol Buffers/google/protobuf/extension_set.cc:265-270 | The value that shows at the position |
| ExtensionSets.ExtensionSet.SetNumber | Google Protocol Buffers/google/protobuf/extension_set.cc:250-302 | The value replaces the one of a singular extension, or is added to a repeated one |
| ExtensionSets.ExtensionSet.SetString | Google Protocol Buffers/google/protobuf/extension_set.cc:389-430 | The string replaces the one of a singular extension, or is added to a repeated one |
| ExtensionSets.ExtensionSet.ClearExtension | Google Protocol Buffers/google/protobuf/extension_set.cc:212-216 | The number shows nothing, all others as before |
| ExtensionSets.ExtensionSet.Clear | Google Protocol Buffers/google/protobuf/extension_set.cc:676-681 | Nothing shows |
| ExtensionSets.ExtensionSet.ParsePackedValues | Google Protocol Buffers/google/protobuf/extension_set.cc:893-938 | Every value up to the limit is added, except those that an enum does not have; no value, no trace |
| ExtensionSets.ExtensionSet.ParseGroup | Google Protocol Buffers/google/protobuf/wire_format_lite_inl.h:343-354 | The nested fields, then the end tag of the same number |
| ExtensionSets.ExtensionSet.ParseMessage | Google Protocol Buffers/google/protobuf/wire_format_lite_inl.h:355-368 | The nested fields, which must take up the length or all up to the limit in force |
| ExtensionOutput.ByteSize | Google Protocol Buffers/google/protobuf/extension_set.cc:1069-1078 | The number of bytes of the encoding; every size inside is cached and what shows is unchanged |
| ExtensionOutput.SerializeSlot | Google Protocol Buffers/google/protobuf/extension_set.cc:1141-1249 | A cleared or empty extension writes nothing; another writes its encoding with the cached sizes |
| MessageSetValues.TypeFirstRead | Google Protocol Buffers/google/protobuf/extension_set_heavy.cc:549-627 | With the type number first the message is read as the field of that number |
| MessageSetValues.MessageFirstRead | Google Protocol Buffers/google/protobuf/extension_set_heavy.cc:577-590 | With the message first it is read the same, but with the recursion budget of a fresh stream |
| MessageSetValues.OrderMatters | Google Protocol Buffers/google/protobuf/extension_set_heavy.cc:577-590 | Elsewhere there are nested messages that only one of the orders accepts |
| MessageSetValues.SetRoundTrip | Google Protocol Buffers/google/protobuf/extension_set_heavy.cc:629-660 | Parsing a written message set into another is merging it into that one, items and ordinary fields alike, unless it has a group with number 1 |
| MessageSetValues.ItemWritten | Google Protocol Buffers/google/protobuf/extension_set_heavy.cc:629-660 | A singular message of number n is written as the bytes 11, 16, n, 26, its length and encoding, and 12 |
| MessageSetValues.OthersInItem | Google Protocol Buffers/google/protobuf/extension_set_heavy.cc:622-624 | In an item every field but the type number and the message is passed over |
| MessageSetValues.FirstMessageOnly | Google Protocol Buffers/google/protobuf/extension_set_heavy.cc:577-590 | Of several messages before the type number the first is used, and the others are not looked at |
| MessageSetValues.NoType | Google Protocol Buffers/google/protobuf/extension_set_heavy.cc:596-620 | A message without a type number is dropped |
| MessageSetValues.ItemBytesRead | Google Protocol Buffers/google/protobuf/extension_set_heavy.cc:549-627 | Those bytes, with any message, are read as the field of that number |
| MessageSetValues.GroupLost | Google Protocol Buffers/google/protobuf/extension_set_heavy.cc:520-540 | A set with an empty group of number 1 is written as the two tags of an item without contents, and is not read back |
| MessageSetValues.SetLacks | Google Protocol Buffers/google/protobuf/extension_set_heavy.cc:520-540 | No bytes make the reader of a message set store a group with number 1 |
| MessageSetValues.ItemSizeExact | Google Protocol Buffers/google/protobuf/extension_set_heavy.cc:662-688 | MessageSetItemByteSize is the number of bytes written |
| MessageSets.ParseMessageSet | Google Protocol Buffers/google/protobuf/extension_set_heavy.cc:520-540 | The loop gives the outcome of the specification, items and ordinary fields mixed |
| MessageSets.ParseMessageSetItem | Google Protocol Buffers/google/protobuf/extension_set_heavy.cc:549-627 | The loop reads the item that the specification reads |
| MessageSets.MessageSetByteSize | Google Protocol Buffers/google/protobuf/extension_set_heavy.cc:698-707 | The number of bytes that will be written; every size inside is cached |
| MessageSets.SerializeMessageSetWithCachedSizes | Google Protocol Buffers/google/protobuf/extension_set_heavy.cc:690-696 | With cached sizes, exactly the encoding of the set is appended |
| MessageSets.SerializeMessageSetWithCachedSizesToArray | Google Protocol Buffers/google/protobuf/extension_set_heavy.cc:359-367 | The same bytes as into a stream, and nothing else in the array changes |
| MessageSets.SetItemToArray | Google Protocol Buffers/google/protobuf/extension_set_heavy.cc:481-511 | The bytes of the item that a stream would get go into the array, those of an ordinary field for anything but a message; nothing else in it changes |
| MessageLayout.ComputeLayout | Google Protocol Buffers/google/protobuf/dynamic_message.cc:494-543 | The parts follow each other with less than eight bytes between them, each aligned, with a presence bit for every field and a size that is a multiple of eight |
| LayoutValues.ValuesTight | Google Protocol Buffers/google/protobuf/dynamic_message.cc:528-533 | Of two singular numbers that follow each other the second begins less than its width behind the end of the first |
| LayoutValues.ObjectsFit | Google Protocol Buffers/google/protobuf/dynamic_message.cc:94-125 | Strings and messages have room for a pointer, and repeated fields for the object of their kind |
| MessageLayout.AlignTo | Google Protocol Buffers/google/protobuf/dynamic_message.cc:144-152 | The result is the first multiple of the alignment from the offset on |
| PrototypeFactory.DynamicMessageFactory.GetPrototypeNoLock | Google Protocol Buffers/google/protobuf/dynamic_message.cc:471-568 | The request ends on cyclic types; what was cached keeps its address and contents, and only types that are needed are added |
| PrototypeFactory.DynamicMessageFactory.CrossLinkPrototypes | Google Protocol Buffers/google/protobuf/dynamic_message.cc:394-416 | Afterwards every singular message field of the type points to the cached prototype of its type |
| PrototypeFactory.OutermostRequest | Google Protocol Buffers/google/protobuf/dynamic_message.cc:471-568 | That a request with no other under way leaves every cached type linked and adds exactly what is needed follows from what it keeps and adds |
| PrototypeFactory.SingularMessagesLinked | Google Protocol Buffers/google/protobuf/dynamic_message.cc:394-416 | Every singular message field of a cached type points to the cached prototype of its type |
| PrototypeFactory.NothingElseNeeded | Google Protocol Buffers/google/protobuf/dynamic_message.cc:394-416 | A type without such a field needs no other type, whatever repeated fields it has |
| Edits.Edit.SetType | WeWrite/froto/text.pb.h:329-333 | The type is set and nothing else |
| Edits.Edit.ClearType | WeWrite/froto/text.pb.h:322-325 | The type is unset and nothing else |
| Edits.Edit.SetText | WeWrite/froto/text.pb.h:354-360 | The text is set and nothing else |
| Edits.Edit.ClearText | WeWrite/froto/text.pb.h:345-350 | The text is unset and nothing else |
| Edits.Edit.SetLocation | WeWrite/froto/text.pb.h:422-425 | The location is set and nothing else |
| Edits.Edit.ClearLocation | WeWrite/froto/text.pb.h:415-418 | The location is unset and nothing else |
| Edits.Edit.SetIsUndo | WeWrite/froto/text.pb.h:444-447 | The undo flag is set and nothing else |
| Edits.Edit.ClearIsUndo | WeWrite/froto/text.pb.h:437-440 | The undo flag is unset and nothing else |
| Edits.Edit.SetIsRedo | WeWrite/froto/text.pb.h:466-469 | The redo flag is set and nothing else |
| Edits.Edit.ClearIsRedo | WeWrite/froto/text.pb.h:459-462 | The redo flag is unset and nothing else |

## Left out

- DescriptorPool.Builder.BuildFile: pools with a fallback database only; the shortcut for a file identical to a loaded one and the bail-out when imports loaded the file itself (lines 3029 to 3040 and 3117 to 3124) are not modelled, the second because the file is proved not to be loaded there. In a store that is not committed or has files that no build has left, which only a file with errors leaves behind until it is rolled back, no verdict is stated.
- Loading.ReadsExplain: a file that cannot be entered is linked all the same before it is rolled back; which names become known to be bad while it is, is not explained.
- DescriptorPool.Builder.LookupSymbol: what is found is stated for files that were entered without errors in a committed pool of built files; after an error the build is rolled back whatever is found. The same holds for FindSymbol.
- DescriptorPool.Builder.ResolveMessage: as LookupSymbol.
- DescriptorPool.Builder.CrossLinkFile: default values and options are not part of this model, and neither are placeholders and underlays; without them these are all the errors that cross-linking can meet.
- DescriptorPool.Builder.BuildDeclarations: default values and options of declarations are not part of this model.
- DescriptorPool.Builder.BuildField: as BuildDeclarations.
- DescriptorPool.Builder.BuildMessage: as BuildDeclarations.
- DescriptorPool.Builder.DeclareFile: as BuildDeclarations.
- SymbolStore.Tables.Allocate: the arrays of a descriptor are allocated one block a descriptor; the contents of blocks are names, kinds, parents and imports.
- DescriptorPool.Builder.AddExtension: extensions are entered by number, but lookups by number are not modelled; nor are those by lower-case and camel-case names.
- DescriptorPool.Builder.AddFieldByNumber: numbers are kept by the full name of the message, which stands for its descriptor as names are unique in a pool.
- DescriptorPool.Builder.ValidateMessages: the option for the message set format, which allows larger numbers, is not modelled, and neither are checks that only an option brings about.
- SeriesMessage.SeriesReparses: nothing is said where an edit that was read takes more bytes to write than an int can count, because the int sum in ByteSize overflows there; it can take twice as many as it was read from.
- Edits.Edit.MergePartialFromCodedStream: after a failed parse nothing is said about the message or the position of the stream.
- ExtensionSets.ExtensionSet.ParseField: after a failed parse nothing is said about the set; unknown fields are dropped, as in the lite runtime.
- ExtensionSets.ExtensionSet.GetMessage: the default is an empty message of the type.
- ExtensionSets.ExtensionSet.MergeFrom: nested messages are values of the set, not objects that others could refer to, and are messages that have extensions only.
- MessageLayout.ComputeLayout: offsets are unbounded integers, and what a repeated field or a pointer takes is 1, 2, 4 or at least 8 bytes.
- PrototypeFactory.DynamicMessageFactory.GetPrototypeNoLock: prototypes live at addresses of a list; delegation to the generated factory is off, and reflection objects are not built.
- Streams that deliver their input in blocks are modelled only by answers of ExpectTag and ExpectAtEnd that may be no; the limit on the total number of bytes is not modelled.
- Lazy message extensions, RemoveLast, SwapElements, SetAllocatedMessage and the Release functions of extension sets.
- EncodedDescriptorDatabase and DescriptorPoolDatabase, which answer from bytes and from a pool.
- `descriptor.pb.cc`, which repeats the pattern of `text.pb.cc` over more fields.
- Floating-point values are bit patterns; UTF-8 verification, which changes no result, is left out.
- Mutexes, one-time initialisation, logging, error texts and the space estimates.
- The application code outside its messages: views, controllers and session handling.
