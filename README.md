# rust-aaf object layer, modelled in Dafny

This project models the object layer of `rust-aaf`, a reader for Advanced Authoring
Format (AAF) files. An AAF file is a structured-storage (compound) file. Each of its
storages is an *interchange object*, and each object keeps its properties in a
`properties` stream. The modelled core does the following:

- decodes a `properties` stream into property descriptors (`src/properties.rs`);
- opens a file and decodes its `referenced properties` table, which maps a weak-reference
  tag to a path of property ids (`src/file.rs`);
- decodes the index streams of strong vectors, strong sets and weak collections, and
  the member storage names built from them (`name{hex-key}`);
- resolves a property to a `PropertyValue` by its stored form. This includes weak
  references: walk from the root along the tag's pid path, then find the set member
  whose key property equals the reference's identification;
- decodes the scalar property types (`src/types.rs`);
- walks the object graph depth first with `AAFPropertyIterator`
  (`src/property_iterator.rs`).

Modules follow the source files:

| module | file | source |
|---|---|---|
| `Bytes` | bytes.dfy | little-endian readers and writers shared by all decoders |
| `Errors` | errors.dfy | one `Error` datatype, `Option` and `Result` |
| `Types` | types.dfy | `src/types.rs` |
| `Properties` | properties.dfy | `src/properties.rs` |
| `Hex`, `Indexes`, `WeakPaths`, `AafFile` | hex.dfy, indexes.dfy, weakpaths.dfy, file.dfy | `src/file.rs` |
| `PropertyIterator` | property_iterator.dfy | `src/property_iterator.rs` |

Modelling choices:

- **Storage.** The compound file is a value `Storage(entries, streams)`. `entries` maps a
  storage path to its class id. `streams` maps a stream path to its bytes. A path is a
  sequence of names, the root is `[]`, and joining a name appends it.
- **Stream readers.** Every reader whose source loops over a stream has two parts: a
  specification function that states the byte layout, and a method with the same loop,
  whose contract is `r == DecodeX(s)`. Readers without a loop (the scalar decoders of
  `src/types.rs` and `WeakObjectReference::from_data`) are functions only. Each decoder
  is paired with an encoder and a round-trip lemma.
- **Panics.** Every `unwrap`, `expect`, `assert_eq!` and `panic!` in the source is an
  `Err` of the `Error` datatype. The contracts say which error each failure gives.
- **Recursion bound.** The resolver and weak-reference resolution call each other
  without a bound in the source. Here they carry a `fuel` count, which drops at each
  weak reference.
- **Iterator.** The iterator sees the file only through `all_property_ids` and
  `get_value`. These are bundled as an `ObjectGraph`, and `GraphOf(file, fuel)` builds
  it.

`AAFEntry.value` is declared `Option<PropertyValue>` (`src/property_iterator.rs:11`), so
the model stores `Some(v)` when the property resolves and `None` when it does not
(`ToOption`). In the source, `get_value` panics instead of returning when resolution
fails. The model records that case as `None` and goes on (see "## Left out"). Member names are `name{hex}`, as `format!("{}{{{:x}}}", ...)` builds them
(`src/file.rs:253`).

## Model

| member | source | states |
|---|---|---|
| Properties.ParseStoredForm | src/properties.rs:12-22 | a stored-form code is recognised exactly when it is one of the eight forms the resolver dispatches on, and the recognised form has that code |
| Properties.StoredFormCodesDistinct | src/properties.rs:12-22 | the eight codes are pairwise distinct and each parses back to its form; the three remaining constants (0x03, 0x86, 0x40) are not dispatchable forms |
| Properties.FromPropertiesStream | src/properties.rs:41-68 | the two-loop stream reader returns exactly the declarative decoding of the stream |
| Properties.ReadPayloads | src/properties.rs:58-65 | the payload loop succeeds iff every payload fits the stream, and then yields the record at each header's offset |
| Properties.DecodeFailsExactly | src/properties.rs:43-62 | decoding succeeds iff the byte-order mark is 0x4c and the header table and all payloads fit; a wrong mark is reported as BadByteOrder |
| Properties.DecodeShort | src/properties.rs:47-62 | a stream too short for its headers or payloads gives ShortRead |
| Properties.DecodedLayout | src/properties.rs:43-56 | a decoded stream has the mark, fits its table, and gives as many records as its count field |
| Properties.DecodedRecord | src/properties.rs:51-65 | record i has header i's pid, stored form and size, and its value is the bytes at the sum of the earlier sizes after the header table |
| Properties.VersionIgnored | src/properties.rs:46 | the version byte does not affect the decoding |
| Properties.DecodeEncodeRoundTrip | src/properties.rs:41-68 | decoding an encoded descriptor list, followed by any trailing bytes, gives the list back |
| Properties.SizesMonotone | src/properties.rs:58-65 | payload offsets do not decrease along the header table |
| Properties.RecordsIndex | src/properties.rs:58-65 | the i-th record read so far is the record at header i |
| Types.DecodeUInt16 | src/types.rs:58-63 | succeeds iff at least two bytes are present |
| Types.DecodeUInt32 | src/types.rs:65-70 | succeeds iff at least four bytes are present |
| Types.DecodeUInt64 | src/types.rs:73-78 | succeeds iff at least eight bytes are present |
| Types.DecodeInt16 | src/types.rs:80-85 | succeeds iff two bytes are present; the value is negative iff the high byte's top bit is set |
| Types.DecodeTimeStamp | src/types.rs:103-114 | succeeds iff at least eight bytes are present |
| Types.DecodeVersionType | src/types.rs:116-127 | succeeds iff at least two bytes are present |
| Types.VersionTypeRoundTrip | src/types.rs:116-127 | reading an encoded version (major, minor) gives it back, whatever follows |
| Types.VersionTypeFields | src/types.rs:121-124 | major is byte 0 and minor is byte 1 |
| Types.UInt16RoundTrip | src/types.rs:58-63 | reading an encoded u16 gives it back, whatever follows |
| Types.UInt32RoundTrip | src/types.rs:65-70 | reading an encoded u32 gives it back, whatever follows |
| Types.UInt64RoundTrip | src/types.rs:73-78 | reading an encoded u64 gives it back, whatever follows |
| Types.Int16RoundTrip | src/types.rs:80-85 | reading an encoded two's-complement i16 gives it back |
| Types.TimeStampRoundTrip | src/types.rs:103-114 | reading an encoded time stamp gives it back |
| Types.TimeStampFields | src/types.rs:108-111 | the date is (i16 year from bytes 0-1, byte 2, byte 3) and the time is bytes 4-7 |
| Types.DecodersReadOnlyPrefix | src/types.rs:58-127 | each scalar decoder reads only its prefix; trailing bytes do not change the result |
| Types.ExampleHeaderScalars | src/types.rs:58-127 | decoding concrete byte strings gives 0x4949, version 1.1 and the time stamp 2021-11-09 15:28:58.0 |
| Hex.Hex | src/file.rs:253 | the `{:x}` spelling is a non-empty string of lowercase hex digits, with a leading '0' only for zero, and exactly "0" for zero |
| Hex.HexRoundTrip | src/file.rs:253 | parsing the hex spelling of a key gives the key back |
| Hex.HexInjective | src/file.rs:253 | two keys have the same spelling iff they are equal |
| Hex.MemberNameRoundTrip | src/file.rs:253 | the key is recoverable from the member name `name{hex}` |
| Hex.MemberNameInjective | src/file.rs:253 | two members of one collection share a storage name iff they share a key |
| Indexes.DecodeVectorIndex | src/file.rs:231-247 | succeeds iff the 12-byte header and all 4-byte keys fit; then it holds exactly entry-count keys; otherwise ShortRead |
| Indexes.VectorIndexFromStream | src/file.rs:231-247 | the key-reading loop returns exactly the declarative decoding |
| Indexes.VectorIndexRoundTrip | src/file.rs:231-247 | decoding an encoded vector index gives it back |
| Indexes.DecodeSetIndex | src/file.rs:276-304 | succeeds iff the 15-byte header and all entries of 8 + key-size bytes fit; then it has entry-count entries, each with an identification of key-size bytes; otherwise ShortRead |
| Indexes.SetIndexFromStream | src/file.rs:276-304 | the entry-reading loop returns exactly the declarative decoding |
| Indexes.SetEntriesStep | src/file.rs:284-295 | one more loop pass appends the entry at the next offset |
| Indexes.SetIndexRoundTrip | src/file.rs:276-304 | decoding an encoded set index gives it back |
| Indexes.SetHeaderRead | src/file.rs:277-281 | the count, free keys, key pid and key size are read back from an encoded header |
| Indexes.SetEntryRead | src/file.rs:285-293 | each entry is read back from its encoded block |
| Indexes.VectorMemberPaths | src/file.rs:249-257 | one member path per local key |
| Indexes.SetMemberPaths | src/file.rs:306-314 | one member path per entry |
| Indexes.VectorMemberPathsKeys | src/file.rs:249-257 | member i is a child of the parent whose name carries local key i |
| Indexes.SetMemberPathsKeys | src/file.rs:306-314 | member i is a child of the parent whose name carries entry i's local key |
| Indexes.VectorMemberPathsDistinct | src/file.rs:249-257 | two vector members share a path iff they share a local key |
| Indexes.MemberPathsAgree | src/file.rs:249-257 | vectors and sets build the same member paths from the same keys |
| Indexes.DecodeWeakRef | src/file.rs:325-344 | succeeds iff the 5-byte header and key-size identification bytes fit; otherwise ShortRead |
| Indexes.WeakRefRoundTrip | src/file.rs:325-344 | decoding an encoded weak reference gives it back |
| Indexes.DecodeWeakCollection | src/file.rs:356-380 | succeeds iff the 9-byte header and all identifications fit; then there are entry-count identifications of key-size bytes; otherwise ShortRead |
| Indexes.WeakCollectionFromStream | src/file.rs:356-380 | the identification loop returns exactly the declarative decoding |
| Indexes.IdentsStep | src/file.rs:364-371 | one more loop pass appends the next identification |
| Indexes.WeakCollectionRoundTrip | src/file.rs:356-380 | decoding an encoded weak collection gives it back |
| Indexes.IntoWeakReferences | src/file.rs:382-393 | the loop gives one reference per identification, in order, carrying the collection's tag, key pid and key size |
| Indexes.WeakReferencesIdentifications | src/file.rs:382-393 | the identifications of the expanded references are the collection's list |
| WeakPaths.SplitPathsSpec | src/file.rs:414-423 | splitting at zero pids gives zero-free paths, one per zero, and the paths joined back with their zeros plus the unterminated tail give the pids |
| WeakPaths.SplitJoin | src/file.rs:414-423 | splitting zero-terminated zero-free paths gives them back |
| WeakPaths.SplitPathsSnoc | src/file.rs:417-422 | one loop pass: a zero closes the current path, any other pid extends it |
| WeakPaths.PidsStep | src/file.rs:414-416 | one more pass reads the next pid |
| WeakPaths.RefTableFromStream | src/file.rs:404-437 | the table-reading loop returns exactly the declarative decoding |
| WeakPaths.DecodedRefTable | src/file.rs:404-437 | a decoded table has mark 0x4c and a path count equal to the number of zero pids; its paths are zero-free and joined back they form the pid list without its unterminated tail |
| WeakPaths.RefTableFailures | src/file.rs:405-429 | a wrong mark gives BadByteOrder, a short stream gives ShortRead, and a path count that differs from the zero count gives CountMismatch; otherwise decoding succeeds |
| WeakPaths.RefTableRoundTrip | src/file.rs:404-437 | decoding an encoded table gives it back |
| AafFile.ObjectAt | src/file.rs:33-41 | succeeds iff the path is a storage entry; the object carries that path and the entry's class id; otherwise StorageError at the path |
| AafFile.RootObject | src/file.rs:44-46 | the root object is the entry at the root path, or StorageError |
| AafFile.StreamAt | src/file.rs:122-125 | succeeds iff the stream exists, giving its bytes; otherwise StorageError |
| AafFile.ObjectsAt | src/file.rs:171-175 | succeeds iff every path is an entry, giving the objects in order; else reports a missing path from the list |
| AafFile.OpenFile | src/file.rs:76-93 | an opened file keeps the storage, its weak-reference paths are zero-free and are the pid paths decoded from `referenced properties`; a decoding error propagates, and a missing stream is a StorageError |
| AafFile.OpenEncodedTable | src/file.rs:76-93 | a file whose `referenced properties` stream holds an encoded table opens with exactly that table's pid paths |
| AafFile.RawProperties | src/file.rs:120-132 | a missing `properties` stream is a StorageError; otherwise the result is the decoding of that stream |
| AafFile.FindPid | src/file.rs:139-143 | succeeds iff some descriptor has the pid, and returns one of those; otherwise PropertyNotFound |
| AafFile.FindPidFirst | src/file.rs:139-143 | the descriptor found is the first with that pid |
| AafFile.RawPropertyByPid | src/file.rs:135-144 | a found descriptor has the pid and belongs to the object's decoded properties |
| AafFile.AllPropertyIds | src/file.rs:59-62 | succeeds iff the properties decode, giving their pids in stream order |
| AafFile.AllPropertyIdsFind | src/file.rs:59-62 | a pid is listed iff looking it up succeeds; an unlisted pid gives PropertyNotFound |
| AafFile.UnwrapObject | src/file.rs:103 | a single or reference value gives its object; anything else gives NotAnObject |
| AafFile.UnwrapSet | src/file.rs:108 | a set value gives its members; anything else gives NotASet |
| AafFile.ResolvePropertyValue | src/file.rs:146-220 | lookup errors propagate, an unrecognised stored form gives UnknownStoredForm, a data property gives the raw bytes of the record found by pid, and a resolved value has the shape of its stored form; when each other form succeeds is stated by the per-form lemmas below |
| AafFile.GetValue | src/file.rs:65-69 | a failed pid lookup propagates its error |
| AafFile.GetValueNotFound | src/file.rs:65-69 | a pid the object does not have gives PropertyNotFound |
| AafFile.GetValueData | src/file.rs:153 | a data property resolves to the raw bytes of the first descriptor with that pid |
| AafFile.DataStreamResolution | src/file.rs:154-158 | a data-stream property resolves iff its name decodes, and then to the stream path: the object's path joined with the name; otherwise NameNotDecodable |
| AafFile.StrongSingleResolution | src/file.rs:159-163 | a strong reference resolves iff its name decodes and the object's path joined with the name is an entry, and then to that entry; otherwise NameNotDecodable or StorageError at that path |
| AafFile.StrongVectorResolution | src/file.rs:164-178 | a strong vector resolves iff its name decodes, `name index` exists and decodes as a vector index, and every member path is an entry; it then gives the entry at `name{hex key}` for each key, in order |
| AafFile.StrongSetResolution | src/file.rs:179-193 | a strong set resolves iff its name decodes, `name index` exists and decodes as a set index, and every member path is an entry; it then gives the entry at `name{hex local key}` for each index entry, in order |
| AafFile.WeakCollectionResolution | src/file.rs:198-217 | a weak vector or set resolves iff its name decodes, its index decodes as a weak collection, fuel remains and every reference resolves; it then gives the resolved objects in order, as a reference vector or set by stored form |
| AafFile.WeakSingleResolution | src/file.rs:194-197 | a weak reference resolves iff its bytes decode, fuel remains and weak resolution succeeds, and then to `Reference` of the object weak resolution finds |
| AafFile.StrongChildBelow | src/file.rs:159-193 | every object a strong reference, vector or set resolves to is a storage entry one level below the referring object |
| AafFile.OtherFormsRejected | src/file.rs:218 | stored forms 0x03, 0x86 and 0x40 give UnknownStoredForm |
| AafFile.FindByKey | src/file.rs:109-114 | a found member belongs to the set and its key property equals the identification; Dangling means every member was read and none matched |
| AafFile.FindByKeyFirst | src/file.rs:109-114 | the member found is the first whose key matches |
| AafFile.ResolveWeak | src/file.rs:95-117 | a tag beyond the table gives BadTag; an empty pid path gives EmptyPath |
| AafFile.WeakResolutionTarget | src/file.rs:95-117 | a resolved weak reference walks from the root along all but the last pid, resolves the last pid to a set, and is the set member whose key property equals the identification |
| AafFile.WeakResolutionFound | src/file.rs:95-117 | conversely, when the walk succeeds and the last pid resolves to a set, the reference resolves to the first member whose key property equals the identification |
| AafFile.ResolveWeakAll | src/file.rs:206-211 | all references resolve, in order, or the error is that of one of them |
| AafFile.WalkPath | src/file.rs:98-104 | the hop loop gives exactly the declarative walk |
| AafFile.FindMember | src/file.rs:107-114 | the search loop gives exactly the first-match search |
| AafFile.ResolveWeakReference | src/file.rs:95-117 | the imperative resolution gives exactly the declarative one |
| PropertyIterator.GraphOf | src/property_iterator.rs:53-54 | the iterator's view of the file gives the file's property ids and resolved values |
| PropertyIterator.ToOption | src/property_iterator.rs:11 | an entry's value is present iff the property resolved, and is then that value |
| PropertyIterator.EntriesFor | src/property_iterator.rs:52-62 | one entry per pid, in order, with the parent, the pid, depth + 1 and the property's resolved value |
| PropertyIterator.Fill | src/property_iterator.rs:52-62 | filling succeeds iff the parent's pids are readable, giving one entry per pid with parent, pid, depth + 1 and resolved value |
| PropertyIterator.Pushed | src/property_iterator.rs:77-86 | the children's entries have a parent among the children, depth + 1 and their resolved values |
| PropertyIterator.PushedFailure | src/property_iterator.rs:77-86 | a failure while filling from a later child is the failure of the whole push |
| PropertyIterator.AAFPropertyIterator.constructor | src/property_iterator.rs:42-50 | the new iterator's stack is the root's entries, or it is failed with the error from reading the root |
| PropertyIterator.AAFPropertyIterator.FillStack | src/property_iterator.rs:52-62 | the stack grows by exactly the parent's entries, or the iterator fails |
| PropertyIterator.AAFPropertyIterator.PushChildren | src/property_iterator.rs:77-86 | children filled in reverse order leave the first child's entries on top; a failure empties the stack |
| PropertyIterator.AAFPropertyIterator.Next | src/property_iterator.rs:71-91 | pops the top entry and pushes the entries of its single, vector or set children; an empty stack gives None; a failed iterator keeps its error |
| PropertyIterator.AAFPropertyIterator.Collect | src/property_iterator.rs:71-91 | draining the iterator yields exactly the depth-first walk of its stack, and ends empty |
| PropertyIterator.WalkStackAppend | src/property_iterator.rs:71-91 | walking a stack walks its top part first, then the rest |
| PropertyIterator.PushedWalk | src/property_iterator.rs:77-86 | the walk of the pushed entries is the walk of the children in order |
| PropertyIterator.NextWalk | src/property_iterator.rs:71-91 | one step of the iterator turns the walk of the stack into the top entry followed by the walk of the new stack |
| PropertyIterator.WalkDeeper | src/property_iterator.rs:59 | an entry comes first in its own walk, and every later entry is strictly deeper |
| PropertyIterator.WalkStackDeeper | src/property_iterator.rs:59 | when every stacked entry is deeper than d, so is every walked entry |
| PropertyIterator.LastPidFirst | src/property_iterator.rs:48-55 | the first entry yielded for an object is its last pid, because the stack is popped from the end |
| PropertyIterator.FileAcyclic | src/property_iterator.rs:74-86 | a file with bounded path depth, in which every strong child's properties decode, meets the iterator's acyclicity condition under a depth ranking |
| PropertyIterator.WalkStackBound | src/property_iterator.rs:71-91 | the walk does not depend on the ranking bound used to measure it |

## Left out

- The compound-file library (`cfb`) is not part of this model. Storage is two maps, and
  class ids are opaque bytes.
- `raw_string_value` (UTF-16 names) is not part of this model. `AAFFile.decodeName` is a
  parameter that may fail (`NameNotDecodable`).
- `RawProperty::from_properties_istream` is not part of this model. The same layout is
  modelled by the `PropertyDescriptor` decoder.
- `Uuid` decoding (`src/types.rs:129-141`) is left out. It reads a u32 from a 3-byte slice
  (`item[0..3]`), so it would always fail.
- The definitions of `unwrap_object`, `unwrap_set` and `unwrap_reference` are not in the
  source. The model reads `unwrap_object` as accepting `Single` and `Reference` only,
  and `unwrap_set` as accepting `Set` only.
- AafFile.ResolvePropertyValue: nested weak references are resolved to `fuel` levels and
  give `DepthExceeded` beyond that. The source recurses without a bound and would not
  return on a cyclic pid path.
- AafFile.ResolveWeak: an index beyond the table and an empty pid path, which panic in
  the source, are errors `BadTag` and `EmptyPath`. `Dangling` stands for the `unwrap`
  of a failed search.
- PropertyIterator.AAFPropertyIterator.Next: a failure of `all_property_ids` while filling
  the stack (a missing or undecodable `properties` stream, which panics in the source)
  leaves the iterator failed (`failure`): every later call returns that error, and the
  partly filled stack is dropped.
- PropertyIterator.Fill: `get_value` panics in the source on every resolution failure
  (`src/file.rs:143`, `:168`, `:183`, `:202`, `:209`, `:218`). Here such a failure is
  recorded as an entry whose value is `None`, and iteration goes on.
- PropertyIterator.EntriesFor: as for `Fill`, a property that does not resolve gives a
  `None` entry instead of aborting the walk.
- PropertyIterator.AAFPropertyIterator.FillStack: as for `Fill`, a `get_value` failure
  pushes a `None` entry and does not set `failure`.
- PropertyIterator.AAFPropertyIterator.Collect: termination and the depth-first order are
  proved only for a graph satisfying `Acyclic`. That means a ranking of object paths
  under which every strong child ranks lower than its parent, and also that every strong
  child's properties decode (`g.ids(c).Ok?`), so the fill failure path is excluded. The
  source does not check for cycles. `FileAcyclic` shows that a file satisfies it when its
  paths have bounded depth and all strong children decode.
- Entry depth is a `nat`; `usize` overflow is not modelled.
- Paths: joining a name appends it as one component. `PathBuf::join` would instead
  replace the path for an absolute name and split a name containing `/`; neither is
  modelled. `ObjectAt` returns the requested path, not the library's canonical entry path.
- The iterator reads the file through `ObjectGraph`. The borrowing of `&mut AAFFile` is
  not modelled.
- `AAFFile::open`, `meta_dictionary` (a `todo!()`) and the `session` field are not part of
  this model, since they do I/O or carry no behaviour.
- `main.rs`, `classes.rs`, `object.rs`, `session.rs`, `header.rs`, `object_iterator.rs`,
  `meta.rs`, the meta-dictionary and the Python tooling are outside the modelled core.
