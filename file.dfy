/** The object layer of an AAF file (`AAFFile` in src/file.rs): objects are
    storage entries addressed by path, each with a `properties` stream; a
    property is resolved by dispatching on its stored form, reading index
    streams for strong collections and walking the weak-reference path table
    for weak references.

    The compound file is an abstract `Storage`: a map from entry path to the
    entry's class id and a map from stream path to the stream's bytes. A path
    is a sequence of names, the root is the empty path and joining a name
    appends it. UTF-16 name decoding is the file's `decodeName` parameter. */
module AafFile {
  import opened Bytes
  import opened Errors
  import opened Hex
  import opened Properties
  import opened Indexes
  import opened WeakPaths

  /** `InterchangeObjectDescriptor`: the class id and path of a storage entry. */
  datatype Object = Object(auid: bytes, path: Path)

  datatype Storage = Storage(entries: map<Path, bytes>, streams: map<Path, bytes>)

  datatype AAFFile = AAFFile(
    storage: Storage,
    weakrefTable: seq<seq<u16>>,
    decodeName: bytes -> Option<string>)

  /** A resolved property. */
  datatype PropertyValue =
    | Data(bytes: bytes)
    | Stream(path: Path)
    | Single(obj: Object)
    | Vector(objs: seq<Object>)
    | Set(objs: seq<Object>)
    | Reference(obj: Object)
    | ReferenceVector(objs: seq<Object>)
    | ReferenceSet(objs: seq<Object>)

  const PROPERTIES_STREAM: string := "properties"
  const REFERENCED_PROPERTIES: Path := ["referenced properties"]

  // ---------------------------------------------------------------------
  // Storage lookups

  /** `object`: the entry at `path`, or a storage error naming the path. */
  function ObjectAt(f: AAFFile, path: Path): (r: Result<Object>)
    ensures r.Ok? <==> path in f.storage.entries
    ensures r.Ok? ==> r.value.path == path && r.value.auid == f.storage.entries[path]
    ensures r.Err? ==> r.error == StorageError(path)
  {
    if path in f.storage.entries then Ok(Object(f.storage.entries[path], path))
    else Err(StorageError(path))
  }

  /** `root_object`: the entry at `/`. */
  function RootObject(f: AAFFile): (r: Result<Object>)
    ensures r.Ok? <==> [] in f.storage.entries
    ensures r.Ok? ==> r.value.path == []
    ensures r.Err? ==> r.error == StorageError([])
  {
    ObjectAt(f, [])
  }

  /** `open_stream`. */
  function StreamAt(f: AAFFile, path: Path): (r: Result<bytes>)
    ensures r.Ok? <==> path in f.storage.streams
    ensures r.Ok? ==> r.value == f.storage.streams[path]
    ensures r.Err? ==> r.error == StorageError(path)
  {
    if path in f.storage.streams then Ok(f.storage.streams[path]) else Err(StorageError(path))
  }

  /** `object` applied to each path in turn; the first missing entry fails. */
  function ObjectsAt(f: AAFFile, paths: seq<Path>): (r: Result<seq<Object>>)
    ensures r.Ok? <==> forall i :: 0 <= i < |paths| ==> paths[i] in f.storage.entries
    ensures r.Ok? ==> |r.value| == |paths|
    ensures r.Ok? ==> forall i :: 0 <= i < |paths| ==>
      r.value[i].path == paths[i] && r.value[i].auid == f.storage.entries[paths[i]]
    ensures r.Err? ==> r.error.StorageError? && r.error.path in paths && r.error.path !in f.storage.entries
    decreases |paths|
  {
    if paths == [] then Ok([])
    else
      var first :- ObjectAt(f, paths[0]);
      var rest :- ObjectsAt(f, paths[1..]);
      Ok([first] + rest)
  }

  /** `raw_string_value` on a name used as a path: a name that does not
      decode fails. */
  function DecodeName(f: AAFFile, raw: bytes): (r: Result<string>)
    ensures r.Ok? <==> f.decodeName(raw).Some?
    ensures r.Ok? ==> r.value == f.decodeName(raw).value
  {
    match f.decodeName(raw)
    case Some(name) => Ok(name)
    case None => Err(NameNotDecodable)
  }

  /** Where a named collection keeps its index: `<parent>/<name> index`. */
  function IndexPath(o: Object, name: string): Path
  {
    o.path + [name + " index"]
  }

  // ---------------------------------------------------------------------
  // Raw properties

  /** `raw_properties`: the decoded `properties` stream of an object. */
  function RawProperties(f: AAFFile, o: Object): (r: Result<seq<PropertyDescriptor>>)
    ensures o.path + [PROPERTIES_STREAM] !in f.storage.streams ==> r == Err(StorageError(o.path + [PROPERTIES_STREAM]))
    ensures o.path + [PROPERTIES_STREAM] in f.storage.streams ==> r == DecodeProperties(f.storage.streams[o.path + [PROPERTIES_STREAM]])
  {
    var raw :- StreamAt(f, o.path + [PROPERTIES_STREAM]);
    DecodeProperties(raw)
  }

  /** The record `find` picks: the first with the given pid. */
  function FindPid(ps: seq<PropertyDescriptor>, pid: u16): (r: Result<PropertyDescriptor>)
    ensures r.Ok? <==> exists i :: 0 <= i < |ps| && ps[i].pid == pid
    ensures r.Ok? ==> r.value in ps && r.value.pid == pid
    ensures r.Err? ==> r.error == PropertyNotFound(pid)
    decreases |ps|
  {
    if ps == [] then Err(PropertyNotFound(pid))
    else if ps[0].pid == pid then Ok(ps[0])
    else
      var r := FindPid(ps[1..], pid);
      assert r.Ok? ==> r.value in ps by {
        if r.Ok? {
          assert r.value in ps[1..];
        }
      }
      assert (exists i :: 0 <= i < |ps| && ps[i].pid == pid) ==> (exists i :: 0 <= i < |ps[1..]| && ps[1..][i].pid == pid) by {
        if exists i :: 0 <= i < |ps| && ps[i].pid == pid {
          var i :| 0 <= i < |ps| && ps[i].pid == pid;
          assert ps[1..][i - 1].pid == pid;
        }
      }
      r
  }

  /** Of several records with one pid, the one found is the earliest. */
  lemma {:induction false} FindPidFirst(ps: seq<PropertyDescriptor>, pid: u16, i: nat)
    requires i < |ps| && ps[i].pid == pid
    requires forall j :: 0 <= j < i ==> ps[j].pid != pid
    ensures FindPid(ps, pid) == Ok(ps[i])
    decreases i
  {
    if i > 0 {
      FindPidFirst(ps[1..], pid, i - 1);
    }
  }

  /** `raw_property_by_pid`: the first record of the object with that pid. */
  function RawPropertyByPid(f: AAFFile, o: Object, pid: u16): (r: Result<PropertyDescriptor>)
    ensures r.Ok? ==> r.value.pid == pid && RawProperties(f, o).Ok? && r.value in RawProperties(f, o).value
  {
    var props :- RawProperties(f, o);
    FindPid(props, pid)
  }

  function Pids(ps: seq<PropertyDescriptor>): (r: seq<u16>)
    ensures |r| == |ps|
  {
    seq(|ps|, i requires 0 <= i < |ps| => ps[i].pid)
  }

  /** `all_property_ids`: the pids of the object's records, in header order. */
  function AllPropertyIds(f: AAFFile, o: Object): (r: Result<seq<u16>>)
    ensures r.Ok? <==> RawProperties(f, o).Ok?
    ensures r.Ok? ==> |r.value| == |RawProperties(f, o).value|
    ensures r.Ok? ==> forall i :: 0 <= i < |r.value| ==> r.value[i] == RawProperties(f, o).value[i].pid
  {
    var props :- RawProperties(f, o);
    Ok(Pids(props))
  }

  /** A pid is listed exactly when a record for it can be found; an unlisted
      pid is reported as not found, never as some other value. */
  lemma AllPropertyIdsFind(f: AAFFile, o: Object, pid: u16)
    requires AllPropertyIds(f, o).Ok?
    ensures pid in AllPropertyIds(f, o).value <==> RawPropertyByPid(f, o, pid).Ok?
    ensures pid !in AllPropertyIds(f, o).value ==> RawPropertyByPid(f, o, pid) == Err(PropertyNotFound(pid))
  {
    var ps := RawProperties(f, o).value;
    var ids := AllPropertyIds(f, o).value;
    if pid in ids {
      var i :| 0 <= i < |ids| && ids[i] == pid;
      assert ps[i].pid == pid;
    }
  }

  // ---------------------------------------------------------------------
  // Resolution

  /** The variant a stored form resolves to. */
  predicate Matches(v: PropertyValue, form: StoredForm)
  {
    match form
    case Data => v.Data?
    case DataStream => v.Stream?
    case StrongObjectRef => v.Single?
    case StrongObjectRefVector => v.Vector?
    case StrongObjectRefSet => v.Set?
    case WeakObjectRef => v.Reference?
    case WeakObjectRefVector => v.ReferenceVector?
    case WeakObjectRefSet => v.ReferenceSet?
  }

  /** `unwrap_object`, on a hop of a weak-reference path: a single strong or
      weak reference. */
  function UnwrapObject(v: PropertyValue): (r: Result<Object>)
    ensures r.Ok? <==> v.Single? || v.Reference?
    ensures r.Ok? ==> r.value == v.obj
    ensures r.Err? ==> r.error == NotAnObject
  {
    match v
    case Single(o) => Ok(o)
    case Reference(o) => Ok(o)
    case _ => Err(NotAnObject)
  }

  /** `unwrap_set`, on the last hop of a weak-reference path. */
  function UnwrapSet(v: PropertyValue): (r: Result<seq<Object>>)
    ensures r.Ok? <==> v.Set?
    ensures r.Ok? ==> r.value == v.objs
    ensures r.Err? ==> r.error == NotASet
  {
    match v
    case Set(objs) => Ok(objs)
    case _ => Err(NotASet)
  }

  /** `resolve_property_value`. The record is looked up again by pid first,
      and a `Data` value carries the bytes of that first record; the other
      forms read the name, reference or index from `prop` itself. Nested weak
      references spend one unit of `fuel` each. */
  function ResolvePropertyValue(f: AAFFile, o: Object, prop: PropertyDescriptor, fuel: nat): (r: Result<PropertyValue>)
    ensures RawPropertyByPid(f, o, prop.pid).Err? ==> r == Err(RawPropertyByPid(f, o, prop.pid).error)
    ensures RawPropertyByPid(f, o, prop.pid).Ok? && ParseStoredForm(prop.storedForm).None?
      ==> r == Err(UnknownStoredForm(prop.storedForm))
    ensures r.Ok? ==> ParseStoredForm(prop.storedForm).Some? && Matches(r.value, ParseStoredForm(prop.storedForm).value)
    ensures RawPropertyByPid(f, o, prop.pid).Ok? && prop.storedForm == SF_DATA
      ==> r == Ok(PropertyValue.Data(RawPropertyByPid(f, o, prop.pid).value.value))
    decreases fuel, 0, 0
  {
    var raw :- RawPropertyByPid(f, o, prop.pid);
    match ParseStoredForm(prop.storedForm)
    case None => Err(UnknownStoredForm(prop.storedForm))
    case Some(form) =>
      match form
      case Data => Ok(PropertyValue.Data(raw.value))
      case DataStream =>
        var name :- DecodeName(f, prop.value);
        Ok(Stream(o.path + [name]))
      case StrongObjectRef =>
        var name :- DecodeName(f, prop.value);
        var child :- ObjectAt(f, o.path + [name]);
        Ok(Single(child))
      case StrongObjectRefVector =>
        var name :- DecodeName(f, prop.value);
        var index :- StreamAt(f, IndexPath(o, name));
        var vectorIndex :- DecodeVectorIndex(index);
        var members :- ObjectsAt(f, VectorMemberPaths(vectorIndex, name, o.path));
        Ok(Vector(members))
      case StrongObjectRefSet =>
        var name :- DecodeName(f, prop.value);
        var index :- StreamAt(f, IndexPath(o, name));
        var setIndex :- DecodeSetIndex(index);
        var members :- ObjectsAt(f, SetMemberPaths(setIndex, name, o.path));
        Ok(Set(members))
      case WeakObjectRef =>
        var weakRef :- DecodeWeakRef(prop.value);
        if fuel == 0 then Err(DepthExceeded)
        else
          var target :- ResolveWeak(f, weakRef, fuel - 1);
          Ok(Reference(target))
      case _ =>
        var name :- DecodeName(f, prop.value);
        var index :- StreamAt(f, IndexPath(o, name));
        var collection :- DecodeWeakCollection(index);
        if fuel == 0 then Err(DepthExceeded)
        else
          var refs :- ResolveWeakAll(f, WeakReferencesOf(collection), fuel - 1);
          if form == WeakObjectRefVector then Ok(ReferenceVector(refs)) else Ok(ReferenceSet(refs))
  }

  /** Walks the hops of a weak-reference path, each a single reference. */
  function WalkHops(f: AAFFile, o: Object, hops: seq<u16>, fuel: nat): (r: Result<Object>)
    decreases fuel, 1, |hops|
  {
    if hops == [] then Ok(o)
    else
      var p :- RawPropertyByPid(f, o, hops[0]);
      var v :- ResolvePropertyValue(f, o, p, fuel);
      var next :- UnwrapObject(v);
      WalkHops(f, next, hops[1..], fuel)
  }

  /** The `find` over the terminal set: the first member whose key property
      holds exactly the identification bytes. A member without the key
      property fails the search. */
  function FindByKey(f: AAFFile, members: seq<Object>, keyPid: u16, ident: bytes): (r: Result<Object>)
    ensures r.Ok? ==> r.value in members
    ensures r.Ok? ==> RawPropertyByPid(f, r.value, keyPid).Ok? && RawPropertyByPid(f, r.value, keyPid).value.value == ident
    ensures r == Err(Dangling) ==> forall m :: m in members ==>
      RawPropertyByPid(f, m, keyPid).Ok? && RawPropertyByPid(f, m, keyPid).value.value != ident
    decreases |members|
  {
    if members == [] then Err(Dangling)
    else
      var p :- RawPropertyByPid(f, members[0], keyPid);
      if p.value == ident then Ok(members[0])
      else
        var r := FindByKey(f, members[1..], keyPid, ident);
        assert forall m :: m in members[1..] ==> m in members;
        assert forall m :: m in members ==> m == members[0] || m in members[1..];
        r
  }

  /** The earliest matching member is the one found. */
  lemma {:induction false} FindByKeyFirst(f: AAFFile, members: seq<Object>, keyPid: u16, ident: bytes, i: nat)
    requires i < |members|
    requires forall j :: 0 <= j < i ==>
      RawPropertyByPid(f, members[j], keyPid).Ok? && RawPropertyByPid(f, members[j], keyPid).value.value != ident
    requires RawPropertyByPid(f, members[i], keyPid).Ok? && RawPropertyByPid(f, members[i], keyPid).value.value == ident
    ensures FindByKey(f, members, keyPid, ident) == Ok(members[i])
    decreases i
  {
    if i > 0 {
      FindByKeyFirst(f, members[1..], keyPid, ident, i - 1);
    }
  }

  /** `resolve_weak_reference`: look up the tag's pid path, walk all but its
      last pid from the root, resolve the last one as a strong set and pick
      the member whose key matches. */
  function ResolveWeak(f: AAFFile, w: WeakRef, fuel: nat): (r: Result<Object>)
    ensures w.tag as nat >= |f.weakrefTable| ==> r == Err(BadTag(w.tag))
    ensures w.tag as nat < |f.weakrefTable| && |f.weakrefTable[w.tag]| == 0 && RootObject(f).Ok?
      ==> r == Err(EmptyPath(w.tag))
    decreases fuel, 2, 0
  {
    if w.tag as nat >= |f.weakrefTable| then Err(BadTag(w.tag))
    else
      var pidPath := f.weakrefTable[w.tag];
      var root :- RootObject(f);
      if |pidPath| == 0 then Err(EmptyPath(w.tag))
      else
        var target :- WalkHops(f, root, pidPath[..|pidPath| - 1], fuel);
        var last :- RawPropertyByPid(f, target, pidPath[|pidPath| - 1]);
        var v :- ResolvePropertyValue(f, target, last, fuel);
        var members :- UnwrapSet(v);
        FindByKey(f, members, w.keyPid, w.identification)
  }

  /** Resolves each reference of a weak collection in turn; the first failure fails. */
  function ResolveWeakAll(f: AAFFile, refs: seq<WeakRef>, fuel: nat): (r: Result<seq<Object>>)
    ensures r.Ok? ==> |r.value| == |refs|
    ensures r.Ok? ==> forall i :: 0 <= i < |refs| ==> ResolveWeak(f, refs[i], fuel) == Ok(r.value[i])
    ensures r.Err? ==> exists i :: 0 <= i < |refs| && ResolveWeak(f, refs[i], fuel) == Err(r.error)
    decreases fuel, 3, |refs|
  {
    if refs == [] then Ok([])
    else
      var first :- ResolveWeak(f, refs[0], fuel);
      var rest :- ResolveWeakAll(f, refs[1..], fuel);
      Ok([first] + rest)
  }

  /** `get_value`: find the record, then resolve it. */
  function GetValue(f: AAFFile, o: Object, pid: u16, fuel: nat): (r: Result<PropertyValue>)
    ensures RawPropertyByPid(f, o, pid).Err? ==> r == Err(RawPropertyByPid(f, o, pid).error)
  {
    var prop :- RawPropertyByPid(f, o, pid);
    ResolvePropertyValue(f, o, prop, fuel)
  }

  // ---------------------------------------------------------------------
  // What resolution promises

  /** An object without a record for the pid gives `PropertyNotFound`. */
  lemma GetValueNotFound(f: AAFFile, o: Object, pid: u16, fuel: nat)
    requires AllPropertyIds(f, o).Ok? && pid !in AllPropertyIds(f, o).value
    ensures GetValue(f, o, pid, fuel) == Err(PropertyNotFound(pid))
  {
    AllPropertyIdsFind(f, o, pid);
  }

  /** Inline data is the payload of the object's first record with that pid,
      returned verbatim. */
  lemma GetValueData(f: AAFFile, o: Object, pid: u16, fuel: nat, i: nat)
    requires RawProperties(f, o).Ok? && i < |RawProperties(f, o).value|
    requires var ps := RawProperties(f, o).value;
      ps[i].pid == pid && ps[i].storedForm == SF_DATA
      && forall j :: 0 <= j < i ==> ps[j].pid != pid
    ensures GetValue(f, o, pid, fuel) == Ok(PropertyValue.Data(RawProperties(f, o).value[i].value))
  {
    FindPidFirst(RawProperties(f, o).value, pid, i);
  }

  /** A strong single reference resolves exactly when its name decodes and
      names a child entry below the object, and then to that entry. */
  lemma StrongSingleResolution(f: AAFFile, o: Object, prop: PropertyDescriptor, fuel: nat)
    requires prop.storedForm == SF_STRONG_OBJECT_REF && RawPropertyByPid(f, o, prop.pid).Ok?
    ensures ResolvePropertyValue(f, o, prop, fuel).Ok?
        <==> f.decodeName(prop.value).Some? && o.path + [f.decodeName(prop.value).value] in f.storage.entries
    ensures f.decodeName(prop.value).None? ==> ResolvePropertyValue(f, o, prop, fuel) == Err(NameNotDecodable)
    ensures f.decodeName(prop.value).Some? ==>
      var path := o.path + [f.decodeName(prop.value).value];
      && (path !in f.storage.entries ==> ResolvePropertyValue(f, o, prop, fuel) == Err(StorageError(path)))
      && (path in f.storage.entries ==>
            ResolvePropertyValue(f, o, prop, fuel) == Ok(Single(Object(f.storage.entries[path], path))))
  {
  }

  /** A data stream resolves exactly when its name decodes, to the sibling
      stream path; nothing is read from it. */
  lemma DataStreamResolution(f: AAFFile, o: Object, prop: PropertyDescriptor, fuel: nat)
    requires prop.storedForm == SF_DATA_STREAM && RawPropertyByPid(f, o, prop.pid).Ok?
    ensures ResolvePropertyValue(f, o, prop, fuel).Ok? <==> f.decodeName(prop.value).Some?
    ensures f.decodeName(prop.value).None? ==> ResolvePropertyValue(f, o, prop, fuel) == Err(NameNotDecodable)
    ensures f.decodeName(prop.value).Some? ==>
      ResolvePropertyValue(f, o, prop, fuel) == Ok(Stream(o.path + [f.decodeName(prop.value).value]))
  {
  }

  /** A strong vector resolves exactly when its name decodes, the index at
      `<name> index` exists and decodes, and every member path is an entry;
      it then gives one object per local key, in index order, each at
      `<parent>/<name>{<hex key>}`. */
  lemma StrongVectorResolution(f: AAFFile, o: Object, prop: PropertyDescriptor, fuel: nat)
    requires prop.storedForm == SF_STRONG_OBJECT_REF_VECTOR && RawPropertyByPid(f, o, prop.pid).Ok?
    ensures ResolvePropertyValue(f, o, prop, fuel).Ok? <==>
      && f.decodeName(prop.value).Some?
      && var name := f.decodeName(prop.value).value;
         && IndexPath(o, name) in f.storage.streams
         && DecodeVectorIndex(f.storage.streams[IndexPath(o, name)]).Ok?
         && var paths := VectorMemberPaths(DecodeVectorIndex(f.storage.streams[IndexPath(o, name)]).value, name, o.path);
            forall i :: 0 <= i < |paths| ==> paths[i] in f.storage.entries
    ensures ResolvePropertyValue(f, o, prop, fuel).Ok? ==>
      var name := f.decodeName(prop.value).value;
      var keys := DecodeVectorIndex(f.storage.streams[IndexPath(o, name)]).value.localKeys;
      var v := ResolvePropertyValue(f, o, prop, fuel).value;
      && v.Vector?
      && |v.objs| == |keys|
      && forall i :: 0 <= i < |keys| ==>
           var path := o.path + [MemberName(name, keys[i])];
           path in f.storage.entries && v.objs[i] == Object(f.storage.entries[path], path)
  {
    StoredFormCodesDistinct(StoredForm.StrongObjectRefVector, StoredForm.StrongObjectRefVector);
    var name := f.decodeName(prop.value);
    if name.Some? && IndexPath(o, name.value) in f.storage.streams {
      var index := DecodeVectorIndex(f.storage.streams[IndexPath(o, name.value)]);
      if index.Ok? {
        var paths := VectorMemberPaths(index.value, name.value, o.path);
        var members := ObjectsAt(f, paths);
        if members.Ok? {
          forall i | 0 <= i < |index.value.localKeys|
            ensures var path := o.path + [MemberName(name.value, index.value.localKeys[i])];
              path in f.storage.entries && members.value[i] == Object(f.storage.entries[path], path)
          {
            assert paths[i] == o.path + [MemberName(name.value, index.value.localKeys[i])];
          }
        }
      }
    }
  }

  /** A strong set resolves exactly when its name decodes, the set index
      exists and decodes, and every member path is an entry; it then gives
      one object per index entry, in entry order, named by the local keys. */
  lemma StrongSetResolution(f: AAFFile, o: Object, prop: PropertyDescriptor, fuel: nat)
    requires prop.storedForm == SF_STRONG_OBJECT_REF_SET && RawPropertyByPid(f, o, prop.pid).Ok?
    ensures ResolvePropertyValue(f, o, prop, fuel).Ok? <==>
      && f.decodeName(prop.value).Some?
      && var name := f.decodeName(prop.value).value;
         && IndexPath(o, name) in f.storage.streams
         && DecodeSetIndex(f.storage.streams[IndexPath(o, name)]).Ok?
         && var paths := SetMemberPaths(DecodeSetIndex(f.storage.streams[IndexPath(o, name)]).value, name, o.path);
            forall i :: 0 <= i < |paths| ==> paths[i] in f.storage.entries
    ensures ResolvePropertyValue(f, o, prop, fuel).Ok? ==>
      var name := f.decodeName(prop.value).value;
      var entries := DecodeSetIndex(f.storage.streams[IndexPath(o, name)]).value.entries;
      var v := ResolvePropertyValue(f, o, prop, fuel).value;
      && v.Set?
      && |v.objs| == |entries|
      && forall i :: 0 <= i < |entries| ==>
           var path := o.path + [MemberName(name, entries[i].localKey)];
           path in f.storage.entries && v.objs[i] == Object(f.storage.entries[path], path)
  {
    StoredFormCodesDistinct(StoredForm.StrongObjectRefSet, StoredForm.StrongObjectRefSet);
    var name := f.decodeName(prop.value);
    if name.Some? && IndexPath(o, name.value) in f.storage.streams {
      var index := DecodeSetIndex(f.storage.streams[IndexPath(o, name.value)]);
      if index.Ok? {
        var paths := SetMemberPaths(index.value, name.value, o.path);
        var members := ObjectsAt(f, paths);
        if members.Ok? {
          forall i | 0 <= i < |index.value.entries|
            ensures var path := o.path + [MemberName(name.value, index.value.entries[i].localKey)];
              path in f.storage.entries && members.value[i] == Object(f.storage.entries[path], path)
          {
            assert paths[i] == o.path + [MemberName(name.value, index.value.entries[i].localKey)];
          }
        }
      }
    }
  }

  /** A weak vector or set resolves exactly when its name decodes, the
      collection at `<name> index` exists and decodes, `fuel` remains and
      every reference resolves one level down; it then gives the resolved
      objects in order. */
  lemma WeakCollectionResolution(f: AAFFile, o: Object, prop: PropertyDescriptor, fuel: nat)
    requires prop.storedForm in [SF_WEAK_OBJECT_REF_VECTOR, SF_WEAK_OBJECT_REF_SET]
    requires RawPropertyByPid(f, o, prop.pid).Ok?
    ensures ResolvePropertyValue(f, o, prop, fuel).Ok? <==>
      && f.decodeName(prop.value).Some?
      && var name := f.decodeName(prop.value).value;
         && IndexPath(o, name) in f.storage.streams
         && DecodeWeakCollection(f.storage.streams[IndexPath(o, name)]).Ok?
         && fuel > 0
         && var refs := WeakReferencesOf(DecodeWeakCollection(f.storage.streams[IndexPath(o, name)]).value);
            forall i :: 0 <= i < |refs| ==> ResolveWeak(f, refs[i], fuel - 1).Ok?
    ensures ResolvePropertyValue(f, o, prop, fuel).Ok? ==>
      var name := f.decodeName(prop.value).value;
      var refs := WeakReferencesOf(DecodeWeakCollection(f.storage.streams[IndexPath(o, name)]).value);
      var v := ResolvePropertyValue(f, o, prop, fuel).value;
      && (if prop.storedForm == SF_WEAK_OBJECT_REF_VECTOR then v.ReferenceVector? else v.ReferenceSet?)
      && |v.objs| == |refs|
      && forall i :: 0 <= i < |refs| ==> ResolveWeak(f, refs[i], fuel - 1) == Ok(v.objs[i])
  {
    StoredFormCodesDistinct(StoredForm.WeakObjectRefVector, StoredForm.WeakObjectRefSet);
  }

  /** A weak single reference resolves exactly when its bytes decode, `fuel`
      remains and the reference resolves one level down, and then to that
      object. */
  lemma WeakSingleResolution(f: AAFFile, o: Object, prop: PropertyDescriptor, fuel: nat)
    requires prop.storedForm == SF_WEAK_OBJECT_REF && RawPropertyByPid(f, o, prop.pid).Ok?
    ensures ResolvePropertyValue(f, o, prop, fuel).Ok? <==>
      fuel > 0 && DecodeWeakRef(prop.value).Ok? && ResolveWeak(f, DecodeWeakRef(prop.value).value, fuel - 1).Ok?
    ensures ResolvePropertyValue(f, o, prop, fuel).Ok? ==>
      ResolvePropertyValue(f, o, prop, fuel)
        == Ok(Reference(ResolveWeak(f, DecodeWeakRef(prop.value).value, fuel - 1).value))
  {
    StoredFormCodesDistinct(StoredForm.WeakObjectRef, StoredForm.WeakObjectRef);
  }

  /** Every object a strong reference, vector or set resolves to is a storage
      entry one level below the referring object. */
  lemma StrongChildBelow(f: AAFFile, o: Object, prop: PropertyDescriptor, fuel: nat, c: Object)
    requires ResolvePropertyValue(f, o, prop, fuel).Ok?
    requires var v := ResolvePropertyValue(f, o, prop, fuel).value;
      (v.Single? && c == v.obj) || ((v.Vector? || v.Set?) && c in v.objs)
    ensures c.path in f.storage.entries && |c.path| == |o.path| + 1
  {
    var v := ResolvePropertyValue(f, o, prop, fuel).value;
    var form := ParseStoredForm(prop.storedForm).value;
    var name := f.decodeName(prop.value).value;
    if v.Vector? {
      assert form == StrongObjectRefVector;
      var idx := DecodeVectorIndex(f.storage.streams[IndexPath(o, name)]).value;
      var i :| 0 <= i < |v.objs| && v.objs[i] == c;
      VectorMemberPathsKeys(idx, name, o.path, i);
    } else if v.Set? {
      assert form == StrongObjectRefSet;
      var idx := DecodeSetIndex(f.storage.streams[IndexPath(o, name)]).value;
      var i :| 0 <= i < |v.objs| && v.objs[i] == c;
      SetMemberPathsKeys(idx, name, o.path, i);
    } else {
      assert form == StrongObjectRef;
    }
  }

  /** The three stored forms outside the eight are rejected. */
  lemma OtherFormsRejected(f: AAFFile, o: Object, prop: PropertyDescriptor, fuel: nat)
    requires prop.storedForm in [SF_WEAK_OBJECT_STORED_OBJ_ID, SF_UNIQUE_OBJ_ID, SF_OPAQUE_STREAM]
    requires RawPropertyByPid(f, o, prop.pid).Ok?
    ensures ResolvePropertyValue(f, o, prop, fuel) == Err(UnknownStoredForm(prop.storedForm))
  {
    StoredFormCodesDistinct(StoredForm.Data, StoredForm.Data);
  }

  /** A resolved weak reference is a member of the terminal set whose key
      property holds the identification, and no earlier member does. */
  lemma WeakResolutionTarget(f: AAFFile, w: WeakRef, fuel: nat)
    requires ResolveWeak(f, w, fuel).Ok?
    ensures w.tag as nat < |f.weakrefTable| && |f.weakrefTable[w.tag]| > 0 && RootObject(f).Ok?
    ensures var pidPath := f.weakrefTable[w.tag];
      var target := WalkHops(f, RootObject(f).value, pidPath[..|pidPath| - 1], fuel);
      && target.Ok?
      && RawPropertyByPid(f, target.value, pidPath[|pidPath| - 1]).Ok?
      && var v := ResolvePropertyValue(f, target.value, RawPropertyByPid(f, target.value, pidPath[|pidPath| - 1]).value, fuel);
         v.Ok? && v.value.Set?
         && ResolveWeak(f, w, fuel) == FindByKey(f, v.value.objs, w.keyPid, w.identification)
         && ResolveWeak(f, w, fuel).value in v.value.objs
         && RawPropertyByPid(f, ResolveWeak(f, w, fuel).value, w.keyPid).value.value == w.identification
  {
  }

  /** The converse: when the walk along all but the last pid reaches an object
      whose last pid resolves to a set, the reference resolves to the first
      member whose key property holds the identification. */
  lemma WeakResolutionFound(f: AAFFile, w: WeakRef, fuel: nat, members: seq<Object>, i: nat)
    requires w.tag as nat < |f.weakrefTable| && |f.weakrefTable[w.tag]| > 0 && RootObject(f).Ok?
    requires var pidPath := f.weakrefTable[w.tag];
      var target := WalkHops(f, RootObject(f).value, pidPath[..|pidPath| - 1], fuel);
      && target.Ok?
      && RawPropertyByPid(f, target.value, pidPath[|pidPath| - 1]).Ok?
      && ResolvePropertyValue(f, target.value, RawPropertyByPid(f, target.value, pidPath[|pidPath| - 1]).value, fuel)
         == Ok(Set(members))
    requires i < |members|
    requires forall j :: 0 <= j < i ==>
      RawPropertyByPid(f, members[j], w.keyPid).Ok? && RawPropertyByPid(f, members[j], w.keyPid).value.value != w.identification
    requires RawPropertyByPid(f, members[i], w.keyPid).Ok?
      && RawPropertyByPid(f, members[i], w.keyPid).value.value == w.identification
    ensures ResolveWeak(f, w, fuel) == Ok(members[i])
  {
    FindByKeyFirst(f, members, w.keyPid, w.identification, i);
  }

  // ---------------------------------------------------------------------
  // The loops of resolve_weak_reference

  /** The hop loop of `resolve_weak_reference`: `obj` is reassigned once per pid. */
  method WalkPath(f: AAFFile, root: Object, hops: seq<u16>, fuel: nat) returns (r: Result<Object>)
    ensures r == WalkHops(f, root, hops, fuel)
  {
    var obj := root;
    for i := 0 to |hops|
      invariant WalkHops(f, root, hops, fuel) == WalkHops(f, obj, hops[i..], fuel)
    {
      assert hops[i..][1..] == hops[i + 1..];
      var p := RawPropertyByPid(f, obj, hops[i]);
      if p.Err? {
        return Err(p.error);
      }
      var v := ResolvePropertyValue(f, obj, p.value, fuel);
      if v.Err? {
        return Err(v.error);
      }
      var next := UnwrapObject(v.value);
      if next.Err? {
        return Err(next.error);
      }
      obj := next.value;
    }
    assert hops[|hops|..] == [];
    r := Ok(obj);
  }

  /** The `find` of `resolve_weak_reference`, member by member. */
  method FindMember(f: AAFFile, members: seq<Object>, keyPid: u16, ident: bytes) returns (r: Result<Object>)
    ensures r == FindByKey(f, members, keyPid, ident)
  {
    for j := 0 to |members|
      invariant FindByKey(f, members, keyPid, ident) == FindByKey(f, members[j..], keyPid, ident)
    {
      assert members[j..][1..] == members[j + 1..];
      var key := RawPropertyByPid(f, members[j], keyPid);
      if key.Err? {
        return Err(key.error);
      }
      if key.value.value == ident {
        return Ok(members[j]);
      }
    }
    assert members[|members|..] == [];
    r := Err(Dangling);
  }

  /** `resolve_weak_reference` as written: the path table is indexed by the
      tag, the hops are walked from the root, and the terminal set searched. */
  method ResolveWeakReference(f: AAFFile, w: WeakRef, fuel: nat) returns (r: Result<Object>)
    ensures r == ResolveWeak(f, w, fuel)
  {
    if w.tag as nat >= |f.weakrefTable| {
      return Err(BadTag(w.tag));
    }
    var pidPath := f.weakrefTable[w.tag];
    var root := RootObject(f);
    if root.Err? {
      return Err(root.error);
    }
    if |pidPath| == 0 {
      return Err(EmptyPath(w.tag));
    }
    var obj := WalkPath(f, root.value, pidPath[..|pidPath| - 1], fuel);
    if obj.Err? {
      return Err(obj.error);
    }
    var last := RawPropertyByPid(f, obj.value, pidPath[|pidPath| - 1]);
    if last.Err? {
      return Err(last.error);
    }
    var v := ResolvePropertyValue(f, obj.value, last.value, fuel);
    if v.Err? {
      return Err(v.error);
    }
    var members := UnwrapSet(v.value);
    if members.Err? {
      return Err(members.error);
    }
    r := FindMember(f, members.value, w.keyPid, w.identification);
  }

  // ---------------------------------------------------------------------
  // Opening a file

  /** `with_cfb` and `weak_refs_table`: the path table is read once from
      `/referenced properties` when the file is opened. */
  function OpenFile(storage: Storage, decodeName: bytes -> Option<string>): (r: Result<AAFFile>)
    ensures r.Ok? ==> r.value.storage == storage && AllZeroFree(r.value.weakrefTable)
    ensures REFERENCED_PROPERTIES !in storage.streams ==> r == Err(StorageError(REFERENCED_PROPERTIES))
    ensures REFERENCED_PROPERTIES in storage.streams ==>
      var t := DecodeRefTable(storage.streams[REFERENCED_PROPERTIES]);
      r == if t.Ok? then Ok(AAFFile(storage, t.value.pidPaths, decodeName)) else Err(t.error)
  {
    var raw :- (if REFERENCED_PROPERTIES in storage.streams then Ok(storage.streams[REFERENCED_PROPERTIES])
                else Err(StorageError(REFERENCED_PROPERTIES)));
    var table :- DecodeRefTable(raw);
    DecodedRefTable(raw);
    Ok(AAFFile(storage, table.pidPaths, decodeName))
  }

  /** A file whose `referenced properties` stream holds an encoded table opens
      with exactly that table's pid paths. */
  lemma OpenEncodedTable(storage: Storage, decodeName: bytes -> Option<string>, t: RefPropsTable, rest: bytes)
    requires TableEncodable(t)
    requires REFERENCED_PROPERTIES in storage.streams
    requires storage.streams[REFERENCED_PROPERTIES] == EncodeRefTable(t) + rest
    ensures OpenFile(storage, decodeName) == Ok(AAFFile(storage, t.pidPaths, decodeName))
  {
    RefTableRoundTrip(t, rest);
  }
}
