/** The index streams of strong collections and the weak-reference payloads
    (`StrongVectorReferenceIndex`, `StrongSetReferenceIndex`,
    `WeakObjectReference`, `WeakCollectionReference`), and the member paths a
    strong collection's index names. Every layout is little-endian and read
    front to back; any read past the end is a `ShortRead`. */
module Indexes {
  import opened Bytes
  import opened Errors
  import opened Hex

  // ---------------------------------------------------------------------
  // Arithmetic on block offsets

  lemma MulMono(a: nat, b: nat, w: nat)
    requires a <= b
    ensures a * w <= b * w
  {
    assert b * w == a * w + (b - a) * w;
  }

  // ---------------------------------------------------------------------
  // Strong-vector index: entry_count:4, first_free:4, last_free:4,
  // then entry_count local keys of 4 bytes each.

  datatype VectorIndex = VectorIndex(entryCount: u32, firstFreeKey: u32, lastFreeKey: u32, localKeys: seq<u32>)

  function DecodeVectorIndex(s: bytes): (r: Result<VectorIndex>)
    ensures r.Ok? <==> |s| >= 12 && |s| >= 12 + 4 * U32At(s, 0)
    ensures r.Ok? ==> |r.value.localKeys| == r.value.entryCount == U32At(s, 0)
    ensures r.Err? ==> r.error == ShortRead
  {
    if |s| < 12 then Err(ShortRead)
    else
      var n := U32At(s, 0);
      if |s| < 12 + 4 * n then Err(ShortRead)
      else Ok(VectorIndex(n, U32At(s, 4), U32At(s, 8), seq(n, i requires 0 <= i < n => U32At(s, 12 + 4 * i))))
  }

  /** `StrongVectorReferenceIndex::from_istream`: the keys are written one by
      one into a zero-filled array of `entry_count` slots. */
  method VectorIndexFromStream(s: bytes) returns (r: Result<VectorIndex>)
    ensures r == DecodeVectorIndex(s)
  {
    if |s| < 4 {
      return Err(ShortRead);
    }
    var entryCount: nat := U32At(s, 0);
    if |s| < 8 {
      return Err(ShortRead);
    }
    var firstFreeKey := U32At(s, 4);
    if |s| < 12 {
      return Err(ShortRead);
    }
    var lastFreeKey := U32At(s, 8);
    var localKeys := new u32[entryCount](_ => 0);
    var pos := 12;
    for i := 0 to entryCount
      invariant pos == 12 + 4 * i && pos <= |s|
      invariant forall k :: 0 <= k < i ==> localKeys[k] == U32At(s, 12 + 4 * k)
    {
      if |s| < pos + 4 {
        return Err(ShortRead);
      }
      localKeys[i] := U32At(s, pos);
      pos := pos + 4;
    }
    assert localKeys[..] == seq(entryCount, i requires 0 <= i < entryCount => U32At(s, 12 + 4 * i));
    r := Ok(VectorIndex(entryCount, firstFreeKey, lastFreeKey, localKeys[..]));
  }

  function EncodeU32s(ks: seq<u32>): (r: seq<bytes>)
    ensures |r| == |ks| && forall i :: 0 <= i < |ks| ==> r[i] == EncodeU32(ks[i])
  {
    seq(|ks|, i requires 0 <= i < |ks| => EncodeU32(ks[i]))
  }

  /** Key `i` of a run of encoded keys reads back at offset `|pre| + 4i`. */
  lemma U32BlockRead(pre: bytes, ks: seq<u32>, post: bytes, i: nat)
    requires i < |ks|
    ensures |pre| + 4 * i + 4 <= |pre + Flatten(EncodeU32s(ks)) + post|
    ensures U32At(pre + Flatten(EncodeU32s(ks)) + post, |pre| + 4 * i) == ks[i]
  {
    var blocks := EncodeU32s(ks);
    FlattenUniform(blocks, 4, i);
    FlattenBlock(blocks, i);
    SliceMiddle(pre, Flatten(blocks), post, 4 * i, 4 * i + 4);
    U32Read(pre + Flatten(blocks) + post, |pre| + 4 * i, ks[i]);
  }

  function EncodeVectorIndex(v: VectorIndex): (r: bytes)
    requires |v.localKeys| == v.entryCount
  {
    EncodeU32(v.entryCount) + EncodeU32(v.firstFreeKey) + EncodeU32(v.lastFreeKey)
      + Flatten(EncodeU32s(v.localKeys))
  }

  /** Decoding an encoded vector index gives it back, whatever follows it. */
  lemma VectorIndexRoundTrip(v: VectorIndex, rest: bytes)
    requires |v.localKeys| == v.entryCount
    ensures DecodeVectorIndex(EncodeVectorIndex(v) + rest) == Ok(v)
  {
    var n := v.entryCount;
    var pre := EncodeU32(v.entryCount) + EncodeU32(v.firstFreeKey) + EncodeU32(v.lastFreeKey);
    var blocks := EncodeU32s(v.localKeys);
    var s := EncodeVectorIndex(v) + rest;
    assert s == pre + Flatten(blocks) + rest;
    FlattenUniform(blocks, 4, n);
    assert blocks[..n] == blocks;
    assert s[0..4] == EncodeU32(v.entryCount);
    assert s[4..8] == EncodeU32(v.firstFreeKey);
    assert s[8..12] == EncodeU32(v.lastFreeKey);
    U32Read(s, 0, v.entryCount);
    U32Read(s, 4, v.firstFreeKey);
    U32Read(s, 8, v.lastFreeKey);
    forall i | 0 <= i < n
      ensures U32At(s, 12 + 4 * i) == v.localKeys[i]
    {
      U32BlockRead(pre, v.localKeys, rest, i);
    }
    assert DecodeVectorIndex(s).value.localKeys == v.localKeys;
  }

  // ---------------------------------------------------------------------
  // Strong-set index: entry_count:4, first_free:4, last_free:4, key_pid:2,
  // key_size:1, then entry_count entries of local_key:4, reference_count:4
  // and key_size identification bytes.

  datatype SetEntry = SetEntry(localKey: u32, referenceCount: u32, identification: bytes)

  datatype SetIndex = SetIndex(
    entryCount: u32, firstFreeKey: u32, lastFreeKey: u32,
    keyPid: u16, keySize: u8, entries: seq<SetEntry>)

  /** Entry `i` of a set index whose identifications are `ks` bytes long. */
  function SetEntryAt(s: bytes, ks: nat, i: nat): (e: SetEntry)
    requires 15 + i * (8 + ks) + (8 + ks) <= |s|
    ensures |e.identification| == ks
  {
    var p := 15 + i * (8 + ks);
    SetEntry(U32At(s, p), U32At(s, p + 4), s[p + 8..p + 8 + ks])
  }

  /** Entries 0..j-1 of a set index. */
  function SetEntries(s: bytes, ks: nat, j: nat): (r: seq<SetEntry>)
    requires 15 + j * (8 + ks) <= |s|
    ensures |r| == j
  {
    OffsetsFit(j, 8 + ks);
    seq(j, i requires 0 <= i < j => SetEntryAt(s, ks, i))
  }

  lemma SetEntriesStep(s: bytes, ks: nat, j: nat)
    requires 15 + j * (8 + ks) + (8 + ks) <= |s|
    ensures 15 + (j + 1) * (8 + ks) <= |s|
    ensures SetEntries(s, ks, j + 1) == SetEntries(s, ks, j) + [SetEntryAt(s, ks, j)]
  {
    assert (j + 1) * (8 + ks) == j * (8 + ks) + (8 + ks);
    assert SetEntries(s, ks, j + 1)[..j] == SetEntries(s, ks, j);
  }

  function DecodeSetIndex(s: bytes): (r: Result<SetIndex>)
    ensures r.Ok? <==> |s| >= 15 && |s| >= 15 + U32At(s, 0) * (8 + s[14] as nat)
    ensures r.Ok? ==> |r.value.entries| == r.value.entryCount == U32At(s, 0)
    ensures r.Ok? ==> forall i :: 0 <= i < |r.value.entries| ==>
      |r.value.entries[i].identification| == r.value.keySize
    ensures r.Err? ==> r.error == ShortRead
  {
    if |s| < 15 then Err(ShortRead)
    else
      var n := U32At(s, 0);
      var ks := s[14] as nat;
      if |s| < 15 + n * (8 + ks) then Err(ShortRead)
      else Ok(SetIndex(n, U32At(s, 4), U32At(s, 8), U16At(s, 12), ks, SetEntries(s, ks, n)))
  }

  lemma OffsetsFit(n: nat, w: nat)
    ensures forall i: nat :: i < n ==> i * w + w <= n * w
  {
    forall i: nat | i < n
      ensures i * w + w <= n * w
    {
      MulMono(i + 1, n, w);
    }
  }

  /** `StrongSetReferenceIndex::from_istream`: each entry is read in turn and
      pushed. */
  method SetIndexFromStream(s: bytes) returns (r: Result<SetIndex>)
    ensures r == DecodeSetIndex(s)
  {
    if |s| < 15 {
      return Err(ShortRead);
    }
    var entryCount: nat := U32At(s, 0);
    var firstFreeKey := U32At(s, 4);
    var lastFreeKey := U32At(s, 8);
    var keyPid := U16At(s, 12);
    var keySize: nat := s[14] as nat;
    ghost var w := 8 + keySize;
    var entries: seq<SetEntry> := [];
    var pos := 15;
    for j := 0 to entryCount
      invariant pos == 15 + j * w && pos <= |s|
      invariant entries == SetEntries(s, keySize, j)
    {
      if |s| < pos + 8 + keySize {
        MulMono(j + 1, entryCount, w);
        assert (j + 1) * w == j * w + w;
        return Err(ShortRead);
      }
      var localKey := U32At(s, pos);
      var referenceCount := U32At(s, pos + 4);
      var identification := s[pos + 8..pos + 8 + keySize];
      SetEntriesStep(s, keySize, j);
      entries := entries + [SetEntry(localKey, referenceCount, identification)];
      pos := pos + 8 + keySize;
    }
    r := Ok(SetIndex(entryCount, firstFreeKey, lastFreeKey, keyPid, keySize, entries));
  }

  function EncodeSetEntry(e: SetEntry): (r: bytes)
    ensures |r| == 8 + |e.identification|
  {
    EncodeU32(e.localKey) + EncodeU32(e.referenceCount) + e.identification
  }

  function EncodeSetEntries(es: seq<SetEntry>): (r: seq<bytes>)
    ensures |r| == |es| && forall i :: 0 <= i < |es| ==> r[i] == EncodeSetEntry(es[i])
  {
    seq(|es|, i requires 0 <= i < |es| => EncodeSetEntry(es[i]))
  }

  ghost predicate SetIndexEncodable(x: SetIndex)
  {
    |x.entries| == x.entryCount
    && forall i :: 0 <= i < |x.entries| ==> |x.entries[i].identification| == x.keySize
  }

  function EncodeSetIndex(x: SetIndex): (r: bytes)
    requires SetIndexEncodable(x)
  {
    EncodeU32(x.entryCount) + EncodeU32(x.firstFreeKey) + EncodeU32(x.lastFreeKey)
      + EncodeU16(x.keyPid) + [x.keySize as byte]
      + Flatten(EncodeSetEntries(x.entries))
  }

  /** Entry `i` of an encoded set index sits at offset 15 + i(8 + key_size). */
  lemma SetEntrySlice(x: SetIndex, rest: bytes, i: nat)
    requires SetIndexEncodable(x) && i < |x.entries|
    ensures 15 + i * (8 + x.keySize) + (8 + x.keySize) <= |EncodeSetIndex(x) + rest|
    ensures var p := 15 + i * (8 + x.keySize);
      (EncodeSetIndex(x) + rest)[p..p + 8 + x.keySize] == EncodeSetEntry(x.entries[i])
  {
    var w := 8 + x.keySize;
    var pre := EncodeU32(x.entryCount) + EncodeU32(x.firstFreeKey) + EncodeU32(x.lastFreeKey)
      + EncodeU16(x.keyPid) + [x.keySize as byte];
    var blocks := EncodeSetEntries(x.entries);
    assert EncodeSetIndex(x) + rest == pre + Flatten(blocks) + rest;
    FlattenUniform(blocks, w, i);
    FlattenBlock(blocks, i);
    SliceMiddle(pre, Flatten(blocks), rest, w * i, w * i + w);
  }

  /** The fields of an encoded entry read back from wherever it sits. */
  lemma SetEntryFields(s: bytes, p: nat, e: SetEntry)
    requires p + 8 + |e.identification| <= |s| && s[p..p + 8 + |e.identification|] == EncodeSetEntry(e)
    ensures SetEntry(U32At(s, p), U32At(s, p + 4), s[p + 8..p + 8 + |e.identification|]) == e
  {
    var blk := s[p..p + 8 + |e.identification|];
    assert s[p..p + 4] == blk[..4] == EncodeU32(e.localKey);
    var head := EncodeU32(e.localKey) + EncodeU32(e.referenceCount);
    assert blk == head + e.identification;
    assert blk[4..8] == head[4..8] == EncodeU32(e.referenceCount);
    assert forall k :: 0 <= k < 4 ==> s[p + 4..p + 8][k] == blk[4..8][k];
    assert s[p + 4..p + 8] == blk[4..8];
    assert s[p + 8..p + 8 + |e.identification|] == blk[8..] == e.identification;
    U32Read(s, p, e.localKey);
    U32Read(s, p + 4, e.referenceCount);
  }

  /** An entry written at its slot reads back through `SetEntryAt`. */
  lemma SetEntryAtRead(s: bytes, ks: nat, i: nat, e: SetEntry)
    requires |e.identification| == ks
    requires 15 + i * (8 + ks) + (8 + ks) <= |s|
    requires s[15 + i * (8 + ks)..15 + i * (8 + ks) + 8 + ks] == EncodeSetEntry(e)
    ensures SetEntryAt(s, ks, i) == e
  {
    var p := 15 + i * (8 + ks);
    SetEntryFields(s, p, e);
    assert SetEntryAt(s, ks, i) == SetEntry(U32At(s, p), U32At(s, p + 4), s[p + 8..p + 8 + ks]);
  }

  /** Entry `i` of an encoded set index reads back as it was written. */
  lemma SetEntryRead(x: SetIndex, rest: bytes, i: nat)
    requires SetIndexEncodable(x) && i < |x.entries|
    ensures 15 + i * (8 + x.keySize) + (8 + x.keySize) <= |EncodeSetIndex(x) + rest|
    ensures SetEntryAt(EncodeSetIndex(x) + rest, x.keySize, i) == x.entries[i]
  {
    SetEntrySlice(x, rest, i);
    SetEntryAtRead(EncodeSetIndex(x) + rest, x.keySize, i, x.entries[i]);
  }

  /** The 15-byte header of an encoded set index reads back field by field. */
  lemma SetHeaderRead(x: SetIndex, rest: bytes)
    requires SetIndexEncodable(x)
    ensures |EncodeSetIndex(x) + rest| >= 15
    ensures U32At(EncodeSetIndex(x) + rest, 0) == x.entryCount
    ensures U32At(EncodeSetIndex(x) + rest, 4) == x.firstFreeKey
    ensures U32At(EncodeSetIndex(x) + rest, 8) == x.lastFreeKey
    ensures U16At(EncodeSetIndex(x) + rest, 12) == x.keyPid
    ensures (EncodeSetIndex(x) + rest)[14] as nat == x.keySize
  {
    var pre := EncodeU32(x.entryCount) + EncodeU32(x.firstFreeKey) + EncodeU32(x.lastFreeKey)
      + EncodeU16(x.keyPid) + [x.keySize as byte];
    var s := EncodeSetIndex(x) + rest;
    assert s == pre + (Flatten(EncodeSetEntries(x.entries)) + rest);
    assert s[0..4] == pre[0..4] == EncodeU32(x.entryCount);
    assert s[4..8] == pre[4..8] == EncodeU32(x.firstFreeKey);
    assert s[8..12] == pre[8..12] == EncodeU32(x.lastFreeKey);
    assert s[12..14] == pre[12..14] == EncodeU16(x.keyPid);
    U32Read(s, 0, x.entryCount);
    U32Read(s, 4, x.firstFreeKey);
    U32Read(s, 8, x.lastFreeKey);
    U16Read(s, 12, x.keyPid);
  }

  /** An encoded set index is as long as its header and entries. */
  lemma SetIndexLength(x: SetIndex, rest: bytes)
    requires SetIndexEncodable(x)
    ensures 15 + x.entryCount * (8 + x.keySize) <= |EncodeSetIndex(x) + rest|
  {
    var blocks := EncodeSetEntries(x.entries);
    FlattenUniform(blocks, 8 + x.keySize, |blocks|);
    assert blocks[..|blocks|] == blocks;
  }

  /** Decoding an encoded set index gives it back, whatever follows it. */
  lemma SetIndexRoundTrip(x: SetIndex, rest: bytes)
    requires SetIndexEncodable(x)
    ensures DecodeSetIndex(EncodeSetIndex(x) + rest) == Ok(x)
  {
    var s := EncodeSetIndex(x) + rest;
    SetHeaderRead(x, rest);
    SetIndexLength(x, rest);
    var es := SetEntries(s, x.keySize, x.entryCount);
    forall i | 0 <= i < x.entryCount
      ensures es[i] == x.entries[i]
    {
      SetEntryRead(x, rest, i);
    }
    assert es == x.entries;
  }

  // ---------------------------------------------------------------------
  // Member paths of strong collections.

  /** `StrongVectorReferenceIndex::member_paths`: one path per local key, in
      index order. */
  function VectorMemberPaths(idx: VectorIndex, name: string, parent: Path): (r: seq<Path>)
    ensures |r| == |idx.localKeys|
  {
    seq(|idx.localKeys|, i requires 0 <= i < |idx.localKeys| => parent + [MemberName(name, idx.localKeys[i])])
  }

  /** `StrongSetReferenceIndex::member_paths`: one path per entry, in index order. */
  function SetMemberPaths(idx: SetIndex, name: string, parent: Path): (r: seq<Path>)
    ensures |r| == |idx.entries|
  {
    seq(|idx.entries|, i requires 0 <= i < |idx.entries| => parent + [MemberName(name, idx.entries[i].localKey)])
  }

  /** The vector and the set forms name their members the same way. */
  lemma MemberPathsAgree(v: VectorIndex, x: SetIndex, name: string, parent: Path)
    requires |v.localKeys| == |x.entries|
    requires forall i :: 0 <= i < |v.localKeys| ==> v.localKeys[i] == x.entries[i].localKey
    ensures VectorMemberPaths(v, name, parent) == SetMemberPaths(x, name, parent)
  {
  }

  /** Every member path is one component below the parent, and that
      component gives back the member's local key. */
  lemma VectorMemberPathsKeys(idx: VectorIndex, name: string, parent: Path, i: nat)
    requires i < |idx.localKeys|
    ensures var p := VectorMemberPaths(idx, name, parent)[i];
      |p| == |parent| + 1 && p[..|parent|] == parent
      && MemberKey(name, p[|parent|]) == Some(idx.localKeys[i] as nat)
  {
    MemberNameRoundTrip(name, idx.localKeys[i]);
    var p := VectorMemberPaths(idx, name, parent)[i];
    assert p[..|parent|] == parent;
  }

  lemma SetMemberPathsKeys(idx: SetIndex, name: string, parent: Path, i: nat)
    requires i < |idx.entries|
    ensures var p := SetMemberPaths(idx, name, parent)[i];
      |p| == |parent| + 1 && p[..|parent|] == parent
      && MemberKey(name, p[|parent|]) == Some(idx.entries[i].localKey as nat)
  {
    MemberNameRoundTrip(name, idx.entries[i].localKey);
    var p := SetMemberPaths(idx, name, parent)[i];
    assert p[..|parent|] == parent;
  }

  /** Members with different local keys live at different paths. */
  lemma VectorMemberPathsDistinct(idx: VectorIndex, name: string, parent: Path, i: nat, j: nat)
    requires i < |idx.localKeys| && j < |idx.localKeys|
    ensures VectorMemberPaths(idx, name, parent)[i] == VectorMemberPaths(idx, name, parent)[j]
        <==> idx.localKeys[i] == idx.localKeys[j]
  {
    VectorMemberPathsKeys(idx, name, parent, i);
    VectorMemberPathsKeys(idx, name, parent, j);
  }

  // ---------------------------------------------------------------------
  // Inline weak reference: tag:2, key_pid:2, key_size:1, then key_size
  // identification bytes.

  datatype WeakRef = WeakRef(tag: u16, keyPid: u16, keySize: u8, identification: bytes)

  /** `WeakObjectReference::from_data`. */
  function DecodeWeakRef(data: bytes): (r: Result<WeakRef>)
    ensures r.Ok? <==> |data| >= 5 && |data| >= 5 + data[4] as nat
    ensures r.Ok? ==> |r.value.identification| == r.value.keySize
    ensures r.Err? ==> r.error == ShortRead
  {
    if |data| < 5 then Err(ShortRead)
    else
      var keySize := data[4] as nat;
      if |data| < 5 + keySize then Err(ShortRead)
      else Ok(WeakRef(U16At(data, 0), U16At(data, 2), keySize, data[5..5 + keySize]))
  }

  function EncodeWeakRef(w: WeakRef): bytes
    requires |w.identification| == w.keySize
  {
    EncodeU16(w.tag) + EncodeU16(w.keyPid) + [w.keySize as byte] + w.identification
  }

  /** Decoding an encoded weak reference gives it back; trailing bytes are ignored. */
  lemma WeakRefRoundTrip(w: WeakRef, rest: bytes)
    requires |w.identification| == w.keySize
    ensures DecodeWeakRef(EncodeWeakRef(w) + rest) == Ok(w)
  {
    var s := EncodeWeakRef(w) + rest;
    assert s[0..2] == EncodeU16(w.tag);
    assert s[2..4] == EncodeU16(w.keyPid);
    assert s[5..5 + w.keySize] == w.identification;
    U16Read(s, 0, w.tag);
    U16Read(s, 2, w.keyPid);
  }

  // ---------------------------------------------------------------------
  // Weak collection index: entry_count:4, tag:2, key_pid:2, key_size:1,
  // then entry_count identifications of key_size bytes each.

  datatype WeakCollection = WeakCollection(
    entryCount: u32, tag: u16, keyPid: u16, keySize: u8, identificationList: seq<bytes>)

  function IdentAt(s: bytes, ks: nat, i: nat): (r: bytes)
    requires 9 + i * ks + ks <= |s|
    ensures |r| == ks
  {
    s[9 + i * ks..9 + i * ks + ks]
  }

  function Idents(s: bytes, ks: nat, j: nat): (r: seq<bytes>)
    requires 9 + j * ks <= |s|
    ensures |r| == j
  {
    OffsetsFit(j, ks);
    seq(j, i requires 0 <= i < j => IdentAt(s, ks, i))
  }

  /** A stream too short for block `j` of `n` is too short for all `n`. */
  lemma ShortBlock(s: bytes, base: nat, j: nat, n: nat, w: nat)
    requires j < n && |s| < base + j * w + w
    ensures |s| < base + n * w
  {
    MulMono(j + 1, n, w);
    assert (j + 1) * w == j * w + w;
  }

  lemma IdentsStep(s: bytes, ks: nat, j: nat)
    requires 9 + j * ks + ks <= |s|
    ensures 9 + (j + 1) * ks <= |s|
    ensures Idents(s, ks, j + 1) == Idents(s, ks, j) + [IdentAt(s, ks, j)]
  {
    assert (j + 1) * ks == j * ks + ks;
    assert Idents(s, ks, j + 1)[..j] == Idents(s, ks, j);
  }

  function DecodeWeakCollection(s: bytes): (r: Result<WeakCollection>)
    ensures r.Ok? <==> |s| >= 9 && |s| >= 9 + U32At(s, 0) * s[8] as nat
    ensures r.Ok? ==> |r.value.identificationList| == r.value.entryCount == U32At(s, 0)
    ensures r.Ok? ==> forall i :: 0 <= i < |r.value.identificationList| ==>
      |r.value.identificationList[i]| == r.value.keySize
    ensures r.Err? ==> r.error == ShortRead
  {
    if |s| < 9 then Err(ShortRead)
    else
      var n := U32At(s, 0);
      var ks := s[8] as nat;
      if |s| < 9 + n * ks then Err(ShortRead)
      else Ok(WeakCollection(n, U16At(s, 4), U16At(s, 6), ks, Idents(s, ks, n)))
  }

  /** `WeakCollectionReference::from_istream`: each identification is read in
      turn and pushed. */
  method WeakCollectionFromStream(s: bytes) returns (r: Result<WeakCollection>)
    ensures r == DecodeWeakCollection(s)
  {
    if |s| < 9 {
      return Err(ShortRead);
    }
    var entryCount: nat := U32At(s, 0);
    var tag := U16At(s, 4);
    var keyPid := U16At(s, 6);
    var keySize: nat := s[8] as nat;
    var identificationList: seq<bytes> := [];
    var pos := 9;
    for j := 0 to entryCount
      invariant pos == 9 + j * keySize && pos <= |s|
      invariant identificationList == Idents(s, keySize, j)
    {
      if |s| < pos + keySize {
        ShortBlock(s, 9, j, entryCount, keySize);
        return Err(ShortRead);
      }
      IdentsStep(s, keySize, j);
      identificationList := identificationList + [s[pos..pos + keySize]];
      pos := pos + keySize;
    }
    r := Ok(WeakCollection(entryCount, tag, keyPid, keySize, identificationList));
  }

  ghost predicate WeakCollectionEncodable(c: WeakCollection)
  {
    |c.identificationList| == c.entryCount
    && forall i :: 0 <= i < |c.identificationList| ==> |c.identificationList[i]| == c.keySize
  }

  function EncodeWeakCollection(c: WeakCollection): bytes
    requires WeakCollectionEncodable(c)
  {
    WeakCollectionPrefix(c) + Flatten(c.identificationList)
  }

  function WeakCollectionPrefix(c: WeakCollection): (r: bytes)
    ensures |r| == 9
  {
    EncodeU32(c.entryCount) + EncodeU16(c.tag) + EncodeU16(c.keyPid) + [c.keySize as byte]
  }

  /** The 9-byte header of an encoded weak collection reads back field by field. */
  lemma WeakCollectionHeader(c: WeakCollection, rest: bytes)
    requires WeakCollectionEncodable(c)
    ensures var s := EncodeWeakCollection(c) + rest;
      && |s| >= 9 + c.entryCount * c.keySize
      && U32At(s, 0) == c.entryCount && U16At(s, 4) == c.tag && U16At(s, 6) == c.keyPid
      && s[8] as nat == c.keySize
  {
    var n := c.entryCount;
    var ids := c.identificationList;
    var pre := WeakCollectionPrefix(c);
    var s := EncodeWeakCollection(c) + rest;
    assert s == pre + (Flatten(ids) + rest);
    FlattenUniform(ids, c.keySize, n);
    assert ids[..n] == ids;
    assert s[0..4] == pre[0..4] == EncodeU32(c.entryCount);
    assert s[4..6] == pre[4..6] == EncodeU16(c.tag);
    assert s[6..8] == pre[6..8] == EncodeU16(c.keyPid);
    U32Read(s, 0, c.entryCount);
    U16Read(s, 4, c.tag);
    U16Read(s, 6, c.keyPid);
  }

  /** Identification `i` of an encoded weak collection is cut back out where it was placed. */
  lemma IdentRead(c: WeakCollection, rest: bytes, i: nat)
    requires WeakCollectionEncodable(c) && i < c.entryCount
    ensures 9 + i * c.keySize + c.keySize <= |EncodeWeakCollection(c) + rest|
    ensures IdentAt(EncodeWeakCollection(c) + rest, c.keySize, i) == c.identificationList[i]
  {
    var ks := c.keySize;
    var ids := c.identificationList;
    var pre := WeakCollectionPrefix(c);
    assert EncodeWeakCollection(c) + rest == pre + Flatten(ids) + rest;
    FlattenUniform(ids, ks, i);
    FlattenBlock(ids, i);
    SliceMiddle(pre, Flatten(ids), rest, ks * i, ks * i + ks);
  }

  /** Decoding an encoded weak collection gives it back, whatever follows it. */
  lemma WeakCollectionRoundTrip(c: WeakCollection, rest: bytes)
    requires WeakCollectionEncodable(c)
    ensures DecodeWeakCollection(EncodeWeakCollection(c) + rest) == Ok(c)
  {
    var n := c.entryCount;
    var s := EncodeWeakCollection(c) + rest;
    WeakCollectionHeader(c, rest);
    forall i | 0 <= i < n
      ensures 9 + i * c.keySize + c.keySize <= |s| && IdentAt(s, c.keySize, i) == c.identificationList[i]
    {
      IdentRead(c, rest, i);
    }
    assert Idents(s, c.keySize, n) == c.identificationList;
  }

  /** The references a weak collection stands for: one per identification,
      all with the collection's tag, key pid and key size. */
  function WeakReferencesOf(c: WeakCollection): (r: seq<WeakRef>)
    ensures |r| == |c.identificationList|
  {
    seq(|c.identificationList|, i requires 0 <= i < |c.identificationList|
      => WeakRef(c.tag, c.keyPid, c.keySize, c.identificationList[i]))
  }

  /** `WeakCollectionReference::into_weak_references`: one reference pushed per
      identification, in order. */
  method IntoWeakReferences(c: WeakCollection) returns (r: seq<WeakRef>)
    ensures |r| == |c.identificationList|
    ensures forall i :: 0 <= i < |r| ==>
      r[i].tag == c.tag && r[i].keyPid == c.keyPid && r[i].keySize == c.keySize
      && r[i].identification == c.identificationList[i]
    ensures r == WeakReferencesOf(c)
  {
    r := [];
    for i := 0 to |c.identificationList|
      invariant r == WeakReferencesOf(c)[..i]
    {
      r := r + [WeakRef(c.tag, c.keyPid, c.keySize, c.identificationList[i])];
    }
  }

  /** The identifications of the references are the collection's list, so no
      identification is lost, duplicated or reordered. */
  lemma WeakReferencesIdentifications(c: WeakCollection)
    ensures seq(|WeakReferencesOf(c)|, i requires 0 <= i < |WeakReferencesOf(c)|
      => WeakReferencesOf(c)[i].identification) == c.identificationList
  {
  }
}
