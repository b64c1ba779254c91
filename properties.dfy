/** The per-object property table: the stored-form tags and the decoder of
    an object's `properties` stream. The stream is
      bom:1 (0x4c)  version:1  count:2
      count x (pid:2, stored_form:2, size:2)
      count payloads of the given sizes, in header order. */
module Properties {
  import opened Bytes
  import opened Errors

  const SF_DATA: u16 := 0x0082
  const SF_DATA_STREAM: u16 := 0x0042
  const SF_STRONG_OBJECT_REF: u16 := 0x0022
  const SF_STRONG_OBJECT_REF_VECTOR: u16 := 0x0032
  const SF_STRONG_OBJECT_REF_SET: u16 := 0x003a
  const SF_WEAK_OBJECT_REF: u16 := 0x0002
  const SF_WEAK_OBJECT_REF_VECTOR: u16 := 0x0012
  const SF_WEAK_OBJECT_REF_SET: u16 := 0x001a
  const SF_WEAK_OBJECT_STORED_OBJ_ID: u16 := 0x03
  const SF_UNIQUE_OBJ_ID: u16 := 0x86
  const SF_OPAQUE_STREAM: u16 := 0x40

  /** The one byte-order marker the library accepts. */
  const BOM: byte := 0x4c

  /** The eight stored forms the resolver dispatches on. */
  datatype StoredForm =
    | Data | DataStream
    | StrongObjectRef | StrongObjectRefVector | StrongObjectRefSet
    | WeakObjectRef | WeakObjectRefVector | WeakObjectRefSet
  {
    function Code(): u16
    {
      match this
      case Data => SF_DATA
      case DataStream => SF_DATA_STREAM
      case StrongObjectRef => SF_STRONG_OBJECT_REF
      case StrongObjectRefVector => SF_STRONG_OBJECT_REF_VECTOR
      case StrongObjectRefSet => SF_STRONG_OBJECT_REF_SET
      case WeakObjectRef => SF_WEAK_OBJECT_REF
      case WeakObjectRefVector => SF_WEAK_OBJECT_REF_VECTOR
      case WeakObjectRefSet => SF_WEAK_OBJECT_REF_SET
    }
  }

  /** Reads a stored-form tag; `None` for every tag outside the eight. */
  function ParseStoredForm(sf: u16): (r: Option<StoredForm>)
    ensures r.Some? ==> r.value.Code() == sf
    ensures r.None? <==> forall k: StoredForm :: k.Code() != sf
  {
    if sf == SF_DATA then Some(Data)
    else if sf == SF_DATA_STREAM then Some(DataStream)
    else if sf == SF_STRONG_OBJECT_REF then Some(StrongObjectRef)
    else if sf == SF_STRONG_OBJECT_REF_VECTOR then Some(StrongObjectRefVector)
    else if sf == SF_STRONG_OBJECT_REF_SET then Some(StrongObjectRefSet)
    else if sf == SF_WEAK_OBJECT_REF then Some(WeakObjectRef)
    else if sf == SF_WEAK_OBJECT_REF_VECTOR then Some(WeakObjectRefVector)
    else if sf == SF_WEAK_OBJECT_REF_SET then Some(WeakObjectRefSet)
    else None
  }

  /** The eight codes are pairwise distinct, so dispatch on them is unambiguous,
      and the three remaining constants are none of them. */
  lemma StoredFormCodesDistinct(a: StoredForm, b: StoredForm)
    ensures a.Code() == b.Code() <==> a == b
    ensures ParseStoredForm(a.Code()) == Some(a)
    ensures ParseStoredForm(SF_WEAK_OBJECT_STORED_OBJ_ID) == None
    ensures ParseStoredForm(SF_UNIQUE_OBJ_ID) == None
    ensures ParseStoredForm(SF_OPAQUE_STREAM) == None
  {
  }

  /** One decoded record: its property id, stored form and raw payload. */
  datatype PropertyDescriptor = PropertyDescriptor(pid: u16, storedForm: u16, value: bytes)

  /** One 6-byte header, as pushed into `prop_headers`. */
  datatype Header = Header(pid: u16, storedForm: u16, size: u16)

  /** Header `i`, read at offset 4 + 6i. */
  function HeaderAt(s: bytes, i: nat): Header
    requires 4 + 6 * i + 6 <= |s|
  {
    var p := 4 + 6 * i;
    Header(U16At(s, p), U16At(s, p + 2), U16At(s, p + 4))
  }

  /** The `n` headers that follow the 4-byte preamble. */
  function HeadersOf(s: bytes, n: nat): (hs: seq<Header>)
    requires 4 + 6 * n <= |s|
    ensures |hs| == n
  {
    seq(n, i requires 0 <= i < n => HeaderAt(s, i))
  }

  /** Sum of the sizes in headers 0..i-1. */
  function SizesBefore(hs: seq<Header>, i: nat): nat
    requires i <= |hs|
  {
    if i == 0 then 0 else SizesBefore(hs, i - 1) + hs[i - 1].size
  }

  lemma {:induction false} SizesMonotone(hs: seq<Header>, i: nat, j: nat)
    requires i <= j <= |hs|
    ensures SizesBefore(hs, i) <= SizesBefore(hs, j)
  {
    if i < j {
      SizesMonotone(hs, i, j - 1);
    }
  }

  /** Where payload `i` starts: after the preamble, every header and every
      earlier payload. */
  function PayloadOffset(hs: seq<Header>, i: nat): nat
    requires i <= |hs|
  {
    4 + 6 * |hs| + SizesBefore(hs, i)
  }

  /** Record `i`: header `i` with the payload cut at the running offset. */
  function RecordAt(s: bytes, hs: seq<Header>, i: nat): PropertyDescriptor
    requires i < |hs| && PayloadOffset(hs, i) + hs[i].size <= |s|
  {
    var off := PayloadOffset(hs, i);
    PropertyDescriptor(hs[i].pid, hs[i].storedForm, s[off..off + hs[i].size])
  }

  /** Records 0..j-1, in header order. */
  function RecordsUpTo(s: bytes, hs: seq<Header>, j: nat): (r: seq<PropertyDescriptor>)
    requires j <= |hs| && PayloadOffset(hs, j) <= |s|
    ensures |r| == j
  {
    if j == 0 then []
    else RecordsUpTo(s, hs, j - 1) + [RecordAt(s, hs, j - 1)]
  }

  /** Record `i` of the table is the payload cut at the `i`-th running offset,
      and it fits. */
  lemma {:induction false} RecordsIndex(s: bytes, hs: seq<Header>, j: nat, i: nat)
    requires i < j <= |hs| && PayloadOffset(hs, j) <= |s|
    ensures PayloadOffset(hs, i) + hs[i].size <= |s|
    ensures RecordsUpTo(s, hs, j)[i] == RecordAt(s, hs, i)
  {
    if i < j - 1 {
      RecordsIndex(s, hs, j - 1, i);
    }
  }

  /** The declared number of records fits with all of its payloads. */
  ghost predicate TableFits(s: bytes)
  {
    |s| >= 4 && 4 + 6 * U16At(s, 2) <= |s|
    && PayloadOffset(HeadersOf(s, U16At(s, 2)), U16At(s, 2)) <= |s|
  }

  /** The property table as the layout defines it. */
  function DecodeProperties(s: bytes): (r: Result<seq<PropertyDescriptor>>)
  {
    if |s| < 1 then Err(ShortRead)
    else if s[0] != BOM then Err(BadByteOrder(s[0] as nat))
    else if |s| < 4 then Err(ShortRead)
    else
      var n := U16At(s, 2);
      if |s| < 4 + 6 * n then Err(ShortRead)
      else
        var hs := HeadersOf(s, n);
        if |s| < PayloadOffset(hs, n) then Err(ShortRead)
        else Ok(RecordsUpTo(s, hs, n))
  }

  lemma DecodeShort(s: bytes)
    requires |s| >= 4 && s[0] == BOM
    requires |s| < 4 + 6 * U16At(s, 2) || |s| < PayloadOffset(HeadersOf(s, U16At(s, 2)), U16At(s, 2))
    ensures DecodeProperties(s) == Err(ShortRead)
  {
  }

  lemma DecodeOk(s: bytes, hs: seq<Header>, records: seq<PropertyDescriptor>)
    requires |s| >= 4 && s[0] == BOM && 4 + 6 * U16At(s, 2) <= |s|
    requires hs == HeadersOf(s, U16At(s, 2)) && PayloadOffset(hs, |hs|) <= |s|
    requires records == RecordsUpTo(s, hs, |hs|)
    ensures DecodeProperties(s) == Ok(records)
  {
  }

  /** A table that fits decodes to any sequence that agrees with it record by record. */
  lemma DecodeAccepts(s: bytes, records: seq<PropertyDescriptor>)
    requires |s| >= 4 && s[0] == BOM && 4 + 6 * U16At(s, 2) <= |s|
    requires PayloadOffset(HeadersOf(s, U16At(s, 2)), U16At(s, 2)) <= |s|
    requires |records| == U16At(s, 2)
    requires forall k {:trigger records[k]} :: 0 <= k < |records| ==>
      var hs := HeadersOf(s, |records|);
      PayloadOffset(hs, k) + hs[k].size <= |s| && records[k] == RecordAt(s, hs, k)
    ensures DecodeProperties(s) == Ok(records)
  {
    var n := |records|;
    var hs := HeadersOf(s, n);
    var d := RecordsUpTo(s, hs, n);
    forall k | 0 <= k < n
      ensures d[k] == records[k]
    {
      RecordsIndex(s, hs, n, k);
    }
    assert d == records;
    DecodeOk(s, hs, records);
  }

  /** `PropertyDescriptor::from_properties_stream`: a first loop collects the
      headers, a second one reads each payload in header order. */
  method FromPropertiesStream(s: bytes) returns (r: Result<seq<PropertyDescriptor>>)
    ensures r == DecodeProperties(s)
  {
    if |s| < 1 {
      return Err(ShortRead);
    }
    var bom := s[0];
    if bom != BOM {
      return Err(BadByteOrder(bom as nat));
    }
    if |s| < 2 {
      return Err(ShortRead);
    }
    var version := U8At(s, 1);  // read, never used
    if |s| < 4 {
      return Err(ShortRead);
    }
    var count: nat := U16At(s, 2);
    var pos := 4;

    var headers: seq<Header> := [];
    for i := 0 to count
      invariant pos == 4 + 6 * i && pos <= |s|
      invariant |headers| == i
      invariant forall k {:trigger headers[k]} :: 0 <= k < i ==> headers[k] == HeaderAt(s, k)
    {
      if |s| < pos + 6 {
        DecodeShort(s);
        return Err(ShortRead);
      }
      var pid := U16At(s, pos);
      var storedForm := U16At(s, pos + 2);
      var size := U16At(s, pos + 4);
      headers := headers + [Header(pid, storedForm, size)];
      pos := pos + 6;
    }
    assert headers == HeadersOf(s, count);

    var records := ReadPayloads(s, headers);
    if records.None? {
      DecodeShort(s);
      return Err(ShortRead);
    }
    DecodeOk(s, headers, records.value);
    r := Ok(records.value);
  }

  /** The payload loop of `from_properties_stream`: payload `j` is read at the
      running offset with the size of header `j`, in header order; `None` when
      a payload runs past the end. */
  method ReadPayloads(s: bytes, hs: seq<Header>) returns (r: Option<seq<PropertyDescriptor>>)
    requires 4 + 6 * |hs| <= |s|
    ensures r.Some? <==> PayloadOffset(hs, |hs|) <= |s|
    ensures r.Some? ==> r.value == RecordsUpTo(s, hs, |hs|)
  {
    var pos := 4 + 6 * |hs|;
    var records: seq<PropertyDescriptor> := [];
    for j := 0 to |hs|
      invariant pos == PayloadOffset(hs, j) && pos <= |s|
      invariant records == RecordsUpTo(s, hs, j)
    {
      var h := hs[j];
      if |s| < pos + h.size {
        SizesMonotone(hs, j + 1, |hs|);
        return None;
      }
      records := records + [PropertyDescriptor(h.pid, h.storedForm, s[pos..pos + h.size])];
      pos := pos + h.size;
    }
    r := Some(records);
  }

  // The inverse layout, used to state the round trip.

  ghost predicate Encodable(ps: seq<PropertyDescriptor>)
  {
    |ps| < 0x1_0000 && forall i :: 0 <= i < |ps| ==> |ps[i].value| < 0x1_0000
  }

  function EncodeHeader(p: PropertyDescriptor): (r: bytes)
    requires |p.value| < 0x1_0000
    ensures |r| == 6
  {
    EncodeU16(p.pid) + EncodeU16(p.storedForm) + EncodeU16(|p.value|)
  }

  function HeaderBlocks(ps: seq<PropertyDescriptor>): (r: seq<bytes>)
    requires Encodable(ps)
    ensures |r| == |ps| && forall i :: 0 <= i < |ps| ==> |r[i]| == 6
  {
    seq(|ps|, i requires 0 <= i < |ps| => EncodeHeader(ps[i]))
  }

  function Payloads(ps: seq<PropertyDescriptor>): (r: seq<bytes>)
    ensures |r| == |ps|
  {
    seq(|ps|, i requires 0 <= i < |ps| => ps[i].value)
  }

  function EncodeProperties(ps: seq<PropertyDescriptor>, version: byte): bytes
    requires Encodable(ps)
  {
    [BOM, version] + EncodeU16(|ps|) + Flatten(HeaderBlocks(ps)) + Flatten(Payloads(ps))
  }

  /** The headers an encoding of `ps` carries. */
  function HeadersFor(ps: seq<PropertyDescriptor>): (hs: seq<Header>)
    requires Encodable(ps)
    ensures |hs| == |ps|
  {
    seq(|ps|, i requires 0 <= i < |ps| => Header(ps[i].pid, ps[i].storedForm, |ps[i].value|))
  }

  /** In an encoded table, header `i` reads back as record `i`'s header. */
  lemma EncodedHeader(ps: seq<PropertyDescriptor>, version: byte, rest: bytes, i: nat)
    requires Encodable(ps) && i < |ps|
    ensures 4 + 6 * i + 6 <= |EncodeProperties(ps, version) + rest|
    ensures HeaderAt(EncodeProperties(ps, version) + rest, i)
         == Header(ps[i].pid, ps[i].storedForm, |ps[i].value|)
  {
    var hs := HeaderBlocks(ps);
    var pre := [BOM, version] + EncodeU16(|ps|);
    var s := EncodeProperties(ps, version) + rest;
    FlattenUniform(hs, 6, i);
    FlattenBlock(hs, i);
    var post := Flatten(Payloads(ps)) + rest;
    assert s == pre + Flatten(hs) + post;
    SliceMiddle(pre, Flatten(hs), post, 6 * i, 6 * i + 6);
    var p := 4 + 6 * i;
    assert s[p..p + 6] == EncodeHeader(ps[i]);
    U16Triple(s, p, ps[i].pid, ps[i].storedForm, |ps[i].value|);
  }

  /** The running size sum over the encoded headers is the length of the
      earlier payloads. */
  lemma {:induction false} EncodedSizes(ps: seq<PropertyDescriptor>, i: nat)
    requires Encodable(ps) && i <= |ps|
    ensures SizesBefore(HeadersFor(ps), i) == |Flatten(Payloads(ps)[..i])|
  {
    var vs := Payloads(ps);
    if i == 0 {
      assert vs[..0] == [];
    } else {
      EncodedSizes(ps, i - 1);
      assert vs[..i] == vs[..i - 1] + [vs[i - 1]];
      FlattenAppend(vs[..i - 1], vs[i - 1]);
    }
  }

  /** An encoded table declares `|ps|` records and carries their headers. */
  lemma EncodedHeaders(ps: seq<PropertyDescriptor>, version: byte, rest: bytes)
    requires Encodable(ps)
    ensures 4 + 6 * |ps| <= |EncodeProperties(ps, version) + rest|
    ensures U16At(EncodeProperties(ps, version) + rest, 2) == |ps|
    ensures HeadersOf(EncodeProperties(ps, version) + rest, |ps|) == HeadersFor(ps)
  {
    var n := |ps|;
    var hb := HeaderBlocks(ps);
    var s := EncodeProperties(ps, version) + rest;
    assert s[2..4] == EncodeU16(n);
    U16Read(s, 2, n);
    FlattenUniform(hb, 6, n);
    assert hb[..n] == hb;
    var hs := HeadersFor(ps);
    forall i | 0 <= i < n
      ensures HeaderAt(s, i) == hs[i]
    {
      EncodedHeader(ps, version, rest, i);
    }
    assert HeadersOf(s, n) == hs;
  }

  /** In an encoded table, record `i` is cut back out where it was placed. */
  lemma EncodedRecord(ps: seq<PropertyDescriptor>, version: byte, rest: bytes, i: nat)
    requires Encodable(ps) && i < |ps|
    ensures PayloadOffset(HeadersFor(ps), i) + |ps[i].value| <= |EncodeProperties(ps, version) + rest|
    ensures RecordAt(EncodeProperties(ps, version) + rest, HeadersFor(ps), i) == ps[i]
  {
    var n := |ps|;
    var hb := HeaderBlocks(ps);
    var vs := Payloads(ps);
    var s := EncodeProperties(ps, version) + rest;
    var base := [BOM, version] + EncodeU16(n) + Flatten(hb);
    assert s == base + Flatten(vs) + rest;
    FlattenUniform(hb, 6, n);
    assert hb[..n] == hb;
    assert |base| == 4 + 6 * n;
    EncodedSizes(ps, i);
    FlattenBlock(vs, i);
    var o := |Flatten(vs[..i])|;
    SliceMiddle(base, Flatten(vs), rest, o, o + |vs[i]|);
  }

  /** Encoding records in the header-then-payloads layout and decoding gives
      the records back, whatever the version byte and whatever follows. */
  lemma DecodeEncodeRoundTrip(ps: seq<PropertyDescriptor>, version: byte, rest: bytes)
    requires Encodable(ps)
    ensures DecodeProperties(EncodeProperties(ps, version) + rest) == Ok(ps)
  {
    var n := |ps|;
    var s := EncodeProperties(ps, version) + rest;
    var hs := HeadersFor(ps);
    EncodedHeaders(ps, version, rest);
    EncodedFits(ps, version, rest);
    forall k | 0 <= k < n
      ensures PayloadOffset(hs, k) + hs[k].size <= |s| && ps[k] == RecordAt(s, hs, k)
    {
      EncodedRecord(ps, version, rest, k);
    }
    DecodeAccepts(s, ps);
  }

  /** An encoded table holds all the payloads its headers announce. */
  lemma EncodedFits(ps: seq<PropertyDescriptor>, version: byte, rest: bytes)
    requires Encodable(ps)
    ensures PayloadOffset(HeadersFor(ps), |ps|) <= |EncodeProperties(ps, version) + rest|
  {
    var n := |ps|;
    var hb := HeaderBlocks(ps);
    var vs := Payloads(ps);
    FlattenUniform(hb, 6, n);
    assert hb[..n] == hb;
    EncodedSizes(ps, n);
    assert vs[..n] == vs;
  }

  /** Two inputs that agree from offset 2 on carry the same headers. */
  lemma HeadersIgnoreVersion(s: bytes, t: bytes, n: nat)
    requires |s| == |t| && 4 + 6 * n <= |s| && s[2..] == t[2..]
    ensures HeadersOf(s, n) == HeadersOf(t, n)
  {
    forall i | 0 <= i < n
      ensures HeaderAt(s, i) == HeaderAt(t, i)
    {
      var p := 4 + 6 * i;
      assert s[p..p + 6] == s[2..][p - 2..p + 4] && t[p..p + 6] == t[2..][p - 2..p + 4];
      U16Local(s, t, p, p);
      U16Local(s, t, p + 2, p + 2);
      U16Local(s, t, p + 4, p + 4);
    }
  }

  lemma SameSlice(s: bytes, t: bytes, off: nat, size: nat)
    requires |s| == |t| && 2 <= off && off + size <= |s| && s[2..] == t[2..]
    ensures s[off..off + size] == t[off..off + size]
  {
    var a, b := s[off..off + size], t[off..off + size];
    forall k | 0 <= k < size
      ensures a[k] == b[k]
    {
      assert a[k] == s[2..][off + k - 2];
      assert b[k] == t[2..][off + k - 2];
    }
  }

  /** Two inputs that agree from offset 2 on cut the same records. */
  lemma {:induction false} RecordsIgnoreVersion(s: bytes, t: bytes, hs: seq<Header>, j: nat)
    requires |s| == |t| && 4 + 6 * |hs| <= |s| && s[2..] == t[2..]
    requires j <= |hs| && PayloadOffset(hs, j) <= |s|
    ensures RecordsUpTo(s, hs, j) == RecordsUpTo(t, hs, j)
  {
    if j > 0 {
      var i := j - 1;
      RecordsIgnoreVersion(s, t, hs, i);
      SameSlice(s, t, PayloadOffset(hs, i), hs[i].size);
    }
  }

  /** The version byte at offset 1 is read and ignored: changing it never
      changes the outcome of decoding. */
  lemma VersionIgnored(s: bytes, version: byte)
    requires |s| >= 2
    ensures DecodeProperties(s[1 := version]) == DecodeProperties(s)
  {
    var t := s[1 := version];
    assert s[2..] == t[2..];
    if |s| >= 4 && s[0] == BOM {
      U16Local(s, t, 2, 2);
      var n := U16At(s, 2);
      if 4 + 6 * n <= |s| {
        HeadersIgnoreVersion(s, t, n);
        var hs := HeadersOf(s, n);
        if PayloadOffset(hs, n) <= |s| {
          RecordsIgnoreVersion(s, t, hs, n);
        }
      }
    }
  }

  /** What a successful decode promises about the table as a whole: the
      marker, and room for the count at offset 2 of headers and payloads, which
      is the number of records. */
  lemma DecodedLayout(s: bytes)
    requires DecodeProperties(s).Ok?
    ensures s[0] == BOM && |s| >= 4 && TableFits(s)
    ensures |DecodeProperties(s).value| == U16At(s, 2)
  {
  }

  /** What a successful decode promises about record `i`: the pid and stored
      form of header `i`, and the payload of that header's size at the `i`-th
      running offset, which the next payload follows. */
  lemma DecodedRecord(s: bytes, i: nat)
    requires DecodeProperties(s).Ok? && i < |DecodeProperties(s).value|
    ensures 4 + 6 * U16At(s, 2) <= |s| && i < U16At(s, 2)
    ensures var hs := HeadersOf(s, U16At(s, 2));
      var off := PayloadOffset(hs, i);
      var rec := DecodeProperties(s).value[i];
      && hs[i] == HeaderAt(s, i)
      && rec.pid == hs[i].pid && rec.storedForm == hs[i].storedForm && |rec.value| == hs[i].size
      && off + hs[i].size <= |s| && rec.value == s[off..off + hs[i].size]
      && PayloadOffset(hs, i + 1) == off + hs[i].size
  {
    var n := U16At(s, 2);
    var hs := HeadersOf(s, n);
    RecordsIndex(s, hs, n, i);
  }

  /** Decoding fails exactly when the marker is wrong or the input is shorter
      than the headers and payloads it declares. */
  lemma DecodeFailsExactly(s: bytes)
    ensures DecodeProperties(s).Ok? <==> |s| >= 1 && s[0] == BOM && TableFits(s)
    ensures |s| >= 1 && s[0] != BOM ==> DecodeProperties(s) == Err(BadByteOrder(s[0] as nat))
  {
  }
}
