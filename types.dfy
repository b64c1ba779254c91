/** Scalar decoders from raw property bytes (the `AAFFrom` impls). Each one
    needs a fixed-width little-endian prefix, fails when the slice is shorter
    and ignores whatever follows the prefix. */
module Types {
  import opened Bytes
  import opened Errors

  type i16 = x: int | -0x8000 <= x < 0x8000

  datatype TimeStamp = TimeStamp(date: (i16, u8, u8), time: (u8, u8, u8, u8))

  datatype VersionType = VersionType(major: u8, minor: u8)

  function DecodeUInt16(item: bytes): (r: Result<u16>)
    ensures r.Ok? <==> |item| >= 2
  {
    if |item| < 2 then Err(ShortRead) else Ok(U16At(item, 0))
  }

  function DecodeUInt32(item: bytes): (r: Result<u32>)
    ensures r.Ok? <==> |item| >= 4
  {
    if |item| < 4 then Err(ShortRead) else Ok(U32At(item, 0))
  }

  function DecodeUInt64(item: bytes): (r: Result<u64>)
    ensures r.Ok? <==> |item| >= 8
  {
    if |item| < 8 then Err(ShortRead) else Ok(U64At(item, 0))
  }

  /** Two's complement reading of the first two bytes. */
  function DecodeInt16(item: bytes): (r: Result<i16>)
    ensures r.Ok? <==> |item| >= 2
    ensures r.Ok? ==> (r.value < 0 <==> item[1] >= 0x80)
  {
    if |item| < 2 then Err(ShortRead)
    else
      var u := U16At(item, 0);
      Ok(if u < 0x8000 then u else u - 0x1_0000)
  }

  function DecodeTimeStamp(item: bytes): (r: Result<TimeStamp>)
    ensures r.Ok? <==> |item| >= 8
  {
    if |item| < 8 then Err(ShortRead)
    else
      var year := DecodeInt16(item[0..2]).value;
      Ok(TimeStamp((year, item[2] as u8, item[3] as u8),
                   (item[4] as u8, item[5] as u8, item[6] as u8, item[7] as u8)))
  }

  function DecodeVersionType(item: bytes): (r: Result<VersionType>)
    ensures r.Ok? <==> |item| >= 2
  {
    if |item| < 2 then Err(ShortRead) else Ok(VersionType(item[0] as u8, item[1] as u8))
  }

  // Encoders: the inverse layouts, used to state the round trips.

  function EncodeI16(v: i16): (r: bytes)
    ensures |r| == 2
  {
    EncodeU16(if v < 0 then v + 0x1_0000 else v)
  }

  function EncodeTimeStamp(t: TimeStamp): (r: bytes)
    ensures |r| == 8
  {
    EncodeI16(t.date.0)
      + [t.date.1 as byte, t.date.2 as byte]
      + [t.time.0 as byte, t.time.1 as byte, t.time.2 as byte, t.time.3 as byte]
  }

  function EncodeVersionType(v: VersionType): (r: bytes)
    ensures |r| == 2
  {
    [v.major as byte, v.minor as byte]
  }

  lemma UInt16RoundTrip(v: u16, rest: bytes)
    ensures DecodeUInt16(EncodeU16(v) + rest) == Ok(v)
  {
    U16Read(EncodeU16(v) + rest, 0, v);
  }

  lemma UInt32RoundTrip(v: u32, rest: bytes)
    ensures DecodeUInt32(EncodeU32(v) + rest) == Ok(v)
  {
    U32Read(EncodeU32(v) + rest, 0, v);
  }

  lemma UInt64RoundTrip(v: u64, rest: bytes)
    ensures DecodeUInt64(EncodeU64(v) + rest) == Ok(v)
  {
    U64Read(EncodeU64(v) + rest, 0, v);
  }

  lemma Int16RoundTrip(v: i16, rest: bytes)
    ensures DecodeInt16(EncodeI16(v) + rest) == Ok(v)
  {
    U16Read(EncodeI16(v) + rest, 0, if v < 0 then v + 0x1_0000 else v);
  }

  lemma TimeStampRoundTrip(t: TimeStamp, rest: bytes)
    ensures DecodeTimeStamp(EncodeTimeStamp(t) + rest) == Ok(t)
  {
    var s := EncodeTimeStamp(t) + rest;
    assert s[0..2] == EncodeI16(t.date.0) + [];
    Int16RoundTrip(t.date.0, []);
  }

  lemma VersionTypeRoundTrip(v: VersionType, rest: bytes)
    ensures DecodeVersionType(EncodeVersionType(v) + rest) == Ok(v)
  {
  }

  /** The decoded VersionType fields: major is byte 0 and minor is byte 1. */
  lemma VersionTypeFields(item: bytes)
    requires |item| >= 2
    ensures DecodeVersionType(item).Ok?
    ensures DecodeVersionType(item).value.major == item[0] as u8
    ensures DecodeVersionType(item).value.minor == item[1] as u8
  {
  }

  /** Only the fixed-width prefix is read: bytes after it never change a result. */
  lemma DecodersReadOnlyPrefix(item: bytes, extra: bytes)
    ensures |item| >= 2 ==> DecodeUInt16(item + extra) == DecodeUInt16(item)
    ensures |item| >= 2 ==> DecodeInt16(item + extra) == DecodeInt16(item)
    ensures |item| >= 4 ==> DecodeUInt32(item + extra) == DecodeUInt32(item)
    ensures |item| >= 8 ==> DecodeUInt64(item + extra) == DecodeUInt64(item)
    ensures |item| >= 8 ==> DecodeTimeStamp(item + extra) == DecodeTimeStamp(item)
    ensures |item| >= 2 ==> DecodeVersionType(item + extra) == DecodeVersionType(item)
  {
    var s := item + extra;
    if |item| >= 2 {
      U16Local(s, item, 0, 0);
      assert s[0..2] == item[0..2];
    }
    if |item| >= 4 {
      U32Local(s, item, 0, 0);
    }
    if |item| >= 8 {
      U64Local(s, item, 0, 0);
    }
  }

  /** The decoded TimeStamp fields, byte by byte. */
  lemma TimeStampFields(item: bytes)
    requires |item| >= 8
    ensures DecodeTimeStamp(item).Ok?
    ensures DecodeTimeStamp(item).value.date
         == (DecodeInt16(item).value, item[2] as u8, item[3] as u8)
    ensures DecodeTimeStamp(item).value.time
         == (item[4] as u8, item[5] as u8, item[6] as u8, item[7] as u8)
  {
    U16Local(item[0..2], item, 0, 0);
  }

  /** Example header bytes: byte order "II", version 1.1, and last-modified
      2021-11-09 15:28:58.0. */
  lemma ExampleHeaderScalars()
    ensures DecodeUInt16([0x49, 0x49]) == Ok(0x4949)
    ensures DecodeVersionType([1, 1]) == Ok(VersionType(1, 1))
    ensures DecodeTimeStamp([0xe5, 0x07, 11, 9, 15, 28, 58, 0])
         == Ok(TimeStamp((2021, 11, 9), (15, 28, 58, 0)))
  {
  }
}
