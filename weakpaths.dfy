/** The file's global weak-reference path table, the stream
    `/referenced properties` (`ReferencedPropertiesTable::from_stream`):
      bom:1 (0x4c)  path_count:2  pid_count:4  pid_count x pid:2
    The pids form property-id paths, each one ended by a zero pid. */
module WeakPaths {
  import opened Bytes
  import opened Errors

  const TABLE_BOM: byte := 0x4c

  datatype RefPropsTable = RefPropsTable(byteOrder: u8, pathCount: u16, pidCount: u32, pidPaths: seq<seq<u16>>)

  /** The first `m` pids, at offsets 7, 9, 11, ... */
  function PidsOf(s: bytes, m: nat): (r: seq<u16>)
    requires 7 + 2 * m <= |s|
    ensures |r| == m
  {
    seq(m, i requires 0 <= i < m => U16At(s, 7 + 2 * i))
  }

  lemma PidsStep(s: bytes, m: nat)
    requires 7 + 2 * m + 2 <= |s|
    ensures PidsOf(s, m + 1) == PidsOf(s, m) + [U16At(s, 7 + 2 * m)]
  {
  }

  /** Cuts the pids at every zero: the paths a zero ended, in order, and the
      pids after the last zero, which no zero ends. */
  function SplitPaths(pids: seq<u16>): (seq<seq<u16>>, seq<u16>)
    decreases |pids|
  {
    if pids == [] then ([], [])
    else
      var (paths, current) := SplitPaths(pids[..|pids| - 1]);
      var pid := pids[|pids| - 1];
      if pid == 0 then (paths + [current], []) else (paths, current + [pid])
  }

  lemma SplitPathsSnoc(pids: seq<u16>, pid: u16)
    ensures SplitPaths(pids + [pid])
         == var (paths, current) := SplitPaths(pids);
            if pid == 0 then (paths + [current], []) else (paths, current + [pid])
  {
    assert (pids + [pid])[..|pids|] == pids;
  }

  /** The number of zero pids. */
  function ZeroCount(pids: seq<u16>): nat
    decreases |pids|
  {
    if pids == [] then 0
    else ZeroCount(pids[..|pids| - 1]) + (if pids[|pids| - 1] == 0 then 1 else 0)
  }

  /** Each path followed by its terminating zero, in order: the inverse of `SplitPaths`. */
  function Join(paths: seq<seq<u16>>): seq<u16>
    decreases |paths|
  {
    if paths == [] then [] else Join(paths[..|paths| - 1]) + paths[|paths| - 1] + [0]
  }

  ghost predicate ZeroFree(p: seq<u16>)
  {
    forall i :: 0 <= i < |p| ==> p[i] != 0
  }

  ghost predicate AllZeroFree(paths: seq<seq<u16>>)
  {
    forall k :: 0 <= k < |paths| ==> ZeroFree(paths[k])
  }

  /** No path holds a zero pid, the unterminated tail holds none either, there
      is one path per zero pid, and joining the paths back and appending the
      tail gives the pids. */
  lemma {:induction false} SplitPathsSpec(pids: seq<u16>)
    ensures AllZeroFree(SplitPaths(pids).0) && ZeroFree(SplitPaths(pids).1)
    ensures |SplitPaths(pids).0| == ZeroCount(pids)
    ensures Join(SplitPaths(pids).0) + SplitPaths(pids).1 == pids
    decreases |pids|
  {
    if pids != [] {
      var init := pids[..|pids| - 1];
      var pid := pids[|pids| - 1];
      SplitPathsSpec(init);
      var (paths, current) := SplitPaths(init);
      assert pids == init + [pid];
      if pid == 0 {
        assert (paths + [current])[..|paths|] == paths;
      } else {
        assert Join(paths) + (current + [pid]) == Join(paths) + current + [pid];
      }
    }
  }

  /** Zero-free paths and a zero-free tail are exactly what splitting their
      join gives back. */
  lemma {:induction false} SplitJoin(paths: seq<seq<u16>>, tail: seq<u16>)
    requires AllZeroFree(paths) && ZeroFree(tail)
    ensures SplitPaths(Join(paths) + tail) == (paths, tail)
    decreases |paths|, |tail|
  {
    if tail != [] {
      var init := tail[..|tail| - 1];
      assert Join(paths) + tail == (Join(paths) + init) + [tail[|tail| - 1]];
      SplitJoin(paths, init);
      SplitPathsSnoc(Join(paths) + init, tail[|tail| - 1]);
      assert init + [tail[|tail| - 1]] == tail;
    } else if paths != [] {
      var front := paths[..|paths| - 1];
      var last := paths[|paths| - 1];
      assert AllZeroFree(front);
      assert Join(paths) + tail == (Join(front) + last) + [0];
      SplitJoin(front, last);
      SplitPathsSnoc(Join(front) + last, 0);
      assert front + [last] == paths;
    }
  }

  /** The table as the layout defines it. A short stream, a wrong marker and a
      declared path count other than the number of paths read all fail. */
  function DecodeRefTable(s: bytes): (r: Result<RefPropsTable>)
  {
    if |s| < 1 then Err(ShortRead)
    else if s[0] != TABLE_BOM then Err(BadByteOrder(s[0] as nat))
    else if |s| < 7 then Err(ShortRead)
    else
      var pathCount := U16At(s, 1);
      var pidCount := U32At(s, 3);
      if |s| < 7 + 2 * pidCount then Err(ShortRead)
      else
        var paths := SplitPaths(PidsOf(s, pidCount)).0;
        if pathCount != |paths| then Err(CountMismatch(pathCount, |paths|))
        else Ok(RefPropsTable(s[0] as u8, pathCount, pidCount, paths))
  }

  /** `ReferencedPropertiesTable::from_stream`: the pids are read one at a
      time into the current path, which a zero pid pushes into `pid_paths`. */
  method RefTableFromStream(s: bytes) returns (r: Result<RefPropsTable>)
    ensures r == DecodeRefTable(s)
  {
    if |s| < 1 {
      return Err(ShortRead);
    }
    var byteOrder := s[0];
    if byteOrder != TABLE_BOM {
      return Err(BadByteOrder(byteOrder as nat));
    }
    if |s| < 3 {
      return Err(ShortRead);
    }
    var pathCount := U16At(s, 1);
    if |s| < 7 {
      return Err(ShortRead);
    }
    var pidCount: nat := U32At(s, 3);
    var pidPaths: seq<seq<u16>> := [];
    var thisPath: seq<u16> := [];
    var pos := 7;
    for i := 0 to pidCount
      invariant pos == 7 + 2 * i && pos <= |s|
      invariant (pidPaths, thisPath) == SplitPaths(PidsOf(s, i))
    {
      if |s| < pos + 2 {
        return Err(ShortRead);
      }
      var thisPid := U16At(s, pos);
      PidsStep(s, i);
      SplitPathsSnoc(PidsOf(s, i), thisPid);
      if thisPid == 0 {
        pidPaths := pidPaths + [thisPath];
        thisPath := [];
      } else {
        thisPath := thisPath + [thisPid];
      }
      pos := pos + 2;
    }
    if pathCount != |pidPaths| {
      return Err(CountMismatch(pathCount, |pidPaths|));
    }
    r := Ok(RefPropsTable(byteOrder as u8, pathCount, pidCount, pidPaths));
  }

  /** What decoding promises: the marker is 0x4c, every path is free of the
      zero separator, there are as many paths as zero pids among the
      `pid_count` read, and those pids are the joined paths followed by an
      unterminated, dropped tail. */
  lemma DecodedRefTable(s: bytes)
    requires DecodeRefTable(s).Ok?
    ensures s[0] == TABLE_BOM && |s| >= 7 && 7 + 2 * U32At(s, 3) <= |s|
    ensures var t := DecodeRefTable(s).value;
      var pids := PidsOf(s, U32At(s, 3));
      && t.byteOrder == 0x4c && t.pathCount == |t.pidPaths| == ZeroCount(pids)
      && AllZeroFree(t.pidPaths)
      && exists tail :: ZeroFree(tail) && pids == Join(t.pidPaths) + tail
  {
    var pids := PidsOf(s, U32At(s, 3));
    SplitPathsSpec(pids);
    var tail := SplitPaths(pids).1;
    assert ZeroFree(tail) && pids == Join(SplitPaths(pids).0) + tail;
  }

  /** Decoding fails exactly on a short stream, a marker other than 0x4c, or
      a declared path count that differs from the number of zero pids. */
  lemma RefTableFailures(s: bytes)
    ensures |s| >= 1 && s[0] != TABLE_BOM ==> DecodeRefTable(s) == Err(BadByteOrder(s[0] as nat))
    ensures |s| >= 7 && s[0] == TABLE_BOM && 7 + 2 * U32At(s, 3) <= |s| ==>
      var zeros := ZeroCount(PidsOf(s, U32At(s, 3)));
      (DecodeRefTable(s).Ok? <==> U16At(s, 1) == zeros)
      && (U16At(s, 1) != zeros ==> DecodeRefTable(s) == Err(CountMismatch(U16At(s, 1), zeros)))
    ensures (|s| < 7 || 7 + 2 * U32At(s, 3) > |s|) && !(|s| >= 1 && s[0] != TABLE_BOM) ==>
      DecodeRefTable(s) == Err(ShortRead)
  {
    if |s| >= 7 && 7 + 2 * U32At(s, 3) <= |s| {
      SplitPathsSpec(PidsOf(s, U32At(s, 3)));
    }
  }

  // The inverse layout, used to state the round trip.

  function EncodeU16s(ps: seq<u16>): (r: seq<bytes>)
    ensures |r| == |ps| && forall i :: 0 <= i < |ps| ==> r[i] == EncodeU16(ps[i])
  {
    seq(|ps|, i requires 0 <= i < |ps| => EncodeU16(ps[i]))
  }

  ghost predicate TableEncodable(t: RefPropsTable)
  {
    t.byteOrder == 0x4c && AllZeroFree(t.pidPaths)
    && t.pathCount == |t.pidPaths| && t.pidCount == |Join(t.pidPaths)|
  }

  function EncodeRefTable(t: RefPropsTable): bytes
    requires TableEncodable(t)
  {
    [TABLE_BOM] + EncodeU16(t.pathCount) + EncodeU32(t.pidCount) + Flatten(EncodeU16s(Join(t.pidPaths)))
  }

  /** The pids of an encoded table read back in order. */
  lemma EncodedPids(t: RefPropsTable, rest: bytes)
    requires TableEncodable(t)
    ensures 7 + 2 * t.pidCount <= |EncodeRefTable(t) + rest|
    ensures PidsOf(EncodeRefTable(t) + rest, t.pidCount) == Join(t.pidPaths)
  {
    var pids := Join(t.pidPaths);
    var pre := [TABLE_BOM] + EncodeU16(t.pathCount) + EncodeU32(t.pidCount);
    var blocks := EncodeU16s(pids);
    var s := EncodeRefTable(t) + rest;
    assert s == pre + Flatten(blocks) + rest;
    FlattenUniform(blocks, 2, |blocks|);
    assert blocks[..|blocks|] == blocks;
    forall i | 0 <= i < |pids|
      ensures U16At(s, 7 + 2 * i) == pids[i]
    {
      FlattenUniform(blocks, 2, i);
      FlattenBlock(blocks, i);
      SliceMiddle(pre, Flatten(blocks), rest, 2 * i, 2 * i + 2);
      U16Read(s, 7 + 2 * i, pids[i]);
    }
  }

  /** Decoding an encoded table gives it back, whatever follows it. */
  lemma RefTableRoundTrip(t: RefPropsTable, rest: bytes)
    requires TableEncodable(t)
    ensures DecodeRefTable(EncodeRefTable(t) + rest) == Ok(t)
  {
    var s := EncodeRefTable(t) + rest;
    var pre := [TABLE_BOM] + EncodeU16(t.pathCount) + EncodeU32(t.pidCount);
    assert s == pre + (Flatten(EncodeU16s(Join(t.pidPaths))) + rest);
    assert s[1..3] == pre[1..3] == EncodeU16(t.pathCount);
    assert s[3..7] == pre[3..7] == EncodeU32(t.pidCount);
    U16Read(s, 1, t.pathCount);
    U32Read(s, 3, t.pidCount);
    EncodedPids(t, rest);
    SplitJoin(t.pidPaths, []);
    assert Join(t.pidPaths) + [] == Join(t.pidPaths);
  }
}
