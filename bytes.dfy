/** Bytes, fixed-width little-endian fields and concatenation of byte blocks.
    Every on-disk structure of the AAF object layer is little-endian; the
    readers here play the role of `read_u8`/`read_u16`/`read_u32`/`read_u64`
    on a cursor, with the length check made explicit by each caller. */
module Bytes {

  newtype byte = x: int | 0 <= x < 0x100
  type bytes = seq<byte>

  type u8 = x: nat | x < 0x100
  type u16 = x: nat | x < 0x1_0000
  type u32 = x: nat | x < 0x1_0000_0000
  type u64 = x: nat | x < 0x1_0000_0000_0000_0000

  function U8At(s: bytes, p: nat): u8
    requires p < |s|
  {
    s[p] as nat
  }

  function U16At(s: bytes, p: nat): u16
    requires p + 2 <= |s|
  {
    s[p] as nat + 0x100 * s[p + 1] as nat
  }

  function U32At(s: bytes, p: nat): u32
    requires p + 4 <= |s|
  {
    U16At(s, p) + 0x1_0000 * U16At(s, p + 2)
  }

  function U64At(s: bytes, p: nat): u64
    requires p + 8 <= |s|
  {
    U32At(s, p) + 0x1_0000_0000 * U32At(s, p + 4)
  }

  function EncodeU16(v: u16): (r: bytes)
    ensures |r| == 2
  {
    [(v % 0x100) as byte, (v / 0x100) as byte]
  }

  function EncodeU32(v: u32): (r: bytes)
    ensures |r| == 4
  {
    EncodeU16(v % 0x1_0000) + EncodeU16(v / 0x1_0000)
  }

  function EncodeU64(v: u64): (r: bytes)
    ensures |r| == 8
  {
    EncodeU32(v % 0x1_0000_0000) + EncodeU32(v / 0x1_0000_0000)
  }

  /** A little-endian field is read back from wherever its encoding sits. */
  lemma U16Read(s: bytes, p: nat, v: u16)
    requires p + 2 <= |s| && s[p..p + 2] == EncodeU16(v)
    ensures U16At(s, p) == v
  {
    assert s[p] == s[p..p + 2][0] && s[p + 1] == s[p..p + 2][1];
  }

  lemma U32Read(s: bytes, p: nat, v: u32)
    requires p + 4 <= |s| && s[p..p + 4] == EncodeU32(v)
    ensures U32At(s, p) == v
  {
    assert s[p..p + 2] == s[p..p + 4][..2];
    assert s[p + 2..p + 4] == s[p..p + 4][2..];
    U16Read(s, p, v % 0x1_0000);
    U16Read(s, p + 2, v / 0x1_0000);
  }

  lemma U64Read(s: bytes, p: nat, v: u64)
    requires p + 8 <= |s| && s[p..p + 8] == EncodeU64(v)
    ensures U64At(s, p) == v
  {
    assert s[p..p + 4] == s[p..p + 8][..4];
    assert s[p + 4..p + 8] == s[p..p + 8][4..];
    U32Read(s, p, v % 0x1_0000_0000);
    U32Read(s, p + 4, v / 0x1_0000_0000);
  }

  /** A field depends only on the bytes it covers. */
  lemma U16Local(s: bytes, t: bytes, p: nat, q: nat)
    requires p + 2 <= |s| && q + 2 <= |t| && s[p..p + 2] == t[q..q + 2]
    ensures U16At(s, p) == U16At(t, q)
  {
    assert s[p] == s[p..p + 2][0] && s[p + 1] == s[p..p + 2][1];
    assert t[q] == t[q..q + 2][0] && t[q + 1] == t[q..q + 2][1];
  }

  lemma U32Local(s: bytes, t: bytes, p: nat, q: nat)
    requires p + 4 <= |s| && q + 4 <= |t| && s[p..p + 4] == t[q..q + 4]
    ensures U32At(s, p) == U32At(t, q)
  {
    assert s[p..p + 2] == s[p..p + 4][..2] && t[q..q + 2] == t[q..q + 4][..2];
    assert s[p + 2..p + 4] == s[p..p + 4][2..] && t[q + 2..q + 4] == t[q..q + 4][2..];
    U16Local(s, t, p, q);
    U16Local(s, t, p + 2, q + 2);
  }

  lemma U64Local(s: bytes, t: bytes, p: nat, q: nat)
    requires p + 8 <= |s| && q + 8 <= |t| && s[p..p + 8] == t[q..q + 8]
    ensures U64At(s, p) == U64At(t, q)
  {
    assert s[p..p + 4] == s[p..p + 8][..4] && t[q..q + 4] == t[q..q + 8][..4];
    assert s[p + 4..p + 8] == s[p..p + 8][4..] && t[q + 4..q + 8] == t[q..q + 8][4..];
    U32Local(s, t, p, q);
    U32Local(s, t, p + 4, q + 4);
  }

  /** Concatenation of byte blocks, in order. */
  function Flatten(blocks: seq<bytes>): bytes
  {
    if blocks == [] then [] else blocks[0] + Flatten(blocks[1..])
  }

  lemma {:induction false} FlattenAppend(blocks: seq<bytes>, b: bytes)
    ensures Flatten(blocks + [b]) == Flatten(blocks) + b
  {
    if blocks == [] {
      assert [] + [b] == [b];
    } else {
      assert (blocks + [b])[1..] == blocks[1..] + [b];
      FlattenAppend(blocks[1..], b);
    }
  }

  /** Block `i` sits in the concatenation right after the blocks before it. */
  lemma {:induction false} FlattenBlock(blocks: seq<bytes>, i: nat)
    requires i < |blocks|
    ensures |Flatten(blocks[..i])| + |blocks[i]| <= |Flatten(blocks)|
    ensures Flatten(blocks)[|Flatten(blocks[..i])|..|Flatten(blocks[..i])| + |blocks[i]|] == blocks[i]
  {
    if i == 0 {
      assert blocks[..0] == [];
    } else {
      var rest := blocks[1..];
      FlattenBlock(rest, i - 1);
      assert blocks[..i] == [blocks[0]] + rest[..i - 1];
      assert Flatten(blocks[..i]) == blocks[0] + Flatten(rest[..i - 1]) by {
        assert ([blocks[0]] + rest[..i - 1])[1..] == rest[..i - 1];
      }
      var o := |Flatten(rest[..i - 1])|;
      assert Flatten(blocks) == blocks[0] + Flatten(rest);
      assert Flatten(blocks)[|blocks[0]| + o..|blocks[0]| + o + |blocks[i]|]
          == Flatten(rest)[o..o + |rest[i - 1]|];
    }
  }

  /** Blocks that all have width `w` start at multiples of `w`. */
  lemma {:induction false} FlattenUniform(blocks: seq<bytes>, w: nat, i: nat)
    requires forall k :: 0 <= k < |blocks| ==> |blocks[k]| == w
    requires i <= |blocks|
    ensures |Flatten(blocks[..i])| == w * i
  {
    if i > 0 {
      FlattenUniform(blocks, w, i - 1);
      assert blocks[..i] == blocks[..i - 1] + [blocks[i - 1]];
      FlattenAppend(blocks[..i - 1], blocks[i - 1]);
    }
  }

  /** A slice of the middle part of a concatenation. */
  lemma SliceMiddle(pre: bytes, mid: bytes, post: bytes, i: nat, j: nat)
    requires i <= j <= |mid|
    ensures (pre + mid + post)[|pre| + i..|pre| + j] == mid[i..j]
  {
    var s := pre + mid + post;
    assert forall k :: 0 <= k < j - i ==> s[|pre| + i..|pre| + j][k] == mid[i..j][k];
  }

  /** Three consecutive 16-bit fields, as in a property header. */
  lemma U16Triple(s: bytes, p: nat, a: u16, b: u16, c: u16)
    requires p + 6 <= |s| && s[p..p + 6] == EncodeU16(a) + EncodeU16(b) + EncodeU16(c)
    ensures U16At(s, p) == a && U16At(s, p + 2) == b && U16At(s, p + 4) == c
  {
    var blk := s[p..p + 6];
    assert s[p] == blk[0] && s[p + 1] == blk[1] && s[p + 2] == blk[2];
    assert s[p + 3] == blk[3] && s[p + 4] == blk[4] && s[p + 5] == blk[5];
  }
}
