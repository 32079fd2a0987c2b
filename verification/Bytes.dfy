// Byte strings, fixed-width little-endian integers and raw reads from a file image.
module Bytes {
  type byte = x: int | 0 <= x < 256
  type Bytes = seq<byte>

  const U64_LIMIT: nat := 0x1_0000_0000_0000_0000
  const U32_LIMIT: nat := 0x1_0000_0000
  const U16_LIMIT: nat := 0x1_0000

  function Limit(width: nat): nat {
    if width == 0 then 1 else 256 * Limit(width - 1)
  }

  /** The `width` low-order bytes of `v`, least significant first: what storing an integer of that width writes. */
  function Encode(v: nat, width: nat): (b: Bytes)
    ensures |b| == width
  {
    if width == 0 then [] else [v % 256] + Encode(v / 256, width - 1)
  }

  function Decode(b: Bytes): nat {
    if b == [] then 0 else b[0] + 256 * Decode(b[1..])
  }

  /** A stored integer reads back as itself exactly when it fits the width. */
  lemma {:induction false} DecodeEncode(v: nat, width: nat)
    ensures Decode(Encode(v, width)) < Limit(width)
    ensures Decode(Encode(v, width)) == v <==> v < Limit(width)
  {
    if width > 0 {
      DecodeEncode(v / 256, width - 1);
      assert Encode(v, width)[1..] == Encode(v / 256, width - 1);
    }
  }

  /** Bytes are what storing the integer they stand for writes. */
  lemma {:induction false} EncodeDecode(b: Bytes)
    ensures Encode(Decode(b), |b|) == b
  {
    if b != [] {
      EncodeDecode(b[1..]);
      assert b == [b[0]] + b[1..];
    }
  }

  lemma Limits()
    ensures Limit(2) == U16_LIMIT && Limit(4) == U32_LIMIT && Limit(8) == U64_LIMIT
  {
    assert Limit(4) == 256 * 256 * 256 * 256 * Limit(0);
    assert Limit(8) == 256 * 256 * 256 * 256 * Limit(4);
  }

  // ---- Raw reads. The program dereferences a pointer; a read that leaves the image yields a default here.

  function Slice(image: Bytes, offset: nat, size: nat): Bytes {
    if offset + size <= |image| then image[offset..offset + size] else []
  }

  function ReadUint(image: Bytes, offset: nat, width: nat): nat {
    Decode(Slice(image, offset, width))
  }

  /** `data` is stored in `image` at `offset`. */
  ghost predicate At(image: Bytes, offset: nat, data: Bytes) {
    offset + |data| <= |image| && image[offset..offset + |data|] == data
  }

  lemma AtSlice(image: Bytes, offset: nat, data: Bytes)
    requires At(image, offset, data)
    ensures Slice(image, offset, |data|) == data
  {
  }

  lemma AtUint(image: Bytes, offset: nat, v: nat, width: nat)
    requires At(image, offset, Encode(v, width)) && v < Limit(width)
    ensures ReadUint(image, offset, width) == v
  {
    DecodeEncode(v, width);
  }

  /** A field reads as an integer exactly when that integer is stored there. */
  lemma ReadsAs(image: Bytes, offset: nat, v: nat, width: nat)
    requires v < Limit(width) && offset + width <= |image|
    ensures ReadUint(image, offset, width) == v <==> image[offset..offset + width] == Encode(v, width)
  {
    hide Encode, Decode;
    EncodeDecode(image[offset..offset + width]);
    DecodeEncode(v, width);
  }

  lemma AtSplit(image: Bytes, offset: nat, left: Bytes, right: Bytes)
    ensures At(image, offset, left + right) <==> At(image, offset, left) && At(image, offset + |left|, right)
  {
    if At(image, offset, left + right) {
      var w := image[offset..offset + |left + right|];
      assert w[..|left|] == left && w[|left|..] == right;
      assert image[offset..offset + |left|] == w[..|left|];
      assert image[offset + |left|..offset + |left| + |right|] == w[|left|..];
    }
    if At(image, offset, left) && At(image, offset + |left|, right) {
      assert image[offset..offset + |left + right|]
          == image[offset..offset + |left|] + image[offset + |left|..offset + |left| + |right|];
    }
  }

  lemma Assoc(a: Bytes, b: Bytes, c: Bytes)
    ensures (a + b) + c == a + (b + c)
  {
  }

  lemma AtExtend(image: Bytes, more: Bytes, offset: nat, data: Bytes)
    requires At(image, offset, data)
    ensures At(image + more, offset, data)
  {
    assert (image + more)[offset..offset + |data|] == image[offset..offset + |data|];
  }

  lemma AtEnd(image: Bytes, data: Bytes)
    ensures At(image + data, |image|, data)
  {
  }

  /** Data inside data: what is stored in `outer` is stored in every image that stores `outer`. */
  lemma AtWithin(image: Bytes, base: nat, outer: Bytes, offset: nat, data: Bytes)
    requires At(image, base, outer) && At(outer, offset, data)
    ensures At(image, base + offset, data)
  {
    forall k | 0 <= k < |data| ensures image[base + offset + k] == data[k] {
      assert image[base..base + |outer|][offset + k] == image[base + offset + k];
      assert outer[offset..offset + |data|][k] == outer[offset + k];
    }
  }
}
