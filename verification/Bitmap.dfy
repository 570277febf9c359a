/** 24- and 32-bit images and their BMP form. */
module BmpFormat {
  import opened Arith
  import opened Basics
  import opened LittleEndian

  const WORD := 0x1_0000_0000
  const HALF := 0x8000_0000
  const OFFSET := 54

  // ---- rows ----

  function Zeros(n: nat): (s: seq<Byte>)
    ensures |s| == n && forall i :: 0 <= i < n ==> s[i] == 0
  {
    seq(n, _ => 0)
  }

  /** The row size rounded up to a multiple of four. */
  function Padded(row: nat): (p: nat)
    ensures row <= p < row + 4 && p % 4 == 0
  {
    (row + 3) / 4 * 4
  }

  /** The first h rows of `data`, each filled up with zeros to `padded` bytes. */
  function PadRows(data: seq<Byte>, row: nat, padded: nat, h: nat): (px: seq<Byte>)
    requires row <= padded && h * row <= |data|
    ensures |px| == h * padded
  {
    if h == 0 then []
    else
      RowFits(h, row);
      PadRows(data, row, padded, h - 1) + data[(h - 1) * row..(h - 1) * row + row] + Zeros(padded - row)
  }

  lemma RowFits(h: nat, row: nat)
    requires h > 0
    ensures (h - 1) * row + row == h * row && 0 <= (h - 1) * row
  {
  }

  /** Whether h padded rows, the last one without its padding, fit into n bytes. */
  predicate RowsFit(n: nat, row: nat, padded: nat, h: nat) { h == 0 || (h - 1) * padded + row <= n }

  lemma FewerFit(n: nat, row: nat, padded: nat, h: nat)
    requires h > 0 && RowsFit(n, row, padded, h)
    ensures RowsFit(n, row, padded, h - 1)
  {
    if h > 1 {
      RowFits(h - 1, padded);
    }
  }

  /** The rows without their padding. */
  function UnpadRows(px: seq<Byte>, row: nat, padded: nat, h: nat): (data: seq<Byte>)
    requires RowsFit(|px|, row, padded, h)
    ensures |data| == h * row
  {
    if h == 0 then []
    else
      FewerFit(|px|, row, padded, h);
      RowFits(h, row);
      RowStart(padded, h);
      UnpadRows(px, row, padded, h - 1) + px[(h - 1) * padded..(h - 1) * padded + row]
  }

  lemma RowStart(padded: nat, h: nat)
    requires h > 0
    ensures 0 <= (h - 1) * padded
  {
  }

  /** The same, the last row first. */
  function UnpadFlipped(px: seq<Byte>, row: nat, padded: nat, h: nat): (data: seq<Byte>)
    requires RowsFit(|px|, row, padded, h)
    ensures |data| == h * row
  {
    if h == 0 then []
    else
      FewerFit(|px|, row, padded, h);
      RowFits(h, row);
      RowStart(padded, h);
      px[(h - 1) * padded..(h - 1) * padded + row] + UnpadFlipped(px, row, padded, h - 1)
  }

  lemma LastRow(before: seq<Byte>, last: seq<Byte>, zeros: seq<Byte>, more: seq<Byte>)
    ensures before + last + zeros + more == before + (last + zeros + more)
    ensures (before + (last + zeros + more))[|before|..|before| + |last|] == last
  {
  }

  lemma {:induction false} PadThenUnpad(data: seq<Byte>, row: nat, padded: nat, h: nat, more: seq<Byte>)
    requires row <= padded && h * row <= |data|
    ensures RowsFit(|PadRows(data, row, padded, h) + more|, row, padded, h)
    ensures UnpadRows(PadRows(data, row, padded, h) + more, row, padded, h) == data[..h * row]
  {
    if h > 0 {
      RowFits(h, row);
      RowFits(h, padded);
      var start := (h - 1) * row;
      var last, zeros, before := data[start..start + row], Zeros(padded - row), PadRows(data, row, padded, h - 1);
      LastRow(before, last, zeros, more);
      PadThenUnpad(data, row, padded, h - 1, last + zeros + more);
      assert data[..start] + last == data[..start + row];
    }
  }

  /** Without padding the rows are simply the bytes. */
  lemma {:induction false} UnpadPlain(px: seq<Byte>, row: nat, h: nat)
    requires h * row <= |px|
    ensures RowsFit(|px|, row, row, h) && UnpadRows(px, row, row, h) == px[..h * row]
  {
    if h > 0 {
      RowFits(h, row);
      UnpadPlain(px, row, h - 1);
    }
  }

  // ---- the file ----

  /** Bytes of a row: the width times the bytes of a pixel. */
  function RowBytes(width: nat, bits: nat): nat { width * (bits / 8) }

  datatype Image = Image(width: nat, height: nat, bits: nat, data: seq<Byte>) {
    predicate Valid() { (bits == 24 || bits == 32) && |data| == height * RowBytes(width, bits) }
  }

  /** The part of the info header from the number of planes on. */
  function Planes(bits: nat, imageSize: nat): (s: seq<Byte>)
    ensures |s| == 28
  {
    Little(1, 2) + (Little(bits, 2) + (Little(0, 4) + Little(imageSize, 4) + Little(0x130B, 4) + Little(0x130B, 4)
                                       + Little(0, 4) + Little(0, 4)))
  }

  function Header(width: nat, height: nat, bits: nat, imageSize: nat, fileSize: nat): (s: seq<Byte>)
    ensures |s| == OFFSET
  {
    ([0x42, 0x4D] + Little(fileSize, 4) + Little(0, 4))
    + (Little(OFFSET, 4) + (Little(40, 4) + (Little(width, 4) + (Little(height, 4) + Planes(bits, imageSize)))))
  }

  lemma Front(a: seq<Byte>, b: seq<Byte>)
    ensures (a + b)[0..|a|] == a
  {
  }

  lemma Behind(a: seq<Byte>, b: seq<Byte>, i: nat, j: nat)
    requires |a| <= i <= j <= |a| + |b|
    ensures (a + b)[i..j] == b[i - |a|..j - |a|]
  {
  }

  lemma HeaderFields(width: nat, height: nat, bits: nat, imageSize: nat, fileSize: nat)
    ensures var s := Header(width, height, bits, imageSize, fileSize);
      && s[10..14] == Little(OFFSET, 4) && s[18..22] == Little(width, 4) && s[22..26] == Little(height, 4)
      && s[28..30] == Little(bits, 2)
  {
    var rest := Little(0, 4) + Little(imageSize, 4) + Little(0x130B, 4) + Little(0x130B, 4) + Little(0, 4) +
      Little(0, 4);
    FieldsInPlace([0x42, 0x4D] + Little(fileSize, 4) + Little(0, 4), Little(OFFSET, 4), Little(40, 4),
                  Little(width, 4), Little(height, 4), Little(1, 2), Little(bits, 2), rest);
  }

  lemma FieldsInPlace(start: seq<Byte>, offset: seq<Byte>, size: seq<Byte>, width: seq<Byte>, height: seq<Byte>,
                      planes: seq<Byte>, bits: seq<Byte>, rest: seq<Byte>)
    requires |start| == 10 && |offset| == 4 && |size| == 4 && |width| == 4 && |height| == 4 && |planes| == 2 &&
      |bits| == 2
    ensures var s := start + (offset + (size + (width + (height + (planes + (bits + rest))))));
      s[10..14] == offset && s[18..22] == width && s[22..26] == height && s[28..30] == bits
  {
    var g := bits + rest;
    var f := planes + g;
    var e := height + f;
    var d := width + e;
    var c := size + d;
    var b := offset + c;
    Behind(start, b, 10, 14);
    Behind(start, b, 18, 22);
    Behind(start, b, 22, 26);
    Behind(start, b, 28, 30);
    Behind(offset, c, 8, 12);
    Behind(offset, c, 12, 16);
    Behind(offset, c, 18, 20);
    Behind(size, d, 4, 8);
    Behind(size, d, 8, 12);
    Behind(size, d, 14, 16);
    Behind(width, e, 4, 8);
    Behind(width, e, 10, 12);
    Behind(height, f, 6, 8);
    Behind(planes, g, 2, 4);
    Front(offset, c);
    Front(width, e);
    Front(height, f);
    Front(bits, rest);
  }

  function ImageSize(row: nat, height: nat): nat { Padded(row) * height }

  function Encode(b: Image): seq<Byte>
    requires b.Valid()
  {
    if b.data == [] then []
    else
      var row := RowBytes(b.width, b.bits);
      var size := ImageSize(row, b.height);
      Header(b.width, b.height, b.bits, size, OFFSET + size) + PadRows(b.data, row, Padded(row), b.height)
  }

  /** Loaded is success. Blank is a failure that leaves an image of zeros behind, Rejected and Threw leave
      none. */
  datatype Outcome = Rejected | Threw | Blank(width: nat, height: nat, bits: nat) | Loaded(image: Image)

  /** The row size as the reader computes it, in 32 bits. */
  function Wrap32(row: nat): nat { row % WORD }

  function AbsHeight(height: nat): nat
    requires height < WORD
  {
    if height >= HALF then WORD - height else height
  }

  function Unpack(px: seq<Byte>, row: nat, h: nat, topDown: bool): (data: seq<Byte>)
    requires RowsFit(|px|, row, Padded(row), h)
    ensures |data| == h * row
  {
    if Padded(row) == row then
      UnpackedFits(|px|, row, h);
      px[..h * row]
    else if topDown then UnpadFlipped(px, row, Padded(row), h)
    else UnpadRows(px, row, Padded(row), h)
  }

  lemma UnpackedFits(n: nat, row: nat, h: nat)
    requires RowsFit(n, row, row, h)
    ensures 0 <= h * row <= n
  {
    if h > 0 {
      RowFits(h, row);
    }
  }

  function FieldAt(d: seq<Byte>, at: nat, k: nat): nat
    requires at + k <= |d|
  {
    FromLittle(d[at..at + k])
  }

  /** The pixels of an image of that size; bytes no row reaches stay zero. */
  function DecodePixels(px: seq<Byte>, width: nat, h: nat, bits: nat, topDown: bool): Outcome {
    var row := Wrap32(RowBytes(width, bits));
    if !RowsFit(|px|, row, Padded(row), h) then Rejected
    else Loaded(Image(width, h, bits, Unpack(px, row, h, topDown) + Zeros(Missing(RowBytes(width, bits), h))))
  }

  function DecodeImage(d: seq<Byte>, offset: nat, width: nat, h: nat, bits: nat, topDown: bool): Outcome {
    if bits != 24 && bits != 32 then Threw
    else if |d| < offset then Blank(width, h, bits)
    else DecodePixels(d[offset..], width, h, bits, topDown)
  }

  function Decode(d: seq<Byte>): Outcome {
    if |d| < OFFSET || d[0] != 0x42 || d[1] != 0x4D then Rejected
    else
      HeightFits(d);
      var offset, width, height, bits := FieldAt(d, 10, 4), FieldAt(d, 18, 4), FieldAt(d, 22, 4),
        FieldAt(d, 28, 2) % 256;
      DecodeImage(d, offset, width, AbsHeight(height), bits, height >= HALF)
  }

  lemma HeightFits(d: seq<Byte>)
    requires |d| >= OFFSET
    ensures FieldAt(d, 22, 4) < WORD
  {
    FieldBound(d[22..26]);
  }

  /** How many bytes of the image no row reaches. */
  function Missing(row: nat, h: nat): (n: nat)
    ensures n + h * Wrap32(row) == h * row
    ensures row < WORD ==> n == 0
    ensures row >= WORD && h > 0 ==> n > 0
  {
    WrappedRows(row, h);
    h * row - h * Wrap32(row)
  }

  lemma WrappedRows(row: nat, h: nat)
    ensures Wrap32(row) <= row && 0 <= h * Wrap32(row) <= h * row
    ensures row >= WORD && h > 0 ==> h * Wrap32(row) < h * row
  {
    var short := Wrap32(row);
    if short < row {
      MulGap(short, row, h);
    }
  }

  // ---- the round trip ----

  ghost predicate IsHeader(hd: seq<Byte>, width: nat, height: nat, bits: nat) {
    && |hd| == OFFSET && hd[0] == 0x42 && hd[1] == 0x4D
    && hd[10..14] == Little(OFFSET, 4) && hd[18..22] == Little(width, 4) && hd[22..26] == Little(height, 4)
    && hd[28..30] == Little(bits, 2)
  }

  lemma HeaderIs(width: nat, height: nat, bits: nat, size: nat)
    ensures IsHeader(Header(width, height, bits, size, OFFSET + size), width, height, bits)
  {
    HeaderFields(width, height, bits, size, OFFSET + size);
  }

  lemma EncodedIs(b: Image) returns (hd: seq<Byte>)
    requires b.Valid() && b.data != []
    ensures IsHeader(hd, b.width, b.height, b.bits)
    ensures var row := RowBytes(b.width, b.bits); Encode(b) == hd + PadRows(b.data, row, Padded(row), b.height)
  {
    var size := ImageSize(RowBytes(b.width, b.bits), b.height);
    hd := Header(b.width, b.height, b.bits, size, OFFSET + size);
    HeaderIs(b.width, b.height, b.bits, size);
  }

  lemma FieldOfHeader(hd: seq<Byte>, px: seq<Byte>, at: nat, n: nat, k: nat)
    requires k <= 4 && at + k <= |hd| && hd[at..at + k] == Little(n, k)
    ensures FieldAt(hd + px, at, k) == n % Power(k)
  {
    assert (hd + px)[at..at + k] == hd[at..at + k];
    FieldHolds(n, k);
  }

  lemma HeaderReads(hd: seq<Byte>, px: seq<Byte>, width: nat, height: nat, bits: nat)
    requires IsHeader(hd, width, height, bits) && bits < 0x1_0000
    ensures var e := hd + px;
      && |e| >= OFFSET && e[0] == 0x42 && e[1] == 0x4D && FieldAt(e, 10, 4) == OFFSET
      && FieldAt(e, 18, 4) == width % WORD && FieldAt(e, 22, 4) == height % WORD && FieldAt(e, 28, 2) == bits
  {
    FieldOfHeader(hd, px, 10, OFFSET, 4);
    FieldOfHeader(hd, px, 18, width, 4);
    FieldOfHeader(hd, px, 22, height, 4);
    FieldOfHeader(hd, px, 28, bits, 2);
  }

  /** Decoding takes the encoded header at its word, modulo 2^32. */
  lemma DecodedIs(hd: seq<Byte>, px: seq<Byte>, width: nat, height: nat, bits: nat)
    requires IsHeader(hd, width, height, bits) && (bits == 24 || bits == 32)
    ensures Decode(hd + px)
      == DecodePixels(px, width % WORD, AbsHeight(height % WORD), bits, height % WORD >= HALF)
  {
    HeaderReads(hd, px, width, height, bits);
    assert (hd + px)[OFFSET..] == px;
  }

  /** The images whose dimensions the format can hold. */
  predicate Holds(width: nat, height: nat, bits: nat) { RowBytes(width, bits) < WORD && height < HALF }

  lemma WidthFits(width: nat, height: nat, bits: nat)
    requires Holds(width, height, bits) && (bits == 24 || bits == 32)
    ensures width < WORD && width % WORD == width && height % WORD == height
  {
    assert bits == 24 ==> RowBytes(width, bits) == 3 * width;
    assert bits == 32 ==> RowBytes(width, bits) == 4 * width;
  }

  lemma UnpackOfPadded(data: seq<Byte>, row: nat, h: nat)
    requires h * row == |data|
    ensures var px := PadRows(data, row, Padded(row), h);
      RowsFit(|px|, row, Padded(row), h) && Unpack(px, row, h, false) == data
  {
    var px := PadRows(data, row, Padded(row), h);
    PadThenUnpad(data, row, Padded(row), h, []);
    assert px + [] == px && data[..h * row] == data;
    if Padded(row) == row {
      UnpadPlain(px, row, h);
    }
  }

  lemma PixelsLoad(px: seq<Byte>, b: Image, row: nat)
    requires row == RowBytes(b.width, b.bits) < WORD && RowsFit(|px|, row, Padded(row), b.height)
    requires Unpack(px, row, b.height, false) == b.data
    ensures DecodePixels(px, b.width, b.height, b.bits, false) == Loaded(b)
  {
    assert Wrap32(row) == row;
    assert b.data + Zeros(Missing(row, b.height)) == b.data;
  }

  lemma PixelsRoundTrip(b: Image)
    requires b.Valid() && RowBytes(b.width, b.bits) < WORD
    ensures var row := RowBytes(b.width, b.bits);
      DecodePixels(PadRows(b.data, row, Padded(row), b.height), b.width, b.height, b.bits, false) == Loaded(b)
  {
    var row := RowBytes(b.width, b.bits);
    UnpackOfPadded(b.data, row, b.height);
    PixelsLoad(PadRows(b.data, row, Padded(row), b.height), b, row);
  }

  /** Decoding what was encoded gives back the image, whatever the row padding. */
  lemma RoundTrip(b: Image)
    requires b.Valid() && b.data != [] && Holds(b.width, b.height, b.bits)
    ensures Decode(Encode(b)) == Loaded(b)
  {
    var hd := EncodedIs(b);
    var row := RowBytes(b.width, b.bits);
    DecodedIs(hd, PadRows(b.data, row, Padded(row), b.height), b.width, b.height, b.bits);
    WidthFits(b.width, b.height, b.bits);
    PixelsRoundTrip(b);
  }

  lemma NotEmpty(width: nat, height: nat, bits: nat)
    requires width > 0 && height > 0 && (bits == 24 || bits == 32)
    ensures height * RowBytes(width, bits) > 0
  {
    assert RowBytes(width, bits) > 0;
  }

  /** An image with its last byte set. */
  function Marked(width: nat, height: nat, bits: nat): (b: Image)
    requires width > 0 && height > 0 && (bits == 24 || bits == 32)
    ensures b.Valid() && b.width == width && b.height == height && b.bits == bits
    ensures b.data != [] && b.data[|b.data| - 1] == 1
  {
    NotEmpty(width, height, bits);
    Image(width, height, bits, Zeros(height * RowBytes(width, bits) - 1) + [1])
  }

  /** A row size that wraps leaves the end of the image zero. */
  lemma WrappedRowLosesTheEnd(b: Image, px: seq<Byte>)
    requires b.Valid() && b.height > 0 && RowBytes(b.width, b.bits) >= WORD && b.data != [] && b.data[|b.data| - 1] != 0
    ensures DecodePixels(px, b.width, b.height, b.bits, false) != Loaded(b)
  {
    var row := RowBytes(b.width, b.bits);
    var short := Wrap32(row);
    if RowsFit(|px|, short, Padded(short), b.height) {
      LastIsZero(Unpack(px, short, b.height, false), Missing(row, b.height));
    }
  }

  lemma LastIsZero(front: seq<Byte>, n: nat)
    requires n > 0
    ensures (front + Zeros(n))[|front| + n - 1] == 0
  {
  }

  /** Whatever the decoder makes of it, it is not the image. */
  lemma TooLargeIsLost(width: nat, height: nat, bits: nat)
    requires width > 0 && height > 0 && (bits == 24 || bits == 32) && height != HALF
    requires !Holds(width, height, bits)
    ensures Decode(Encode(Marked(width, height, bits))) != Loaded(Marked(width, height, bits))
  {
    var b := Marked(width, height, bits);
    var hd := EncodedIs(b);
    var row := RowBytes(width, bits);
    var px := PadRows(b.data, row, Padded(row), height);
    DecodedIs(hd, px, width, height, bits);
    if width < WORD && height < HALF {
      WrappedRowLosesTheEnd(b, px);
    } else if height > HALF {
      assert AbsHeight(height % WORD) != height;
    }
  }

  /** For which dimensions every image survives: exactly if a row takes less than 2^32 bytes and the
      height is less than 2^31. (A height of exactly 2^31 has no defined meaning.) */
  lemma RoundTripIff(width: nat, height: nat, bits: nat)
    requires width > 0 && height > 0 && (bits == 24 || bits == 32) && height != HALF
    ensures Holds(width, height, bits) <==>
      forall b: Image :: b.Valid() && b.width == width && b.height == height && b.bits == bits ==>
        Decode(Encode(b)) == Loaded(b)
  {
    NotEmpty(width, height, bits);
    if Holds(width, height, bits) {
      forall b: Image | b.Valid() && b.width == width && b.height == height && b.bits == bits
        ensures Decode(Encode(b)) == Loaded(b)
      {
        RoundTrip(b);
      }
    } else {
      TooLargeIsLost(width, height, bits);
    }
  }
}

/** The bitmap object: one flat buffer, written in place. */
module Bitmaps {
  import opened Arith
  import opened Basics
  import opened BmpFormat
  import opened Grid
  import opened LittleEndian

  method Memcpy(to: array<Byte>, at: nat, from: seq<Byte>)
    requires at + |from| <= to.Length
    modifies to
    ensures to[..] == old(to[..])[..at] + from + old(to[..])[at + |from|..]
  {
    ghost var was := to[..];
    for i := 0 to |from|
      invariant to[..] == was[..at] + from[..i] + was[at + i..]
    {
      to[at + i] := from[i];
    }
    assert from[..|from|] == from;
  }

  /** A vector resized: what was there stays, what is new is zero. */
  function Resized(data: seq<Byte>, n: nat): (r: seq<Byte>)
    ensures |r| == n
  {
    if n <= |data| then data[..n] else data + Zeros(n - |data|)
  }

  // ---- pixels ----

  /** Where the pixel in column `row` of line `line` starts. */
  function PixelAt(width: nat, depth: nat, row: nat, line: nat): int { Idx(width, row, line) * depth }

  lemma PixelInside(width: nat, height: nat, bits: nat, row: nat, line: nat)
    requires row < width && line < height && bits / 8 > 0
    ensures 0 <= PixelAt(width, bits / 8, row, line)
    ensures PixelAt(width, bits / 8, row, line) + bits / 8 <= height * RowBytes(width, bits)
  {
    var d := bits / 8;
    IdxInside(width, height, row, line);
    MulGap(Idx(width, row, line), width * height, d);
    assert width * height * d == height * (width * d);
  }

  /** Different pixels have no byte in common. */
  lemma PixelsApart(width: nat, depth: nat, row: nat, line: nat, row': nat, line': nat)
    requires row < width && row' < width && (row != row' || line != line')
    ensures var p, q := PixelAt(width, depth, row, line), PixelAt(width, depth, row', line');
      p + depth <= q || q + depth <= p
  {
    var i, j := Idx(width, row, line), Idx(width, row', line');
    if i < j {
      MulGap(i, j, depth);
    } else if j < i {
      MulGap(j, i, depth);
    } else {
      IdxUnique(width, row, line, row', line');
    }
  }

  function Pixel(data: seq<Byte>, width: nat, height: nat, bits: nat, row: nat, line: nat): nat
    requires |data| == height * RowBytes(width, bits) && row < width && line < height && bits / 8 > 0
  {
    PixelInside(width, height, bits, row, line);
    var at := PixelAt(width, bits / 8, row, line);
    FromLittle(data[at..at + bits / 8])
  }

  function WithPixel(data: seq<Byte>, width: nat, height: nat, bits: nat, row: nat, line: nat,
      value: nat): (r: seq<Byte>)
    requires |data| == height * RowBytes(width, bits) && row < width && line < height && bits / 8 > 0
    ensures |r| == |data|
  {
    PixelInside(width, height, bits, row, line);
    var at := PixelAt(width, bits / 8, row, line);
    data[..at] + Little(value, bits / 8) + data[at + bits / 8..]
  }

  lemma SliceElsewhere(data: seq<Byte>, at: nat, piece: seq<Byte>, i: nat, j: nat)
    requires at + |piece| <= |data| && i <= j <= |data| && (j <= at || at + |piece| <= i)
    ensures (data[..at] + piece + data[at + |piece|..])[i..j] == data[i..j]
    ensures (data[..at] + piece + data[at + |piece|..])[at..at + |piece|] == piece
  {
  }

  /** Setting one pixel changes that pixel, to the colour cut to the depth, and no other. */
  lemma SetChangesOnePixel(data: seq<Byte>, width: nat, height: nat, bits: nat, row: nat, line: nat, value: nat,
      row': nat, line': nat)
    requires |data| == height * RowBytes(width, bits) && (bits == 24 || bits == 32)
    requires row < width && line < height && row' < width && line' < height
    ensures Pixel(WithPixel(data, width, height, bits, row, line, value), width, height, bits, row', line')
      == if row' == row && line' == line then value % Power(bits / 8) else Pixel(data, width, height, bits, row', line')
  {
    var d := bits / 8;
    var at, at' := PixelAt(width, d, row, line), PixelAt(width, d, row', line');
    PixelInside(width, height, bits, row, line);
    PixelInside(width, height, bits, row', line');
    if row' == row && line' == line {
      SliceElsewhere(data, at, Little(value, d), 0, 0);
      FieldHolds(value, d);
    } else {
      PixelsApart(width, d, row, line, row', line');
      SliceElsewhere(data, at, Little(value, d), at', at' + d);
    }
  }

  // ---- the object ----

  class Bitmap {
    var width: nat
    var height: nat
    var bits: nat
    var data: array<Byte>

    /** A new bitmap has no depth yet, and no pixels. */
    ghost predicate Valid()
      reads this, data
    {
      if bits == 0 then width == 0 && height == 0 && data.Length == 0 else Value().Valid()
    }

    ghost function Value(): Image
      reads this, data
    {
      Image(width, height, bits, data[..])
    }

    constructor ()
      ensures Valid() && Value() == Image(0, 0, 0, []) && fresh(data)
    {
      width, height, bits := 0, 0, 0;
      data := new Byte[0];
    }

    method Resize(n: nat)
      modifies this
      ensures data[..] == Resized(old(data[..]), n) && fresh(data)
      ensures width == old(width) && height == old(height) && bits == old(bits)
    {
      var bigger := new Byte[n](_ => 0);
      var kept := if n <= data.Length then data[..n] else data[..];
      Memcpy(bigger, 0, kept);
      data := bigger;
    }

    /** Only 24 and 32 bits per pixel are supported; anything else throws and changes nothing. */
    method Create(width: nat, height: nat, bits: nat) returns (ok: bool)
      requires Valid()
      modifies this
      ensures Valid() && (ok <==> bits == 24 || bits == 32)
      ensures ok ==> fresh(data)
      ensures ok ==> Value() == Image(width, height, bits, Resized(old(data[..]), height * RowBytes(width, bits)))
      ensures !ok ==> data == old(data) && Value() == old(Value())
    {
      if bits != 24 && bits != 32 {
        return false;
      }
      this.bits, this.width, this.height := bits, width, height;
      Resize(height * RowBytes(width, bits));
      return true;
    }

    method Clear()
      requires Valid()
      modifies this
      ensures Valid() && Value() == Image(0, 0, old(bits), []) && fresh(data)
    {
      width, height := 0, 0;
      data := new Byte[0];
    }

    /** None for the exception thrown outside the image. */
    method Get(row: nat, line: nat) returns (r: Option<nat>)
      requires Valid()
      ensures r.Some? <==> row < width && line < height
      ensures r.Some? ==> bits / 8 > 0 && r.value == Pixel(data[..], width, height, bits, row, line)
    {
      if row >= width || line >= height {
        return None;
      }
      PixelInside(width, height, bits, row, line);
      var at := PixelAt(width, bits / 8, row, line);
      assert data[at..at + bits / 8] == data[..][at..at + bits / 8];
      return Some(FromLittle(data[at..at + bits / 8]));
    }

    method Set(row: nat, line: nat, value: nat) returns (ok: bool)
      requires Valid()
      modifies data
      ensures Valid() && (ok <==> row < width && line < height)
      ensures ok ==> bits / 8 > 0 && data[..] == WithPixel(old(data[..]), width, height, bits, row, line, value)
      ensures !ok ==> data[..] == old(data[..])
    {
      if row >= width || line >= height {
        return false;
      }
      PixelInside(width, height, bits, row, line);
      Memcpy(data, PixelAt(width, bits / 8, row, line), Little(value, bits / 8));
      return true;
    }

    method ToBmpData() returns (bmp: array<Byte>)
      requires Value().Valid()
      ensures fresh(bmp) && bmp[..] == Encode(Value())
    {
      if data.Length == 0 {
        bmp := new Byte[0];
      } else {
        var row := RowBytes(width, bits);
        var size := ImageSize(row, height);
        bmp := WriteBmp(Header(width, height, bits, size, OFFSET + size), data[..], row, height);
        EncodesTo(Value(), Header(width, height, bits, size, OFFSET + size), row);
      }
    }

    static method WriteBmp(hd: seq<Byte>, from: seq<Byte>, row: nat, h: nat) returns (bmp: array<Byte>)
      requires |hd| == OFFSET && h * row <= |from|
      ensures fresh(bmp) && bmp[..] == hd + PadRows(from, row, Padded(row), h)
    {
      var size := ImageSize(row, h);
      bmp := new Byte[OFFSET + size](_ => 0);
      Memcpy(bmp, 0, hd);
      NothingWritten(hd, bmp[..], from, row, Padded(row), size);
      CopyRows(bmp, hd, from, row, Padded(row), h);
    }

    /** How a read that comes to `o` is reported (None for the exception) and what it leaves. */
    ghost predicate Reports(o: Outcome, r: Option<bool>)
      reads this, data
    {
      match o
      case Threw => r == None && width == 0 && height == 0 && data.Length == 0
      case Rejected => r == Some(false) && width == 0 && height == 0 && data.Length == 0
      case Blank(w, h, depth) => r == Some(false) && Value() == Image(w, h, depth, Zeros(h * RowBytes(w, depth)))
      case Loaded(image) => r == Some(true) && Value() == image
    }

    method ReadBmpData(d: seq<Byte>) returns (r: Option<bool>)
      requires Valid()
      modifies this
      ensures Valid() && Reports(Decode(d), r)
    {
      Clear();
      if |d| < OFFSET || d[0] != 0x42 || d[1] != 0x4D {
        return Some(false);
      }
      HeightFits(d);
      var height := FieldAt(d, 22, 4);
      r := ReadImage(d, FieldAt(d, 10, 4), FieldAt(d, 18, 4), AbsHeight(height), FieldAt(d, 28, 2) % 256,
        height >= HALF);
    }

    method ReadImage(d: seq<Byte>, offset: nat, w: nat, h: nat, depth: nat, topDown: bool) returns (r: Option<bool>)
      requires Valid() && width == 0 && height == 0 && data.Length == 0
      modifies this
      ensures Valid() && Reports(DecodeImage(d, offset, w, h, depth, topDown), r)
    {
      var created := Create(w, h, depth);
      if !created {
        return None;
      }
      assert data[..] == Zeros(h * RowBytes(w, depth));
      if |d| < offset {
        return Some(false);
      }
      var success := ReadPixels(d[offset..], topDown);
      if !success {
        Clear();
      }
      return Some(success);
    }

    /** Fills an image of zeros from the pixel data. */
    method ReadPixels(px: seq<Byte>, topDown: bool) returns (success: bool)
      requires Valid() && bits != 0 && data[..] == Zeros(data.Length)
      modifies data
      ensures success <==> DecodePixels(px, width, height, bits, topDown).Loaded?
      ensures success ==> Value() == DecodePixels(px, width, height, bits, topDown).image
    {
      var row := Wrap32(RowBytes(width, bits));
      ghost var missing := Missing(RowBytes(width, bits), height);
      success := FillRows(data, px, row, height, topDown);
    }

    /** Without padding the rows are copied at once, and never turned over. */
    static method FillRows(to: array<Byte>, px: seq<Byte>, row: nat, h: nat, topDown: bool) returns (success: bool)
      requires h * row <= to.Length && to[..] == Zeros(to.Length)
      modifies to
      ensures success <==> RowsFit(|px|, row, Padded(row), h)
      ensures success ==> to[..] == Unpack(px, row, h, topDown) + Zeros(to.Length - h * row)
    {
      var padded := Padded(row);
      if padded == row {
        PlainFits(|px|, row, h);
        success := h * row <= |px|;
        if success {
          Memcpy(to, 0, px[..h * row]);
        }
      } else {
        success := UnpadInto(to, px, row, padded, h, topDown);
        if success {
          AllFilled(px, row, padded, h, to.Length, topDown);
        }
      }
    }

    /** The loop that leaves the padding out, and turns the image over if it is stored top-down. */
    static method UnpadInto(to: array<Byte>, px: seq<Byte>, row: nat, padded: nat, h: nat, topDown: bool)
      returns (success: bool)
      requires row < padded && h * row <= to.Length && to[..] == Zeros(to.Length)
      modifies to
      ensures success <==> RowsFit(|px|, row, padded, h)
      ensures success ==> to[..] == Filled(px, row, padded, h, h, to.Length, topDown)
    {
      success := true;
      var y := 0;
      while y < h && success
        invariant y <= h
        invariant success ==> RowsFit(|px|, row, padded, y)
        invariant success ==> to[..] == Filled(px, row, padded, y, h, to.Length, topDown)
        invariant !success ==> y < h && !RowsFit(|px|, row, padded, y + 1)
        decreases h - y, success
      {
        RowsInside(row, padded, y, h);
        if y * padded + row <= |px| {
          UnpadRow(to, px, row, padded, y, h, topDown);
          y := y + 1;
        } else {
          success := false;
        }
      }
      if !success {
        FitsAll(|px|, row, padded, y + 1, h);
      }
    }

    static method UnpadRow(to: array<Byte>, px: seq<Byte>, row: nat, padded: nat, y: nat, h: nat, topDown: bool)
      requires y < h && h * row <= to.Length && RowsFit(|px|, row, padded, y) && RowsFit(|px|, row, padded, y + 1)
      requires 0 <= y * padded && y * padded + row <= |px|
      requires to[..] == Filled(px, row, padded, y, h, to.Length, topDown)
      modifies to
      ensures to[..] == Filled(px, row, padded, y + 1, h, to.Length, topDown)
    {
      RowPlaced(px, row, padded, y, h, to.Length, topDown);
      var line := if topDown then h - 1 - y else y;
      Memcpy(to, line * row, px[y * padded..y * padded + row]);
    }

    /** The loop over the rows. */
    static method CopyRows(bmp: array<Byte>, ghost hd: seq<Byte>, from: seq<Byte>, row: nat, padded: nat, h: nat)
      requires |hd| == OFFSET && row <= padded && h * row <= |from|
      requires bmp[..] == Written(hd, from, row, padded, 0, padded * h)
      modifies bmp
      ensures bmp[..] == hd + PadRows(from, row, padded, h)
    {
      for y := 0 to h
        invariant 0 <= y * padded <= padded * h && 0 <= y * row <= |from|
        invariant bmp[..] == Written(hd, from, row, padded, y, padded * h)
      {
        CopyRow(bmp, hd, from, row, padded, y, h);
      }
    }

    static method CopyRow(bmp: array<Byte>, ghost hd: seq<Byte>, from: seq<Byte>, row: nat, padded: nat, y: nat, h: nat)
      requires |hd| == OFFSET && row <= padded && y < h && h * row <= |from|
      requires 0 <= y * row <= |from| && 0 <= y * padded <= padded * h
      requires bmp[..] == Written(hd, from, row, padded, y, padded * h)
      modifies bmp
      ensures 0 <= (y + 1) * row <= |from| && 0 <= (y + 1) * padded <= padded * h
      ensures bmp[..] == Written(hd, from, row, padded, y + 1, padded * h)
    {
      RowsInside(row, padded, y, h);
      RowWritten(hd, from, row, padded, y, h);
      Memcpy(bmp, OFFSET + y * padded, from[y * row..y * row + row]);
    }
  }

  /** The file with y rows in place. */
  ghost function Written(hd: seq<Byte>, from: seq<Byte>, row: nat, padded: nat, y: nat, size: nat): (bmp: seq<Byte>)
    requires |hd| == OFFSET && row <= padded && y * row <= |from| && y * padded <= size
    ensures |bmp| == OFFSET + size
  {
    hd + PadRows(from, row, padded, y) + Zeros(size - y * padded)
  }

  lemma NothingWritten(hd: seq<Byte>, bmp: seq<Byte>, from: seq<Byte>, row: nat, padded: nat, size: nat)
    requires |hd| == OFFSET && row <= padded && bmp == hd + Zeros(size)
    ensures bmp == Written(hd, from, row, padded, 0, size)
  {
    assert hd + [] == hd;
  }

  lemma EncodesTo(b: Image, hd: seq<Byte>, row: nat)
    requires b.Valid() && b.data != [] && row == RowBytes(b.width, b.bits)
    requires hd == Header(b.width, b.height, b.bits, ImageSize(row, b.height), OFFSET + ImageSize(row, b.height))
    ensures Encode(b) == hd + PadRows(b.data, row, Padded(row), b.height)
  {
  }

  lemma RowsInside(row: nat, padded: nat, y: nat, h: nat)
    requires y < h
    ensures 0 <= y * row && y * row + row == (y + 1) * row <= h * row
    ensures 0 <= y * padded && y * padded + padded == (y + 1) * padded <= padded * h
  {
    MulGap(y, h, row);
    MulGap(y, h, padded);
  }

  lemma PadStep(from: seq<Byte>, row: nat, padded: nat, y: nat)
    requires row <= padded && 0 <= y * row && y * row + row == (y + 1) * row <= |from|
    ensures PadRows(from, row, padded, y + 1)
      == PadRows(from, row, padded, y) + from[y * row..y * row + row] + Zeros(padded - row)
  {
    assert y + 1 - 1 == y;
  }

  lemma Regroup(a: seq<Byte>, b: seq<Byte>, c: seq<Byte>, d: seq<Byte>)
    ensures a + (b + c + d) == a + b + c + d
  {
  }

  lemma RowWritten(hd: seq<Byte>, from: seq<Byte>, row: nat, padded: nat, y: nat, h: nat)
    requires |hd| == OFFSET && row <= padded && y < h && h * row <= |from|
    requires 0 <= y * row && y * row + row == (y + 1) * row <= h * row
    requires 0 <= y * padded && y * padded + padded == (y + 1) * padded <= padded * h
    ensures var (before, at) := (Written(hd, from, row, padded, y, padded * h), OFFSET + y * padded);
      before[..at] + from[y * row..y * row + row] + before[at + row..] ==
        Written(hd, from, row, padded, y + 1, padded * h)
  {
    var done, piece, zeros := PadRows(from, row, padded, y), from[y * row..y * row + row], Zeros(padded - row);
    OverZeros(hd + done, piece, padded - row, padded * h - y * padded);
    PadStep(from, row, padded, y);
    Regroup(hd, done, piece, zeros);
  }

  lemma OverZeros(front: seq<Byte>, piece: seq<Byte>, gap: nat, n: nat)
    requires |piece| + gap <= n
    ensures var before := front + Zeros(n);
      before[..|front|] + piece + before[|front| + |piece|..] == front + piece + Zeros(gap) + Zeros(n - |piece| - gap)
  {
  }

  lemma PlainFits(n: nat, row: nat, h: nat)
    ensures RowsFit(n, row, row, h) <==> h * row <= n
  {
    if h > 0 {
      RowFits(h, row);
    }
  }

  /** The buffer after y rows: from the front, or from the back if the image is stored top-down. */
  ghost function Filled(px: seq<Byte>, row: nat, padded: nat, y: nat, h: nat, n: nat, topDown: bool): (to: seq<Byte>)
    requires y <= h && h * row <= n && RowsFit(|px|, row, padded, y)
    ensures |to| == n
  {
    FewerRows(y, h, row);
    if topDown then Zeros(h * row - y * row) + UnpadFlipped(px, row, padded, y) + Zeros(n - h * row)
    else UnpadRows(px, row, padded, y) + Zeros(n - y * row)
  }

  lemma FewerRows(y: nat, h: nat, row: nat)
    requires y <= h
    ensures 0 <= y * row <= h * row
  {
    if y < h {
      MulGap(y, h, row);
    }
  }

  lemma {:induction false} FitsAll(n: nat, row: nat, padded: nat, y: nat, h: nat)
    requires y <= h
    ensures RowsFit(n, row, padded, h) ==> RowsFit(n, row, padded, y)
    decreases h - y
  {
    if y < h && RowsFit(n, row, padded, h) {
      FewerFit(n, row, padded, h);
      FitsAll(n, row, padded, y, h - 1);
    }
  }

  lemma UnpadStep(px: seq<Byte>, row: nat, padded: nat, y: nat)
    requires RowsFit(|px|, row, padded, y) && RowsFit(|px|, row, padded, y + 1) && 0 <= y * padded &&
      y * padded + row <= |px|
    ensures var piece := px[y * padded..y * padded + row];
      && UnpadRows(px, row, padded, y + 1) == UnpadRows(px, row, padded, y) + piece
      && UnpadFlipped(px, row, padded, y + 1) == piece + UnpadFlipped(px, row, padded, y)
  {
    assert y + 1 - 1 == y;
  }

  lemma UnderZeros(front: nat, piece: seq<Byte>, back: seq<Byte>)
    ensures var before := Zeros(front + |piece|) + back;
      before[..front] + piece + before[front + |piece|..] == Zeros(front) + (piece + back)
  {
  }

  lemma FrontStep(px: seq<Byte>, row: nat, padded: nat, y: nat, h: nat, n: nat)
    requires y < h && h * row <= n && RowsFit(|px|, row, padded, y) && RowsFit(|px|, row, padded, y + 1)
    requires 0 <= y * padded && y * padded + row <= |px| && y * row + row == (y + 1) * row <= h * row
    ensures var (at, piece) := (y * row, px[y * padded..y * padded + row]);
      && 0 <= at && at + row <= n
      && var before := Filled(px, row, padded, y, h, n, false);
        before[..at] + piece + before[at + row..] == Filled(px, row, padded, y + 1, h, n, false)
  {
    UnpadStep(px, row, padded, y);
    FewerRows(y, h, row);
    OverZeros(UnpadRows(px, row, padded, y), px[y * padded..y * padded + row], 0, n - y * row);
    var front := UnpadRows(px, row, padded, y + 1);
    assert front + Zeros(0) == front;
  }

  lemma FilledBack(px: seq<Byte>, row: nat, padded: nat, y: nat, h: nat, n: nat, blank: nat)
    requires y <= h && h * row <= n && RowsFit(|px|, row, padded, y) && blank == h * row - y * row
    ensures Filled(px, row, padded, y, h, n, true) ==
      Zeros(blank) + UnpadFlipped(px, row, padded, y) + Zeros(n - h * row)
  {
  }

  lemma BackStep(px: seq<Byte>, row: nat, padded: nat, y: nat, h: nat, n: nat)
    requires y < h && h * row <= n && RowsFit(|px|, row, padded, y) && RowsFit(|px|, row, padded, y + 1)
    requires 0 <= y * padded && y * padded + row <= |px| && y * row + row == (y + 1) * row <= h * row
    ensures var (at, piece) := ((h - 1 - y) * row, px[y * padded..y * padded + row]);
      && 0 <= at && at + row <= n
      && var before := Filled(px, row, padded, y, h, n, true);
        before[..at] + piece + before[at + row..] == Filled(px, row, padded, y + 1, h, n, true)
  {
    Reversed(row, y, h);
    var at, piece := (h - 1 - y) * row, px[y * padded..y * padded + row];
    FilledBack(px, row, padded, y, h, n, at + row);
    FilledBack(px, row, padded, y + 1, h, n, at);
    UnpadStep(px, row, padded, y);
    PutBefore(at, piece, UnpadFlipped(px, row, padded, y), Zeros(n - h * row));
  }

  lemma RowPlaced(px: seq<Byte>, row: nat, padded: nat, y: nat, h: nat, n: nat, topDown: bool)
    requires y < h && h * row <= n && RowsFit(|px|, row, padded, y) && RowsFit(|px|, row, padded, y + 1)
    requires 0 <= y * padded && y * padded + row <= |px|
    ensures var (at, piece) := ((if topDown then h - 1 - y else y) * row, px[y * padded..y * padded + row]);
      && 0 <= at && at + row <= n
      && var before := Filled(px, row, padded, y, h, n, topDown);
        before[..at] + piece + before[at + row..] == Filled(px, row, padded, y + 1, h, n, topDown)
  {
    RowsInside(row, padded, y, h);
    if topDown {
      BackStep(px, row, padded, y, h, n);
    } else {
      FrontStep(px, row, padded, y, h, n);
    }
  }

  lemma PutBefore(at: nat, piece: seq<Byte>, flipped: seq<Byte>, rest: seq<Byte>)
    ensures var before := Zeros(at + |piece|) + flipped + rest;
      before[..at] + piece + before[at + |piece|..] == Zeros(at) + (piece + flipped) + rest
  {
    UnderZeros(at, piece, flipped + rest);
    Regroup3(Zeros(at + |piece|), flipped, rest);
    Regroup4(Zeros(at), piece, flipped, rest);
  }

  lemma Reversed(row: nat, y: nat, h: nat)
    requires y < h
    ensures 0 <= (h - 1 - y) * row && (h - 1 - y) * row + row == h * row - y * row
    ensures h * row - (y + 1) * row == (h - 1 - y) * row
  {
  }

  lemma Regroup3(a: seq<Byte>, b: seq<Byte>, c: seq<Byte>)
    ensures a + b + c == a + (b + c)
  {
  }

  lemma Regroup4(a: seq<Byte>, b: seq<Byte>, c: seq<Byte>, d: seq<Byte>)
    ensures a + (b + c) + d == a + (b + (c + d))
  {
  }

  lemma AllFilled(px: seq<Byte>, row: nat, padded: nat, h: nat, n: nat, topDown: bool)
    requires h * row <= n && RowsFit(|px|, row, padded, h)
    ensures Filled(px, row, padded, h, h, n, topDown)
      == (if topDown then UnpadFlipped(px, row, padded, h) else UnpadRows(px, row, padded, h)) + Zeros(n - h * row)
  {
    assert Zeros(0) == [];
  }
}
