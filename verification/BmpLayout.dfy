/** Where every pixel is: in the image's bytes, in the file written from it, and in a file read. */
module BmpLayout {
  import opened Arith
  import opened Basics
  import opened BmpFormat
  import opened Bitmaps
  import opened LittleEndian

  // ---- rows ----

  lemma RowBefore(y: nat, h: nat, row: nat)
    requires y < h
    ensures 0 <= y * row && y * row + row <= h * row
  {
    MulGap(y, h, row);
  }

  /** Row y of the padded rows is row y of the data, and zeros. */
  lemma {:induction false} PaddedRow(data: seq<Byte>, row: nat, padded: nat, h: nat, y: nat, to: int, from: int)
    requires row <= padded && h * row <= |data| && y < h && to == y * padded && from == y * row
    ensures 0 <= from && from + row <= |data| && 0 <= to && to + padded <= |PadRows(data, row, padded, h)|
    ensures PadRows(data, row, padded, h)[to..to + row] == data[from..from + row]
    ensures PadRows(data, row, padded, h)[to + row..to + padded] == Zeros(padded - row)
  {
    RowBefore(y, h, row);
    var before, last, zeros := LastPadded(data, row, padded, h);
    if y < h - 1 {
      PaddedRow(data, row, padded, h - 1, y, to, from);
      InFront(before, last + zeros, to, row, padded);
      assert before + last + zeros == before + (last + zeros);
    } else {
      assert to == |before|;
      AtEnd(before, last, zeros);
    }
  }

  lemma LastPadded(data: seq<Byte>, row: nat, padded: nat, h: nat)
    returns (before: seq<Byte>, last: seq<Byte>, zeros: seq<Byte>)
    requires row <= padded && h * row <= |data| && h > 0
    ensures 0 <= (h - 1) * row && (h - 1) * row + row <= |data| && last == data[(h - 1) * row..(h - 1) * row + row]
    ensures before == PadRows(data, row, padded, h - 1) && |before| == (h - 1) * padded
    ensures zeros == Zeros(padded - row) && |last| == row
    ensures PadRows(data, row, padded, h) == before + last + zeros
  {
    RowFits(h, row);
    before := PadRows(data, row, padded, h - 1);
    last, zeros := data[(h - 1) * row..(h - 1) * row + row], Zeros(padded - row);
  }

  lemma InFront(a: seq<Byte>, b: seq<Byte>, at: nat, n: nat, m: nat)
    requires n <= m && at + m <= |a|
    ensures (a + b)[at..at + n] == a[at..at + n] && (a + b)[at + n..at + m] == a[at + n..at + m]
  {
  }

  lemma AtEnd(a: seq<Byte>, b: seq<Byte>, c: seq<Byte>)
    ensures (a + b + c)[|a|..|a| + |b|] == b && (a + b + c)[|a| + |b|..|a| + |b| + |c|] == c
  {
  }

  /** The same the other way: row y of the unpadded rows, and of the flipped ones. */
  lemma {:induction false} UnpaddedRow(px: seq<Byte>, row: nat, padded: nat, h: nat, y: nat, to: int, from: int)
    requires RowsFit(|px|, row, padded, h) && y < h && row <= padded && to == y * row && from == y * padded
    ensures 0 <= to && to + row <= h * row && 0 <= from && from + row <= |px|
    ensures UnpadRows(px, row, padded, h)[to..to + row] == px[from..from + row]
  {
    RowBefore(y, h, row);
    RowStart(padded, h);
    FewerFit(|px|, row, padded, h);
    RowFits(h, row);
    var before := UnpadRows(px, row, padded, h - 1);
    var last := px[(h - 1) * padded..(h - 1) * padded + row];
    if y < h - 1 {
      UnpaddedRow(px, row, padded, h - 1, y, to, from);
      InFront(before, last, to, row, row);
    } else {
      AtEnd(before, last, []);
      assert before + last + [] == before + last;
    }
  }

  lemma {:induction false} FlippedRow(px: seq<Byte>, row: nat, padded: nat, h: nat, y: nat, to: int, from: int)
    requires RowsFit(|px|, row, padded, h) && y < h && row <= padded && to == y * row && from == (h - 1 - y) * padded
    ensures 0 <= to && to + row <= h * row && 0 <= from && from + row <= |px|
    ensures UnpadFlipped(px, row, padded, h)[to..to + row] == px[from..from + row]
  {
    RowBefore(y, h, row);
    var first, rest := FirstFlipped(px, row, padded, h);
    if y > 0 {
      RowFits(y, row);
      FewerFit(|px|, row, padded, h);
      FlippedRow(px, row, padded, h - 1, y - 1, to - row, from);
      Behind(first, rest, to, to + row);
    } else {
      Front(first, rest);
    }
  }

  lemma FirstFlipped(px: seq<Byte>, row: nat, padded: nat, h: nat) returns (first: seq<Byte>, rest: seq<Byte>)
    requires RowsFit(|px|, row, padded, h) && h > 0
    ensures 0 <= (h - 1) * padded && (h - 1) * padded + row <= |px| && |first| == row
    ensures first == px[(h - 1) * padded..(h - 1) * padded + row]
    ensures RowsFit(|px|, row, padded, h - 1) && rest == UnpadFlipped(px, row, padded, h - 1)
    ensures UnpadFlipped(px, row, padded, h) == first + rest
  {
    RowStart(padded, h);
    FewerFit(|px|, row, padded, h);
    first := px[(h - 1) * padded..(h - 1) * padded + row];
    rest := UnpadFlipped(px, row, padded, h - 1);
  }

  // ---- pixels ----

  /** The k bytes from `at` on hold the number n. */
  ghost predicate Holds(s: seq<Byte>, at: int, k: nat, n: nat) {
    0 <= at && at + k <= |s| && FromLittle(s[at..at + k]) == n
  }

  /** The pixel in column x of line y is the little-endian number in the bits / 8 bytes from
      (y * width + x) * (bits / 8) on. */
  lemma PixelIsAt(data: seq<Byte>, width: nat, height: nat, bits: nat, x: nat, y: nat, at: int)
    requires |data| == height * RowBytes(width, bits) && x < width && y < height && bits / 8 > 0
    requires at == (y * width + x) * (bits / 8)
    ensures Holds(data, at, bits / 8, Pixel(data, width, height, bits, x, y))
  {
    PixelInside(width, height, bits, x, y);
  }

  lemma SubSlice(s: seq<Byte>, at: nat, n: nat, i: nat, k: nat)
    requires at + n <= |s| && i + k <= n
    ensures s[at..at + n][i..i + k] == s[at + i..at + i + k]
  {
    var piece := s[at..at + n];
    var a, b := piece[i..i + k], s[at + i..at + i + k];
    forall j | 0 <= j < k ensures a[j] == b[j] {
      assert a[j] == piece[i + j];
    }
    assert a == b;
  }

  /** A piece of a piece. */
  lemma Within(s: seq<Byte>, t: seq<Byte>, at: nat, from: nat, n: nat, i: nat, k: nat)
    requires at + n <= |s| && from + n <= |t| && s[at..at + n] == t[from..from + n] && i + k <= n
    ensures s[at + i..at + i + k] == t[from + i..from + i + k]
  {
    SubSlice(s, at, n, i, k);
    SubSlice(t, from, n, i, k);
  }

  lemma InRow(width: nat, d: nat, x: nat, y: nat)
    requires x < width
    ensures 0 <= x * d && x * d + d <= width * d && (y * width + x) * d == y * (width * d) + x * d
  {
    MulGap(x, width, d);
    assert y * width * d == y * (width * d);
  }

  /** Line y of the image in the file: its bytes, then zeros up to a multiple of four. */
  lemma LineInFile(b: Image, y: nat, row: nat, at: int, from: int)
    requires b.Valid() && b.data != [] && y < b.height && row == RowBytes(b.width, b.bits)
    requires at == 54 + y * Padded(row) && from == y * row
    ensures 0 <= from && from + row <= |b.data| && 54 <= at && at + Padded(row) <= |Encode(b)|
    ensures Encode(b)[at..at + row] == b.data[from..from + row]
    ensures Encode(b)[at + row..at + Padded(row)] == Zeros(Padded(row) - row)
  {
    var hd := HeaderOf(b, row);
    LineBehind(Encode(b), hd, b.data, row, Padded(row), b.height, y, at, from);
  }

  lemma HeaderOf(b: Image, row: nat) returns (hd: seq<Byte>)
    requires b.Valid() && b.data != [] && row == RowBytes(b.width, b.bits)
    ensures |hd| == 54 && row <= Padded(row) && |b.data| == b.height * row
    ensures Encode(b) == hd + PadRows(b.data, row, Padded(row), b.height)
  {
    hd := EncodedIs(b);
  }

  lemma LineBehind(file: seq<Byte>, hd: seq<Byte>, data: seq<Byte>, row: nat, padded: nat, h: nat, y: nat,
                   at: int, from: int)
    requires |hd| == 54 && row <= padded && h * row <= |data| && file == hd + PadRows(data, row, padded, h)
    requires y < h && at == 54 + y * padded && from == y * row
    ensures 0 <= from && from + row <= |data| && 54 <= at && at + padded <= |file|
    ensures file[at..at + row] == data[from..from + row]
    ensures file[at + row..at + padded] == Zeros(padded - row)
  {
    var rows := PadRows(data, row, padded, h);
    PaddedRow(data, row, padded, h, y, at - 54, from);
    Behind(hd, rows, at, at + row);
    Behind(hd, rows, at + row, at + padded);
  }

  /** Where the pixel in column x of line y is in the file: behind 54 bytes of headers, in rows padded to a
      multiple of four bytes. */
  function FilePlace(b: Image, x: nat, y: nat): int {
    var d := b.bits / 8;
    54 + y * ((b.width * d + 3) / 4 * 4) + x * d
  }

  lemma PixelOfLine(s: seq<Byte>, data: seq<Byte>, start: nat, line: nat, row: nat, i: nat, d: nat,
                    at: int, from: int, n: nat)
    requires start + row <= |s| && line + row <= |data| && s[start..start + row] == data[line..line + row]
    requires i + d <= row && at == start + i && from == line + i && Holds(data, from, d, n)
    ensures Holds(s, at, d, n)
  {
    Within(s, data, start, line, row, i, d);
  }

  lemma Places(b: Image, x: nat, y: nat, row: nat)
    requires x < b.width && row == RowBytes(b.width, b.bits)
    ensures var d := b.bits / 8;
      && FilePlace(b, x, y) == 54 + y * Padded(row) + x * d && (y * b.width + x) * d == y * row + x * d
      && 0 <= x * d && x * d + d <= row
  {
    InRow(b.width, b.bits / 8, x, y);
  }

  /** In the file written from an image, each pixel is at its place. */
  lemma PixelInFile(b: Image, x: nat, y: nat)
    requires b.Valid() && x < b.width && y < b.height
    ensures Holds(Encode(b), FilePlace(b, x, y), b.bits / 8, PixelOf(b, x, y))
  {
    var d, row := b.bits / 8, RowBytes(b.width, b.bits);
    var start, line, i := 54 + y * Padded(row), y * row, x * d;
    var at, from, n := FilePlace(b, x, y), (y * b.width + x) * d, Pixel(b.data, b.width, b.height, b.bits, x, y);
    PixelIsAt(b.data, b.width, b.height, b.bits, x, y, from);
    LineInFile(b, y, row, start, line);
    Places(b, x, y, row);
    PixelOfLine(Encode(b), b.data, start, line, row, i, d, at, from, n);
  }

  /** The image after Set. */
  function Drawn(b: Image, x: nat, y: nat, value: nat): (c: Image)
    requires b.Valid() && x < b.width && y < b.height
    ensures c.Valid() && c.width == b.width && c.height == b.height && c.bits == b.bits
  {
    b.(data := WithPixel(b.data, b.width, b.height, b.bits, x, y, value))
  }

  function PixelOf(b: Image, x: nat, y: nat): nat
    requires b.Valid() && x < b.width && y < b.height
  {
    Pixel(b.data, b.width, b.height, b.bits, x, y)
  }

  lemma DrawnPixel(b: Image, x: nat, y: nat, value: nat, x': nat, y': nat)
    requires b.Valid() && x < b.width && y < b.height && x' < b.width && y' < b.height
    ensures PixelOf(Drawn(b, x, y, value), x', y')
      == if x' == x && y' == y then value % Power(b.bits / 8) else PixelOf(b, x', y')
  {
    SetChangesOnePixel(b.data, b.width, b.height, b.bits, x, y, value, x', y');
  }

  /** From Set to the file: the place of the pixel holds the colour, that of any other what it held. */
  lemma SetInFile(b: Image, x: nat, y: nat, value: nat, x': nat, y': nat)
    requires b.Valid() && x < b.width && y < b.height && x' < b.width && y' < b.height
    ensures Holds(Encode(Drawn(b, x, y, value)), FilePlace(b, x', y'), b.bits / 8,
                  if x' == x && y' == y then value % Power(b.bits / 8) else PixelOf(b, x', y'))
  {
    var c := Drawn(b, x, y, value);
    PixelInFile(c, x', y');
    DrawnPixel(b, x, y, value, x', y');
    assert FilePlace(c, x', y') == FilePlace(b, x', y');
  }

  // ---- the header ----

  /** The number in the k bytes from `at` on. */
  function Number(s: seq<Byte>, at: nat, k: nat): nat
    requires at + k <= |s|
  {
    FromLittle(s[at..at + k])
  }

  lemma {:induction false} ZerosAreZero(s: seq<Byte>)
    requires forall i :: 0 <= i < |s| ==> s[i] == 0
    ensures FromLittle(s) == 0
  {
    if s != [] {
      ZerosAreZero(s[1..]);
    }
  }

  /** One field further: `a` is what comes before it, `g` and `more` what follows. */
  lemma Next(s: seq<Byte>, a: seq<Byte>, f: seq<Byte>, g: seq<Byte>, more: seq<Byte>) returns (a': seq<Byte>)
    requires s == a + ((f + g) + more)
    ensures |a'| == |a| + |f| && a' == a + f && |s| >= |a'| && s[|a|..|a'|] == f && s == a' + (g + more)
  {
    a' := a + f;
    assert a + ((f + g) + more) == a' + (g + more);
    assert s[..|a'|] == a';
  }

  lemma LeftToRight(a: seq<Byte>, b: seq<Byte>, c: seq<Byte>, d: seq<Byte>, e: seq<Byte>, f: seq<Byte>)
    ensures a + b + c + d + e + f == a + (b + (c + (d + (e + f))))
  {
    assert d + e + f == d + (e + f);
    assert a + b + c + d + e + f == a + b + c + (d + e + f);
    assert b + c + (d + e + f) == b + (c + (d + e + f));
    assert a + b + c + (d + e + f) == a + (b + c + (d + e + f));
  }

  lemma NumberOf(s: seq<Byte>, at: nat, k: nat, n: nat)
    requires k <= 8 && at + k <= |s| && s[at..at + k] == Little(n, k)
    ensures Number(s, at, k) == n % Power(k)
  {
    FieldHolds(n, k);
  }

  /** The info header from the number of planes on. */
  ghost predicate PlanesAt(s: seq<Byte>, at: nat, bits: nat, imageSize: nat)
    requires at + 28 <= |s|
  {
    && Number(s, at, 2) == 1
    && Number(s, at + 2, 2) == bits % 0x1_0000
    && Number(s, at + 4, 4) == 0
    && Number(s, at + 8, 4) == imageSize % 0x1_0000_0000
    && Number(s, at + 12, 4) == 4875
    && Number(s, at + 16, 4) == 4875
    && Number(s, at + 20, 4) == 0
    && Number(s, at + 24, 4) == 0
  }

  lemma EightFields(s: seq<Byte>, a: seq<Byte>, f1: seq<Byte>, f2: seq<Byte>, f3: seq<Byte>, f4: seq<Byte>,
                    f5: seq<Byte>, f6: seq<Byte>, f7: seq<Byte>, f8: seq<Byte>, more: seq<Byte>)
    requires |f1| == |f2| == 2 && |f3| == |f4| == |f5| == |f6| == |f7| == |f8| == 4
    requires s == a + ((f1 + (f2 + (f3 + f4 + f5 + f6 + f7 + f8))) + more)
    ensures var at := |a|;
      && |s| >= at + 28
      && s[at..at + 2] == f1 && s[at + 2..at + 4] == f2 && s[at + 4..at + 8] == f3 && s[at + 8..at + 12] == f4
      && s[at + 12..at + 16] == f5 && s[at + 16..at + 20] == f6 && s[at + 20..at + 24] == f7
      && s[at + 24..at + 28] == f8
  {
    LeftToRight(f3, f4, f5, f6, f7, f8);
    var a1 := Next(s, a, f1, f2 + (f3 + (f4 + (f5 + (f6 + (f7 + f8))))), more);
    var a2 := Next(s, a1, f2, f3 + (f4 + (f5 + (f6 + (f7 + f8)))), more);
    var a3 := Next(s, a2, f3, f4 + (f5 + (f6 + (f7 + f8))), more);
    var a4 := Next(s, a3, f4, f5 + (f6 + (f7 + f8)), more);
    var a5 := Next(s, a4, f5, f6 + (f7 + f8), more);
    var a6 := Next(s, a5, f6, f7 + f8, more);
    var a7 := Next(s, a6, f7, f8, more);
    assert s[|a7|..|a7| + 4] == f8;
  }

  ghost predicate PlaneBytes(s: seq<Byte>, at: nat, bits: nat, imageSize: nat)
    requires at + 28 <= |s|
  {
    && s[at..at + 2] == Little(1, 2) && s[at + 2..at + 4] == Little(bits, 2) && s[at + 4..at + 8] == Little(0, 4)
    && s[at + 8..at + 12] == Little(imageSize, 4) && s[at + 12..at + 16] == Little(0x130B, 4)
    && s[at + 16..at + 20] == Little(0x130B, 4) && s[at + 20..at + 24] == Little(0, 4)
    && s[at + 24..at + 28] == Little(0, 4)
  }

  lemma PlaneNumbers(s: seq<Byte>, at: nat, bits: nat, imageSize: nat)
    requires at + 28 <= |s| && PlaneBytes(s, at, bits, imageSize)
    ensures PlanesAt(s, at, bits, imageSize)
  {
    NumberOf(s, at, 2, 1);
    NumberOf(s, at + 2, 2, bits);
    NumberOf(s, at + 4, 4, 0);
    NumberOf(s, at + 8, 4, imageSize);
    NumberOf(s, at + 12, 4, 0x130B);
    NumberOf(s, at + 16, 4, 0x130B);
    NumberOf(s, at + 20, 4, 0);
    NumberOf(s, at + 24, 4, 0);
  }

  lemma PlanesFields(s: seq<Byte>, a: seq<Byte>, bits: nat, imageSize: nat, more: seq<Byte>)
    requires s == a + (Planes(bits, imageSize) + more)
    ensures |s| >= |a| + 28 && PlaneBytes(s, |a|, bits, imageSize)
  {
    var zero, dense := Little(0, 4), Little(0x130B, 4);
    EightFields(s, a, Little(1, 2), Little(bits, 2), zero, Little(imageSize, 4), dense, dense, zero, zero, more);
  }

  lemma SixFields(s: seq<Byte>, f0: seq<Byte>, f1: seq<Byte>, f2: seq<Byte>, f3: seq<Byte>, f4: seq<Byte>,
                  f5: seq<Byte>, f6: seq<Byte>, rest: seq<Byte>, more: seq<Byte>) returns (a: seq<Byte>)
    requires |f0| == 2 && |f1| == |f2| == |f3| == |f4| == |f5| == |f6| == 4
    requires s == (f0 + f1 + f2) + (f3 + (f4 + (f5 + (f6 + rest)))) + more
    ensures |a| == 26 && s == a + (rest + more)
    ensures s[0..2] == f0 && s[2..6] == f1 && s[6..10] == f2 && s[10..14] == f3 && s[14..18] == f4 && s[18..22] == f5
    ensures s[22..26] == f6
  {
    var tail := f3 + (f4 + (f5 + (f6 + rest)));
    assert s == [] + ((f0 + (f1 + (f2 + tail))) + more);
    var a0 := Next(s, [], f0, f1 + (f2 + tail), more);
    var a1 := Next(s, a0, f1, f2 + tail, more);
    var a2 := Next(s, a1, f2, tail, more);
    var a3 := Next(s, a2, f3, f4 + (f5 + (f6 + rest)), more);
    var a4 := Next(s, a3, f4, f5 + (f6 + rest), more);
    var a5 := Next(s, a4, f5, f6 + rest, more);
    a := Next(s, a5, f6, rest, more);
  }

  lemma HeaderStart(s: seq<Byte>, width: nat, height: nat, bits: nat, imageSize: nat, fileSize: nat, more: seq<Byte>)
    requires s == Header(width, height, bits, imageSize, fileSize) + more
    ensures |s| >= 54 && s[0] == 0x42 && s[1] == 0x4D
    ensures Number(s, 2, 4) == fileSize % 0x1_0000_0000 && Number(s, 6, 4) == 0 && Number(s, 10, 4) == 54
    ensures Number(s, 14, 4) == 40
    ensures Number(s, 18, 4) == width % 0x1_0000_0000 && Number(s, 22, 4) == height % 0x1_0000_0000
    ensures PlanesAt(s, 26, bits, imageSize)
  {
    var a := SixFields(s, [0x42, 0x4D], Little(fileSize, 4), Little(0, 4), Little(OFFSET, 4), Little(40, 4),
                       Little(width, 4), Little(height, 4), Planes(bits, imageSize), more);
    assert s[0] == s[0..2][0] && s[1] == s[0..2][1];
    NumberOf(s, 2, 4, fileSize);
    NumberOf(s, 6, 4, 0);
    NumberOf(s, 10, 4, OFFSET);
    NumberOf(s, 14, 4, 40);
    NumberOf(s, 18, 4, width);
    NumberOf(s, 22, 4, height);
    PlanesFields(s, a, bits, imageSize, more);
    PlaneNumbers(s, 26, bits, imageSize);
  }

  /** Every field of the two headers, at its place; the file size is that of the file, and the resolution the
      code writes is 0x130B, not the 2835 of its comment. */
  lemma HeaderIsAt(b: Image)
    requires b.Valid() && b.data != []
    ensures var s := Encode(b);
      && |s| >= 54 && s[0] == 'B' as int && s[1] == 'M' as int
      && Number(s, 2, 4) == |s| % 0x1_0000_0000
      && Number(s, 6, 4) == 0
      && Number(s, 10, 4) == 54
      && Number(s, 14, 4) == 40
      && Number(s, 18, 4) == b.width % 0x1_0000_0000
      && Number(s, 22, 4) == b.height % 0x1_0000_0000
      && PlanesAt(s, 26, b.bits, |s| - 54)
  {
    var n := EncodedAs(b);
    var row := RowBytes(b.width, b.bits);
    HeaderStart(Encode(b), b.width, b.height, b.bits, n, 54 + n, PadRows(b.data, row, Padded(row), b.height));
  }

  lemma EncodedAs(b: Image) returns (n: nat)
    requires b.Valid() && b.data != []
    ensures var row := RowBytes(b.width, b.bits); var rows := PadRows(b.data, row, Padded(row), b.height);
      n == |rows| && Encode(b) == Header(b.width, b.height, b.bits, n, 54 + n) + rows
    ensures |Encode(b)| == 54 + n
  {
    var row := RowBytes(b.width, b.bits);
    n := b.height * Padded(row);
    assert n == ImageSize(row, b.height);
  }

  // ---- a file read ----

  /** A file that is read: its size and depth as the header gives them, its lines from the bytes the header
      points to. */
  lemma ReadAs(d: seq<Byte>)
    requires Decode(d).Loaded?
    ensures var b, raw := Decode(d).image, Number(d, 22, 4);
      && b.width == Number(d, 18, 4) && b.height == (if raw >= 0x8000_0000 then 0x1_0000_0000 - raw else raw)
      && b.bits == Number(d, 28, 2) % 256 && (b.bits == 24 || b.bits == 32)
      && Number(d, 10, 4) <= |d|
      && Decode(d) == DecodePixels(d[Number(d, 10, 4)..], b.width, b.height, b.bits, raw >= 0x8000_0000)
  {
    HeightFits(d);
    var offset, width, height, bits := FieldAt(d, 10, 4), FieldAt(d, 18, 4), FieldAt(d, 22, 4), FieldAt(d, 28, 2) % 256;
    assert Decode(d) == DecodeImage(d, offset, width, AbsHeight(height), bits, height >= HALF);
    LoadedAs(d, offset, width, AbsHeight(height), bits, height >= HALF);
  }

  lemma LoadedAs(d: seq<Byte>, offset: nat, width: nat, h: nat, bits: nat, topDown: bool)
    requires DecodeImage(d, offset, width, h, bits, topDown).Loaded?
    ensures var o := DecodeImage(d, offset, width, h, bits, topDown);
      && o.image.width == width && o.image.height == h && o.image.bits == bits && (bits == 24 || bits == 32)
      && offset <= |d| && o == DecodePixels(d[offset..], width, h, bits, topDown)
  {
  }

  /** Where line y of the image comes from. Where rows are padded a negative height turns the lines around;
      where they are not, it does not. */
  function LineStart(d: seq<Byte>, b: Image, y: nat): int
    requires |d| >= 54
  {
    var row := b.width * (b.bits / 8);
    var padded := (row + 3) / 4 * 4;
    Number(d, 10, 4) + (if Number(d, 22, 4) >= 0x8000_0000 && padded != row then b.height - 1 - y else y) * padded
  }

  /** Every line of an image read is the line of the file it comes from. */
  lemma LineFromFile(d: seq<Byte>, y: nat, row: nat, to: int, from: int)
    requires Decode(d).Loaded? && y < Decode(d).image.height
    requires row == Decode(d).image.width * (Decode(d).image.bits / 8) < 0x1_0000_0000
    requires to == y * row && from == LineStart(d, Decode(d).image, y)
    ensures 0 <= to && to + row <= |Decode(d).image.data| && 0 <= from && from + row <= |d|
    ensures Decode(d).image.data[to..to + row] == d[from..from + row]
  {
    var b, offset, topDown := Decode(d).image, Number(d, 10, 4), Number(d, 22, 4) >= 0x8000_0000;
    ReadAs(d);
    assert from - offset == LineOf(b.height, row, topDown, y) * Padded(row);
    LineOfPixels(d[offset..], b.width, b.height, b.bits, topDown, y, row, to, from - offset);
    Dropped(d, offset, from - offset, from - offset + row);
  }

  lemma Dropped(s: seq<Byte>, n: nat, i: nat, j: nat)
    requires n <= |s| && i <= j <= |s| - n
    ensures s[n..][i..j] == s[n + i..n + j]
  {
  }

  /** The line of the padded rows that line y comes from. */
  function LineOf(h: nat, row: nat, topDown: bool, y: nat): int {
    if topDown && Padded(row) != row then h - 1 - y else y
  }

  lemma UnpackedLine(px: seq<Byte>, row: nat, h: nat, topDown: bool, y: nat, to: int, from: int)
    requires RowsFit(|px|, row, Padded(row), h) && y < h
    requires to == y * row && from == LineOf(h, row, topDown, y) * Padded(row)
    ensures 0 <= to && to + row <= h * row && 0 <= from && from + row <= |px|
    ensures Unpack(px, row, h, topDown)[to..to + row] == px[from..from + row]
  {
    if Padded(row) == row {
      PlainLine(px, row, h, y, to);
    } else if topDown {
      FlippedRow(px, row, Padded(row), h, y, to, from);
    } else {
      UnpaddedRow(px, row, Padded(row), h, y, to, from);
    }
  }

  lemma PlainLine(px: seq<Byte>, row: nat, h: nat, y: nat, at: int)
    requires RowsFit(|px|, row, row, h) && y < h && at == y * row
    ensures 0 <= h * row <= |px| && 0 <= at && at + row <= h * row
    ensures px[..h * row][at..at + row] == px[at..at + row]
  {
    UnpackedFits(|px|, row, h);
    RowBefore(y, h, row);
  }

  lemma LineOfPixels(px: seq<Byte>, width: nat, h: nat, bits: nat, topDown: bool, y: nat, row: nat, to: int, from: int)
    requires y < h && row == RowBytes(width, bits) < 0x1_0000_0000 && DecodePixels(px, width, h, bits, topDown).Loaded?
    requires to == y * row && from == LineOf(h, row, topDown, y) * Padded(row)
    ensures var data := DecodePixels(px, width, h, bits, topDown).image.data;
      && 0 <= to && to + row <= |data| && 0 <= from && from + row <= |px|
      && data[to..to + row] == px[from..from + row]
  {
    var lines, zeros := LoadedLines(px, width, h, bits, topDown, row);
    UnpackedLine(px, row, h, topDown, y, to, from);
    InFront(lines, zeros, to, row, row);
  }

  lemma UnpackShort(px: seq<Byte>, row: nat, short: nat, h: nat, topDown: bool)
    requires short == row && RowsFit(|px|, short, Padded(short), h)
    ensures RowsFit(|px|, row, Padded(row), h) && Unpack(px, short, h, topDown) == Unpack(px, row, h, topDown)
  {
  }

  lemma LoadedLines(px: seq<Byte>, width: nat, h: nat, bits: nat, topDown: bool, row: nat)
    returns (lines: seq<Byte>, zeros: seq<Byte>)
    requires row == RowBytes(width, bits) < 0x1_0000_0000 && DecodePixels(px, width, h, bits, topDown).Loaded?
    ensures RowsFit(|px|, row, Padded(row), h) && lines == Unpack(px, row, h, topDown)
    ensures DecodePixels(px, width, h, bits, topDown).image.data == lines + zeros
  {
    var short := Wrap32(RowBytes(width, bits));
    UnpackShort(px, row, short, h, topDown);
    lines, zeros := Unpack(px, short, h, topDown), Zeros(Missing(RowBytes(width, bits), h));
  }
}
