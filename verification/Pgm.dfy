/** The PGM writer of the summary tool and the two readers: the raster tool's split and the C# tokenizer. */
module Pgm {
  import opened Bytes

  const NEWLINE: byte := 0x0a
  const SPACE: byte := 0x20
  const HASH: byte := 0x23

  // ---------------------------------------------------------------- printing

  function Decimal(n: nat): (r: seq<byte>)
    ensures r != [] && forall i :: 0 <= i < |r| ==> 0x30 <= r[i] <= 0x39
  {
    if n < 10 then [0x30 + n] else Decimal(n / 10) + [0x30 + n % 10]
  }

  const MAGIC: seq<byte> := [0x50, 0x35]
  const MAXIMUM: seq<byte> := [0x32, 0x35, 0x35]

  /** A printed image by its two dimension tokens. */
  function Layout(dw: seq<byte>, dh: seq<byte>, pixels: seq<byte>): seq<byte> {
    MAGIC + [NEWLINE] + (dw + [SPACE] + dh) + [NEWLINE] + MAXIMUM + [NEWLINE] + pixels
  }

  /** `write_pgm`: `P5`, the dimensions and 255, each on a line, then the pixels. */
  function Printed(width: nat, height: nat, pixels: seq<byte>): seq<byte> {
    Layout(Decimal(width), Decimal(height), pixels)
  }

  // ---------------------------------------------------------------- the raster tool's reader

  /** The part before the first newline, and the rest; None without a newline. */
  function Cut(data: seq<byte>): (r: Option<(seq<byte>, seq<byte>)>)
    ensures r.Some? ==> data == r.value.0 + [NEWLINE] + r.value.1 && NEWLINE !in r.value.0
    ensures r.None? ==> NEWLINE !in data
  {
    if data == [] then None
    else if data[0] == NEWLINE then Some(([], data[1..]))
    else
      var r := Cut(data[1..]);
      if r.None? then None else Some(([data[0]] + r.value.0, r.value.1))
  }

  lemma {:induction false} CutIs(line: seq<byte>, rest: seq<byte>)
    requires NEWLINE !in line
    ensures Cut(line + [NEWLINE] + rest) == Some((line, rest))
  {
    var data := line + [NEWLINE] + rest;
    if line != [] {
      CutIs(line[1..], rest);
      assert data[1..] == line[1..] + [NEWLINE] + rest;
      assert data[0] == line[0] && line == [line[0]] + line[1..];
    } else {
      assert data[1..] == rest;
    }
  }

  const RASTER_WIDTH: nat := 56
  const RASTER_HEIGHT: nat := 144
  const DIMENSIONS: seq<byte> := [0x35, 0x36, SPACE, 0x31, 0x34, 0x34]

  /** `read_pgm` of the raster tool: `split(b"\n", 3)` into exactly four parts, then the comparisons. */
  function ReadRaster(data: seq<byte>): Option<seq<byte>> {
    var a := Cut(data);
    if a.None? then None
    else
      var b := Cut(a.value.1);
      if b.None? then None
      else
        var c := Cut(b.value.1);
        if c.None? then None
        else
          var pixels := c.value.1;
          if a.value.0 != MAGIC || b.value.0 != DIMENSIONS || c.value.0 != MAXIMUM then None
          else if |pixels| != RASTER_WIDTH * RASTER_HEIGHT then None
          else Some(pixels)
  }

  lemma PrintedDimensions()
    ensures Decimal(RASTER_WIDTH) + [SPACE] + Decimal(RASTER_HEIGHT) == DIMENSIONS
  {
    assert Decimal(5) == [0x35] && Decimal(56) == Decimal(5) + [0x36];
    assert Decimal(1) == [0x31] && Decimal(14) == Decimal(1) + [0x34] && Decimal(144) == Decimal(14) + [0x34];
  }

  /** The raster tool reads exactly the files the summary tool prints for 56x144 pixels, and returns the pixels
      unchanged, newlines among them included. */
  lemma RasterReadsPrinted(data: seq<byte>, pixels: seq<byte>)
    ensures ReadRaster(data) == Some(pixels)
            <==> (data == Printed(RASTER_WIDTH, RASTER_HEIGHT, pixels) && |pixels| == RASTER_WIDTH * RASTER_HEIGHT)
  {
    PrintedDimensions();
    var d := Printed(RASTER_WIDTH, RASTER_HEIGHT, pixels);
    var d1 := DIMENSIONS + [NEWLINE] + (MAXIMUM + [NEWLINE] + pixels);
    assert d == MAGIC + [NEWLINE] + d1;
    CutIs(MAGIC, d1);
    CutIs(DIMENSIONS, MAXIMUM + [NEWLINE] + pixels);
    CutIs(MAXIMUM, pixels);
    if ReadRaster(data) == Some(pixels) {
      var a := Cut(data).value;
      var b := Cut(a.1).value;
      assert data == MAGIC + [NEWLINE] + (DIMENSIONS + [NEWLINE] + (MAXIMUM + [NEWLINE] + pixels));
    }
  }

  // ---------------------------------------------------------------- the C# tokenizer

  predicate TokenByte(b: byte) {
    b > 0x20 && b != HASH
  }

  function LineEnd(bytes: seq<byte>, offset: nat): (r: nat)
    requires offset <= |bytes|
    ensures offset <= r <= |bytes| && (r < |bytes| ==> bytes[r] == NEWLINE)
    decreases |bytes| - offset
  {
    if offset < |bytes| && bytes[offset] != NEWLINE then LineEnd(bytes, offset + 1) else offset
  }

  /** Past blanks and comments. */
  function TokenStart(bytes: seq<byte>, offset: nat): (r: nat)
    requires offset <= |bytes|
    ensures offset <= r <= |bytes| && (r < |bytes| ==> TokenByte(bytes[r]))
    decreases |bytes| - offset
  {
    if offset == |bytes| then offset
    else if bytes[offset] == HASH then TokenStart(bytes, LineEnd(bytes, offset + 1))
    else if bytes[offset] <= 0x20 then TokenStart(bytes, offset + 1)
    else offset
  }

  function TokenEnd(bytes: seq<byte>, offset: nat): (r: nat)
    requires offset <= |bytes|
    ensures offset <= r <= |bytes|
    decreases |bytes| - offset
  {
    if offset < |bytes| && TokenByte(bytes[offset]) then TokenEnd(bytes, offset + 1) else offset
  }

  function BlankEnd(bytes: seq<byte>, offset: nat): (r: nat)
    requires offset <= |bytes|
    ensures offset <= r <= |bytes|
    ensures offset < |bytes| && bytes[offset] <= 0x20 ==> r > offset
    decreases |bytes| - offset
  {
    if offset < |bytes| && bytes[offset] <= 0x20 then BlankEnd(bytes, offset + 1) else offset
  }

  /** `ReadPgmToken`. */
  method ReadPgmToken(bytes: seq<byte>, offset: nat) returns (token: seq<byte>, next: nat)
    requires offset <= |bytes|
    ensures var start := TokenStart(bytes, offset);
      next == TokenEnd(bytes, start) && token == bytes[start..next]
  {
    next := offset;
    while next < |bytes|
      invariant offset <= next <= |bytes|
      invariant TokenStart(bytes, offset) == TokenStart(bytes, next)
    {
      if bytes[next] == HASH {
        ghost var first := next;
        assert LineEnd(bytes, first) == LineEnd(bytes, first + 1);
        while next < |bytes| && bytes[next] != NEWLINE
          invariant first <= next <= |bytes|
          invariant LineEnd(bytes, first) == LineEnd(bytes, next)
        {
          next := next + 1;
        }
        assert next == LineEnd(bytes, first);
      } else if bytes[next] <= 0x20 {
        next := next + 1;
      } else {
        break;
      }
    }
    var start := next;
    while next < |bytes| && bytes[next] > 0x20 && bytes[next] != HASH
      invariant start <= next <= |bytes|
      invariant TokenEnd(bytes, start) == TokenEnd(bytes, next)
    {
      next := next + 1;
    }
    token := bytes[start..next];
  }

  /** The value of a non-empty run of digits. */
  function Digits(token: seq<byte>): Option<nat> {
    if token == [] then None
    else
      var n := |token| - 1;
      var d := token[n];
      if d < 0x30 || d > 0x39 then None
      else if n == 0 then Some((d - 0x30) as nat)
      else
        var front := Digits(token[..n]);
        if front.None? then None else Some(10 * front.value + (d as int - 0x30))
  }

  /** `int.Parse` of a token: an optional sign, digits, and the range of a 32-bit integer. */
  function ParseInt(token: seq<byte>): Option<int> {
    var negative := token != [] && token[0] == 0x2d;
    var signed := negative || (token != [] && token[0] == 0x2b);
    var digits := Digits(if signed then token[1..] else token);
    if digits.None? then None
    else
      var v: int := if negative then -(digits.value as int) else digits.value as int;
      if -0x8000_0000 <= v < 0x8000_0000 then Some(v) else None
  }

  datatype Image = Image(width: int, height: int, pixels: seq<byte>)

  /** What `ReadPgm` returns; None for any of its exceptions. */
  function PgmOf(bytes: seq<byte>): Option<Image> {
    var s0 := TokenStart(bytes, 0);
    var e0 := TokenEnd(bytes, s0);
    var s1 := TokenStart(bytes, e0);
    var e1 := TokenEnd(bytes, s1);
    var s2 := TokenStart(bytes, e1);
    var e2 := TokenEnd(bytes, s2);
    var s3 := TokenStart(bytes, e2);
    var e3 := TokenEnd(bytes, s3);
    var width, height, maximum := ParseInt(bytes[s1..e1]), ParseInt(bytes[s2..e2]), ParseInt(bytes[s3..e3]);
    if width.None? || height.None? || maximum.None? then None
    else if bytes[s0..e0] != MAGIC || maximum.value != 255 then None
    else
      var offset := BlankEnd(bytes, e3);
      var length := width.value * height.value;
      if length < -0x8000_0000 || length >= 0x8000_0000 || |bytes| - offset != length then None
      else Some(Image(width.value, height.value, bytes[offset..]))
  }

  /** `ReadPgm`. */
  method ReadPgm(bytes: seq<byte>) returns (image: Option<Image>)
    ensures image == PgmOf(bytes)
  {
    hide ParseInt;
    var magic, token, offset;
    magic, offset := ReadPgmToken(bytes, 0);
    token, offset := ReadPgmToken(bytes, offset);
    var width := ParseInt(token);
    if width == None {
      return None;
    }
    token, offset := ReadPgmToken(bytes, offset);
    var height := ParseInt(token);
    if height == None {
      return None;
    }
    token, offset := ReadPgmToken(bytes, offset);
    var maximum := ParseInt(token);
    if maximum == None || magic != MAGIC || maximum.value != 255 {
      return None;
    }
    ghost var after := offset;
    while offset < |bytes| && bytes[offset] <= 0x20
      invariant after <= offset <= |bytes|
      invariant BlankEnd(bytes, after) == BlankEnd(bytes, offset)
    {
      offset := offset + 1;
    }
    var length := width.value * height.value;
    if length < -0x8000_0000 || length >= 0x8000_0000 || |bytes| - offset != length {
      return None;
    }
    return Some(Image(width.value, height.value, bytes[offset..]));
  }

  // ---------------------------------------------------------------- print, then read

  lemma {:induction false} DigitsOfDecimal(n: nat)
    ensures Digits(Decimal(n)) == Some(n)
  {
    if n >= 10 {
      DigitsOfDecimal(n / 10);
      assert Decimal(n)[..|Decimal(n)| - 1] == Decimal(n / 10);
    }
  }

  lemma ParseOfDecimal(n: nat)
    requires n < 0x8000_0000
    ensures ParseInt(Decimal(n)) == Some(n)
  {
    DigitsOfDecimal(n);
  }

  lemma {:induction false} TokenEndIs(bytes: seq<byte>, offset: nat, end: nat)
    requires offset <= end < |bytes| && !TokenByte(bytes[end])
    requires forall i :: offset <= i < end ==> TokenByte(bytes[i])
    ensures TokenEnd(bytes, offset) == end
    decreases end - offset
  {
    if offset < end {
      TokenEndIs(bytes, offset + 1, end);
    }
  }

  lemma StartAfterBlank(bytes: seq<byte>, offset: nat)
    requires offset + 1 < |bytes| && bytes[offset] <= 0x20 && TokenByte(bytes[offset + 1])
    ensures TokenStart(bytes, offset) == offset + 1
  {
    assert bytes[offset] != HASH;
    assert TokenStart(bytes, offset + 1) == offset + 1;
  }

  /** Where the parts of a file stand. */
  lemma Placed(bytes: seq<byte>, before: seq<byte>, blank: byte, token: seq<byte>, after: seq<byte>)
    requires bytes == before + [blank] + token + after
    ensures |bytes| == |before| + 1 + |token| + |after| && bytes[|before|] == blank
    ensures bytes[|before| + 1..|before| + 1 + |token|] == token
    ensures after != [] ==> bytes[|before| + 1 + |token|] == after[0]
  {
    var head := before + [blank];
    assert bytes == head + token + after;
    assert (head + token)[|head|..] == token;
    assert bytes[..|head| + |token|] == head + token;
  }

  lemma SliceIndex(bytes: seq<byte>, start: nat, end: nat, i: nat)
    requires start <= i < end <= |bytes|
    ensures bytes[start..end][i - start] == bytes[i]
  {
  }

  /** After one blank, the token that stands between it and the next blank is read. */
  lemma NextToken(bytes: seq<byte>, before: seq<byte>, blank: byte, token: seq<byte>, after: seq<byte>)
    requires bytes == before + [blank] + token + after
    requires token != [] && forall i :: 0 <= i < |token| ==> TokenByte(token[i])
    requires blank <= 0x20 && after != [] && after[0] <= 0x20
    ensures var start := |before| + 1;
      && TokenStart(bytes, |before|) == start && TokenEnd(bytes, start) == start + |token|
      && start + |token| < |bytes| && bytes[start..start + |token|] == token
  {
    var start := |before| + 1;
    Placed(bytes, before, blank, token, after);
    TokenBetween(bytes, |before|, start + |token|, token);
  }

  /** A token between two blanks, by positions. */
  lemma TokenBetween(bytes: seq<byte>, blank: nat, end: nat, token: seq<byte>)
    requires blank + 1 < end < |bytes| && bytes[blank] <= 0x20 && bytes[end] <= 0x20
    requires bytes[blank + 1..end] == token && forall i :: 0 <= i < |token| ==> TokenByte(token[i])
    ensures TokenStart(bytes, blank) == blank + 1 && TokenEnd(bytes, blank + 1) == end
  {
    hide TokenStart, TokenEnd;
    forall i | blank + 1 <= i < end
      ensures TokenByte(bytes[i])
    {
      SliceIndex(bytes, blank + 1, end, i);
    }
    StartAfterBlank(bytes, blank);
    TokenEndIs(bytes, blank + 1, end);
  }

  predicate IsToken(t: seq<byte>) {
    t != [] && forall i :: 0 <= i < |t| ==> TokenByte(t[i])
  }

  lemma WidthToken(dw: seq<byte>, dh: seq<byte>, pixels: seq<byte>)
    requires IsToken(dw)
    ensures var b, e1 := Layout(dw, dh, pixels), 3 + |dw|;
      && TokenStart(b, 0) == 0 && TokenEnd(b, 0) == 2 && b[0..2] == MAGIC
      && e1 < |b| && TokenStart(b, 2) == 3 && TokenEnd(b, 3) == e1 && b[3..e1] == dw
  {
    var after := [SPACE] + dh + [NEWLINE] + MAXIMUM + [NEWLINE] + pixels;
    assert Layout(dw, dh, pixels) == MAGIC + ([NEWLINE] + dw + after);
    FirstToken(Layout(dw, dh, pixels), [NEWLINE] + dw + after);
    assert Layout(dw, dh, pixels) == MAGIC + [NEWLINE] + dw + after;
    NextToken(Layout(dw, dh, pixels), MAGIC, NEWLINE, dw, after);
  }

  lemma HeightToken(dw: seq<byte>, dh: seq<byte>, pixels: seq<byte>)
    requires IsToken(dh)
    ensures var b, e1 := Layout(dw, dh, pixels), 3 + |dw|;
      var e2 := e1 + 1 + |dh|;
      e2 < |b| && TokenStart(b, e1) == e1 + 1 && TokenEnd(b, e1 + 1) == e2 && b[e1 + 1..e2] == dh
  {
    var before, after := MAGIC + [NEWLINE] + dw, [NEWLINE] + MAXIMUM + [NEWLINE] + pixels;
    assert Layout(dw, dh, pixels) == before + [SPACE] + dh + after;
    NextToken(Layout(dw, dh, pixels), before, SPACE, dh, after);
  }

  lemma MaximumToken(dw: seq<byte>, dh: seq<byte>, pixels: seq<byte>)
    ensures var b, e2 := Layout(dw, dh, pixels), 4 + |dw| + |dh|;
      && |b| == e2 + 5 + |pixels| && b[e2 + 5..] == pixels && b[e2 + 4] == NEWLINE
      && TokenStart(b, e2) == e2 + 1 && TokenEnd(b, e2 + 1) == e2 + 4 && b[e2 + 1..e2 + 4] == MAXIMUM
  {
    var before, after := MAGIC + [NEWLINE] + (dw + [SPACE] + dh), [NEWLINE] + pixels;
    assert Layout(dw, dh, pixels) == before + [NEWLINE] + MAXIMUM + after;
    NextToken(Layout(dw, dh, pixels), before, NEWLINE, MAXIMUM, after);
  }

  lemma DecimalBytes(n: nat)
    ensures IsToken(Decimal(n))
  {
  }

  lemma FirstToken(bytes: seq<byte>, after: seq<byte>)
    requires bytes == MAGIC + after && after != [] && after[0] == NEWLINE
    ensures TokenStart(bytes, 0) == 0 && TokenEnd(bytes, 0) == 2 && bytes[0..2] == MAGIC
  {
    TokenEndIs(bytes, 0, 2);
  }

  /** The C# reader on a printed image: exactly that image when the first pixel is above 0x20; otherwise the
      blanks it skips take pixels along and it rejects the file. It never returns other pixels. */
  lemma VendorReadsPrinted(width: nat, height: nat, pixels: seq<byte>)
    requires width > 0 && height > 0 && width * height < 0x8000_0000 && |pixels| == width * height
    ensures width * height > 0
    ensures PgmOf(Printed(width, height, pixels))
         == if pixels[0] > 0x20 then Some(Image(width, height, pixels)) else None
  {
    SidesBelowProduct(width, height);
    ParseOfDecimal(width);
    ParseOfDecimal(height);
    DecimalBytes(width);
    DecimalBytes(height);
    LayoutIsRead(Decimal(width), Decimal(height), width, height, pixels);
  }

  lemma MaximumIs255()
    ensures ParseInt(MAXIMUM) == Some(255)
  {
    assert MAXIMUM[..2] == [0x32, 0x35] && [0x32, 0x35][..1] == [0x32];
    assert Digits([0x32]) == Some(2) && Digits([0x32, 0x35]) == Some(25);
  }

  lemma LayoutIsRead(dw: seq<byte>, dh: seq<byte>, width: nat, height: nat, pixels: seq<byte>)
    requires IsToken(dw) && IsToken(dh) && ParseInt(dw) == Some(width) && ParseInt(dh) == Some(height)
    requires 0 < width * height < 0x8000_0000 && |pixels| == width * height
    ensures PgmOf(Layout(dw, dh, pixels)) == if pixels[0] > 0x20 then Some(Image(width, height, pixels)) else None
  {
    hide TokenStart, TokenEnd, ParseInt, Layout;
    WidthToken(dw, dh, pixels);
    HeightToken(dw, dh, pixels);
    MaximumToken(dw, dh, pixels);
    MaximumIs255();
    var b, e2 := Layout(dw, dh, pixels), 4 + |dw| + |dh|;
    assert b[e2 + 5] == pixels[0];
    assert BlankEnd(b, e2 + 4) == BlankEnd(b, e2 + 5);
  }

  lemma SidesBelowProduct(width: nat, height: nat)
    requires width > 0 && height > 0
    ensures width <= width * height && height <= width * height && width * height > 0
  {
    assert (width - 1) * height >= 0;
    assert width * (height - 1) >= 0;
  }

  // ---------------------------------------------------------------- the printed bytes

  /** A printed image: P5, the two numbers with a blank between them, 255, each of the three on a line, the pixels. */
  lemma PrintedBytes(width: nat, height: nat, pixels: seq<byte>)
    ensures Printed(width, height, pixels)
         == [0x50, 0x35, 0x0a] + Decimal(width) + [0x20] + Decimal(height) + [0x0a, 0x32, 0x35, 0x35, 0x0a] + pixels
  {
    hide Decimal;
    var dw, dh := Decimal(width), Decimal(height);
    assert Printed(width, height, pixels) == [0x50, 0x35] + [0x0a] + dw + [0x20] + dh + [0x0a] + [0x32, 0x35, 0x35]
        + [0x0a] + pixels;
  }

  function Tens(n: nat): nat {
    if n == 0 then 1 else 10 * Tens(n - 1)
  }

  /** A number is a non-empty run of digits, each worth ten times the next. */
  lemma {:induction false} DigitsFromFront(d: byte, t: seq<byte>)
    requires t != []
    ensures Digits([d]) == if 0x30 <= d <= 0x39 then Some(d as int - 0x30) else None
    ensures Digits([d] + t)
         == if 0x30 <= d <= 0x39 && Digits(t).Some? then Some((d as int - 0x30) * Tens(|t|) + Digits(t).value) else None
  {
    var n := |t| - 1;
    OneDigit(d);
    LastDigit([d] + t[..n], t[n]);
    assert [d] + t[..n] + [t[n]] == [d] + t;
    if n == 0 {
      OneDigit(t[0]);
      assert t == [t[0]] && [d] + t[..0] == [d];
      assert Tens(1) == 10 * Tens(0);
    } else {
      DigitsFromFront(d, t[..n]);
      LastDigit(t[..n], t[n]);
      assert t[..n] + [t[n]] == t;
      TenTimes(d as int - 0x30, n);
    }
    hide Digits;
  }

  lemma OneDigit(d: byte)
    ensures Digits([d]) == if 0x30 <= d <= 0x39 then Some(d as int - 0x30) else None
  {
  }

  lemma LastDigit(t: seq<byte>, d: byte)
    requires t != []
    ensures Digits(t + [d])
         == if 0x30 <= d <= 0x39 && Digits(t).Some? then Some(10 * Digits(t).value + (d as int - 0x30)) else None
  {
    assert (t + [d])[..|t|] == t && (t + [d])[|t|] == d;
  }

  lemma TenTimes(d: int, n: nat)
    ensures 10 * (d * Tens(n)) == d * Tens(n + 1)
  {
  }

  /** The printed decimal has no leading zero, and it is read back as the number. */
  lemma {:induction false} DecimalExactly(n: nat)
    ensures Digits(Decimal(n)) == Some(n) && (n > 0 ==> Decimal(n)[0] != 0x30)
  {
    DigitsOfDecimal(n);
    if n >= 10 {
      DecimalExactly(n / 10);
      assert Decimal(n)[0] == Decimal(n / 10)[0];
    }
  }

  /** `int.Parse`: at most one sign, then digits, and a value of 32 bits. */
  lemma ParseIntExactly(token: seq<byte>)
    ensures var signed := token != [] && (token[0] == 0x2b || token[0] == 0x2d);
      var digits := Digits(if signed then token[1..] else token);
      ParseInt(token)
      == if digits.None? then None
         else if signed && token[0] == 0x2d then
           if digits.value <= 2147483648 then Some(-(digits.value as int)) else None
         else if digits.value <= 2147483647 then Some(digits.value) else None
  {
    hide Digits;
  }

  // ---------------------------------------------------------------- where the tokens are

  /** p is behind a # that stands at or after the offset, on the same line. */
  ghost predicate InComment(bytes: seq<byte>, offset: nat, p: nat)
    requires offset <= p <= |bytes|
  {
    exists h :: offset <= h < p && bytes[h] == 0x23 && forall i :: h < i < p ==> bytes[i] != 0x0a
  }

  lemma {:induction false} LineEndExactly(bytes: seq<byte>, offset: nat)
    requires offset <= |bytes|
    ensures forall i :: offset <= i < LineEnd(bytes, offset) ==> bytes[i] != 0x0a
    decreases |bytes| - offset
  {
    if offset < |bytes| && bytes[offset] != NEWLINE {
      LineEndExactly(bytes, offset + 1);
    }
  }

  /** A token begins at the first byte above 0x20 that is neither a # nor in a comment; if there is none, at the end. */
  lemma {:induction false} TokenStartExactly(bytes: seq<byte>, offset: nat)
    requires offset <= |bytes|
    ensures var r := TokenStart(bytes, offset);
      && (r < |bytes| ==> bytes[r] > 0x20 && bytes[r] != 0x23 && !InComment(bytes, offset, r))
      && forall p :: offset <= p < r ==> bytes[p] <= 0x20 || bytes[p] == 0x23 || InComment(bytes, offset, p)
    decreases |bytes| - offset
  {
    var r := TokenStart(bytes, offset);
    if offset == |bytes| {
    } else if bytes[offset] == HASH {
      var e := LineEnd(bytes, offset + 1);
      LineEndExactly(bytes, offset + 1);
      TokenStartExactly(bytes, e);
      forall p | offset < p <= e
        ensures InComment(bytes, offset, p)
      {
      }
      forall p | e < p <= |bytes|
        ensures InComment(bytes, offset, p) <==> InComment(bytes, e, p)
      {
        CommentEnds(bytes, offset, e, p);
      }
      assert r < |bytes| ==> r != e;
    } else if bytes[offset] <= 0x20 {
      TokenStartExactly(bytes, offset + 1);
      forall p | offset < p <= |bytes|
        ensures InComment(bytes, offset, p) <==> InComment(bytes, offset + 1, p)
      {
      }
    }
  }

  /** A comment does not reach beyond the newline at e. */
  lemma CommentEnds(bytes: seq<byte>, offset: nat, e: nat, p: nat)
    requires offset <= e < p <= |bytes| && bytes[e] == 0x0a
    ensures InComment(bytes, offset, p) <==> InComment(bytes, e, p)
  {
    if InComment(bytes, offset, p) {
      var h :| offset <= h < p && bytes[h] == 0x23 && forall i :: h < i < p ==> bytes[i] != 0x0a;
      assert h >= e;
    }
  }

  /** A token ends before the first byte that is a blank, a control byte or a #. */
  lemma {:induction false} TokenEndExactly(bytes: seq<byte>, offset: nat)
    requires offset <= |bytes|
    ensures var r := TokenEnd(bytes, offset);
      && (r < |bytes| ==> bytes[r] <= 0x20 || bytes[r] == 0x23)
      && forall p :: offset <= p < r ==> bytes[p] > 0x20 && bytes[p] != 0x23
    decreases |bytes| - offset
  {
    if offset < |bytes| && TokenByte(bytes[offset]) {
      TokenEndExactly(bytes, offset + 1);
    }
  }

  lemma {:induction false} BlankEndExactly(bytes: seq<byte>, offset: nat)
    requires offset <= |bytes|
    ensures var r := BlankEnd(bytes, offset);
      (r < |bytes| ==> bytes[r] > 0x20) && forall p :: offset <= p < r ==> bytes[p] <= 0x20
    decreases |bytes| - offset
  {
    if offset < |bytes| && bytes[offset] <= 0x20 {
      BlankEndExactly(bytes, offset + 1);
    }
  }

  /** The n-th token of a file. */
  function TokenEndAt(bytes: seq<byte>, n: nat): (r: nat)
    ensures r <= |bytes|
  {
    TokenEnd(bytes, TokenStart(bytes, if n == 0 then 0 else TokenEndAt(bytes, n - 1)))
  }

  function TokenAt(bytes: seq<byte>, n: nat): seq<byte> {
    bytes[TokenStart(bytes, if n == 0 then 0 else TokenEndAt(bytes, n - 1))..TokenEndAt(bytes, n)]
  }

  /** The reader returns an image exactly when the four tokens are P5, its dimensions and 255, and what follows the
      blanks behind them is as many bytes as the dimensions say, in 32 bits. */
  lemma ReadExactly(bytes: seq<byte>, image: Image)
    ensures PgmOf(bytes) == Some(image) <==>
              && TokenAt(bytes, 0) == [0x50, 0x35]
              && ParseInt(TokenAt(bytes, 1)) == Some(image.width) && ParseInt(TokenAt(bytes, 2)) == Some(image.height)
              && ParseInt(TokenAt(bytes, 3)) == Some(255)
              && image.pixels == bytes[BlankEnd(bytes, TokenEndAt(bytes, 3))..]
              && |image.pixels| == image.width * image.height <= 2147483647
  {
    assert TokenEndAt(bytes, 1) == TokenEnd(bytes, TokenStart(bytes, TokenEndAt(bytes, 0)));
    assert TokenEndAt(bytes, 2) == TokenEnd(bytes, TokenStart(bytes, TokenEndAt(bytes, 1)));
    assert TokenEndAt(bytes, 3) == TokenEnd(bytes, TokenStart(bytes, TokenEndAt(bytes, 2)));
    hide TokenStart, TokenEnd, TokenEndAt, ParseInt, BlankEnd;
  }
}
