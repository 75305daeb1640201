/** The feature record of the matcher: a header, a count and rows of 130 little-endian 32-bit words.
    A float is its bit pattern; it is finite when its exponent bits are not all ones. */
module FeatureCodec {
  import opened Bytes

  const MAGIC: seq<byte> := [0x53, 0x59, 0x38, 0x32, 0x46, 0x54, 0x30, 0x31]
  const HEADER_SIZE: nat := 12
  const DESCRIPTOR_COLUMNS: nat := 128
  const ROW_WORDS: nat := 130
  const ROW_SIZE: nat := 520
  const MINIMUM_FEATURES: nat := 8
  const MAXIMUM_FEATURES: nat := 700

  datatype Row = Row(x: u32, y: u32, descriptor: seq<u32>)

  predicate Finite(w: u32) {
    w / 0x80_0000 % 0x100 != 0xff
  }

  predicate Shaped(r: Row) {
    |r.descriptor| == DESCRIPTOR_COLUMNS
  }

  predicate FiniteRow(r: Row) {
    Finite(r.x) && Finite(r.y) && forall c :: 0 <= c < |r.descriptor| ==> Finite(r.descriptor[c])
  }

  /** What the decoder may return. */
  predicate Decodable(rows: seq<Row>) {
    && MINIMUM_FEATURES <= |rows| <= MAXIMUM_FEATURES
    && forall i :: 0 <= i < |rows| ==> Shaped(rows[i]) && FiniteRow(rows[i])
  }

  datatype DecodeError =
    | BadHeader
    | BadCount(count: u32)
    | BadLength
    | BadPoint(row: nat)
    | BadDescriptor(row: nat, column: nat)

  datatype Result = Decoded(rows: seq<Row>) | Rejected(error: DecodeError)

  // ---------------------------------------------------------------- encoding

  function Words(r: Row): (ws: seq<u32>)
    ensures |ws| == 2 + |r.descriptor|
  {
    [r.x, r.y] + r.descriptor
  }

  function FlatWords(rows: seq<Row>): seq<u32> {
    if rows == [] then [] else FlatWords(rows[..|rows| - 1]) + Words(rows[|rows| - 1])
  }

  function PutWords(ws: seq<u32>): (r: seq<byte>)
    ensures |r| == 4 * |ws|
  {
    if ws == [] then [] else PutWords(ws[..|ws| - 1]) + Put32(ws[|ws| - 1])
  }

  function Encode(rows: seq<Row>): seq<byte>
    requires |rows| < 0x1_0000_0000
  {
    MAGIC + Put32(|rows|) + PutWords(FlatWords(rows))
  }

  // ---------------------------------------------------------------- decoding

  function WordAt(data: seq<byte>, k: nat): u32
    requires HEADER_SIZE + 4 * k + 4 <= |data|
  {
    Le32(data[HEADER_SIZE + 4 * k..])
  }

  function WordsAt(data: seq<byte>, k: nat, n: nat): (r: seq<u32>)
    requires HEADER_SIZE + 4 * (k + n) <= |data|
    ensures |r| == n && forall c :: 0 <= c < n ==> r[c] == WordAt(data, k + c)
  {
    if n == 0 then [] else WordsAt(data, k, n - 1) + [WordAt(data, k + n - 1)]
  }

  function RowAt(data: seq<byte>, i: nat): Row
    requires HEADER_SIZE + ROW_SIZE * (i + 1) <= |data|
  {
    Row(WordAt(data, ROW_WORDS * i), WordAt(data, ROW_WORDS * i + 1),
        WordsAt(data, ROW_WORDS * i + 2, DESCRIPTOR_COLUMNS))
  }

  function RowsOf(data: seq<byte>, count: nat): seq<Row>
    requires HEADER_SIZE + ROW_SIZE * count <= |data|
  {
    seq(count, i requires 0 <= i < count => RowAt(data, i))
  }

  predicate FiniteRange(data: seq<byte>, k: nat, n: nat)
    requires HEADER_SIZE + 4 * n <= |data|
  {
    forall j: nat :: k <= j < n ==> Finite(WordAt(data, j))
  }

  /** The first word from k on that is not finite. */
  function FirstBad(data: seq<byte>, k: nat, n: nat): (r: Option<nat>)
    requires k <= n && HEADER_SIZE + 4 * n <= |data|
    ensures r.Some? ==> k <= r.value < n && !Finite(WordAt(data, r.value))
    ensures FiniteRange(data, k, if r.Some? then r.value else n)
    decreases n - k
  {
    if k == n then None else if !Finite(WordAt(data, k)) then Some(k) else FirstBad(data, k + 1, n)
  }

  function ErrorAt(k: nat): DecodeError {
    if k % ROW_WORDS < 2 then BadPoint(k / ROW_WORDS)
    else BadDescriptor(k / ROW_WORDS, k % ROW_WORDS - 2)
  }

  predicate GoodHeader(data: seq<byte>) {
    |data| >= HEADER_SIZE && data[..|MAGIC|] == MAGIC
  }

  function Decode(data: seq<byte>): Result {
    if !GoodHeader(data) then Rejected(BadHeader)
    else
      var count := Le32(data[|MAGIC|..]);
      if count < MINIMUM_FEATURES || count > MAXIMUM_FEATURES then Rejected(BadCount(count))
      else if |data| != HEADER_SIZE + ROW_SIZE * count then Rejected(BadLength)
      else
        match FirstBad(data, 0, ROW_WORDS * count)
        case Some(k) => Rejected(ErrorAt(k))
        case None => Decoded(RowsOf(data, count))
  }

  /** `read_u32`: bounds-checked, advancing the offset. */
  method ReadU32(data: seq<byte>, offset: nat) returns (ok: bool, value: u32, next: nat)
    ensures ok <==> offset + 4 <= |data|
    ensures ok ==> value == Le32(data[offset..]) && next == offset + 4
    ensures !ok ==> next == offset
  {
    if offset > |data| || |data| - offset < 4 {
      return false, 0, offset;
    }
    return true, Le32(data[offset..]), offset + 4;
  }

  lemma FirstBadIs(data: seq<byte>, j: nat, k: nat, n: nat)
    requires j <= k < n && HEADER_SIZE + 4 * n <= |data|
    requires !Finite(WordAt(data, k)) && FiniteRange(data, j, k)
    ensures FirstBad(data, j, n) == Some(k)
  {
  }

  lemma Position(row: nat, c: nat)
    requires c < ROW_WORDS
    ensures (ROW_WORDS * row + c) / ROW_WORDS == row && (ROW_WORDS * row + c) % ROW_WORDS == c
  {
  }

  lemma FailsAt(data: seq<byte>, count: nat, row: nat, c: nat)
    requires row < count && c < ROW_WORDS && |data| == HEADER_SIZE + ROW_SIZE * count
    requires !Finite(WordAt(data, ROW_WORDS * row + c))
    requires FiniteRange(data, 0, ROW_WORDS * row + c)
    ensures FirstBad(data, 0, ROW_WORDS * count) == Some(ROW_WORDS * row + c)
    ensures ErrorAt(ROW_WORDS * row + c) == if c < 2 then BadPoint(row) else BadDescriptor(row, c - 2)
  {
    FirstBadIs(data, 0, ROW_WORDS * row + c, ROW_WORDS * count);
    Position(row, c);
  }

  /** The inner loop of `decode_features`: one descriptor row, up to its first word that is not finite. */
  method ReadDescriptor(data: seq<byte>, ghost k: nat, start: nat) returns (descriptor: seq<u32>, offset: nat)
    requires start == HEADER_SIZE + 4 * k && start + 4 * DESCRIPTOR_COLUMNS <= |data|
    ensures |descriptor| <= DESCRIPTOR_COLUMNS && descriptor == WordsAt(data, k, |descriptor|)
    ensures FiniteRange(data, k, k + |descriptor|)
    ensures |descriptor| < DESCRIPTOR_COLUMNS ==> !Finite(WordAt(data, k + |descriptor|))
    ensures |descriptor| == DESCRIPTOR_COLUMNS ==> offset == start + 4 * DESCRIPTOR_COLUMNS
  {
    descriptor := [];
    offset := start;
    for column := 0 to DESCRIPTOR_COLUMNS
      invariant offset == start + 4 * column
      invariant |descriptor| == column && descriptor == WordsAt(data, k, column)
      invariant FiniteRange(data, k, k + column)
    {
      var ok, value;
      ok, value, offset := ReadU32(data, offset);
      if !ok || !Finite(value) {
        assert ok;
        return;
      }
      descriptor := descriptor + [value];
    }
  }

  /** `decode_features`. A failing bounds check would be reported like a word that is not finite, so equality
      with Decode also says that after the length check no bounds check fails. */
  method DecodeFeatures(data: seq<byte>) returns (r: Result)
    ensures r == Decode(data)
  {
    if |data| < HEADER_SIZE || data[..|MAGIC|] != MAGIC {
      return Rejected(BadHeader);
    }
    var offset := |MAGIC|;
    var ok, count;
    ok, count, offset := ReadU32(data, offset);
    if !ok {
      return Rejected(BadHeader);
    }
    if count < MINIMUM_FEATURES || count > MAXIMUM_FEATURES {
      return Rejected(BadCount(count));
    }
    if |data| != HEADER_SIZE + count * ROW_SIZE {
      return Rejected(BadLength);
    }
    r := DecodeRows(data, count, offset);
  }

  /** One row of `decode_features`. */
  method ReadRow(data: seq<byte>, ghost count: nat, row: nat, start: nat)
    returns (error: Option<DecodeError>, r: Row, offset: nat)
    requires row < count && |data| == HEADER_SIZE + ROW_SIZE * count && start == HEADER_SIZE + ROW_SIZE * row
    requires FiniteRange(data, 0, ROW_WORDS * row)
    ensures error == None ==>
              r == RowAt(data, row) && offset == start + ROW_SIZE && FiniteRange(data, 0, ROW_WORDS * (row + 1))
    ensures error.Some? ==> var bad := FirstBad(data, 0, ROW_WORDS * count);
              bad.Some? && error.value == ErrorAt(bad.value)
  {
    hide FirstBad, ErrorAt, Finite, Bytes.Le32;
    ghost var k := ROW_WORDS * row;
    var okX, okY, x, y;
    r := Row(0, 0, []);
    okX, x, offset := ReadU32(data, start);
    okY, y, offset := ReadU32(data, offset);
    assert x == WordAt(data, k) && y == WordAt(data, k + 1);
    if !okX || !okY || !Finite(x) || !Finite(y) {
      FailsAt(data, count, row, if Finite(x) then 1 else 0);
      return Some(BadPoint(row)), r, offset;
    }
    var descriptor;
    descriptor, offset := ReadDescriptor(data, k + 2, offset);
    assert FiniteRange(data, 0, k + 2 + |descriptor|);
    if |descriptor| < DESCRIPTOR_COLUMNS {
      FailsAt(data, count, row, 2 + |descriptor|);
      return Some(BadDescriptor(row, |descriptor|)), r, offset;
    }
    return None, Row(x, y, descriptor), offset;
  }

  method DecodeRows(data: seq<byte>, count: nat, start: nat) returns (r: Result)
    requires |data| == HEADER_SIZE + ROW_SIZE * count && start == HEADER_SIZE
    ensures var bad := FirstBad(data, 0, ROW_WORDS * count);
      r == if bad.Some? then Rejected(ErrorAt(bad.value)) else Decoded(RowsOf(data, count))
  {
    var offset := start;
    var rows: seq<Row> := [];
    for row := 0 to count
      invariant offset == HEADER_SIZE + ROW_SIZE * row
      invariant rows == RowsOf(data, row)
      invariant FiniteRange(data, 0, ROW_WORDS * row)
    {
      var error, r;
      error, r, offset := ReadRow(data, count, row, offset);
      if error.Some? {
        return Rejected(error.value);
      }
      rows := rows + [r];
    }
    return Decoded(rows);
  }

  // ---------------------------------------------------------------- acceptance

  /** A record is accepted exactly when it has the magic, a count of 8 to 700, the length that belongs to the
      count, and only finite words; then the rows are well formed. */
  lemma AcceptedExactly(data: seq<byte>)
    ensures Decode(data).Decoded? <==>
              && GoodHeader(data)
              && MINIMUM_FEATURES <= Le32(data[|MAGIC|..]) <= MAXIMUM_FEATURES
              && |data| == HEADER_SIZE + ROW_SIZE * Le32(data[|MAGIC|..])
              && FiniteRange(data, 0, ROW_WORDS * Le32(data[|MAGIC|..]))
    ensures Decode(data).Decoded? ==> Decodable(Decode(data).rows)
  {
  }

  // ---------------------------------------------------------------- round trips

  lemma {:induction false} PutWordsAt(ws: seq<u32>, k: nat)
    requires k < |ws|
    ensures PutWords(ws)[4 * k..4 * k + 4] == Put32(ws[k])
  {
    var front := ws[..|ws| - 1];
    var p, q := PutWords(front), Put32(ws[|ws| - 1]);
    if k < |front| {
      PutWordsAt(front, k);
      assert (p + q)[4 * k..4 * k + 4] == p[4 * k..4 * k + 4];
    } else {
      assert (p + q)[4 * k..4 * k + 4] == q;
    }
  }

  lemma {:induction false} FlatWordsAt(rows: seq<Row>, i: nat, c: nat)
    requires forall j :: 0 <= j < |rows| ==> Shaped(rows[j])
    requires i < |rows| && c < ROW_WORDS
    ensures |FlatWords(rows)| == ROW_WORDS * |rows|
    ensures Shaped(rows[i]) && FlatWords(rows)[ROW_WORDS * i + c] == Words(rows[i])[c]
  {
    var front := rows[..|rows| - 1];
    if front == [] {
      assert FlatWords(rows) == FlatWords(front) + Words(rows[0]);
      assert i == 0;
    } else if i < |front| {
      FlatWordsAt(front, i, c);
      assert ROW_WORDS * i + c < ROW_WORDS * |front|;
    } else {
      FlatWordsAt(front, 0, 0);
      assert i == |front|;
    }
  }

  lemma {:induction false} FlatWordsLength(rows: seq<Row>)
    requires forall j :: 0 <= j < |rows| ==> Shaped(rows[j])
    ensures |FlatWords(rows)| == ROW_WORDS * |rows|
  {
    if rows == [] {
    } else {
      FlatWordsLength(rows[..|rows| - 1]);
    }
  }

  lemma EncodedWordAt(rows: seq<Row>, k: nat)
    requires |rows| < 0x1_0000_0000 && k < |FlatWords(rows)|
    ensures HEADER_SIZE + 4 * k + 4 <= |Encode(rows)|
    ensures WordAt(Encode(rows), k) == FlatWords(rows)[k]
  {
    var ws := FlatWords(rows);
    var data := Encode(rows);
    PutWordsAt(ws, k);
    assert data[HEADER_SIZE..] == PutWords(ws);
    assert data[HEADER_SIZE + 4 * k..][..4] == PutWords(ws)[4 * k..4 * k + 4];
    Le32OfPut32(ws[k]);
  }

  lemma EncodedHeader(rows: seq<Row>)
    requires |rows| < 0x1_0000_0000
    ensures GoodHeader(Encode(rows)) && Le32(Encode(rows)[|MAGIC|..]) == |rows|
  {
    HeaderFirst(Put32(|rows|), PutWords(FlatWords(rows)));
    Le32OfPut32(|rows|);
    hide PutWords, FlatWords, Bytes.Put32;
  }

  lemma HeaderFirst(field: seq<byte>, body: seq<byte>)
    requires |field| == 4
    ensures GoodHeader(MAGIC + field + body) && Le32((MAGIC + field + body)[|MAGIC|..]) == Le32(field)
  {
    var data := MAGIC + field + body;
    assert data[..|MAGIC|] == MAGIC;
    assert data[|MAGIC|..] == field + body;
  }

  lemma EncodedRowAt(rows: seq<Row>, i: nat)
    requires |rows| < 0x1_0000_0000 && i < |rows|
    requires forall j :: 0 <= j < |rows| ==> Shaped(rows[j])
    ensures |Encode(rows)| == HEADER_SIZE + ROW_SIZE * |rows|
    ensures RowAt(Encode(rows), i) == rows[i]
  {
    FlatWordsLength(rows);
    var data := Encode(rows);
    EncodedRowWord(rows, i, 0);
    EncodedRowWord(rows, i, 1);
    forall c: nat | c < DESCRIPTOR_COLUMNS
      ensures WordAt(data, ROW_WORDS * i + 2 + c) == rows[i].descriptor[c]
    {
      EncodedRowWord(rows, i, 2 + c);
    }
    assert RowAt(data, i).descriptor == rows[i].descriptor;
  }

  lemma EncodedRowWord(rows: seq<Row>, i: nat, c: nat)
    requires |rows| < 0x1_0000_0000 && i < |rows| && c < ROW_WORDS
    requires forall j :: 0 <= j < |rows| ==> Shaped(rows[j])
    ensures HEADER_SIZE + 4 * (ROW_WORDS * i + c) + 4 <= |Encode(rows)|
    ensures Shaped(rows[i]) && WordAt(Encode(rows), ROW_WORDS * i + c) == Words(rows[i])[c]
  {
    FlatWordsAt(rows, i, c);
    EncodedWordAt(rows, ROW_WORDS * i + c);
  }

  lemma EncodedIsFinite(rows: seq<Row>)
    requires Decodable(rows)
    ensures |Encode(rows)| == HEADER_SIZE + ROW_SIZE * |rows|
    ensures FiniteRange(Encode(rows), 0, ROW_WORDS * |rows|)
  {
    FlatWordsLength(rows);
    forall k: nat | k < ROW_WORDS * |rows|
      ensures Finite(WordAt(Encode(rows), k))
    {
      var i, c := k / ROW_WORDS, k % ROW_WORDS;
      assert k == ROW_WORDS * i + c;
      EncodedRowWord(rows, i, c);
      assert FiniteRow(rows[i]);
    }
  }

  /** Decoding what was encoded returns the same rows. */
  lemma DecodeOfEncode(rows: seq<Row>)
    requires Decodable(rows)
    ensures Decode(Encode(rows)) == Decoded(rows)
  {
    var data := Encode(rows);
    EncodedHeader(rows);
    EncodedIsFinite(rows);
    forall i: nat | i < |rows|
      ensures RowAt(data, i) == rows[i]
    {
      EncodedRowAt(rows, i);
    }
    assert RowsOf(data, |rows|) == rows;
  }

  lemma ChunksEqual(a: seq<byte>, b: seq<byte>, n: nat)
    requires |a| == |b| == 4 * n
    requires forall k: nat :: k < n ==> a[4 * k..4 * k + 4] == b[4 * k..4 * k + 4]
    ensures a == b
  {
    forall j | 0 <= j < 4 * n
      ensures a[j] == b[j]
    {
      var k := j / 4;
      assert a[4 * k..4 * k + 4][j % 4] == b[4 * k..4 * k + 4][j % 4];
    }
  }

  lemma DecodedWord(data: seq<byte>, count: nat, k: nat)
    requires |data| == HEADER_SIZE + ROW_SIZE * count && k < ROW_WORDS * count
    ensures |FlatWords(RowsOf(data, count))| == ROW_WORDS * count
    ensures FlatWords(RowsOf(data, count))[k] == WordAt(data, k)
  {
    hide FlatWords, Bytes.Le32;
    var rows := RowsOf(data, count);
    var i, c := k / ROW_WORDS, k % ROW_WORDS;
    FlatWordsAt(rows, i, c);
    assert rows[i] == RowAt(data, i);
    assert k == ROW_WORDS * i + c;
  }

  lemma BodyChunk(data: seq<byte>, count: nat, k: nat)
    requires |data| == HEADER_SIZE + ROW_SIZE * count && k < ROW_WORDS * count
    ensures var ws := FlatWords(RowsOf(data, count));
      |ws| == ROW_WORDS * count && PutWords(ws)[4 * k..4 * k + 4] == data[HEADER_SIZE..][4 * k..4 * k + 4]
  {
    hide RowsOf, FlatWords;
    var chunk := data[HEADER_SIZE..][4 * k..4 * k + 4];
    DecodedWord(data, count, k);
    PutWordsAt(FlatWords(RowsOf(data, count)), k);
    assert WordAt(data, k) == Le32(chunk);
    Put32OfLe32(chunk);
  }

  lemma BodyIsPutWords(data: seq<byte>, count: nat)
    requires |data| == HEADER_SIZE + ROW_SIZE * count
    ensures PutWords(FlatWords(RowsOf(data, count))) == data[HEADER_SIZE..]
  {
    var ws := FlatWords(RowsOf(data, count));
    FlatWordsLength(RowsOf(data, count));
    forall k: nat | k < ROW_WORDS * count
      ensures PutWords(ws)[4 * k..4 * k + 4] == data[HEADER_SIZE..][4 * k..4 * k + 4]
    {
      BodyChunk(data, count, k);
    }
    ChunksEqual(PutWords(ws), data[HEADER_SIZE..], ROW_WORDS * count);
  }

  /** Encoding what was decoded returns the same bytes, so no two records decode to the same rows. */
  lemma EncodeOfDecode(data: seq<byte>)
    requires Decode(data).Decoded?
    ensures Encode(Decode(data).rows) == data
  {
    var count := |Decode(data).rows|;
    BodyIsPutWords(data, count);
    var field := data[|MAGIC|..HEADER_SIZE];
    assert data[|MAGIC|..][..4] == field;
    Put32OfLe32(field);
    assert Put32(count) == field;
    assert data == data[..|MAGIC|] + field + data[HEADER_SIZE..];
  }

  /** Without the clamp a 701st feature makes a record that no decoder accepts. */
  lemma UnclampedIsRejected(rows: seq<Row>)
    requires MAXIMUM_FEATURES < |rows| < 0x1_0000_0000
    ensures Decode(Encode(rows)) == Rejected(BadCount(|rows|))
  {
    EncodedHeader(rows);
  }

  // ---------------------------------------------------------------- byte by byte

  /** The k-th word of a record's body, and whether its exponent bits, the low seven of its last byte and the high one
      of the byte before, are all ones. */
  function Word(data: seq<byte>, k: nat): int
    requires 12 + 4 * k + 4 <= |data|
  {
    Join4(data[12 + 4 * k], data[13 + 4 * k], data[14 + 4 * k], data[15 + 4 * k])
  }

  predicate NotFinite(data: seq<byte>, k: nat)
    requires 12 + 4 * k + 4 <= |data|
  {
    data[15 + 4 * k] as int % 128 == 127 && data[14 + 4 * k] as int >= 128
  }

  lemma WordBytes(data: seq<byte>, k: nat)
    requires 12 + 4 * k + 4 <= |data|
    ensures WordAt(data, k) == Word(data, k) && (Finite(WordAt(data, k)) <==> !NotFinite(data, k))
  {
    ExponentBits(data[12 + 4 * k], data[13 + 4 * k], data[14 + 4 * k], data[15 + 4 * k]);
  }

  lemma ExponentBits(b0: byte, b1: byte, b2: byte, b3: byte)
    ensures 0 <= Join4(b0, b1, b2, b3) < 0x1_0000_0000
    ensures Finite(Join4(b0, b1, b2, b3)) <==> !(b3 as int % 128 == 127 && b2 as int >= 128)
  {
    var w := Join4(b0, b1, b2, b3);
    var low: int := b0 as int + 0x100 * b1 as int + 0x1_0000 * (b2 as int % 128);
    var high: int := b2 as int / 128 + 2 * b3 as int;
    assert w == low + 0x80_0000 * high && 0 <= low < 0x80_0000;
    Quotient(low, high);
    HighByte(b2, b3);
    hide Bytes.Join4;
  }

  lemma Quotient(low: int, high: int)
    requires 0 <= low < 0x80_0000
    ensures (low + 0x80_0000 * high) / 0x80_0000 == high
  {
  }

  lemma HighByte(b2: byte, b3: byte)
    ensures (b2 as int / 128 + 2 * b3 as int) % 0x100 == b2 as int / 128 + 2 * (b3 as int % 128)
    ensures b2 as int / 128 == if b2 as int >= 128 then 1 else 0
  {
  }

  /** The header: the eight letters SY82FT01, then the number of rows as a little-endian word. */
  predicate Header(data: seq<byte>) {
    |data| >= 12 && data[..8] == [0x53, 0x59, 0x38, 0x32, 0x46, 0x54, 0x30, 0x31]
  }

  function Count(data: seq<byte>): int
    requires Header(data)
  {
    Join4(data[8], data[9], data[10], data[11])
  }

  /** A record is accepted exactly when it has the header, a count from 8 to 700, 520 bytes per row and no word that
      is not finite. Row i is the words 130 * i (x), 130 * i + 1 (y), and the 128 that follow. */
  lemma RecordBytes(data: seq<byte>)
    ensures Decode(data).Decoded? <==>
              && Header(data) && 8 <= Count(data) <= 700 && |data| == 12 + 520 * Count(data)
              && forall k: nat :: k < 130 * Count(data) ==> !NotFinite(data, k)
    ensures Decode(data).Decoded? ==>
              var rows := Decode(data).rows;
              && |rows| == Count(data)
              && forall i: nat :: i < |rows| ==>
                   && rows[i].x == Word(data, 130 * i) && rows[i].y == Word(data, 130 * i + 1)
                   && |rows[i].descriptor| == 128
                   && forall c: nat :: c < 128 ==> rows[i].descriptor[c] == Word(data, 130 * i + 2 + c)
  {
    HeaderBytes(data);
    if Header(data) && |data| == 12 + 520 * Count(data) {
      forall k: nat | k < 130 * Count(data)
        ensures WordAt(data, k) == Word(data, k) && (Finite(WordAt(data, k)) <==> !NotFinite(data, k))
      {
        WordBytes(data, k);
      }
      hide Finite, Word, NotFinite, Bytes.Le32, Count, Header;
    }
  }

  lemma HeaderBytes(data: seq<byte>)
    ensures GoodHeader(data) <==> Header(data)
    ensures Header(data) ==> Le32(data[|MAGIC|..]) == Count(data)
  {
  }

  /** A refused record is refused for the first thing that is wrong with it: the header, the count, the length, or the
      first word that is not finite. */
  lemma RefusalBytes(data: seq<byte>)
    requires Decode(data).Rejected?
    ensures var e := Decode(data).error;
      if !Header(data) then e == BadHeader
      else if Count(data) < 8 || Count(data) > 700 then e.BadCount? && e.count == Count(data)
      else if |data| != 12 + 520 * Count(data) then e == BadLength
      else exists k: nat :: k < 130 * Count(data) && NotFinite(data, k)
             && (forall j: nat :: j < k ==> !NotFinite(data, j))
             && e == if k % 130 < 2 then BadPoint(k / 130) else BadDescriptor(k / 130, k % 130 - 2)
  {
    HeaderBytes(data);
    if Header(data) && 8 <= Count(data) <= 700 && |data| == 12 + 520 * Count(data) {
      forall k: nat | k < 130 * Count(data)
        ensures Finite(WordAt(data, k)) <==> !NotFinite(data, k)
      {
        WordBytes(data, k);
      }
      var k := FirstBad(data, 0, 130 * Count(data)).value;
      hide Finite, NotFinite, Bytes.Le32, Count, Header;
      assert k < 130 * Count(data) && NotFinite(data, k);
    }
  }
}
