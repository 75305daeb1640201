/** The three independent checkers of the sensor's image response. */
module ImageFrame {
  import opened Bytes
  import Raster

  const HEADER_SIZE: nat := 18
  const IMAGE_RESPONSE_LENGTH: nat := 8082
  const IMAGE_WIDTH: nat := 56
  const IMAGE_HEIGHT: nat := 144

  datatype Record = Record(width: nat, height: nat, flags: seq<byte>, pixels: seq<byte>)

  /** `parse_image` of the summary tool, after the hexadecimal text is decoded. */
  function ParseRecord(payload: seq<byte>): Option<Record> {
    if |payload| < HEADER_SIZE then None
    else
      var status := FromBytesLittle(payload[0..2]);
      var declared := FromBytesLittle(payload[2..6]);
      var width := FromBytesLittle(payload[6..8]);
      var height := FromBytesLittle(payload[8..10]);
      var pixels := payload[HEADER_SIZE..];
      if status != 0 || declared != |payload| - 6 then None
      else if width == 0 || height == 0 || width * height != |pixels| then None
      else Some(Record(width, height, payload[10..18], pixels))
  }

  datatype ParseStatus = Ok | TooShort | DeviceStatus | Length | Dimensions

  class Image {
    var width: u16
    var height: u16
    var metadata: seq<byte>
    var pixels: seq<byte>

    function Value(): Record
      reads this
    {
      Record(width, height, metadata, pixels)
    }
  }

  lemma HeaderFieldsAgree(data: seq<byte>)
    requires |data| >= HEADER_SIZE
    ensures FromBytesLittle(data[0..2]) == Le16(data)
    ensures FromBytesLittle(data[2..6]) == Le32(data[2..])
    ensures FromBytesLittle(data[6..8]) == Le16(data[6..])
    ensures FromBytesLittle(data[8..10]) == Le16(data[8..])
  {
    LittleEndianReadersAgree(data[0..2]);
    LittleEndianReadersAgree(data[2..6]);
    LittleEndianReadersAgree(data[6..8]);
    LittleEndianReadersAgree(data[8..10]);
  }

  /** `syna0082_parse_image`: accepts exactly what the summary tool accepts, with the same four values,
      tells the first failing check apart, and leaves the caller's structure alone on failure. */
  method ParseImage(data: seq<byte>, image: Image?) returns (status: ParseStatus)
    modifies image
    ensures status == Ok <==> image != null && ParseRecord(data).Some?
    ensures status == Ok ==> image.Value() == ParseRecord(data).value
    ensures status != Ok && image != null ==> unchanged(image)
    ensures status == TooShort <==> image == null || |data| < HEADER_SIZE
    ensures status == DeviceStatus <==> image != null && |data| >= HEADER_SIZE && data[0..2] != [0, 0]
    ensures status == Length <==> image != null && |data| >= HEADER_SIZE && data[0..2] == [0, 0]
                                  && FromBytesLittle(data[2..6]) != |data| - 6
  {
    if image == null || |data| < HEADER_SIZE {
      return TooShort;
    }
    HeaderFieldsAgree(data);
    var code := Le16(data);
    assert code == 0 <==> data[0..2] == [0, 0];
    if code != 0 {
      return DeviceStatus;
    }
    var declared := Le32(data[2..]);
    if declared != |data| - 6 {
      return Length;
    }
    var width := Le16(data[6..]);
    var height := Le16(data[8..]);
    var pixelsLength := |data| - HEADER_SIZE;
    if width == 0 || height == 0 || width as int * height as int != pixelsLength {
      return Dimensions;
    }
    image.width := width;
    image.height := height;
    image.metadata := data[10..18];
    image.pixels := data[HEADER_SIZE..];
    return Ok;
  }

  /** The checks of `capture_read_cb` before it copies the pixels. */
  predicate DriverAccepts(data: seq<byte>) {
    && |data| == IMAGE_RESPONSE_LENGTH
    && Le16(data) == 0
    && Le32(data[2..]) == IMAGE_RESPONSE_LENGTH - 6
    && Le16(data[6..]) == IMAGE_WIDTH
    && Le16(data[8..]) == IMAGE_HEIGHT
  }

  lemma DriverAcceptsExactly(data: seq<byte>)
    ensures DriverAccepts(data) <==>
              && |data| == IMAGE_RESPONSE_LENGTH
              && ParseRecord(data).Some?
              && ParseRecord(data).value.width == IMAGE_WIDTH
              && ParseRecord(data).value.height == IMAGE_HEIGHT
  {
    if |data| >= HEADER_SIZE {
      HeaderFieldsAgree(data);
    }
  }

  lemma ProductBound(w: u16, h: u16)
    ensures w as int * h as int <= 0xFFFF * 0xFFFF
  {
    Raster.Monotone(w as int, 0xFFFF, h as int);
  }

  /** The size product of the C parser stays below 2^32, so it cannot wrap even in a 32-bit `size_t`. */
  lemma SizeProductFits(data: seq<byte>)
    requires |data| >= HEADER_SIZE
    ensures Le16(data[6..]) as int * Le16(data[8..]) as int < 0x1_0000_0000
  {
    ProductBound(Le16(data[6..]), Le16(data[8..]));
  }

  // ---------------------------------------------------------------- byte by byte

  /** A record by its bytes: two zero bytes, the length that follows them as a little-endian word, the dimensions as
      little-endian half words, eight bytes of flags, and the pixels from offset 18 on. */
  lemma RecordBytes(data: seq<byte>)
    ensures ParseRecord(data).Some? <==>
              && |data| >= 18 && data[0] == 0 && data[1] == 0
              && Join4(data[2], data[3], data[4], data[5]) == |data| - 6
              && Join2(data[6], data[7]) > 0 && Join2(data[8], data[9]) > 0
              && Join2(data[6], data[7]) * Join2(data[8], data[9]) == |data| - 18
    ensures ParseRecord(data).Some? ==>
              var r := ParseRecord(data).value;
              && r.width == Join2(data[6], data[7]) && r.height == Join2(data[8], data[9])
              && r.flags == data[10..18] && r.pixels == data[18..]
  {
    if |data| >= 18 {
      HeaderFieldsAgree(data);
    }
  }

  /** The frames the driver accepts, by their bytes. */
  lemma AcceptedFrameBytes(data: seq<byte>)
    ensures DriverAccepts(data) <==>
              |data| == 8082 && data[..10] == [0, 0, 0x8c, 0x1f, 0, 0, 56, 0, 144, 0]
  {
    if |data| == 8082 {
      Halves(data[0], data[1], 0);
      Halves(data[6], data[7], 56);
      Halves(data[8], data[9], 144);
      Quarters(data[2], data[3], data[4], data[5]);
      assert data[..10] == [data[0], data[1], data[2], data[3], data[4], data[5], data[6], data[7], data[8], data[9]];
    }
  }

  lemma Halves(a: byte, b: byte, v: byte)
    ensures a as int + 0x100 * b as int == v as int <==> a == v && b == 0
  {
  }

  lemma Quarters(a: byte, b: byte, c: byte, d: byte)
    ensures a as int + 0x100 * b as int + 0x1_0000 * c as int + 0x100_0000 * d as int == 8076
            <==> a == 0x8c && b == 0x1f && c == 0 && d == 0
  {
  }
}
