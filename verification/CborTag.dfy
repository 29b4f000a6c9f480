/** The CBOR tag wrapper: a tag head in front of a value, written and read by shifting the major type of an integer. */
module CborTag {
  import opened Wire
  import opened Wrappers

  const TAG_OFFSET := 0xC0
  const MAX_INT64: nat := 0x7FFF_FFFF_FFFF_FFFF

  /** The head of an item, section 3 of RFC 8949: five widths. */
  function EncodeHead(major: nat, n: nat): seq<byte>
    requires major < 8 && n <= MAX_INT64
  {
    if n < 24 then [major * 32 + n]
    else if n < 0x100 then [major * 32 + 24] + BigEndian(n, 1)
    else if n < 0x1_0000 then [major * 32 + 25] + BigEndian(n, 2)
    else if n < 0x1_0000_0000 then [major * 32 + 26] + BigEndian(n, 4)
    else [major * 32 + 27] + BigEndian(n, 8)
  }

  function FromBigEndian(d: seq<byte>): nat {
    if d == [] then 0 else FromBigEndian(d[..|d| - 1]) * 256 + d[|d| - 1] as int
  }

  /** How many bytes follow the first byte of a head, by its low five bits. */
  function Width(info: nat): Option<nat> {
    if info < 24 then Some(0)
    else if info == 24 then Some(1)
    else if info == 25 then Some(2)
    else if info == 26 then Some(4)
    else if info == 27 then Some(8)
    else None
  }

  datatype Number = Number(value: int, size: nat)

  /** The signed 64-bit integer at the front, with its size. */
  function DecodeInt(d: seq<byte>): (r: Option<Number>)
    requires d != []
    ensures r.Some? ==> 1 <= r.value.size <= |d|
  {
    var major, info := d[0] as int / 32, d[0] as int % 32;
    var width := Width(info);
    if major > 1 || width.None? || |d| < 1 + width.value then None
    else
      var n := if info < 24 then info else FromBigEndian(d[1..1 + width.value]);
      if n > MAX_INT64 then None
      else Some(Number(if major == 0 then n else -1 - n, 1 + width.value))
  }

  /**
   What is read and what is refused: another major type than 0 and 1, an unknown width, too few bytes, or a
   number beyond 63 bits. Major type 1 holds the negative numbers.
   */
  lemma DecodeMeans(d: seq<byte>)
    requires d != []
    ensures var info := d[0] as int % 32;
            var width := if info < 24 then 0 else if info == 24 then 1 else if info == 25 then 2 else if info == 26 then 4 else 8;
            if d[0] >= 0x40 || info > 27 || |d| < 1 + width then DecodeInt(d) == None
            else
              var n := if info < 24 then info else FromBigEndian(d[1..1 + width]);
              if n > 0x7FFF_FFFF_FFFF_FFFF then DecodeInt(d) == None
              else DecodeInt(d) == Some(Number(if d[0] < 0x20 then n else -1 - n, 1 + width))
  {
  }

  function AddToByte(b: byte, n: int): byte {
    (b as int + n) % 256
  }

  /** A positive tag is written as an integer whose first byte is raised by 0xC0; other tags are not written. */
  function Marshal(tag: int, value: seq<byte>): seq<byte>
    requires tag <= MAX_INT64
  {
    if tag > 0 then
      var head := EncodeHead(0, tag);
      [AddToByte(head[0], TAG_OFFSET)] + head[1..] + value
    else value
  }

  datatype Tagged = Tagged(tag: int, value: seq<byte>) | BadTag | BadValue(tag: int) | IndexPanic

  /**
   Reading back: anything but a first byte 0xC0 is taken for a tag. `tag` is what the target held before,
   `accepts` whether the value's decoder takes the bytes; a bad value comes after the tag was set, and
   without bytes there is no first one to look at.
   */
  function Unmarshal(tag: int, d: seq<byte>, accepts: seq<byte> -> bool): Tagged
  {
    if d == [] then IndexPanic
    else if AddToByte(d[0], -TAG_OFFSET) > 0 then
      var b := [AddToByte(d[0], -TAG_OFFSET)] + d[1..];
      match DecodeInt(b)
      case None => BadTag
      case Some(Number(t, size)) => if accepts(b[size..]) then Tagged(t, b[size..]) else BadValue(t)
    else if accepts(d) then Tagged(tag, d) else BadValue(tag)
  }

  class WithCborTag {
    const accepts: seq<byte> -> bool
    var tag: int
    var value: seq<byte>

    constructor (tag: int, value: seq<byte>, accepts: seq<byte> -> bool)
      ensures this.tag == tag && this.value == value && this.accepts == accepts
    {
      this.tag, this.value, this.accepts := tag, value, accepts;
    }

    /** Edits a copy of the bytes, so the caller's stay as they are. */
    method UnmarshalCBOR(bytes: seq<byte>) returns (ok: bool, panicked: bool)
      modifies this
      ensures var r := Unmarshal(old(tag), bytes, accepts);
              && (ok <==> r.Tagged?) && (panicked <==> r.IndexPanic?)
              && (r.Tagged? ==> tag == r.tag && value == r.value)
              && (r.BadTag? || r.IndexPanic? ==> tag == old(tag) && value == old(value))
              && (r.BadValue? ==> tag == r.tag && value == old(value))
    {
      ok, panicked := false, false;
      if bytes == [] {
        // the first byte is read without a check
        return false, true;
      }
      var b := new byte[|bytes|](i requires 0 <= i < |bytes| => bytes[i]);
      assert b[..] == bytes;
      var rest := b[..];
      if AddToByte(b[0], -TAG_OFFSET) > 0 {
        b[0] := AddToByte(b[0], -TAG_OFFSET);
        assert b[..] == [AddToByte(bytes[0], -TAG_OFFSET)] + bytes[1..];
        var number := DecodeInt(b[..]);
        if number.None? {
          return;
        }
        tag := number.value.value;
        rest := b[number.value.size..];
      }
      ok := accepts(rest);
      if ok {
        value := rest;
      }
    }
  }

  // ------------------------------------------------------ round trip

  function Pow256(width: nat): nat {
    if width == 0 then 1 else 256 * Pow256(width - 1)
  }

  lemma {:induction false} BigEndianRoundTrip(n: nat, width: nat)
    requires n < Pow256(width)
    ensures |BigEndian(n, width)| == width && FromBigEndian(BigEndian(n, width)) == n
  {
    if width > 0 {
      assert n / 256 < Pow256(width - 1);
      BigEndianRoundTrip(n / 256, width - 1);
      var d := BigEndian(n, width);
      assert d[..width - 1] == BigEndian(n / 256, width - 1);
    }
  }

  lemma Pow256Values()
    ensures Pow256(1) == 0x100 && Pow256(2) == 0x1_0000 && Pow256(4) == 0x1_0000_0000 && Pow256(8) > MAX_INT64
  {
    assert Pow256(2) == 256 * Pow256(1) && Pow256(3) == 256 * Pow256(2) && Pow256(4) == 256 * Pow256(3);
    assert Pow256(5) == 256 * Pow256(4) && Pow256(6) == 256 * Pow256(5) && Pow256(7) == 256 * Pow256(6);
    assert Pow256(8) == 256 * Pow256(7);
  }

  /** The first byte of a non-negative head has room for the tag offset, and is 0 only for 0. */
  lemma HeadByte(n: nat)
    requires n <= MAX_INT64
    ensures EncodeHead(0, n) != [] && EncodeHead(0, n)[0] as int + 0xC0 < 256
    ensures EncodeHead(0, n)[0] == 0 <==> n == 0
  {
  }

  /** A head with following bytes decodes to the number they hold. */
  lemma WideHead(info: byte, bytes: seq<byte>, rest: seq<byte>)
    requires 24 <= info < 28 && Width(info) == Some(|bytes|) && FromBigEndian(bytes) <= MAX_INT64
    ensures DecodeInt([info] + bytes + rest) == Some(Number(FromBigEndian(bytes), 1 + |bytes|))
  {
    assert ([info] + bytes + rest)[1..1 + |bytes|] == bytes;
  }

  lemma WideHeadRoundTrip(n: nat, info: byte, width: nat, rest: seq<byte>)
    requires n <= MAX_INT64 && 24 <= info < 28 && Width(info) == Some(width) && n < Pow256(width)
    ensures DecodeInt([info] + BigEndian(n, width) + rest) == Some(Number(n, 1 + width))
    ensures |BigEndian(n, width)| == width
  {
    BigEndianRoundTrip(n, width);
    WideHead(info, BigEndian(n, width), rest);
  }

  /** Every width of a non-negative head decodes to its number. */
  lemma HeadRoundTrip(n: nat, rest: seq<byte>)
    requires n <= MAX_INT64
    ensures DecodeInt(EncodeHead(0, n) + rest) == Some(Number(n, |EncodeHead(0, n)|))
  {
    Pow256Values();
    if n < 24 {
    } else if n < 0x100 {
      WideHeadRoundTrip(n, 24, 1, rest);
    } else if n < 0x1_0000 {
      WideHeadRoundTrip(n, 25, 2, rest);
    } else if n < 0x1_0000_0000 {
      WideHeadRoundTrip(n, 26, 4, rest);
    } else {
      WideHeadRoundTrip(n, 27, 8, rest);
    }
  }

  /** Taking the offset off undoes adding it. */
  lemma ByteBack(b: byte)
    ensures AddToByte(AddToByte(b, TAG_OFFSET), -TAG_OFFSET) == b
  {
  }

  /** Taking the offset off the first byte of raised bytes gives the plain ones. */
  lemma RaisedBack(head: seq<byte>, value: seq<byte>)
    requires head != []
    ensures var d := [AddToByte(head[0], TAG_OFFSET)] + head[1..] + value;
            [AddToByte(d[0], -TAG_OFFSET)] + d[1..] == head + value
  {
    var d := [AddToByte(head[0], TAG_OFFSET)] + head[1..] + value;
    ByteBack(head[0]);
    assert d[0] == AddToByte(head[0], TAG_OFFSET) && d[1..] == head[1..] + value;
    assert [head[0]] + (head[1..] + value) == head + value;
  }

  /** The five forms of a head, section 3 of RFC 8949, byte by byte. */
  lemma HeadBytes(major: nat, n: nat)
    requires major < 8 && n <= MAX_INT64
    ensures var d := EncodeHead(major, n);
            && d != [] && d[0] as int / 32 == major && FromBigEndian(d[1..]) == (if n < 24 then 0 else n)
            && (n < 24 ==> d == [32 * major + n])
            && (24 <= n < 0x100 ==> |d| == 2 && d[0] as int % 32 == 24)
            && (0x100 <= n < 0x1_0000 ==> |d| == 3 && d[0] as int % 32 == 25)
            && (0x1_0000 <= n < 0x1_0000_0000 ==> |d| == 5 && d[0] as int % 32 == 26)
            && (0x1_0000_0000 <= n ==> |d| == 9 && d[0] as int % 32 == 27)
  {
    Pow256Values();
    if 24 <= n {
      var info, width := if n < 0x100 then 24 else if n < 0x1_0000 then 25 else if n < 0x1_0000_0000 then 26 else 27,
                         if n < 0x100 then 1 else if n < 0x1_0000 then 2 else if n < 0x1_0000_0000 then 4 else 8;
      BigEndianRoundTrip(n, width);
      assert EncodeHead(major, n) == [major * 32 + info] + BigEndian(n, width);
      assert EncodeHead(major, n)[1..] == BigEndian(n, width);
    }
  }

  /** What is written for a positive tag is that tag in front of the value, section 3.4 of RFC 8949: major type 6. */
  lemma WritesTag(tag: int, value: seq<byte>)
    requires 1 <= tag <= 0x7FFF_FFFF_FFFF_FFFF
    ensures Marshal(tag, value) == EncodeHead(6, tag) + value
    ensures Marshal(tag, value) != [] && Marshal(tag, value)[0] as int / 32 == 6
  {
    HeadBytes(6, tag);
    HeadByte(tag);
    RaisedHead(tag);
  }

  /** Raising the first byte of an unsigned integer by 0xC0 makes it a tag head. */
  lemma RaisedHead(n: nat)
    requires n <= MAX_INT64
    ensures EncodeHead(0, n) != [] && [AddToByte(EncodeHead(0, n)[0], TAG_OFFSET)] + EncodeHead(0, n)[1..] == EncodeHead(6, n)
  {
  }

  /** A tag in front of a value is read as that tag and value, whoever wrote it. */
  lemma ReadsTag(tag: int, value: seq<byte>, before: int, accepts: seq<byte> -> bool)
    requires 1 <= tag <= 0x7FFF_FFFF_FFFF_FFFF
    ensures Unmarshal(before, EncodeHead(6, tag) + value, accepts) == if accepts(value) then Tagged(tag, value) else BadValue(tag)
  {
    var head := EncodeHead(0, tag);
    RaisedHead(tag);
    HeadByte(tag);
    HeadRoundTrip(tag, value);
    RaisedBack(head, value);
    ByteBack(head[0]);
    assert (head + value)[|head|..] == value;
  }

  /** Every positive tag comes back with its value, whatever the target held before. */
  lemma TagRoundTrip(tag: int, value: seq<byte>, before: int, accepts: seq<byte> -> bool)
    requires 1 <= tag <= 0x7FFF_FFFF_FFFF_FFFF && accepts(value)
    ensures Unmarshal(before, Marshal(tag, value), accepts) == Tagged(tag, value)
  {
    WritesTag(tag, value);
    ReadsTag(tag, value, before, accepts);
  }

  /**
   A wrapper comes back as it was written exactly when its tag is positive, or the value itself starts with
   byte 0xC0 and the target held the tag already; every other untagged value loses its head.
   */
  lemma RoundTripIff(tag: int, value: seq<byte>, before: int, accepts: seq<byte> -> bool)
    requires tag <= 0x7FFF_FFFF_FFFF_FFFF && value != [] && accepts(value)
    ensures Unmarshal(before, Marshal(tag, value), accepts) == Tagged(tag, value) <==>
            tag > 0 || (tag == before && value[0] == 0xC0)
  {
    if tag > 0 {
      TagRoundTrip(tag, value, before, accepts);
    }
  }
}
