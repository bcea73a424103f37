/**
 * The server's copy of the packet codec: `PacketWriteExt` on a `Vec<u8>`
 * (modelled as the `Packet` class) and `PacketReadExt` on a `&[u8]` cursor
 * (modelled as the `Cursor` class), together with the `bytes` getters and
 * putters the handlers call on them.
 */
module ServerExt {
  import opened Wire

  /** A packet buffer that only ever grows at the end. */
  class Packet {
    var data: Bytes

    constructor ()
      ensures data == []
    {
      data := [];
    }

    /** `add_header`: delegates to the crate's fixed-header writer. */
    method AddHeader()
      modifies this
      ensures data == old(data) + Header()
      ensures data[..|old(data)|] == old(data)
    {
      AddFixedHeader(this);
    }

    /** `write_string`: a 16-bit big-endian length, then the bytes; never fails. */
    method WriteString(s: Bytes)
      modifies this
      ensures data == old(data) + StrField(s)
      ensures |data| == |old(data)| + |s| + 2
    {
      ExtendFromSlice(Be16(|s| % U16_LIMIT));
      ExtendFromSlice(s);
    }

    method ExtendFromSlice(b: Bytes)
      modifies this
      ensures data == old(data) + b
    {
      data := data + b;
    }

    method PutU8(x: u8)
      modifies this
      ensures data == old(data) + [x]
    {
      data := data + [x];
    }

    method PutU32(x: u32)
      modifies this
      ensures data == old(data) + Be32(x)
    {
      data := data + Be32(x);
    }

    method PutI32(x: i32)
      modifies this
      ensures data == old(data) + I32Bytes(x)
    {
      data := data + I32Bytes(x);
    }

    method PutI64(x: i64)
      modifies this
      ensures data == old(data) + I64Bytes(x)
    {
      data := data + I64Bytes(x);
    }
  }

  /** `add_fixed_header`: the magic tag, then the version as a big-endian u32. */
  method AddFixedHeader(p: Packet)
    modifies p
    ensures p.data == old(p.data) + MAGIC + Be32(CURRENT_VERSION)
    ensures p.data == old(p.data) + Header()
  {
    p.ExtendFromSlice(MAGIC);
    p.ExtendFromSlice(Be32(CURRENT_VERSION));
  }

  /** A `&[u8]` slice that readers advance from the front. */
  class Cursor {
    var rest: Bytes

    constructor (data: Bytes)
      ensures rest == data
    {
      rest := data;
    }

    /** `get_u8`; the caller has checked the length (`bytes` panics otherwise). */
    method GetU8() returns (x: u8)
      requires |rest| >= 1
      modifies this
      ensures TakeU8(old(rest)) == Some(Take(x, rest))
    {
      x := rest[0];
      rest := rest[1..];
    }

    method GetU16() returns (x: u16)
      requires |rest| >= 2
      modifies this
      ensures old(rest) == Be16(x) + rest
      ensures x == FromBe(old(rest)[..2]) && rest == old(rest)[2..]
    {
      Pow256Values();
      BeBytesFromBe(rest[..2]);
      x := FromBe(rest[..2]);
      assert rest == rest[..2] + rest[2..];
      rest := rest[2..];
    }

    method GetU32() returns (x: u32)
      requires |rest| >= 4
      modifies this
      ensures TakeU32(old(rest)) == Some(Take(x, rest))
    {
      Pow256Values();
      x := FromBe(rest[..4]);
      rest := rest[4..];
    }

    method GetI32() returns (x: i32)
      requires |rest| >= 4
      modifies this
      ensures TakeI32(old(rest)) == Some(Take(x, rest))
    {
      var u := GetU32();
      x := AsI32(u);
    }

    /**
     * `read_packet_string`. The declared length is consumed before the
     * payload is checked, so a truncated or ill-formed payload leaves the
     * cursor two bytes further on.
     */
    method ReadPacketString() returns (r: Result<Bytes, StrError>)
      modifies this
      ensures StrRead(r, rest) == ReadStr(old(rest))
      ensures r.Ok? ==> old(rest) == StrField(r.value) + rest
      ensures r.Err? ==> rest == old(rest) || rest == old(rest)[2..]
    {
      if |rest| < 2 {
        return Err(Truncated);
      }
      var len := GetU16();
      if |rest| < len {
        return Err(Truncated);
      }
      if !ValidUtf8(rest[..len]) {
        return Err(InvalidUtf8);
      }
      r := Ok(rest[..len]);
      rest := rest[len..];
    }
  }
}
