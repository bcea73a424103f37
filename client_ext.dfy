/**
 * The client's copy of the packet codec (byte-for-byte the same format as
 * the server's): `PacketWriteExt` on a `Vec<u8>` and `PacketReadExt` on a
 * `&[u8]` cursor, plus the `bytes` getters the response decoder uses. The
 * decoder does not check lengths before `get_u32` and friends, which panic
 * on a short buffer; here those getters answer `None` instead.
 */
module ClientExt {
  import opened Wire

  class Packet {
    var data: Bytes

    constructor ()
      ensures data == []
    {
      data := [];
    }

    /** `add_header`: `PACKET_HEADER`, then `CURRENT_VERSION` big-endian. */
    method AddHeader()
      modifies this
      ensures data == old(data) + MAGIC + Be32(CURRENT_VERSION)
      ensures data == old(data) + Header()
    {
      data := data + MAGIC;
      data := data + Be32(CURRENT_VERSION);
    }

    /** `write_string`: the same truncated 16-bit prefix as the server's copy. */
    method WriteString(s: Bytes)
      modifies this
      ensures data == old(data) + StrField(s)
      ensures |data| == |old(data)| + |s| + 2
    {
      data := data + Be16(|s| % U16_LIMIT);
      data := data + s;
    }

    method PutU8(x: u8)
      modifies this
      ensures data == old(data) + [x]
    {
      data := data + [x];
    }

    method PutU32(x: u32)
      modifies this
      ensures data == old(data) + Be32(x)
    {
      data := data + Be32(x);
    }
  }

  class Cursor {
    var rest: Bytes

    constructor (data: Bytes)
      ensures rest == data
    {
      rest := data;
    }

    /** `get_u32`, or `None` where `bytes` would panic. */
    method TryGetU32() returns (r: Option<u32>)
      modifies this
      ensures r.None? ==> |old(rest)| < 4 && rest == old(rest)
      ensures r.Some? ==> TakeU32(old(rest)) == Some(Take(r.value, rest))
      ensures TakeU32(old(rest)).None? ==> r.None?
    {
      if |rest| < 4 {
        return None;
      }
      Pow256Values();
      r := Some(FromBe(rest[..4]));
      rest := rest[4..];
    }

    method TryGetI32() returns (r: Option<i32>)
      modifies this
      ensures r.None? ==> |old(rest)| < 4 && rest == old(rest)
      ensures r.Some? ==> TakeI32(old(rest)) == Some(Take(r.value, rest))
    {
      var u := TryGetU32();
      if u.None? {
        return None;
      }
      r := Some(AsI32(u.value));
    }

    method TryGetI64() returns (r: Option<i64>)
      modifies this
      ensures r.None? ==> |old(rest)| < 8 && rest == old(rest)
      ensures r.Some? ==> TakeI64(old(rest)) == Some(Take(r.value, rest))
    {
      if |rest| < 8 {
        return None;
      }
      Pow256Values();
      r := Some(AsI64(FromBe(rest[..8])));
      rest := rest[8..];
    }

    /** `read_packet_string`, with the same cursor behaviour as the server's copy. */
    method ReadPacketString() returns (r: Result<Bytes, StrError>)
      modifies this
      ensures StrRead(r, rest) == ReadStr(old(rest))
      ensures r.Ok? ==> old(rest) == StrField(r.value) + rest
      ensures r.Err? ==> rest == old(rest) || rest == old(rest)[2..]
    {
      if |rest| < 2 {
        return Err(Truncated);
      }
      Pow256Values();
      var len := FromBe(rest[..2]);
      rest := rest[2..];
      if |rest| < len {
        return Err(Truncated);
      }
      if !ValidUtf8(rest[..len]) {
        return Err(InvalidUtf8);
      }
      r := Ok(rest[..len]);
      rest := rest[len..];
    }
  }
}
