/**
 * The login and register buttons of the client (`bank/menu.rs`). Both need
 * a non-empty id and password and an id that parses as a `u64`; the id sent
 * is its low 32 bits and the password travels as the low 32 bits of its
 * keyed SipHash. Register adds the name and phone as strings and checks
 * neither length.
 */
module ClientMenu {
  import opened Wire
  import opened FromStr
  import opened ClientBank
  import ClientExt

  const EMPTY_CREDENTIALS: Bytes := [0xE8, 0xB4, 0xA6, 0xE5, 0x8F, 0xB7, 0xE5, 0xAF, 0x86, 0xE7, 0xA0, 0x81, 0xE4, 0xB8, 0x8D, 0xE8, 0x83, 0xBD, 0xE4, 0xB8, 0xBA, 0xE7, 0xA9, 0xBA] // "账号密码不能为空"
  const ID_NOT_NUMBER: Bytes := [0xE8, 0xB4, 0xA6, 0xE5, 0x8F, 0xB7, 0xE9, 0x9C, 0x80, 0xE8, 0xA6, 0x81, 0xE4, 0xB8, 0xBA, 0xE6, 0x95, 0xB0, 0xE5, 0xAD, 0x97] // "账号需要为数字"

  /**
   * The credential check both buttons share: the parsed id, or the error
   * box. `sip` is `SipHasher::new_with_keys(233, 9961)` fed with the
   * password and finished.
   */
  function Credentials(id: Bytes, password: Bytes): (r: Result<u64, Bytes>)
    ensures r.Err? <==> id == [] || password == [] || ParseUnsigned(id, U64_LIMIT).None?
    ensures r.Err? ==> r.error == if id == [] || password == [] then EMPTY_CREDENTIALS else ID_NOT_NUMBER
    ensures r.Ok? ==> ParseUnsigned(id, U64_LIMIT) == Some(r.value)
  {
    if id == [] || password == [] then Err(EMPTY_CREDENTIALS)
    else
      match ParseUnsigned(id, U64_LIMIT)
      case None => Err(ID_NOT_NUMBER)
      case Some(n) => Ok(n)
  }

  /** The login button. */
  function LoginRequest(id: Bytes, password: Bytes, sip: Bytes -> u64): (r: Outcome)
    ensures !r.Nothing?
    ensures r.Complain? <==> Credentials(id, password).Err?
    ensures r.Send? ==>
      var n := Credentials(id, password).value;
      r.packet == Header() + Be32(LowU32(n)) + Be32(LowU32(sip(password)))
  {
    match Credentials(id, password)
    case Err(msg) => Complain(msg)
    case Ok(n) => Send(Header() + Be32(LowU32(n)) + Be32(LowU32(sip(password))))
  }

  /** The register button. */
  function RegisterRequest(id: Bytes, password: Bytes, name: Bytes, phone: Bytes, sip: Bytes -> u64): (r: Outcome)
    ensures !r.Nothing?
    ensures r.Complain? <==> Credentials(id, password).Err?
    ensures r.Send? ==>
      var n := Credentials(id, password).value;
      r.packet == Header() + Be32(LowU32(n)) + Be32(LowU32(sip(password))) + StrField(name) + StrField(phone)
  {
    match Credentials(id, password)
    case Err(msg) => Complain(msg)
    case Ok(n) => Send(Header() + Be32(LowU32(n)) + Be32(LowU32(sip(password))) + StrField(name) + StrField(phone))
  }

  /** The login packet's body is exactly 8 bytes and the register packet's body at least 12. */
  lemma RequestLengths(id: Bytes, password: Bytes, name: Bytes, phone: Bytes, sip: Bytes -> u64)
    ensures var r := LoginRequest(id, password, sip); r.Send? ==> |r.packet| == 16 && r.packet[..8] == Header()
    ensures var r := RegisterRequest(id, password, name, phone, sip); r.Send? ==>
      |r.packet| == 20 + |name| + |phone| && r.packet[..8] == Header()
  {
  }

  /** `Login::render`'s click body. */
  method LoginClick(out: Outbox, id: Bytes, password: Bytes, sip: Bytes -> u64) returns (shown: Option<Bytes>)
    modifies out
    ensures
      var o := LoginRequest(id, password, sip);
      shown == ShownBy(o) && out.sent == old(out.sent) + SentBy(o)
  {
    if |id| == 0 || |password| == 0 {
      assert LoginRequest(id, password, sip) == Complain(EMPTY_CREDENTIALS);
      return Some(EMPTY_CREDENTIALS);
    }
    var parsed := ParseUnsigned(id, U64_LIMIT);
    if parsed.None? {
      assert LoginRequest(id, password, sip) == Complain(ID_NOT_NUMBER);
      return Some(ID_NOT_NUMBER);
    }
    var pswd := sip(password);
    assert LoginRequest(id, password, sip) == Send(Header() + Be32(LowU32(parsed.value)) + Be32(LowU32(pswd)));
    SendCredentials(out, LowU32(parsed.value), LowU32(pswd));
    shown := None;
  }

  /** `Register::render`'s click body. */
  method RegisterClick(out: Outbox, id: Bytes, password: Bytes, name: Bytes, phone: Bytes, sip: Bytes -> u64)
      returns (shown: Option<Bytes>)
    modifies out
    ensures
      var o := RegisterRequest(id, password, name, phone, sip);
      shown == ShownBy(o) && out.sent == old(out.sent) + SentBy(o)
  {
    if |id| == 0 || |password| == 0 {
      assert RegisterRequest(id, password, name, phone, sip) == Complain(EMPTY_CREDENTIALS);
      return Some(EMPTY_CREDENTIALS);
    }
    var parsed := ParseUnsigned(id, U64_LIMIT);
    if parsed.None? {
      assert RegisterRequest(id, password, name, phone, sip) == Complain(ID_NOT_NUMBER);
      return Some(ID_NOT_NUMBER);
    }
    var pswd := sip(password);
    assert RegisterRequest(id, password, name, phone, sip)
        == Send(Header() + Be32(LowU32(parsed.value)) + Be32(LowU32(pswd)) + StrField(name) + StrField(phone));
    SendRegistration(out, LowU32(parsed.value), LowU32(pswd), name, phone);
    shown := None;
  }

  /** The tail of the login click: the header, the id and password words, then the send. */
  method SendCredentials(out: Outbox, id: u32, pswd: u32)
    modifies out
    ensures out.sent == old(out.sent) + [Header() + Be32(id) + Be32(pswd)]
  {
    var data := new ClientExt.Packet();
    data.AddHeader();
    data.PutU32(id);
    data.PutU32(pswd);
    assert data.data == Header() + Be32(id) + Be32(pswd);
    out.Send(data.data);
  }

  /** The tail of the register click: the header, the two words, name and phone, then the send. */
  method SendRegistration(out: Outbox, id: u32, pswd: u32, name: Bytes, phone: Bytes)
    modifies out
    ensures out.sent == old(out.sent) + [Header() + Be32(id) + Be32(pswd) + StrField(name) + StrField(phone)]
  {
    var data := new ClientExt.Packet();
    data.AddHeader();
    data.PutU32(id);
    data.PutU32(pswd);
    ghost var words := data.data;
    assert words == Header() + Be32(id) + Be32(pswd);
    data.WriteString(name);
    data.WriteString(phone);
    assert data.data == words + StrField(name) + StrField(phone);
    out.Send(data.data);
  }
}
