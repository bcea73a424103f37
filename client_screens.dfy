/**
 * The withdraw and transfer screens of the client (`bank/withdraw.rs`,
 * `bank/transfer.rs`): the amount (and target) typed in, the check made
 * before sending, and the request packet. Only the withdraw screen checks
 * the amount against the balance the client last saw; neither checks the
 * server's cap.
 */
module ClientScreens {
  import opened Wire
  import opened FromStr
  import opened ClientBank
  import ClientExt

  const NOT_A_NUMBER: Bytes := [0xE9, 0x9C, 0x80, 0xE8, 0xA6, 0x81, 0xE4, 0xB8, 0xBA, 0xE6, 0x95, 0xB0, 0xE5, 0xAD, 0x97] // "需要为数字"
  const NO_MONEY: Bytes := [0xE4, 0xBD, 0xA0, 0xE6, 0xB2, 0xA1, 0xE9, 0x92, 0xB1, 0xE8, 0xBF, 0x98, 0xE6, 0x83, 0xB3, 0xE5, 0x8F, 0x96, 0xE6, 0xAC, 0xBE, 0xF0, 0x9F, 0x98, 0x93] // "你没钱还想取款😓"

  /** The withdraw screen: the user snapshot and the amount text being edited. */
  datatype Withdraw = Withdraw(user: User, amount: Bytes)

  /** The transfer screen: the user snapshot, the target text and the amount text. */
  datatype Transfer = Transfer(user: User, target: Bytes, amount: Bytes)

  /** `Withdraw::new` and `Transfer::new`: the text fields start empty. */
  function NewWithdraw(user: User): (r: Withdraw)
    ensures r.user == user && r.amount == []
  {
    Withdraw(user, [])
  }

  function NewTransfer(user: User): (r: Transfer)
    ensures r.user == user && r.target == [] && r.amount == []
  {
    Transfer(user, [], [])
  }

  /** `u32::from_str`. */
  function ParseU32(s: Bytes): (r: Option<u32>)
    ensures r.Some? <==> ParseUnsigned(s, U32_LIMIT).Some?
    ensures r.Some? ==> r.value as nat == ParseUnsigned(s, U32_LIMIT).value
  {
    match ParseUnsigned(s, U32_LIMIT)
    case None => None
    case Some(n) => Some(n as u32)
  }

  function WithdrawPacket(amount: u32): Bytes {
    Header() + [1] + Be32(amount)
  }

  function TransferPacket(target: u32, amount: u32): Bytes {
    Header() + [2] + Be32(target) + Be32(amount)
  }

  /** The withdraw button. */
  function WithdrawRequest(w: Withdraw): (r: Outcome)
    ensures r.Complain? <==> ParseU32(w.amount).None? || ParseU32(w.amount).value > w.user.balance
    ensures r.Complain? ==> r.msg == if ParseU32(w.amount).None? then NOT_A_NUMBER else NO_MONEY
    ensures r.Nothing? <==> ParseU32(w.amount) == Some(0)
    ensures r.Send? ==> r.packet == WithdrawPacket(ParseU32(w.amount).value)
  {
    match ParseU32(w.amount)
    case None => Complain(NOT_A_NUMBER)
    case Some(amount) =>
      if amount > w.user.balance then Complain(NO_MONEY)
      else if amount > 0 then Send(WithdrawPacket(amount))
      else Nothing
  }

  /** The transfer button: the target is parsed first, then the amount. */
  function TransferRequest(t: Transfer): (r: Outcome)
    ensures r.Complain? <==> ParseU32(t.target).None? || ParseU32(t.amount).None?
    ensures r.Complain? ==> r.msg == NOT_A_NUMBER
    ensures r.Nothing? <==> ParseU32(t.target).Some? && ParseU32(t.amount) == Some(0)
    ensures r.Send? ==> r.packet == TransferPacket(ParseU32(t.target).value, ParseU32(t.amount).value)
  {
    match ParseU32(t.target)
    case None => Complain(NOT_A_NUMBER)
    case Some(target) =>
      match ParseU32(t.amount)
      case None => Complain(NOT_A_NUMBER)
      case Some(amount) =>
        if amount > 0 then Send(TransferPacket(target, amount)) else Nothing
  }

  /** Every withdraw request sent asks for a positive amount no larger than the balance shown. */
  lemma WithdrawSentInBalance(w: Withdraw)
    ensures var r := WithdrawRequest(w);
      r.Send? ==>
        exists amount: u32 :: 0 < amount <= w.user.balance && r.packet == WithdrawPacket(amount)
  {
    var r := WithdrawRequest(w);
    if r.Send? {
      var amount := ParseU32(w.amount).value;
      assert 0 < amount <= w.user.balance && r.packet == WithdrawPacket(amount);
    }
  }

  /** Every transfer request sent asks for a positive amount, whatever the balance shown. */
  lemma TransferIgnoresBalance(t: Transfer, balance: u32)
    ensures TransferRequest(t) == TransferRequest(t.(user := t.user.(balance := balance)))
    ensures var r := TransferRequest(t);
      r.Send? ==> exists target: u32, amount: u32 :: 0 < amount && r.packet == TransferPacket(target, amount)
  {
    var r := TransferRequest(t);
    if r.Send? {
      var target, amount := ParseU32(t.target).value, ParseU32(t.amount).value;
      assert 0 < amount && r.packet == TransferPacket(target, amount);
    }
  }

  /** The packets carry the opcode and body lengths the server's logged state routes on. */
  lemma PacketShapes(target: u32, amount: u32)
    ensures var p := WithdrawPacket(amount); |p| == 13 && p[..8] == Header() && p[8] == 1
    ensures var p := TransferPacket(target, amount); |p| == 17 && p[..8] == Header() && p[8] == 2
  {
  }

  /** "Back" on either screen: the main screen, showing the same user. */
  function WithdrawBack(w: Withdraw): (r: Index)
    ensures r.user == w.user
  {
    Index(w.user)
  }

  function TransferBack(t: Transfer): (r: Index)
    ensures r.user == t.user
  {
    Index(t.user)
  }

  /** `Withdraw::render`'s click body. */
  method WithdrawClick(out: Outbox, w: Withdraw) returns (shown: Option<Bytes>)
    modifies out
    ensures
      var o := WithdrawRequest(w);
      shown == ShownBy(o) && out.sent == old(out.sent) + SentBy(o)
  {
    var parsed := ParseU32(w.amount);
    if parsed.None? {
      assert WithdrawRequest(w) == Complain(NOT_A_NUMBER);
      return Some(NOT_A_NUMBER);
    }
    var amount := parsed.value;
    if amount > w.user.balance {
      assert WithdrawRequest(w) == Complain(NO_MONEY);
      return Some(NO_MONEY);
    }
    if amount > 0 {
      assert WithdrawRequest(w) == Send(WithdrawPacket(amount));
      SendWithdraw(out, amount);
    } else {
      assert WithdrawRequest(w) == Nothing;
    }
    shown := None;
  }

  method SendWithdraw(out: Outbox, amount: u32)
    modifies out
    ensures out.sent == old(out.sent) + [WithdrawPacket(amount)]
  {
    var data := new ClientExt.Packet();
    data.AddHeader();
    data.PutU8(1);
    data.PutU32(amount);
    assert data.data == WithdrawPacket(amount);
    out.Send(data.data);
  }

  /** `Transfer::render`'s click body. */
  method TransferClick(out: Outbox, t: Transfer) returns (shown: Option<Bytes>)
    modifies out
    ensures
      var o := TransferRequest(t);
      shown == ShownBy(o) && out.sent == old(out.sent) + SentBy(o)
  {
    var target := ParseU32(t.target);
    if target.None? {
      assert TransferRequest(t) == Complain(NOT_A_NUMBER);
      return Some(NOT_A_NUMBER);
    }
    var amount := ParseU32(t.amount);
    if amount.None? {
      assert TransferRequest(t) == Complain(NOT_A_NUMBER);
      return Some(NOT_A_NUMBER);
    }
    if amount.value > 0 {
      assert TransferRequest(t) == Send(TransferPacket(target.value, amount.value));
      SendTransfer(out, target.value, amount.value);
    } else {
      assert TransferRequest(t) == Nothing;
    }
    shown := None;
  }

  method SendTransfer(out: Outbox, target: u32, amount: u32)
    modifies out
    ensures out.sent == old(out.sent) + [TransferPacket(target, amount)]
  {
    var data := new ClientExt.Packet();
    data.AddHeader();
    data.PutU8(2);
    data.PutU32(target);
    data.PutU32(amount);
    assert data.data == TransferPacket(target, amount);
    out.Send(data.data);
  }
}
