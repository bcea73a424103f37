/**
 * The session handlers of `bank/handlers.rs` as imperative code: they
 * consume the body through a cursor, call the store, build reply packets
 * by appending to a buffer and queue them on the peer's sender. Each one is
 * proved to have exactly the effect that module `Sessions` specifies.
 */
module Handlers {
  import opened Wire
  import opened Ledger
  import opened Sessions
  import ServerExt

  /** The peer's outbound channel (`Peer::sender`): every packet queued for the client, in order. */
  class Sender {
    var sent: seq<Bytes>

    constructor ()
      ensures sent == []
    {
      sent := [];
    }

    /** `sender.send(NetworkMessage::Rely(data))`; the channel is unbounded and never refuses. */
    method Send(data: Bytes)
      modifies this
      ensures sent == old(sent) + [data]
    {
      sent := sent + [data];
    }
  }

  /** `get_user`: one `SELECT`, turned into a snapshot. */
  method GetUser(server: Store, id: u32) returns (r: Result<User, Failure>)
    ensures r == FindUser(server.State(), id)
    ensures r.Ok? <==> id in server.accounts
  {
    var row := server.Lookup(id);
    if row.None? {
      return Err(UserInput(NO_SUCH_ACCOUNT));
    }
    r := Ok(UserOf(id, row.value));
  }

  /** `get_user_login`: the row must match both id and password. */
  method GetUserLogin(server: Store, id: u32, pswd: i32) returns (r: Result<User, Failure>)
    ensures r == FindLogin(server.State(), id, pswd)
    ensures r.Ok? <==> id in server.accounts && server.accounts[id].password == pswd
  {
    var row := server.Lookup(id);
    if row.None? || row.value.password != pswd {
      return Err(UserInput(WRONG_CREDENTIALS));
    }
    r := Ok(UserOf(id, row.value));
  }

  /** Build the `menu` packet field by field, as every handler does. */
  method BuildMenu(id: u32, name: Bytes, balance: Bytes, phone: Bytes) returns (data: Bytes)
    ensures data == Header() + MENU_TAG + Be32(id) + StrField(name) + balance + StrField(phone)
  {
    var p := new ServerExt.Packet();
    p.AddHeader();
    p.ExtendFromSlice(MENU_TAG);
    p.ExtendFromSlice(Be32(id));
    p.WriteString(name);
    p.ExtendFromSlice(balance);
    p.WriteString(phone);
    data := p.data;
  }

  lemma MenuLayout(u: User)
    ensures Header() + MENU_TAG + Be32(u.id) + StrField(u.name) + Be32(u.balance) + StrField(u.phone) == MenuPacket(u)
  {
  }

  /** `HandleLogin::handle`: login for an 8-byte body, register for a longer one. */
  method HandleLogin(server: Store, src: Sender, data: Bytes) returns (r: Result<Option<Session>, Failure>)
    requires server.Valid()
    modifies server, src
    ensures server.Valid()
    ensures
      var s := LoginStep(old(server.State()), data);
      r == s.result && server.State() == s.db && src.sent == old(src.sent) + s.sent
  {
    if |data| == 8 {
      var c := new ServerExt.Cursor(data);
      var id := c.GetU32();
      var pswd := c.GetI32();
      assert LoginRoute(data) == Login(id, pswd);
      var user := GetUserLogin(server, id, pswd);
      if user.Err? {
        return Err(user.error);
      }
      var u := user.value;
      var reply := BuildMenu(id, u.name, Be32(u.balance), u.phone);
      MenuLayout(u);
      src.Send(reply);
      return Ok(Some(Logged(u)));
    } else if |data| > 8 {
      var c := new ServerExt.Cursor(data);
      var id := c.GetU32();
      var pswd := c.GetI32();
      assert LoginRoute(data) == LoginRequest.Register(id, pswd, c.rest);
      r := HandleRegister(server, src, c, id, pswd);
    } else {
      return Err(Fatal(NotCorrectLen));
    }
  }

  /** The register branch of `HandleLogin::handle`, from the two strings on. */
  method HandleRegister(server: Store, src: Sender, c: ServerExt.Cursor, id: u32, pswd: i32)
      returns (r: Result<Option<Session>, Failure>)
    requires server.Valid()
    modifies server, src, c
    ensures server.Valid()
    ensures
      var s := RegisterAttempt(old(server.State()), id, pswd, old(c.rest));
      r == s.result && server.State() == s.db && src.sent == old(src.sent) + s.sent
  {
    var name := c.ReadPacketString();
    if name.Err? {
      return Err(Fatal(BadString(name.error)));
    }
    var phone := c.ReadPacketString();
    if phone.Err? {
      return Err(Fatal(BadString(phone.error)));
    }
    r := RegisterAccount(server, src, id, pswd, name.value, phone.value);
  }

  /** The register branch once both strings are read: the length rule, the unique id, the insert. */
  method RegisterAccount(server: Store, src: Sender, id: u32, pswd: i32, name: Bytes, phone: Bytes)
      returns (r: Result<Option<Session>, Failure>)
    requires server.Valid()
    modifies server, src
    ensures server.Valid()
    ensures
      var s := RegisterStep(old(server.State()), id, pswd, name, phone);
      r == s.result && server.State() == s.db && src.sent == old(src.sent) + s.sent
  {
    if |name| > NAME_MAX || |phone| > PHONE_MAX {
      return Err(UserInput(BAD_FIELD_LENGTH));
    }
    var existing := server.Lookup(id);
    if existing.Some? {
      return Err(UserInput(ACCOUNT_EXISTS));
    }
    var ok := server.InsertAccount(id, pswd, 0, name, phone);
    assert ok;
    var u := User(id, 0, name, phone);
    // The balance is written as the bytes of `0u32`, the same in either byte order.
    var reply := BuildMenu(id, name, Be32(0), phone);
    MenuLayout(u);
    src.Send(reply);
    r := Ok(Some(Logged(u)));
  }

  /** The head of `LoggedHandler::handle`: the opcode, then the exact length of what follows it. */
  method ParseLogged(data: Bytes) returns (route: LoggedRequest)
    ensures route == LoggedRoute(data)
  {
    if |data| < 1 {
      return Empty;
    }
    var c := new ServerExt.Cursor(data);
    var packetType := c.GetU8();
    if packetType == 0 && |c.rest| == 4 {
      var amount := c.GetU32();
      route := Deposit(amount);
    } else if packetType == 1 && |c.rest| == 4 {
      var amount := c.GetU32();
      route := Withdraw(amount);
    } else if packetType == 2 && |c.rest| == 8 {
      var target := c.GetU32();
      var amount := c.GetU32();
      route := Transfer(target, amount);
    } else if packetType == 3 && |c.rest| == 0 {
      route := QueryHistory;
    } else {
      route := Unknown;
    }
  }

  /** `LoggedHandler`: the handler of a logged-in session, holding its snapshot of the account. */
  class LoggedHandler {
    var user: User

    constructor (user: User)
      ensures this.user == user
    {
      this.user := user;
    }

    /** `LoggedHandler::handle`: dispatch on the opcode and the exact remaining length. */
    method Handle(server: Store, src: Sender, data: Bytes, now: Time) returns (r: Result<Option<Session>, Failure>)
      requires server.Valid()
      modifies this, server, src
      ensures server.Valid()
      ensures
        var s := LoggedStep(old(user), old(server.State()), data, now);
        && r == s.result && Logged(user) == s.session
        && server.State() == s.db && src.sent == old(src.sent) + s.sent
    {
      var route := ParseLogged(data);
      r := Dispatch(server, src, route, now);
    }

    /** The arms of the `match`, once the request is recognised. */
    method Dispatch(server: Store, src: Sender, route: LoggedRequest, now: Time) returns (r: Result<Option<Session>, Failure>)
      requires server.Valid()
      modifies this, server, src
      ensures server.Valid()
      ensures
        var s := RouteStep(old(user), old(server.State()), route, now);
        && r == s.result && Logged(user) == s.session
        && server.State() == s.db && src.sent == old(src.sent) + s.sent
    {
      match route
      case Empty =>
        r := Err(Fatal(WrongPacketLength));
      case Unknown =>
        r := Err(Fatal(WrongPacketType));
      case Deposit(amount) =>
        r := HandleDeposit(server, src, amount, now);
      case Withdraw(amount) =>
        r := HandleWithdraw(server, src, amount, now);
      case Transfer(target, amount) =>
        r := HandleTransfer(server, src, target, amount, now);
      case QueryHistory =>
        r := HandleHistory(server, src);
    }

    /** Re-read the snapshot (`self.user = get_user(..)?`) and send the `menu` packet. */
    method RefreshAndReply(server: Store, src: Sender) returns (r: Result<Option<Session>, Failure>)
      modifies this, src
      ensures
        var s := Refresh(old(user), server.State());
        r == s.result && Logged(user) == s.session && src.sent == old(src.sent) + s.sent
    {
      var current := GetUser(server, user.id);
      if current.Err? {
        return Err(current.error);
      }
      user := current.value;
      var reply := BuildMenu(user.id, user.name, Be32(user.balance), user.phone);
      MenuLayout(user);
      src.Send(reply);
      r := Ok(None);
    }

    /** Opcode 0: deposit. */
    method HandleDeposit(server: Store, src: Sender, amount: u32, now: Time) returns (r: Result<Option<Session>, Failure>)
      requires server.Valid()
      modifies this, server, src
      ensures server.Valid()
      ensures
        var s := DepositStep(old(user), old(server.State()), amount, now);
        && r == s.result && Logged(user) == s.session
        && server.State() == s.db && src.sent == old(src.sent) + s.sent
    {
      if WrappingAdd32(user.balance, amount) > BALANCE_CAP {
        return Err(UserInput(OVER_CAP));
      }
      var ok := server.UpdateBalance(user.id, amount);
      if !ok {
        return Err(Fatal(StoreFailure));
      }
      ok := server.InsertTradeLog(user.id, DEPOSIT_LABEL, AsI32(amount), now);
      if !ok {
        return Err(Fatal(StoreFailure));
      }
      r := RefreshAndReply(server, src);
    }

    /** Opcode 1: withdraw. */
    method HandleWithdraw(server: Store, src: Sender, amount: u32, now: Time) returns (r: Result<Option<Session>, Failure>)
      requires server.Valid()
      modifies this, server, src
      ensures server.Valid()
      ensures
        var s := WithdrawStep(old(user), old(server.State()), amount, now);
        && r == s.result && Logged(user) == s.session
        && server.State() == s.db && src.sent == old(src.sent) + s.sent
    {
      if user.balance < amount {
        return Err(UserInput(OVER_CAP));
      }
      var ok := server.UpdateBalance(user.id, -(amount as int));
      if !ok {
        return Err(Fatal(StoreFailure));
      }
      ok := server.InsertTradeLog(user.id, WITHDRAW_LABEL, WrappingNeg32(AsI32(amount)), now);
      if !ok {
        return Err(Fatal(StoreFailure));
      }
      r := RefreshAndReply(server, src);
    }

    /** Opcode 2: transfer; only the credit leg is logged. */
    method HandleTransfer(server: Store, src: Sender, target: u32, amount: u32, now: Time)
        returns (r: Result<Option<Session>, Failure>)
      requires server.Valid()
      modifies this, server, src
      ensures server.Valid()
      ensures
        var s := TransferStep(old(user), old(server.State()), target, amount, Decimal(old(user).id), now);
        && r == s.result && Logged(user) == s.session
        && server.State() == s.db && src.sent == old(src.sent) + s.sent
    {
      ghost var db, sender := server.State(), Decimal(user.id);
      var targetUser := GetUser(server, target);
      if targetUser.Err? {
        assert TransferStep(user, db, target, amount, sender, now) == Refuse(Logged(user), db, targetUser.error);
        return Err(targetUser.error);
      }
      if WrappingAdd32(targetUser.value.balance, amount) > BALANCE_CAP {
        assert TransferStep(user, db, target, amount, sender, now) == Refuse(Logged(user), db, UserInput(TARGET_OVER_CAP));
        return Err(UserInput(TARGET_OVER_CAP));
      }
      if user.balance < amount {
        assert TransferStep(user, db, target, amount, sender, now) == Refuse(Logged(user), db, UserInput(INSUFFICIENT));
        return Err(UserInput(INSUFFICIENT));
      }
      assert TransferStep(user, db, target, amount, sender, now) == TransferCommit(user, db, target, amount, sender, now);
      r := CommitTransfer(server, src, target, amount, now);
    }

    /** The writes of a transfer: credit and log through `add_balance`, then debit the user. */
    method CommitTransfer(server: Store, src: Sender, target: u32, amount: u32, now: Time)
        returns (r: Result<Option<Session>, Failure>)
      requires server.Valid()
      modifies this, server, src
      ensures server.Valid()
      ensures
        var s := TransferCommit(old(user), old(server.State()), target, amount, Decimal(old(user).id), now);
        && r == s.result && Logged(user) == s.session
        && server.State() == s.db && src.sent == old(src.sent) + s.sent
    {
      ghost var db := server.State();
      ghost var o1 := db.UpdateBalance(target, amount);
      var ok := server.AddBalance(target, Decimal(user.id), amount, now);
      if !ok {
        return Err(Fatal(StoreFailure));
      }
      ghost var db2 := server.State();
      assert db2 == o1.value.InsertLog(target, Decimal(user.id), AsI32(amount), now).value;
      ok := server.UpdateBalance(user.id, -(amount as int));
      if !ok {
        return Err(Fatal(StoreFailure));
      }
      r := RefreshAndReply(server, src);
    }

    /** Opcode 3: the `info` packet, one record per matching trade-log row. */
    method HandleHistory(server: Store, src: Sender) returns (r: Result<Option<Session>, Failure>)
      modifies src
      ensures
        var s := HistoryStep(user, server.State());
        r == s.result && src.sent == old(src.sent) + s.sent
    {
      var rows := server.TradeHistory(user.id);
      var p := new ServerExt.Packet();
      WriteInfoHead(p, user, |rows|);
      WriteRecords(p, rows);
      InfoLayout(user, rows);
      src.Send(p.data);
      r := Ok(None);
    }
  }

  /** The loop over the query's rows, appending one record each. */
  method WriteRecords(p: ServerExt.Packet, rows: seq<TradeLog>)
    modifies p
    ensures p.data == old(p.data) + RecordsBytes(rows)
  {
    var i := 0;
    while i < |rows|
      invariant 0 <= i <= |rows|
      invariant p.data == old(p.data) + RecordsBytes(rows[..i])
    {
      WriteRecord(p, rows[i]);
      assert rows[..i + 1][..i] == rows[..i];
      i := i + 1;
    }
    assert rows[..i] == rows;
  }

  /** The fixed part of an `info` packet, before the records. */
  function InfoHead(u: User, count: nat): Bytes {
    Header() + INFO_TAG + Be32(1) + Be32(1) + Be32(count % U32_LIMIT) + UserFields(u)
  }

  lemma InfoLayout(u: User, rows: seq<TradeLog>)
    ensures InfoHead(u, |rows|) + RecordsBytes(rows) == InfoPacket(u, rows)
  {
  }

  lemma Regroup(pre: Bytes, a: Bytes, b: Bytes, c: Bytes, d: Bytes)
    ensures pre + a + b + c + d == pre + (a + b + c + d)
  {
  }

  /** The header, the page numbers, the row count and the user, in that order. */
  method WriteInfoHead(p: ServerExt.Packet, u: User, count: nat)
    requires p.data == []
    modifies p
    ensures p.data == InfoHead(u, count)
  {
    p.AddHeader();
    p.ExtendFromSlice(INFO_TAG);
    p.PutU32(1);
    p.PutU32(1);
    p.PutU32(count % U32_LIMIT);
    ghost var pre := p.data;
    p.ExtendFromSlice(Be32(u.id));
    p.WriteString(u.name);
    p.PutU32(u.balance);
    p.WriteString(u.phone);
    Regroup(pre, Be32(u.id), StrField(u.name), Be32(u.balance), StrField(u.phone));
  }

  /** One trade-log row: tid, receiver, sender, seconds, nanoseconds, amount. */
  method WriteRecord(p: ServerExt.Packet, t: TradeLog)
    modifies p
    ensures p.data == old(p.data) + RecordBytes(t)
  {
    ghost var head := p.data;
    p.PutI32(t.tid);
    p.PutU32(t.receiver);
    p.WriteString(t.sender);
    p.PutI64(t.time.secs);
    p.PutU32(t.time.nanos);
    p.PutI32(t.amount);
    RecordLayout(head, t);
  }

  lemma RecordLayout(head: Bytes, t: TradeLog)
    ensures head + I32Bytes(t.tid) + Be32(t.receiver) + StrField(t.sender) + I64Bytes(t.time.secs)
      + Be32(t.time.nanos) + I32Bytes(t.amount) == head + RecordBytes(t)
  {
  }
}
