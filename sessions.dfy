/**
 * What one call of a session handler does (`HandleLogin::handle` and
 * `LoggedHandler::handle` in `bank/handlers.rs`), as pure functions of the
 * handler's state, the store and the packet body. The imperative handlers in
 * module `Handlers` are proved to do exactly this; the business rules (the
 * balance cap, no overdraft, unique ids, the trade log) are proved here.
 */
module Sessions {
  import opened Wire
  import opened Ledger

  /** The session's snapshot of the logged-in account (`bank::user::User`). */
  datatype User = User(id: u32, balance: u32, name: Bytes, phone: Bytes)

  /** The connection's handler: `HandleLogin`, or `LoggedHandler` with its snapshot. */
  datatype Session = Unauth | Logged(user: User)

  /** The errors that are not `UserInputError`; each one closes the connection. */
  datatype FatalKind =
    | NotCorrectLen           // login-state body shorter than 8 bytes
    | WrongPacketLength       // empty logged-state body
    | WrongPacketType         // unknown opcode or wrong length in the logged state
    | BadString(e: StrError)  // `read_packet_string` failed while registering
    | StoreFailure            // a statement the store refused

  /** A handler's error: `UserInputError` (reported, connection kept) or any other. */
  datatype Failure = UserInput(msg: Bytes) | Fatal(kind: FatalKind)

  /**
   * The effect of one handler call: the value it returns (`Ok(Some(next))`
   * replaces the handler, `Ok(None)` keeps it), the handler's own state
   * afterwards, the store afterwards, and the packets it queued.
   */
  datatype Step = Step(result: Result<Option<Session>, Failure>, session: Session, db: Db, sent: seq<Bytes>)

  const BALANCE_CAP: int := 10000
  const NAME_MAX: int := 60
  const PHONE_MAX: int := 20

  const WRONG_CREDENTIALS: Bytes := [0xE8, 0xB4, 0xA6, 0xE5, 0x8F, 0xB7, 0xE6, 0x88, 0x96, 0xE5, 0xAF, 0x86, 0xE7, 0xA0, 0x81, 0xE9, 0x94, 0x99, 0xE8, 0xAF, 0xAF] // "账号或密码错误"
  const NO_SUCH_ACCOUNT: Bytes := [0xE6, 0x89, 0xBE, 0xE4, 0xB8, 0x8D, 0xE5, 0x88, 0xB0, 0xE8, 0xB4, 0xA6, 0xE5, 0x8F, 0xB7] // "找不到账号"
  const BAD_FIELD_LENGTH: Bytes := [0xE8, 0xBE, 0x93, 0xE5, 0x85, 0xA5, 0xE9, 0x95, 0xBF, 0xE5, 0xBA, 0xA6, 0xE9, 0x94, 0x99, 0xE8, 0xAF, 0xAF] // "输入长度错误"
  const ACCOUNT_EXISTS: Bytes := [0xE8, 0xAF, 0xA5, 0xE9, 0x93, 0xB6, 0xE8, 0xA1, 0x8C, 0xE8, 0xB4, 0xA6, 0xE5, 0x8F, 0xB7, 0xE5, 0xAD, 0x98, 0xE5, 0x9C, 0xA8] // "该银行账号存在"
  const OVER_CAP: Bytes := [0xE8, 0xB6, 0x85, 0xE5, 0x87, 0xBA, 0xE5, 0xAD, 0x98, 0xE6, 0xAC, 0xBE, 0xE4, 0xB8, 0x8A, 0xE9, 0x99, 0x90] // "超出存款上限"
  const TARGET_OVER_CAP: Bytes := [0xE5, 0xAF, 0xB9, 0xE6, 0x96, 0xB9, 0xE5, 0xAD, 0x98, 0xE6, 0xAC, 0xBE, 0xE5, 0x88, 0xB0, 0xE8, 0xBE, 0xBE, 0xE4, 0xB8, 0x8A, 0xE9, 0x99, 0x90] // "对方存款到达上限"
  const INSUFFICIENT: Bytes := [0xE6, 0x88, 0x91, 0xE6, 0x96, 0xB9, 0xE5, 0xAD, 0x98, 0xE6, 0xAC, 0xBE, 0xE4, 0xB8, 0x8D, 0xE8, 0xB6, 0xB3] // "我方存款不足"

  /** Trade-log sender labels of deposits and withdrawals. */
  const DEPOSIT_LABEL: Bytes := [0xE5, 0xAD, 0x98, 0xE6, 0xAC, 0xBE] // "存款"
  const WITHDRAW_LABEL: Bytes := [0xE5, 0x8F, 0x96, 0xE6, 0xAC, 0xBE] // "取款"

  // ---------------------------------------------------------------------
  // Server-to-client packets

  /** id, name, balance, phone: the user block of `menu` and `info`. */
  function UserFields(u: User): (r: Bytes)
    ensures |r| == 12 + |u.name| + |u.phone|
  {
    Be32(u.id) + StrField(u.name) + Be32(u.balance) + StrField(u.phone)
  }

  /** The `menu` packet that shows the main menu for `u`. */
  function MenuPacket(u: User): (r: Bytes)
    ensures |r| == 12 + |UserFields(u)|
    ensures r[..8] == Header() && r[8..12] == MENU_TAG && r[12..] == UserFields(u)
  {
    var r := Header() + MENU_TAG + UserFields(u);
    assert r[..8] == Header() && r[8..12] == MENU_TAG && r[12..] == UserFields(u);
    r
  }

  /** One trade-log row of an `info` packet. */
  function RecordBytes(t: TradeLog): (r: Bytes)
    ensures |r| == 26 + |t.sender|
  {
    I32Bytes(t.tid) + Be32(t.receiver) + StrField(t.sender) + I64Bytes(t.time.secs) + Be32(t.time.nanos) + I32Bytes(t.amount)
  }

  /** The rows of an `info` packet, in the order given. */
  function RecordsBytes(rows: seq<TradeLog>): (r: Bytes)
  {
    if rows == [] then [] else RecordsBytes(rows[..|rows| - 1]) + RecordBytes(rows[|rows| - 1])
  }

  /** The `info` packet: page 1 of 1, the row count as a u32, the user, then the rows. */
  function InfoPacket(u: User, rows: seq<TradeLog>): (r: Bytes)
    ensures |r| >= 12
    ensures r[..8] == Header() && r[8..12] == INFO_TAG
  {
    var r := Header() + INFO_TAG + Be32(1) + Be32(1) + Be32(|rows| % U32_LIMIT) + UserFields(u) + RecordsBytes(rows);
    assert r[..8] == Header() && r[8..12] == INFO_TAG;
    r
  }

  // ---------------------------------------------------------------------
  // Reading accounts

  function OrEmpty(s: Option<Bytes>): Bytes {
    if s.Some? then s.value else []
  }

  /** A row as the handlers see it: a missing name or phone becomes "". */
  function UserOf(id: u32, a: Account): (u: User)
    ensures u.id == id && u.balance == a.balance
  {
    User(id, a.balance, OrEmpty(a.name), OrEmpty(a.phone))
  }

  /** `get_user`: the account `id`, or a user error when there is none. */
  function FindUser(db: Db, id: u32): (r: Result<User, Failure>)
    ensures r.Ok? <==> id in db.accounts
    ensures r.Ok? ==> r.value == UserOf(id, db.accounts[id])
    ensures r.Err? ==> r.error == UserInput(NO_SUCH_ACCOUNT)
  {
    match db.Lookup(id)
    case None => Err(UserInput(NO_SUCH_ACCOUNT))
    case Some(a) => Ok(UserOf(id, a))
  }

  /** `get_user_login`: the account whose id and password both match. */
  function FindLogin(db: Db, id: u32, password: i32): (r: Result<User, Failure>)
    ensures r.Ok? <==> id in db.accounts && db.accounts[id].password == password
    ensures r.Ok? ==> r.value == UserOf(id, db.accounts[id])
    ensures r.Err? ==> r.error == UserInput(WRONG_CREDENTIALS)
  {
    match db.Lookup(id)
    case Some(a) =>
      if a.password == password then Ok(UserOf(id, a)) else Err(UserInput(WRONG_CREDENTIALS))
    case None => Err(UserInput(WRONG_CREDENTIALS))
  }

  // ---------------------------------------------------------------------
  // The login state

  /** How `HandleLogin` reads a body: by its length alone. */
  datatype LoginRequest =
    | TooShort
    | Login(id: u32, password: i32)
    | Register(id: u32, password: i32, fields: Bytes)

  function LoginRoute(body: Bytes): (r: LoginRequest)
    ensures r.TooShort? <==> |body| < 8
    ensures r.Login? <==> |body| == 8
    ensures r.Register? <==> |body| > 8
    ensures r.Login? ==> body == Be32(r.id) + I32Bytes(r.password)
    ensures r.Register? ==> body == Be32(r.id) + I32Bytes(r.password) + r.fields && |r.fields| > 0
  {
    if |body| < 8 then TooShort
    else
      var id := TakeU32(body).value;
      var pswd := TakeI32(id.rest).value;
      if |body| == 8 then Login(id.value, pswd.value)
      else Register(id.value, pswd.value, pswd.rest)
  }

  /** Fail without any effect. */
  function Refuse(s: Session, db: Db, f: Failure): Step {
    Step(Err(f), s, db, [])
  }

  /** One call of `HandleLogin::handle`. */
  function LoginStep(db: Db, body: Bytes): (r: Step)
    ensures LoginShape(db, r)
  {
    match LoginRoute(body)
    case TooShort => Refuse(Unauth, db, Fatal(NotCorrectLen))
    case Login(id, pswd) => LoginAttempt(db, id, pswd)
    case Register(id, pswd, fields) => RegisterAttempt(db, id, pswd, fields)
  }

  /**
   * What every login-state call does: it keeps `HandleLogin` as its own
   * state, fails without touching the store or sending anything, and on
   * success moves to the logged state and sends that user's menu.
   */
  ghost predicate LoginShape(db: Db, r: Step) {
    && r.session == Unauth
    && (r.result.Err? ==> r.db == db && r.sent == [])
    && (r.result.Ok? ==>
          r.result.value.Some? && r.result.value.value.Logged? &&
          r.sent == [MenuPacket(r.result.value.value.user)])
  }

  /** Login: look the account up by id and password. */
  function LoginAttempt(db: Db, id: u32, pswd: i32): (r: Step)
    ensures LoginShape(db, r) && r.db == db
  {
    match FindLogin(db, id, pswd)
    case Err(f) => Refuse(Unauth, db, f)
    case Ok(u) => Step(Ok(Some(Logged(u))), Unauth, db, [MenuPacket(u)])
  }

  /** Register: read the name, then the phone number; a malformed string is fatal. */
  function RegisterAttempt(db: Db, id: u32, pswd: i32, fields: Bytes): (r: Step)
    ensures LoginShape(db, r)
  {
    var name := ReadStr(fields);
    if name.result.Err? then Refuse(Unauth, db, Fatal(BadString(name.result.error)))
    else
      var phone := ReadStr(name.rest);
      if phone.result.Err? then Refuse(Unauth, db, Fatal(BadString(phone.result.error)))
      else RegisterStep(db, id, pswd, name.result.value, phone.result.value)
  }

  /** Register once both strings are read: the length rule, then the unique id. */
  function RegisterStep(db: Db, id: u32, pswd: i32, name: Bytes, phone: Bytes): (r: Step)
    ensures LoginShape(db, r)
  {
    if |name| > NAME_MAX || |phone| > PHONE_MAX then Refuse(Unauth, db, UserInput(BAD_FIELD_LENGTH))
    else if id in db.accounts then Refuse(Unauth, db, UserInput(ACCOUNT_EXISTS))
    else
      var u := User(id, 0, name, phone);
      Step(Ok(Some(Logged(u))), Unauth, db.InsertAccount(id, pswd, 0, name, phone).value, [MenuPacket(u)])
  }

  // ---------------------------------------------------------------------
  // The logged state

  /** How `LoggedHandler` reads a body: an opcode and an exact remaining length. */
  datatype LoggedRequest =
    | Empty
    | Deposit(amount: u32)
    | Withdraw(amount: u32)
    | Transfer(target: u32, amount: u32)
    | QueryHistory
    | Unknown

  function LoggedRoute(body: Bytes): (r: LoggedRequest)
    ensures r.Empty? <==> |body| == 0
    ensures r.Deposit? <==> |body| == 5 && body[0] == 0
    ensures r.Withdraw? <==> |body| == 5 && body[0] == 1
    ensures r.Transfer? <==> |body| == 9 && body[0] == 2
    ensures r.QueryHistory? <==> body == [3]
    ensures (r.Deposit? || r.Withdraw?) ==> body == [body[0]] + Be32(r.amount)
    ensures r.Transfer? ==> body == [2] + Be32(r.target) + Be32(r.amount)
  {
    if |body| == 0 then Empty
    else
      var op := body[0];
      var rest := body[1..];
      assert body == [op] + rest;
      if op == 0 && |rest| == 4 then Deposit(TakeU32(rest).value.value)
      else if op == 1 && |rest| == 4 then Withdraw(TakeU32(rest).value.value)
      else if op == 2 && |rest| == 8 then
        var t := TakeU32(rest).value;
        var a := TakeU32(t.rest).value;
        assert rest == Be32(t.value) + Be32(a.value);
        Transfer(t.value, a.value)
      else if op == 3 && |rest| == 0 then QueryHistory
      else Unknown
  }

  /**
   * What every logged-state call does: it never replaces the handler, keeps
   * a snapshot of the same account, sends nothing when it fails and exactly
   * one packet when it succeeds.
   */
  ghost predicate LoggedShape(user: User, r: Step) {
    && r.session.Logged? && r.session.user.id == user.id
    && (r.result.Ok? ==> r.result.value.None? && |r.sent| == 1)
    && (r.result.Err? ==> r.sent == [] && r.session == Logged(user))
  }

  /** After a successful change: re-read the snapshot and show the menu. */
  function Refresh(user: User, db: Db): (r: Step)
    ensures LoggedShape(user, r)
    ensures r.db == db
    ensures r.result.Ok? <==> user.id in db.accounts
    ensures r.result.Ok? ==>
      r.result.value.None? && r.session == Logged(UserOf(user.id, db.accounts[user.id])) &&
      r.sent == [MenuPacket(UserOf(user.id, db.accounts[user.id]))]
    ensures r.result.Err? ==> r == Refuse(Logged(user), db, UserInput(NO_SUCH_ACCOUNT))
  {
    match FindUser(db, user.id)
    case Err(f) => Refuse(Logged(user), db, f)
    case Ok(u) => Step(Ok(None), Logged(u), db, [MenuPacket(u)])
  }

  /** Deposit: the cap is checked against the snapshot with a wrapping u32 add. */
  function DepositStep(user: User, db: Db, amount: u32, now: Time): (r: Step)
    ensures LoggedShape(user, r)
  {
    if WrappingAdd32(user.balance, amount) > BALANCE_CAP then Refuse(Logged(user), db, UserInput(OVER_CAP))
    else
      match db.UpdateBalance(user.id, amount)
      case None => Refuse(Logged(user), db, Fatal(StoreFailure))
      case Some(db1) =>
        match db1.InsertLog(user.id, DEPOSIT_LABEL, AsI32(amount), now)
        case None => Refuse(Logged(user), db1, Fatal(StoreFailure))
        case Some(db2) => Refresh(user, db2)
  }

  /** Withdraw: the overdraft check is against the snapshot; the logged amount is `-(amount as i32)`. */
  function WithdrawStep(user: User, db: Db, amount: u32, now: Time): (r: Step)
    ensures LoggedShape(user, r)
  {
    if user.balance < amount then Refuse(Logged(user), db, UserInput(OVER_CAP))
    else
      match db.UpdateBalance(user.id, -(amount as int))
      case None => Refuse(Logged(user), db, Fatal(StoreFailure))
      case Some(db1) =>
        match db1.InsertLog(user.id, WITHDRAW_LABEL, WrappingNeg32(AsI32(amount)), now)
        case None => Refuse(Logged(user), db1, Fatal(StoreFailure))
        case Some(db2) => Refresh(user, db2)
  }

  /**
   * Transfer: the target must exist and stay within the cap (checked on its
   * freshly read balance), and the snapshot must cover the amount. Then
   * `add_balance` credits and logs the target, and a plain UPDATE debits the
   * sender without a log row.
   */
  function TransferStep(user: User, db: Db, target: u32, amount: u32, sender: Bytes, now: Time): (r: Step)
    ensures LoggedShape(user, r)
  {
    match FindUser(db, target)
    case Err(f) => Refuse(Logged(user), db, f)
    case Ok(t) =>
      if WrappingAdd32(t.balance, amount) > BALANCE_CAP then Refuse(Logged(user), db, UserInput(TARGET_OVER_CAP))
      else if user.balance < amount then Refuse(Logged(user), db, UserInput(INSUFFICIENT))
      else TransferCommit(user, db, target, amount, sender, now)
  }

  /** The writes of a transfer once its checks pass: `add_balance` on the target, then the debit. */
  function TransferCommit(user: User, db: Db, target: u32, amount: u32, sender: Bytes, now: Time): (r: Step)
    ensures LoggedShape(user, r)
  {
    match db.UpdateBalance(target, amount)
    case None => Refuse(Logged(user), db, Fatal(StoreFailure))
    case Some(db1) =>
      match db1.InsertLog(target, sender, AsI32(amount), now)
      case None => Refuse(Logged(user), db1, Fatal(StoreFailure))
      case Some(db2) =>
        match db2.UpdateBalance(user.id, -(amount as int))
        case None => Refuse(Logged(user), db2, Fatal(StoreFailure))
        case Some(db3) => Refresh(user, db3)
  }

  /** History: every row that credits the user or names the user's id as sender. */
  function HistoryStep(user: User, db: Db): (r: Step)
    ensures LoggedShape(user, r)
  {
    Step(Ok(None), Logged(user), db, [InfoPacket(user, History(db.logs, user.id))])
  }

  /** One call of `LoggedHandler::handle`. */
  function LoggedStep(user: User, db: Db, body: Bytes, now: Time): (r: Step)
    ensures LoggedShape(user, r)
  {
    RouteStep(user, db, LoggedRoute(body), now)
  }

  /** The step a logged-in session takes for a request it has recognised. */
  function RouteStep(user: User, db: Db, route: LoggedRequest, now: Time): (r: Step)
    ensures LoggedShape(user, r)
  {
    match route
    case Empty => Refuse(Logged(user), db, Fatal(WrongPacketLength))
    case Unknown => Refuse(Logged(user), db, Fatal(WrongPacketType))
    case Deposit(amount) => DepositStep(user, db, amount, now)
    case Withdraw(amount) => WithdrawStep(user, db, amount, now)
    case Transfer(target, amount) => TransferStep(user, db, target, amount, Decimal(user.id), now)
    case QueryHistory => HistoryStep(user, db)
  }

  // ---------------------------------------------------------------------
  // Properties of the login state

  /** Login succeeds exactly when a row matches both id and password; failing changes nothing. */
  lemma LoginOutcome(db: Db, id: u32, password: i32)
    ensures
      var r := LoginStep(db, Be32(id) + I32Bytes(password));
      && (r.result.Ok? <==> id in db.accounts && db.accounts[id].password == password)
      && (r.result.Ok? ==>
            var u := UserOf(id, db.accounts[id]);
            r.result.value == Some(Logged(u)) && r.db == db && r.sent == [MenuPacket(u)])
      && (r.result.Err? ==> r == Refuse(Unauth, db, UserInput(WRONG_CREDENTIALS)))
  {
    var body := Be32(id) + I32Bytes(password);
    var route := LoginRoute(body);
    TakeU32Be32(id, I32Bytes(password));
    TakeI32Bytes(password, []);
    assert route == Login(id, password);
  }

  /** A register body: id, password hash, name, phone number, and whatever bytes follow. */
  function RegisterBody(id: u32, password: i32, name: Bytes, phone: Bytes, extra: Bytes): Bytes {
    Be32(id) + (I32Bytes(password) + (StrField(name) + (StrField(phone) + extra)))
  }

  /** A register body with well-formed strings reaches the register rules with those strings. */
  lemma RegisterRoute(db: Db, id: u32, password: i32, name: Bytes, phone: Bytes, extra: Bytes)
    requires ValidUtf8(name) && ValidUtf8(phone) && |name| < U16_LIMIT && |phone| < U16_LIMIT
    ensures LoginStep(db, RegisterBody(id, password, name, phone, extra)) == RegisterStep(db, id, password, name, phone)
  {
    var fields := StrField(name) + (StrField(phone) + extra);
    LoginRouteRegister(id, password, fields);
    ReadStrField(name, StrField(phone) + extra);
    ReadStrField(phone, extra);
    RegisterFields(db, id, password, fields, name, StrField(phone) + extra, phone, extra);
  }

  lemma RegisterFields(db: Db, id: u32, password: i32, fields: Bytes, name: Bytes, rest: Bytes, phone: Bytes, extra: Bytes)
    requires ReadStr(fields) == StrRead(Ok(name), rest)
    requires ReadStr(rest) == StrRead(Ok(phone), extra)
    ensures RegisterAttempt(db, id, password, fields) == RegisterStep(db, id, password, name, phone)
  {
  }

  lemma LoginRouteRegister(id: u32, password: i32, fields: Bytes)
    requires |fields| > 0
    ensures LoginRoute(Be32(id) + (I32Bytes(password) + fields)) == Register(id, password, fields)
  {
    TakeU32Be32(id, I32Bytes(password) + fields);
    TakeI32Bytes(password, fields);
  }

  /**
   * Registering with well-formed strings: the length rule, then the unique
   * id, then one new account with balance 0 and the `menu` for it. Bytes
   * after the phone number are ignored.
   */
  lemma RegisterOutcome(db: Db, id: u32, password: i32, name: Bytes, phone: Bytes, extra: Bytes)
    requires ValidUtf8(name) && ValidUtf8(phone) && |name| < U16_LIMIT && |phone| < U16_LIMIT
    ensures
      var r := LoginStep(db, RegisterBody(id, password, name, phone, extra));
      && (|name| > NAME_MAX || |phone| > PHONE_MAX ==> r == Refuse(Unauth, db, UserInput(BAD_FIELD_LENGTH)))
      && (|name| <= NAME_MAX && |phone| <= PHONE_MAX && id in db.accounts ==>
            r == Refuse(Unauth, db, UserInput(ACCOUNT_EXISTS)))
      && (|name| <= NAME_MAX && |phone| <= PHONE_MAX && id !in db.accounts ==>
            var u := User(id, 0, name, phone);
            && r.result == Ok(Some(Logged(u)))
            && r.db == db.(accounts := db.accounts[id := Account(password, 0, Some(name), Some(phone))])
            && r.sent == [MenuPacket(u)])
  {
    RegisterRoute(db, id, password, name, phone, extra);
  }

  /** A malformed name is fatal and changes nothing, whatever follows it. */
  lemma RegisterBadName(db: Db, id: u32, password: i32, name: Bytes, rest: Bytes)
    requires |name| < U16_LIMIT && !ValidUtf8(name)
    ensures LoginStep(db, Be32(id) + (I32Bytes(password) + (StrField(name) + rest)))
              == Refuse(Unauth, db, Fatal(BadString(InvalidUtf8)))
  {
    var fields := StrField(name) + rest;
    ReadStrFieldInvalid(name, rest);
    LoginStepRegister(db, id, password, fields);
    RegisterNameFails(db, id, password, fields);
  }

  lemma LoginStepRegister(db: Db, id: u32, password: i32, fields: Bytes)
    requires |fields| > 0
    ensures LoginStep(db, Be32(id) + (I32Bytes(password) + fields)) == RegisterAttempt(db, id, password, fields)
  {
    LoginRouteRegister(id, password, fields);
  }

  lemma RegisterNameFails(db: Db, id: u32, password: i32, fields: Bytes)
    requires ReadStr(fields).result.Err?
    ensures RegisterAttempt(db, id, password, fields) == Refuse(Unauth, db, Fatal(BadString(ReadStr(fields).result.error)))
  {
  }

  /** A well-formed name followed by a malformed phone number is fatal and changes nothing. */
  lemma RegisterBadPhone(db: Db, id: u32, password: i32, name: Bytes, phone: Bytes, rest: Bytes)
    requires ValidUtf8(name) && |name| < U16_LIMIT && |phone| < U16_LIMIT && !ValidUtf8(phone)
    ensures LoginStep(db, Be32(id) + (I32Bytes(password) + (StrField(name) + (StrField(phone) + rest))))
              == Refuse(Unauth, db, Fatal(BadString(InvalidUtf8)))
  {
    var fields := StrField(name) + (StrField(phone) + rest);
    ReadStrField(name, StrField(phone) + rest);
    ReadStrFieldInvalid(phone, rest);
    LoginStepRegister(db, id, password, fields);
  }

  /** Registering the same id twice: the second attempt is refused and changes nothing. */
  lemma RegisterTwice(db: Db, id: u32, p1: i32, p2: i32, name: Bytes, phone: Bytes)
    requires ValidUtf8(name) && ValidUtf8(phone) && |name| <= NAME_MAX && |phone| <= PHONE_MAX
    requires id !in db.accounts
    ensures
      var first := LoginStep(db, RegisterBody(id, p1, name, phone, []));
      first.result.Ok? &&
      LoginStep(first.db, RegisterBody(id, p2, name, phone, [])) == Refuse(Unauth, first.db, UserInput(ACCOUNT_EXISTS))
  {
    RegisterRoute(db, id, p1, name, phone, []);
    var first := LoginStep(db, RegisterBody(id, p1, name, phone, []));
    RegisterRoute(first.db, id, p2, name, phone, []);
  }

  // ---------------------------------------------------------------------
  // Properties of the logged state

  /** A body with an unknown opcode or the wrong length is fatal and changes nothing. */
  lemma MalformedIsFatal(user: User, db: Db, body: Bytes, now: Time)
    requires LoggedRoute(body).Empty? || LoggedRoute(body).Unknown?
    ensures
      var r := LoggedStep(user, db, body, now);
      r.result.Err? && r.result.error.Fatal? && r.db == db && r.sent == [] && r.session == Logged(user)
  {
  }

  /**
   * A deposit whose wrapping cap check fails is refused and changes nothing.
   * Once the check passes, the store decides. A credit that leaves the
   * unsigned column range is refused before any write. A credit whose log row
   * cannot be inserted stays applied. Otherwise the account is credited, one
   * row is logged and the menu of the refreshed snapshot is sent.
   */
  lemma DepositOutcome(user: User, db: Db, amount: u32, now: Time)
    requires user.id in db.accounts
    ensures
      var r := LoggedStep(user, db, [0] + Be32(amount), now);
      var a := db.accounts[user.id];
      var credited := if a.balance + amount < U32_LIMIT then db.accounts[user.id := a.(balance := a.balance + amount)] else db.accounts;
      && (WrappingAdd32(user.balance, amount) > BALANCE_CAP ==>
            r == Refuse(Logged(user), db, UserInput(OVER_CAP)))
      && (WrappingAdd32(user.balance, amount) <= BALANCE_CAP && a.balance + amount >= U32_LIMIT ==>
            r == Refuse(Logged(user), db, Fatal(StoreFailure)))
      && (WrappingAdd32(user.balance, amount) <= BALANCE_CAP && a.balance + amount < U32_LIMIT &&
          db.nextTid > I32_MAX ==>
            r == Refuse(Logged(user), db.(accounts := credited), Fatal(StoreFailure)))
      && (WrappingAdd32(user.balance, amount) <= BALANCE_CAP && a.balance + amount < U32_LIMIT &&
          db.nextTid <= I32_MAX ==>
            && r.result == Ok(None)
            && r.db.accounts == credited
            && r.db.logs == db.logs + [TradeLog(db.nextTid, user.id, DEPOSIT_LABEL, now, AsI32(amount))]
            && r.session == Logged(UserOf(user.id, credited[user.id]))
            && r.session.user.balance == a.balance + amount
            && r.sent == [MenuPacket(r.session.user)])
  {
    var body := [0] + Be32(amount);
    assert LoggedRoute(body) == Deposit(amount);
    var a := db.accounts[user.id];
    if WrappingAdd32(user.balance, amount) <= BALANCE_CAP && a.balance + amount < U32_LIMIT && db.nextTid <= I32_MAX {
      var db1 := db.UpdateBalance(user.id, amount).value;
      var db2 := db1.InsertLog(user.id, DEPOSIT_LABEL, AsI32(amount), now).value;
      assert db2.logs == db.logs + [db2.logs[|db.logs|]];
    }
  }

  /**
   * A withdrawal above the snapshot balance is refused and changes nothing.
   * Once the snapshot covers it, the store decides. A debit below zero is
   * refused before any write (the snapshot was stale). A debit whose log row
   * cannot be inserted stays applied. Otherwise the account is debited,
   * `-amount` is logged once and the menu of the refreshed snapshot is sent.
   */
  lemma WithdrawOutcome(user: User, db: Db, amount: u32, now: Time)
    requires user.id in db.accounts
    ensures
      var r := LoggedStep(user, db, [1] + Be32(amount), now);
      var a := db.accounts[user.id];
      var debited := if amount <= a.balance then db.accounts[user.id := a.(balance := a.balance - amount)] else db.accounts;
      && (user.balance < amount ==> r == Refuse(Logged(user), db, UserInput(OVER_CAP)))
      && (amount <= user.balance && a.balance < amount ==>
            r == Refuse(Logged(user), db, Fatal(StoreFailure)))
      && (amount <= user.balance && amount <= a.balance && db.nextTid > I32_MAX ==>
            r == Refuse(Logged(user), db.(accounts := debited), Fatal(StoreFailure)))
      && (amount <= user.balance && amount <= a.balance && db.nextTid <= I32_MAX ==>
            && r.result == Ok(None)
            && r.db.accounts == debited
            && r.db.logs == db.logs + [TradeLog(db.nextTid, user.id, WITHDRAW_LABEL, now, WrappingNeg32(AsI32(amount)))]
            && r.session == Logged(UserOf(user.id, debited[user.id]))
            && r.session.user.balance == a.balance - amount
            && r.sent == [MenuPacket(r.session.user)])
  {
    var body := [1] + Be32(amount);
    assert LoggedRoute(body) == Withdraw(amount);
    var a := db.accounts[user.id];
    if amount <= user.balance && amount <= a.balance && db.nextTid <= I32_MAX {
      var db1 := db.UpdateBalance(user.id, -(amount as int)).value;
      var db2 := db1.InsertLog(user.id, WITHDRAW_LABEL, WrappingNeg32(AsI32(amount)), now).value;
      assert db2.logs == db.logs + [db2.logs[|db.logs|]];
    }
  }

  /** The opcode-2 body reaches the transfer rules with its target and amount. */
  lemma TransferRoute(user: User, db: Db, target: u32, amount: u32, now: Time)
    ensures LoggedStep(user, db, [2] + Be32(target) + Be32(amount), now) == TransferStep(user, db, target, amount, Decimal(user.id), now)
  {
    var body := [2] + Be32(target) + Be32(amount);
    assert body[1..] == Be32(target) + Be32(amount);
    TakeU32Be32(target, Be32(amount));
    TakeU32Be32(amount, []);
    assert Be32(amount) + [] == Be32(amount);
    assert LoggedRoute(body) == Transfer(target, amount);
  }

  /**
   * Transfer checks, in order, that the target exists, that the target stays
   * within the cap and that the snapshot covers the amount; a failed check
   * changes nothing. When the cap check wraps around, the credit is refused
   * by the store instead, before anything has changed.
   */
  lemma TransferRefusals(user: User, db: Db, target: u32, amount: u32, now: Time)
    ensures
      var r := LoggedStep(user, db, [2] + Be32(target) + Be32(amount), now);
      && (target !in db.accounts ==> r == Refuse(Logged(user), db, UserInput(NO_SUCH_ACCOUNT)))
      && (target in db.accounts && WrappingAdd32(db.accounts[target].balance, amount) > BALANCE_CAP ==>
            r == Refuse(Logged(user), db, UserInput(TARGET_OVER_CAP)))
      && (target in db.accounts && WrappingAdd32(db.accounts[target].balance, amount) <= BALANCE_CAP &&
          user.balance < amount ==>
            r == Refuse(Logged(user), db, UserInput(INSUFFICIENT)))
      && (target in db.accounts && WrappingAdd32(db.accounts[target].balance, amount) <= BALANCE_CAP &&
          amount <= user.balance && db.accounts[target].balance + amount >= U32_LIMIT ==>
            r == Refuse(Logged(user), db, Fatal(StoreFailure)))
  {
    TransferRoute(user, db, target, amount, now);
    TransferStepRefusals(user, db, target, amount, Decimal(user.id), now);
  }

  lemma TransferStepRefusals(user: User, db: Db, target: u32, amount: u32, sender: Bytes, now: Time)
    ensures
      var r := TransferStep(user, db, target, amount, sender, now);
      && (target !in db.accounts ==> r == Refuse(Logged(user), db, UserInput(NO_SUCH_ACCOUNT)))
      && (target in db.accounts && WrappingAdd32(db.accounts[target].balance, amount) > BALANCE_CAP ==>
            r == Refuse(Logged(user), db, UserInput(TARGET_OVER_CAP)))
      && (target in db.accounts && WrappingAdd32(db.accounts[target].balance, amount) <= BALANCE_CAP &&
          user.balance < amount ==>
            r == Refuse(Logged(user), db, UserInput(INSUFFICIENT)))
      && (target in db.accounts && WrappingAdd32(db.accounts[target].balance, amount) <= BALANCE_CAP &&
          amount <= user.balance && db.accounts[target].balance + amount >= U32_LIMIT ==>
            r == Refuse(Logged(user), db, Fatal(StoreFailure)))
  {
  }

  /**
   * A transfer that passes its checks: `add_balance` credits the target,
   * which stays within the cap, and logs the credit with the sender's
   * decimal id; then the sender is debited. The debit is applied to the
   * store as the credit left it, so a transfer to oneself is a credit and a
   * debit of the same account. A failed log insert or a failed debit is
   * fatal and leaves the earlier writes in place.
   */
  lemma TransferOutcome(user: User, db: Db, target: u32, amount: u32, now: Time)
    requires user.id in db.accounts && target in db.accounts
    requires db.accounts[target].balance + amount < U32_LIMIT
    requires WrappingAdd32(db.accounts[target].balance, amount) <= BALANCE_CAP && amount <= user.balance
    ensures
      var r := LoggedStep(user, db, [2] + Be32(target) + Be32(amount), now);
      var t := db.accounts[target];
      var credited := db.accounts[target := t.(balance := t.balance + amount)];
      var a := credited[user.id];
      && t.balance + amount <= BALANCE_CAP
      && (db.nextTid > I32_MAX ==> r == Refuse(Logged(user), db.(accounts := credited), Fatal(StoreFailure)))
      && (db.nextTid <= I32_MAX ==>
            var logged := db.logs + [TradeLog(db.nextTid, target, Decimal(user.id), now, AsI32(amount))];
            && (a.balance < amount ==>
                  r == Refuse(Logged(user), Db(credited, logged, db.nextTid + 1), Fatal(StoreFailure)))
            && (amount <= a.balance ==>
                  && r.result == Ok(None)
                  && r.db == Db(credited[user.id := a.(balance := a.balance - amount)], logged, db.nextTid + 1)
                  && r.session == Logged(UserOf(user.id, r.db.accounts[user.id]))
                  && r.sent == [MenuPacket(r.session.user)]))
  {
    TransferRoute(user, db, target, amount, now);
    TransferStepOutcome(user, db, target, amount, Decimal(user.id), now);
  }

  lemma TransferStepOutcome(user: User, db: Db, target: u32, amount: u32, sender: Bytes, now: Time)
    requires user.id in db.accounts && target in db.accounts
    requires db.accounts[target].balance + amount < U32_LIMIT
    requires WrappingAdd32(db.accounts[target].balance, amount) <= BALANCE_CAP && amount <= user.balance
    ensures
      var r := TransferStep(user, db, target, amount, sender, now);
      var t := db.accounts[target];
      var credited := db.accounts[target := t.(balance := t.balance + amount)];
      var a := credited[user.id];
      && t.balance + amount <= BALANCE_CAP
      && (db.nextTid > I32_MAX ==> r == Refuse(Logged(user), db.(accounts := credited), Fatal(StoreFailure)))
      && (db.nextTid <= I32_MAX ==>
            var logged := db.logs + [TradeLog(db.nextTid, target, sender, now, AsI32(amount))];
            && (a.balance < amount ==>
                  r == Refuse(Logged(user), Db(credited, logged, db.nextTid + 1), Fatal(StoreFailure)))
            && (amount <= a.balance ==>
                  && r.result == Ok(None)
                  && r.db == Db(credited[user.id := a.(balance := a.balance - amount)], logged, db.nextTid + 1)
                  && r.session == Logged(UserOf(user.id, r.db.accounts[user.id]))
                  && r.sent == [MenuPacket(r.session.user)]))
  {
    var db1 := db.UpdateBalance(target, amount).value;
    if db.nextTid <= I32_MAX {
      var db2 := db1.InsertLog(target, sender, AsI32(amount), now).value;
      assert db2.logs == db.logs + [db2.logs[|db.logs|]];
    }
  }

  /**
   * A transfer to oneself that passes its checks leaves every balance as it
   * was and still logs the credit row.
   */
  lemma SelfTransfer(user: User, db: Db, amount: u32, now: Time)
    requires Agrees(user, db) && db.nextTid <= I32_MAX
    requires user.balance + amount < U32_LIMIT
    requires WrappingAdd32(user.balance, amount) <= BALANCE_CAP && amount <= user.balance
    ensures
      var r := LoggedStep(user, db, [2] + Be32(user.id) + Be32(amount), now);
      && r.result == Ok(None)
      && r.db.accounts == db.accounts
      && r.db.logs == db.logs + [TradeLog(db.nextTid, user.id, Decimal(user.id), now, AsI32(amount))]
      && r.session == Logged(UserOf(user.id, db.accounts[user.id]))
  {
    TransferOutcome(user, db, user.id, amount, now);
    var a := db.accounts[user.id];
    var credited := db.accounts[user.id := a.(balance := a.balance + amount)];
    assert credited[user.id := credited[user.id].(balance := credited[user.id].balance - amount)] == db.accounts;
  }

  /** History sends one `info` packet holding exactly the rows that concern the user, and changes nothing. */
  lemma HistoryOutcome(user: User, db: Db, now: Time)
    ensures
      var r := LoggedStep(user, db, [3], now);
      && r.result == Ok(None) && r.db == db && r.session == Logged(user)
      && r.sent == [InfoPacket(user, History(db.logs, user.id))]
      && (forall t :: t in History(db.logs, user.id) <==> t in db.logs && Concerns(t, user.id))
  {
    HistoryExactAll(db.logs, user.id);
  }

  // ---------------------------------------------------------------------
  // Invariants of the store

  /** Every balance is within the cap. */
  ghost predicate Capped(db: Db) {
    forall id :: id in db.accounts ==> db.accounts[id].balance <= BALANCE_CAP
  }

  /** The snapshot agrees with the store's row for the same account. */
  ghost predicate Agrees(user: User, db: Db) {
    user.id in db.accounts && user.balance == db.accounts[user.id].balance
  }

  /** An UPDATE that succeeds and leaves the changed balance within the cap keeps every balance within it. */
  lemma UpdateCapped(db: Db, id: u32, delta: int)
    requires Capped(db) && db.Valid() && db.UpdateBalance(id, delta).Some?
    requires id in db.accounts ==> db.accounts[id].balance + delta <= BALANCE_CAP
    ensures Capped(db.UpdateBalance(id, delta).value) && db.UpdateBalance(id, delta).value.Valid()
  {
    var d := db.UpdateBalance(id, delta).value;
    assert d.logs == db.logs && d.nextTid == db.nextTid;
  }

  /** The login state keeps every balance within the cap and the log ids increasing. */
  lemma LoginStepPreserves(db: Db, body: Bytes)
    requires Capped(db) && db.Valid()
    ensures var r := LoginStep(db, body); Capped(r.db) && r.db.Valid()
    ensures var r := LoginStep(db, body); r.result.Ok? ==> Agrees(r.result.value.value.user, r.db)
  {
    var r := LoginStep(db, body);
    match LoginRoute(body)
    case TooShort =>
    case Login(id, pswd) =>
      assert r == LoginAttempt(db, id, pswd);
    case Register(id, pswd, fields) =>
      assert r == RegisterAttempt(db, id, pswd, fields);
      RegisterAttemptPreserves(db, id, pswd, fields);
  }

  lemma RegisterAttemptPreserves(db: Db, id: u32, pswd: i32, fields: Bytes)
    requires Capped(db) && db.Valid()
    ensures var r := RegisterAttempt(db, id, pswd, fields); Capped(r.db) && r.db.Valid()
    ensures var r := RegisterAttempt(db, id, pswd, fields); r.result.Ok? ==> Agrees(r.result.value.value.user, r.db)
  {
    var name := ReadStr(fields);
    if name.result.Ok? {
      var phone := ReadStr(name.rest);
      if phone.result.Ok? {
        RegisterPreserves(db, id, pswd, name.result.value, phone.result.value);
      }
    }
  }

  lemma RegisterPreserves(db: Db, id: u32, pswd: i32, name: Bytes, phone: Bytes)
    requires Capped(db) && db.Valid()
    ensures var r := RegisterStep(db, id, pswd, name, phone); Capped(r.db) && r.db.Valid()
    ensures var r := RegisterStep(db, id, pswd, name, phone); r.result.Ok? ==> Agrees(r.result.value.value.user, r.db)
  {
    var r := RegisterStep(db, id, pswd, name, phone);
    assert r.db.logs == db.logs && r.db.nextTid == db.nextTid;
  }

  /** Appending a trade-log row changes no balance and keeps the ids increasing. */
  lemma InsertCapped(db: Db, receiver: u32, sender: Bytes, amount: i32, now: Time)
    requires Capped(db) && db.Valid() && db.InsertLog(receiver, sender, amount, now).Some?
    ensures Capped(db.InsertLog(receiver, sender, amount, now).value)
    ensures db.InsertLog(receiver, sender, amount, now).value.Valid()
  {
    InsertLogValid(db, receiver, sender, amount, now);
  }

  /**
   * When the snapshot agrees with the store, a deposit that passes the
   * wrapping cap check cannot take the balance over the cap: a wrapped sum
   * is refused by the store's column range instead.
   */
  lemma DepositPreserves(user: User, db: Db, amount: u32, now: Time)
    requires Capped(db) && db.Valid() && Agrees(user, db)
    ensures var r := DepositStep(user, db, amount, now); Capped(r.db) && r.db.Valid()
  {
    var r := DepositStep(user, db, amount, now);
    if WrappingAdd32(user.balance, amount) > BALANCE_CAP {
      assert r.db == db;
    } else {
      var o1 := db.UpdateBalance(user.id, amount);
      if o1.None? {
        assert r.db == db;
      } else {
        assert user.balance + amount < U32_LIMIT;
        UpdateCapped(db, user.id, amount);
        var o2 := o1.value.InsertLog(user.id, DEPOSIT_LABEL, AsI32(amount), now);
        if o2.None? {
          assert r.db == o1.value;
        } else {
          InsertCapped(o1.value, user.id, DEPOSIT_LABEL, AsI32(amount), now);
          assert r == Refresh(user, o2.value);
        }
      }
    }
  }

  lemma WithdrawPreserves(user: User, db: Db, amount: u32, now: Time)
    requires Capped(db) && db.Valid()
    ensures var r := WithdrawStep(user, db, amount, now); Capped(r.db) && r.db.Valid()
  {
    var r := WithdrawStep(user, db, amount, now);
    var delta := -(amount as int);
    if user.balance < amount {
      assert r.db == db;
    } else {
      var o1 := db.UpdateBalance(user.id, delta);
      if o1.None? {
        assert r.db == db;
      } else {
        UpdateCapped(db, user.id, delta);
        var o2 := o1.value.InsertLog(user.id, WITHDRAW_LABEL, WrappingNeg32(AsI32(amount)), now);
        if o2.None? {
          assert r.db == o1.value;
        } else {
          InsertCapped(o1.value, user.id, WITHDRAW_LABEL, WrappingNeg32(AsI32(amount)), now);
          assert r == Refresh(user, o2.value);
        }
      }
    }
  }

  /** The target's cap is checked on its freshly read balance, so no snapshot is needed. */
  lemma TransferPreserves(user: User, db: Db, target: u32, amount: u32, sender: Bytes, now: Time)
    requires Capped(db) && db.Valid()
    ensures var r := TransferStep(user, db, target, amount, sender, now); Capped(r.db) && r.db.Valid()
  {
    var r := TransferStep(user, db, target, amount, sender, now);
    if target !in db.accounts || WrappingAdd32(db.accounts[target].balance, amount) > BALANCE_CAP
       || user.balance < amount
    {
      assert r.db == db;
    } else {
      var o1 := db.UpdateBalance(target, amount);
      if o1.None? {
        assert r.db == db;
      } else {
        assert db.accounts[target].balance + amount < U32_LIMIT;
        UpdateCapped(db, target, amount);
        var o2 := o1.value.InsertLog(target, sender, AsI32(amount), now);
        if o2.None? {
          assert r.db == o1.value;
        } else {
          InsertCapped(o1.value, target, sender, AsI32(amount), now);
          var db2 := o2.value;
          var o3 := db2.UpdateBalance(user.id, -(amount as int));
          if o3.None? {
            assert r.db == db2;
          } else {
            UpdateCapped(db2, user.id, -(amount as int));
            assert r == Refresh(user, o3.value);
          }
        }
      }
    }
  }

  /** When the snapshot agrees with the store, no logged-state request takes a balance over the cap. */
  lemma LoggedStepPreserves(user: User, db: Db, body: Bytes, now: Time)
    requires Capped(db) && db.Valid() && Agrees(user, db)
    ensures var r := LoggedStep(user, db, body, now); Capped(r.db) && r.db.Valid()
  {
    var r := LoggedStep(user, db, body, now);
    match LoggedRoute(body)
    case Deposit(amount) =>
      assert r == DepositStep(user, db, amount, now);
      DepositPreserves(user, db, amount, now);
    case Withdraw(amount) =>
      assert r == WithdrawStep(user, db, amount, now);
      WithdrawPreserves(user, db, amount, now);
    case Transfer(target, amount) =>
      assert r == TransferStep(user, db, target, amount, Decimal(user.id), now);
      TransferPreserves(user, db, target, amount, Decimal(user.id), now);
    case QueryHistory =>
      assert r.db == db;
    case Empty =>
      assert r.db == db;
    case Unknown =>
      assert r.db == db;
  }

  /** After a logged-state request succeeds, the snapshot agrees with the store. */
  lemma LoggedStepAgrees(user: User, db: Db, body: Bytes, now: Time)
    requires Agrees(user, db)
    ensures var r := LoggedStep(user, db, body, now); r.result.Ok? ==> Agrees(r.session.user, r.db)
  {
    var r := LoggedStep(user, db, body, now);
    if r.result.Ok? {
      match LoggedRoute(body)
      case Deposit(amount) =>
        assert r == DepositStep(user, db, amount, now);
        DepositAgrees(user, db, amount, now);
      case Withdraw(amount) =>
        assert r == WithdrawStep(user, db, amount, now);
        WithdrawAgrees(user, db, amount, now);
      case Transfer(target, amount) =>
        assert r == TransferStep(user, db, target, amount, Decimal(user.id), now);
        TransferAgrees(user, db, target, amount, Decimal(user.id), now);
      case QueryHistory =>
        assert r == HistoryStep(user, db);
      case Empty =>
      case Unknown =>
    }
  }

  lemma DepositAgrees(user: User, db: Db, amount: u32, now: Time)
    ensures var r := DepositStep(user, db, amount, now); r.result.Ok? ==> Agrees(r.session.user, r.db)
  {
    var r := DepositStep(user, db, amount, now);
    if r.result.Ok? {
      var db2 := db.UpdateBalance(user.id, amount).value.InsertLog(user.id, DEPOSIT_LABEL, AsI32(amount), now).value;
      assert r == Refresh(user, db2);
    }
  }

  lemma WithdrawAgrees(user: User, db: Db, amount: u32, now: Time)
    ensures var r := WithdrawStep(user, db, amount, now); r.result.Ok? ==> Agrees(r.session.user, r.db)
  {
    var r := WithdrawStep(user, db, amount, now);
    if r.result.Ok? {
      var db1 := db.UpdateBalance(user.id, -(amount as int)).value;
      var db2 := db1.InsertLog(user.id, WITHDRAW_LABEL, WrappingNeg32(AsI32(amount)), now).value;
      assert r == Refresh(user, db2);
    }
  }

  lemma TransferAgrees(user: User, db: Db, target: u32, amount: u32, sender: Bytes, now: Time)
    ensures var r := TransferStep(user, db, target, amount, sender, now); r.result.Ok? ==> Agrees(r.session.user, r.db)
  {
    var r := TransferStep(user, db, target, amount, sender, now);
    if r.result.Ok? {
      var db2 := db.UpdateBalance(target, amount).value.InsertLog(target, sender, AsI32(amount), now).value;
      var db3 := db2.UpdateBalance(user.id, -(amount as int)).value;
      assert r == Refresh(user, db3);
    }
  }

  /** A successful UPDATE keeps the set of accounts. */
  lemma UpdateKeepsIds(db: Db, id: u32, delta: int)
    requires db.UpdateBalance(id, delta).Some?
    ensures db.UpdateBalance(id, delta).value.accounts.Keys == db.accounts.Keys
  {
  }

  /**
   * A user-input error in the logged state leaves the store as it was: every
   * such error is raised before the first write, because the account the
   * snapshot names still exists when the menu is refreshed.
   */
  lemma LoggedUserErrorUnchanged(user: User, db: Db, body: Bytes, now: Time)
    requires Agrees(user, db)
    ensures var r := LoggedStep(user, db, body, now); r.result.Err? && r.result.error.UserInput? ==> r.db == db
  {
    var r := LoggedStep(user, db, body, now);
    match LoggedRoute(body)
    case Deposit(amount) =>
      assert r == DepositStep(user, db, amount, now);
      if WrappingAdd32(user.balance, amount) <= BALANCE_CAP && db.UpdateBalance(user.id, amount).Some? {
        UpdateKeepsIds(db, user.id, amount);
      }
    case Withdraw(amount) =>
      assert r == WithdrawStep(user, db, amount, now);
      if user.balance >= amount && db.UpdateBalance(user.id, -(amount as int)).Some? {
        UpdateKeepsIds(db, user.id, -(amount as int));
      }
    case Transfer(target, amount) =>
      assert r == TransferStep(user, db, target, amount, Decimal(user.id), now);
      TransferUserErrorUnchanged(user, db, target, amount, Decimal(user.id), now);
    case QueryHistory =>
    case Empty =>
    case Unknown =>
  }

  lemma TransferUserErrorUnchanged(user: User, db: Db, target: u32, amount: u32, sender: Bytes, now: Time)
    requires Agrees(user, db)
    ensures
      var r := TransferStep(user, db, target, amount, sender, now);
      r.result.Err? && r.result.error.UserInput? ==> r.db == db
  {
    var r := TransferStep(user, db, target, amount, sender, now);
    var o1 := db.UpdateBalance(target, amount);
    if target in db.accounts && WrappingAdd32(db.accounts[target].balance, amount) <= BALANCE_CAP
      && amount <= user.balance && o1.Some?
    {
      UpdateKeepsIds(db, target, amount);
      var o2 := o1.value.InsertLog(target, sender, AsI32(amount), now);
      if o2.Some? {
        var o3 := o2.value.UpdateBalance(user.id, -(amount as int));
        if o3.Some? {
          UpdateKeepsIds(o2.value, user.id, -(amount as int));
          assert r == Refresh(user, o3.value);
        }
      }
    }
  }
}
