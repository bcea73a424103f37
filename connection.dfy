/**
 * `BankConnection` (`bank/mod.rs`): strips and checks the fixed header,
 * hands the body to the current session handler, swaps the handler when the
 * handler returns a new one, and turns handler errors into `msgb` notices
 * (the session goes on) or `errr` notices (the connection is closed).
 */
module Connection {
  import opened Wire
  import opened Ledger
  import opened Sessions
  import opened Handlers
  import ServerExt

  /** The header check of `handle`: at least 8 bytes, the magic tag, then version 0. */
  function SplitHeader(data: Bytes): (r: Option<Bytes>)
    ensures r.Some? <==> |data| >= 8 && data[..8] == Header()
    ensures r.Some? ==> data == Header() + r.value
  {
    if |data| < 8 || data[..4] != MAGIC then None
    else if FromBe(data[4..8]) != CURRENT_VERSION then None
    else
      HeaderBytes(data);
      Some(data[8..])
  }

  /** `format!("{:?}", msg)` of a `&'static str` whose characters need no escaping: the text in double quotes. */
  function Quote(msg: Bytes): (r: Bytes)
    ensures |r| == |msg| + 2 && r[0] == 0x22 && r[|r| - 1] == 0x22 && r[1..|r| - 1] == msg
  {
    [0x22] + msg + [0x22]
  }

  const NOT_CORRECT_LEN: Bytes := [0x4E, 0x6F, 0x74, 0x20, 0x63, 0x6F, 0x72, 0x72, 0x65, 0x63, 0x74, 0x20, 0x6C, 0x65, 0x6E] // "Not correct len"
  const WRONG_PACKET_LENGTH: Bytes := [0x57, 0x72, 0x6F, 0x6E, 0x67, 0x20, 0x70, 0x61, 0x63, 0x6B, 0x65, 0x74, 0x20, 0x6C, 0x65, 0x6E, 0x67, 0x74, 0x68] // "Wrong packet length"
  const WRONG_PACKET_TYPE: Bytes := [0x57, 0x72, 0x6F, 0x6E, 0x67, 0x20, 0x70, 0x61, 0x63, 0x6B, 0x65, 0x74, 0x20, 0x74, 0x79, 0x70, 0x65, 0x20, 0x69, 0x6E, 0x20, 0x6C, 0x6F, 0x67, 0x67, 0x65, 0x64, 0x20, 0x73, 0x74, 0x61, 0x74, 0x65, 0x2E] // "Wrong packet type in logged state."
  const NOT_ENOUGH_LEN: Bytes := [0x4E, 0x6F, 0x74, 0x20, 0x65, 0x6E, 0x6F, 0x75, 0x67, 0x68, 0x20, 0x6C, 0x65, 0x6E, 0x20, 0x74, 0x6F, 0x20, 0x72, 0x65, 0x61, 0x64, 0x20, 0x73, 0x74, 0x72, 0x69, 0x6E, 0x67] // "Not enough len to read string"

  /**
   * `format!("{:?}", e)` of a fatal error: the `anyhow!` message for the
   * errors the core raises itself; for a malformed UTF-8 string and for a
   * store failure the text comes from code outside the core, so it is the
   * caller-supplied `describe`.
   */
  function FatalText(k: FatalKind, describe: FatalKind -> Bytes): (r: Bytes)
    ensures k == BadString(InvalidUtf8) || k == StoreFailure ==> r == describe(k)
    ensures k != BadString(InvalidUtf8) && k != StoreFailure ==> |r| > 0 && IsAscii(r)
  {
    match k
    case NotCorrectLen => NOT_CORRECT_LEN
    case WrongPacketLength => WRONG_PACKET_LENGTH
    case WrongPacketType => WRONG_PACKET_TYPE
    case BadString(Truncated) => NOT_ENOUGH_LEN
    case BadString(InvalidUtf8) => describe(k)
    case StoreFailure => describe(k)
  }

  /** A notice packet: the header, a tag, and one string. */
  function NoticePacket(tag: Bytes, text: Bytes): (r: Bytes)
    ensures |r| == 10 + |tag| + |text| && r[..8] == Header()
  {
    Header() + tag + StrField(text)
  }

  /** What one call of `BankConnection::handle` does: keep the connection?, next session, store, packets sent. */
  datatype Reply = Reply(keep: bool, session: Session, db: Db, sent: seq<Bytes>)

  /** The session handler the connection currently holds, run on one body. */
  function Deliver(s: Session, db: Db, body: Bytes, now: Time): (r: Step)
    ensures s.Unauth? ==> LoginShape(db, r)
    ensures s.Logged? ==> LoggedShape(s.user, r)
  {
    if s.Unauth? then LoginStep(db, body) else LoggedStep(s.user, db, body, now)
  }

  /** The packet `handle` adds for a handler error: `msgb` for a user-input error, `errr` for any other. */
  function Notices(result: Result<Option<Session>, Failure>, describe: FatalKind -> Bytes): (r: seq<Bytes>)
    ensures |r| == if result.Ok? then 0 else 1
  {
    match result
    case Ok(_) => []
    case Err(UserInput(msg)) => [NoticePacket(MSGB_TAG, Quote(msg))]
    case Err(Fatal(k)) => [NoticePacket(ERRR_TAG, FatalText(k, describe))]
  }

  /** How the connection acts on what its handler returned. */
  function Respond(step: Step, describe: FatalKind -> Bytes): (r: Reply)
    ensures r.db == step.db
    ensures r.keep <==> !(step.result.Err? && step.result.error.Fatal?)
    ensures |r.sent| == |step.sent| + (if step.result.Ok? then 0 else 1) && r.sent[..|step.sent|] == step.sent
    ensures step.result.Err? ==> r.session == step.session
  {
    var next := if step.result.Ok? && step.result.value.Some? then step.result.value.value else step.session;
    Reply(!(step.result.Err? && step.result.error.Fatal?), next, step.db, step.sent + Notices(step.result, describe))
  }

  /** One call of `BankConnection::handle`. */
  function Dispatch(s: Session, db: Db, data: Bytes, now: Time, describe: FatalKind -> Bytes): (r: Reply)
    ensures r.keep ==> |data| >= 8 && data[..8] == Header()
    ensures !(|data| >= 8 && data[..8] == Header()) ==> r == Reply(false, s, db, [])
  {
    match SplitHeader(data)
    case None => Reply(false, s, db, [])
    case Some(body) => Respond(Deliver(s, db, body, now), describe)
  }

  /** `Box<dyn BankDataHandler>`: the login handler, or a logged-in handler with its own state. */
  datatype Handler = LoginHandler | LoggedIn(h: LoggedHandler)

  class BankConnection {
    const bankServer: Store
    var handler: Handler

    /** The session state the current handler stands for. */
    function Current(): Session
      reads this, if handler.LoggedIn? then {handler.h} else {}
    {
      if handler.LoginHandler? then Unauth else Logged(handler.h.user)
    }

    /** `BankConnection::new`: every connection starts in the login state. */
    constructor (bankServer: Store)
      ensures this.bankServer == bankServer && Current() == Unauth
    {
      this.bankServer := bankServer;
      handler := LoginHandler;
    }

    /** `BankConnection::handle`. */
    method Handle(src: Sender, data: Bytes, now: Time, describe: FatalKind -> Bytes) returns (keep: bool)
      requires bankServer.Valid()
      modifies this, bankServer, src, if handler.LoggedIn? then {handler.h} else {}
      ensures bankServer.Valid()
      ensures
        var r := Dispatch(old(Current()), old(bankServer.State()), data, now, describe);
        && keep == r.keep && Current() == r.session
        && bankServer.State() == r.db && src.sent == old(src.sent) + r.sent
    {
      var body := SplitHeader(data);
      if body.None? {
        return false;
      }
      ghost var step := Deliver(Current(), bankServer.State(), body.value, now);
      var result := RunHandler(src, body.value, now);
      keep := Conclude(src, result, step, describe);
      assert src.sent == old(src.sent) + (step.sent + Notices(result, describe));
    }

    /** `self.handler.handle(&self.bank_server, src, &data[8..])`. */
    method RunHandler(src: Sender, body: Bytes, now: Time) returns (result: Result<Option<Session>, Failure>)
      requires bankServer.Valid()
      modifies bankServer, src, if handler.LoggedIn? then {handler.h} else {}
      ensures bankServer.Valid() && handler == old(handler)
      ensures
        var step := Deliver(old(Current()), old(bankServer.State()), body, now);
        && result == step.result && Current() == step.session
        && bankServer.State() == step.db && src.sent == old(src.sent) + step.sent
      ensures result.Ok? && result.value.Some? ==> result.value.value.Logged?
    {
      if handler.LoginHandler? {
        result := HandleLogin(bankServer, src, body);
      } else {
        result := handler.h.Handle(bankServer, src, body, now);
      }
    }

    /** The `match result` of `handle`: swap the handler, or send the notice for an error. */
    method Conclude(src: Sender, result: Result<Option<Session>, Failure>, ghost step: Step, describe: FatalKind -> Bytes)
        returns (keep: bool)
      requires result == step.result && Current() == step.session
      requires result.Ok? && result.value.Some? ==> result.value.value.Logged?
      modifies this, src
      ensures
        var r := Respond(step, describe);
        keep == r.keep && Current() == r.session && src.sent == old(src.sent) + Notices(result, describe)
    {
      match result
      case Ok(next) =>
        if next.Some? {
          var h := new LoggedHandler(next.value.user);
          handler := LoggedIn(h);
        }
        keep := true;
      case Err(UserInput(msg)) =>
        var notice := new ServerExt.Packet();
        notice.AddHeader();
        notice.ExtendFromSlice(MSGB_TAG);
        notice.WriteString(Quote(msg));
        src.Send(notice.data);
        keep := true;
      case Err(Fatal(k)) =>
        var notice := new ServerExt.Packet();
        notice.AddHeader();
        notice.ExtendFromSlice(ERRR_TAG);
        notice.WriteString(FatalText(k, describe));
        src.Send(notice.data);
        keep := false;
    }
  }

  /** `DataHandlerGenerator::generate`: a fresh connection on the shared store, whatever the peer's address. */
  method Generate(server: Store) returns (c: BankConnection)
    ensures fresh(c) && c.bankServer == server && c.Current() == Unauth
  {
    c := new BankConnection(server);
  }

  // ---------------------------------------------------------------------
  // Properties of one call

  /** Every packet built with the fixed header reaches the handler with exactly its body. */
  lemma HeaderRoundTrip(body: Bytes)
    ensures SplitHeader(Header() + body) == Some(body)
  {
    var data := Header() + body;
    assert data[..8] == Header();
    var r := SplitHeader(data);
    assert Header() + r.value == Header() + body;
    assert r.value == (Header() + r.value)[8..];
  }

  /** A packet without the magic tag and version 0 is dropped: nothing is sent or stored and the connection closes. */
  lemma BadHeaderDropped(s: Session, db: Db, data: Bytes, now: Time, describe: FatalKind -> Bytes)
    requires !(|data| >= 8 && data[..8] == Header())
    ensures Dispatch(s, db, data, now, describe) == Reply(false, s, db, [])
  {
  }

  /**
   * With a good header the connection stays open unless the handler failed
   * with an error other than a user-input error; every error is answered by
   * exactly one notice, `msgb` with the quoted message or `errr` with the
   * error text, and nothing else is sent.
   */
  lemma ErrorsAnswered(s: Session, db: Db, body: Bytes, now: Time, describe: FatalKind -> Bytes)
    ensures
      var r := Dispatch(s, db, Header() + body, now, describe);
      var step := Deliver(s, db, body, now);
      && (r.keep <==> !(step.result.Err? && step.result.error.Fatal?))
      && (step.result.Err? && step.result.error.UserInput? ==>
            r.sent == [NoticePacket(MSGB_TAG, Quote(step.result.error.msg))] && r.session == s)
      && (step.result.Err? && step.result.error.Fatal? ==>
            r.sent == [NoticePacket(ERRR_TAG, FatalText(step.result.error.kind, describe))])
  {
    HeaderRoundTrip(body);
    var step := Deliver(s, db, body, now);
    if s.Unauth? {
      assert LoginShape(db, step);
    } else {
      assert LoggedShape(s.user, step);
    }
  }

  /** A logged-in connection stays logged in to the same account; a login-state connection leaves it only by a successful login or register, which shows the menu. */
  lemma SessionProgress(s: Session, db: Db, data: Bytes, now: Time, describe: FatalKind -> Bytes)
    ensures
      var r := Dispatch(s, db, data, now, describe);
      && (s.Logged? ==> r.session.Logged? && r.session.user.id == s.user.id)
      && (s.Unauth? && r.session.Logged? ==> r.keep && r.sent == [MenuPacket(r.session.user)])
  {
    var body := SplitHeader(data);
    if body.Some? {
      var step := Deliver(s, db, body.value, now);
      if s.Unauth? {
        assert LoginShape(db, step);
      } else {
        assert LoggedShape(s.user, step);
      }
    }
  }

  /** The connection-level invariant: balances within the cap, the trade-log ids in order, and an up-to-date snapshot. */
  ghost predicate Sound(s: Session, db: Db) {
    Capped(db) && db.Valid() && (s.Logged? ==> Agrees(s.user, db))
  }

  /** Every call keeps the store sound, and every call that keeps the connection open keeps the snapshot current. */
  lemma DispatchPreserves(s: Session, db: Db, data: Bytes, now: Time, describe: FatalKind -> Bytes)
    requires Sound(s, db)
    ensures
      var r := Dispatch(s, db, data, now, describe);
      Capped(r.db) && r.db.Valid() && (r.keep ==> Sound(r.session, r.db))
  {
    var body := SplitHeader(data);
    if body.Some? {
      var step := Deliver(s, db, body.value, now);
      if s.Unauth? {
        LoginStepPreserves(db, body.value);
        assert LoginShape(db, step);
      } else {
        LoggedStepPreserves(s.user, db, body.value, now);
        LoggedStepAgrees(s.user, db, body.value, now);
        LoggedUserErrorUnchanged(s.user, db, body.value, now);
        assert LoggedShape(s.user, step);
      }
    }
  }
}
