/**
 * The two ends of the protocol against each other: every request the
 * client's screens send reaches the server branch it is meant for, and
 * every packet the server sends decodes on the client into the screen or
 * message it stands for.
 */
module Protocol {
  import opened Wire
  import opened FromStr
  import Ledger
  import S = Sessions
  import C = Connection
  import B = ClientBank
  import M = ClientMenu
  import W = ClientScreens
  import I = ClientInfo
  import D = ClientDecode

  /** The client's copy of a server account snapshot. */
  function Seen(u: S.User): (r: B.User)
    ensures r.id == u.id && r.balance == u.balance && r.name == u.name && r.phone == u.phone
  {
    B.User(u.id, u.balance, u.name, u.phone)
  }

  /** The client's copy of a history row. */
  function SeenRow(t: Ledger.TradeLog): (r: I.TradeInfo)
    ensures r.tid == t.tid && r.receiver == t.receiver && r.sender == t.sender && r.amount == t.amount
    ensures r.time == I.Stamp(t.time.secs, t.time.nanos)
  {
    I.TradeInfo(t.tid, t.receiver, t.sender, I.Stamp(t.time.secs, t.time.nanos), t.amount)
  }

  function SeenRows(rows: seq<Ledger.TradeLog>): (r: seq<I.TradeInfo>)
    ensures |r| == |rows| && forall i :: 0 <= i < |rows| ==> r[i] == SeenRow(rows[i])
  {
    seq(|rows|, i requires 0 <= i < |rows| => SeenRow(rows[i]))
  }

  // ---------------------------------------------------------------------
  // Client to server

  /** Two big-endian words side by side give back both words. */
  lemma Words(a: u32, b: u32, x: u32, y: u32, rest: Bytes, more: Bytes)
    requires Be32(a) + Be32(b) + rest == Be32(x) + Be32(y) + more
    ensures a == x && b == y && rest == more
  {
    var l, r := Be32(a) + Be32(b) + rest, Be32(x) + Be32(y) + more;
    assert l[..4] == Be32(a) && r[..4] == Be32(x);
    assert l[4..8] == Be32(b) && r[4..8] == Be32(y);
    assert l[8..] == rest && r[8..] == more;
  }

  /** The login button's packet reaches the server's login branch with the id and hash it carries. */
  lemma LoginPacketRoutes(id: Bytes, password: Bytes, sip: Bytes -> u64)
    ensures var r := M.LoginRequest(id, password, sip);
      r.Send? ==>
        var body := C.SplitHeader(r.packet);
        && body.Some?
        && S.LoginRoute(body.value) == S.Login(LowU32(M.Credentials(id, password).value), AsI32(LowU32(sip(password))))
  {
    var r := M.LoginRequest(id, password, sip);
    if r.Send? {
      var a, b := LowU32(M.Credentials(id, password).value), LowU32(sip(password));
      assert r.packet == Header() + (Be32(a) + Be32(b));
      var body := C.SplitHeader(r.packet).value;
      assert body == Be32(a) + Be32(b) + [];
      var route := S.LoginRoute(body);
      Words(a, b, route.id, AsU32(route.password), [], []);
    }
  }

  /** A register body: the two words, then the fields, routed to the register branch. */
  lemma RegisterBody(a: u32, b: u32, fields: Bytes, db: Ledger.Db)
    requires fields != []
    ensures var body := C.SplitHeader(Header() + (Be32(a) + Be32(b) + fields));
      && body.Some? && S.LoginRoute(body.value) == S.Register(a, AsI32(b), fields)
      && S.LoginStep(db, body.value) == S.RegisterAttempt(db, a, AsI32(b), fields)
  {
    var body := C.SplitHeader(Header() + (Be32(a) + Be32(b) + fields)).value;
    var route := S.LoginRoute(body);
    Words(a, b, route.id, AsU32(route.password), fields, route.fields);
  }

  /** The server reads back the name and phone the client wrote. */
  lemma RegisterFields(db: Ledger.Db, a: u32, b: i32, name: Bytes, phone: Bytes)
    requires |name| < U16_LIMIT && ValidUtf8(name) && |phone| < U16_LIMIT && ValidUtf8(phone)
    ensures S.RegisterAttempt(db, a, b, StrField(name) + StrField(phone)) == S.RegisterStep(db, a, b, name, phone)
  {
    ReadStrField(name, StrField(phone));
    ReadStrField(phone, []);
    assert StrField(phone) + [] == StrField(phone);
  }

  lemma RegisterPacket(a: u32, b: u32, name: Bytes, phone: Bytes)
    ensures Header() + Be32(a) + Be32(b) + StrField(name) + StrField(phone)
         == Header() + (Be32(a) + Be32(b) + (StrField(name) + StrField(phone)))
  {
  }

  /**
   * The register button's packet reaches the server's register branch,
   * which reads back the name and phone as typed whenever each is UTF-8
   * and shorter than 65536 bytes.
   */
  lemma RegisterPacketRoutes(id: Bytes, password: Bytes, name: Bytes, phone: Bytes, sip: Bytes -> u64, db: Ledger.Db)
    requires |name| < U16_LIMIT && ValidUtf8(name) && |phone| < U16_LIMIT && ValidUtf8(phone)
    ensures var r := M.RegisterRequest(id, password, name, phone, sip);
      r.Send? ==>
        var body := C.SplitHeader(r.packet);
        var a, b := LowU32(M.Credentials(id, password).value), AsI32(LowU32(sip(password)));
        && body.Some?
        && S.LoginRoute(body.value) == S.Register(a, b, StrField(name) + StrField(phone))
        && S.LoginStep(db, body.value) == S.RegisterStep(db, a, b, name, phone)
  {
    var r := M.RegisterRequest(id, password, name, phone, sip);
    if r.Send? {
      var a, b := LowU32(M.Credentials(id, password).value), LowU32(sip(password));
      var fields := StrField(name) + StrField(phone);
      RegisterPacket(a, b, name, phone);
      RegisterBody(a, b, fields, db);
      RegisterFields(db, a, AsI32(b), name, phone);
    }
  }

  /** The withdraw packet is the server's withdraw request for the same amount. */
  lemma WithdrawBody(amount: u32)
    ensures var body := C.SplitHeader(W.WithdrawPacket(amount));
      body.Some? && S.LoggedRoute(body.value) == S.Withdraw(amount)
  {
    assert W.WithdrawPacket(amount) == Header() + ([1] + Be32(amount));
    var body := C.SplitHeader(W.WithdrawPacket(amount)).value;
    assert body[1..] == Be32(amount);
  }

  /** A withdraw request reaches the server's withdraw branch, for an amount within the balance the client saw. */
  lemma WithdrawPacketRoutes(w: W.Withdraw)
    ensures var r := W.WithdrawRequest(w);
      r.Send? ==>
        var body := C.SplitHeader(r.packet);
        var amount := W.ParseU32(w.amount).value;
        && body.Some? && S.LoggedRoute(body.value) == S.Withdraw(amount)
        && 0 < amount <= w.user.balance
  {
    var r := W.WithdrawRequest(w);
    if r.Send? {
      WithdrawBody(W.ParseU32(w.amount).value);
    }
  }

  /** The transfer packet is the server's transfer request for the same target and amount. */
  lemma TransferBody(target: u32, amount: u32)
    ensures var body := C.SplitHeader(W.TransferPacket(target, amount));
      body.Some? && S.LoggedRoute(body.value) == S.Transfer(target, amount)
  {
    assert W.TransferPacket(target, amount) == Header() + ([2] + Be32(target) + Be32(amount));
    var body := C.SplitHeader(W.TransferPacket(target, amount)).value;
    var route := S.LoggedRoute(body);
    assert body[1..5] == Be32(target) && body[5..] == Be32(amount);
    assert body[1..5] == Be32(route.target) && body[5..] == Be32(route.amount);
  }

  /** A transfer request reaches the server's transfer branch with the target and amount typed. */
  lemma TransferPacketRoutes(t: W.Transfer)
    ensures var r := W.TransferRequest(t);
      r.Send? ==>
        var body := C.SplitHeader(r.packet);
        && body.Some?
        && S.LoggedRoute(body.value) == S.Transfer(W.ParseU32(t.target).value, W.ParseU32(t.amount).value)
  {
    var r := W.TransferRequest(t);
    if r.Send? {
      TransferBody(W.ParseU32(t.target).value, W.ParseU32(t.amount).value);
    }
  }

  /** The history button's packet is the server's history query. */
  lemma HistoryPacketRoutes()
    ensures var body := C.SplitHeader(B.HistoryRequest());
      body.Some? && S.LoggedRoute(body.value) == S.QueryHistory
  {
    assert B.HistoryRequest() == Header() + [3];
  }

  lemma Wrap(n: nat)
    requires n < U32_LIMIT
    ensures LowU32(n + U32_LIMIT) == n == LowU32(n) && n % U32_LIMIT == n
  {
    assert (n + U32_LIMIT) % U32_LIMIT == n;
  }

  /**
   * The id typed is parsed as a `u64` and only its low 32 bits are sent,
   * so `n` and `n + 2^32` log in to the same account.
   */
  lemma IdsWrapAround(n: nat, password: Bytes, sip: Bytes -> u64)
    requires n < U32_LIMIT && password != []
    ensures M.LoginRequest(Decimal(n + U32_LIMIT), password, sip) == M.LoginRequest(Decimal(n), password, sip)
    ensures M.LoginRequest(Decimal(n), password, sip).Send?
  {
    ParseDecimal(n, U64_LIMIT);
    ParseDecimal(n + U32_LIMIT, U64_LIMIT);
    assert Decimal(n) != [] && Decimal(n + U32_LIMIT) != [];
    assert M.Credentials(Decimal(n), password) == Ok(n);
    assert M.Credentials(Decimal(n + U32_LIMIT), password) == Ok(n + U32_LIMIT);
    Wrap(n);
  }

  // ---------------------------------------------------------------------
  // Server to client

  /** Two packets that share the header and tag decode on the body alone. */
  lemma TaggedBody(tag: Bytes, body: Bytes)
    requires |tag| == 4
    ensures var p := Header() + tag + body;
      |p| >= 12 && p[..8] == Header() && p[..4] == MAGIC && p[4..8] == Be32(CURRENT_VERSION)
      && p[8..12] == tag && p[12..] == body
  {
    var p := Header() + tag + body;
    assert p[..8] == Header();
    assert p[4..8] == Header()[4..8];
  }

  /** A packet that opens with the header is decoded by its tag and body alone. */
  lemma DecodeTagged(tag: Bytes, body: Bytes)
    requires |tag| == 4
    ensures D.Decode(Header() + tag + body) == D.DecodeBody(tag, body)
  {
    TaggedBody(tag, body);
  }

  /** A user the server can describe fits the client's reader. */
  predicate Describable(u: S.User) {
    D.Sendable(Seen(u))
  }

  /** The server's `menu` packet opens the client's main screen for the same user. */
  lemma MenuShowsIndex(u: S.User)
    requires Describable(u)
    ensures D.Decode(S.MenuPacket(u)) == D.ShowIndex(Seen(u))
  {
    var body := S.UserFields(u);
    assert S.MenuPacket(u) == Header() + MENU_TAG + body;
    DecodeTagged(MENU_TAG, body);
    assert body == D.UserBytes(Seen(u)) + [];
    D.ReadUserBytes(Seen(u), []);
  }

  /** A `msgb` notice shows its text in the client's message box. */
  lemma NoticeShowsTip(text: Bytes)
    requires |text| < U16_LIMIT && ValidUtf8(text)
    ensures D.Decode(C.NoticePacket(MSGB_TAG, text)) == D.Tip(text)
  {
    DecodeTagged(MSGB_TAG, StrField(text));
    ReadStrField(text, []);
    assert StrField(text) + [] == StrField(text);
  }

  /** So a refusal reaches the user as its message inside double quotes. */
  lemma RefusalShownQuoted(msg: Bytes)
    requires |msg| < U16_LIMIT - 2 && ValidUtf8(msg)
    ensures D.Decode(C.NoticePacket(MSGB_TAG, C.Quote(msg))) == D.Tip(C.Quote(msg))
  {
    QuoteIsUtf8(msg);
    NoticeShowsTip(C.Quote(msg));
  }

  lemma QuoteIsUtf8(msg: Bytes)
    requires |msg| < U16_LIMIT - 2 && ValidUtf8(msg)
    ensures |C.Quote(msg)| < U16_LIMIT && ValidUtf8(C.Quote(msg))
  {
    var quote: Bytes := [0x22];
    AsciiIsUtf8(quote);
    Utf8Concat(quote, msg);
    Utf8Concat(quote + msg, quote);
  }

  /** An `errr` notice is not shown at all: the client ignores the tag. */
  lemma ErrorIgnored(text: Bytes)
    ensures D.Decode(C.NoticePacket(ERRR_TAG, text)) == D.Ignored
  {
    DecodeTagged(ERRR_TAG, StrField(text));
  }

  /** A row the client can read back. */
  predicate Describes(t: Ledger.TradeLog) {
    D.Readable(SeenRow(t))
  }

  /** The client's rows, one appended at the back. */
  lemma {:induction false} ClientRowsSnoc(ts: seq<I.TradeInfo>, t: I.TradeInfo)
    ensures D.RecordsBytes(ts + [t]) == D.RecordsBytes(ts) + D.RecordBytes(t)
  {
    if ts == [] {
      assert [] + [t] == [t];
      assert D.RecordsBytes([t]) == D.RecordBytes(t) + D.RecordsBytes([]);
    } else {
      assert (ts + [t])[1..] == ts[1..] + [t];
      ClientRowsSnoc(ts[1..], t);
    }
  }

  /** The server writes rows exactly as the client reads them. */
  lemma {:induction false} RowsAgree(rows: seq<Ledger.TradeLog>)
    ensures S.RecordsBytes(rows) == D.RecordsBytes(SeenRows(rows))
  {
    if rows != [] {
      var init, last := rows[..|rows| - 1], rows[|rows| - 1];
      RowsAgree(init);
      assert SeenRows(rows) == SeenRows(init) + [SeenRow(last)];
      ClientRowsSnoc(SeenRows(init), SeenRow(last));
    }
  }

  lemma Nest5(x: Bytes, a: Bytes, b: Bytes, c: Bytes, d: Bytes, e: Bytes)
    ensures x + a + b + c + d + e == x + (a + (b + (c + (d + e))))
  {
  }

  /** The server's `info` packet, regrouped as the client reads it. */
  lemma InfoBody(u: S.User, rows: seq<Ledger.TradeLog>)
    requires |rows| < U32_LIMIT
    ensures S.InfoPacket(u, rows) ==
      Header() + INFO_TAG + (Be32(1) + (Be32(1) + (Be32(|rows|) + (D.UserBytes(Seen(u)) + S.RecordsBytes(rows)))))
  {
    var x := Header() + INFO_TAG;
    Wrap(|rows|);
    assert S.InfoPacket(u, rows) == x + Be32(1) + Be32(1) + Be32(|rows|) + S.UserFields(u) + S.RecordsBytes(rows);
    assert S.UserFields(u) == D.UserBytes(Seen(u));
    Nest5(x, Be32(1), Be32(1), Be32(|rows|), S.UserFields(u), S.RecordsBytes(rows));
  }

  /** A well-headed `info` packet is decoded by its body alone. */
  lemma InfoDecodes(body: Bytes)
    ensures D.Decode(Header() + INFO_TAG + body) == D.DecodeInfo(body)
  {
    DecodeTagged(INFO_TAG, body);
  }

  /** After the three words: the user, then the rows, and nothing left over. */
  lemma InfoTailReads(u: S.User, rows: seq<Ledger.TradeLog>)
    requires Describable(u)
    requires forall i :: 0 <= i < |rows| ==> Describes(rows[i])
    ensures var records := D.RecordsBytes(SeenRows(rows));
      && D.ReadUser(D.UserBytes(Seen(u)) + records) == Some(Take(Seen(u), records))
      && D.ReadRecords(records, |rows|) == Some(Take(SeenRows(rows), []))
  {
    var records := D.RecordsBytes(SeenRows(rows));
    D.ReadUserBytes(Seen(u), records);
    RowsRead(rows);
  }

  lemma RowsRead(rows: seq<Ledger.TradeLog>)
    requires forall i :: 0 <= i < |rows| ==> Describes(rows[i])
    ensures D.ReadRecords(D.RecordsBytes(SeenRows(rows)), |rows|) == Some(Take(SeenRows(rows), []))
  {
    var ts := SeenRows(rows);
    forall i | 0 <= i < |ts|
      ensures D.Readable(ts[i])
    {
      assert Describes(rows[i]);
    }
    D.ReadRecordsBytes(ts, [], |rows|);
    assert D.RecordsBytes(ts) + [] == D.RecordsBytes(ts);
  }

  /** The `info` body the server writes reads back as the same user and rows. */
  lemma InfoBodyReads(u: S.User, rows: seq<Ledger.TradeLog>)
    requires Describable(u) && |rows| < U32_LIMIT
    requires forall i :: 0 <= i < |rows| ==> Describes(rows[i])
    ensures var after := D.UserBytes(Seen(u)) + D.RecordsBytes(SeenRows(rows));
      D.DecodeInfo(Be32(1) + (Be32(1) + (Be32(|rows|) + after))) == D.ShowInfo(Seen(u), SeenRows(rows))
  {
    var after := D.UserBytes(Seen(u)) + D.RecordsBytes(SeenRows(rows));
    TakeU32Be32(1, Be32(1) + (Be32(|rows|) + after));
    TakeU32Be32(1, Be32(|rows|) + after);
    TakeU32Be32(|rows|, after);
    InfoTailReads(u, rows);
  }

  /** The server's `info` packet opens the client's history screen with the same user and the rows in the order sent. */
  lemma InfoShowsHistory(u: S.User, rows: seq<Ledger.TradeLog>)
    requires Describable(u) && |rows| < U32_LIMIT
    requires forall i :: 0 <= i < |rows| ==> Describes(rows[i])
    ensures D.Decode(S.InfoPacket(u, rows)) == D.ShowInfo(Seen(u), SeenRows(rows))
  {
    var after := D.UserBytes(Seen(u)) + D.RecordsBytes(SeenRows(rows));
    RowsAgree(rows);
    InfoBody(u, rows);
    InfoDecodes(Be32(1) + (Be32(1) + (Be32(|rows|) + after)));
    InfoBodyReads(u, rows);
  }
}
