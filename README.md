# rPtm bank protocol — a Dafny model

This project models the wire protocol of a small bank, and the rules behind it. The bank has a Rust server (`bank_server`) and a Rust GUI client. They talk over KCP in packets that all open with the same 8-byte header: the magic tag `rPtm`, then protocol version 0 as a big-endian `u32`.

What is modelled:

- **The packet codec.** Both copies, server and client: header writing, the `u16`-prefixed strings, and a reading cursor that moves forward (`Wire`, `ServerExt`, `ClientExt`).
- **The server's connection dispatcher** (`Connection`). It checks the header and hands the body to the current session handler. A handler that returns a new handler replaces the old one. A user-input error becomes a `msgb` notice and the connection stays open. Any other error becomes an `errr` notice and the connection closes.
- **The session state machine.** A login state routes on body length: 8 bytes is login, more is register. A logged-in state routes on an opcode plus an exact body length: deposit, withdraw, transfer or history.
  - The state machine is written twice. `Sessions` states what one call of a handler does, as pure functions of the session, the store and the body. `Handlers` holds the in-place handlers, proved to do exactly that.
  - The business rules are proved as lemmas: the 10000 balance cap, no overdraft, the 60/20-byte name/phone limits, unique ids, and a trade log with increasing ids.
- **The store** (`Ledger`). The MySQL tables `bank_user` and `trade_logs` become a value `Db` and a class `Store` that updates it in place. `insert_trade_log` and `add_balance` are methods on that store.
- **The peer registry of the accept loop** (`Registry`). Each accepted peer is inserted and evicts any older peer at the same address. Entries whose `listening` flag is clear are swept.
- **The client side.** The click bodies of the login, register, withdraw, transfer and history buttons (`ClientMenu`, `ClientScreens`, `ClientBank`). The `u32`/`u64` text parser (`FromStr`). The response decoder of the receiving task (`ClientDecode`). The in-place sort of the history screen (`ClientInfo`).
- **Both ends against each other** (`Protocol`). Every request a client screen sends reaches the server branch it is meant for. Every `menu`, `msgb` and `info` packet the server sends decodes on the client into the same user, text or rows.

## Model

| member | source | states |
|---|---|---|
| Wire.BeBytes | bank_server/src/bank/ext.rs:20 | `to_be_bytes`: exactly `width` bytes, most significant first |
| Wire.FromBe | src/state/room/connecting.rs:114 | the big-endian value of a byte string is below 256^len |
| Wire.FromBeBeBytes | bank_server/src/bank/ext.rs:35 | decoding a big-endian encoding gives back any number that fits the width |
| Wire.BeBytesFromBe | bank_server/src/bank/ext.rs:35 | encoding a decoded byte string reproduces those bytes |
| Wire.Be16 | bank_server/src/bank/ext.rs:20 | `(n as u16).to_be_bytes()` is 2 bytes that decode back to n |
| Wire.Be32 | bank_server/src/bank/handlers.rs:83 | `u32::to_be_bytes`/`put_u32` is 4 bytes that decode back to n |
| Wire.Be64 | bank_server/src/bank/handlers.rs:305 | 8 big-endian bytes that decode back to n |
| Wire.AsI32 | bank_server/src/bank/handlers.rs:200 | `u32 as i32`: the same 32 bits read as two's complement, congruent to n mod 2^32 |
| Wire.AsU32 | bank_server/src/bank/handlers.rs:297 | `i32 as u32` is undone by `u32 as i32` |
| Wire.LowU32 | src/state/room/bank/menu.rs:102 | `u64 as u32` keeps the value mod 2^32 |
| Wire.AsI64 | src/state/room/connecting.rs:159 | `get_i64` reads the 64-bit pattern as two's complement, congruent mod 2^64 |
| Wire.I32Bytes | bank_server/src/bank/handlers.rs:302 | `put_i32` writes 4 bytes that read back as the same i32 |
| Wire.I64Bytes | bank_server/src/bank/handlers.rs:305 | `put_i64` writes 8 bytes that read back as the same i64 |
| Wire.WrappingAdd32 | bank_server/src/bank/handlers.rs:191 | `balance + amount` on u32 (release build): the true sum when it fits; otherwise the sum less 2^32, smaller than either operand |
| Wire.WrappingNeg32 | bank_server/src/bank/handlers.rs:227 | `-(amount as i32)`: the negation, except that i32::MIN stays itself |
| Wire.TakeU8 | bank_server/src/bank/handlers.rs:183 | `get_u8` succeeds iff a byte is left, and splits off exactly that byte |
| Wire.TakeU32 | bank_server/src/bank/handlers.rs:73 | `get_u32` succeeds iff 4 bytes are left, and the input is the value's big-endian bytes followed by the rest |
| Wire.TakeI32 | bank_server/src/bank/handlers.rs:74 | `get_i32` succeeds iff 4 bytes are left, and the input is the value's bytes followed by the rest |
| Wire.TakeI64 | src/state/room/connecting.rs:159 | `get_i64` succeeds iff 8 bytes are left, and the input is the value's bytes followed by the rest |
| Wire.TakeU32Be32 | bank_server/src/bank/handlers.rs:73 | reading a u32 back from its encoding gives the value and exactly the bytes after it |
| Wire.TakeI32Bytes | bank_server/src/bank/handlers.rs:74 | reading an i32 back from its encoding gives the value and the bytes after it |
| Wire.TakeI64Bytes | src/state/room/connecting.rs:159 | reading an i64 back from its encoding gives the value and the bytes after it |
| Wire.Header | bank_server/src/bank/mod.rs:38-39 | the header is `r`,`P`,`t`,`m`,0,0,0,0: the magic tag, then version 0 big-endian |
| Wire.HeaderBytes | bank_server/src/bank/mod.rs:55-62 | a packet that passes the magic and version checks starts with exactly the header |
| Wire.CharWidth | bank_server/src/bank/ext.rs:39 | the width of the well-formed UTF-8 character at the front: 1 for ASCII, 0 for a stray continuation or overlong lead byte, never past the input |
| Wire.ValidUtf8 | bank_server/src/bank/ext.rs:39 | what `String::from_utf8` accepts: a sequence of well-formed characters, so a non-empty valid string never starts with a continuation byte or a lead byte 0xC0, 0xC1 or 0xF5-0xFF |
| Wire.AsciiIsUtf8 | bank_server/src/bank/ext.rs:39 | ASCII text passes `String::from_utf8` |
| Wire.Utf8Concat | bank_server/src/bank/mod.rs:79 | two valid UTF-8 strings concatenate to a valid one |
| Wire.Decimal | bank_server/src/bank/handlers.rs:253 | `n.to_string()`: ASCII digits, more than one exactly when n >= 10 |
| Wire.DecimalInjective | bank_server/src/bank/handlers.rs:277-279 | distinct ids render to distinct sender strings, so the history query's `sender = id` match names one account |
| Wire.DecimalIsUtf8 | bank_server/src/bank/handlers.rs:253 | the decimal sender label is valid UTF-8 |
| Wire.StrField | bank_server/src/bank/ext.rs:17-22 | `write_string` appends len+2 bytes: the length mod 65536 big-endian, then the bytes |
| Wire.ReadStr | bank_server/src/bank/ext.rs:31-43 | fewer than 2 bytes: error, cursor unmoved. Declared length too long: error, prefix consumed. Invalid UTF-8: error, cursor just past the prefix. Success: valid UTF-8 under 65536 bytes, and the input is its field plus the rest |
| Wire.StrFieldSplits | bank_server/src/bank/ext.rs:35-40 | whenever the declared length fits, the input is a well-formed field followed by what is left |
| Wire.ReadStrField | bank_server/src/bank/ext.rs:17-43 | round trip: reading `write_string(s) ++ rest` gives s and leaves the cursor at rest, for UTF-8 s under 65536 bytes |
| Wire.ReadStrFieldInvalid | bank_server/src/bank/ext.rs:39 | an invalid UTF-8 payload is refused with the cursor left just after the prefix |
| Wire.StrFieldTruncates | bank_server/src/bank/ext.rs:20 | a 65536-byte string is written with prefix 0: it reads back as "" and leaves its own bytes on the cursor |
| ServerExt.Packet.constructor | bank_server/src/bank/handlers.rs:79 | `vec![]`: an empty buffer |
| ServerExt.Packet.AddHeader | bank_server/src/bank/ext.rs:13-15 | appends exactly the 8 header bytes and leaves the earlier bytes untouched |
| ServerExt.Packet.WriteString | bank_server/src/bank/ext.rs:17-22 | appends the string field, growing the buffer by exactly len+2, and never fails |
| ServerExt.Packet.ExtendFromSlice | bank_server/src/bank/handlers.rs:82 | appends the slice |
| ServerExt.Packet.PutU8 | bank_server/src/bank/handlers.rs:183 | appends one byte |
| ServerExt.Packet.PutU32 | bank_server/src/bank/handlers.rs:285-287 | appends the big-endian u32 |
| ServerExt.Packet.PutI32 | bank_server/src/bank/handlers.rs:302 | appends the big-endian i32 |
| ServerExt.Packet.PutI64 | bank_server/src/bank/handlers.rs:305 | appends the big-endian i64 |
| ServerExt.AddFixedHeader | bank_server/src/bank/mod.rs:99-102 | appends `PACKET_HEADER` then `CURRENT_VERSION` big-endian, which is the header |
| ServerExt.Cursor.constructor | bank_server/src/bank/handlers.rs:67 | the cursor holds the whole body |
| ServerExt.Cursor.GetU8 | bank_server/src/bank/handlers.rs:183 | consumes one byte, as `TakeU8` splits it |
| ServerExt.Cursor.GetU16 | bank_server/src/bank/ext.rs:35 | consumes the 2-byte big-endian length |
| ServerExt.Cursor.GetU32 | bank_server/src/bank/handlers.rs:73 | consumes 4 bytes, as `TakeU32` splits them |
| ServerExt.Cursor.GetI32 | bank_server/src/bank/handlers.rs:74 | consumes 4 bytes, as `TakeI32` splits them |
| ServerExt.Cursor.ReadPacketString | bank_server/src/bank/ext.rs:31-43 | result and new cursor are those of `ReadStr`. On success the old cursor is the field plus the new one. On failure the cursor is unmoved or only past the prefix |
| ClientExt.Packet.constructor | src/state/room/bank/menu.rs:83 | an empty buffer |
| ClientExt.Packet.AddHeader | src/ext.rs:13-16 | appends `PACKET_HEADER` and `CURRENT_VERSION` big-endian: the same 8 bytes as the server's header |
| ClientExt.Packet.WriteString | src/ext.rs:18-23 | appends the same truncated-prefix field as the server, len+2 bytes, no failure path |
| ClientExt.Packet.PutU8 | src/state/room/bank/withdraw.rs:59 | appends one byte |
| ClientExt.Packet.PutU32 | src/state/room/bank/withdraw.rs:60 | appends the big-endian u32 |
| ClientExt.Cursor.constructor | src/state/room/connecting.rs:121 | the cursor holds the body after the tag |
| ClientExt.Cursor.TryGetU32 | src/state/room/connecting.rs:129 | `get_u32`: consumes 4 bytes as `TakeU32` does; fails with the cursor unmoved exactly when fewer than 4 are left |
| ClientExt.Cursor.TryGetI32 | src/state/room/connecting.rs:156 | `get_i32`: consumes 4 bytes as `TakeI32` does, or fails with the cursor unmoved |
| ClientExt.Cursor.TryGetI64 | src/state/room/connecting.rs:159 | `get_i64`: consumes 8 bytes as `TakeI64` does, or fails with the cursor unmoved |
| ClientExt.Cursor.ReadPacketString | src/ext.rs:31-46 | the same result and cursor movement as the server's reader (`ReadStr`) |
| Ledger.Db.Lookup | bank_server/src/bank/handlers.rs:48-49 | `SELECT * FROM bank_user WHERE id=?` finds a row iff the id is stored, and it is that id's row |
| Ledger.Db.UpdateBalance | bank_server/src/bank/handlers.rs:195-198 | `UPDATE ... balance=balance±?`: fails iff the row exists and the new balance leaves the unsigned 32-bit column range; an unknown id changes nothing; the log is never touched |
| Ledger.Db.InsertLog | bank_server/src/bank/server.rs:53-64 | `insert_trade_log`: fails only once the `int` id counter is exhausted; otherwise appends exactly one row (receiver, sender, now, amount) and leaves the accounts and earlier rows alone |
| Ledger.Db.InsertAccount | bank_server/src/bank/handlers.rs:116-122 | `INSERT INTO bank_user`: refused iff the id exists; otherwise adds exactly that row and leaves the log alone |
| Ledger.Db.AddBalance | bank_server/src/bank/server.rs:66-75 | `add_balance` fails iff the credit leaves the u32 column of an existing account or the id counter is exhausted; on success exactly one row is appended and the counter advances |
| Ledger.InsertLogValid | bank_server/src/bank/server.rs:34 | AUTO_INCREMENT: the new row's id is larger than every existing id, so ids stay positive and increasing |
| Ledger.History | bank_server/src/bank/handlers.rs:277-280 | the history query returns no more rows than the table holds |
| Ledger.HistoryExact | bank_server/src/bank/handlers.rs:277-280 | a row is in the history of `id` iff it is in the table and its receiver is `id` or its sender is `id` in decimal |
| Ledger.HistoryExactAll | bank_server/src/bank/handlers.rs:277-280 | the same, for all rows at once |
| Ledger.HistoryAppend | bank_server/src/bank/server.rs:56-61 | appending a row extends a history by that row exactly when the row concerns the account |
| Ledger.AddBalanceLogged | bank_server/src/bank/server.rs:66-75 | a successful `add_balance` appends one row crediting `who` with `amount as i32` under the sender label, and that row ends the history of `who` |
| Ledger.AddBalanceEffect | bank_server/src/bank/server.rs:66-75 | `add_balance` checks neither existence nor cap. It fails only on column overflow or id exhaustion. It changes only `who`'s balance, by `amount`, and appends one row even for an unknown `who` |
| Ledger.Store.constructor | bank_server/src/bank/server.rs:27-34 | a fresh schema: no accounts, no rows, counter at 1 |
| Ledger.Store.Lookup | bank_server/src/bank/handlers.rs:48-49 | reads the current row of an id |
| Ledger.Store.TradeHistory | bank_server/src/bank/handlers.rs:277-280 | exactly the stored rows that credit the account or name it as sender, in store order |
| Ledger.Store.UpdateBalance | bank_server/src/bank/handlers.rs:195-198 | performs the UPDATE in place, keeps the id invariant, and on failure changes nothing |
| Ledger.Store.InsertTradeLog | bank_server/src/bank/server.rs:53-64 | appends the row in place under the next id and keeps ids increasing; on failure changes nothing |
| Ledger.Store.AddBalance | bank_server/src/bank/server.rs:66-75 | the UPDATE, then the insert. A failed UPDATE skips the insert. A failed insert leaves the credit applied |
| Ledger.Store.InsertAccount | bank_server/src/bank/handlers.rs:116-122 | inserts the account in place, or refuses a duplicate id with no change |
| Sessions.UserFields | bank_server/src/bank/handlers.rs:83-86 | the user block is id, name field, balance, phone field: 12 bytes plus both strings |
| Sessions.MenuPacket | bank_server/src/bank/handlers.rs:79-86 | the `menu` reply is the header, the tag `menu`, then the user block |
| Sessions.RecordBytes | bank_server/src/bank/handlers.rs:302-307 | one history row is tid, receiver, sender field, seconds, nanoseconds, amount: 26 bytes plus the sender |
| Sessions.InfoPacket | bank_server/src/bank/handlers.rs:282-308 | the `info` reply opens with the header and the tag `info` |
| Sessions.UserOf | bank_server/src/bank/handlers.rs:56-61 | a row's snapshot keeps its id and balance; a missing name or phone becomes "" |
| Sessions.FindUser | bank_server/src/bank/handlers.rs:47-64 | `get_user` succeeds iff the account exists, with its snapshot; otherwise the user error "找不到账号" |
| Sessions.FindLogin | bank_server/src/bank/handlers.rs:28-45 | `get_user_login` succeeds iff a row matches both id and password, with its snapshot; otherwise the user error "账号或密码错误" |
| Sessions.LoginRoute | bank_server/src/bank/handlers.rs:70-148 | the login state routes on length alone: under 8 is an error, exactly 8 is login, more is register. Each route is the body's own id and password words |
| Sessions.LoginStep | bank_server/src/bank/handlers.rs:66-151 | every login-state call keeps `HandleLogin`. A failure leaves the store unchanged and sends nothing. A success enters the logged state and sends that user's menu |
| Sessions.LoginAttempt | bank_server/src/bank/handlers.rs:71-93 | the login branch never changes the store |
| Sessions.RegisterAttempt | bank_server/src/bank/handlers.rs:100-102 | registration, from the reading of the two strings on, keeps the login-state shape: it stays in `HandleLogin`, a failure changes nothing and sends nothing, a success logs in and sends the menu |
| Sessions.RegisterStep | bank_server/src/bank/handlers.rs:103-142 | the register rules once the strings are read keep the login-state shape |
| Sessions.LoggedRoute | bank_server/src/bank/handlers.rs:178-275 | the logged state accepts only the opcode/remaining-length pairs 0/4, 1/4, 2/8 and 3/0; each request is the body's own amount or target words; an empty body is its own case |
| Sessions.Refresh | bank_server/src/bank/handlers.rs:202-212 | after a change the snapshot is re-read from the store and the `menu` for it is sent; if the account has vanished it is the user error "找不到账号" |
| Sessions.DepositStep | bank_server/src/bank/handlers.rs:187-213 | a deposit keeps the logged-state shape: the same account, nothing sent on failure, one packet on success |
| Sessions.WithdrawStep | bank_server/src/bank/handlers.rs:214-241 | a withdrawal keeps the logged-state shape |
| Sessions.TransferStep | bank_server/src/bank/handlers.rs:242-252 | a transfer keeps the logged-state shape |
| Sessions.TransferCommit | bank_server/src/bank/handlers.rs:253-273 | the writes of a transfer keep the logged-state shape |
| Sessions.HistoryStep | bank_server/src/bank/handlers.rs:275-311 | the history request keeps the logged-state shape |
| Sessions.LoggedStep | bank_server/src/bank/handlers.rs:174-319 | every logged-state call keeps the logged handler on the same account. A failure sends nothing and keeps the snapshot. A success sends exactly one packet |
| Sessions.RouteStep | bank_server/src/bank/handlers.rs:186-315 | each recognised request keeps the logged-state shape |
| Sessions.LoginOutcome | bank_server/src/bank/handlers.rs:28-93 | login succeeds iff a row matches id and password. Success moves to `Logged` with that row's snapshot, sends its menu and leaves the store. Failure is "账号或密码错误" with no effect |
| Sessions.RegisterRoute | bank_server/src/bank/handlers.rs:94-102 | a register body with well-formed strings reaches the register rules with exactly those strings, whatever bytes follow |
| Sessions.RegisterFields | bank_server/src/bank/handlers.rs:101-102 | reading both strings successfully hands them to the register rules |
| Sessions.LoginRouteRegister | bank_server/src/bank/handlers.rs:94-97 | a body longer than 8 bytes is routed to register with its id, password and remaining fields |
| Sessions.RegisterOutcome | bank_server/src/bank/handlers.rs:103-142 | the length rule (name over 60 or phone over 20 bytes), then the duplicate id, are refused with no effect. Otherwise exactly one account is added with balance 0, the menu with balance 0 is sent, and the session is logged in |
| Sessions.RegisterBadName | bank_server/src/bank/handlers.rs:101 | a name that is not UTF-8 is a fatal error with no effect, whatever follows |
| Sessions.RegisterBadPhone | bank_server/src/bank/handlers.rs:102 | a well-formed name followed by a phone field that is not UTF-8 is a fatal error with no effect, whatever follows |
| Sessions.LoginStepRegister | bank_server/src/bank/handlers.rs:94-97 | a long body runs the register branch on its fields |
| Sessions.RegisterNameFails | bank_server/src/bank/handlers.rs:101 | a failed name read is fatal and changes nothing |
| Sessions.RegisterTwice | bank_server/src/bank/handlers.rs:108-113 | registering an id that the first registration created is refused with "该银行账号存在" and changes nothing |
| Sessions.MalformedIsFatal | bank_server/src/bank/handlers.rs:178-314 | an empty body, unknown opcode or wrong length is fatal, with no store change and nothing sent |
| Sessions.DepositOutcome | bank_server/src/bank/handlers.rs:187-213 | a failed wrapping cap check on the snapshot: "超出存款上限", no effect. A credit that leaves the u32 column: fatal, no effect (so a wrapped sum closes the connection). A log row that cannot be inserted: fatal, the credit stays. Otherwise the balance rises by the amount, one row (id, "存款", +amount) is appended, and the refreshed snapshot's menu is sent |
| Sessions.WithdrawOutcome | bank_server/src/bank/handlers.rs:214-241 | above the snapshot balance: refused with "超出存款上限", no effect. Covered by the snapshot but not the stored balance: fatal, no effect. A log row that cannot be inserted: fatal, the debit stays. Otherwise the balance drops by the amount, one row (id, "取款", -amount) is appended, and the refreshed snapshot's menu is sent |
| Sessions.TransferRoute | bank_server/src/bank/handlers.rs:242-244 | an opcode-2 body reaches the transfer rules with its target, its amount and the sender's decimal id |
| Sessions.TransferRefusals | bank_server/src/bank/handlers.rs:246-253 | checks in order: target exists, target stays within the cap (on its fresh balance), snapshot covers the amount. Each failed check changes nothing. A wrapped cap sum is refused by the store before any write |
| Sessions.TransferStepRefusals | bank_server/src/bank/handlers.rs:246-253 | the same refusals, stated on the transfer rules directly |
| Sessions.TransferOutcome | bank_server/src/bank/handlers.rs:242-274 | once the checks pass: the target is credited and stays within the cap. Then, if the log insert fails, fatal with the credit kept. Otherwise one credit row with the sender's decimal id is appended. Then the sender is debited on the store as the credit left it (so a self-transfer works too). A debit that fails is fatal with credit and row kept. Otherwise the refreshed menu is sent |
| Sessions.TransferStepOutcome | bank_server/src/bank/handlers.rs:253-273 | the same outcome, stated on the transfer rules for any sender label |
| Sessions.SelfTransfer | bank_server/src/bank/handlers.rs:242-273 | a transfer to one's own account, which the source does not forbid, leaves every balance unchanged and still logs the credit row |
| Sessions.HistoryOutcome | bank_server/src/bank/handlers.rs:275-311 | history sends one `info` packet holding exactly the rows that concern the user, and changes nothing |
| Sessions.UpdateCapped | bank_server/src/bank/handlers.rs:195-198 | an UPDATE that keeps the changed balance within the cap keeps every balance within it |
| Sessions.LoginStepPreserves | bank_server/src/bank/handlers.rs:66-151 | the login state keeps every balance within the cap and log ids increasing; a login or register that succeeds leaves a snapshot that agrees with the store |
| Sessions.RegisterAttemptPreserves | bank_server/src/bank/handlers.rs:100-142 | registration keeps the store invariants and an agreeing snapshot |
| Sessions.RegisterPreserves | bank_server/src/bank/handlers.rs:103-142 | the register rules keep the store invariants and an agreeing snapshot |
| Sessions.InsertCapped | bank_server/src/bank/server.rs:53-64 | appending a trade-log row changes no balance and keeps ids increasing |
| Sessions.DepositPreserves | bank_server/src/bank/handlers.rs:191-200 | with an agreeing snapshot, a deposit cannot take a balance over the cap, even when the u32 cap check wraps |
| Sessions.WithdrawPreserves | bank_server/src/bank/handlers.rs:218-227 | a withdrawal keeps every balance within the cap and the ids increasing |
| Sessions.TransferPreserves | bank_server/src/bank/handlers.rs:246-258 | a transfer keeps every balance within the cap, because the target's cap is checked on its fresh balance |
| Sessions.LoggedStepPreserves | bank_server/src/bank/handlers.rs:174-319 | with an agreeing snapshot, no logged-state request takes a balance over the cap or breaks the id order |
| Sessions.LoggedStepAgrees | bank_server/src/bank/handlers.rs:202-262 | after a logged-state request succeeds, the snapshot agrees with the store |
| Sessions.DepositAgrees | bank_server/src/bank/handlers.rs:202 | a successful deposit leaves an agreeing snapshot |
| Sessions.WithdrawAgrees | bank_server/src/bank/handlers.rs:230 | a successful withdrawal leaves an agreeing snapshot |
| Sessions.TransferAgrees | bank_server/src/bank/handlers.rs:262 | a successful transfer leaves an agreeing snapshot |
| Sessions.UpdateKeepsIds | bank_server/src/bank/handlers.rs:195-198 | an UPDATE never adds or removes accounts |
| Sessions.LoggedUserErrorUnchanged | bank_server/src/bank/handlers.rs:191-252 | with an agreeing snapshot, every user-input error of the logged state is raised before the first write, so the store is unchanged |
| Sessions.TransferUserErrorUnchanged | bank_server/src/bank/handlers.rs:246-262 | the same for transfer |
| Handlers.Sender.constructor | bank_server/src/bank/handlers.rs:87 | a peer's outbound queue starts empty |
| Handlers.Sender.Send | bank_server/src/bank/handlers.rs:87 | `sender.send` appends exactly that packet |
| Handlers.GetUser | bank_server/src/bank/handlers.rs:47-64 | computes `FindUser`, succeeding iff the account exists |
| Handlers.GetUserLogin | bank_server/src/bank/handlers.rs:28-45 | computes `FindLogin`, succeeding iff id and password match a row |
| Handlers.BuildMenu | bank_server/src/bank/handlers.rs:79-86 | the `menu` buffer is header, tag, id, name field, balance bytes, phone field, in that order |
| Handlers.MenuLayout | bank_server/src/bank/handlers.rs:125-132 | the menu built field by field is the `menu` packet of the user |
| Handlers.HandleLogin | bank_server/src/bank/handlers.rs:66-151 | the handler returns, stores and queues exactly what `LoginStep` says, and keeps the store invariant |
| Handlers.HandleRegister | bank_server/src/bank/handlers.rs:96-145 | reading the two strings off the cursor then registering does exactly what `RegisterAttempt` says |
| Handlers.RegisterAccount | bank_server/src/bank/handlers.rs:103-142 | the length rule, the duplicate check, the insert and the menu with balance 0 are exactly `RegisterStep` |
| Handlers.ParseLogged | bank_server/src/bank/handlers.rs:178-275 | reading the opcode and words off the cursor gives exactly `LoggedRoute` of the body |
| Handlers.LoggedHandler.constructor | bank_server/src/bank/handlers.rs:168-172 | `LoggedHandler::new` holds the given snapshot |
| Handlers.LoggedHandler.Handle | bank_server/src/bank/handlers.rs:174-319 | the handler returns, reassigns `self.user`, stores and queues exactly what `LoggedStep` says, and keeps the store invariant |
| Handlers.LoggedHandler.Dispatch | bank_server/src/bank/handlers.rs:186-315 | each arm of the `match` does exactly what `RouteStep` says |
| Handlers.LoggedHandler.RefreshAndReply | bank_server/src/bank/handlers.rs:202-212 | re-reading the snapshot and sending the menu is exactly `Refresh` |
| Handlers.LoggedHandler.HandleDeposit | bank_server/src/bank/handlers.rs:187-213 | the deposit arm is exactly `DepositStep` on the old snapshot and store |
| Handlers.LoggedHandler.HandleWithdraw | bank_server/src/bank/handlers.rs:214-241 | the withdraw arm is exactly `WithdrawStep` |
| Handlers.LoggedHandler.HandleTransfer | bank_server/src/bank/handlers.rs:242-274 | the transfer arm is exactly `TransferStep`, with the sender's decimal id as label |
| Handlers.LoggedHandler.CommitTransfer | bank_server/src/bank/handlers.rs:253-273 | `add_balance` on the target, then the debit, then the refresh, is exactly `TransferCommit` |
| Handlers.LoggedHandler.HandleHistory | bank_server/src/bank/handlers.rs:275-311 | the history arm queues exactly the `info` packet of the current snapshot and history and changes nothing else |
| Handlers.WriteRecords | bank_server/src/bank/handlers.rs:295-308 | the `for row in result` loop appends every row's record, in query order |
| Handlers.InfoLayout | bank_server/src/bank/handlers.rs:282-308 | the head and the records together are the `info` packet |
| Handlers.WriteInfoHead | bank_server/src/bank/handlers.rs:282-293 | header, `info`, page 1 of 1, the row count as u32, then the user block |
| Handlers.WriteRecord | bank_server/src/bank/handlers.rs:302-307 | one row appends tid, receiver, sender field, seconds, nanoseconds, amount |
| Handlers.RecordLayout | bank_server/src/bank/handlers.rs:302-307 | the six appends are that row's record |
| Connection.SplitHeader | bank_server/src/bank/mod.rs:55-66 | the body is handed on iff the packet has at least 8 bytes and opens with the header, and it is exactly `data[8..]` |
| Connection.Quote | bank_server/src/bank/mod.rs:79 | `{:?}` of a message that needs no escaping is the message in double quotes |
| Connection.NoticePacket | bank_server/src/bank/mod.rs:76-88 | a notice is the header, the tag and one string field |
| Connection.Notices | bank_server/src/bank/mod.rs:68-91 | a handler success adds no packet and an error exactly one: `msgb` with the quoted message for a user-input error, `errr` for any other |
| Connection.FatalText | bank_server/src/bank/mod.rs:88 | the `errr` text: for the errors the core raises itself, its own non-empty ASCII message; for an invalid UTF-8 string or a store failure, the text supplied from outside the core |
| Connection.Deliver | bank_server/src/bank/mod.rs:66-67 | the current handler on the body: the login-state shape for `HandleLogin`, the logged-state shape for `LoggedHandler` |
| Connection.Respond | bank_server/src/bank/mod.rs:68-91 | acting on the handler's result keeps the handler's store. The connection is kept iff the error was not fatal. The handler's packets come first, with exactly one notice after them on an error. An error leaves the session unchanged |
| Connection.Dispatch | bank_server/src/bank/mod.rs:53-95 | one call of `handle`: the connection is kept only for a packet that opens with the header; any other packet closes it with nothing run, stored or sent |
| Connection.BankConnection.constructor | bank_server/src/bank/mod.rs:47-49 | a new connection starts in the login state |
| Connection.BankConnection.Handle | bank_server/src/bank/mod.rs:53-95 | returns, switches handler, stores and queues exactly what `Dispatch` says, and keeps the store invariant |
| Connection.BankConnection.RunHandler | bank_server/src/bank/mod.rs:66-67 | running the current handler on the body is exactly `Deliver`; a returned handler is always a logged-in one |
| Connection.BankConnection.Conclude | bank_server/src/bank/mod.rs:68-91 | `Ok(Some(h))` installs h, `Ok(None)` keeps the handler, both keep the connection; a user error queues `msgb` and keeps it; any other error queues `errr` and closes it |
| Connection.Generate | bank_server/src/bank/server.rs:78-82 | every accepted peer gets a fresh connection on the shared store, in the login state |
| Connection.HeaderRoundTrip | bank_server/src/bank/mod.rs:66 | a packet built with the header reaches the handler with exactly its body |
| Connection.BadHeaderDropped | bank_server/src/bank/mod.rs:55-62 | a short packet, a wrong magic tag or a version other than 0 closes the connection with nothing run, stored or sent |
| Connection.ErrorsAnswered | bank_server/src/bank/mod.rs:68-91 | the connection stays open iff the handler did not fail fatally. A user error is answered by exactly one `msgb` with the quoted message and keeps the session. A fatal error is answered by exactly one `errr` |
| Connection.SessionProgress | bank_server/src/bank/mod.rs:68-74 | a logged-in connection stays logged in to the same account; a login-state connection leaves it only by a successful login or register, which sends the menu and keeps the connection |
| Connection.DispatchPreserves | bank_server/src/bank/mod.rs:53-95 | every call keeps all balances within the cap and log ids increasing; a call that keeps the connection open keeps the snapshot up to date |
| Registry.Peer.constructor | bank_server/src/network/server.rs:60 | a new peer starts listening, with an empty outbound queue |
| Registry.Live | bank_server/src/network/server.rs:66 | `retain(\|_, p\| p.listening)` keeps exactly the listening entries, unchanged |
| Registry.LiveIdempotent | bank_server/src/network/server.rs:75 | retaining twice removes nothing more than retaining once |
| Registry.Server.constructor | bank_server/src/network/server.rs:42-45 | the registry starts empty |
| Registry.Server.Retain | bank_server/src/network/server.rs:66 | the in-place `retain` pass leaves exactly `Live` of the old map |
| Registry.Server.Accept | bank_server/src/network/server.rs:56-67 | the new peer is listening, in the login state, and is the entry for its address. An older peer at that address has its flag cleared. Then every non-listening entry is dropped, so all that remain are listening. Other peers' flags are untouched |
| Registry.Server.Sweep | bank_server/src/network/server.rs:73-76 | the timer sweep only removes non-listening entries and never inserts |
| Registry.Server.HandleEvent | bank_server/src/network/server.rs:55-77 | one loop iteration: accept as above, an accept error leaves the map unchanged, the timer sweeps |
| Registry.SweepIdempotent | bank_server/src/network/server.rs:73-76 | a sweep right after a sweep, with no flag cleared in between, removes nothing |
| ClientBank.Outbox.constructor | src/state/room/connecting.rs:28 | the client peer's outbound queue starts empty |
| ClientBank.Outbox.Send | src/state/room/bank/index.rs:59 | `sender.send` appends exactly that packet |
| ClientBank.SentBy | src/state/room/bank/withdraw.rs:56-63 | a button press sends at most one packet, exactly when it is a send |
| ClientBank.ShownBy | src/state/room/bank/withdraw.rs:47-54 | a press shows an error box exactly when it is a complaint |
| ClientBank.HistoryRequest | src/state/room/bank/index.rs:55-57 | the history request is the header and opcode 3: 9 bytes |
| ClientBank.HistoryClick | src/state/room/bank/index.rs:54-60 | the history button queues exactly that request |
| FromStr.ParseUnsigned | src/state/room/bank/withdraw.rs:43 | `from_str` accepts exactly an optional `+` followed by one or more digits whose value fits the type, and returns that value |
| FromStr.DigitsOfDecimal | src/state/room/bank/menu.rs:88 | the decimal rendering of n is all digits, with value n |
| FromStr.ParseDecimal | src/state/room/bank/menu.rs:88 | parsing the decimal text of n, with or without `+`, gives n whenever n fits |
| FromStr.ParseRefuses | src/state/room/bank/transfer.rs:46-54 | empty text, a lone `+`, and text with any other non-digit are refused |
| ClientMenu.Credentials | src/state/room/bank/menu.rs:79-96 | an empty id or password gives "账号密码不能为空"; an id that is not a u64 gives "账号需要为数字"; otherwise the parsed id |
| ClientMenu.LoginRequest | src/state/room/bank/menu.rs:78-106 | login always answers. It complains iff the credentials are refused. Otherwise it sends the header, the id's low 32 bits and the low 32 bits of the password's SipHash |
| ClientMenu.RegisterRequest | src/state/room/bank/menu.rs:137-168 | register complains iff the credentials are refused. Otherwise it sends the same two words, then the name and phone fields, with no length check |
| ClientMenu.RequestLengths | src/state/room/bank/menu.rs:83-164 | the login packet has an 8-byte body and the register packet a body of 12 bytes plus the strings, both after the header |
| ClientMenu.LoginClick | src/state/room/bank/menu.rs:78-106 | the click shows exactly the complaint and queues exactly the packet of `LoginRequest` |
| ClientMenu.RegisterClick | src/state/room/bank/menu.rs:137-168 | the click shows exactly the complaint and queues exactly the packet of `RegisterRequest` |
| ClientMenu.SendCredentials | src/state/room/bank/menu.rs:83-105 | queues header, id word, password word |
| ClientMenu.SendRegistration | src/state/room/bank/menu.rs:142-167 | queues header, id word, password word, name field, phone field |
| ClientScreens.NewWithdraw | src/state/room/bank/withdraw.rs:20-22 | the withdraw screen starts with the user and an empty amount |
| ClientScreens.NewTransfer | src/state/room/bank/transfer.rs:21-23 | the transfer screen starts with the user and empty target and amount |
| ClientScreens.ParseU32 | src/state/room/bank/withdraw.rs:43 | `u32::from_str` is `ParseUnsigned` below 2^32 |
| ClientScreens.WithdrawRequest | src/state/room/bank/withdraw.rs:42-64 | complains "需要为数字" for a non-number and "你没钱还想取款😓" above the cached balance. Sends nothing for 0. Otherwise sends header, 1, amount |
| ClientScreens.TransferRequest | src/state/room/bank/transfer.rs:45-73 | complains "需要为数字" iff the target or the amount is not a u32. Sends nothing for amount 0. Otherwise sends header, 2, target, amount |
| ClientScreens.WithdrawSentInBalance | src/state/room/bank/withdraw.rs:52-60 | every withdraw packet sent carries 0 < amount <= the balance shown |
| ClientScreens.TransferIgnoresBalance | src/state/room/bank/transfer.rs:45-73 | the transfer screen's result does not depend on the balance shown, and every packet it sends carries a positive amount |
| ClientScreens.PacketShapes | src/state/room/bank/withdraw.rs:57-60 | the withdraw packet has a 5-byte body opening with 1 and the transfer packet a 9-byte body opening with 2 |
| ClientScreens.WithdrawBack | src/state/room/bank/withdraw.rs:65-69 | "back" returns to the main screen with the same user |
| ClientScreens.TransferBack | src/state/room/bank/transfer.rs:74-78 | "back" returns to the main screen with the same user |
| ClientScreens.WithdrawClick | src/state/room/bank/withdraw.rs:42-64 | the click shows and queues exactly what `WithdrawRequest` says |
| ClientScreens.SendWithdraw | src/state/room/bank/withdraw.rs:57-62 | queues header, 1, amount |
| ClientScreens.TransferClick | src/state/room/bank/transfer.rs:45-73 | the click shows and queues exactly what `TransferRequest` says |
| ClientScreens.SendTransfer | src/state/room/bank/transfer.rs:65-71 | queues header, 2, target, amount |
| ClientInfo.Times | src/state/room/bank/info.rs:32-34 | the sort key of each record, position by position |
| ClientInfo.RemoveKeepsSorted | src/state/room/bank/info.rs:32-34 | removing a record keeps a list sorted by time |
| ClientInfo.TimesWithoutFirstTime | src/state/room/bank/info.rs:32-34 | in a sorted list, any record with the earliest time can be taken out without changing the time column |
| ClientInfo.RemoveOne | src/state/room/bank/info.rs:31-35 | removing one position removes exactly that record from the multiset |
| ClientInfo.FirstIsEarliest | src/state/room/bank/info.rs:32-34 | the first record of one sorted arrangement has the earliest time of any other arrangement of the same records |
| ClientInfo.DropEarliest | src/state/room/bank/info.rs:32-34 | a sorted list minus one of its earliest records is sorted, one shorter, and the rest of the time column |
| ClientInfo.PeelEarliest | src/state/room/bank/info.rs:32-34 | both arrangements lose the same earliest time and remain arrangements of the same records |
| ClientInfo.SortedTimesDetermined | src/state/room/bank/info.rs:32 | any two sorted arrangements of the same records have the same time column: the unstable sort leaves open only the order among equal times |
| ClientInfo.SortByTime | src/state/room/bank/info.rs:32-34 | `sort_unstable_by` on time leaves the array sorted by time and a permutation of its input |
| ClientInfo.InsertAt | src/state/room/bank/info.rs:32-34 | one insertion pass extends the sorted prefix by one, permutes only, and leaves the suffix alone |
| ClientInfo.InsertingStart | src/state/room/bank/info.rs:32-34 | a pass starts in its invariant |
| ClientInfo.SwapKeepsInserting | src/state/room/bank/info.rs:32-34 | swapping the inserted record past a later one keeps the pass invariant and the multiset |
| ClientInfo.SwapSortsTail | src/state/room/bank/info.rs:32-34 | after the swap the part from the inserted record on is sorted |
| ClientInfo.SwapKeepsOrder | src/state/room/bank/info.rs:32-34 | after the swap nothing before the inserted record is later than anything after it |
| ClientInfo.InsertingDone | src/state/room/bank/info.rs:32-34 | a pass that stops extends the sorted prefix |
| ClientInfo.InfoUi.constructor | src/state/room/bank/info.rs:31-36 | `InfoUi::new` keeps the user unchanged and holds its records sorted by time, as a permutation of the input, so their number is preserved |
| ClientDecode.UserBytes | src/state/room/connecting.rs:129-132 | the user block the decoder reads: 12 bytes plus both strings |
| ClientDecode.ReadUser | src/state/room/connecting.rs:129-132 | a successful read of id, name, balance, phone gives a user whose strings are UTF-8 and fit the prefix, and the input is that user's block plus the rest |
| ClientDecode.ReadUserBytes | src/state/room/connecting.rs:129-132 | reading back any sendable user's block gives the user and the bytes after it |
| ClientDecode.RecordBytes | src/state/room/connecting.rs:156-163 | a row the decoder reads: 26 bytes plus the sender |
| ClientDecode.RecordsCons | src/state/room/connecting.rs:155-166 | rows are read front to back |
| ClientDecode.ReadRecord | src/state/room/connecting.rs:156-165 | a successful row read has a UTF-8 sender and nanoseconds chrono accepts, and the input is the row's bytes plus the rest |
| ClientDecode.ReadStampAmount | src/state/room/connecting.rs:159-163 | seconds, nanoseconds and amount are read in that order; nanoseconds of 2·10^9 or more abort |
| ClientDecode.ReadRecordBytes | src/state/room/connecting.rs:156-165 | reading back any readable row's bytes gives the row and the bytes after it |
| ClientDecode.ReadRecords | src/state/room/connecting.rs:155-166 | a successful read of `count` rows gives exactly `count` rows, and the input is their bytes plus the rest |
| ClientDecode.ReadRecordsBytes | src/state/room/connecting.rs:155-166 | reading back n readable rows gives the same rows, in order, and the bytes after them |
| ClientDecode.DecodeInfo | src/state/room/connecting.rs:142-173 | an `info` body either shows the history screen or aborts |
| ClientDecode.Decode | src/state/room/connecting.rs:111-177 | dropped iff shorter than 12 bytes or not opening with the header. Otherwise ignored iff the tag is none of `msgb`, `menu`, `info`. A tip, main screen or history screen only for its own tag |
| ClientDecode.DecodeBody | src/state/room/connecting.rs:120-177 | after the header, the tag alone chooses the branch, and no branch drops the packet |
| ClientDecode.Run | src/state/room/connecting.rs:108-180 | the events of the receiving loop: never more than one per packet received |
| ClientDecode.RunShape | src/state/room/connecting.rs:110-178 | the task decodes the packets in order, each as `Decode` says. It stops at the first abort: nothing before the last event aborted, and if a packet went unread the last event is an abort |
| ClientDecode.RunStep | src/state/room/connecting.rs:110-112 | one packet's event, then the rest of the run unless it aborted |
| ClientDecode.ReadUserAt | src/state/room/connecting.rs:129-132 | reading the user off the cursor is exactly `ReadUser` |
| ClientDecode.ReadRecordAt | src/state/room/connecting.rs:156-165 | reading one row off the cursor is exactly `ReadRecord` |
| ClientDecode.ReadStampAmountAt | src/state/room/connecting.rs:159-163 | reading the stamp and amount off the cursor is exactly `ReadStampAmount` |
| ClientDecode.ReadRecordsAt | src/state/room/connecting.rs:153-166 | the `for _ in 0..info_count` loop pushes exactly the rows `ReadRecords` reads, or aborts exactly when it does |
| ClientDecode.ReadNextRecord | src/state/room/connecting.rs:156-165 | one pass of the loop carries the loop invariant over one more row |
| ClientDecode.ReadRecordsEnd | src/state/room/connecting.rs:155 | when no passes are left the rows pushed are the result |
| ClientDecode.ReadRecordsMore | src/state/room/connecting.rs:155-165 | the invariant carried over one more row |
| ClientDecode.ReadRecordsNext | src/state/room/connecting.rs:155-165 | n rows are the first row, then n-1 more |
| ClientDecode.ReadRecordsFail | src/state/room/connecting.rs:156-162 | a row that fails aborts the whole packet |
| ClientDecode.DecodeInfoAt | src/state/room/connecting.rs:142-173 | the `info` branch on the cursor is exactly `DecodeInfo` |
| ClientDecode.DecodePacket | src/state/room/connecting.rs:111-177 | the loop body is exactly `Decode` |
| ClientDecode.DecodeBodyAt | src/state/room/connecting.rs:120-177 | the `match` on the tag is exactly `DecodeBody` |
| ClientDecode.Listen | src/state/room/connecting.rs:108-180 | `get_msg`'s loop produces exactly `Run` of the packets received |
| ClientDecode.Receive | src/state/room/connecting.rs:110-177 | one packet of the loop: its event, and what the rest of the run adds after it |
| Protocol.Seen | src/state/room/connecting.rs:133-140 | the client's user is the server's snapshot, field for field |
| Protocol.SeenRow | src/state/room/connecting.rs:156-165 | the client's row is the server's trade-log row, field for field |
| Protocol.SeenRows | src/state/room/connecting.rs:153-166 | the client's rows are the server's rows, in the same order |
| Protocol.Words | bank_server/src/bank/handlers.rs:73-74 | two big-endian words side by side give back both words |
| Protocol.LoginPacketRoutes | src/state/room/bank/menu.rs:83-105 | the login packet passes the server's header check and is routed to login with the id and hash it carries |
| Protocol.RegisterBody | src/state/room/bank/menu.rs:142-167 | a register body is routed to the register branch |
| Protocol.RegisterFields | bank_server/src/bank/handlers.rs:101-102 | the server reads back the name and phone the client wrote |
| Protocol.RegisterPacketRoutes | src/state/room/bank/menu.rs:137-168 | the register packet reaches the server's register rules with the name and phone as typed, whenever each is UTF-8 and under 65536 bytes |
| Protocol.WithdrawBody | src/state/room/bank/withdraw.rs:57-60 | the withdraw packet is the server's withdraw request for the same amount |
| Protocol.WithdrawPacketRoutes | src/state/room/bank/withdraw.rs:42-63 | every withdraw packet sent reaches the server's withdraw branch, for a positive amount within the balance the client saw |
| Protocol.TransferBody | src/state/room/bank/transfer.rs:65-69 | the transfer packet's 9-byte body is the server's transfer request for the same target and amount |
| Protocol.TransferPacketRoutes | src/state/room/bank/transfer.rs:45-72 | every transfer packet sent reaches the server's transfer branch with the target and amount typed |
| Protocol.HistoryPacketRoutes | src/state/room/bank/index.rs:55-59 | the history button's packet is the server's history query |
| Protocol.IdsWrapAround | src/state/room/bank/menu.rs:88-102 | the id is parsed as a u64 and only its low 32 bits are sent, so n and n + 2^32 log in to the same account |
| Protocol.TaggedBody | src/state/room/connecting.rs:111-121 | a headed packet splits into header, tag and body where the client looks for them |
| Protocol.DecodeTagged | src/state/room/connecting.rs:111-122 | a packet that opens with the header is decoded by its tag and body alone |
| Protocol.MenuShowsIndex | src/state/room/connecting.rs:127-141 | the server's `menu` packet opens the client's main screen for the same user |
| Protocol.NoticeShowsTip | src/state/room/connecting.rs:123-126 | a `msgb` notice shows its text in the client's message box |
| Protocol.RefusalShownQuoted | bank_server/src/bank/mod.rs:75-82 | a refusal reaches the user as its message inside double quotes |
| Protocol.QuoteIsUtf8 | bank_server/src/bank/mod.rs:79 | the quoted message is valid UTF-8 and fits the prefix |
| Protocol.ErrorIgnored | src/state/room/connecting.rs:174-176 | an `errr` notice is not shown: the client ignores the tag |
| Protocol.ClientRowsSnoc | src/state/room/connecting.rs:155-166 | the client's row bytes, one row appended at the back |
| Protocol.RowsAgree | bank_server/src/bank/handlers.rs:295-308 | the server writes rows byte for byte as the client reads them |
| Protocol.InfoBody | bank_server/src/bank/handlers.rs:282-308 | the server's `info` packet, regrouped as the client reads it |
| Protocol.InfoDecodes | src/state/room/connecting.rs:142 | a headed `info` packet is decoded by its body alone |
| Protocol.InfoTailReads | src/state/room/connecting.rs:148-166 | after the three words the client reads the same user and then the same rows, with nothing left over |
| Protocol.RowsRead | src/state/room/connecting.rs:155-166 | the rows the server wrote read back in the same order |
| Protocol.InfoBodyReads | src/state/room/connecting.rs:144-172 | the `info` body the server writes reads back as the same user and rows |
| Protocol.InfoShowsHistory | bank_server/src/bank/handlers.rs:275-310 | the server's `info` packet opens the client's history screen with the same user and the rows in the order sent, for fewer than 2^32 rows that the client can read |

## Left out

- Networking is left out: the KCP transport, the per-peer task (`network/peer.rs`), and the client connection and channel forwarding (`room/client.rs`, `room/mod.rs`). A sent packet is appended to an unbounded queue that never refuses, and the client receives a given sequence of packets.
- Concurrency is left out. Each session acts alone on the store, so the race between one session's check and another's write is not modelled. The preservation lemmas assume the snapshot agrees with the store, which another session could break.
- Connection.FatalText: `format!("{:?}", e)` of a UTF-8 decoding error or a database error is text produced by code outside the core (the standard library, sqlx). It is the parameter `describe`, and backtraces are not modelled.
- Connection.Quote: only messages with no character that `{:?}` escapes are modelled. Every message the handlers raise is of that kind.
- Ledger.Db.UpdateBalance: a balance that would leave the `INTEGER UNSIGNED` range is taken to be refused, as in MySQL's strict mode. Pool and connection failures are not modelled.
- Ledger: the table definitions, the column widths (`VARCHAR(90)`, `varchar(20)`, `VARCHAR(30)`) and the signed `INTEGER` id columns are not modelled. Neither is the daily interest event, which uses fractional SQL arithmetic.
- Ledger.Db.InsertLog: `DATETIME` keeps whole seconds, so a stored time reads back without its sub-second part. The model keeps the instant as given.
- Ledger.History: the rows come back in store order. SQL gives no order without `ORDER BY`, and the client re-sorts them anyway.
- The clock (`SystemTime::now`) is the parameter `now`.
- The cap checks at handlers.rs:191 and 247 are modelled as release builds compute them, with wrapping u32 addition (`Wire.WrappingAdd32`). Negation at line 227 wraps the same way (`Wire.WrappingNeg32`). A debug build would panic instead.
- ClientMenu.LoginRequest: the password hash, `SipHasher::new_with_keys(233, 9961)` fed with the password, is the parameter `sip`. Its internals are left out.
- ClientDecode.ReadStampAmount: `DateTime::from_timestamp` also refuses seconds beyond chrono's range of about ±262,000 years. Only the nanosecond bound is modelled.
- ClientDecode.Decode: a panic in the decoder (`unwrap`, or a `bytes` getter on a short buffer) is the event `Aborted`. The message box, the UI channel and the log lines become the events `Tip`, `ShowIndex` and `ShowInfo`.
- ClientInfo.SortByTime: the standard library's unstable sort is modelled by an insertion sort with the same contract. Only the order of the times is promised, never the order of equal-time records.
- The `render` layout code, egui and msgbox are left out. A button press is modelled as its click body.
- The main screen's balance display (`balance / 100`, `balance % 100`, index.rs:41-42) and its navigation buttons are left out.
- The deposit screen (`bank/deposit.rs`) is not part of this model.
- Startup and configuration are left out (`main.rs`, `state/init.rs`, `config.rs`). So are the `running` flag and `Drop` of the accept loop, and the 60-second timer, which is the event `Timer`.
- Strings are the byte sequences of their UTF-8 encoding. Message constants are written as those bytes, with the text beside them.
