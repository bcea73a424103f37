/**
 * The client's response decoder (`ConnectingState::get_msg` in
 * `room/connecting.rs`): a packet with a bad header is skipped, `msgb`
 * becomes a message box, `menu` the main screen, `info` the history screen,
 * and any other tag is ignored. A malformed body hits an `unwrap` or a
 * `bytes` getter that panics, which ends the receiving task: that is
 * `Aborted` here, and no later packet is read.
 */
module ClientDecode {
  import opened Wire
  import opened ClientBank
  import opened ClientInfo
  import ClientExt

  /** `DateTime::from_timestamp` answers `None` for two seconds' worth of nanoseconds or more. */
  const NANOS_LIMIT: int := 2_000_000_000

  /** What the receiving task does with one packet. */
  datatype Event =
    | Dropped                                         // bad length, magic tag or version: `continue`
    | Tip(msg: Bytes)                                 // `msgb`: a message box
    | ShowIndex(user: User)                           // `menu`: the main screen
    | ShowInfo(user: User, records: seq<TradeInfo>)   // `info`: the history screen, records in wire order
    | Ignored                                         // any other tag, `errr` included
    | Aborted                                         // a panic in the decoder: the task ends

  /** The user fields as `menu` and `info` carry them: id, name, balance, phone. */
  function UserBytes(u: User): (r: Bytes)
    ensures |r| == 12 + |u.name| + |u.phone|
  {
    Be32(u.id) + StrField(u.name) + Be32(u.balance) + StrField(u.phone)
  }

  lemma Nest4(a: Bytes, b: Bytes, c: Bytes, d: Bytes, rest: Bytes)
    ensures a + b + c + d + rest == a + (b + (c + (d + rest)))
  {
  }

  lemma Nest6(a: Bytes, b: Bytes, c: Bytes, d: Bytes, e: Bytes, f: Bytes, rest: Bytes)
    ensures a + b + c + d + e + f + rest == a + (b + (c + (d + (e + (f + rest)))))
  {
  }

  /** A user the server can send: both strings fit their prefix and are UTF-8. */
  predicate Sendable(u: User) {
    |u.name| < U16_LIMIT && ValidUtf8(u.name) && |u.phone| < U16_LIMIT && ValidUtf8(u.phone)
  }

  /** `get_u32`, `read_packet_string().unwrap()`, `get_u32`, `read_packet_string().unwrap()`. */
  function ReadUser(c: Bytes): (r: Option<Take<User>>)
    ensures r.Some? ==> Sendable(r.value.value) && c == UserBytes(r.value.value) + r.value.rest
  {
    match TakeU32(c)
    case None => None
    case Some(id) =>
      var name := ReadStr(id.rest);
      if name.result.Err? then None
      else
        match TakeU32(name.rest)
        case None => None
        case Some(balance) =>
          var phone := ReadStr(balance.rest);
          if phone.result.Err? then None
          else
            var u := User(id.value, balance.value, name.result.value, phone.result.value);
            Nest4(Be32(u.id), StrField(u.name), Be32(u.balance), StrField(u.phone), phone.rest);
            Some(Take(u, phone.rest))
  }

  /** Reading the user fields back gives the user and the bytes after them. */
  lemma {:induction false} ReadUserBytes(u: User, rest: Bytes)
    requires Sendable(u)
    ensures ReadUser(UserBytes(u) + rest) == Some(Take(u, rest))
  {
    var c3 := StrField(u.phone) + rest;
    var c2 := Be32(u.balance) + c3;
    var c1 := StrField(u.name) + c2;
    Nest4(Be32(u.id), StrField(u.name), Be32(u.balance), StrField(u.phone), rest);
    TakeU32Be32(u.id, c1);
    ReadStrField(u.name, c2);
    TakeU32Be32(u.balance, c3);
    ReadStrField(u.phone, rest);
  }

  /** One history row: tid, receiver, sender, seconds, nanoseconds, amount. */
  function RecordBytes(t: TradeInfo): (r: Bytes)
    ensures |r| == 26 + |t.sender|
  {
    I32Bytes(t.tid) + Be32(t.receiver) + StrField(t.sender) + I64Bytes(t.time.secs) + Be32(t.time.nanos) + I32Bytes(t.amount)
  }

  /** Rows in wire order. */
  function RecordsBytes(ts: seq<TradeInfo>): Bytes {
    if ts == [] then [] else RecordBytes(ts[0]) + RecordsBytes(ts[1..])
  }

  lemma RecordsCons(t: TradeInfo, ts: seq<TradeInfo>, rest: Bytes)
    ensures RecordsBytes([t] + ts) + rest == RecordBytes(t) + (RecordsBytes(ts) + rest)
  {
    assert ([t] + ts)[1..] == ts;
  }

  /** A row the decoder accepts: a UTF-8 sender that fits its prefix and a timestamp chrono accepts. */
  predicate Readable(t: TradeInfo) {
    |t.sender| < U16_LIMIT && ValidUtf8(t.sender) && t.time.nanos < NANOS_LIMIT
  }

  /** One pass of the row loop, `from_timestamp(..).unwrap()` included. */
  function ReadRecord(c: Bytes): (r: Option<Take<TradeInfo>>)
    ensures r.Some? ==> Readable(r.value.value) && c == RecordBytes(r.value.value) + r.value.rest
  {
    match TakeI32(c)
    case None => None
    case Some(tid) =>
      match TakeU32(tid.rest)
      case None => None
      case Some(receiver) =>
        var sender := ReadStr(receiver.rest);
        if sender.result.Err? then None
        else
          match ReadStampAmount(sender.rest)
          case None => None
          case Some(tail) =>
            var t := TradeInfo(tid.value, receiver.value, sender.result.value, tail.value.0, tail.value.1);
            Nest6(I32Bytes(t.tid), Be32(t.receiver), StrField(t.sender), I64Bytes(t.time.secs), Be32(t.time.nanos), I32Bytes(t.amount), tail.rest);
            Some(Take(t, tail.rest))
  }

  /** The second half of a row: seconds, nanoseconds (refused from two seconds up) and amount. */
  function ReadStampAmount(c: Bytes): (r: Option<Take<(Stamp, i32)>>)
    ensures r.Some? ==>
      var (time, amount) := r.value.value;
      time.nanos < NANOS_LIMIT && c == I64Bytes(time.secs) + (Be32(time.nanos) + (I32Bytes(amount) + r.value.rest))
  {
    match TakeI64(c)
    case None => None
    case Some(secs) =>
      match TakeU32(secs.rest)
      case None => None
      case Some(nanos) =>
        if nanos.value >= NANOS_LIMIT then None
        else
          match TakeI32(nanos.rest)
          case None => None
          case Some(amount) => Some(Take((Stamp(secs.value, nanos.value), amount.value), amount.rest))
  }

  lemma {:induction false} ReadRecordBytes(t: TradeInfo, rest: Bytes)
    requires Readable(t)
    ensures ReadRecord(RecordBytes(t) + rest) == Some(Take(t, rest))
  {
    var c5 := I32Bytes(t.amount) + rest;
    var c4 := Be32(t.time.nanos) + c5;
    var c3 := I64Bytes(t.time.secs) + c4;
    var c2 := StrField(t.sender) + c3;
    var c1 := Be32(t.receiver) + c2;
    Nest6(I32Bytes(t.tid), Be32(t.receiver), StrField(t.sender), I64Bytes(t.time.secs), Be32(t.time.nanos), I32Bytes(t.amount), rest);
    TakeI32Bytes(t.tid, c1);
    TakeU32Be32(t.receiver, c2);
    ReadStrField(t.sender, c3);
    TakeI64Bytes(t.time.secs, c4);
    TakeU32Be32(t.time.nanos, c5);
    TakeI32Bytes(t.amount, rest);
  }

  /** The rows still to read once one more has been read. */
  function Less(count: nat): nat
    requires count > 0
  {
    count - 1
  }

  /** `count` rows, front to back; the first row that fails aborts the whole packet. */
  function ReadRecords(c: Bytes, count: nat): (r: Option<Take<seq<TradeInfo>>>)
    ensures r.Some? ==>
      && |r.value.value| == count
      && c == RecordsBytes(r.value.value) + r.value.rest
    decreases count
  {
    if count == 0 then Some(Take([], c))
    else
      match ReadRecord(c)
      case None => None
      case Some(first) =>
        match ReadRecords(first.rest, Less(count))
        case None => None
        case Some(others) =>
          RecordsCons(first.value, others.value, others.rest);
          Some(Take([first.value] + others.value, others.rest))
  }

  /** The `n` rows written by the server read back, whatever follows them. */
  lemma {:induction false} ReadRecordsBytes(ts: seq<TradeInfo>, rest: Bytes, n: nat)
    requires n == |ts| && forall i :: 0 <= i < |ts| ==> Readable(ts[i])
    ensures ReadRecords(RecordsBytes(ts) + rest, n) == Some(Take(ts, rest))
  {
    if ts != [] {
      var after := RecordsBytes(ts[1..]) + rest;
      ReadRecordsBytes(ts[1..], rest, Less(n));
      assert [ts[0]] + ts[1..] == ts;
      RecordsCons(ts[0], ts[1..], rest);
      var c := RecordsBytes(ts) + rest;
      assert c == RecordBytes(ts[0]) + after;
      ReadRecordBytes(ts[0], after);
      ReadRecordsNext(c, n, ts[0], after);
    } else {
      assert RecordsBytes(ts) + rest == rest;
    }
  }

  /** The `info` body: page, page count, row count, the user, then the rows. */
  function DecodeInfo(body: Bytes): (r: Event)
    ensures r.Aborted? || r.ShowInfo?
  {
    if |body| < 12 then Aborted
    else
      var count := TakeU32(TakeU32(TakeU32(body).value.rest).value.rest).value;
      match ReadUser(count.rest)
      case None => Aborted
      case Some(u) =>
        match ReadRecords(u.rest, count.value)
        case None => Aborted
        case Some(rows) => ShowInfo(u.value, rows.value)
  }

  /** The loop body of `get_msg` for one packet. */
  function Decode(data: Bytes): (r: Event)
    ensures r.Dropped? <==> !(|data| >= 12 && data[..8] == Header())
    ensures !r.Dropped? ==> (r.Ignored? <==> data[8..12] != MSGB_TAG && data[8..12] != MENU_TAG && data[8..12] != INFO_TAG)
    ensures r.Tip? ==> data[8..12] == MSGB_TAG
    ensures r.ShowIndex? ==> data[8..12] == MENU_TAG
    ensures r.ShowInfo? ==> data[8..12] == INFO_TAG
  {
    if |data| < 12 || data[..4] != MAGIC then Dropped
    else if FromBe(data[4..8]) != CURRENT_VERSION then Dropped
    else
      HeaderBytes(data);
      DecodeBody(data[8..12], data[12..])
  }

  /** The branch on the tag once the header has been accepted. */
  function DecodeBody(tag: Bytes, body: Bytes): (r: Event)
    ensures !r.Dropped?
    ensures r.Ignored? <==> tag != MSGB_TAG && tag != MENU_TAG && tag != INFO_TAG
    ensures r.Tip? ==> tag == MSGB_TAG
    ensures r.ShowIndex? ==> tag == MENU_TAG
    ensures r.ShowInfo? ==> tag == INFO_TAG
  {
    if tag == MSGB_TAG then
      var msg := ReadStr(body);
      if msg.result.Ok? then Tip(msg.result.value) else Aborted
    else if tag == MENU_TAG then
      match ReadUser(body)
      case None => Aborted
      case Some(u) => ShowIndex(u.value)
    else if tag == INFO_TAG then DecodeInfo(body)
    else Ignored
  }

  /** The events of the receiving task over the packets it is handed: every packet up to and including the first that aborts it. */
  function Run(packets: seq<Bytes>): (r: seq<Event>)
    ensures |r| <= |packets|
  {
    if packets == [] then []
    else
      var e := Decode(packets[0]);
      if e.Aborted? then [e] else [e] + Run(packets[1..])
  }

  /**
   * The task decodes the packets in order, each one as `Decode` says, and
   * stops at the first abort: nothing before the last event aborted, and
   * if any packet went unread the last event is an abort.
   */
  lemma {:induction false} RunShape(packets: seq<Bytes>)
    ensures var r := Run(packets);
      && |r| <= |packets|
      && (forall i :: 0 <= i < |r| ==> r[i] == Decode(packets[i]))
      && (forall i :: 0 <= i < |r| - 1 ==> !r[i].Aborted?)
      && (|r| < |packets| ==> r != [] && r[|r| - 1].Aborted?)
  {
    if packets != [] && !Decode(packets[0]).Aborted? {
      RunShape(packets[1..]);
    }
  }

  lemma RunStep(packets: seq<Bytes>, i: int)
    requires 0 <= i < |packets|
    ensures var e := Decode(packets[i]);
      Run(packets[i..]) == if e.Aborted? then [e] else [e] + Run(packets[i + 1..])
  {
    assert packets[i..][0] == packets[i] && packets[i..][1..] == packets[i + 1..];
  }

  /** The user fields, read off the cursor. */
  method ReadUserAt(cur: ClientExt.Cursor) returns (r: Option<User>)
    modifies cur
    ensures r.None? <==> ReadUser(old(cur.rest)).None?
    ensures r.Some? ==> ReadUser(old(cur.rest)) == Some(Take(r.value, cur.rest))
  {
    var id := cur.TryGetU32();
    if id.None? {
      return None;
    }
    var name := cur.ReadPacketString();
    if name.Err? {
      return None;
    }
    var balance := cur.TryGetU32();
    if balance.None? {
      return None;
    }
    var phone := cur.ReadPacketString();
    if phone.Err? {
      return None;
    }
    r := Some(User(id.value, balance.value, name.value, phone.value));
  }

  /** One pass of the row loop on the cursor. */
  method ReadRecordAt(cur: ClientExt.Cursor) returns (r: Option<TradeInfo>)
    modifies cur
    ensures r.None? <==> ReadRecord(old(cur.rest)).None?
    ensures r.Some? ==> ReadRecord(old(cur.rest)) == Some(Take(r.value, cur.rest))
  {
    var tid := cur.TryGetI32();
    if tid.None? {
      return None;
    }
    var receiver := cur.TryGetU32();
    if receiver.None? {
      return None;
    }
    var sender := cur.ReadPacketString();
    if sender.Err? {
      return None;
    }
    var tail := ReadStampAmountAt(cur);
    if tail.None? {
      return None;
    }
    r := Some(TradeInfo(tid.value, receiver.value, sender.value, tail.value.0, tail.value.1));
  }

  method ReadStampAmountAt(cur: ClientExt.Cursor) returns (r: Option<(Stamp, i32)>)
    modifies cur
    ensures r.None? <==> ReadStampAmount(old(cur.rest)).None?
    ensures r.Some? ==> ReadStampAmount(old(cur.rest)) == Some(Take(r.value, cur.rest))
  {
    var secs := cur.TryGetI64();
    if secs.None? {
      return None;
    }
    var nanos := cur.TryGetU32();
    if nanos.None? || nanos.value >= NANOS_LIMIT as u32 {
      return None;
    }
    var amount := cur.TryGetI32();
    if amount.None? {
      return None;
    }
    r := Some((Stamp(secs.value, nanos.value), amount.value));
  }

  /** `count` rows read after `done`, or `None` if any fails. */
  function Prepend(done: seq<TradeInfo>, more: Option<Take<seq<TradeInfo>>>): Option<Take<seq<TradeInfo>>> {
    match more
    case None => None
    case Some(t) => Some(Take(done + t.value, t.rest))
  }

  /** The `for _ in 0..info_count` loop, pushing each row onto `info`; `left` counts the passes still to run. */
  method ReadRecordsAt(cur: ClientExt.Cursor, count: u32) returns (r: Option<seq<TradeInfo>>)
    modifies cur
    ensures ReadRecords(old(cur.rest), count as nat) == if r.None? then None else Some(Take(r.value, cur.rest))
  {
    ghost var start, n: nat := cur.rest, count;
    ghost var left: nat := n;
    var info: seq<TradeInfo> := [];
    PrependNothing(ReadRecords(start, n));
    for k := 0 to count
      invariant left == n - k
      invariant ReadRecords(start, n) == Prepend(info, ReadRecords(cur.rest, left))
    {
      var t;
      t, left := ReadNextRecord(cur, start, n, info, left);
      if t.None? {
        return None;
      }
      info := info + [t.value];
    }
    ReadRecordsEnd(start, n, info, cur.rest, left);
    r := Some(info);
  }

  /** One pass of the loop: the row read, and the invariant carried over it. */
  method ReadNextRecord(cur: ClientExt.Cursor, ghost start: Bytes, ghost count: nat, ghost info: seq<TradeInfo>, ghost left: nat)
      returns (t: Option<TradeInfo>, ghost left': nat)
    requires left > 0 && ReadRecords(start, count) == Prepend(info, ReadRecords(cur.rest, left))
    modifies cur
    ensures left' + 1 == left
    ensures t.None? ==> ReadRecords(start, count) == None
    ensures t.Some? ==> ReadRecords(start, count) == Prepend(info + [t.value], ReadRecords(cur.rest, left'))
  {
    ghost var before := cur.rest;
    left' := Less(left);
    t := ReadRecordAt(cur);
    if t.None? {
      ReadRecordsFail(before, left);
    } else {
      ReadRecordsMore(start, count, info, before, left, t.value, cur.rest);
    }
  }

  lemma ReadRecordsEnd(start: Bytes, count: nat, info: seq<TradeInfo>, c: Bytes, left: nat)
    requires left == 0 && ReadRecords(start, count) == Prepend(info, ReadRecords(c, left))
    ensures ReadRecords(start, count) == Some(Take(info, c))
  {
    assert info + [] == info;
  }

  /** The loop's invariant carried over one more row. */
  lemma ReadRecordsMore(start: Bytes, count: nat, info: seq<TradeInfo>, before: Bytes, left: nat, t: TradeInfo, after: Bytes)
    requires ReadRecords(start, count) == Prepend(info, ReadRecords(before, left))
    requires left > 0 && ReadRecord(before) == Some(Take(t, after))
    ensures ReadRecords(start, count) == Prepend(info + [t], ReadRecords(after, Less(left)))
  {
    ReadRecordsNext(before, left, t, after);
    PrependTwice(info, [t], ReadRecords(after, Less(left)));
  }

  /** The first of `n` rows, then the other `n - 1`. */
  lemma ReadRecordsNext(c: Bytes, n: nat, t: TradeInfo, after: Bytes)
    requires n > 0 && ReadRecord(c) == Some(Take(t, after))
    ensures ReadRecords(c, n) == Prepend([t], ReadRecords(after, Less(n)))
  {
  }

  /** A row that fails fails all `n`. */
  lemma ReadRecordsFail(c: Bytes, n: nat)
    requires n > 0 && ReadRecord(c).None?
    ensures ReadRecords(c, n).None?
  {
  }

  lemma PrependNothing(more: Option<Take<seq<TradeInfo>>>)
    ensures Prepend([], more) == more
  {
    if more.Some? {
      assert [] + more.value.value == more.value.value;
    }
  }

  lemma PrependTwice(a: seq<TradeInfo>, b: seq<TradeInfo>, more: Option<Take<seq<TradeInfo>>>)
    ensures Prepend(a, Prepend(b, more)) == Prepend(a + b, more)
  {
    if more.Some? {
      assert a + (b + more.value.value) == (a + b) + more.value.value;
    }
  }

  /** The `info` branch on the cursor. */
  method DecodeInfoAt(cur: ClientExt.Cursor) returns (e: Event)
    modifies cur
    ensures e == DecodeInfo(old(cur.rest))
  {
    var page := cur.TryGetU32();
    var pages := cur.TryGetU32();
    var count := cur.TryGetU32();
    if count.None? {
      return Aborted;
    }
    var user := ReadUserAt(cur);
    if user.None? {
      return Aborted;
    }
    var rows := ReadRecordsAt(cur, count.value);
    if rows.None? {
      return Aborted;
    }
    e := ShowInfo(user.value, rows.value);
  }

  /** `get_msg`'s loop body. */
  method DecodePacket(data: Bytes) returns (e: Event)
    ensures e == Decode(data)
  {
    if |data| < 12 || data[..4] != MAGIC {
      return Dropped;
    }
    if FromBe(data[4..8]) != CURRENT_VERSION {
      return Dropped;
    }
    e := DecodeBodyAt(data[8..12], data[12..]);
  }

  /** The `match` on the tag, reading the body off a fresh cursor. */
  method DecodeBodyAt(tag: Bytes, body: Bytes) returns (e: Event)
    ensures e == DecodeBody(tag, body)
  {
    var cur := new ClientExt.Cursor(body);
    if tag == MSGB_TAG {
      var msg := cur.ReadPacketString();
      e := if msg.Ok? then Tip(msg.value) else Aborted;
    } else if tag == MENU_TAG {
      var user := ReadUserAt(cur);
      e := if user.Some? then ShowIndex(user.value) else Aborted;
    } else if tag == INFO_TAG {
      e := DecodeInfoAt(cur);
    } else {
      e := Ignored;
    }
  }

  /** `while let Some((_, data)) = receiver.recv().await`: decode each packet until one aborts the task. */
  method Listen(packets: seq<Bytes>) returns (events: seq<Event>)
    ensures events == Run(packets)
  {
    events := [];
    var i := 0;
    while i < |packets|
      invariant 0 <= i <= |packets|
      invariant Run(packets) == events + Run(packets[i..])
    {
      var e := Receive(packets, i);
      if e.Aborted? {
        return events + [e];
      }
      Append(events, e, Run(packets[i + 1..]));
      events := events + [e];
      i := i + 1;
    }
  }

  /** One packet of the loop: its event, and the events the rest of the run adds after it. */
  method Receive(packets: seq<Bytes>, i: int) returns (e: Event)
    requires 0 <= i < |packets|
    ensures e == Decode(packets[i])
    ensures Run(packets[i..]) == if e.Aborted? then [e] else [e] + Run(packets[i + 1..])
  {
    RunStep(packets, i);
    e := DecodePacket(packets[i]);
  }

  lemma Append(events: seq<Event>, e: Event, more: seq<Event>)
    ensures events + ([e] + more) == (events + [e]) + more
  {
  }
}
