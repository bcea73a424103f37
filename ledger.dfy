/**
 * The bank's persistent store and the façade the handlers call on it
 * (`BankServer::insert_trade_log` and `BankServer::add_balance`).
 *
 * The SQL tables become an abstract store: the `bank_user` table is a map
 * from account id to its row, `trade_logs` is a sequence of rows in
 * insertion order, and the table's AUTO_INCREMENT counter is `nextTid`.
 * Each SQL statement the core issues is a pure function on the store's
 * value (`Db`); the `Store` class holds that value in fields that its
 * methods update in place.
 */
module Ledger {
  import opened Wire

  /** A UTC instant as the protocol carries it: whole seconds and nanoseconds. */
  datatype Time = Time(secs: i64, nanos: u32)

  /** A `bank_user` row; `name` and `phone_number` are nullable columns. */
  datatype Account = Account(password: i32, balance: u32, name: Option<Bytes>, phone: Option<Bytes>)

  /** A `trade_logs` row. */
  datatype TradeLog = TradeLog(tid: i32, receiver: u32, sender: Bytes, time: Time, amount: i32)

  const I32_MAX: int := 0x7FFF_FFFF

  /** The whole store: accounts, trade logs, and the next trade-log id. */
  datatype Db = Db(accounts: map<u32, Account>, logs: seq<TradeLog>, nextTid: nat) {

    /** The AUTO_INCREMENT discipline: every row's id is positive and below the counter, in increasing order. */
    ghost predicate Valid() {
      && 1 <= nextTid
      && (forall i :: 0 <= i < |logs| ==> 1 <= logs[i].tid < nextTid)
      && (forall i, j :: 0 <= i < j < |logs| ==> logs[i].tid < logs[j].tid)
    }

    /** `SELECT * FROM bank_user WHERE id=?` */
    function Lookup(id: u32): (r: Option<Account>)
      ensures r.Some? <==> id in accounts
      ensures r.Some? ==> r.value == accounts[id]
    {
      if id in accounts then Some(accounts[id]) else None
    }

    /**
     * `UPDATE bank_user SET balance=balance+? WHERE id=?` (or `-?` with a
     * negative `delta`). An id that matches no row changes nothing and is not
     * an error; a result outside the `INTEGER UNSIGNED` column range is.
     */
    function UpdateBalance(id: u32, delta: int): (r: Option<Db>)
      ensures r.None? <==> id in accounts && !(0 <= accounts[id].balance + delta < U32_LIMIT)
      ensures r.Some? ==> r.value.logs == logs && r.value.nextTid == nextTid
    {
      if id !in accounts then Some(this)
      else
        var a := accounts[id];
        var b := a.balance + delta;
        if 0 <= b < U32_LIMIT then Some(this.(accounts := accounts[id := a.(balance := b)])) else None
    }

    /**
     * `INSERT INTO trade_logs(receiver, sender, time, amount)`: one row is
     * appended under the next AUTO_INCREMENT id; the insert fails once the
     * signed 32-bit id column is exhausted.
     */
    function InsertLog(receiver: u32, sender: Bytes, amount: i32, now: Time): (r: Option<Db>)
      ensures r.None? <==> nextTid > I32_MAX
      ensures r.Some? ==> r.value.accounts == accounts
      ensures r.Some? ==> |r.value.logs| == |logs| + 1 && r.value.logs[..|logs|] == logs
      ensures r.Some? ==>
        var t := r.value.logs[|logs|];
        t.receiver == receiver && t.sender == sender && t.time == now && t.amount == amount
    {
      if nextTid > I32_MAX then None
      else
        var row := TradeLog(nextTid, receiver, sender, now, amount);
        assert (logs + [row])[..|logs|] == logs;
        Some(Db(accounts, logs + [row], nextTid + 1))
    }

    /**
     * `add_balance`: credit `who` by `amount`, then log the credit under
     * `sender`. It checks neither that `who` exists nor any cap.
     */
    function AddBalance(who: u32, sender: Bytes, amount: u32, now: Time): (r: Option<Db>)
      ensures r.None? <==> (who in accounts && accounts[who].balance + amount >= U32_LIMIT) || nextTid > I32_MAX
      ensures r.Some? ==> r.value.nextTid == nextTid + 1 && |r.value.logs| == |logs| + 1 && r.value.logs[..|logs|] == logs
    {
      match UpdateBalance(who, amount)
      case None => None
      case Some(db1) => db1.InsertLog(who, sender, AsI32(amount), now)
    }

    /** `INSERT INTO bank_user VALUES(?, ?, ?, ?, ?)`: refused on a duplicate primary key. */
    function InsertAccount(id: u32, password: i32, balance: u32, name: Bytes, phone: Bytes): (r: Option<Db>)
      ensures r.None? <==> id in accounts
      ensures r.Some? ==> r.value.accounts == accounts[id := Account(password, balance, Some(name), Some(phone))]
      ensures r.Some? ==> r.value.logs == logs && r.value.nextTid == nextTid
    {
      if id in accounts then None
      else Some(this.(accounts := accounts[id := Account(password, balance, Some(name), Some(phone))]))
    }
  }

  /**
   * AUTO_INCREMENT: the appended row's id is larger than every id already in
   * the table, so the ids stay positive, below the counter and increasing.
   */
  lemma InsertLogValid(db: Db, receiver: u32, sender: Bytes, amount: i32, now: Time)
    requires db.Valid() && db.InsertLog(receiver, sender, amount, now).Some?
    ensures
      var d := db.InsertLog(receiver, sender, amount, now).value;
      && d.Valid()
      && (forall i :: 0 <= i < |db.logs| ==> db.logs[i].tid < d.logs[|db.logs|].tid)
  {
  }

  /** The store of a freshly created schema. */
  const EMPTY: Db := Db(map[], [], 1)

  /** `SELECT * FROM trade_logs WHERE receiver = ? OR sender = ?`, in store order. */
  function History(logs: seq<TradeLog>, id: u32): (r: seq<TradeLog>)
    ensures |r| <= |logs|
  {
    if logs == [] then []
    else
      var last := logs[|logs| - 1];
      var init := History(logs[..|logs| - 1], id);
      if last.receiver == id || last.sender == Decimal(id) then init + [last] else init
  }

  predicate Concerns(t: TradeLog, id: u32) {
    t.receiver == id || t.sender == Decimal(id)
  }

  /** The history holds exactly the rows that credit `id` or name it as sender, and no others. */
  lemma {:induction false} HistoryExact(logs: seq<TradeLog>, id: u32, t: TradeLog)
    ensures t in History(logs, id) <==> t in logs && Concerns(t, id)
  {
    if logs != [] {
      var init := logs[..|logs| - 1];
      HistoryExact(init, id, t);
      assert logs == init + [logs[|logs| - 1]];
    }
  }

  /** Appending a row extends the history of `id` by that row exactly when the row concerns `id`. */
  lemma HistoryAppend(logs: seq<TradeLog>, t: TradeLog, id: u32)
    ensures History(logs + [t], id) == if Concerns(t, id) then History(logs, id) + [t] else History(logs, id)
  {
    assert (logs + [t])[..|logs|] == logs;
  }

  /** A credit logged by `add_balance` is part of the history of the credited account. */
  lemma AddBalanceLogged(db: Db, who: u32, sender: Bytes, amount: u32, now: Time)
    requires db.AddBalance(who, sender, amount, now).Some?
    ensures
      var db' := db.AddBalance(who, sender, amount, now).value;
      |db'.logs| == |db.logs| + 1 && db'.logs[..|db.logs|] == db.logs &&
      var t := db'.logs[|db.logs|];
      t.receiver == who && t.sender == sender && t.amount == AsI32(amount) &&
      History(db'.logs, who) == History(db.logs, who) + [t]
  {
    var db1 := db.UpdateBalance(who, amount).value;
    var db' := db1.InsertLog(who, sender, AsI32(amount), now).value;
    assert db'.logs == db.logs + [db'.logs[|db.logs|]];
    HistoryAppend(db.logs, db'.logs[|db.logs|], who);
  }

  /**
   * `add_balance` changes only `who`'s balance, by `amount`, and appends
   * one row; for an unknown `who` it still appends the row.
   */
  lemma AddBalanceEffect(db: Db, who: u32, sender: Bytes, amount: u32, now: Time)
    ensures
      var r := db.AddBalance(who, sender, amount, now);
      r.Some? <==> (who !in db.accounts || db.accounts[who].balance + amount < U32_LIMIT) && db.nextTid <= I32_MAX
    ensures
      var r := db.AddBalance(who, sender, amount, now);
      r.Some? ==>
        && r.value.accounts.Keys == db.accounts.Keys
        && (forall k :: k in db.accounts && k != who ==> r.value.accounts[k] == db.accounts[k])
        && (who in db.accounts ==> r.value.accounts[who].balance == db.accounts[who].balance + amount)
        && |r.value.logs| == |db.logs| + 1
  {
  }

  /** The in-place store the bank server shares across connections. */
  class Store {
    var accounts: map<u32, Account>
    var logs: seq<TradeLog>
    var nextTid: nat

    function State(): Db
      reads this
    {
      Db(accounts, logs, nextTid)
    }

    ghost predicate Valid()
      reads this
    {
      State().Valid()
    }

    constructor ()
      ensures State() == EMPTY && Valid()
    {
      accounts, logs, nextTid := map[], [], 1;
    }

    /** Read one row. */
    function Lookup(id: u32): (r: Option<Account>)
      reads this
      ensures r == State().Lookup(id)
    {
      if id in accounts then Some(accounts[id]) else None
    }

    /** Read the trade-log rows that concern `id`. */
    function TradeHistory(id: u32): (r: seq<TradeLog>)
      reads this
      ensures forall t :: t in r <==> t in logs && Concerns(t, id)
      ensures r == History(logs, id)
    {
      HistoryExactAll(logs, id);
      History(logs, id)
    }

    method UpdateBalance(id: u32, delta: int) returns (ok: bool)
      requires Valid()
      modifies this
      ensures Valid()
      ensures ok == old(State()).UpdateBalance(id, delta).Some?
      ensures ok ==> State() == old(State()).UpdateBalance(id, delta).value
      ensures !ok ==> State() == old(State())
    {
      if id !in accounts {
        return true;
      }
      var a := accounts[id];
      var b := a.balance + delta;
      if !(0 <= b < U32_LIMIT) {
        return false;
      }
      accounts := accounts[id := a.(balance := b)];
      ok := true;
    }

    /** `insert_trade_log`: the time is the caller's clock reading. */
    method InsertTradeLog(receiver: u32, sender: Bytes, amount: i32, now: Time) returns (ok: bool)
      requires Valid()
      modifies this
      ensures Valid()
      ensures ok == old(State()).InsertLog(receiver, sender, amount, now).Some?
      ensures ok ==> State() == old(State()).InsertLog(receiver, sender, amount, now).value
      ensures !ok ==> State() == old(State())
    {
      if nextTid > I32_MAX {
        return false;
      }
      InsertLogValid(State(), receiver, sender, amount, now);
      logs := logs + [TradeLog(nextTid, receiver, sender, now, amount)];
      nextTid := nextTid + 1;
      ok := true;
    }

    /** `add_balance`: the UPDATE, then the trade-log insert; a failed UPDATE skips the insert. */
    method AddBalance(who: u32, sender: Bytes, amount: u32, now: Time) returns (ok: bool)
      requires Valid()
      modifies this
      ensures Valid()
      ensures ok == old(State()).AddBalance(who, sender, amount, now).Some?
      ensures ok ==> State() == old(State()).AddBalance(who, sender, amount, now).value
      ensures !ok ==>
        var mid := old(State()).UpdateBalance(who, amount);
        State() == if mid.Some? then mid.value else old(State())
    {
      ok := UpdateBalance(who, amount);
      if !ok {
        return;
      }
      ok := InsertTradeLog(who, sender, AsI32(amount), now);
    }

    method InsertAccount(id: u32, password: i32, balance: u32, name: Bytes, phone: Bytes) returns (ok: bool)
      requires Valid()
      modifies this
      ensures Valid()
      ensures ok == old(State()).InsertAccount(id, password, balance, name, phone).Some?
      ensures ok ==> State() == old(State()).InsertAccount(id, password, balance, name, phone).value
      ensures !ok ==> State() == old(State())
    {
      if id in accounts {
        return false;
      }
      accounts := accounts[id := Account(password, balance, Some(name), Some(phone))];
      ok := true;
    }
  }

  lemma HistoryExactAll(logs: seq<TradeLog>, id: u32)
    ensures forall t :: t in History(logs, id) <==> t in logs && Concerns(t, id)
  {
    forall t {
      HistoryExact(logs, id, t);
    }
  }
}
