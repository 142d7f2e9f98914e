/** The relational store the command services share, as one object: the card,
    saldo, merchant and operation-record tables, with the repository calls the
    services make on them. Every call takes `fail`, which stands for the
    database returning an error at that call; a lookup also fails when the row
    does not exist, which the repositories report the same way. */
module Ledger {
  import opened Common
  import opened Balances

  /** A merchant as found by its API key. */
  datatype Merchant = Merchant(merchantId: int, userId: int)

  /** The fields of a top-up, withdraw, transfer or transaction row other than its status. */
  datatype Operation =
    | TopupOp(card: string, amount: int, paymentMethod: string)
    | WithdrawOp(card: string, amount: int, time: int)
    | TransferOp(from: string, to: string, amount: int)
    | TransactionOp(card: string, amount: int, paymentMethod: string, merchantId: int)

  /** A row of one of the four operation tables. */
  datatype Record = Record(op: Operation, status: Status)

  datatype Table = Topups | Withdraws | Transfers | Transactions

  function TableOf(op: Operation): Table {
    match op
    case TopupOp(_, _, _) => Topups
    case WithdrawOp(_, _, _) => Withdraws
    case TransferOp(_, _, _) => Transfers
    case TransactionOp(_, _, _, _) => Transactions
  }

  /** Everything a service can observe of the store. */
  datatype State = State(
    cards: set<string>,
    saldo: Saldos,
    merchants: map<string, Merchant>,
    userCards: map<int, string>,
    records: map<int, Record>)

  /** What a service call leaves behind: the store and the value it returns. */
  datatype Outcome = Outcome(after: State, result: Result<int>)

  /** True when `records` holds a row `id` of table `t`, as `find_by_id` of that table's repository sees it. */
  predicate HasRow(records: map<int, Record>, t: Table, id: int) {
    id in records && TableOf(records[id].op) == t
  }

  /** The records after `update_status` of row `id` of table `t`, which errors
      when `failed` holds or when `t` has no such row; only that row's status changes. */
  function AfterStatus(records: map<int, Record>, t: Table, id: int, s: Status, failed: bool): (r: map<int, Record>)
    ensures r.Keys == records.Keys
    ensures HasRow(records, t, id) && !failed ==> r[id] == Record(records[id].op, s)
    ensures forall k :: k in records && (k != id || failed || !HasRow(records, t, id)) ==> r[k] == records[k]
  {
    if failed || !HasRow(records, t, id) then records else records[id := Record(records[id].op, s)]
  }

  /** The records after `update_amount` of row `id` of table `t`; only that row's amount changes. */
  function AfterAmount(records: map<int, Record>, t: Table, id: int, amount: int, failed: bool): (r: map<int, Record>)
    ensures r.Keys == records.Keys
    ensures HasRow(records, t, id) && !failed ==>
              r[id].op.amount == amount && r[id].status == records[id].status && TableOf(r[id].op) == t
    ensures forall k :: k in records && (k != id || failed || !HasRow(records, t, id)) ==> r[k] == records[k]
  {
    if failed || !HasRow(records, t, id) then records
    else records[id := Record(records[id].op.(amount := amount), records[id].status)]
  }

  /** The records after the repository's `update` of row `id` with the fields of
      `op`, which must be of the row's table; the row keeps its status. */
  function AfterUpdate(records: map<int, Record>, id: int, op: Operation, failed: bool): (r: map<int, Record>)
    ensures r.Keys == records.Keys
    ensures HasRow(records, TableOf(op), id) && !failed ==> r[id] == Record(op, records[id].status)
    ensures forall k :: k in records && (k != id || failed || !HasRow(records, TableOf(op), id)) ==> r[k] == records[k]
  {
    if failed || !HasRow(records, TableOf(op), id) then records else records[id := Record(op, records[id].status)]
  }

  class Db {
    var cards: set<string>
    var saldo: Saldos
    var merchants: map<string, Merchant>   // keyed by API key
    var userCards: map<int, string>        // the card a user owns, for `find_by_user_id`
    var records: map<int, Record>
    var nextId: int                        // next serial id handed out by `create`

    /** Every row's id was handed out before `nextId`. */
    ghost predicate Valid()
      reads this`records, this`nextId
    {
      forall id :: id in records ==> id < nextId
    }

    ghost function View(): State
      reads this
    {
      State(cards, saldo, merchants, userCards, records)
    }

    constructor (cards: set<string>, saldo: Saldos, merchants: map<string, Merchant>, userCards: map<int, string>)
      ensures Valid()
      ensures View() == State(cards, saldo, merchants, userCards, map[])
    {
      this.cards := cards;
      this.saldo := saldo;
      this.merchants := merchants;
      this.userCards := userCards;
      this.records := map[];
      this.nextId := 1;
    }

    // ---- queries ----------------------------------------------------------

    /** `card_query.find_by_card` */
    method FindCard(number: string, fail: bool) returns (found: bool)
      ensures found <==> !fail && number in cards
    {
      found := !fail && number in cards;
    }

    /** `saldo_query.find_by_card` */
    method FindSaldo(number: string, fail: bool) returns (s: Option<Saldo>)
      ensures s.Some? <==> !fail && number in saldo
      ensures s.Some? ==> s.value == saldo[number]
    {
      if !fail && number in saldo {
        s := Some(saldo[number]);
      } else {
        s := None;
      }
    }

    /** `merchant_query.find_by_apikey` */
    method FindMerchantByApiKey(apiKey: string, fail: bool) returns (m: Option<Merchant>)
      ensures m.Some? <==> !fail && apiKey in merchants
      ensures m.Some? ==> m.value == merchants[apiKey]
    {
      if !fail && apiKey in merchants {
        m := Some(merchants[apiKey]);
      } else {
        m := None;
      }
    }

    /** `card_query.find_by_user_id` */
    method FindCardByUserId(userId: int, fail: bool) returns (c: Option<string>)
      ensures c.Some? <==> !fail && userId in userCards
      ensures c.Some? ==> c.value == userCards[userId]
    {
      if !fail && userId in userCards {
        c := Some(userCards[userId]);
      } else {
        c := None;
      }
    }

    /** `find_by_id` of the repository of table `t`: only rows of that table are seen. */
    method FindRecord(t: Table, id: int, fail: bool) returns (r: Option<Record>)
      ensures r.Some? <==> !fail && HasRow(records, t, id)
      ensures r.Some? ==> r.value == records[id]
    {
      if !fail && HasRow(records, t, id) {
        r := Some(records[id]);
      } else {
        r := None;
      }
    }

    // ---- commands ---------------------------------------------------------

    /** `saldo_command.update_balance` */
    method UpdateBalance(number: string, total: int, fail: bool) returns (ok: bool)
      modifies this`saldo
      ensures ok <==> !fail && number in old(saldo)
      ensures saldo == AfterWrite(old(saldo), number, total, fail)
    {
      ok := !fail && number in saldo;
      if ok {
        saldo := SetBalance(saldo, number, total);
      }
    }

    /** `saldo_command.update_withdraw`: balance and last-withdrawal metadata together. */
    method UpdateWithdraw(number: string, total: int, amount: int, time: int, fail: bool) returns (ok: bool)
      modifies this`saldo
      ensures ok <==> !fail && number in old(saldo)
      ensures saldo == AfterWithdrawWrite(old(saldo), number, total, amount, time, fail)
    {
      ok := !fail && number in saldo;
      if ok {
        saldo := saldo[number := Saldo(total, amount, time)];
      }
    }

    /** `create` of a record repository: a new "pending" row under a fresh id. */
    method CreateRecord(op: Operation, fail: bool) returns (id: Option<int>)
      requires Valid()
      modifies this`records, this`nextId
      ensures Valid()
      ensures id == if fail then None else Some(old(nextId))
      ensures id.Some? ==> id.value !in old(records)
      ensures records == if fail then old(records) else old(records)[old(nextId) := Record(op, Pending)]
    {
      if fail {
        id := None;
      } else {
        id := Some(nextId);
        records := records[nextId := Record(op, Pending)];
        nextId := nextId + 1;
      }
    }

    /** `update_status` of the repository of table `t`. */
    method UpdateStatus(t: Table, id: int, s: Status, fail: bool) returns (ok: bool)
      requires Valid()
      modifies this`records
      ensures Valid()
      ensures ok <==> !fail && HasRow(old(records), t, id)
      ensures records == AfterStatus(old(records), t, id, s, fail)
    {
      ok := !fail && HasRow(records, t, id);
      records := AfterStatus(records, t, id, s, fail);
    }

    /** `update_amount` of the repository of table `t`. */
    method UpdateAmount(t: Table, id: int, amount: int, fail: bool) returns (ok: bool)
      requires Valid()
      modifies this`records
      ensures Valid()
      ensures ok <==> !fail && HasRow(old(records), t, id)
      ensures records == AfterAmount(old(records), t, id, amount, fail)
    {
      ok := !fail && HasRow(records, t, id);
      records := AfterAmount(records, t, id, amount, fail);
    }

    /** `update` of a record repository: the request's fields replace the row's,
        its status is kept. */
    method UpdateRecord(id: int, op: Operation, fail: bool) returns (ok: bool)
      requires Valid()
      modifies this`records
      ensures Valid()
      ensures ok <==> !fail && HasRow(old(records), TableOf(op), id)
      ensures records == AfterUpdate(old(records), id, op, fail)
    {
      ok := !fail && HasRow(records, TableOf(op), id);
      records := AfterUpdate(records, id, op, fail);
    }
  }
}
