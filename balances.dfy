/** The saldo (balance) rows as values: one row per card number, and the
    total of all balances, which a transfer must leave unchanged. */
module Balances {

  /** A row of the saldo table: the card's total balance and the metadata of
      the most recent withdrawal written with `update_withdraw`. */
  datatype Saldo = Saldo(totalBalance: int, withdrawAmount: int, withdrawTime: int)

  type Saldos = map<string, Saldo>

  /** `update_balance`: the row of `card` gets `total` as its balance; every
      other row, and the withdrawal metadata of this one, stay as they were. */
  function SetBalance(s: Saldos, card: string, total: int): (r: Saldos)
    requires card in s
    ensures r.Keys == s.Keys
    ensures r[card].totalBalance == total
    ensures r[card].withdrawAmount == s[card].withdrawAmount
    ensures r[card].withdrawTime == s[card].withdrawTime
    ensures forall c :: c in s && c != card ==> r[c] == s[c]
  {
    s[card := s[card].(totalBalance := total)]
  }

  /** The rows after an `update_balance` of `card` to `total` that errors when
      `failed` holds; a write to a card without a row errors as well. */
  function AfterWrite(s: Saldos, card: string, total: int, failed: bool): Saldos {
    if failed || card !in s then s else SetBalance(s, card, total)
  }

  /** The rows after an `update_withdraw` of `card` that errors when `failed` holds:
      the balance and the last withdrawal's amount and time are replaced together. */
  function AfterWithdrawWrite(s: Saldos, card: string, total: int, amount: int, time: int, failed: bool): Saldos {
    if failed || card !in s then s else s[card := Saldo(total, amount, time)]
  }

  /** Writing back the balance a row held before undoes an earlier write to it. */
  lemma SetBalanceUndo(s: Saldos, card: string, total: int)
    requires card in s
    ensures SetBalance(SetBalance(s, card, total), card, s[card].totalBalance) == s
  {
    assert SetBalance(SetBalance(s, card, total), card, s[card].totalBalance)[card] == s[card];
  }

  /** Sum of the balances of the rows named in `cards`. */
  ghost function SumOver(s: Saldos, cards: set<string>): int
    requires cards <= s.Keys
    decreases cards
  {
    if cards == {} then 0
    else
      var c :| c in cards;
      s[c].totalBalance + SumOver(s, cards - {c})
  }

  /** Money held by all cards together. */
  ghost function Total(s: Saldos): int {
    SumOver(s, s.Keys)
  }

  /** Any row can be taken out of the sum first, whichever one the definition picked. */
  lemma {:induction false} SumOverPick(s: Saldos, cards: set<string>, c: string)
    requires cards <= s.Keys && c in cards
    ensures SumOver(s, cards) == s[c].totalBalance + SumOver(s, cards - {c})
    decreases cards
  {
    var d :| d in cards && SumOver(s, cards) == s[d].totalBalance + SumOver(s, cards - {d});
    if d != c {
      SumOverPick(s, cards - {d}, c);
      SumOverPick(s, cards - {c}, d);
      assert cards - {d} - {c} == cards - {c} - {d};
    }
  }

  /** The sum only looks at the balances of the rows it names. */
  lemma {:induction false} SumOverAgree(s: Saldos, t: Saldos, cards: set<string>)
    requires cards <= s.Keys && cards <= t.Keys
    requires forall c :: c in cards ==> s[c].totalBalance == t[c].totalBalance
    ensures SumOver(s, cards) == SumOver(t, cards)
    decreases cards
  {
    if cards != {} {
      var c :| c in cards;
      SumOverPick(s, cards, c);
      SumOverPick(t, cards, c);
      SumOverAgree(s, t, cards - {c});
    }
  }

  /** Writing one balance changes the total by exactly the difference written. */
  lemma TotalSetBalance(s: Saldos, card: string, total: int)
    requires card in s
    ensures Total(SetBalance(s, card, total)) == Total(s) - s[card].totalBalance + total
  {
    var r := SetBalance(s, card, total);
    SumOverPick(s, s.Keys, card);
    SumOverPick(r, r.Keys, card);
    SumOverAgree(s, r, s.Keys - {card});
  }
}
