/** `WithdrawCommandService`: create a withdrawal (debit first, then the record)
    and update one. The saldo is written with `update_withdraw`, which narrows the
    balance and the amount with `as i32` and records the withdrawal's amount and
    time. Each method is specified by a function giving the store it leaves and
    the value it returns; the lemmas below state what the source promises. */
module WithdrawService {
  import opened Common
  import opened Balances
  import opened Ledger

  /** The repository calls of `create`, in program order. */
  datatype CreateCall =
    | FindCard | FindSaldo | WriteSaldo | CreateWithdraw | RestoreSaldo | MarkSuccess | MarkFailed

  /** The repository calls of `update`, in program order. */
  datatype UpdateCall =
    | FindCard | FindWithdraw | FindSaldo | WriteSaldo | MarkFailedNoWrite | UpdateWithdraw
    | RestoreSaldo | MarkFailedNoRecord | MarkSuccess | MarkFailedNoSuccess

  /** The rows after `update_withdraw` of `card` with balance `total`, for a
      withdrawal of `amount` at `time`, both numbers narrowed with `as i32`. */
  function Withdrawn(s: Saldos, card: string, total: int, amount: int, time: int, failed: bool): (r: Saldos)
    ensures r.Keys == s.Keys
    ensures card in s && !failed ==>
              r[card] == Saldo(ToI32(total), ToI32(amount), time) &&
              (InI32(total) ==> r[card].totalBalance == total) &&
              (InI32(amount) ==> r[card].withdrawAmount == amount)
    ensures forall c :: c in s && (c != card || failed) ==> r[c] == s[c]
  {
    AfterWithdrawWrite(s, card, ToI32(total), ToI32(amount), time, failed)
  }

  /** The status a row ends with when a "success" mark and then, if that
      errored, a "failed" mark are attempted, either of which may error. */
  function StatusAfterTwo(successFails: bool, failedFails: bool, before: Status): Status {
    if !successFails then Success else if !failedFails then Failed else before
  }

  // ---- create ---------------------------------------------------------------

  /** What `create` leaves and returns: the lookups, the funds check
      (`balance < amount` rejects), the debit, then a "pending" record under
      `nextId`. A failed record writes the balance read before back; a failed
      "success" mark is followed by a "failed" mark and the debit stays. */
  function CreateOutcome(st: State, nextId: int, valid: bool, card: string, amount: int, time: int,
                         fails: set<CreateCall>): Outcome
  {
    if !valid then Outcome(st, Err(ValidationFailed))
    else if CreateCall.FindCard in fails || card !in st.cards then Outcome(st, Err(NotFound(Card)))
    else if CreateCall.FindSaldo in fails || card !in st.saldo then Outcome(st, Err(NotFound(CardSaldo)))
    else
      var before := st.saldo[card].totalBalance;
      if before < amount then Outcome(st, Err(InsufficientBalance))
      else if CreateCall.WriteSaldo in fails then Outcome(st, Err(WriteFailed(CardSaldo)))
      else
        var debited := Withdrawn(st.saldo, card, before - amount, amount, time, false);
        if CreateWithdraw in fails then
          Outcome(st.(saldo := Withdrawn(debited, card, before, amount, time, CreateCall.RestoreSaldo in fails)),
                  Err(WriteFailed(WithdrawRecord)))
        else
          var status := StatusAfterTwo(CreateCall.MarkSuccess in fails, MarkFailed in fails, Pending);
          Outcome(st.(saldo := debited,
                      records := st.records[nextId := Record(WithdrawOp(card, amount, time), status)]),
                  if CreateCall.MarkSuccess in fails then Err(WriteFailed(RecordStatus)) else Ok(nextId))
  }

  method Create(db: Db, valid: bool, card: string, amount: int, time: int, fails: set<CreateCall>)
    returns (r: Result<int>)
    requires db.Valid()
    modifies db
    ensures db.Valid()
    ensures Outcome(db.View(), r) == CreateOutcome(old(db.View()), old(db.nextId), valid, card, amount, time, fails)
  {
    if !valid {
      return Err(ValidationFailed);
    }
    var found := db.FindCard(card, CreateCall.FindCard in fails);
    if !found {
      return Err(NotFound(Card));
    }
    var saldo := db.FindSaldo(card, CreateCall.FindSaldo in fails);
    if saldo.None? {
      return Err(NotFound(CardSaldo));
    }
    if saldo.value.totalBalance < amount {
      return Err(InsufficientBalance);
    }
    var newTotal := saldo.value.totalBalance - amount;
    var written := db.UpdateWithdraw(card, ToI32(newTotal), ToI32(amount), time, CreateCall.WriteSaldo in fails);
    if !written {
      return Err(WriteFailed(CardSaldo));
    }
    assert db.saldo == Withdrawn(old(db.saldo), card, newTotal, amount, time, false);
    var created := db.CreateRecord(WithdrawOp(card, amount, time), CreateWithdraw in fails);
    if created.None? {
      var _ := db.UpdateWithdraw(card, ToI32(saldo.value.totalBalance), ToI32(amount), time, CreateCall.RestoreSaldo in fails);
      return Err(WriteFailed(WithdrawRecord));
    }
    var id := created.value;
    var marked := db.UpdateStatus(Withdraws, id, Success, CreateCall.MarkSuccess in fails);
    if !marked {
      var _ := db.UpdateStatus(Withdraws, id, Failed, MarkFailed in fails);
      return Err(WriteFailed(RecordStatus));
    }
    r := Ok(id);
  }

  /** True when both lookups of `create` find their row. */
  predicate CreateFinds(st: State, card: string, fails: set<CreateCall>) {
    card in st.cards && card in st.saldo && CreateCall.FindCard !in fails && CreateCall.FindSaldo !in fails
  }

  /** Nothing is written unless the card and its saldo were found and the
      balance covers `amount`; a shortfall is reported as such. */
  lemma CreateChecksBeforeWriting(st: State, nextId: int, valid: bool, card: string, amount: int, time: int,
                                  fails: set<CreateCall>)
    ensures var o := CreateOutcome(st, nextId, valid, card, amount, time, fails);
            o.after != st ==> valid && CreateFinds(st, card, fails) && amount <= st.saldo[card].totalBalance
    ensures valid && CreateFinds(st, card, fails) && st.saldo[card].totalBalance < amount ==>
              CreateOutcome(st, nextId, valid, card, amount, time, fails) == Outcome(st, Err(InsufficientBalance))
  {
  }

  /** `create` succeeds exactly when every call up to the "success" mark went
      through and the balance covered `amount`. Then, within the 32-bit range,
      the card's balance is the old one minus `amount`, its row records this
      withdrawal's amount and time, and the new record is "success". */
  lemma CreateSucceeds(st: State, nextId: int, valid: bool, card: string, amount: int, time: int,
                       fails: set<CreateCall>)
    ensures var o := CreateOutcome(st, nextId, valid, card, amount, time, fails);
            o.result.Ok? <==>
              valid && CreateFinds(st, card, fails) && amount <= st.saldo[card].totalBalance &&
              CreateCall.WriteSaldo !in fails && CreateWithdraw !in fails && CreateCall.MarkSuccess !in fails
    ensures var o := CreateOutcome(st, nextId, valid, card, amount, time, fails);
            o.result.Ok? && InI32(st.saldo[card].totalBalance - amount) && InI32(amount) ==>
              o.result.value == nextId &&
              o.after.saldo == st.saldo[card := Saldo(st.saldo[card].totalBalance - amount, amount, time)] &&
              o.after.records == st.records[nextId := Record(WithdrawOp(card, amount, time), Success)]
  {
  }

  /** A failed record writes the balance read before back (exactly, within the
      32-bit range), keeping this withdrawal's amount and time on the row; no
      record is left. */
  lemma CreateRestoresBalance(st: State, nextId: int, valid: bool, card: string, amount: int, time: int,
                              fails: set<CreateCall>)
    ensures var o := CreateOutcome(st, nextId, valid, card, amount, time, fails);
            o.result == Err(WriteFailed(WithdrawRecord)) && CreateCall.RestoreSaldo !in fails &&
            InI32(st.saldo[card].totalBalance) && InI32(amount) ==>
              o.after == st.(saldo := st.saldo[card := Saldo(st.saldo[card].totalBalance, amount, time)])
  {
  }

  /** A failed "success" mark does not reverse the debit: the balance stays
      written and the record is marked "failed" (or stays "pending" when that
      mark errors too). */
  lemma CreateKeepsDebit(st: State, nextId: int, valid: bool, card: string, amount: int, time: int,
                         fails: set<CreateCall>)
    ensures var o := CreateOutcome(st, nextId, valid, card, amount, time, fails);
            o.result == Err(WriteFailed(RecordStatus)) ==>
              card in st.saldo &&
              o.after.saldo == Withdrawn(st.saldo, card, st.saldo[card].totalBalance - amount, amount, time, false) &&
              o.after.records ==
                st.records[nextId := Record(WithdrawOp(card, amount, time), if MarkFailed in fails then Pending else Failed)]
  {
  }

  // ---- update ---------------------------------------------------------------

  /** What `update` leaves and returns: the lookups, the funds check against
      the full new amount, the debit of that amount (the amount of the
      withdrawal being replaced is not credited back), the record update and
      the "success" mark; failures after the lookups mark the row "failed",
      and a failed record update also writes the balance read before back. */
  function UpdateOutcome(st: State, valid: bool, withdrawId: Option<int>, card: string, amount: int, time: int,
                         fails: set<UpdateCall>): Outcome
  {
    if !valid then Outcome(st, Err(ValidationFailed))
    else if withdrawId.None? then Outcome(st, Err(IdRequired))
    else
      var id := withdrawId.value;
      if UpdateCall.FindCard in fails || card !in st.cards then Outcome(st, Err(NotFound(Card)))
      else if FindWithdraw in fails || !HasRow(st.records, Withdraws, id) then Outcome(st, Err(NotFound(WithdrawRecord)))
      else if UpdateCall.FindSaldo in fails || card !in st.saldo then Outcome(st, Err(NotFound(CardSaldo)))
      else
        var before := st.saldo[card].totalBalance;
        if before < amount then Outcome(st, Err(InsufficientBalance))
        else DebitOutcome(st, id, card, amount, time, before, fails)
  }

  /** `update` from the debit on, given the balance `before` it read. */
  function DebitOutcome(st: State, id: int, card: string, amount: int, time: int, before: int,
                        fails: set<UpdateCall>): Outcome
    requires HasRow(st.records, Withdraws, id)
  {
    if UpdateCall.WriteSaldo in fails then
      Outcome(st.(records := AfterStatus(st.records, Withdraws, id, Failed, MarkFailedNoWrite in fails)),
              Err(WriteFailed(CardSaldo)))
    else
      var debited := Withdrawn(st.saldo, card, before - amount, amount, time, false);
      if UpdateWithdraw in fails then
        Outcome(st.(saldo := Withdrawn(debited, card, before, amount, time, UpdateCall.RestoreSaldo in fails),
                    records := AfterStatus(st.records, Withdraws, id, Failed, MarkFailedNoRecord in fails)),
                Err(WriteFailed(WithdrawRecord)))
      else
        var status := StatusAfterTwo(UpdateCall.MarkSuccess in fails, MarkFailedNoSuccess in fails,
                                     st.records[id].status);
        Outcome(st.(saldo := debited, records := st.records[id := Record(WithdrawOp(card, amount, time), status)]),
                if UpdateCall.MarkSuccess in fails then Err(WriteFailed(RecordStatus)) else Ok(id))
  }

  method Update(db: Db, valid: bool, withdrawId: Option<int>, card: string, amount: int, time: int,
                fails: set<UpdateCall>)
    returns (r: Result<int>)
    requires db.Valid()
    modifies db
    ensures db.Valid()
    ensures Outcome(db.View(), r) == UpdateOutcome(old(db.View()), valid, withdrawId, card, amount, time, fails)
  {
    if !valid {
      return Err(ValidationFailed);
    }
    if withdrawId.None? {
      return Err(IdRequired);
    }
    var id := withdrawId.value;
    var found := db.FindCard(card, UpdateCall.FindCard in fails);
    if !found {
      return Err(NotFound(Card));
    }
    var existing := db.FindRecord(Withdraws, id, FindWithdraw in fails);
    if existing.None? {
      return Err(NotFound(WithdrawRecord));
    }
    var saldo := db.FindSaldo(card, UpdateCall.FindSaldo in fails);
    if saldo.None? {
      return Err(NotFound(CardSaldo));
    }
    if saldo.value.totalBalance < amount {
      return Err(InsufficientBalance);
    }
    r := Debit(db, id, card, amount, time, saldo.value.totalBalance, fails);
  }

  /** The writes of `update`, given the balance `before` it read. */
  method Debit(db: Db, id: int, card: string, amount: int, time: int, before: int, fails: set<UpdateCall>)
    returns (r: Result<int>)
    requires db.Valid() && card in db.saldo && before == db.saldo[card].totalBalance
    requires HasRow(db.records, Withdraws, id)
    modifies db
    ensures db.Valid()
    ensures Outcome(db.View(), r) == DebitOutcome(old(db.View()), id, card, amount, time, before, fails)
  {
    var newTotal := before - amount;
    var written := db.UpdateWithdraw(card, ToI32(newTotal), ToI32(amount), time, UpdateCall.WriteSaldo in fails);
    if !written {
      var _ := db.UpdateStatus(Withdraws, id, Failed, MarkFailedNoWrite in fails);
      return Err(WriteFailed(CardSaldo));
    }
    var updated := db.UpdateRecord(id, WithdrawOp(card, amount, time), UpdateWithdraw in fails);
    if !updated {
      var _ := db.UpdateWithdraw(card, ToI32(before), ToI32(amount), time, UpdateCall.RestoreSaldo in fails);
      var _ := db.UpdateStatus(Withdraws, id, Failed, MarkFailedNoRecord in fails);
      return Err(WriteFailed(WithdrawRecord));
    }
    var marked := db.UpdateStatus(Withdraws, id, Success, UpdateCall.MarkSuccess in fails);
    if !marked {
      var _ := db.UpdateStatus(Withdraws, id, Failed, MarkFailedNoSuccess in fails);
      return Err(WriteFailed(RecordStatus));
    }
    r := Ok(id);
  }

  /** True when every lookup of `update` finds its row. */
  predicate UpdateFinds(st: State, withdrawId: Option<int>, card: string, fails: set<UpdateCall>) {
    withdrawId.Some? && card in st.cards && HasRow(st.records, Withdraws, withdrawId.value) && card in st.saldo &&
    UpdateCall.FindCard !in fails && FindWithdraw !in fails && UpdateCall.FindSaldo !in fails
  }

  /** `update` checks the current balance against the whole new amount: below
      it, nothing changes; otherwise, on success, the whole new amount is
      debited whatever the replaced withdrawal held, and the row holds the
      request's fields with status "success". */
  lemma UpdateDebitsFullAmount(st: State, valid: bool, withdrawId: Option<int>, card: string, amount: int, time: int,
                               fails: set<UpdateCall>)
    ensures var o := UpdateOutcome(st, valid, withdrawId, card, amount, time, fails);
            valid && UpdateFinds(st, withdrawId, card, fails) && st.saldo[card].totalBalance < amount ==>
              o == Outcome(st, Err(InsufficientBalance))
    ensures var o := UpdateOutcome(st, valid, withdrawId, card, amount, time, fails);
            o.result.Ok? <==>
              valid && UpdateFinds(st, withdrawId, card, fails) && amount <= st.saldo[card].totalBalance &&
              UpdateCall.WriteSaldo !in fails && UpdateWithdraw !in fails && UpdateCall.MarkSuccess !in fails
    ensures var o := UpdateOutcome(st, valid, withdrawId, card, amount, time, fails);
            o.result.Ok? && InI32(st.saldo[card].totalBalance - amount) && InI32(amount) ==>
              o.after.saldo == st.saldo[card := Saldo(st.saldo[card].totalBalance - amount, amount, time)] &&
              o.after.records == st.records[withdrawId.value := Record(WithdrawOp(card, amount, time), Success)]
  {
  }

  /** A failed saldo write changes no balance and marks the row "failed"; a
      failed record update writes the balance read before back and marks the
      row "failed" (each unless the compensating call errors). */
  lemma UpdateCompensates(st: State, valid: bool, withdrawId: Option<int>, card: string, amount: int, time: int,
                          fails: set<UpdateCall>)
    ensures var o := UpdateOutcome(st, valid, withdrawId, card, amount, time, fails);
            o.result == Err(WriteFailed(CardSaldo)) ==>
              withdrawId.Some? && HasRow(st.records, Withdraws, withdrawId.value) &&
              o.after.saldo == st.saldo &&
              o.after.records == if MarkFailedNoWrite in fails then st.records
                                 else st.records[withdrawId.value := Record(st.records[withdrawId.value].op, Failed)]
    ensures var o := UpdateOutcome(st, valid, withdrawId, card, amount, time, fails);
            o.result == Err(WriteFailed(WithdrawRecord)) && UpdateCall.RestoreSaldo !in fails &&
            MarkFailedNoRecord !in fails && InI32(st.saldo[card].totalBalance) && InI32(amount) ==>
              o.after.saldo == st.saldo[card := Saldo(st.saldo[card].totalBalance, amount, time)] &&
              o.after.records == st.records[withdrawId.value := Record(st.records[withdrawId.value].op, Failed)]
  {
  }
}
