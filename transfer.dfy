/** `TransferCommandService`: create a transfer (debit the sender, credit the
    receiver, then the record) and update one (move the difference between the
    new and the old amount). Each method is specified by a function giving the
    store it leaves and the value it returns; the lemmas below state what the
    source promises about those functions. */
module TransferService {
  import opened Common
  import opened Balances
  import opened Ledger

  /** The repository calls of `create`, in program order. */
  datatype CreateCall =
    | FindSender | FindReceiver | FindSenderSaldo | FindReceiverSaldo
    | WriteSender | WriteReceiver | RestoreSender
    | CreateTransfer | RollbackSender | RollbackReceiver | MarkSuccess

  /** The repository calls of `update`, in program order. */
  datatype UpdateCall =
    | FindTransfer | FindSenderSaldo | MarkFailedInsufficient | WriteSender
    | FindReceiverSaldo | RestoreSenderNoReceiver | MarkFailedNoReceiver
    | WriteReceiver | RestoreSenderNoWrite | RestoreReceiverNoWrite | MarkFailedNoWrite
    | UpdateTransfer | RestoreSenderNoUpdate | RestoreReceiverNoUpdate | MarkFailedNoUpdate
    | MarkSuccess

  // ---- the two legs ---------------------------------------------------------

  /** The rows after `create` has written both legs. Both balances were read
      before either was written, so the receiver's new balance is based on the
      value read, not on the sender's new row. */
  function Moved(s: Saldos, from: string, to: string, amount: int): (r: Saldos)
    requires from in s && to in s
    ensures r.Keys == s.Keys
    ensures from != to ==>
              r[from].totalBalance == s[from].totalBalance - amount &&
              r[to].totalBalance == s[to].totalBalance + amount
    ensures from == to ==> r[from].totalBalance == s[from].totalBalance + amount
    ensures forall c :: c in s && c != from && c != to ==> r[c] == s[c]
  {
    SetBalance(SetBalance(s, from, s[from].totalBalance - amount), to, s[to].totalBalance + amount)
  }

  /** The rows after `update` has written both legs: the receiver's row is read
      after the sender's has been written. */
  function Rebalanced(s: Saldos, from: string, to: string, diff: int): (r: Saldos)
    requires from in s && to in s
    ensures r.Keys == s.Keys
    ensures from != to ==>
              r[from].totalBalance == s[from].totalBalance - diff &&
              r[to].totalBalance == s[to].totalBalance + diff
    ensures from == to ==> r[from].totalBalance == s[from].totalBalance
    ensures forall c :: c in s && c != from && c != to ==> r[c] == s[c]
  {
    var debited := SetBalance(s, from, s[from].totalBalance - diff);
    SetBalance(debited, to, debited[to].totalBalance + diff)
  }

  /** Between two distinct cards, a transfer moves money and creates none. */
  lemma MovedConservesTotal(s: Saldos, from: string, to: string, amount: int)
    requires from in s && to in s && from != to
    ensures Total(Moved(s, from, to, amount)) == Total(s)
  {
    var debited := SetBalance(s, from, s[from].totalBalance - amount);
    TotalSetBalance(s, from, s[from].totalBalance - amount);
    TotalSetBalance(debited, to, s[to].totalBalance + amount);
  }

  /** A transfer from a card to itself adds `amount` to the money held by all cards. */
  lemma SelfTransferAddsAmount(s: Saldos, card: string, amount: int)
    requires card in s
    ensures Total(Moved(s, card, card, amount)) == Total(s) + amount
  {
    var debited := SetBalance(s, card, s[card].totalBalance - amount);
    TotalSetBalance(s, card, s[card].totalBalance - amount);
    TotalSetBalance(debited, card, s[card].totalBalance + amount);
  }

  /** An update between any two cards, the same one included, keeps the money held by all cards. */
  lemma RebalancedConservesTotal(s: Saldos, from: string, to: string, diff: int)
    requires from in s && to in s
    ensures Total(Rebalanced(s, from, to, diff)) == Total(s)
  {
    var debited := SetBalance(s, from, s[from].totalBalance - diff);
    TotalSetBalance(s, from, s[from].totalBalance - diff);
    TotalSetBalance(debited, to, debited[to].totalBalance + diff);
  }

  /** Two writes of the balances `s` held undo any two writes to two rows, or to one row twice. */
  lemma BothUndone(s: Saldos, from: string, to: string, sender: int, receiver: int)
    requires from in s && to in s
    ensures AfterWrite(AfterWrite(SetBalance(SetBalance(s, from, sender), to, receiver), from, s[from].totalBalance, false),
                       to, s[to].totalBalance, false) == s
  {
    var r := AfterWrite(AfterWrite(SetBalance(SetBalance(s, from, sender), to, receiver), from, s[from].totalBalance, false),
                        to, s[to].totalBalance, false);
    assert forall c :: c in s ==> r[c] == s[c];
  }

  // ---- create ---------------------------------------------------------------

  /** What `create` leaves and returns: the lookups, then the funds check
      (`balance < amount` rejects), then the two legs and the record.
      `nextId` is the id the record repository hands out next. */
  function CreateOutcome(st: State, nextId: int, valid: bool, from: string, to: string, amount: int,
                         fails: set<CreateCall>): Outcome
  {
    if !valid then Outcome(st, Err(ValidationFailed))
    else if FindSender in fails || from !in st.cards then Outcome(st, Err(NotFound(SenderCard)))
    else if FindReceiver in fails || to !in st.cards then Outcome(st, Err(NotFound(ReceiverCard)))
    else if CreateCall.FindSenderSaldo in fails || from !in st.saldo then Outcome(st, Err(NotFound(SenderSaldo)))
    else if CreateCall.FindReceiverSaldo in fails || to !in st.saldo then Outcome(st, Err(NotFound(ReceiverSaldo)))
    else if st.saldo[from].totalBalance < amount then Outcome(st, Err(InsufficientBalance))
    else LegsOutcome(st, nextId, from, to, amount, fails)
  }

  /** `create` from the sender's debit on. Both balances were read before
      either is written; a failed credit writes the sender's balance back. */
  function LegsOutcome(st: State, nextId: int, from: string, to: string, amount: int,
                       fails: set<CreateCall>): Outcome
    requires from in st.saldo && to in st.saldo
  {
    var sender := st.saldo[from].totalBalance;
    var receiver := st.saldo[to].totalBalance;
    if CreateCall.WriteSender in fails then Outcome(st, Err(WriteFailed(SenderSaldo)))
    else if CreateCall.WriteReceiver in fails then
      Outcome(st.(saldo := AfterWrite(SetBalance(st.saldo, from, sender - amount), from, sender, RestoreSender in fails)),
              Err(WriteFailed(ReceiverSaldo)))
    else RecordOutcome(st.(saldo := Moved(st.saldo, from, to, amount)), nextId, from, to, amount, sender, receiver, fails)
  }

  /** `create` once both legs are written: a failed record writes both
      balances read at the start back; a failed "success" mark is not
      compensated and leaves the record "pending". */
  function RecordOutcome(st: State, nextId: int, from: string, to: string, amount: int,
                         sender: int, receiver: int, fails: set<CreateCall>): Outcome
  {
    if CreateTransfer in fails then
      Outcome(st.(saldo := AfterWrite(AfterWrite(st.saldo, from, sender, RollbackSender in fails),
                                      to, receiver, RollbackReceiver in fails)),
              Err(WriteFailed(TransferRecord)))
    else if CreateCall.MarkSuccess in fails then
      Outcome(st.(records := st.records[nextId := Record(TransferOp(from, to, amount), Pending)]),
              Err(WriteFailed(RecordStatus)))
    else
      Outcome(st.(records := st.records[nextId := Record(TransferOp(from, to, amount), Success)]), Ok(nextId))
  }

  method Create(db: Db, valid: bool, from: string, to: string, amount: int, fails: set<CreateCall>)
    returns (r: Result<int>)
    requires db.Valid()
    modifies db
    ensures db.Valid()
    ensures Outcome(db.View(), r) == CreateOutcome(old(db.View()), old(db.nextId), valid, from, to, amount, fails)
  {
    if !valid {
      return Err(ValidationFailed);
    }
    var found := db.FindCard(from, FindSender in fails);
    if !found {
      return Err(NotFound(SenderCard));
    }
    found := db.FindCard(to, FindReceiver in fails);
    if !found {
      return Err(NotFound(ReceiverCard));
    }
    var senderSaldo := db.FindSaldo(from, CreateCall.FindSenderSaldo in fails);
    if senderSaldo.None? {
      return Err(NotFound(SenderSaldo));
    }
    var receiverSaldo := db.FindSaldo(to, CreateCall.FindReceiverSaldo in fails);
    if receiverSaldo.None? {
      return Err(NotFound(ReceiverSaldo));
    }
    if senderSaldo.value.totalBalance < amount {
      return Err(InsufficientBalance);
    }
    r := WriteLegs(db, from, to, amount, senderSaldo.value.totalBalance, receiverSaldo.value.totalBalance, fails);
  }

  /** The writes of `create`, given the two balances it read. The source adjusts
      its copies of the rows in place and writes them; the values written are
      the ones below. */
  method WriteLegs(db: Db, from: string, to: string, amount: int, sender: int, receiver: int,
                   fails: set<CreateCall>)
    returns (r: Result<int>)
    requires db.Valid()
    requires from in db.saldo && to in db.saldo
    requires sender == db.saldo[from].totalBalance && receiver == db.saldo[to].totalBalance
    modifies db
    ensures db.Valid()
    ensures Outcome(db.View(), r) == LegsOutcome(old(db.View()), old(db.nextId), from, to, amount, fails)
  {
    var written := db.UpdateBalance(from, sender - amount, CreateCall.WriteSender in fails);
    if !written {
      return Err(WriteFailed(SenderSaldo));
    }
    assert db.saldo == SetBalance(old(db.saldo), from, sender - amount);
    written := db.UpdateBalance(to, receiver + amount, CreateCall.WriteReceiver in fails);
    if !written {
      var _ := db.UpdateBalance(from, sender, RestoreSender in fails);
      return Err(WriteFailed(ReceiverSaldo));
    }
    assert db.saldo == Moved(old(db.saldo), from, to, amount);
    r := RecordTransfer(db, from, to, amount, sender, receiver, fails);
  }

  /** The record of `create` and its compensation. */
  method RecordTransfer(db: Db, from: string, to: string, amount: int, sender: int, receiver: int,
                        fails: set<CreateCall>)
    returns (r: Result<int>)
    requires db.Valid()
    modifies db
    ensures db.Valid()
    ensures Outcome(db.View(), r) ==
            RecordOutcome(old(db.View()), old(db.nextId), from, to, amount, sender, receiver, fails)
  {
    var created := db.CreateRecord(TransferOp(from, to, amount), CreateTransfer in fails);
    if created.None? {
      var _ := db.UpdateBalance(from, sender, RollbackSender in fails);
      var _ := db.UpdateBalance(to, receiver, RollbackReceiver in fails);
      return Err(WriteFailed(TransferRecord));
    }
    var id := created.value;
    var marked := db.UpdateStatus(Transfers, id, Success, CreateCall.MarkSuccess in fails);
    if !marked {
      return Err(WriteFailed(RecordStatus));
    }
    r := Ok(id);
  }

  /** True when every lookup of `create` finds its row. */
  predicate CreateFinds(st: State, from: string, to: string, fails: set<CreateCall>) {
    from in st.cards && to in st.cards && from in st.saldo && to in st.saldo &&
    FindSender !in fails && FindReceiver !in fails &&
    CreateCall.FindSenderSaldo !in fails && CreateCall.FindReceiverSaldo !in fails
  }

  /** A balance is written only once both cards and both saldo rows were found
      and the sender holds `amount`; a shortfall is reported as such and
      changes nothing. */
  lemma CreateChecksBeforeWriting(st: State, nextId: int, valid: bool, from: string, to: string, amount: int,
                                  fails: set<CreateCall>)
    ensures var o := CreateOutcome(st, nextId, valid, from, to, amount, fails);
            o.after != st ==>
              valid && CreateFinds(st, from, to, fails) && amount <= st.saldo[from].totalBalance
    ensures valid && CreateFinds(st, from, to, fails) && st.saldo[from].totalBalance < amount ==>
              CreateOutcome(st, nextId, valid, from, to, amount, fails) == Outcome(st, Err(InsufficientBalance))
  {
  }

  /** `create` succeeds exactly when every lookup and write went through and
      the funds check passed. Then the sender is debited and the receiver
      credited by exactly `amount`, the money held by all cards is unchanged,
      and the new record is "success" under a fresh id. A self-transfer
      instead leaves the card `amount` richer. */
  lemma CreateSucceeds(st: State, nextId: int, valid: bool, from: string, to: string, amount: int,
                       fails: set<CreateCall>)
    ensures var o := CreateOutcome(st, nextId, valid, from, to, amount, fails);
            o.result.Ok? <==>
              valid && CreateFinds(st, from, to, fails) && amount <= st.saldo[from].totalBalance &&
              CreateCall.WriteSender !in fails && CreateCall.WriteReceiver !in fails &&
              CreateTransfer !in fails && CreateCall.MarkSuccess !in fails
    ensures var o := CreateOutcome(st, nextId, valid, from, to, amount, fails);
            o.result.Ok? ==>
              o.result.value == nextId &&
              o.after.records == st.records[nextId := Record(TransferOp(from, to, amount), Success)] &&
              o.after.saldo.Keys == st.saldo.Keys &&
              (from != to ==>
                 o.after.saldo[from].totalBalance == st.saldo[from].totalBalance - amount &&
                 o.after.saldo[to].totalBalance == st.saldo[to].totalBalance + amount &&
                 Total(o.after.saldo) == Total(st.saldo)) &&
              (from == to ==>
                 o.after.saldo[from].totalBalance == st.saldo[from].totalBalance + amount &&
                 Total(o.after.saldo) == Total(st.saldo) + amount)
  {
    var o := CreateOutcome(st, nextId, valid, from, to, amount, fails);
    if o.result.Ok? {
      assert o.after.saldo == Moved(st.saldo, from, to, amount);
      if from != to {
        MovedConservesTotal(st.saldo, from, to, amount);
      } else {
        SelfTransferAddsAmount(st.saldo, from, amount);
      }
    }
  }

  /** A failed credit puts the sender's balance back, when that write goes
      through: nothing is left changed. */
  lemma CreateRestoresSender(st: State, nextId: int, valid: bool, from: string, to: string, amount: int,
                             fails: set<CreateCall>)
    ensures var o := CreateOutcome(st, nextId, valid, from, to, amount, fails);
            o.result == Err(WriteFailed(ReceiverSaldo)) && RestoreSender !in fails ==> o.after == st
  {
    var o := CreateOutcome(st, nextId, valid, from, to, amount, fails);
    if o.result == Err(WriteFailed(ReceiverSaldo)) {
      SetBalanceUndo(st.saldo, from, st.saldo[from].totalBalance - amount);
    }
  }

  /** A failed record puts both balances back (the same card's included),
      when the two compensating writes go through: nothing is left changed. */
  lemma CreateCompensates(st: State, nextId: int, valid: bool, from: string, to: string, amount: int,
                          fails: set<CreateCall>)
    ensures var o := CreateOutcome(st, nextId, valid, from, to, amount, fails);
            (o.result == Err(WriteFailed(TransferRecord)) &&
             RollbackSender !in fails && RollbackReceiver !in fails) ==> o.after == st
  {
    var o := CreateOutcome(st, nextId, valid, from, to, amount, fails);
    if o.result == Err(WriteFailed(TransferRecord)) {
      BothUndone(st.saldo, from, to, st.saldo[from].totalBalance - amount, st.saldo[to].totalBalance + amount);
    }
  }

  /** The failures that are not compensated: when the sender's restore fails
      too, the sender stays debited with nothing credited; when only the
      "success" mark fails, both legs stay written and the record stays "pending". */
  lemma CreateLeavesUncompensated(st: State, nextId: int, valid: bool, from: string, to: string, amount: int,
                                  fails: set<CreateCall>)
    requires valid && CreateFinds(st, from, to, fails) && amount <= st.saldo[from].totalBalance
    requires CreateCall.WriteSender !in fails
    ensures CreateCall.WriteReceiver in fails && RestoreSender in fails ==>
              CreateOutcome(st, nextId, valid, from, to, amount, fails) ==
              Outcome(st.(saldo := SetBalance(st.saldo, from, st.saldo[from].totalBalance - amount)),
                      Err(WriteFailed(ReceiverSaldo)))
    ensures CreateCall.WriteReceiver !in fails && CreateTransfer !in fails && CreateCall.MarkSuccess in fails ==>
              CreateOutcome(st, nextId, valid, from, to, amount, fails) ==
              Outcome(st.(saldo := Moved(st.saldo, from, to, amount),
                          records := st.records[nextId := Record(TransferOp(from, to, amount), Pending)]),
                      Err(WriteFailed(RecordStatus)))
  {
  }

  // ---- update ---------------------------------------------------------------

  /** What `update` leaves and returns: the lookups of the transfer and of its
      recorded sender's row, then the check that the sender can give the
      difference between the request's amount and the recorded one (refused,
      and the transfer marked "failed", when that leaves it below zero), then
      the sender's write. */
  function UpdateOutcome(st: State, valid: bool, transferId: Option<int>, from: string, to: string, amount: int,
                         fails: set<UpdateCall>): Outcome
  {
    if !valid then Outcome(st, Err(ValidationFailed))
    else if transferId.None? then Outcome(st, Err(IdRequired))
    else
      var id := transferId.value;
      if FindTransfer in fails || !HasRow(st.records, Transfers, id) then Outcome(st, Err(NotFound(TransferRecord)))
      else
        var row := st.records[id].op;
        var diff := amount - row.amount;
        if UpdateCall.FindSenderSaldo in fails || row.from !in st.saldo then Outcome(st, Err(NotFound(SenderSaldo)))
        else
          var sender := st.saldo[row.from].totalBalance - diff;
          if sender < 0 then
            Outcome(st.(records := AfterStatus(st.records, Transfers, id, Failed, MarkFailedInsufficient in fails)),
                    Err(InsufficientBalance))
          else if UpdateCall.WriteSender in fails then Outcome(st, Err(WriteFailed(SenderSaldo)))
          else CreditOutcome(st.(saldo := SetBalance(st.saldo, row.from, sender)), id, row, from, to, amount, sender, fails)
  }

  /** `update` once the sender's new balance `sender` is written: the receiver's
      row is read now, after that write. A failure puts the sender's balance
      back, and the receiver's if it was written, and marks the transfer "failed". */
  function CreditOutcome(st: State, id: int, row: Operation, from: string, to: string, amount: int, sender: int,
                         fails: set<UpdateCall>): Outcome
    requires row.TransferOp? && HasRow(st.records, Transfers, id)
  {
    var diff := amount - row.amount;
    if UpdateCall.FindReceiverSaldo in fails || row.to !in st.saldo then
      Outcome(st.(saldo := AfterWrite(st.saldo, row.from, sender + diff, RestoreSenderNoReceiver in fails),
                  records := AfterStatus(st.records, Transfers, id, Failed, MarkFailedNoReceiver in fails)),
              Err(NotFound(ReceiverSaldo)))
    else
      var receiver := st.saldo[row.to].totalBalance + diff;
      if UpdateCall.WriteReceiver in fails then
        Outcome(st.(saldo := AfterWrite(AfterWrite(st.saldo, row.from, sender + diff, RestoreSenderNoWrite in fails),
                                        row.to, receiver - diff, RestoreReceiverNoWrite in fails),
                    records := AfterStatus(st.records, Transfers, id, Failed, MarkFailedNoWrite in fails)),
                Err(WriteFailed(ReceiverSaldo)))
      else FinishOutcome(st.(saldo := SetBalance(st.saldo, row.to, receiver)), id, row, from, to, amount, sender, receiver, fails)
  }

  /** `update` once both legs are written: the record takes the request's
      cards and amount and keeps its status, then is marked "success"; a failed
      record update puts both balances back and marks the transfer "failed". */
  function FinishOutcome(st: State, id: int, row: Operation, from: string, to: string, amount: int,
                         sender: int, receiver: int, fails: set<UpdateCall>): Outcome
    requires row.TransferOp? && HasRow(st.records, Transfers, id)
  {
    var diff := amount - row.amount;
    if UpdateTransfer in fails then
      Outcome(st.(saldo := AfterWrite(AfterWrite(st.saldo, row.from, sender + diff, RestoreSenderNoUpdate in fails),
                                      row.to, receiver - diff, RestoreReceiverNoUpdate in fails),
                  records := AfterStatus(st.records, Transfers, id, Failed, MarkFailedNoUpdate in fails)),
              Err(WriteFailed(TransferRecord)))
    else if UpdateCall.MarkSuccess in fails then
      Outcome(st.(records := st.records[id := Record(TransferOp(from, to, amount), st.records[id].status)]),
              Err(WriteFailed(RecordStatus)))
    else
      Outcome(st.(records := st.records[id := Record(TransferOp(from, to, amount), Success)]), Ok(id))
  }

  method Update(db: Db, valid: bool, transferId: Option<int>, from: string, to: string, amount: int,
                fails: set<UpdateCall>)
    returns (r: Result<int>)
    requires db.Valid()
    modifies db
    ensures db.Valid()
    ensures Outcome(db.View(), r) == UpdateOutcome(old(db.View()), valid, transferId, from, to, amount, fails)
  {
    if !valid {
      return Err(ValidationFailed);
    }
    if transferId.None? {
      return Err(IdRequired);
    }
    var id := transferId.value;
    var transfer := db.FindRecord(Transfers, id, FindTransfer in fails);
    if transfer.None? {
      return Err(NotFound(TransferRecord));
    }
    var row := transfer.value.op;
    var diff := amount - row.amount;
    var senderSaldo := db.FindSaldo(row.from, UpdateCall.FindSenderSaldo in fails);
    if senderSaldo.None? {
      return Err(NotFound(SenderSaldo));
    }
    var sender := senderSaldo.value.totalBalance - diff;
    if sender < 0 {
      var _ := db.UpdateStatus(Transfers, id, Failed, MarkFailedInsufficient in fails);
      return Err(InsufficientBalance);
    }
    var written := db.UpdateBalance(row.from, sender, UpdateCall.WriteSender in fails);
    if !written {
      return Err(WriteFailed(SenderSaldo));
    }
    r := UpdateCredit(db, id, row, from, to, amount, sender, fails);
  }

  /** The receiver's side of `update`, after the sender's write. */
  method UpdateCredit(db: Db, id: int, row: Operation, from: string, to: string, amount: int, sender: int,
                      fails: set<UpdateCall>)
    returns (r: Result<int>)
    requires db.Valid() && row.TransferOp? && HasRow(db.records, Transfers, id)
    modifies db
    ensures db.Valid()
    ensures Outcome(db.View(), r) == CreditOutcome(old(db.View()), id, row, from, to, amount, sender, fails)
  {
    var diff := amount - row.amount;
    var receiverSaldo := db.FindSaldo(row.to, UpdateCall.FindReceiverSaldo in fails);
    if receiverSaldo.None? {
      var _ := db.UpdateBalance(row.from, sender + diff, RestoreSenderNoReceiver in fails);
      var _ := db.UpdateStatus(Transfers, id, Failed, MarkFailedNoReceiver in fails);
      return Err(NotFound(ReceiverSaldo));
    }
    var receiver := receiverSaldo.value.totalBalance + diff;
    var written := db.UpdateBalance(row.to, receiver, UpdateCall.WriteReceiver in fails);
    if !written {
      var _ := db.UpdateBalance(row.from, sender + diff, RestoreSenderNoWrite in fails);
      var _ := db.UpdateBalance(row.to, receiver - diff, RestoreReceiverNoWrite in fails);
      var _ := db.UpdateStatus(Transfers, id, Failed, MarkFailedNoWrite in fails);
      return Err(WriteFailed(ReceiverSaldo));
    }
    r := UpdateFinish(db, id, row, from, to, amount, sender, receiver, fails);
  }

  /** The record update and status mark of `update`, after both legs. */
  method UpdateFinish(db: Db, id: int, row: Operation, from: string, to: string, amount: int,
                      sender: int, receiver: int, fails: set<UpdateCall>)
    returns (r: Result<int>)
    requires db.Valid() && row.TransferOp? && HasRow(db.records, Transfers, id)
    modifies db
    ensures db.Valid()
    ensures Outcome(db.View(), r) ==
            FinishOutcome(old(db.View()), id, row, from, to, amount, sender, receiver, fails)
  {
    var diff := amount - row.amount;
    var updated := db.UpdateRecord(id, TransferOp(from, to, amount), UpdateTransfer in fails);
    if !updated {
      var _ := db.UpdateBalance(row.from, sender + diff, RestoreSenderNoUpdate in fails);
      var _ := db.UpdateBalance(row.to, receiver - diff, RestoreReceiverNoUpdate in fails);
      var _ := db.UpdateStatus(Transfers, id, Failed, MarkFailedNoUpdate in fails);
      return Err(WriteFailed(TransferRecord));
    }
    var marked := db.UpdateStatus(Transfers, id, Success, UpdateCall.MarkSuccess in fails);
    if !marked {
      return Err(WriteFailed(RecordStatus));
    }
    r := Ok(id);
  }

  /** True when `update` finds the transfer `id` and its recorded sender's row. */
  predicate UpdateFinds(st: State, transferId: Option<int>, fails: set<UpdateCall>) {
    transferId.Some? && HasRow(st.records, Transfers, transferId.value) &&
    st.records[transferId.value].op.from in st.saldo &&
    FindTransfer !in fails && UpdateCall.FindSenderSaldo !in fails
  }

  /** No balance is written unless the transfer and its sender's row were found
      and the sender's new balance is at least zero; below zero the transfer is
      marked "failed" (unless that mark errors) and no balance changes. */
  lemma UpdateChecksBeforeWriting(st: State, valid: bool, transferId: Option<int>, from: string, to: string,
                                  amount: int, fails: set<UpdateCall>)
    ensures var o := UpdateOutcome(st, valid, transferId, from, to, amount, fails);
            o.after.saldo != st.saldo ==>
              valid && UpdateFinds(st, transferId, fails) &&
              var row := st.records[transferId.value].op;
              st.saldo[row.from].totalBalance - (amount - row.amount) >= 0
    ensures var o := UpdateOutcome(st, valid, transferId, from, to, amount, fails);
            o.result == Err(InsufficientBalance) ==>
              transferId.Some? && transferId.value in st.records &&
              o.after.saldo == st.saldo &&
              var id := transferId.value;
              o.after.records == if MarkFailedInsufficient in fails then st.records
                                 else st.records[id := Record(st.records[id].op, Failed)]
  {
  }

  /** `update` succeeds exactly when every call up to the "success" mark went
      through and the sender could give the difference. Then the recorded
      sender gives and the recorded receiver gets exactly the difference (a
      self-transfer is left unchanged), the money held by all cards is unchanged,
      and the record holds the request's cards and amount with status "success". */
  lemma UpdateSucceeds(st: State, valid: bool, transferId: Option<int>, from: string, to: string, amount: int,
                       fails: set<UpdateCall>)
    ensures var o := UpdateOutcome(st, valid, transferId, from, to, amount, fails);
            o.result.Ok? <==>
              valid && UpdateFinds(st, transferId, fails) &&
              var row := st.records[transferId.value].op;
              row.to in st.saldo &&
              st.saldo[row.from].totalBalance - (amount - row.amount) >= 0 &&
              UpdateCall.WriteSender !in fails && UpdateCall.FindReceiverSaldo !in fails &&
              UpdateCall.WriteReceiver !in fails && UpdateTransfer !in fails && UpdateCall.MarkSuccess !in fails
    ensures var o := UpdateOutcome(st, valid, transferId, from, to, amount, fails);
            o.result.Ok? ==>
              transferId.Some? && HasRow(st.records, Transfers, transferId.value) &&
              var id := transferId.value;
              var row := st.records[id].op;
              var diff := amount - row.amount;
              row.from in st.saldo && row.to in st.saldo &&
              o.result.value == id &&
              o.after.records == st.records[id := Record(TransferOp(from, to, amount), Success)] &&
              o.after.saldo.Keys == st.saldo.Keys &&
              Total(o.after.saldo) == Total(st.saldo) &&
              (row.from != row.to ==>
                 o.after.saldo[row.from].totalBalance == st.saldo[row.from].totalBalance - diff &&
                 o.after.saldo[row.to].totalBalance == st.saldo[row.to].totalBalance + diff) &&
              (row.from == row.to ==> o.after.saldo[row.from] == st.saldo[row.from])
  {
    var o := UpdateOutcome(st, valid, transferId, from, to, amount, fails);
    if o.result.Ok? {
      var row := st.records[transferId.value].op;
      var diff := amount - row.amount;
      assert o.after.saldo == Rebalanced(st.saldo, row.from, row.to, diff);
      RebalancedConservesTotal(st.saldo, row.from, row.to, diff);
    }
  }

  /** A receiver row that cannot be read after the sender's write puts the
      sender's balance back, when that write goes through. */
  lemma UpdateRestoresSender(st: State, valid: bool, transferId: Option<int>, from: string, to: string,
                             amount: int, fails: set<UpdateCall>)
    requires transferId.Some? && HasRow(st.records, Transfers, transferId.value)
    ensures var o := UpdateOutcome(st, valid, transferId, from, to, amount, fails);
            o.result == Err(NotFound(ReceiverSaldo)) && RestoreSenderNoReceiver !in fails ==>
              o.after.saldo == st.saldo
  {
    var row := st.records[transferId.value].op;
    var diff := amount - row.amount;
    if row.from in st.saldo {
      var sender := st.saldo[row.from].totalBalance - diff;
      assert sender + diff == st.saldo[row.from].totalBalance;
      SetBalanceUndo(st.saldo, row.from, sender);
    }
  }

  /** Between distinct cards, a failed credit puts both balances back, when the
      compensating writes go through. */
  lemma UpdateRestoresBothNoWrite(st: State, valid: bool, transferId: Option<int>, from: string, to: string,
                                  amount: int, fails: set<UpdateCall>)
    requires transferId.Some? && HasRow(st.records, Transfers, transferId.value)
    requires st.records[transferId.value].op.from != st.records[transferId.value].op.to
    ensures var o := UpdateOutcome(st, valid, transferId, from, to, amount, fails);
            o.result == Err(WriteFailed(ReceiverSaldo)) &&
            RestoreSenderNoWrite !in fails && RestoreReceiverNoWrite !in fails ==>
              o.after.saldo == st.saldo
  {
    var row := st.records[transferId.value].op;
    var diff := amount - row.amount;
    if row.from in st.saldo && row.to in st.saldo {
      var sender := st.saldo[row.from].totalBalance - diff;
      var receiver := st.saldo[row.to].totalBalance + diff;
      assert sender + diff == st.saldo[row.from].totalBalance;
      assert receiver - diff == st.saldo[row.to].totalBalance;
      BothUndone(st.saldo, row.from, row.to, sender, receiver);
    }
  }

  /** Between distinct cards, a failed record update puts both balances back,
      when the compensating writes go through. */
  lemma UpdateRestoresBothNoUpdate(st: State, valid: bool, transferId: Option<int>, from: string, to: string,
                                   amount: int, fails: set<UpdateCall>)
    requires transferId.Some? && HasRow(st.records, Transfers, transferId.value)
    requires st.records[transferId.value].op.from != st.records[transferId.value].op.to
    ensures var o := UpdateOutcome(st, valid, transferId, from, to, amount, fails);
            o.result == Err(WriteFailed(TransferRecord)) &&
            RestoreSenderNoUpdate !in fails && RestoreReceiverNoUpdate !in fails ==>
              o.after.saldo == st.saldo
  {
    var row := st.records[transferId.value].op;
    var diff := amount - row.amount;
    if row.from in st.saldo && row.to in st.saldo {
      var sender := st.saldo[row.from].totalBalance - diff;
      var receiver := st.saldo[row.to].totalBalance + diff;
      assert sender + diff == st.saldo[row.from].totalBalance;
      assert receiver - diff == st.saldo[row.to].totalBalance;
      BothUndone(st.saldo, row.from, row.to, sender, receiver);
    }
  }

  /** Writing one row twice leaves the second value. */
  lemma WrittenTwice(s: Saldos, card: string, first: int, second: int)
    requires card in s
    ensures SetBalance(SetBalance(s, card, first), card, second) == SetBalance(s, card, second)
  {
    assert SetBalance(SetBalance(s, card, first), card, second)[card] == SetBalance(s, card, second)[card];
  }

  /** On a transfer from a card to itself the two compensating writes of a
      failed credit do not cancel: the sender's restore brings the card back,
      and the receiver's restore then takes the difference off again, so the
      card ends the difference short. */
  lemma UpdateSelfTransferLosesDifferenceNoWrite(st: State, valid: bool, transferId: Option<int>, from: string,
                                                 to: string, amount: int, fails: set<UpdateCall>)
    requires transferId.Some? && HasRow(st.records, Transfers, transferId.value)
    requires st.records[transferId.value].op.from == st.records[transferId.value].op.to
    ensures var o := UpdateOutcome(st, valid, transferId, from, to, amount, fails);
            var row := st.records[transferId.value].op;
            o.result == Err(WriteFailed(ReceiverSaldo)) &&
            RestoreSenderNoWrite !in fails && RestoreReceiverNoWrite !in fails ==>
              row.from in st.saldo &&
              o.after.saldo == SetBalance(st.saldo, row.from, st.saldo[row.from].totalBalance - (amount - row.amount))
  {
    var row := st.records[transferId.value].op;
    var diff := amount - row.amount;
    if row.from in st.saldo {
      var before := st.saldo[row.from].totalBalance;
      assert before - diff + diff == before;
      WrittenTwice(st.saldo, row.from, before - diff, before);
      WrittenTwice(st.saldo, row.from, before, before - diff);
    }
  }

  /** The same on a failed record update: after both legs and both restores
      a card that sent to itself ends the difference short. */
  lemma UpdateSelfTransferLosesDifferenceNoUpdate(st: State, valid: bool, transferId: Option<int>, from: string,
                                                  to: string, amount: int, fails: set<UpdateCall>)
    requires transferId.Some? && HasRow(st.records, Transfers, transferId.value)
    requires st.records[transferId.value].op.from == st.records[transferId.value].op.to
    ensures var o := UpdateOutcome(st, valid, transferId, from, to, amount, fails);
            var row := st.records[transferId.value].op;
            o.result == Err(WriteFailed(TransferRecord)) &&
            RestoreSenderNoUpdate !in fails && RestoreReceiverNoUpdate !in fails ==>
              row.from in st.saldo &&
              o.after.saldo == SetBalance(st.saldo, row.from, st.saldo[row.from].totalBalance - (amount - row.amount))
  {
    var row := st.records[transferId.value].op;
    var diff := amount - row.amount;
    if row.from in st.saldo {
      var before := st.saldo[row.from].totalBalance;
      assert before - diff + diff == before;
      WrittenTwice(st.saldo, row.from, before - diff, before);
      WrittenTwice(st.saldo, row.from, before, before);
      WrittenTwice(st.saldo, row.from, before, before - diff);
    }
  }

  /** A failed "success" mark after both legs and the record update is not
      compensated: both legs stay written, the record keeps the request's
      cards and amount, and its status is left as it was. */
  lemma UpdateLeavesOnMarkFailure(st: State, valid: bool, transferId: Option<int>, from: string, to: string,
                                  amount: int, fails: set<UpdateCall>)
    ensures var o := UpdateOutcome(st, valid, transferId, from, to, amount, fails);
            o.result == Err(WriteFailed(RecordStatus)) ==>
              UpdateFinds(st, transferId, fails) &&
              var id := transferId.value;
              var row := st.records[id].op;
              row.to in st.saldo && UpdateCall.MarkSuccess in fails &&
              o.after.saldo == Rebalanced(st.saldo, row.from, row.to, amount - row.amount) &&
              o.after.records == st.records[id := Record(TransferOp(from, to, amount), st.records[id].status)]
  {
  }

  /** Every failure between the sender's write and the record update marks
      the transfer "failed", unless that mark errors. */
  lemma UpdateMarksFailed(st: State, valid: bool, transferId: Option<int>, from: string, to: string,
                          amount: int, fails: set<UpdateCall>)
    requires transferId.Some? && HasRow(st.records, Transfers, transferId.value)
    ensures var o := UpdateOutcome(st, valid, transferId, from, to, amount, fails);
            (o.result == Err(NotFound(ReceiverSaldo)) && MarkFailedNoReceiver !in fails) ||
            (o.result == Err(WriteFailed(ReceiverSaldo)) && MarkFailedNoWrite !in fails) ||
            (o.result == Err(WriteFailed(TransferRecord)) && MarkFailedNoUpdate !in fails) ==>
              var id := transferId.value;
              o.after.records == st.records[id := Record(st.records[id].op, Failed)]
  {
  }
}
