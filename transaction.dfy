/** `TransactionCommandService`: a purchase at a merchant identified by its API
    key. `create` debits the customer's card, records the transaction, marks it
    "success" and only then credits the merchant's card; `update` credits the
    recorded amount back and debits the new one. Each method is specified by a
    function giving the store it leaves and the value it returns; the lemmas
    below state what the source promises about those functions. */
module TransactionService {
  import opened Common
  import opened Balances
  import opened Ledger

  /** The repository calls of `create`, in program order. */
  datatype CreateCall =
    | FindMerchant | FindCard | FindSaldo | WriteSaldo | CreateTransaction | RestoreSaldo
    | MarkSuccess | FindMerchantCard | FindMerchantSaldo | WriteMerchantSaldo

  /** The repository calls of `update`, in program order. */
  datatype UpdateCall =
    | FindTransaction | FindMerchant | MarkFailedUnauthorized | FindCard | FindSaldo
    | WriteRestored | MarkFailedNoRestore | MarkFailedInsufficient | WriteCharged
    | UpdateTransaction | MarkSuccess

  // ---- create ---------------------------------------------------------------

  /** What `create` leaves and returns: the merchant, card and saldo lookups,
      the funds check (`balance < amount` rejects), the debit, then a "pending"
      record under `nextId` carrying the merchant's id; a failed record writes
      the balance read before back. */
  function CreateOutcome(st: State, nextId: int, valid: bool, apiKey: string, card: string, amount: int,
                         paymentMethod: string, fails: set<CreateCall>): Outcome
  {
    if !valid then Outcome(st, Err(ValidationFailed))
    else if CreateCall.FindMerchant in fails || apiKey !in st.merchants then Outcome(st, Err(NotFound(Entity.Merchant)))
    else if CreateCall.FindCard in fails || card !in st.cards then Outcome(st, Err(NotFound(Card)))
    else if CreateCall.FindSaldo in fails || card !in st.saldo then Outcome(st, Err(NotFound(CardSaldo)))
    else
      var before := st.saldo[card].totalBalance;
      if before < amount then Outcome(st, Err(InsufficientBalance))
      else if WriteSaldo in fails then Outcome(st, Err(WriteFailed(CardSaldo)))
      else
        var debited := SetBalance(st.saldo, card, before - amount);
        if CreateTransaction in fails then
          Outcome(st.(saldo := AfterWrite(debited, card, before, RestoreSaldo in fails)),
                  Err(WriteFailed(TransactionRecord)))
        else
          var merchant := st.merchants[apiKey];
          var op := TransactionOp(card, amount, paymentMethod, merchant.merchantId);
          SettleOutcome(st.(saldo := debited, records := st.records[nextId := Record(op, Pending)]),
                        nextId, merchant.userId, amount, fails)
  }

  /** `create` once the debit and the record are written: the record is
      marked "success", then the merchant's card (the one its user owns) is
      read and credited with `amount`. None of these failures is compensated. */
  function SettleOutcome(st: State, id: int, merchantUser: int, amount: int, fails: set<CreateCall>): Outcome
    requires HasRow(st.records, Transactions, id)
  {
    if CreateCall.MarkSuccess in fails then Outcome(st, Err(WriteFailed(RecordStatus)))
    else
      var marked := st.(records := AfterStatus(st.records, Transactions, id, Success, false));
      if FindMerchantCard in fails || merchantUser !in st.userCards then Outcome(marked, Err(NotFound(MerchantCard)))
      else
        var merchantCard := st.userCards[merchantUser];
        if FindMerchantSaldo in fails || merchantCard !in st.saldo then Outcome(marked, Err(NotFound(MerchantSaldo)))
        else if WriteMerchantSaldo in fails then Outcome(marked, Err(WriteFailed(MerchantSaldo)))
        else
          Outcome(marked.(saldo := SetBalance(st.saldo, merchantCard, st.saldo[merchantCard].totalBalance + amount)),
                  Ok(id))
  }

  method Create(db: Db, valid: bool, apiKey: string, card: string, amount: int, paymentMethod: string,
                fails: set<CreateCall>)
    returns (r: Result<int>)
    requires db.Valid()
    modifies db
    ensures db.Valid()
    ensures Outcome(db.View(), r) ==
            CreateOutcome(old(db.View()), old(db.nextId), valid, apiKey, card, amount, paymentMethod, fails)
  {
    if !valid {
      return Err(ValidationFailed);
    }
    var merchant := db.FindMerchantByApiKey(apiKey, CreateCall.FindMerchant in fails);
    if merchant.None? {
      return Err(NotFound(Entity.Merchant));
    }
    var found := db.FindCard(card, CreateCall.FindCard in fails);
    if !found {
      return Err(NotFound(Card));
    }
    var saldo := db.FindSaldo(card, CreateCall.FindSaldo in fails);
    if saldo.None? {
      return Err(NotFound(CardSaldo));
    }
    var before := saldo.value.totalBalance;
    if before < amount {
      return Err(InsufficientBalance);
    }
    var written := db.UpdateBalance(card, before - amount, WriteSaldo in fails);
    if !written {
      return Err(WriteFailed(CardSaldo));
    }
    assert db.saldo == SetBalance(old(db.saldo), card, before - amount);
    var created := db.CreateRecord(TransactionOp(card, amount, paymentMethod, merchant.value.merchantId),
                                   CreateTransaction in fails);
    if created.None? {
      var _ := db.UpdateBalance(card, before, RestoreSaldo in fails);
      return Err(WriteFailed(TransactionRecord));
    }
    r := Settle(db, created.value, merchant.value.userId, amount, fails);
  }

  /** The "success" mark and the merchant's credit of `create`. */
  method Settle(db: Db, id: int, merchantUser: int, amount: int, fails: set<CreateCall>)
    returns (r: Result<int>)
    requires db.Valid() && HasRow(db.records, Transactions, id)
    modifies db
    ensures db.Valid()
    ensures Outcome(db.View(), r) == SettleOutcome(old(db.View()), id, merchantUser, amount, fails)
  {
    var marked := db.UpdateStatus(Transactions, id, Success, CreateCall.MarkSuccess in fails);
    if !marked {
      return Err(WriteFailed(RecordStatus));
    }
    var merchantCard := db.FindCardByUserId(merchantUser, FindMerchantCard in fails);
    if merchantCard.None? {
      return Err(NotFound(MerchantCard));
    }
    var merchantSaldo := db.FindSaldo(merchantCard.value, FindMerchantSaldo in fails);
    if merchantSaldo.None? {
      return Err(NotFound(MerchantSaldo));
    }
    var written := db.UpdateBalance(merchantCard.value, merchantSaldo.value.totalBalance + amount,
                                    WriteMerchantSaldo in fails);
    if !written {
      return Err(WriteFailed(MerchantSaldo));
    }
    r := Ok(id);
  }

  /** True when the merchant, card and saldo lookups of `create` find their rows. */
  predicate CreateFinds(st: State, apiKey: string, card: string, fails: set<CreateCall>) {
    apiKey in st.merchants && card in st.cards && card in st.saldo &&
    CreateCall.FindMerchant !in fails && CreateCall.FindCard !in fails && CreateCall.FindSaldo !in fails
  }

  /** Nothing is written unless the merchant, the card and its saldo were found
      and the balance covers `amount`; a shortfall is reported as such. */
  lemma CreateChecksBeforeWriting(st: State, nextId: int, valid: bool, apiKey: string, card: string, amount: int,
                                  paymentMethod: string, fails: set<CreateCall>)
    ensures var o := CreateOutcome(st, nextId, valid, apiKey, card, amount, paymentMethod, fails);
            o.after != st ==> valid && CreateFinds(st, apiKey, card, fails) && amount <= st.saldo[card].totalBalance
    ensures valid && CreateFinds(st, apiKey, card, fails) && st.saldo[card].totalBalance < amount ==>
              CreateOutcome(st, nextId, valid, apiKey, card, amount, paymentMethod, fails) ==
              Outcome(st, Err(InsufficientBalance))
  {
  }

  /** `create` succeeds exactly when every lookup and write went through and
      the balance covered `amount`. */
  lemma CreateSucceeds(st: State, nextId: int, valid: bool, apiKey: string, card: string, amount: int,
                       paymentMethod: string, fails: set<CreateCall>)
    ensures var o := CreateOutcome(st, nextId, valid, apiKey, card, amount, paymentMethod, fails);
            o.result.Ok? <==>
              valid && CreateFinds(st, apiKey, card, fails) && amount <= st.saldo[card].totalBalance &&
              st.merchants[apiKey].userId in st.userCards && st.userCards[st.merchants[apiKey].userId] in st.saldo &&
              WriteSaldo !in fails && CreateTransaction !in fails && CreateCall.MarkSuccess !in fails &&
              FindMerchantCard !in fails && FindMerchantSaldo !in fails && WriteMerchantSaldo !in fails
  {
  }

  /** After a successful `create` the record is "success" and carries the
      merchant's id and, for a merchant card other than the customer's, the
      customer holds exactly `amount` less, the merchant exactly `amount` more,
      and the money held by all cards is unchanged. */
  lemma CreatePaysMerchant(st: State, nextId: int, valid: bool, apiKey: string, card: string, amount: int,
                           paymentMethod: string, fails: set<CreateCall>)
    ensures var o := CreateOutcome(st, nextId, valid, apiKey, card, amount, paymentMethod, fails);
            o.result.Ok? ==>
              CreateFinds(st, apiKey, card, fails) && st.merchants[apiKey].userId in st.userCards &&
              var merchant := st.merchants[apiKey];
              var merchantCard := st.userCards[merchant.userId];
              merchantCard in st.saldo && o.result.value == nextId &&
              o.after.records ==
                st.records[nextId := Record(TransactionOp(card, amount, paymentMethod, merchant.merchantId), Success)] &&
              o.after.saldo.Keys == st.saldo.Keys &&
              (merchantCard != card ==>
                 o.after.saldo[card].totalBalance == st.saldo[card].totalBalance - amount &&
                 o.after.saldo[merchantCard].totalBalance == st.saldo[merchantCard].totalBalance + amount &&
                 Total(o.after.saldo) == Total(st.saldo))
  {
    var o := CreateOutcome(st, nextId, valid, apiKey, card, amount, paymentMethod, fails);
    if o.result.Ok? {
      var merchantCard := st.userCards[st.merchants[apiKey].userId];
      var before := st.saldo[card].totalBalance;
      var debited := SetBalance(st.saldo, card, before - amount);
      TotalSetBalance(st.saldo, card, before - amount);
      TotalSetBalance(debited, merchantCard, debited[merchantCard].totalBalance + amount);
      assert o.after.saldo == SetBalance(debited, merchantCard, debited[merchantCard].totalBalance + amount);
    }
  }

  /** The funds check is strict: a purchase of the whole balance goes through
      and leaves the customer's card at zero. */
  lemma CreateAcceptsWholeBalance(st: State, nextId: int, apiKey: string, card: string, paymentMethod: string)
    requires CreateFinds(st, apiKey, card, {})
    requires st.merchants[apiKey].userId in st.userCards
    requires st.userCards[st.merchants[apiKey].userId] in st.saldo
    requires st.userCards[st.merchants[apiKey].userId] != card
    ensures var o := CreateOutcome(st, nextId, true, apiKey, card, st.saldo[card].totalBalance, paymentMethod, {});
            o.result == Ok(nextId) && o.after.saldo[card].totalBalance == 0
  {
    CreateSucceeds(st, nextId, true, apiKey, card, st.saldo[card].totalBalance, paymentMethod, {});
    CreatePaysMerchant(st, nextId, true, apiKey, card, st.saldo[card].totalBalance, paymentMethod, {});
  }

  /** A failed record writes the balance read before back, when that write
      goes through: nothing is left changed. */
  lemma CreateRestoresOnRecordFailure(st: State, nextId: int, valid: bool, apiKey: string, card: string, amount: int,
                                      paymentMethod: string, fails: set<CreateCall>)
    ensures var o := CreateOutcome(st, nextId, valid, apiKey, card, amount, paymentMethod, fails);
            o.result == Err(WriteFailed(TransactionRecord)) && RestoreSaldo !in fails ==> o.after == st
  {
    var o := CreateOutcome(st, nextId, valid, apiKey, card, amount, paymentMethod, fails);
    if o.result == Err(WriteFailed(TransactionRecord)) {
      SetBalanceUndo(st.saldo, card, st.saldo[card].totalBalance - amount);
    }
  }

  /** A failure from the "success" mark on is not compensated: the customer
      stays debited, the record stays (marked "success" once that mark went
      through), and the merchant is not credited. */
  lemma CreateLeavesDebit(st: State, nextId: int, valid: bool, apiKey: string, card: string, amount: int,
                          paymentMethod: string, fails: set<CreateCall>)
    ensures var o := CreateOutcome(st, nextId, valid, apiKey, card, amount, paymentMethod, fails);
            o.result in {Err(WriteFailed(RecordStatus)), Err(NotFound(MerchantCard)), Err(NotFound(MerchantSaldo)),
                         Err(WriteFailed(MerchantSaldo))} ==>
              card in st.saldo && apiKey in st.merchants &&
              o.after.saldo == SetBalance(st.saldo, card, st.saldo[card].totalBalance - amount) &&
              o.after.records == st.records[nextId := Record(
                TransactionOp(card, amount, paymentMethod, st.merchants[apiKey].merchantId),
                if o.result == Err(WriteFailed(RecordStatus)) then Pending else Success)]
  {
  }

  // ---- update ---------------------------------------------------------------

  /** What `update` leaves and returns: the transaction and the merchant of
      `apiKey` are read, and a merchant other than the transaction's marks it
      "failed" and is refused; then the transaction's card and saldo are read
      and the recorded amount is credited back (a failed write marks it "failed"). */
  function UpdateOutcome(st: State, valid: bool, transactionId: Option<int>, apiKey: string, amount: int,
                         paymentMethod: string, fails: set<UpdateCall>): Outcome
  {
    if !valid then Outcome(st, Err(ValidationFailed))
    else if transactionId.None? then Outcome(st, Err(IdRequired))
    else
      var id := transactionId.value;
      if FindTransaction in fails || !HasRow(st.records, Transactions, id) then
        Outcome(st, Err(NotFound(TransactionRecord)))
      else
        var row := st.records[id].op;
        if UpdateCall.FindMerchant in fails || apiKey !in st.merchants then Outcome(st, Err(NotFound(Entity.Merchant)))
        else if row.merchantId != st.merchants[apiKey].merchantId then
          Outcome(st.(records := AfterStatus(st.records, Transactions, id, Failed, MarkFailedUnauthorized in fails)),
                  Err(UnauthorizedAccess))
        else if UpdateCall.FindCard in fails || row.card !in st.cards then Outcome(st, Err(NotFound(Card)))
        else if UpdateCall.FindSaldo in fails || row.card !in st.saldo then Outcome(st, Err(NotFound(CardSaldo)))
        else
          var restored := st.saldo[row.card].totalBalance + row.amount;
          if WriteRestored in fails then
            Outcome(st.(records := AfterStatus(st.records, Transactions, id, Failed, MarkFailedNoRestore in fails)),
                    Err(RestoreFailed))
          else ChargeOutcome(st.(saldo := SetBalance(st.saldo, row.card, restored)), id, row, restored, amount,
                             paymentMethod, fails)
  }

  /** `update` once the recorded amount is credited back to `restored`: below
      the new amount the transaction is marked "failed" and the credit stays;
      otherwise the new amount is debited, the record takes it narrowed with
      `as i32`, and the record is marked "success". Failures of these writes
      are not compensated. */
  function ChargeOutcome(st: State, id: int, row: Operation, restored: int, amount: int, paymentMethod: string,
                         fails: set<UpdateCall>): Outcome
    requires row.TransactionOp? && row.card in st.saldo && HasRow(st.records, Transactions, id)
  {
    if restored < amount then
      Outcome(st.(records := AfterStatus(st.records, Transactions, id, Failed, MarkFailedInsufficient in fails)),
              Err(InsufficientBalance))
    else if WriteCharged in fails then Outcome(st, Err(WriteFailed(CardSaldo)))
    else
      var charged := st.(saldo := SetBalance(st.saldo, row.card, restored - amount));
      if UpdateTransaction in fails then Outcome(charged, Err(WriteFailed(TransactionRecord)))
      else
        var op := TransactionOp(row.card, ToI32(amount), paymentMethod, row.merchantId);
        if UpdateCall.MarkSuccess in fails then
          Outcome(charged.(records := st.records[id := Record(op, st.records[id].status)]), Err(WriteFailed(RecordStatus)))
        else
          Outcome(charged.(records := st.records[id := Record(op, Success)]), Ok(id))
  }

  method Update(db: Db, valid: bool, transactionId: Option<int>, apiKey: string, amount: int,
                paymentMethod: string, fails: set<UpdateCall>)
    returns (r: Result<int>)
    requires db.Valid()
    modifies db
    ensures db.Valid()
    ensures Outcome(db.View(), r) ==
            UpdateOutcome(old(db.View()), valid, transactionId, apiKey, amount, paymentMethod, fails)
  {
    if !valid {
      return Err(ValidationFailed);
    }
    if transactionId.None? {
      return Err(IdRequired);
    }
    var id := transactionId.value;
    var transaction := db.FindRecord(Transactions, id, FindTransaction in fails);
    if transaction.None? {
      return Err(NotFound(TransactionRecord));
    }
    var row := transaction.value.op;
    var merchant := db.FindMerchantByApiKey(apiKey, UpdateCall.FindMerchant in fails);
    if merchant.None? {
      return Err(NotFound(Entity.Merchant));
    }
    if row.merchantId != merchant.value.merchantId {
      var _ := db.UpdateStatus(Transactions, id, Failed, MarkFailedUnauthorized in fails);
      return Err(UnauthorizedAccess);
    }
    var found := db.FindCard(row.card, UpdateCall.FindCard in fails);
    if !found {
      return Err(NotFound(Card));
    }
    var saldo := db.FindSaldo(row.card, UpdateCall.FindSaldo in fails);
    if saldo.None? {
      return Err(NotFound(CardSaldo));
    }
    var restored := saldo.value.totalBalance + row.amount;
    var written := db.UpdateBalance(row.card, restored, WriteRestored in fails);
    if !written {
      var _ := db.UpdateStatus(Transactions, id, Failed, MarkFailedNoRestore in fails);
      return Err(RestoreFailed);
    }
    r := Charge(db, id, row, restored, amount, paymentMethod, fails);
  }

  /** The debit of the new amount, the record update and the status mark of `update`. */
  method Charge(db: Db, id: int, row: Operation, restored: int, amount: int, paymentMethod: string,
                fails: set<UpdateCall>)
    returns (r: Result<int>)
    requires db.Valid() && row.TransactionOp? && row.card in db.saldo && HasRow(db.records, Transactions, id)
    modifies db
    ensures db.Valid()
    ensures Outcome(db.View(), r) == ChargeOutcome(old(db.View()), id, row, restored, amount, paymentMethod, fails)
  {
    if restored < amount {
      var _ := db.UpdateStatus(Transactions, id, Failed, MarkFailedInsufficient in fails);
      return Err(InsufficientBalance);
    }
    var written := db.UpdateBalance(row.card, restored - amount, WriteCharged in fails);
    if !written {
      return Err(WriteFailed(CardSaldo));
    }
    var op := TransactionOp(row.card, ToI32(amount), paymentMethod, row.merchantId);
    var updated := db.UpdateRecord(id, op, UpdateTransaction in fails);
    if !updated {
      return Err(WriteFailed(TransactionRecord));
    }
    var marked := db.UpdateStatus(Transactions, id, Success, UpdateCall.MarkSuccess in fails);
    if !marked {
      return Err(WriteFailed(RecordStatus));
    }
    r := Ok(id);
  }

  /** True when `update` finds the transaction, the merchant of `apiKey`, and
      the transaction's card and saldo. */
  predicate UpdateFinds(st: State, transactionId: Option<int>, apiKey: string, fails: set<UpdateCall>) {
    transactionId.Some? && HasRow(st.records, Transactions, transactionId.value) && apiKey in st.merchants &&
    st.records[transactionId.value].op.card in st.cards && st.records[transactionId.value].op.card in st.saldo &&
    FindTransaction !in fails && UpdateCall.FindMerchant !in fails &&
    UpdateCall.FindCard !in fails && UpdateCall.FindSaldo !in fails
  }

  /** A merchant other than the transaction's is refused before any balance is
      read: no balance changes and the transaction is marked "failed" (unless
      that mark errors). */
  lemma UpdateChecksOwner(st: State, valid: bool, transactionId: Option<int>, apiKey: string, amount: int,
                          paymentMethod: string, fails: set<UpdateCall>)
    requires valid && transactionId.Some? && HasRow(st.records, Transactions, transactionId.value)
    requires apiKey in st.merchants && FindTransaction !in fails && UpdateCall.FindMerchant !in fails
    requires st.records[transactionId.value].op.merchantId != st.merchants[apiKey].merchantId
    ensures var o := UpdateOutcome(st, valid, transactionId, apiKey, amount, paymentMethod, fails);
            var id := transactionId.value;
            o.result == Err(UnauthorizedAccess) && o.after.saldo == st.saldo &&
            o.after.records == if MarkFailedUnauthorized in fails then st.records
                               else st.records[id := Record(st.records[id].op, Failed)]
  {
  }

  /** The recorded amount is credited back before the new one is checked:
      when the credited balance is below the new amount, the credit stays
      written and the transaction is marked "failed" (unless that mark errors). */
  lemma UpdateKeepsRestoredBalance(st: State, valid: bool, transactionId: Option<int>, apiKey: string, amount: int,
                                   paymentMethod: string, fails: set<UpdateCall>)
    ensures var o := UpdateOutcome(st, valid, transactionId, apiKey, amount, paymentMethod, fails);
            o.result == Err(InsufficientBalance) ==>
              UpdateFinds(st, transactionId, apiKey, fails) &&
              var id := transactionId.value;
              var row := st.records[id].op;
              st.saldo[row.card].totalBalance + row.amount < amount &&
              o.after.saldo == SetBalance(st.saldo, row.card, st.saldo[row.card].totalBalance + row.amount) &&
              o.after.records == if MarkFailedInsufficient in fails then st.records
                                 else st.records[id := Record(row, Failed)]
  {
  }

  /** `update` succeeds exactly when the merchant owns the transaction, every
      call went through and the balance with the recorded amount credited back
      covers the new amount. Then the card ends at its old balance plus the
      recorded amount minus the new one, no other row changes (the merchant's
      card keeps the amount it was credited), and the record holds the new
      amount narrowed with `as i32` and is "success". */
  lemma UpdateSucceeds(st: State, valid: bool, transactionId: Option<int>, apiKey: string, amount: int,
                       paymentMethod: string, fails: set<UpdateCall>)
    ensures var o := UpdateOutcome(st, valid, transactionId, apiKey, amount, paymentMethod, fails);
            o.result.Ok? <==>
              valid && UpdateFinds(st, transactionId, apiKey, fails) &&
              var row := st.records[transactionId.value].op;
              row.merchantId == st.merchants[apiKey].merchantId &&
              amount <= st.saldo[row.card].totalBalance + row.amount &&
              WriteRestored !in fails && WriteCharged !in fails && UpdateTransaction !in fails &&
              UpdateCall.MarkSuccess !in fails
    ensures var o := UpdateOutcome(st, valid, transactionId, apiKey, amount, paymentMethod, fails);
            o.result.Ok? ==>
              transactionId.Some? && HasRow(st.records, Transactions, transactionId.value) &&
              var id := transactionId.value;
              var row := st.records[id].op;
              row.card in st.saldo &&
              o.result.value == id &&
              o.after.saldo == SetBalance(st.saldo, row.card, st.saldo[row.card].totalBalance + row.amount - amount) &&
              o.after.records == st.records[id := Record(TransactionOp(row.card, ToI32(amount), paymentMethod, row.merchantId), Success)]
  {
    var o := UpdateOutcome(st, valid, transactionId, apiKey, amount, paymentMethod, fails);
    if o.result.Ok? {
      var row := st.records[transactionId.value].op;
      var restored := st.saldo[row.card].totalBalance + row.amount;
      assert SetBalance(SetBalance(st.saldo, row.card, restored), row.card, restored - amount) ==
             SetBalance(st.saldo, row.card, restored - amount);
    }
  }

  /** The writes after the old amount is credited back are not compensated.
      A failed debit leaves the credit written and the record untouched (not
      even marked "failed"); a failed record update leaves the new amount
      charged while the record still holds the old one; a failed "success"
      mark leaves the charge and the new record with its old status. */
  lemma UpdateLeavesUncompensated(st: State, valid: bool, transactionId: Option<int>, apiKey: string, amount: int,
                                  paymentMethod: string, fails: set<UpdateCall>)
    ensures var o := UpdateOutcome(st, valid, transactionId, apiKey, amount, paymentMethod, fails);
            o.result in {Err(WriteFailed(CardSaldo)), Err(WriteFailed(TransactionRecord)), Err(WriteFailed(RecordStatus))} ==>
              UpdateFinds(st, transactionId, apiKey, fails) &&
              var id := transactionId.value;
              var row := st.records[id].op;
              var restored := st.saldo[row.card].totalBalance + row.amount;
              row.merchantId == st.merchants[apiKey].merchantId && amount <= restored &&
              o.after.saldo ==
                SetBalance(st.saldo, row.card, if o.result == Err(WriteFailed(CardSaldo)) then restored else restored - amount) &&
              o.after.records ==
                if o.result == Err(WriteFailed(RecordStatus))
                then st.records[id := Record(TransactionOp(row.card, ToI32(amount), paymentMethod, row.merchantId),
                                             st.records[id].status)]
                else st.records
  {
    var o := UpdateOutcome(st, valid, transactionId, apiKey, amount, paymentMethod, fails);
    if o.result in {Err(WriteFailed(TransactionRecord)), Err(WriteFailed(RecordStatus))} {
      var row := st.records[transactionId.value].op;
      var restored := st.saldo[row.card].totalBalance + row.amount;
      assert SetBalance(SetBalance(st.saldo, row.card, restored), row.card, restored - amount) ==
             SetBalance(st.saldo, row.card, restored - amount);
    }
  }
}
