/** `TopupCommandService`: create a top-up (the record first, then the credit)
    and update one (apply the difference between the new and the old amount).
    Each method is specified by a function giving the store it leaves and the
    value it returns; the lemmas below state what the source promises about
    those functions. */
module TopupService {
  import opened Common
  import opened Balances
  import opened Ledger

  /** The repository calls of `create`, in program order; `fails` names the ones that error. */
  datatype CreateCall =
    | FindCard | CreateTopup | FindSaldo | MarkFailedNoSaldo | WriteBalance | MarkFailedNoWrite | MarkSuccess

  /** The repository calls of `update`, in program order. */
  datatype UpdateCall =
    | FindCard | MarkFailedNoCard | FindTopup | UpdateTopup | MarkFailedNoUpdate | FindSaldo
    | MarkFailedNoSaldo | WriteBalance | RevertAmount | MarkFailedNoWrite | ReloadTopup | MarkSuccess

  // ---- create ---------------------------------------------------------------

  /** What `create` leaves and returns: the card lookup, then a "pending"
      record under `nextId`, then the credit. */
  function CreateOutcome(st: State, nextId: int, valid: bool, card: string, amount: int, paymentMethod: string,
                         fails: set<CreateCall>): Outcome
  {
    if !valid then Outcome(st, Err(ValidationFailed))
    else if CreateCall.FindCard in fails || card !in st.cards then Outcome(st, Err(NotFound(Card)))
    else if CreateTopup in fails then Outcome(st, Err(WriteFailed(TopupRecord)))
    else CreditOutcome(st.(records := st.records[nextId := Record(TopupOp(card, amount, paymentMethod), Pending)]),
                       nextId, card, amount, fails)
  }

  /** `create` once the record `id` exists: the saldo is read and credited
      with `amount`; a failed read or write marks the record "failed" and
      leaves the balance alone, a failed "success" mark leaves it "pending". */
  function CreditOutcome(st: State, id: int, card: string, amount: int, fails: set<CreateCall>): Outcome
  {
    if CreateCall.FindSaldo in fails || card !in st.saldo then
      Outcome(st.(records := AfterStatus(st.records, Topups, id, Failed, CreateCall.MarkFailedNoSaldo in fails)),
              Err(NotFound(CardSaldo)))
    else if CreateCall.WriteBalance in fails then
      Outcome(st.(records := AfterStatus(st.records, Topups, id, Failed, CreateCall.MarkFailedNoWrite in fails)),
              Err(WriteFailed(CardSaldo)))
    else
      var credited := st.(saldo := SetBalance(st.saldo, card, st.saldo[card].totalBalance + amount));
      if CreateCall.MarkSuccess in fails then Outcome(credited, Err(WriteFailed(RecordStatus)))
      else Outcome(credited.(records := AfterStatus(st.records, Topups, id, Success, false)), Ok(id))
  }

  method Create(db: Db, valid: bool, card: string, amount: int, paymentMethod: string, fails: set<CreateCall>)
    returns (r: Result<int>)
    requires db.Valid()
    modifies db
    ensures db.Valid()
    ensures Outcome(db.View(), r) == CreateOutcome(old(db.View()), old(db.nextId), valid, card, amount, paymentMethod, fails)
  {
    if !valid {
      return Err(ValidationFailed);
    }
    var found := db.FindCard(card, CreateCall.FindCard in fails);
    if !found {
      return Err(NotFound(Card));
    }
    var created := db.CreateRecord(TopupOp(card, amount, paymentMethod), CreateTopup in fails);
    if created.None? {
      return Err(WriteFailed(TopupRecord));
    }
    var id := created.value;
    var saldo := db.FindSaldo(card, CreateCall.FindSaldo in fails);
    if saldo.None? {
      var _ := db.UpdateStatus(Topups, id, Failed, CreateCall.MarkFailedNoSaldo in fails);
      return Err(NotFound(CardSaldo));
    }
    var newBalance := saldo.value.totalBalance + amount;
    var written := db.UpdateBalance(card, newBalance, CreateCall.WriteBalance in fails);
    if !written {
      var _ := db.UpdateStatus(Topups, id, Failed, CreateCall.MarkFailedNoWrite in fails);
      return Err(WriteFailed(CardSaldo));
    }
    var marked := db.UpdateStatus(Topups, id, Success, CreateCall.MarkSuccess in fails);
    if !marked {
      return Err(WriteFailed(RecordStatus));
    }
    r := Ok(id);
  }

  /** A missing card is reported before any record exists: nothing changes. */
  lemma CreateChecksCard(st: State, nextId: int, valid: bool, card: string, amount: int, paymentMethod: string,
                         fails: set<CreateCall>)
    ensures CreateCall.FindCard in fails || card !in st.cards ==>
              CreateOutcome(st, nextId, valid, card, amount, paymentMethod, fails).after == st
    ensures valid && card !in st.cards ==>
              CreateOutcome(st, nextId, valid, card, amount, paymentMethod, fails).result == Err(NotFound(Card))
  {
  }

  /** Once the record exists, a failed saldo read or balance write leaves every
      balance as it was and the new record "failed" (or "pending" when that
      mark errors too). */
  lemma CreateMarksFailed(st: State, nextId: int, valid: bool, card: string, amount: int, paymentMethod: string,
                          fails: set<CreateCall>)
    requires valid && card in st.cards && CreateCall.FindCard !in fails && CreateTopup !in fails
    ensures var o := CreateOutcome(st, nextId, valid, card, amount, paymentMethod, fails);
            o.result in {Err(NotFound(CardSaldo)), Err(WriteFailed(CardSaldo))} ==>
              o.after.saldo == st.saldo &&
              o.after.records.Keys == st.records.Keys + {nextId} &&
              o.after.records[nextId].op == TopupOp(card, amount, paymentMethod) &&
              (o.after.records[nextId].status == Failed <==>
                 (o.result == Err(NotFound(CardSaldo)) && CreateCall.MarkFailedNoSaldo !in fails) ||
                 (o.result == Err(WriteFailed(CardSaldo)) && CreateCall.MarkFailedNoWrite !in fails))
  {
  }

  /** `create` succeeds exactly when the card, the record, the saldo, the
      credit and the "success" mark all went through; then the card holds
      exactly `amount` more, no other row changes, and the new record is "success". */
  lemma CreateSucceeds(st: State, nextId: int, valid: bool, card: string, amount: int, paymentMethod: string,
                       fails: set<CreateCall>)
    ensures var o := CreateOutcome(st, nextId, valid, card, amount, paymentMethod, fails);
            o.result.Ok? <==>
              valid && card in st.cards && card in st.saldo &&
              CreateCall.FindCard !in fails && CreateTopup !in fails && CreateCall.FindSaldo !in fails &&
              CreateCall.WriteBalance !in fails && CreateCall.MarkSuccess !in fails
    ensures var o := CreateOutcome(st, nextId, valid, card, amount, paymentMethod, fails);
            o.result.Ok? ==>
              o.result.value == nextId &&
              o.after.records == st.records[nextId := Record(TopupOp(card, amount, paymentMethod), Success)] &&
              o.after.saldo == SetBalance(st.saldo, card, st.saldo[card].totalBalance + amount) &&
              Total(o.after.saldo) == Total(st.saldo) + amount
  {
    var o := CreateOutcome(st, nextId, valid, card, amount, paymentMethod, fails);
    if o.result.Ok? {
      TotalSetBalance(st.saldo, card, st.saldo[card].totalBalance + amount);
    }
  }

  // ---- update ---------------------------------------------------------------

  /** What `update` leaves and returns: a missing card marks the top-up
      "failed"; then the top-up is read and takes the request's card, amount
      and payment method (keeping its status); a failed update marks it "failed". */
  function UpdateOutcome(st: State, valid: bool, topupId: Option<int>, card: string, amount: int,
                         paymentMethod: string, fails: set<UpdateCall>): Outcome
  {
    if !valid then Outcome(st, Err(ValidationFailed))
    else if topupId.None? then Outcome(st, Err(IdRequired))
    else
      var id := topupId.value;
      if UpdateCall.FindCard in fails || card !in st.cards then
        Outcome(st.(records := AfterStatus(st.records, Topups, id, Failed, MarkFailedNoCard in fails)), Err(NotFound(Card)))
      else if FindTopup in fails || !HasRow(st.records, Topups, id) then Outcome(st, Err(NotFound(TopupRecord)))
      else if UpdateTopup in fails then
        Outcome(st.(records := AfterStatus(st.records, Topups, id, Failed, MarkFailedNoUpdate in fails)),
                Err(WriteFailed(TopupRecord)))
      else
        var existing := st.records[id].op.amount;
        var updated := st.records[id := Record(TopupOp(card, amount, paymentMethod), st.records[id].status)];
        ApplyOutcome(st.(records := updated), id, card, amount - existing, existing, fails)
  }

  /** `update` once the row holds the new amount: the card's saldo moves by
      `difference`, with no lower bound; a failed read marks the row "failed",
      a failed write puts the `existing` amount back and marks it "failed". */
  function ApplyOutcome(st: State, id: int, card: string, difference: int, existing: int,
                        fails: set<UpdateCall>): Outcome
  {
    if UpdateCall.FindSaldo in fails || card !in st.saldo then
      Outcome(st.(records := AfterStatus(st.records, Topups, id, Failed, UpdateCall.MarkFailedNoSaldo in fails)),
              Err(NotFound(CardSaldo)))
    else if UpdateCall.WriteBalance in fails then
      var reverted := AfterAmount(st.records, Topups, id, existing, RevertAmount in fails);
      Outcome(st.(records := AfterStatus(reverted, Topups, id, Failed, UpdateCall.MarkFailedNoWrite in fails)),
              Err(WriteFailed(CardSaldo)))
    else
      var applied := st.(saldo := SetBalance(st.saldo, card, st.saldo[card].totalBalance + difference));
      if ReloadTopup in fails || !HasRow(st.records, Topups, id) then Outcome(applied, Err(NotFound(TopupRecord)))
      else if UpdateCall.MarkSuccess in fails then Outcome(applied, Err(WriteFailed(RecordStatus)))
      else Outcome(applied.(records := AfterStatus(st.records, Topups, id, Success, false)), Ok(id))
  }

  method Update(db: Db, valid: bool, topupId: Option<int>, card: string, amount: int, paymentMethod: string,
                fails: set<UpdateCall>)
    returns (r: Result<int>)
    requires db.Valid()
    modifies db
    ensures db.Valid()
    ensures Outcome(db.View(), r) == UpdateOutcome(old(db.View()), valid, topupId, card, amount, paymentMethod, fails)
  {
    if !valid {
      return Err(ValidationFailed);
    }
    if topupId.None? {
      return Err(IdRequired);
    }
    var id := topupId.value;
    var found := db.FindCard(card, UpdateCall.FindCard in fails);
    if !found {
      var _ := db.UpdateStatus(Topups, id, Failed, MarkFailedNoCard in fails);
      return Err(NotFound(Card));
    }
    var existing := db.FindRecord(Topups, id, FindTopup in fails);
    if existing.None? {
      return Err(NotFound(TopupRecord));
    }
    var difference := amount - existing.value.op.amount;
    var updated := db.UpdateRecord(id, TopupOp(card, amount, paymentMethod), UpdateTopup in fails);
    if !updated {
      var _ := db.UpdateStatus(Topups, id, Failed, MarkFailedNoUpdate in fails);
      return Err(WriteFailed(TopupRecord));
    }
    r := Apply(db, id, card, difference, existing.value.op.amount, fails);
  }

  /** The balance side of `update`, once the row holds the new amount. */
  method Apply(db: Db, id: int, card: string, difference: int, existing: int, fails: set<UpdateCall>)
    returns (r: Result<int>)
    requires db.Valid()
    modifies db
    ensures db.Valid()
    ensures Outcome(db.View(), r) == ApplyOutcome(old(db.View()), id, card, difference, existing, fails)
  {
    var saldo := db.FindSaldo(card, UpdateCall.FindSaldo in fails);
    if saldo.None? {
      var _ := db.UpdateStatus(Topups, id, Failed, UpdateCall.MarkFailedNoSaldo in fails);
      return Err(NotFound(CardSaldo));
    }
    var newBalance := saldo.value.totalBalance + difference;
    var written := db.UpdateBalance(card, newBalance, UpdateCall.WriteBalance in fails);
    if !written {
      var _ := db.UpdateAmount(Topups, id, existing, RevertAmount in fails);
      var _ := db.UpdateStatus(Topups, id, Failed, UpdateCall.MarkFailedNoWrite in fails);
      return Err(WriteFailed(CardSaldo));
    }
    var reloaded := db.FindRecord(Topups, id, ReloadTopup in fails);
    if reloaded.None? {
      return Err(NotFound(TopupRecord));
    }
    var marked := db.UpdateStatus(Topups, id, Success, UpdateCall.MarkSuccess in fails);
    if !marked {
      return Err(WriteFailed(RecordStatus));
    }
    r := Ok(id);
  }

  /** A missing card marks the top-up "failed" (when it is one and the mark
      goes through) and changes nothing else. */
  lemma UpdateChecksCard(st: State, valid: bool, topupId: Option<int>, card: string, amount: int,
                         paymentMethod: string, fails: set<UpdateCall>)
    requires valid && topupId.Some?
    requires UpdateCall.FindCard in fails || card !in st.cards
    ensures var o := UpdateOutcome(st, valid, topupId, card, amount, paymentMethod, fails);
            var id := topupId.value;
            o.result == Err(NotFound(Card)) && o.after.saldo == st.saldo &&
            o.after.records == if MarkFailedNoCard !in fails && HasRow(st.records, Topups, id)
                               then st.records[id := Record(st.records[id].op, Failed)] else st.records
  {
  }

  /** The only balance `update` ever writes is the request's card's, moved by
      the new amount minus the recorded one; a card change leaves the card the
      top-up was credited to untouched. */
  lemma UpdateMovesByDifference(st: State, valid: bool, topupId: Option<int>, card: string, amount: int,
                                paymentMethod: string, fails: set<UpdateCall>)
    ensures var o := UpdateOutcome(st, valid, topupId, card, amount, paymentMethod, fails);
            o.after.saldo != st.saldo ==>
              topupId.Some? && HasRow(st.records, Topups, topupId.value) && card in st.saldo &&
              o.after.saldo ==
                SetBalance(st.saldo, card, st.saldo[card].totalBalance + amount - st.records[topupId.value].op.amount)
  {
  }

  /** `update` succeeds exactly when every call went through; no lower bound is
      placed on the new balance. Then the row holds the request's fields with
      status "success". */
  lemma UpdateSucceeds(st: State, valid: bool, topupId: Option<int>, card: string, amount: int,
                       paymentMethod: string, fails: set<UpdateCall>)
    ensures var o := UpdateOutcome(st, valid, topupId, card, amount, paymentMethod, fails);
            o.result.Ok? <==>
              valid && topupId.Some? && card in st.cards && HasRow(st.records, Topups, topupId.value) &&
              card in st.saldo &&
              UpdateCall.FindCard !in fails && FindTopup !in fails && UpdateTopup !in fails &&
              UpdateCall.FindSaldo !in fails && UpdateCall.WriteBalance !in fails && ReloadTopup !in fails &&
              UpdateCall.MarkSuccess !in fails
    ensures var o := UpdateOutcome(st, valid, topupId, card, amount, paymentMethod, fails);
            o.result.Ok? ==>
              o.result.value == topupId.value &&
              o.after.records == st.records[topupId.value := Record(TopupOp(card, amount, paymentMethod), Success)] &&
              o.after.saldo ==
                SetBalance(st.saldo, card, st.saldo[card].totalBalance + amount - st.records[topupId.value].op.amount)
  {
  }

  /** A failed balance write leaves every balance as it was, puts the recorded
      amount back (unless that update errors) and marks the row "failed"
      (unless that mark errors). */
  lemma UpdateRevertsAmount(st: State, valid: bool, topupId: Option<int>, card: string, amount: int,
                            paymentMethod: string, fails: set<UpdateCall>)
    ensures var o := UpdateOutcome(st, valid, topupId, card, amount, paymentMethod, fails);
            o.result == Err(WriteFailed(CardSaldo)) ==>
              topupId.Some? && HasRow(st.records, Topups, topupId.value) &&
              var id := topupId.value;
              var existing := st.records[id];
              o.after.saldo == st.saldo &&
              o.after.records == st.records[id := Record(
                TopupOp(card, if RevertAmount in fails then amount else existing.op.amount, paymentMethod),
                if UpdateCall.MarkFailedNoWrite in fails then existing.status else Failed)]
  {
  }
}
