/**
 * The extraction (withdrawal) request and the representation of a transaction
 * in the listing endpoint.
 *
 * A request is validated against the first wallet of the user: it is refused
 * with error code "1" while the wallet already has a PENDING negative row (an
 * outstanding extraction), and with error code "2" when there is no available
 * credit to extract.  An accepted request appends a PENDING debit for the whole
 * available credit, a PENDING extraction request for it, and replaces the
 * wallet's payment destination.
 */
module Serializers {
  import opened Wrappers
  import opened Models

  // ---------------------------------------------------------------------------
  // Validation
  // ---------------------------------------------------------------------------

  /** Why an extraction request is refused.  `WalletMissing` is the user having
      no wallet at all, which the source does not catch (it indexes an empty
      query result) and which therefore carries no error code. */
  datatype ExtractionError = AlreadyOrdered | NoCreditsExtract | WalletMissing

  /** The `error_code` the endpoint answers with. */
  function ErrorCode(e: ExtractionError): (c: Option<string>)
    ensures c.Some? <==> e != WalletMissing
    ensures c.Some? ==> |c.value| == 1
  {
    match e
    case AlreadyOrdered => Some("1")
    case NoCreditsExtract => Some("2")
    case WalletMissing => None
  }

  /** The description of both the debit and the request of an extraction. */
  const ExtractionDescription: string := "Pedido de extracción"

  /** What validation keeps for the creation step: the wallet and the credit
      amount it read. */
  datatype Validated = Validated(wallet: WalletId, credit: real)

  /** A PENDING row of the wallet with a negative amount: an extraction not yet settled. */
  predicate OutstandingDebit(t: Transaction, w: WalletId)
  {
    t.wallet == w && t.status == Pending && t.amount < 0.0
  }

  /** `ExtractionSerializer.validate`: the outstanding-debit check comes first,
      then the available-credit check. */
  function Validate(txs: seq<Transaction>, wallets: seq<Wallet>, user: UserId): (r: Result<Validated, ExtractionError>)
    ensures r == Failure(WalletMissing) <==> FirstWalletOf(wallets, user).None?
    ensures FirstWalletOf(wallets, user).Some? ==>
      var w := FirstWalletOf(wallets, user).value;
      && (r == Failure(AlreadyOrdered) <==> exists i :: 0 <= i < |txs| && OutstandingDebit(txs[i], w))
      && (r == Failure(NoCreditsExtract) <==>
            (forall i :: 0 <= i < |txs| ==> !OutstandingDebit(txs[i], w)) && AvailableCredit(txs, w) <= 0.0)
    ensures r.Success? ==>
      && FirstWalletOf(wallets, user) == Some(r.value.wallet)
      && r.value.credit == AvailableCredit(txs, r.value.wallet)
      && r.value.credit > 0.0
  {
    match FirstWalletOf(wallets, user)
    case None => Failure(WalletMissing)
    case Some(w) =>
      if PendingCreditNegative(txs, w) != 0.0 then Failure(AlreadyOrdered)
      else
        var credit := AvailableCredit(txs, w);
        if credit <= 0.0 then Failure(NoCreditsExtract)
        else Success(Validated(w, credit))
  }

  // ---------------------------------------------------------------------------
  // Creation
  // ---------------------------------------------------------------------------

  /** The debit an accepted request creates: the whole available credit, negated,
      PENDING, with no availability and no expiration (a collaborator sets its
      availability when the payment is made). */
  function ExtractionDebit(v: Validated, now: Time): (t: Transaction)
    ensures OutstandingDebit(t, v.wallet) <==> v.credit > 0.0
    ensures t.wallet == v.wallet && t.amount == -v.credit && t.status == Pending && t.currency == ARS
    ensures t.expiration.None?
    ensures t.available.None? && t.objectName.None? && t.added == now
  {
    Transaction(v.wallet, Some(ExtractionDescription), DefaultObjectId, None, Pending, ARS,
                -v.credit, None, None, now)
  }

  /** The request paired with debit `id`, created PENDING and unresolved. */
  function ExtractionRequestRow(id: TxId, user: UserId, now: Time): ExtractionRequest
  {
    ExtractionRequest(id, None, now, RequestPending, ExtractionDescription, user)
  }

  /** The tables after an accepted request for `v` by `user` at `now`. */
  function AfterRequest(s: Tables, v: Validated, user: UserId, now: Time): (s2: Tables)
    ensures |s2.txs| == |s.txs| + 1 && |s2.requests| == |s.requests| + 1
    ensures s2.txs[|s.txs|] == ExtractionDebit(v, now)
    ensures s2.txs[..|s.txs|] == s.txs && s2.requests[..|s.requests|] == s.requests
    ensures s2.requests[|s.requests|].transaction == |s.txs| && s2.requests[|s.requests|].status == RequestPending
  {
    Tables(s.txs + [ExtractionDebit(v, now)], s.requests + [ExtractionRequestRow(|s.txs|, user, now)])
  }

  /** The wallet's payment destination after the request: the existing one with
      its number and type replaced, or a new one owned by the user. */
  function ReplacedPayment(current: Option<LeadPayment>, user: UserId, nro: string, paymentType: PaymentType): (p: LeadPayment)
    ensures p.nro == nro && p.paymentType == paymentType
    ensures p.user == (if current.Some? then current.value.user else user)
  {
    match current
    case None => LeadPayment(user, nro, paymentType)
    case Some(q) => q.(nro := nro, paymentType := paymentType)
  }

  /** The wallet table with wallet `w`'s payment destination replaced. */
  function WithPayment(wallets: seq<Wallet>, w: WalletId, user: UserId, nro: string, paymentType: PaymentType): (r: seq<Wallet>)
    requires w < |wallets|
    ensures |r| == |wallets|
    ensures forall j :: 0 <= j < |r| ==> r[j].user == wallets[j].user
    ensures r[w].payment == Some(ReplacedPayment(wallets[w].payment, user, nro, paymentType))
    ensures forall j :: 0 <= j < |r| && j != w ==> r[j] == wallets[j]
  {
    wallets[w := wallets[w].(payment := Some(ReplacedPayment(wallets[w].payment, user, nro, paymentType)))]
  }

  /** Changing payment destinations does not change which wallet is the user's first. */
  lemma FirstWalletKept(wallets: seq<Wallet>, w: WalletId, user: UserId, owner: UserId, nro: string, paymentType: PaymentType)
    requires w < |wallets|
    ensures FirstWalletOf(WithPayment(wallets, w, owner, nro, paymentType), user) == FirstWalletOf(wallets, user)
  {
    var a := FirstWalletOf(WithPayment(wallets, w, owner, nro, paymentType), user);
    var b := FirstWalletOf(wallets, user);
    assert a.Some? ==> wallets[a.value].user == user;
  }

  /** `ExtractionSerializer.validate` followed by `create`, the latter as one
      unit of work: on refusal nothing changes; on acceptance the debit and its
      request are appended and the payment destination is replaced. */
  method RequestExtraction(db: Ledger, user: UserId, nro: string, paymentType: PaymentType, now: Time)
    returns (r: Result<TxId, ExtractionError>)
    requires db.Valid()
    modifies db
    ensures db.Valid()
    ensures var v := Validate(old(db.txs), old(db.wallets), user);
      && (r.Failure? <==> v.Failure?)
      && (r.Failure? ==>
            && r.error == v.error
            && db.txs == old(db.txs) && db.requests == old(db.requests) && db.wallets == old(db.wallets))
      && (r.Success? ==>
            && r.value == |old(db.txs)|
            && db.Snapshot() == AfterRequest(old(db.Snapshot()), v.value, user, now)
            && db.wallets == WithPayment(old(db.wallets), v.value.wallet, user, nro, paymentType))
  {
    var v := Validate(db.txs, db.wallets, user);
    if v.Failure? {
      return Failure(v.error);
    }
    var w := v.value.wallet;
    var id := |db.txs|;
    db.wallets := WithPayment(db.wallets, w, user, nro, paymentType);
    db.txs := db.txs + [ExtractionDebit(v.value, now)];
    db.requests := db.requests + [ExtractionRequestRow(id, user, now)];
    r := Success(id);
  }

  // ---------------------------------------------------------------------------
  // What validation and creation guarantee together
  // ---------------------------------------------------------------------------

  /** Once a request is accepted, the next one is refused with error code "1"
      until the debit leaves PENDING; the available credit is still there (the
      debit consumes it only when it is settled). */
  lemma FollowUpRejected(txs: seq<Transaction>, wallets: seq<Wallet>, user: UserId, nro: string, paymentType: PaymentType, now: Time)
    requires Validate(txs, wallets, user).Success?
    ensures var v := Validate(txs, wallets, user).value;
            var txs2 := txs + [ExtractionDebit(v, now)];
      && Validate(txs2, WithPayment(wallets, v.wallet, user, nro, paymentType), user) == Failure(AlreadyOrdered)
      && AvailableCredit(txs2, v.wallet) == v.credit
      && PendingCreditNegative(txs2, v.wallet) == -v.credit
  {
    var v := Validate(txs, wallets, user).value;
    var t := ExtractionDebit(v, now);
    FirstWalletKept(wallets, v.wallet, user, user, nro, paymentType);
    assert (txs + [t])[|txs|] == t;
    AddPendingEffect(txs, t, v.wallet);
  }

  /** A PENDING credit (a non-negative amount not yet available) never blocks a
      request: validation is the same with or without it. */
  lemma PositivePendingDoesNotBlock(txs: seq<Transaction>, wallets: seq<Wallet>, user: UserId, t: Transaction)
    requires t.status == Pending && t.amount >= 0.0
    ensures Validate(txs + [t], wallets, user) == Validate(txs, wallets, user)
  {
    match FirstWalletOf(wallets, user)
    case None =>
    case Some(w) => AddPendingEffect(txs, t, w);
  }

  /** The error of a refused request does not depend on which other wallets'
      rows are in the table: appending a row of another wallet keeps the outcome. */
  lemma OtherWalletsDoNotMatter(txs: seq<Transaction>, wallets: seq<Wallet>, user: UserId, t: Transaction)
    requires FirstWalletOf(wallets, user).Some? ==> t.wallet != FirstWalletOf(wallets, user).value
    ensures Validate(txs + [t], wallets, user) == Validate(txs, wallets, user)
  {
    match FirstWalletOf(wallets, user)
    case None =>
    case Some(w) =>
      SumAppendOne(txs, t, Filter(w, {Available}, AnySign));
      SumAppendOne(txs, t, Filter(w, {Pending}, Negative));
  }

  /** Rewriting a row of another wallet (as a sweep settling that wallet does)
      keeps the outcome of validation too. */
  lemma OtherWalletRewriteDoesNotMatter(txs: seq<Transaction>, wallets: seq<Wallet>, user: UserId, i: nat, t: Transaction)
    requires i < |txs|
    requires FirstWalletOf(wallets, user).Some? ==>
      txs[i].wallet != FirstWalletOf(wallets, user).value && t.wallet != FirstWalletOf(wallets, user).value
    ensures Validate(txs[i := t], wallets, user) == Validate(txs, wallets, user)
  {
    match FirstWalletOf(wallets, user)
    case None =>
    case Some(w) =>
      OtherWalletsContributeNothing(txs, i, t, Filter(w, {Available}, AnySign));
      OtherWalletsContributeNothing(txs, i, t, Filter(w, {Pending}, Negative));
  }

  // ---------------------------------------------------------------------------
  // The representation of a transaction
  // ---------------------------------------------------------------------------

  /** The fields the listing shows, with status and currency as their codes. */
  datatype PublicFields = PublicFields(
    description: Option<string>,
    status: string,
    currency: string,
    amount: real,
    available: Option<Time>,
    expiration: Option<Time>,
    added: Time)

  function Fields(t: Transaction): PublicFields
  {
    PublicFields(t.description, TxStatusCode(t.status), CurrencyCode(t.currency), t.amount,
                 t.available, t.expiration, t.added)
  }

  /** A serialized transaction; `objectSerialized` is the settling transaction,
      itself serialized without a map and hence without a nested object. */
  datatype Representation = Representation(fields: PublicFields, objectSerialized: Option<Representation>)

  /** A key the map lacks: the source raises a lookup error. */
  datatype KeyError = KeyError(key: Option<int>)

  /** `WalletTransactionSerializer.to_representation` with an optional id-to-row map. */
  function ToRepresentation(t: Transaction, m: Option<map<int, Transaction>>): (r: Result<Representation, KeyError>)
    ensures r.Failure? <==>
      m.Some? && t.objectName == Some(LinkName) && (t.objectId.None? || t.objectId.value !in m.value)
    ensures r.Failure? ==> r.error == KeyError(t.objectId)
    ensures r.Success? ==> r.value.fields == Fields(t)
    ensures r.Success? && r.value.objectSerialized.None? <==> m.None? || t.objectName != Some(LinkName)
    ensures r.Success? && r.value.objectSerialized.Some? ==>
      r.value.objectSerialized.value == Representation(Fields(m.value[t.objectId.value]), None)
  {
    if m.None? || t.objectName != Some(LinkName) then Success(Representation(Fields(t), None))
    else if t.objectId.None? || t.objectId.value !in m.value then Failure(KeyError(t.objectId))
    else Success(Representation(Fields(t), Some(Representation(Fields(m.value[t.objectId.value]), None))))
  }
}
