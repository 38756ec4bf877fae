/**
 * The wallet's records, their status codes and the balance aggregates
 * (wallet_base/models.py).
 *
 * Row identities are positions: the transaction with id `i` is `txs[i]`, the
 * wallet with id `w` is `wallets[w]`.  Amounts are exact reals and times are
 * abstract integers.
 */
module Models {
  import opened Wrappers

  type Time = int
  type TxId = nat
  type WalletId = nat
  type UserId = nat

  // ---------------------------------------------------------------------------
  // Status codes
  // ---------------------------------------------------------------------------

  datatype TxStatus = Pending | Available | Cancelled | Processed | Expired

  /** The one-letter code stored in a transaction's `status` column. */
  function TxStatusCode(s: TxStatus): (c: string)
    ensures |c| == 1
  {
    match s
    case Pending => "p"
    case Available => "a"
    case Cancelled => "c"
    case Processed => "x"
    case Expired => "e"
  }

  /** An extraction request has its own, smaller set of statuses. */
  datatype RequestStatus = RequestPending | RequestProcessed | RequestCancelled

  /** The one-letter code stored in a request's `status` column. */
  function RequestStatusCode(s: RequestStatus): (c: string)
    ensures |c| == 1
  {
    match s
    case RequestPending => "p"
    case RequestProcessed => "r"
    case RequestCancelled => "e"
  }

  /** Distinct statuses have distinct codes, and the two code tables disagree
      on what "processed" and "cancelled" are called. */
  lemma StatusCodesDistinct(s: TxStatus, t: TxStatus, q: RequestStatus, p: RequestStatus)
    ensures TxStatusCode(s) == TxStatusCode(t) ==> s == t
    ensures RequestStatusCode(q) == RequestStatusCode(p) ==> q == p
    ensures RequestStatusCode(RequestProcessed) != TxStatusCode(Processed)
    ensures RequestStatusCode(RequestCancelled) == TxStatusCode(Expired)
  {
  }

  // ---------------------------------------------------------------------------
  // Records
  // ---------------------------------------------------------------------------

  datatype Currency = ARS

  function CurrencyCode(c: Currency): string
  {
    match c
    case ARS => "ARS"
  }

  /** The `object_name` that marks a row as settled by a wallet transaction. */
  const LinkName: string := "wallet_wallettransaction"

  /** The default of the `object_id` column. */
  const DefaultObjectId: Option<int> := Some(0)

  /** One row of the transaction table.  `objectId`/`objectName` are the
      back-reference to the debit that settled the row. */
  datatype Transaction = Transaction(
    wallet: WalletId,
    description: Option<string>,
    objectId: Option<int>,
    objectName: Option<string>,
    status: TxStatus,
    currency: Currency,
    amount: real,
    available: Option<Time>,
    expiration: Option<Time>,
    added: Time)

  /** One row of the extraction-request table. */
  datatype ExtractionRequest = ExtractionRequest(
    transaction: TxId,
    resolution: Option<Time>,
    requested: Time,
    status: RequestStatus,
    description: string,
    operator: UserId)

  datatype PaymentType = Alias | Cbu

  function PaymentTypeName(t: PaymentType): string
  {
    match t
    case Alias => "alias"
    case Cbu => "cbu"
  }

  /** A payment destination; `nro` is stored encrypted in the source. */
  datatype LeadPayment = LeadPayment(user: UserId, nro: string, paymentType: PaymentType)

  datatype Wallet = Wallet(user: UserId, payment: Option<LeadPayment>)

  /** `Wallet.objects.filter(user=user)[0]`: the user's first wallet, if any. */
  function FirstWalletOf(wallets: seq<Wallet>, user: UserId): (r: Option<WalletId>)
    ensures r.Some? ==> r.value < |wallets| && wallets[r.value].user == user
    ensures r.Some? ==> forall j :: 0 <= j < r.value ==> wallets[j].user != user
    ensures r.None? ==> forall j :: 0 <= j < |wallets| ==> wallets[j].user != user
  {
    if wallets == [] then None
    else if wallets[0].user == user then Some(0)
    else match FirstWalletOf(wallets[1..], user)
      case None => None
      case Some(k) => Some(k + 1)
  }

  // ---------------------------------------------------------------------------
  // Balance aggregates: filtered sums over the transaction table
  // ---------------------------------------------------------------------------

  datatype Sign = AnySign | Negative | NonNegative

  /** A query filter: one wallet, a set of statuses and a sign condition on the amount. */
  datatype Filter = Filter(wallet: WalletId, statuses: set<TxStatus>, sign: Sign)

  predicate SignMatches(sign: Sign, amount: real)
  {
    match sign
    case AnySign => true
    case Negative => amount < 0.0
    case NonNegative => amount >= 0.0
  }

  predicate Matches(f: Filter, t: Transaction)
  {
    t.wallet == f.wallet && t.status in f.statuses && SignMatches(f.sign, t.amount)
  }

  function Contribution(t: Transaction, f: Filter): real
  {
    if Matches(f, t) then t.amount else 0.0
  }

  /** `filter(...).aggregate(Sum("amount"))`, with the NULL of an empty match read as 0. */
  function SumMatching(rows: seq<Transaction>, f: Filter): real
    decreases |rows|
  {
    if rows == [] then 0.0
    else SumMatching(rows[..|rows| - 1], f) + Contribution(rows[|rows| - 1], f)
  }

  lemma {:induction false} SumOfNoMatchIsZero(rows: seq<Transaction>, f: Filter)
    ensures (forall i :: 0 <= i < |rows| ==> !Matches(f, rows[i])) ==> SumMatching(rows, f) == 0.0
    decreases |rows|
  {
    if rows != [] {
      var init := rows[..|rows| - 1];
      SumOfNoMatchIsZero(init, f);
      if forall i :: 0 <= i < |rows| ==> !Matches(f, rows[i]) {
        assert forall i :: 0 <= i < |init| ==> init[i] == rows[i];
      }
    }
  }

  lemma SumAppendOne(rows: seq<Transaction>, t: Transaction, f: Filter)
    ensures SumMatching(rows + [t], f) == SumMatching(rows, f) + Contribution(t, f)
  {
    assert (rows + [t])[..|rows|] == rows;
  }

  /** The sum over a concatenation is the sum of the sums. */
  lemma {:induction false} SumAppend(a: seq<Transaction>, b: seq<Transaction>, f: Filter)
    ensures SumMatching(a + b, f) == SumMatching(a, f) + SumMatching(b, f)
    decreases |b|
  {
    if b == [] {
      assert a + b == a;
    } else {
      var init := b[..|b| - 1];
      SumAppend(a, init, f);
      assert (a + b)[..|a + b| - 1] == a + init;
    }
  }

  /** Replacing one row changes the sum by the difference of the two rows' contributions. */
  lemma SumUpdate(rows: seq<Transaction>, i: nat, t: Transaction, f: Filter)
    requires i < |rows|
    ensures SumMatching(rows[i := t], f)
         == SumMatching(rows, f) - Contribution(rows[i], f) + Contribution(t, f)
  {
    var pre, post := rows[..i], rows[i + 1..];
    assert rows == pre + [rows[i]] + post;
    assert rows[i := t] == pre + [t] + post;
    SumAppend(pre + [rows[i]], post, f);
    SumAppend(pre + [t], post, f);
    SumAppendOne(pre, rows[i], f);
    SumAppendOne(pre, t, f);
  }

  /** A sum restricted to negative amounts is never positive, and it is zero
      exactly when no row matches. */
  lemma {:induction false} SumNegative(rows: seq<Transaction>, f: Filter)
    requires f.sign == Negative
    ensures SumMatching(rows, f) <= 0.0
    ensures SumMatching(rows, f) == 0.0 <==> forall i :: 0 <= i < |rows| ==> !Matches(f, rows[i])
    decreases |rows|
  {
    if rows != [] {
      var n := |rows| - 1;
      var init := rows[..n];
      SumNegative(init, f);
      assert forall i :: 0 <= i < n ==> init[i] == rows[i];
      if SumMatching(rows, f) == 0.0 {
        assert SumMatching(init, f) == 0.0 && !Matches(f, rows[n]);
        forall i | 0 <= i < |rows| ensures !Matches(f, rows[i]) {
          if i < n { assert !Matches(f, init[i]); }
        }
      }
    }
  }

  /** A sum restricted to non-negative amounts is never negative. */
  lemma {:induction false} SumNonNegative(rows: seq<Transaction>, f: Filter)
    requires f.sign == NonNegative
    ensures SumMatching(rows, f) >= 0.0
    decreases |rows|
  {
    if rows != [] {
      SumNonNegative(rows[..|rows| - 1], f);
    }
  }

  /** Every amount is either negative or not: the sign-free sum splits in two. */
  lemma {:induction false} SumSplitSign(rows: seq<Transaction>, w: WalletId, statuses: set<TxStatus>)
    ensures SumMatching(rows, Filter(w, statuses, AnySign))
         == SumMatching(rows, Filter(w, statuses, Negative)) + SumMatching(rows, Filter(w, statuses, NonNegative))
    decreases |rows|
  {
    if rows != [] {
      SumSplitSign(rows[..|rows| - 1], w, statuses);
    }
  }

  /** A sum over two disjoint status sets is the sum of the two sums. */
  lemma {:induction false} SumSplitStatuses(rows: seq<Transaction>, w: WalletId, s1: set<TxStatus>, s2: set<TxStatus>, sign: Sign)
    requires s1 !! s2
    ensures SumMatching(rows, Filter(w, s1 + s2, sign))
         == SumMatching(rows, Filter(w, s1, sign)) + SumMatching(rows, Filter(w, s2, sign))
    decreases |rows|
  {
    if rows != [] {
      SumSplitStatuses(rows[..|rows| - 1], w, s1, s2, sign);
    }
  }

  /** A row of another wallet contributes nothing: rewriting it leaves the sum as it was. */
  lemma OtherWalletsContributeNothing(rows: seq<Transaction>, i: nat, t: Transaction, f: Filter)
    requires i < |rows|
    requires rows[i].wallet != f.wallet && t.wallet != f.wallet
    ensures SumMatching(rows[i := t], f) == SumMatching(rows, f)
  {
    SumUpdate(rows, i, t, f);
  }

  /** `Wallet.get_available_credit(status)`: the sum over the wallet's rows whose
      status is in `statuses` (by default only AVAILABLE). */
  function AvailableCredit(rows: seq<Transaction>, w: WalletId, statuses: set<TxStatus> := {Available}): (r: real)
    ensures (forall i :: 0 <= i < |rows| ==> !(rows[i].wallet == w && rows[i].status in statuses)) ==> r == 0.0
  {
    SumOfNoMatchIsZero(rows, Filter(w, statuses, AnySign));
    SumMatching(rows, Filter(w, statuses, AnySign))
  }

  /** `Wallet.get_paid_credit_negative`: the sum over PROCESSED rows with a negative amount. */
  function PaidCreditNegative(rows: seq<Transaction>, w: WalletId): (r: real)
    ensures r <= 0.0
    ensures r == 0.0 <==> forall i :: 0 <= i < |rows| ==>
      !(rows[i].wallet == w && rows[i].status == Processed && rows[i].amount < 0.0)
  {
    SumNegative(rows, Filter(w, {Processed}, Negative));
    SumMatching(rows, Filter(w, {Processed}, Negative))
  }

  /** `Wallet.get_pending_credit_negative`: the sum over PENDING rows with a negative amount. */
  function PendingCreditNegative(rows: seq<Transaction>, w: WalletId): (r: real)
    ensures r <= 0.0
    ensures r == 0.0 <==> forall i :: 0 <= i < |rows| ==>
      !(rows[i].wallet == w && rows[i].status == Pending && rows[i].amount < 0.0)
  {
    SumNegative(rows, Filter(w, {Pending}, Negative));
    SumMatching(rows, Filter(w, {Pending}, Negative))
  }

  /** `Wallet.get_pending_credit`: the sum over PENDING rows of either sign; it is the
      negative pending sum plus the non-negative pending sum. */
  function PendingCredit(rows: seq<Transaction>, w: WalletId): (r: real)
    ensures r == PendingCreditNegative(rows, w) + SumMatching(rows, Filter(w, {Pending}, NonNegative))
    ensures r >= PendingCreditNegative(rows, w)
    ensures (forall i :: 0 <= i < |rows| ==> !(rows[i].wallet == w && rows[i].status == Pending)) ==> r == 0.0
  {
    SumSplitSign(rows, w, {Pending});
    SumNonNegative(rows, Filter(w, {Pending}, NonNegative));
    SumOfNoMatchIsZero(rows, Filter(w, {Pending}, AnySign));
    SumMatching(rows, Filter(w, {Pending}, AnySign))
  }

  /** Querying AVAILABLE and PENDING together gives the available plus the pending credit. */
  lemma AvailablePlusPending(rows: seq<Transaction>, w: WalletId)
    ensures AvailableCredit(rows, w, {Available, Pending}) == AvailableCredit(rows, w) + PendingCredit(rows, w)
  {
    assert {Available, Pending} == {Available} + {Pending};
    SumSplitStatuses(rows, w, {Available}, {Pending}, AnySign);
  }

  // ---------------------------------------------------------------------------
  // The tables and their integrity constraints
  // ---------------------------------------------------------------------------

  datatype Tables = Tables(txs: seq<Transaction>, requests: seq<ExtractionRequest>)

  /** A row marked as settled by a transaction names an existing transaction. */
  predicate LinkWithin(t: Transaction, n: nat)
  {
    t.objectName == Some(LinkName) ==> t.objectId.Some? && 0 <= t.objectId.value < n
  }

  predicate RowsWellFormed(txs: seq<Transaction>, walletCount: nat)
  {
    forall i :: 0 <= i < |txs| ==> txs[i].wallet < walletCount && LinkWithin(txs[i], |txs|)
  }

  /** The unique (transaction, status) constraint on extraction requests. */
  predicate UniqueRequests(requests: seq<ExtractionRequest>)
  {
    forall i, j :: 0 <= i < j < |requests| && requests[i].transaction == requests[j].transaction
      ==> requests[i].status != requests[j].status
  }

  predicate RequestsWellFormed(requests: seq<ExtractionRequest>, txCount: nat)
  {
    && (forall i :: 0 <= i < |requests| ==> requests[i].transaction < txCount)
    && UniqueRequests(requests)
  }

  /** Foreign keys resolve, settlement links resolve, and requests are unique. */
  predicate WellFormed(s: Tables, walletCount: nat)
  {
    RowsWellFormed(s.txs, walletCount) && RequestsWellFormed(s.requests, |s.txs|)
  }

  // ---------------------------------------------------------------------------
  // Creating rows for a wallet
  // ---------------------------------------------------------------------------

  /** The row `Wallet.add_available` creates: available after `availableDelta`,
      expiring after `expirationDelta`, both counted from `now`. */
  function AvailableRow(w: WalletId, amount: real, currency: Currency, expirationDelta: int,
                        availableDelta: int, description: string, now: Time): (t: Transaction)
    ensures t.wallet == w && t.status == Available && t.amount == amount
    ensures t.objectName.None? && t.added == now
    ensures t.available == Some(t.added + availableDelta) && t.expiration == Some(t.added + expirationDelta)
  {
    Transaction(w, Some(description), DefaultObjectId, None, Available, currency, amount,
                Some(now + availableDelta), Some(now + expirationDelta), now)
  }

  /** The row `Wallet.add_pending` creates: its expiration adds the availability
      offset on top of the expiration offset, so it expires `expirationDelta`
      after it becomes available. */
  function PendingRow(w: WalletId, amount: real, currency: Currency, expirationDelta: int,
                      availableDelta: int, description: string, now: Time): (t: Transaction)
    ensures t.wallet == w && t.status == Pending && t.amount == amount
    ensures t.objectName.None? && t.added == now
    ensures t.available == Some(t.added + availableDelta)
    ensures t.expiration == Some(t.added + availableDelta + expirationDelta)
    ensures t.expiration.value - t.available.value == expirationDelta
    ensures expirationDelta >= 0 ==> t.available.value <= t.expiration.value
  {
    Transaction(w, Some(description), DefaultObjectId, None, Pending, currency, amount,
                Some(now + availableDelta), Some(now + expirationDelta + availableDelta), now)
  }

  /** Adding an AVAILABLE row raises the wallet's available credit by its amount
      and leaves every other aggregate, and every other wallet, as it was. */
  lemma AddAvailableEffect(rows: seq<Transaction>, t: Transaction, v: WalletId)
    requires t.status == Available
    ensures AvailableCredit(rows + [t], v) == AvailableCredit(rows, v) + (if v == t.wallet then t.amount else 0.0)
    ensures PendingCredit(rows + [t], v) == PendingCredit(rows, v)
    ensures PendingCreditNegative(rows + [t], v) == PendingCreditNegative(rows, v)
    ensures PaidCreditNegative(rows + [t], v) == PaidCreditNegative(rows, v)
  {
    SumAppendOne(rows, t, Filter(v, {Available}, AnySign));
    SumAppendOne(rows, t, Filter(v, {Pending}, AnySign));
    SumAppendOne(rows, t, Filter(v, {Pending}, Negative));
    SumAppendOne(rows, t, Filter(v, {Processed}, Negative));
  }

  /** Adding a PENDING row raises the wallet's pending credit by its amount (and
      its pending-negative sum too when the amount is negative); the available
      and paid sums are unchanged. */
  lemma AddPendingEffect(rows: seq<Transaction>, t: Transaction, v: WalletId)
    requires t.status == Pending
    ensures AvailableCredit(rows + [t], v) == AvailableCredit(rows, v)
    ensures PendingCredit(rows + [t], v) == PendingCredit(rows, v) + (if v == t.wallet then t.amount else 0.0)
    ensures PendingCreditNegative(rows + [t], v)
         == PendingCreditNegative(rows, v) + (if v == t.wallet && t.amount < 0.0 then t.amount else 0.0)
    ensures PaidCreditNegative(rows + [t], v) == PaidCreditNegative(rows, v)
  {
    SumAppendOne(rows, t, Filter(v, {Available}, AnySign));
    SumAppendOne(rows, t, Filter(v, {Pending}, AnySign));
    SumAppendOne(rows, t, Filter(v, {Pending}, Negative));
    SumAppendOne(rows, t, Filter(v, {Processed}, Negative));
  }

  /** Appending a row that settles nothing keeps the tables well formed. */
  lemma AppendKeepsWellFormed(s: Tables, walletCount: nat, t: Transaction)
    requires WellFormed(s, walletCount)
    requires t.wallet < walletCount && t.objectName.None?
    ensures WellFormed(Tables(s.txs + [t], s.requests), walletCount)
  {
  }

  // ---------------------------------------------------------------------------
  // The store
  // ---------------------------------------------------------------------------

  /** The transaction, request and wallet tables, updated in place. */
  class Ledger {
    var txs: seq<Transaction>
    var requests: seq<ExtractionRequest>
    var wallets: seq<Wallet>

    function Snapshot(): Tables
      reads this
    {
      Tables(txs, requests)
    }

    ghost predicate Valid()
      reads this
    {
      WellFormed(Snapshot(), |wallets|)
    }

    /** An empty ledger over the given wallets: no transactions and no requests. */
    constructor (wallets0: seq<Wallet>)
      ensures Valid()
      ensures txs == [] && requests == [] && wallets == wallets0
    {
      txs := [];
      requests := [];
      wallets := wallets0;
    }

    /** `Wallet.add_available` on wallet `w`: appends exactly one AVAILABLE row. */
    method AddAvailable(w: WalletId, amount: real, expirationDelta: int, now: Time,
                        currency: Currency := ARS, availableDelta: int := 0,
                        description: string := "created manually") returns (id: TxId)
      requires Valid() && w < |wallets|
      modifies this
      ensures Valid()
      ensures id == |old(txs)|
      ensures txs == old(txs) + [AvailableRow(w, amount, currency, expirationDelta, availableDelta, description, now)]
      ensures requests == old(requests) && wallets == old(wallets)
    {
      var row := AvailableRow(w, amount, currency, expirationDelta, availableDelta, description, now);
      AppendKeepsWellFormed(Snapshot(), |wallets|, row);
      id := |txs|;
      txs := txs + [row];
    }

    /** `Wallet.add_pending` on wallet `w`: appends exactly one PENDING row. */
    method AddPending(w: WalletId, amount: real, expirationDelta: int, now: Time,
                      currency: Currency := ARS, availableDelta: int := 0,
                      description: string := "created manually") returns (id: TxId)
      requires Valid() && w < |wallets|
      modifies this
      ensures Valid()
      ensures id == |old(txs)|
      ensures txs == old(txs) + [PendingRow(w, amount, currency, expirationDelta, availableDelta, description, now)]
      ensures requests == old(requests) && wallets == old(wallets)
    {
      var row := PendingRow(w, amount, currency, expirationDelta, availableDelta, description, now);
      AppendKeepsWellFormed(Snapshot(), |wallets|, row);
      id := |txs|;
      txs := txs + [row];
    }
  }
}
