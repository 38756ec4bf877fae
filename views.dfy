/**
 * The read side of the API: the wallet summary and the transaction listing.
 *
 * The summary reports the user's first wallet: its available, pending and paid
 * sums, their total, and the payment destination with its number masked.  The
 * listing shows the user's PENDING, AVAILABLE, PROCESSED and EXPIRED rows,
 * newest first, each with the transaction that settled it when there is one.
 */
module Views {
  import opened Wrappers
  import opened Models
  import opened Serializers

  // ---------------------------------------------------------------------------
  // The wallet summary
  // ---------------------------------------------------------------------------

  /** How many characters of a payment number the summary shows. */
  const NroCensorLength: nat := 5

  /** The visible part of a payment number: the first characters of an alias,
      the last characters of any other kind (a CBU). */
  function Mask(nro: string, t: PaymentType): (r: string)
    ensures |r| == if |nro| < NroCensorLength then |nro| else NroCensorLength
    ensures t == Alias ==> nro == r + nro[|r|..]
    ensures t != Alias ==> nro == nro[..|nro| - |r|] + r
  {
    if |nro| <= NroCensorLength then nro
    else if t == Alias then nro[..NroCensorLength]
    else nro[|nro| - NroCensorLength..]
  }

  /** Masking a masked number changes nothing more. */
  lemma MaskIdempotent(nro: string, t: PaymentType)
    ensures Mask(Mask(nro, t), t) == Mask(nro, t)
  {
  }

  /** The body of the summary response. */
  datatype Summary = Summary(
    available: real,
    notAvailable: real,
    totalBalance: real,
    paidOff: real,
    nro: Option<string>,
    paymentType: string)

  /** `WalletViewSet.retrieve`; `None` when the user has no wallet, where the
      source raises on indexing an empty query result. */
  function Retrieve(txs: seq<Transaction>, wallets: seq<Wallet>, user: UserId): (r: Option<Summary>)
    ensures r.None? <==> FirstWalletOf(wallets, user).None?
    ensures r.Some? ==>
      var w := FirstWalletOf(wallets, user).value;
      var s := r.value;
      && s.totalBalance == AvailableCredit(txs, w, {Available, Pending})
      && s.totalBalance == s.available + s.notAvailable
      && s.available == AvailableCredit(txs, w)
      && s.notAvailable == PendingCredit(txs, w)
      && s.paidOff == PaidCreditNegative(txs, w) && s.paidOff <= 0.0
      && (s.nro.None? <==> wallets[w].payment.None?)
      && (wallets[w].payment.None? ==> s.paymentType == "")
      && (wallets[w].payment.Some? ==>
            && s.paymentType == PaymentTypeName(wallets[w].payment.value.paymentType)
            && s.nro == Some(Mask(wallets[w].payment.value.nro, wallets[w].payment.value.paymentType)))
  {
    match FirstWalletOf(wallets, user)
    case None => None
    case Some(w) =>
      var available := AvailableCredit(txs, w);
      var notAvailable := PendingCredit(txs, w);
      AvailablePlusPending(txs, w);
      var nro := if wallets[w].payment.None? then None
                 else Some(Mask(wallets[w].payment.value.nro, wallets[w].payment.value.paymentType));
      var paymentType := if wallets[w].payment.None? then ""
                         else PaymentTypeName(wallets[w].payment.value.paymentType);
      Some(Summary(available, notAvailable, available + notAvailable, PaidCreditNegative(txs, w), nro, paymentType))
  }

  /** After an accepted extraction request the summary still shows the credit
      as available, the debit lowers the pending sum by the same amount, so the
      total balance drops by the extracted credit; the destination shown is the
      new one, masked. */
  lemma ExtractionLowersTotal(txs: seq<Transaction>, wallets: seq<Wallet>, user: UserId, nro: string, paymentType: PaymentType, now: Time)
    requires Validate(txs, wallets, user).Success?
    ensures var v := Validate(txs, wallets, user).value;
            var before := Retrieve(txs, wallets, user).value;
            var after := Retrieve(txs + [ExtractionDebit(v, now)], WithPayment(wallets, v.wallet, user, nro, paymentType), user);
      && after.Some?
      && after.value.available == before.available == v.credit
      && after.value.notAvailable == before.notAvailable - v.credit
      && after.value.totalBalance == before.totalBalance - v.credit
      && after.value.paidOff == before.paidOff
      && after.value.nro == Some(Mask(nro, paymentType))
      && after.value.paymentType == PaymentTypeName(paymentType)
  {
    var v := Validate(txs, wallets, user).value;
    FirstWalletKept(wallets, v.wallet, user, user, nro, paymentType);
    AddPendingEffect(txs, ExtractionDebit(v, now), v.wallet);
  }

  // ---------------------------------------------------------------------------
  // The transaction listing
  // ---------------------------------------------------------------------------

  /** The statuses the listing shows; CANCELLED rows are hidden. */
  const ListedStatuses: set<TxStatus> := {Pending, Available, Processed, Expired}

  /** A row of one of the user's wallets in a shown status. */
  predicate Listed(t: Transaction, wallets: seq<Wallet>, user: UserId)
  {
    t.wallet < |wallets| && wallets[t.wallet].user == user && t.status in ListedStatuses
  }

  /** Row `a` comes before row `b`: added later, or added at the same time and
      created later. */
  predicate Newer(txs: seq<Transaction>, a: TxId, b: TxId)
    requires a < |txs| && b < |txs|
  {
    txs[a].added > txs[b].added || (txs[a].added == txs[b].added && a > b)
  }

  predicate Within(ids: seq<TxId>, n: nat)
  {
    forall k :: 0 <= k < |ids| ==> ids[k] < n
  }

  /** Strictly newest first, and hence without repetitions. */
  predicate NewestFirst(txs: seq<Transaction>, ids: seq<TxId>)
    requires Within(ids, |txs|)
  {
    forall k, l :: 0 <= k < l < |ids| ==> Newer(txs, ids[k], ids[l])
  }

  /** Inserts row `i` at its place in a newest-first sequence. */
  function Insert(txs: seq<Transaction>, ids: seq<TxId>, i: TxId): (r: seq<TxId>)
    requires i < |txs| && Within(ids, |txs|) && NewestFirst(txs, ids) && i !in ids
    ensures |r| == |ids| + 1 && Within(r, |txs|)
    ensures forall x :: x in r <==> x in ids || x == i
    ensures NewestFirst(txs, r)
    decreases |ids|
  {
    if ids == [] then [i]
    else if Newer(txs, i, ids[0]) then
      assert forall l :: 0 <= l < |ids| ==> ids[l] == ids[0] || Newer(txs, ids[0], ids[l]);
      [i] + ids
    else
      assert ids == [ids[0]] + ids[1..];
      var rest := Insert(txs, ids[1..], i);
      assert forall x :: x in rest ==> Newer(txs, ids[0], x) by {
        forall x | x in rest ensures Newer(txs, ids[0], x) {
          if x != i {
            var l :| 0 <= l < |ids[1..]| && ids[1..][l] == x;
            assert ids[l + 1] == x;
          }
        }
      }
      [ids[0]] + rest
  }

  /** The listed rows among the first `n`, newest first. */
  function ListingUpTo(txs: seq<Transaction>, wallets: seq<Wallet>, user: UserId, n: nat): (ids: seq<TxId>)
    requires n <= |txs|
    ensures Within(ids, n) && NewestFirst(txs, ids)
    ensures forall i :: 0 <= i < n ==> (i in ids <==> Listed(txs[i], wallets, user))
    decreases n
  {
    if n == 0 then []
    else
      var p := ListingUpTo(txs, wallets, user, n - 1);
      if Listed(txs[n - 1], wallets, user) then
        var r := Insert(txs, p, n - 1);
        assert forall k :: 0 <= k < |r| ==> r[k] in r;
        r
      else p
  }

  /** The queryset of `WalletTransactionViewSet` under its ordering: exactly the
      user's rows in a shown status, each once, newest first. */
  function Listing(txs: seq<Transaction>, wallets: seq<Wallet>, user: UserId): (ids: seq<TxId>)
    ensures Within(ids, |txs|) && NewestFirst(txs, ids)
    ensures forall i :: 0 <= i < |txs| ==> (i in ids <==> Listed(txs[i], wallets, user))
  {
    ListingUpTo(txs, wallets, user, |txs|)
  }

  /** In a newest-first sequence the head is newer than every other element,
      and the tail holds exactly the other elements. */
  lemma HeadIsNewest(txs: seq<Transaction>, a: seq<TxId>)
    requires Within(a, |txs|) && NewestFirst(txs, a) && a != []
    ensures forall x :: x in a ==> x == a[0] || Newer(txs, a[0], x)
    ensures forall x :: x in a[1..] <==> x in a && x != a[0]
  {
    forall x | x in a ensures x == a[0] || Newer(txs, a[0], x) {
      var l :| 0 <= l < |a| && a[l] == x;
      assert l == 0 || Newer(txs, a[0], a[l]);
    }
    assert a == [a[0]] + a[1..];
    forall x | x in a[1..] ensures x != a[0] {
      var l :| 0 <= l < |a[1..]| && a[1..][l] == x;
      assert Newer(txs, a[0], a[l + 1]);
    }
  }

  /** Any two sequences with the properties of the listing are the same
      sequence: the ordering leaves nothing to chance. */
  lemma {:induction false} ListingUnique(txs: seq<Transaction>, a: seq<TxId>, b: seq<TxId>)
    requires Within(a, |txs|) && NewestFirst(txs, a)
    requires Within(b, |txs|) && NewestFirst(txs, b)
    requires forall x :: x in a <==> x in b
    ensures a == b
    decreases |a|
  {
    if a != [] { assert a[0] in a; }
    if b != [] { assert b[0] in b; }
    if a != [] && b != [] {
      HeadIsNewest(txs, a);
      HeadIsNewest(txs, b);
      assert a[0] in b && b[0] in a;
      assert a[0] == b[0];
      assert Within(a[1..], |txs|) && NewestFirst(txs, a[1..]);
      assert Within(b[1..], |txs|) && NewestFirst(txs, b[1..]);
      ListingUnique(txs, a[1..], b[1..]);
      assert a == [a[0]] + a[1..] && b == [b[0]] + b[1..];
    }
  }

  /** The listing never shows a CANCELLED row nor a row of another user. */
  lemma ListingHides(txs: seq<Transaction>, wallets: seq<Wallet>, user: UserId, k: nat)
    requires k < |Listing(txs, wallets, user)|
    ensures var t := txs[Listing(txs, wallets, user)[k]];
      t.status != Cancelled && t.wallet < |wallets| && wallets[t.wallet].user == user
  {
    var ids := Listing(txs, wallets, user);
    assert ids[k] in ids;
  }

  // ---------------------------------------------------------------------------
  // Serializing a page of the listing
  // ---------------------------------------------------------------------------

  /** Row `t` carries a settlement link to row `id`. */
  predicate LinksTo(t: Transaction, id: int)
  {
    t.objectName == Some(LinkName) && t.objectId == Some(id)
  }

  /** The map `list` builds: every row that a listed row links to, by id. */
  function LinkedMap(txs: seq<Transaction>, ids: seq<TxId>): (m: map<int, Transaction>)
    requires Within(ids, |txs|)
    ensures forall id :: id in m ==> 0 <= id < |txs| && m[id] == txs[id]
  {
    map id | 0 <= id < |txs| && (exists k :: 0 <= k < |ids| && LinksTo(txs[ids[k]], id)) :: txs[id]
  }

  /** The serializer applied to many rows: the first lookup error raises. */
  function SerializeAll(txs: seq<Transaction>, ids: seq<TxId>, m: Option<map<int, Transaction>>): (r: Result<seq<Representation>, KeyError>)
    requires Within(ids, |txs|)
    ensures r.Success? <==> forall k :: 0 <= k < |ids| ==> ToRepresentation(txs[ids[k]], m).Success?
    ensures r.Success? ==> |r.value| == |ids|
    ensures r.Success? ==>
      forall k :: 0 <= k < |ids| ==> ToRepresentation(txs[ids[k]], m) == Success(r.value[k])
    decreases |ids|
  {
    if ids == [] then Success([])
    else
      match ToRepresentation(txs[ids[0]], m)
      case Failure(e) => Failure(e)
      case Success(first) =>
        match SerializeAll(txs, ids[1..], m)
        case Failure(e) =>
          assert forall k :: 1 <= k < |ids| ==> ids[1..][k - 1] == ids[k];
          Failure(e)
        case Success(rest) =>
          assert forall k :: 1 <= k < |ids| ==> ids[1..][k - 1] == ids[k];
          Success([first] + rest)
  }

  /** `WalletTransactionViewSet.list` on any slice of the listing: when every
      settlement link names an existing row, no lookup fails, and a shown row
      carries the serialized settling row exactly when it has a link. */
  lemma PageSerializes(txs: seq<Transaction>, wallets: seq<Wallet>, user: UserId, from: nat, to: nat)
    requires RowsWellFormed(txs, |wallets|)
    requires from <= to <= |Listing(txs, wallets, user)|
    ensures var ids := Listing(txs, wallets, user);
            var page := ids[from..to];
            var r := SerializeAll(txs, page, Some(LinkedMap(txs, ids)));
      && r.Success? && |r.value| == to - from
      && forall k :: 0 <= k < |page| ==>
           && r.value[k].fields == Fields(txs[page[k]])
           && (r.value[k].objectSerialized.Some? <==> txs[page[k]].objectName == Some(LinkName))
           && (r.value[k].objectSerialized.Some? ==>
                 (r.value[k].objectSerialized.value == Representation(Fields(txs[txs[page[k]].objectId.value]), None)))
  {
    var ids := Listing(txs, wallets, user);
    var page := ids[from..to];
    var m := LinkedMap(txs, ids);
    forall k | 0 <= k < |page|
      ensures ToRepresentation(txs[page[k]], Some(m)).Success?
      ensures txs[page[k]].objectName == Some(LinkName) ==> txs[page[k]].objectId.value in m
    {
      var t := txs[page[k]];
      assert page[k] == ids[from + k];
      if t.objectName == Some(LinkName) {
        assert LinkWithin(t, |txs|);
        assert LinksTo(txs[ids[from + k]], t.objectId.value);
      }
    }
  }
}
