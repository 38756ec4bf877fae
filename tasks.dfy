/**
 * The reconciliation sweep `_update_transactions` (wallet_base/tasks/tasks.py).
 *
 * One sweep takes a reference time `now` and runs three steps: Expire, Mature
 * and, for each due debit in the order the database returns them, Settle.
 * Each bulk `.update()` is specified by a function of the table before it
 * (`Expire`, `Mature`, `SettleRows`, `ResolveRequests`) and carried out by a
 * method that rewrites the matching rows one at a time.
 */
module Tasks {
  import opened Wrappers
  import opened Models

  /** The SQL comparison `column < bound`: false when the column is NULL. */
  predicate Before(x: Option<Time>, bound: Time)
  {
    x.Some? && x.value < bound
  }

  /** Expire step filter: AVAILABLE with an expiration strictly before `now`. */
  predicate IsExpiring(t: Transaction, now: Time)
  {
    t.status == Available && Before(t.expiration, now)
  }

  /** Mature step filter: PENDING, non-negative, available strictly before `now`. */
  predicate IsMaturing(t: Transaction, now: Time)
  {
    t.status == Pending && t.amount >= 0.0 && Before(t.available, now)
  }

  /** The due-debit query: PENDING, negative, available strictly before `now`. */
  predicate IsDue(t: Transaction, now: Time)
  {
    t.status == Pending && t.amount < 0.0 && Before(t.available, now)
  }

  /** A row that settling `debit` consumes: an AVAILABLE row of the debit's wallet
      whose availability time is before the debit's creation time. */
  predicate IsConsumedBy(t: Transaction, debit: Transaction)
  {
    t.wallet == debit.wallet && t.status == Available && Before(t.available, debit.added)
  }

  /** The row after settlement by debit `d`. */
  function Settled(t: Transaction, d: TxId): (r: Transaction)
    ensures r.status == Processed && r.objectId == Some(d) && r.objectName == Some(LinkName)
    ensures r.amount == t.amount && r.wallet == t.wallet
  {
    t.(status := Processed, objectId := Some(d), objectName := Some(LinkName))
  }

  /** The table after the Expire step. */
  function Expire(rows: seq<Transaction>, now: Time): (r: seq<Transaction>)
    ensures |r| == |rows|
  {
    seq(|rows|, i requires 0 <= i < |rows| =>
      if IsExpiring(rows[i], now) then rows[i].(status := Expired) else rows[i])
  }

  /** The table after the Mature step. */
  function Mature(rows: seq<Transaction>, now: Time): (r: seq<Transaction>)
    ensures |r| == |rows|
  {
    seq(|rows|, i requires 0 <= i < |rows| =>
      if IsMaturing(rows[i], now) then rows[i].(status := Available) else rows[i])
  }

  /** The table after settling debit `d`: `d` itself and every row it consumes
      become PROCESSED and point at `d`. */
  function SettleRows(rows: seq<Transaction>, d: TxId): (r: seq<Transaction>)
    requires d < |rows|
    ensures |r| == |rows|
  {
    seq(|rows|, j requires 0 <= j < |rows| =>
      if j == d || IsConsumedBy(rows[j], rows[d]) then Settled(rows[j], d) else rows[j])
  }

  /** The request after the request update of debit `d`, made at time `at`. */
  function Resolved(r: ExtractionRequest, at: Time): ExtractionRequest
  {
    r.(status := RequestProcessed, resolution := Some(at))
  }

  /** The request table after every request of debit `d` is marked PROCESSED. */
  function ResolveRequests(requests: seq<ExtractionRequest>, d: TxId, at: Time): (r: seq<ExtractionRequest>)
    ensures |r| == |requests|
  {
    seq(|requests|, i requires 0 <= i < |requests| =>
      if requests[i].transaction == d then Resolved(requests[i], at) else requests[i])
  }

  /** The number of requests attached to transaction `d`. */
  function CountRequests(requests: seq<ExtractionRequest>, d: TxId): nat
    decreases |requests|
  {
    if requests == [] then 0
    else CountRequests(requests[..|requests| - 1], d) + (if requests[|requests| - 1].transaction == d then 1 else 0)
  }

  /** The request update succeeds unless it would give one transaction two
      PROCESSED requests, which the unique (transaction, status) constraint
      rejects; the settlement's atomic block is then rolled back. */
  predicate CanSettle(s: Tables, d: TxId)
  {
    CountRequests(s.requests, d) <= 1
  }

  /** One settlement iteration, when it commits. */
  function SettleOne(s: Tables, d: TxId, at: Time): (r: Tables)
    requires d < |s.txs|
    ensures |r.txs| == |s.txs| && |r.requests| == |s.requests|
  {
    Tables(SettleRows(s.txs, d), ResolveRequests(s.requests, d, at))
  }

  /** What a run of the settlement loop leaves behind: the tables, how many
      debits (a prefix of the order) were settled, and whether the loop ran to
      the end rather than stopping at a failed iteration. */
  datatype Run = Run(tables: Tables, settled: nat, completed: bool)

  predicate OrderWithin(order: seq<TxId>, n: nat)
  {
    forall k :: 0 <= k < |order| ==> order[k] < n
  }

  /** The Settle step over the due debits in `order`, iteration `k` running at
      time `times[k]`.  A failed iteration ends the sweep. */
  function SettleAll(s: Tables, order: seq<TxId>, times: seq<Time>): (r: Run)
    requires |times| == |order| && OrderWithin(order, |s.txs|)
    ensures |r.tables.txs| == |s.txs| && |r.tables.requests| == |s.requests|
    ensures r.settled <= |order|
    ensures r.completed <==> r.settled == |order|
    decreases |order|
  {
    if order == [] then Run(s, 0, true)
    else
      var n := |order| - 1;
      var p := SettleAll(s, order[..n], times[..n]);
      if !p.completed then p
      else if !CanSettle(p.tables, order[n]) then Run(p.tables, p.settled, false)
      else Run(SettleOne(p.tables, order[n], times[n]), p.settled + 1, true)
  }

  /** The table after the Expire and Mature steps, which share one atomic block. */
  function ExpireAndMature(s: Tables, now: Time): (r: Tables)
    ensures |r.txs| == |s.txs| && r.requests == s.requests
  {
    Tables(Mature(Expire(s.txs, now), now), s.requests)
  }

  /** One whole sweep at time `now`. */
  function Sweep(s: Tables, now: Time, order: seq<TxId>, times: seq<Time>): Run
    requires |times| == |order| && OrderWithin(order, |s.txs|)
  {
    SettleAll(ExpireAndMature(s, now), order, times)
  }

  /** `order` lists each row the due-debit query matches exactly once. */
  predicate IsDueOrder(rows: seq<Transaction>, now: Time, order: seq<TxId>)
  {
    && OrderWithin(order, |rows|)
    && (forall k :: 0 <= k < |order| ==> IsDue(rows[order[k]], now))
    && (forall k, l :: 0 <= k < l < |order| ==> order[k] != order[l])
    && (forall j :: 0 <= j < |rows| && IsDue(rows[j], now) ==> j in order)
  }

  // ---------------------------------------------------------------------------
  // Facts the methods need
  // ---------------------------------------------------------------------------

  /** Rewriting statuses only keeps the tables well formed. */
  lemma StatusOnlyKeepsWellFormed(s: Tables, rows: seq<Transaction>, walletCount: nat)
    requires WellFormed(s, walletCount) && |rows| == |s.txs|
    requires forall i :: 0 <= i < |rows| ==> rows[i] == s.txs[i].(status := rows[i].status)
    ensures WellFormed(Tables(rows, s.requests), walletCount)
  {
    forall i | 0 <= i < |rows| ensures rows[i].wallet < walletCount && LinkWithin(rows[i], |rows|) {
      assert rows[i].wallet == s.txs[i].wallet && rows[i].objectName == s.txs[i].objectName;
      assert LinkWithin(s.txs[i], |s.txs|);
    }
  }

  lemma {:induction false} CountOne(requests: seq<ExtractionRequest>, d: TxId, i: nat)
    requires i < |requests| && requests[i].transaction == d
    ensures CountRequests(requests, d) >= 1
    decreases |requests|
  {
    if i < |requests| - 1 {
      var init := requests[..|requests| - 1];
      assert init[i] == requests[i];
      CountOne(init, d, i);
    }
  }

  /** Two distinct requests of `d` make the count at least two. */
  lemma {:induction false} CountTwo(requests: seq<ExtractionRequest>, d: TxId, i: nat, j: nat)
    requires i < j < |requests| && requests[i].transaction == d && requests[j].transaction == d
    ensures CountRequests(requests, d) >= 2
    decreases |requests|
  {
    var init := requests[..|requests| - 1];
    assert init[i] == requests[i];
    if j == |requests| - 1 {
      CountOne(init, d, i);
    } else {
      assert init[j] == requests[j];
      CountTwo(init, d, i, j);
    }
  }

  /** A settlement that commits keeps the tables well formed. */
  lemma SettleOneKeepsWellFormed(s: Tables, walletCount: nat, d: TxId, at: Time)
    requires WellFormed(s, walletCount) && d < |s.txs| && CanSettle(s, d)
    ensures WellFormed(SettleOne(s, d, at), walletCount)
  {
    var r := SettleOne(s, d, at);
    forall i | 0 <= i < |r.txs| ensures r.txs[i].wallet < walletCount && LinkWithin(r.txs[i], |r.txs|) {
      assert LinkWithin(s.txs[i], |s.txs|);
    }
    forall i, j | 0 <= i < j < |r.requests| && r.requests[i].transaction == r.requests[j].transaction
      ensures r.requests[i].status != r.requests[j].status
    {
      if s.requests[i].transaction == d && s.requests[j].transaction == d {
        CountTwo(s.requests, d, i, j);
        assert false;
      }
    }
  }

  /** A positive count names a request of `d`. */
  lemma {:induction false} CountWitness(requests: seq<ExtractionRequest>, d: TxId)
    requires CountRequests(requests, d) >= 1
    ensures exists i :: 0 <= i < |requests| && requests[i].transaction == d
    decreases |requests|
  {
    var n := |requests| - 1;
    if requests[n].transaction != d {
      var init := requests[..n];
      CountWitness(init, d);
      var i :| 0 <= i < n && init[i].transaction == d;
      assert requests[i] == init[i];
    }
  }

  /** A count of two or more names two distinct requests of `d`. */
  lemma {:induction false} CountTwoWitness(requests: seq<ExtractionRequest>, d: TxId)
    requires CountRequests(requests, d) >= 2
    ensures exists i, j :: 0 <= i < j < |requests| && requests[i].transaction == d && requests[j].transaction == d
    decreases |requests|
  {
    var n := |requests| - 1;
    var init := requests[..n];
    if requests[n].transaction == d {
      CountWitness(init, d);
      var i :| 0 <= i < n && init[i].transaction == d;
      assert requests[i] == init[i];
    } else {
      CountTwoWitness(init, d);
      var i, j :| 0 <= i < j < n && init[i].transaction == d && init[j].transaction == d;
      assert requests[i] == init[i] && requests[j] == init[j];
    }
  }

  /** `CanSettle` is exactly the condition under which the request update keeps
      the unique (transaction, status) constraint: with two or more requests,
      the update gives `d` two PROCESSED requests. */
  lemma CanSettleExactly(s: Tables, walletCount: nat, d: TxId, at: Time)
    requires WellFormed(s, walletCount) && d < |s.txs|
    ensures CanSettle(s, d) <==> UniqueRequests(ResolveRequests(s.requests, d, at))
  {
    if CanSettle(s, d) {
      SettleOneKeepsWellFormed(s, walletCount, d, at);
    } else {
      CountTwoWitness(s.requests, d);
      var i, j :| 0 <= i < j < |s.requests| && s.requests[i].transaction == d && s.requests[j].transaction == d;
      var r := ResolveRequests(s.requests, d, at);
      assert r[i].transaction == r[j].transaction && r[i].status == r[j].status;
    }
  }

  /** Once an iteration has failed, the rest of the order is never looked at. */
  lemma {:induction false} AbortIsFinal(s: Tables, order: seq<TxId>, times: seq<Time>, m: nat)
    requires |times| == |order| && OrderWithin(order, |s.txs|) && m <= |order|
    requires !SettleAll(s, order[..m], times[..m]).completed
    ensures SettleAll(s, order, times) == SettleAll(s, order[..m], times[..m])
    decreases |order|
  {
    if m < |order| {
      var n := |order| - 1;
      assert order[..n][..m] == order[..m] && times[..n][..m] == times[..m];
      AbortIsFinal(s, order[..n], times[..n], m);
    } else {
      assert order[..m] == order && times[..m] == times;
    }
  }

  /** Marking requests PROCESSED moves no request to another transaction. */
  lemma {:induction false} CountResolve(requests: seq<ExtractionRequest>, d: TxId, at: Time, e: TxId)
    ensures CountRequests(ResolveRequests(requests, d, at), e) == CountRequests(requests, e)
    decreases |requests|
  {
    if requests != [] {
      var n := |requests| - 1;
      assert ResolveRequests(requests, d, at)[..n] == ResolveRequests(requests[..n], d, at);
      CountResolve(requests[..n], d, at, e);
    }
  }

  /** The settlement loop keeps the number of requests of every transaction. */
  lemma {:induction false} SettleAllCounts(s: Tables, order: seq<TxId>, times: seq<Time>, e: TxId)
    requires |times| == |order| && OrderWithin(order, |s.txs|)
    ensures CountRequests(SettleAll(s, order, times).tables.requests, e) == CountRequests(s.requests, e)
    decreases |order|
  {
    if order != [] {
      var n := |order| - 1;
      var p := SettleAll(s, order[..n], times[..n]);
      SettleAllCounts(s, order[..n], times[..n], e);
      if p.completed && CanSettle(p.tables, order[n]) {
        CountResolve(p.tables.requests, order[n], times[n], e);
      }
    }
  }

  /** How far the settlement loop gets, in terms of its input: it settles the
      longest prefix of the order whose debits have at most one request each,
      it completes exactly when every debit of the order has at most one
      request, and it stops at the first debit with two or more. */
  lemma {:induction false} SettleAllCompletes(s: Tables, order: seq<TxId>, times: seq<Time>)
    requires |times| == |order| && OrderWithin(order, |s.txs|)
    ensures SettleAll(s, order, times).completed <==>
      forall k :: 0 <= k < |order| ==> CountRequests(s.requests, order[k]) <= 1
    ensures forall k :: 0 <= k < SettleAll(s, order, times).settled ==> CountRequests(s.requests, order[k]) <= 1
    ensures !SettleAll(s, order, times).completed ==>
      CountRequests(s.requests, order[SettleAll(s, order, times).settled]) >= 2
    decreases |order|
  {
    if order != [] {
      var n := |order| - 1;
      var p := SettleAll(s, order[..n], times[..n]);
      SettleAllCompletes(s, order[..n], times[..n]);
      assert forall k :: 0 <= k < n ==> order[..n][k] == order[k];
      if p.completed {
        SettleAllCounts(s, order[..n], times[..n], order[n]);
      }
    }
  }

  /** A whole sweep settles every due debit of the order and completes exactly
      when each of them has at most one request; otherwise it stops at the
      first debit with two or more. */
  lemma SweepCompletes(s: Tables, now: Time, order: seq<TxId>, times: seq<Time>)
    requires |times| == |order| && OrderWithin(order, |s.txs|)
    ensures Sweep(s, now, order, times).completed <==>
      forall k :: 0 <= k < |order| ==> CountRequests(s.requests, order[k]) <= 1
    ensures forall k :: 0 <= k < Sweep(s, now, order, times).settled ==> CountRequests(s.requests, order[k]) <= 1
    ensures !Sweep(s, now, order, times).completed ==>
      CountRequests(s.requests, order[Sweep(s, now, order, times).settled]) >= 2
  {
    SettleAllCompletes(ExpireAndMature(s, now), order, times);
  }

  // ---------------------------------------------------------------------------
  // The sweep, step by step
  // ---------------------------------------------------------------------------

  /** Step 1: AVAILABLE rows expiring before `now` become EXPIRED. */
  method ExpireAvailable(db: Ledger, now: Time)
    requires db.Valid()
    modifies db
    ensures db.Valid()
    ensures db.txs == Expire(old(db.txs), now)
    ensures db.requests == old(db.requests) && db.wallets == old(db.wallets)
  {
    ghost var rows0 := db.txs;
    var i := 0;
    while i < |db.txs|
      invariant |db.txs| == |rows0| && 0 <= i <= |rows0|
      invariant forall j :: 0 <= j < i ==> db.txs[j] == Expire(rows0, now)[j]
      invariant forall j :: i <= j < |rows0| ==> db.txs[j] == rows0[j]
      invariant db.requests == old(db.requests) && db.wallets == old(db.wallets)
    {
      if IsExpiring(db.txs[i], now) {
        db.txs := db.txs[i := db.txs[i].(status := Expired)];
      }
      i := i + 1;
    }
    assert db.txs == Expire(rows0, now);
    StatusOnlyKeepsWellFormed(Tables(rows0, db.requests), db.txs, |db.wallets|);
  }

  /** Step 2: PENDING non-negative rows available before `now` become AVAILABLE. */
  method MatureCredits(db: Ledger, now: Time)
    requires db.Valid()
    modifies db
    ensures db.Valid()
    ensures db.txs == Mature(old(db.txs), now)
    ensures db.requests == old(db.requests) && db.wallets == old(db.wallets)
  {
    ghost var rows0 := db.txs;
    var i := 0;
    while i < |db.txs|
      invariant |db.txs| == |rows0| && 0 <= i <= |rows0|
      invariant forall j :: 0 <= j < i ==> db.txs[j] == Mature(rows0, now)[j]
      invariant forall j :: i <= j < |rows0| ==> db.txs[j] == rows0[j]
      invariant db.requests == old(db.requests) && db.wallets == old(db.wallets)
    {
      if IsMaturing(db.txs[i], now) {
        db.txs := db.txs[i := db.txs[i].(status := Available)];
      }
      i := i + 1;
    }
    assert db.txs == Mature(rows0, now);
    StatusOnlyKeepsWellFormed(Tables(rows0, db.requests), db.txs, |db.wallets|);
  }

  /** Step 3, one iteration: settle debit `d` at time `at`.  The row and request
      updates share one atomic block, so a rejected request update leaves both
      tables as they were and reports failure. */
  method SettleDebit(db: Ledger, d: TxId, at: Time) returns (ok: bool)
    requires db.Valid() && d < |db.txs|
    modifies db
    ensures db.Valid() && db.wallets == old(db.wallets)
    ensures ok == CanSettle(old(db.Snapshot()), d)
    ensures db.Snapshot() == if ok then SettleOne(old(db.Snapshot()), d, at) else old(db.Snapshot())
  {
    var debit := db.txs[d];
    var rows := db.txs;
    var j := 0;
    while j < |rows|
      invariant |rows| == |db.txs| && 0 <= j <= |rows|
      invariant forall k :: 0 <= k < j ==> rows[k] == SettleRows(db.txs, d)[k]
      invariant forall k :: j <= k < |rows| ==> rows[k] == db.txs[k]
    {
      if j == d || IsConsumedBy(rows[j], debit) {
        rows := rows[j := Settled(rows[j], d)];
      }
      j := j + 1;
    }
    var reqs := db.requests;
    var count := 0;
    var i := 0;
    while i < |reqs|
      invariant |reqs| == |db.requests| && 0 <= i <= |reqs|
      invariant count == CountRequests(db.requests[..i], d)
      invariant forall k :: 0 <= k < i ==> reqs[k] == ResolveRequests(db.requests, d, at)[k]
      invariant forall k :: i <= k < |reqs| ==> reqs[k] == db.requests[k]
    {
      assert db.requests[..i + 1][..i] == db.requests[..i];
      if reqs[i].transaction == d {
        reqs := reqs[i := Resolved(reqs[i], at)];
        count := count + 1;
      }
      i := i + 1;
    }
    assert db.requests[..|db.requests|] == db.requests;
    ok := count <= 1;
    if ok {
      assert rows == SettleRows(db.txs, d);
      assert reqs == ResolveRequests(db.requests, d, at);
      SettleOneKeepsWellFormed(db.Snapshot(), |db.wallets|, d, at);
      db.txs, db.requests := rows, reqs;
    }
  }

  /** `_update_transactions`: the whole sweep at time `now`.  `order` is the order
      in which the due-debit query returns its rows and `times[k]` the clock
      reading of iteration `k`.  The result says whether the sweep ran to the
      end. */
  method UpdateTransactions(db: Ledger, now: Time, order: seq<TxId>, times: seq<Time>) returns (completed: bool)
    requires db.Valid()
    requires |times| == |order| && IsDueOrder(db.txs, now, order)
    modifies db
    ensures db.Valid() && db.wallets == old(db.wallets)
    ensures db.Snapshot() == Sweep(old(db.Snapshot()), now, order, times).tables
    ensures completed == Sweep(old(db.Snapshot()), now, order, times).completed
  {
    ghost var s0 := db.Snapshot();
    ExpireAvailable(db, now);
    MatureCredits(db, now);
    ghost var s1 := db.Snapshot();
    assert s1 == ExpireAndMature(s0, now);
    var k := 0;
    while k < |order|
      invariant 0 <= k <= |order|
      invariant db.Valid() && db.wallets == old(db.wallets) && |db.txs| == |s0.txs|
      invariant SettleAll(s1, order[..k], times[..k]) == Run(db.Snapshot(), k, true)
    {
      assert order[..k + 1][..k] == order[..k] && times[..k + 1][..k] == times[..k];
      var ok := SettleDebit(db, order[k], times[k]);
      if !ok {
        AbortIsFinal(s1, order, times, k + 1);
        return false;
      }
      k := k + 1;
    }
    assert order[..k] == order && times[..k] == times;
    completed := true;
  }
}
