/**
 * What one sweep does to the tables, stated without the loop.
 *
 * The central fact is `SettleAllView`: after the settlement loop, a row is
 * either untouched, or settled by itself (it is one of the settled debits), or
 * settled by the FIRST settled debit that consumes it.  The other lemmas of
 * this module follow from it and from `PhasesRow`, which composes Expire with
 * Mature.
 */
module SweepProperties {
  import opened Wrappers
  import opened Models
  import opened Tasks

  // ---------------------------------------------------------------------------
  // A reference description of the settlement loop
  // ---------------------------------------------------------------------------

  /** The position in `order` of the first debit that consumes row `c`, if any. */
  function FirstConsumer(rows: seq<Transaction>, order: seq<TxId>, c: TxId): (r: Option<nat>)
    requires c < |rows| && OrderWithin(order, |rows|)
    ensures r.Some? ==> r.value < |order| && IsConsumedBy(rows[c], rows[order[r.value]])
    ensures r.Some? ==> forall k :: 0 <= k < r.value ==> !IsConsumedBy(rows[c], rows[order[k]])
    ensures r.None? ==> forall k :: 0 <= k < |order| ==> !IsConsumedBy(rows[c], rows[order[k]])
    decreases |order|
  {
    if order == [] then None
    else
      var n := |order| - 1;
      var p := FirstConsumer(rows, order[..n], c);
      if p.Some? then p
      else if IsConsumedBy(rows[c], rows[order[n]]) then Some(n)
      else None
  }

  /** The position of `x` in `order`, if it occurs. */
  function IndexOf(order: seq<TxId>, x: TxId): (r: Option<nat>)
    ensures r.Some? ==> r.value < |order| && order[r.value] == x
    ensures r.None? ==> x !in order
    decreases |order|
  {
    if order == [] then None
    else
      var n := |order| - 1;
      var p := IndexOf(order[..n], x);
      if p.Some? then p
      else if order[n] == x then Some(n)
      else None
  }

  predicate Distinct(order: seq<TxId>)
  {
    forall k, l :: 0 <= k < l < |order| ==> order[k] != order[l]
  }

  lemma IndexOfDistinct(order: seq<TxId>, k: nat)
    requires Distinct(order) && k < |order|
    ensures IndexOf(order, order[k]) == Some(k)
  {
    assert order[k] in order;
  }

  /** Row `c` after settling, in order, the debits of `order`. */
  function SettledView(rows: seq<Transaction>, order: seq<TxId>, c: TxId): Transaction
    requires c < |rows| && OrderWithin(order, |rows|)
  {
    if c in order then Settled(rows[c], c)
    else match FirstConsumer(rows, order, c)
      case Some(k) => Settled(rows[c], order[k])
      case None => rows[c]
  }

  /** Request `i` after settling the debits of `order`, iteration `k` at `times[k]`. */
  function ResolvedView(requests: seq<ExtractionRequest>, order: seq<TxId>, times: seq<Time>, i: nat): ExtractionRequest
    requires i < |requests| && |times| == |order|
  {
    match IndexOf(order, requests[i].transaction)
    case Some(k) => Resolved(requests[i], times[k])
    case None => requests[i]
  }

  /** The debits of `order` are distinct rows, all PENDING. */
  predicate PendingDebits(rows: seq<Transaction>, order: seq<TxId>)
  {
    OrderWithin(order, |rows|) && Distinct(order)
    && forall k :: 0 <= k < |order| ==> rows[order[k]].status == Pending
  }

  /** `r` agrees with the reference description on every row and every request,
      for the prefix of `order` that it settled. */
  predicate AgreesWithView(s: Tables, order: seq<TxId>, times: seq<Time>, r: Run)
    requires |times| == |order| && OrderWithin(order, |s.txs|)
  {
    && r.settled <= |order|
    && |r.tables.txs| == |s.txs| && |r.tables.requests| == |s.requests|
    && (forall c :: 0 <= c < |s.txs| ==>
          r.tables.txs[c] == SettledView(s.txs, order[..r.settled], c))
    && (forall i :: 0 <= i < |s.requests| ==>
          r.tables.requests[i] == ResolvedView(s.requests, order[..r.settled], times[..r.settled], i))
  }

  /** One committed iteration, on the rows: settling a fresh PENDING debit `d`
      after the debits of `o` gives the reference description for `o + [d]`. */
  lemma SettleStepRows(rows: seq<Transaction>, o: seq<TxId>, d: TxId, before: seq<Transaction>)
    requires PendingDebits(rows, o) && d < |rows| && d !in o && rows[d].status == Pending
    requires |before| == |rows|
    requires forall c :: 0 <= c < |rows| ==> before[c] == SettledView(rows, o, c)
    ensures forall c :: 0 <= c < |rows| ==> SettleRows(before, d)[c] == SettledView(rows, o + [d], c)
  {
    var o2 := o + [d];
    assert o2[..|o|] == o;
    assert FirstConsumer(rows, o, d).None?;
    assert before[d] == rows[d];
    forall c | 0 <= c < |rows|
      ensures SettleRows(before, d)[c] == SettledView(rows, o2, c)
    {
      assert c in o2 <==> c in o || c == d;
    }
  }

  /** One committed iteration, on the requests: resolving the requests of a debit
      `d` not in `o` at time `at` gives the reference description for `o + [d]`. */
  lemma SettleStepRequests(requests: seq<ExtractionRequest>, o: seq<TxId>, t: seq<Time>, d: TxId, at: Time,
                           before: seq<ExtractionRequest>)
    requires |t| == |o| && d !in o && |before| == |requests|
    requires forall i :: 0 <= i < |requests| ==> before[i] == ResolvedView(requests, o, t, i)
    ensures forall i :: 0 <= i < |requests| ==>
      ResolveRequests(before, d, at)[i] == ResolvedView(requests, o + [d], t + [at], i)
  {
    var o2, t2 := o + [d], t + [at];
    assert o2[..|o|] == o;
    forall i | 0 <= i < |requests|
      ensures ResolveRequests(before, d, at)[i] == ResolvedView(requests, o2, t2, i)
    {
      var x := requests[i].transaction;
      match IndexOf(o, x)
      case Some(k) => assert t2[k] == t[k];
      case None =>
    }
  }

  /** A failed iteration leaves the view of the loop so far. */
  lemma AbortStepView(s: Tables, order: seq<TxId>, times: seq<Time>, n: nat, p: Run)
    requires |times| == |order| && OrderWithin(order, |s.txs|) && n <= |order|
    requires AgreesWithView(s, order[..n], times[..n], p)
    ensures AgreesWithView(s, order, times, Run(p.tables, p.settled, false))
  {
    assert order[..p.settled] == order[..n][..p.settled] && times[..p.settled] == times[..n][..p.settled];
  }

  /** A committed iteration on a fresh PENDING debit extends the view by that debit. */
  lemma CommitStepView(s: Tables, o: seq<TxId>, t: seq<Time>, d: TxId, at: Time, p: Run)
    requires |t| == |o| && PendingDebits(s.txs, o) && d < |s.txs| && d !in o && s.txs[d].status == Pending
    requires AgreesWithView(s, o, t, p) && p.settled == |o|
    ensures AgreesWithView(s, o + [d], t + [at], Run(SettleOne(p.tables, d, at), |o| + 1, true))
  {
    assert o[..p.settled] == o && t[..p.settled] == t;
    assert (o + [d])[..|o| + 1] == o + [d] && (t + [at])[..|o| + 1] == t + [at];
    SettleStepRows(s.txs, o, d, p.tables.txs);
    SettleStepRequests(s.requests, o, t, d, at, p.tables.requests);
  }

  /** The settlement loop agrees with the reference description. */
  lemma {:induction false} SettleAllView(s: Tables, order: seq<TxId>, times: seq<Time>)
    requires |times| == |order| && PendingDebits(s.txs, order)
    ensures AgreesWithView(s, order, times, SettleAll(s, order, times))
    decreases |order|
  {
    if order == [] {
      assert order[..0] == [] && times[..0] == [];
    } else {
      var n := |order| - 1;
      var o, t := order[..n], times[..n];
      assert forall k :: 0 <= k < n ==> o[k] == order[k];
      assert PendingDebits(s.txs, o);
      SettleAllView(s, o, t);
      var p := SettleAll(s, o, t);
      if !p.completed {
        AbortStepView(s, order, times, n, p);
        assert Run(p.tables, p.settled, false) == p;
      } else if !CanSettle(p.tables, order[n]) {
        AbortStepView(s, order, times, n, p);
      } else {
        var d := order[n];
        assert d !in o by {
          forall k | 0 <= k < n ensures o[k] != d { assert order[k] != order[n]; }
        }
        CommitStepView(s, o, t, d, times[n], p);
        assert order == o + [d] && times == t + [times[n]];
      }
    }
  }

  // ---------------------------------------------------------------------------
  // Expire, then Mature
  // ---------------------------------------------------------------------------

  /** Expire and Mature run in that order with the same `now`: a row promoted by
      Mature is still AVAILABLE at the end of the block even when its expiration
      has passed, and a row Expire touches is not promoted. */
  lemma PhasesRow(rows: seq<Transaction>, now: Time, i: nat)
    requires i < |rows|
    ensures var e := ExpireAndMature(Tables(rows, []), now).txs[i];
      && (IsExpiring(rows[i], now) ==> e == rows[i].(status := Expired))
      && (IsMaturing(rows[i], now) ==> e == rows[i].(status := Available))
      && (!IsExpiring(rows[i], now) && !IsMaturing(rows[i], now) ==> e == rows[i])
  {
  }

  /** The Expire and Mature steps leave due debits alone and create no new ones. */
  lemma PhasesKeepDue(rows: seq<Transaction>, now: Time, i: nat)
    requires i < |rows|
    ensures var e := ExpireAndMature(Tables(rows, []), now).txs[i];
      && (IsDue(rows[i], now) ==> e == rows[i])
      && (IsDue(e, now) <==> IsDue(rows[i], now))
  {
    PhasesRow(rows, now, i);
  }

  /** The whole sweep agrees with the reference description applied to the table
      after Expire and Mature. */
  lemma SweepView(s: Tables, now: Time, order: seq<TxId>, times: seq<Time>)
    requires |times| == |order| && IsDueOrder(s.txs, now, order)
    ensures ExpireAndMature(s, now).requests == s.requests
    ensures AgreesWithView(ExpireAndMature(s, now), order, times, Sweep(s, now, order, times))
  {
    var s1 := ExpireAndMature(s, now);
    forall k | 0 <= k < |order| ensures s1.txs[order[k]].status == Pending {
      PhasesKeepDue(s.txs, now, order[k]);
    }
    assert Sweep(s, now, order, times) == SettleAll(s1, order, times);
    SettleAllView(s1, order, times);
  }

  // ---------------------------------------------------------------------------
  // Consequences for one sweep
  // ---------------------------------------------------------------------------

  /** The status moves one sweep can make. */
  predicate SweepMove(before: TxStatus, after: TxStatus)
  {
    || before == after
    || (before == Available && (after == Expired || after == Processed))
    || (before == Pending && (after == Available || after == Processed))
  }

  /** A sweep changes only status and settlement link, never the amount; it
      leaves CANCELLED, EXPIRED and PROCESSED rows as they are; and its only
      status moves are AVAILABLE to EXPIRED or PROCESSED and PENDING to
      AVAILABLE or PROCESSED. */
  lemma SweepFrame(s: Tables, now: Time, order: seq<TxId>, times: seq<Time>, c: TxId)
    requires |times| == |order| && IsDueOrder(s.txs, now, order) && c < |s.txs|
    ensures var after := Sweep(s, now, order, times).tables.txs[c];
      && after == s.txs[c].(status := after.status, objectId := after.objectId, objectName := after.objectName)
      && after.amount == s.txs[c].amount
      && (s.txs[c].status in {Cancelled, Expired, Processed} ==> after == s.txs[c])
      && SweepMove(s.txs[c].status, after.status)
  {
    var r := Sweep(s, now, order, times);
    var s1 := ExpireAndMature(s, now);
    var o := order[..r.settled];
    SweepView(s, now, order, times);
    assert AgreesWithView(ExpireAndMature(s, now), order, times, Sweep(s, now, order, times));
    PhasesRow(s.txs, now, c);
    PhasesKeepDue(s.txs, now, c);
    assert r.tables.txs[c] == SettledView(s1.txs, o, c);
    if c in o {
      assert c in order;
      var k :| 0 <= k < |order| && order[k] == c;
      assert IsDue(s.txs[c], now);
    }
  }

  /** Every settled debit points at itself, and each of its requests is PROCESSED
      with the resolution time of its own iteration. */
  lemma SettledDebitsPointAtThemselves(s: Tables, now: Time, order: seq<TxId>, times: seq<Time>, k: nat)
    requires |times| == |order| && IsDueOrder(s.txs, now, order)
    requires k < Sweep(s, now, order, times).settled
    ensures var r := Sweep(s, now, order, times);
      && r.tables.txs[order[k]] == Settled(s.txs[order[k]], order[k])
      && forall i :: 0 <= i < |s.requests| && s.requests[i].transaction == order[k] ==>
           r.tables.requests[i] == Resolved(s.requests[i], times[k])
  {
    var r := Sweep(s, now, order, times);
    var o, t := order[..r.settled], times[..r.settled];
    SweepView(s, now, order, times);
    assert AgreesWithView(ExpireAndMature(s, now), order, times, Sweep(s, now, order, times));
    PhasesKeepDue(s.txs, now, order[k]);
    assert o[k] == order[k] && t[k] == times[k];
    assert order[k] in o;
    assert Distinct(o);
    IndexOfDistinct(o, k);
  }

  /** A row that some settled debit consumes ends PROCESSED, linked to a debit
      settled no later than that one. */
  lemma ConsumedRowsAreProcessed(s: Tables, now: Time, order: seq<TxId>, times: seq<Time>, c: TxId, k: nat)
    requires |times| == |order| && IsDueOrder(s.txs, now, order) && c < |s.txs|
    requires k < Sweep(s, now, order, times).settled
    requires IsConsumedBy(ExpireAndMature(s, now).txs[c], s.txs[order[k]])
    ensures var after := Sweep(s, now, order, times).tables.txs[c];
      && after.status == Processed && after.objectName == Some(LinkName)
      && after.objectId.Some? && after.objectId.value in order[..k + 1]
  {
    var r := Sweep(s, now, order, times);
    var s1 := ExpireAndMature(s, now);
    var o := order[..r.settled];
    SweepView(s, now, order, times);
    assert AgreesWithView(ExpireAndMature(s, now), order, times, Sweep(s, now, order, times));
    PhasesKeepDue(s.txs, now, order[k]);
    assert o[k] == order[k];
    PhasesKeepDue(s.txs, now, c);
    assert forall m :: 0 <= m < |o| ==> o[m] == order[m] && IsDue(s.txs[order[m]], now);
    assert c !in o;
    var f := FirstConsumer(s1.txs, o, c);
    assert f.Some? && f.value <= k;
    assert o[f.value] == order[f.value];
    assert order[f.value] == order[..k + 1][f.value];
  }

  /** Settle runs after Mature: a credit matured in this sweep is consumed in the
      same sweep by a settled debit of its wallet created after it became
      available. */
  lemma MaturedCreditsCanBeConsumed(s: Tables, now: Time, order: seq<TxId>, times: seq<Time>, c: TxId, k: nat)
    requires |times| == |order| && IsDueOrder(s.txs, now, order) && c < |s.txs|
    requires k < Sweep(s, now, order, times).settled
    requires IsMaturing(s.txs[c], now)
    requires s.txs[c].wallet == s.txs[order[k]].wallet && Before(s.txs[c].available, s.txs[order[k]].added)
    ensures Sweep(s, now, order, times).tables.txs[c].status == Processed
  {
    PhasesRow(s.txs, now, c);
    ConsumedRowsAreProcessed(s, now, order, times, c, k);
  }

  /** A row that no debit of the order consumes, and that is not itself due,
      ends as Expire and Mature left it. */
  lemma UnconsumedRowsKept(s: Tables, now: Time, order: seq<TxId>, times: seq<Time>, c: TxId)
    requires |times| == |order| && IsDueOrder(s.txs, now, order) && c < |s.txs|
    requires !IsDue(s.txs[c], now)
    requires forall k :: 0 <= k < |order| ==> !IsConsumedBy(ExpireAndMature(s, now).txs[c], s.txs[order[k]])
    ensures Sweep(s, now, order, times).tables.txs[c] == ExpireAndMature(s, now).txs[c]
  {
    var r := Sweep(s, now, order, times);
    var s1 := ExpireAndMature(s, now);
    var o := order[..r.settled];
    SweepView(s, now, order, times);
    assert AgreesWithView(s1, order, times, r);
    assert forall m :: 0 <= m < |o| ==> o[m] == order[m] && IsDue(s.txs[order[m]], now);
    assert c !in o;
    forall m | 0 <= m < |o| ensures s1.txs[o[m]] == s.txs[o[m]] {
      PhasesKeepDue(s.txs, now, o[m]);
    }
    assert FirstConsumer(s1.txs, o, c).None?;
  }

  /** A PENDING debit that is not yet due (availability NULL or not before `now`)
      is left as it is, and so are its requests. */
  lemma UndueDebitsUntouched(s: Tables, now: Time, order: seq<TxId>, times: seq<Time>, j: TxId)
    requires |times| == |order| && IsDueOrder(s.txs, now, order) && j < |s.txs|
    requires s.txs[j].status == Pending && s.txs[j].amount < 0.0 && !Before(s.txs[j].available, now)
    ensures var r := Sweep(s, now, order, times);
      && r.tables.txs[j] == s.txs[j]
      && forall i :: 0 <= i < |s.requests| && s.requests[i].transaction == j ==> r.tables.requests[i] == s.requests[i]
  {
    var r := Sweep(s, now, order, times);
    var o, t := order[..r.settled], times[..r.settled];
    SweepView(s, now, order, times);
    assert AgreesWithView(ExpireAndMature(s, now), order, times, Sweep(s, now, order, times));
    PhasesRow(s.txs, now, j);
    assert forall m :: 0 <= m < |o| ==> o[m] == order[m] && IsDue(s.txs[order[m]], now);
    assert j !in o;
    forall i | 0 <= i < |s.requests| && s.requests[i].transaction == j
      ensures r.tables.requests[i] == s.requests[i]
    {
      assert IndexOf(o, j).None?;
    }
  }

  /** Requests of transactions the sweep did not settle are unchanged. */
  lemma OtherRequestsUntouched(s: Tables, now: Time, order: seq<TxId>, times: seq<Time>, i: nat)
    requires |times| == |order| && IsDueOrder(s.txs, now, order) && i < |s.requests|
    requires s.requests[i].transaction !in order[..Sweep(s, now, order, times).settled]
    ensures Sweep(s, now, order, times).tables.requests[i] == s.requests[i]
  {
    SweepView(s, now, order, times);
    assert AgreesWithView(ExpireAndMature(s, now), order, times, Sweep(s, now, order, times));
  }

  // ---------------------------------------------------------------------------
  // Running the sweep again
  // ---------------------------------------------------------------------------

  /** After a sweep that ran to the end, no due debit and no maturing credit is
      left; a second sweep at the same `now` has nothing to settle, and all it
      still changes is to expire credits that the first sweep matured although
      their expiration had already passed (and that it did not consume). */
  lemma SecondSweep(s: Tables, now: Time, order: seq<TxId>, times: seq<Time>)
    requires |times| == |order| && IsDueOrder(s.txs, now, order)
    requires Sweep(s, now, order, times).completed
    ensures var s2 := Sweep(s, now, order, times).tables;
      && IsDueOrder(s2.txs, now, [])
      && (forall c :: 0 <= c < |s2.txs| ==> !IsMaturing(s2.txs[c], now))
      && Sweep(s2, now, [], []) == Run(Tables(Expire(s2.txs, now), s2.requests), 0, true)
      && forall c :: 0 <= c < |s2.txs| && Expire(s2.txs, now)[c] != s2.txs[c] ==>
           IsMaturing(s.txs[c], now) && Before(s.txs[c].expiration, now)
  {
    var r := Sweep(s, now, order, times);
    var s1 := ExpireAndMature(s, now);
    var s2 := r.tables;
    SweepView(s, now, order, times);
    assert AgreesWithView(ExpireAndMature(s, now), order, times, Sweep(s, now, order, times));
    assert order[..r.settled] == order;
    forall c | 0 <= c < |s2.txs|
      ensures !IsDue(s2.txs[c], now) && !IsMaturing(s2.txs[c], now)
      ensures Expire(s2.txs, now)[c] != s2.txs[c] ==> IsMaturing(s.txs[c], now) && Before(s.txs[c].expiration, now)
    {
      PhasesRow(s.txs, now, c);
      PhasesKeepDue(s.txs, now, c);
      assert s2.txs[c] == SettledView(s1.txs, order, c);
    }
    var e := Expire(s2.txs, now);
    assert Mature(e, now) == e;
  }

  /** The sweep is not idempotent: a PENDING credit whose availability and
      expiration have both passed is made AVAILABLE by one sweep and EXPIRED by
      the next, at the same `now`. */
  lemma SweepNotIdempotent()
    ensures var credit := Transaction(0, None, DefaultObjectId, None, Pending, ARS, 1.0, Some(0), Some(1), 0);
            var s := Tables([credit], []);
            var r1 := Sweep(s, 5, [], []);
            var r2 := Sweep(r1.tables, 5, [], []);
      && IsDueOrder(s.txs, 5, [])
      && r1.completed && r1.tables.txs[0].status == Available
      && r2.tables.txs[0].status == Expired
  {
  }

  /** Two due debits of one wallet, created at times 5 and 6, and one AVAILABLE
      credit that both could consume. */
  function OrderExample(): Tables
  {
    var credit := Transaction(0, None, DefaultObjectId, None, Available, ARS, 10.0, Some(0), None, 0);
    var d1 := Transaction(0, None, DefaultObjectId, None, Pending, ARS, -10.0, Some(1), None, 5);
    var d2 := Transaction(0, None, DefaultObjectId, None, Pending, ARS, -10.0, Some(2), None, 6);
    Tables([credit, d1, d2], [])
  }

  /** In the example, Expire and Mature change nothing, and rows 1 and 2 are
      exactly the due debits. */
  lemma OrderExamplePhases()
    ensures ExpireAndMature(OrderExample(), 20) == OrderExample()
    ensures forall j :: 0 <= j < 3 ==> (IsDue(OrderExample().txs[j], 20) <==> j == 1 || j == 2)
  {
    var s := OrderExample();
    assert Expire(s.txs, 20) == s.txs;
    assert Mature(s.txs, 20) == s.txs;
  }

  /** In the example, either order of rows 1 and 2 is an order the due-debit
      query may return. */
  lemma OrderExampleDue(a: TxId, b: TxId)
    requires (a == 1 && b == 2) || (a == 2 && b == 1)
    ensures IsDueOrder(OrderExample().txs, 20, [a, b])
  {
    OrderExamplePhases();
    var rows := OrderExample().txs;
    assert IsDue(rows[a], 20) && IsDue(rows[b], 20);
    forall j | 0 <= j < |rows| && IsDue(rows[j], 20) ensures j in [a, b] {
      assert j == a || j == b;
    }
  }

  /** In the example, the shared credit goes to the debit settled first. */
  lemma OrderExampleFirstWins(a: TxId, b: TxId)
    requires (a == 1 && b == 2) || (a == 2 && b == 1)
    ensures Sweep(OrderExample(), 20, [a, b], [20, 20]).tables.txs[0].objectId == Some(a)
  {
    OrderExamplePhases();
    var s1 := OrderExample();
    assert [a, b][..1] == [a] && [20, 20][..1] == [20];
    assert [a][..0] == [] && [20][..0] == [];
    var first := SettleOne(s1, a, 20);
    assert SettleAll(s1, [a], [20]) == Run(first, 1, true);
    assert first.txs[0] == Settled(s1.txs[0], a) && first.requests == [];
    var second := SettleOne(first, b, 20);
    assert SettleAll(s1, [a, b], [20, 20]) == Run(second, 2, true);
    assert second.txs[0] == first.txs[0];
  }

  /** The outcome depends on the order of the due debits: with two due debits in
      one wallet, a credit both could consume goes to whichever comes first. */
  lemma SettlementOrderMatters()
    ensures IsDueOrder(OrderExample().txs, 20, [1, 2]) && IsDueOrder(OrderExample().txs, 20, [2, 1])
    ensures Sweep(OrderExample(), 20, [1, 2], [20, 20]).tables.txs[0].objectId == Some(1)
    ensures Sweep(OrderExample(), 20, [2, 1], [20, 20]).tables.txs[0].objectId == Some(2)
  {
    OrderExampleDue(1, 2);
    OrderExampleDue(2, 1);
    OrderExampleFirstWins(1, 2);
    OrderExampleFirstWins(2, 1);
  }
}
