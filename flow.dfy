/**
 * An extraction request followed by sweeps: the debit waits until a
 * collaborator sets its availability, is then settled by the next sweep, and
 * consumes only the credits that were available before the debit was created.
 */
module Flow {
  import opened Wrappers
  import opened Models
  import opened Tasks
  import opened Serializers
  import opened SweepProperties

  /** No request of a table references `d`: its count is zero. */
  lemma {:induction false} CountNone(requests: seq<ExtractionRequest>, d: TxId)
    requires forall i :: 0 <= i < |requests| ==> requests[i].transaction != d
    ensures CountRequests(requests, d) == 0
    decreases |requests|
  {
    if requests != [] {
      var n := |requests| - 1;
      assert forall i :: 0 <= i < n ==> requests[..n][i] == requests[i];
      CountNone(requests[..n], d);
    }
  }

  /** An accepted request gives its new debit exactly one request and leaves
      the count of every other transaction as it was, so the sweep that settles
      the debit can commit. */
  lemma RequestCarriesOneRequest(s: Tables, v: Validated, user: UserId, now: Time, e: TxId)
    requires forall i :: 0 <= i < |s.requests| ==> s.requests[i].transaction < |s.txs|
    ensures CountRequests(AfterRequest(s, v, user, now).requests, |s.txs|) == 1
    ensures e != |s.txs| ==> CountRequests(AfterRequest(s, v, user, now).requests, e) == CountRequests(s.requests, e)
  {
    var rs := AfterRequest(s, v, user, now).requests;
    assert rs[..|s.requests|] == s.requests;
    CountNone(s.requests, |s.txs|);
  }

  /** A fresh extraction debit has no availability, so no sweep settles it or
      resolves its request, whatever the time. */
  lemma ExtractionWaitsForAvailability(s: Tables, v: Validated, user: UserId, at: Time,
                                       now: Time, order: seq<TxId>, times: seq<Time>)
    requires v.credit > 0.0
    requires |times| == |order| && IsDueOrder(AfterRequest(s, v, user, at).txs, now, order)
    ensures var s2 := AfterRequest(s, v, user, at);
            var r := Sweep(s2, now, order, times).tables;
      && r.txs[|s.txs|] == ExtractionDebit(v, at)
      && r.requests[|s.requests|] == ExtractionRequestRow(|s.txs|, user, at)
  {
    var s2 := AfterRequest(s, v, user, at);
    UndueDebitsUntouched(s2, now, order, times, |s.txs|);
  }

  /** Once the debit's availability is set to a time before `now`, a sweep that
      runs to the end makes it PROCESSED, linked to itself, and its request
      PROCESSED with the resolution time of its iteration. */
  lemma ReleasedExtractionIsProcessed(s: Tables, d: TxId, released: Time,
                                      now: Time, order: seq<TxId>, times: seq<Time>)
    requires d < |s.txs| && s.txs[d].status == Pending && s.txs[d].amount < 0.0 && released < now
    requires var s2 := Tables(s.txs[d := s.txs[d].(available := Some(released))], s.requests);
      && |times| == |order| && IsDueOrder(s2.txs, now, order)
      && forall j :: 0 <= j < |s.txs| && IsDue(s2.txs[j], now) ==> CountRequests(s.requests, j) <= 1
    ensures var s2 := Tables(s.txs[d := s.txs[d].(available := Some(released))], s.requests);
            var r := Sweep(s2, now, order, times).tables;
      && Sweep(s2, now, order, times).completed
      && r.txs[d] == Settled(s2.txs[d], d)
      && r.txs[d].status == Processed
      && exists k :: 0 <= k < |order| && order[k] == d &&
           forall i :: 0 <= i < |s.requests| && s.requests[i].transaction == d ==>
             r.requests[i] == Resolved(s.requests[i], times[k])
  {
    var s2 := Tables(s.txs[d := s.txs[d].(available := Some(released))], s.requests);
    assert IsDue(s2.txs[d], now);
    assert d in order;
    var k :| 0 <= k < |order| && order[k] == d;
    SweepCompletes(s2, now, order, times);
    assert forall l :: 0 <= l < |order| ==> IsDue(s2.txs[order[l]], now);
    SettledDebitsPointAtThemselves(s2, now, order, times, k);
  }

  /** A credit that became available only after every due debit of its wallet
      was created is still AVAILABLE after the sweep (if it has not expired):
      debits consume only credits older than themselves. */
  lemma LaterCreditStaysAvailable(s: Tables, now: Time, order: seq<TxId>, times: seq<Time>, c: TxId)
    requires |times| == |order| && IsDueOrder(s.txs, now, order) && c < |s.txs|
    requires (s.txs[c].status == Available && !Before(s.txs[c].expiration, now)) || IsMaturing(s.txs[c], now)
    requires forall j :: 0 <= j < |s.txs| && IsDue(s.txs[j], now) && s.txs[j].wallet == s.txs[c].wallet ==>
      !Before(s.txs[c].available, s.txs[j].added)
    ensures Sweep(s, now, order, times).tables.txs[c].status == Available
  {
    PhasesRow(s.txs, now, c);
    UnconsumedRowsKept(s, now, order, times, c);
  }
}
