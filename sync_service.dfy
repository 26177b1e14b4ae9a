/** The sync cycle (services/syncService.js): find the Verified leads that
    are not yet synced, and mark and save them one after another. The
    first failed save ends the cycle; the leads marked before it stay marked.
    `SyncCycle` is the specification of one cycle over a snapshot of the
    store; `ExecuteSyncTask` performs it on the store and is proved to agree
    with it. */
module SyncService {
  import opened Wrappers
  import opened Text
  import opened LeadModel
  import opened LeadStore

  const NO_LEADS_MESSAGE: string := "No leads to sync"
  const SYNC_ERROR_MESSAGE: string := "Error during sync"

  function SuccessMessage(count: nat): string {
    "Successfully synced " + NatToString(count) + " lead(s)"
  }

  /** The summary `executeSyncTask` returns: success with the number of
      leads synced, or failure with the error's message. */
  datatype SyncResult =
    | SyncOk(message: string, syncedCount: nat)
    | SyncFailed(message: string, error: string)

  /** One cycle's summary and the store contents it leaves behind. */
  datatype Cycle = Cycle(result: SyncResult, leads: seq<Lead>)

  /** The query `{ status: 'Verified', synced: false }`. */
  predicate Eligible(l: Lead) {
    l.status == VERIFIED && !l.synced
  }

  /** The positions of the eligible leads, in store order. */
  function Selected(leads: seq<Lead>): (sel: seq<nat>)
    ensures forall i: nat :: i in sel <==> i < |leads| && Eligible(leads[i])
    ensures forall a :: 0 <= a < |sel| ==> sel[a] < |leads| && Eligible(leads[sel[a]])
    ensures forall a, b :: 0 <= a < b < |sel| ==> sel[a] < sel[b]
  {
    if leads == [] then []
    else
      var n := |leads| - 1;
      var sel := Selected(leads[..n]);
      if Eligible(leads[n]) then sel + [n] else sel
  }

  /** What `syncToCRM` does to one lead before saving it. */
  function MarkSynced(l: Lead, now: Timestamp): Lead {
    l.(synced := true, syncedAt := Some(now))
  }

  predicate InRange(sel: seq<nat>, leads: seq<Lead>) {
    forall a :: 0 <= a < |sel| ==> sel[a] < |leads|
  }

  /** The leads after marking the first `j` of the positions `sel`, one
      after another. */
  function MarkFirst(leads: seq<Lead>, sel: seq<nat>, j: nat, now: Timestamp): (r: seq<Lead>)
    requires InRange(sel, leads) && j <= |sel|
    ensures |r| == |leads|
  {
    if j == 0 then leads
    else
      var prev := MarkFirst(leads, sel, j - 1, now);
      prev[sel[j - 1] := MarkSynced(prev[sel[j - 1]], now)]
  }

  /** One cycle over the store contents `leads`. `findError` is a failure of
      the query; `saveError(j)` is the failure, if any, of the save of the
      `j`-th selected lead. */
  function SyncCycle(leads: seq<Lead>, now: Timestamp, findError: Option<string>,
                     saveError: nat -> Option<string>): Cycle
  {
    if findError.Some? then Cycle(SyncFailed(SYNC_ERROR_MESSAGE, findError.value), leads)
    else
      var sel := Selected(leads);
      if |sel| == 0 then Cycle(SyncOk(NO_LEADS_MESSAGE, 0), leads)
      else
        var k := FirstFailure(|sel|, saveError, 0);
        var result := if k == |sel| then SyncOk(SuccessMessage(|sel|), |sel|)
                      else SyncFailed(SYNC_ERROR_MESSAGE, saveError(k).value);
        Cycle(result, MarkFirst(leads, sel, k, now))
  }

  // ---------------------------------------------------------------------------
  // Properties of a cycle

  /** Marking the first `j` selected positions marks exactly those positions. */
  lemma {:induction false} MarkFirstAt(leads: seq<Lead>, sel: seq<nat>, j: nat, now: Timestamp, i: nat)
    requires InRange(sel, leads) && j <= |sel| && i < |leads|
    ensures MarkFirst(leads, sel, j, now)[i] == if i in sel[..j] then MarkSynced(leads[i], now) else leads[i]
  {
    if j > 0 {
      MarkFirstAt(leads, sel, j - 1, now, i);
      assert sel[..j] == sel[..j - 1] + [sel[j - 1]];
    }
  }

  /** A failed query ends the cycle with its error and changes nothing.
      Otherwise the cycle fails exactly when the save of some selected lead
      fails; when the `k`-th save is the first to fail, the cycle reports
      that save's error, the first `k` selected leads are marked and all
      others, including the selected leads from `k` on, are as they were.
      After a successful cycle exactly the eligible leads are marked with
      this cycle's time, and every other lead is as it was. */
  lemma CycleEffect(leads: seq<Lead>, now: Timestamp, findError: Option<string>, saveError: nat -> Option<string>)
    ensures var c := SyncCycle(leads, now, findError, saveError);
      && |c.leads| == |leads|
      && (findError.Some? ==>
            c.result == SyncFailed(SYNC_ERROR_MESSAGE, findError.value) && c.leads == leads)
      && (findError.None? ==>
            var sel := Selected(leads);
            var k := FirstFailure(|sel|, saveError, 0);
            && (c.result.SyncFailed? <==> |sel| > 0 && k < |sel|)
            && (|sel| > 0 && k < |sel| ==>
                  && saveError(k).Some?
                  && c.result == SyncFailed(SYNC_ERROR_MESSAGE, saveError(k).value)
                  && (forall a :: 0 <= a < k ==> c.leads[sel[a]] == MarkSynced(leads[sel[a]], now))
                  && (forall i :: 0 <= i < |leads| && i !in sel[..k] ==> c.leads[i] == leads[i])))
      && (c.result.SyncOk? ==> forall i :: 0 <= i < |leads| ==>
            c.leads[i] == if Eligible(leads[i]) then MarkSynced(leads[i], now) else leads[i])
  {
    var c := SyncCycle(leads, now, findError, saveError);
    var sel := Selected(leads);
    if findError.None? && |sel| > 0 {
      var k := FirstFailure(|sel|, saveError, 0);
      forall i | 0 <= i < |leads|
        ensures c.leads[i] == if i in sel[..k] then MarkSynced(leads[i], now) else leads[i]
      {
        MarkFirstAt(leads, sel, k, now, i);
      }
      if k == |sel| {
        assert sel[..k] == sel;
      } else {
        forall a | 0 <= a < k ensures c.leads[sel[a]] == MarkSynced(leads[sel[a]], now) {
          assert sel[a] == sel[..k][a];
        }
      }
    }
  }

  /** A cycle changes only `synced` and `syncedAt`, only ever sets `synced`
      to true, and keeps every lead's validity. */
  lemma CycleOnlyMarks(leads: seq<Lead>, now: Timestamp, findError: Option<string>, saveError: nat -> Option<string>)
    ensures var c := SyncCycle(leads, now, findError, saveError);
      forall i :: 0 <= i < |leads| ==>
        && c.leads[i].(synced := leads[i].synced, syncedAt := leads[i].syncedAt) == leads[i]
        && (leads[i].synced ==> c.leads[i] == leads[i])
        && (c.leads[i] != leads[i] ==> c.leads[i].synced && c.leads[i].syncedAt == Some(now))
        && (LeadValid(leads[i]) ==> LeadValid(c.leads[i]))
  {
    var c := SyncCycle(leads, now, findError, saveError);
    var sel := Selected(leads);
    if findError.None? && |sel| > 0 {
      var k := FirstFailure(|sel|, saveError, 0);
      forall i | 0 <= i < |leads|
        ensures c.leads[i] == if i in sel[..k] then MarkSynced(leads[i], now) else leads[i]
      {
        MarkFirstAt(leads, sel, k, now, i);
      }
    }
  }

  /** A successful cycle reports the number of leads it selected; when none
      is eligible it reports 0 and leaves the store as it was. */
  lemma CycleCount(leads: seq<Lead>, now: Timestamp, saveError: nat -> Option<string>)
    ensures var c := SyncCycle(leads, now, None, saveError);
      && (c.result.SyncOk? ==> c.result.syncedCount == |Selected(leads)|)
      && ((forall i :: 0 <= i < |leads| ==> !Eligible(leads[i])) ==>
            c == Cycle(SyncOk(NO_LEADS_MESSAGE, 0), leads))
  {
    var sel := Selected(leads);
    assert |sel| > 0 ==> sel[0] < |leads| && Eligible(leads[sel[0]]);
  }

  /** Idempotence: once a cycle has succeeded, the next one (with no change
      to the store in between) finds nothing, reports 0 and changes nothing. */
  lemma SecondCycleFindsNothing(leads: seq<Lead>, now: Timestamp, saveError: nat -> Option<string>,
                                later: Timestamp, laterSaveError: nat -> Option<string>)
    requires SyncCycle(leads, now, None, saveError).result.SyncOk?
    ensures var after := SyncCycle(leads, now, None, saveError).leads;
      SyncCycle(after, later, None, laterSaveError) == Cycle(SyncOk(NO_LEADS_MESSAGE, 0), after)
  {
    var after := SyncCycle(leads, now, None, saveError).leads;
    CycleEffect(leads, now, None, saveError);
    forall i | 0 <= i < |after| ensures !Eligible(after[i]) {
    }
    CycleCount(after, later, laterSaveError);
  }

  // ---------------------------------------------------------------------------
  // The cycle on the store

  /** `syncToCRM(lead)`: mark the lead at position `i` as synced now and save
      it; `failure` is what the save reports. */
  method SyncToCRM(store: Store, i: nat, now: Timestamp, failure: Option<string>) returns (error: Option<string>)
    requires store.Valid() && i < |store.leads|
    modifies store
    ensures store.Valid()
    ensures error == failure
    ensures store.leads == if failure.None? then old(store.leads)[i := MarkSynced(old(store.leads)[i], now)]
                           else old(store.leads)
  {
    assert LeadValid(store.leads[i]);
    error := store.Update(i, MarkSynced(store.leads[i], now), failure);
  }

  /** The loop of `executeSyncTask`: `syncToCRM` on each selected lead in
      turn, until a save fails. `saveError(j)` is what the save of the
      `j`-th lead reports; the error returned is the first one. */
  method SyncEach(store: Store, sel: seq<nat>, now: Timestamp, saveError: nat -> Option<string>)
    returns (error: Option<string>)
    requires store.Valid() && InRange(sel, store.leads)
    modifies store
    ensures store.Valid()
    ensures var k := FirstFailure(|sel|, saveError, 0);
      && store.leads == MarkFirst(old(store.leads), sel, k, now)
      && error == if k == |sel| then None else saveError(k)
  {
    ghost var initial := store.leads;
    var j := 0;
    while j < |sel|
      invariant 0 <= j <= |sel|
      invariant store.Valid()
      invariant store.leads == MarkFirst(initial, sel, j, now)
      invariant NoFailureBefore(saveError, j)
    {
      error := SyncToCRM(store, sel[j], now, saveError(j));
      if error.Some? {
        FirstFailureAt(|sel|, saveError, j);
        return;
      }
      j := j + 1;
    }
    FirstFailureAt(|sel|, saveError, j);
    error := None;
  }

  /** `executeSyncTask()`: one cycle on the store, with the summary it returns. */
  method ExecuteSyncTask(store: Store, now: Timestamp, findError: Option<string>,
                         saveError: nat -> Option<string>) returns (result: SyncResult)
    requires store.Valid()
    modifies store
    ensures store.Valid()
    ensures Cycle(result, store.leads) == SyncCycle(old(store.leads), now, findError, saveError)
  {
    if findError.Some? {
      return SyncFailed(SYNC_ERROR_MESSAGE, findError.value);
    }
    var verifiedLeads := Selected(store.leads);
    if |verifiedLeads| == 0 {
      return SyncOk(NO_LEADS_MESSAGE, 0);
    }
    var error := SyncEach(store, verifiedLeads, now, saveError);
    if error.Some? {
      return SyncFailed(SYNC_ERROR_MESSAGE, error.value);
    }
    result := SyncOk(SuccessMessage(|verifiedLeads|), |verifiedLeads|);
  }
}
