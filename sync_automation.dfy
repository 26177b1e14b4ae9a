/** The body of the five-minute cron callback (automation/syncAutomation.js):
    the same select-and-mark loop as the sync service, with no summary and
    with every error swallowed. Its effect on the store is proved to be the
    one `SyncService.SyncCycle` specifies, so a tick and `executeSyncTask`
    on the same store contents leave the same store. */
module SyncAutomation {
  import opened Wrappers
  import opened LeadModel
  import opened LeadStore
  import opened SyncService

  /** One tick. Its own `syncToCRM` copy (lines 8-16) and its loop are the
      same as the service's, so `SyncService.SyncEach` is used; the error it
      reports is dropped, as the callback's `catch` only logs it. */
  method CronTick(store: Store, now: Timestamp, findError: Option<string>,
                  saveError: nat -> Option<string>)
    requires store.Valid()
    modifies store
    ensures store.Valid()
    ensures store.leads == SyncCycle(old(store.leads), now, findError, saveError).leads
  {
    if findError.Some? {
      return;
    }
    var verifiedLeads := Selected(store.leads);
    if |verifiedLeads| == 0 {
      return;
    }
    var _ := SyncEach(store, verifiedLeads, now, saveError);
  }
}
