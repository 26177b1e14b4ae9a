/** The request handlers of controllers/leadController.js without HTTP: a
    handler's reply is a `Response` holding the status code and the body's
    fields. `ProcessLeads` changes the store; `GetLeads` and `GetLead` are
    queries over the store's contents. */
module LeadController {
  import opened Wrappers
  import opened Text
  import opened Sorting
  import opened LeadModel
  import opened LeadStore
  import opened EnrichmentService

  const BAD_NAMES_MESSAGE: string := "Please provide an array of names"
  const PROCESS_ERROR_MESSAGE: string := "Error processing leads"
  const FETCH_LEADS_ERROR_MESSAGE: string := "Error fetching leads"
  const FETCH_LEAD_ERROR_MESSAGE: string := "Error fetching lead"
  const NOT_FOUND_MESSAGE: string := "Lead not found"

  /** The `names` field of a request body: absent (or another falsy value),
      present but not an array, or an array of strings. */
  datatype NamesField = Absent | NotAnArray | Names(items: seq<string>)

  /** A handler's reply: a list with its count, a single lead, or an error. */
  datatype Response =
    | Listed(statusCode: nat, count: nat, data: seq<Lead>)
    | Found(statusCode: nat, lead: Lead)
    | Failed(statusCode: nat, message: string, error: Option<string>)

  /** The check at the top of `processLeads`. */
  predicate AcceptedNames(names: NamesField) {
    names.Names? && |names.items| > 0
  }

  // ---------------------------------------------------------------------------
  // processLeads

  /** What saving a lead created from `data` reports: the validation error
      when the document breaks the schema (which depends on `data` only,
      `NewLeadValidIff`), otherwise the store's own `failure`. */
  function SaveFailure(data: LeadInput, failure: Option<string>): Option<string> {
    if !InputValid(data) then Some(VALIDATION_FAILED) else failure
  }

  /** What the `j`-th save of a run over `records` reports. */
  function SaveOutcomes(records: seq<LeadInput>, saveError: nat -> Option<string>): nat -> Option<string> {
    (j: nat) => if j < |records| then SaveFailure(records[j], saveError(j)) else None
  }

  /** The leads created from the first `k` records, numbered from `firstId`. */
  function SavedLeads(records: seq<LeadInput>, firstId: nat, k: nat, now: Timestamp): (r: seq<Lead>)
    requires k <= |records|
    ensures |r| == k
    ensures forall i :: 0 <= i < k ==> r[i] == NewLead(records[i], firstId + i, now)
  {
    if k == 0 then [] else SavedLeads(records, firstId, k - 1, now) + [NewLead(records[k - 1], firstId + k - 1, now)]
  }

  /** One successful save extends the run by the lead it created. */
  lemma SaveStep(records: seq<LeadInput>, saveError: nat -> Option<string>, firstId: nat, j: nat,
                 now: Timestamp, saved: Lead)
    requires j < |records| && saveError(j).None?
    requires saved == NewLead(records[j], firstId + j, now) && LeadValid(saved)
    ensures SavedLeads(records, firstId, j + 1, now) == SavedLeads(records, firstId, j, now) + [saved]
    ensures SaveOutcomes(records, saveError)(j).None?
  {
    NewLeadValidIff(records[j], firstId + j, now);
  }

  /** A failed save reports the validation error when the new lead breaks
      the schema, and otherwise the store's failure. */
  lemma SaveFails(records: seq<LeadInput>, saveError: nat -> Option<string>, firstId: nat, j: nat,
                  now: Timestamp)
    requires j < |records|
    ensures SaveOutcomes(records, saveError)(j) ==
      if !LeadValid(NewLead(records[j], firstId + j, now)) then Some(VALIDATION_FAILED) else saveError(j)
  {
    NewLeadValidIff(records[j], firstId + j, now);
    assert SaveOutcomes(records, saveError)(j) == SaveFailure(records[j], saveError(j));
  }

  /** The save loop of `processLeads`: `new Lead(data).save()` for each
      record in order, collecting the saved leads, until a save fails.
      `saveError(j)` is what the store reports for the `j`-th save. */
  method SaveEach(store: Store, records: seq<LeadInput>, now: Timestamp,
                  saveError: nat -> Option<string>) returns (savedLeads: seq<Lead>, error: Option<string>)
    requires store.Valid()
    modifies store
    ensures store.Valid()
    ensures var k := FirstFailure(|records|, SaveOutcomes(records, saveError), 0);
      && savedLeads == SavedLeads(records, |old(store.leads)|, k, now)
      && store.leads == old(store.leads) + savedLeads
      && error == if k == |records| then None else SaveFailure(records[k], saveError(k))
  {
    ghost var base := |store.leads|;
    ghost var outcome := SaveOutcomes(records, saveError);
    savedLeads := [];
    var j := 0;
    while j < |records|
      invariant 0 <= j <= |records|
      invariant store.Valid()
      invariant savedLeads == SavedLeads(records, base, j, now)
      invariant store.leads == old(store.leads) + savedLeads
      invariant NoFailureBefore(outcome, j)
    {
      var saved := store.Create(records[j], now, saveError(j));
      if saved.Failure? {
        SaveFails(records, saveError, base, j, now);
        FirstFailureAt(|records|, outcome, j);
        return savedLeads, Some(saved.error);
      }
      SaveStep(records, saveError, base, j, now, saved.value);
      assert outcome(j).None?;
      savedLeads := savedLeads + [saved.value];
      j := j + 1;
    }
    FirstFailureAt(|records|, outcome, j);
    error := None;
  }

  /** `processLeads`: reject a bad `names` field with 400; otherwise enrich
      the names and save the records one by one. Every save that succeeds
      stays in the store; the first failing one ends the request with 500. */
  method ProcessLeads(store: Store, names: NamesField, oracle: Oracle, now: Timestamp,
                      saveError: nat -> Option<string>) returns (resp: Response)
    requires store.Valid()
    modifies store
    ensures store.Valid()
    ensures !AcceptedNames(names) ==>
      resp == Failed(400, BAD_NAMES_MESSAGE, None) && store.leads == old(store.leads)
    ensures AcceptedNames(names) ==>
      var enriched := ProcessBatch(names.items, oracle);
      var base := |old(store.leads)|;
      var k := FirstFailure(|enriched|, SaveOutcomes(enriched, saveError), 0);
      var saved := SavedLeads(enriched, base, k, now);
      && store.leads == old(store.leads) + saved
      && resp == if k == |enriched| then Listed(201, k, saved)
                 else Failed(500, PROCESS_ERROR_MESSAGE, SaveFailure(enriched[k], saveError(k)))
  {
    if !names.Names? || |names.items| == 0 {
      return Failed(400, BAD_NAMES_MESSAGE, None);
    }
    var enrichedData := ProcessBatch(names.items, oracle);
    var savedLeads, error := SaveEach(store, enrichedData, now, saveError);
    if error.Some? {
      return Failed(500, PROCESS_ERROR_MESSAGE, error);
    }
    resp := Listed(201, |savedLeads|, savedLeads);
  }

  /** A non-empty array of blank names passes the check and enriches to
      nothing, so the request succeeds with count 0 and saves nothing. */
  lemma BlankNamesEnrichToNothing(names: seq<string>, oracle: Oracle)
    requires forall i :: 0 <= i < |names| ==> Trim(names[i]) == []
    ensures ProcessBatch(names, oracle) == []
  {
    forall i | 0 <= i < |names| ensures AllWhitespace(names[i]) {
      TrimEmptyIff(names[i]);
    }
    BlankNamesFilteredOut(names);
  }

  lemma {:induction false} BlankNamesFilteredOut(names: seq<string>)
    requires forall i :: 0 <= i < |names| ==> AllWhitespace(names[i])
    ensures NonBlank(names) == []
  {
    if names != [] {
      var n := |names| - 1;
      assert forall i :: 0 <= i < n ==> names[..n][i] == names[i];
      BlankNamesFilteredOut(names[..n]);
    }
  }

  /** When every oracle answer is well formed and the store accepts every
      write, all enriched records are saved. */
  lemma WellFormedBatchIsFullySaved(names: seq<string>, oracle: Oracle, saveError: nat -> Option<string>)
    requires forall n :: WellFormedAnswer(oracle(n))
    requires forall j :: saveError(j).None?
    ensures var records := ProcessBatch(names, oracle);
      FirstFailure(|records|, SaveOutcomes(records, saveError), 0) == |records|
  {
    var records := ProcessBatch(names, oracle);
    RecordsSatisfySchema(names, oracle);
    forall t | 0 <= t < |records| ensures SaveOutcomes(records, saveError)(t).None? {
      assert records[t] in records;
    }
    NoFailureBeforeOf(SaveOutcomes(records, saveError), |records|);
    FirstFailureAt(|records|, SaveOutcomes(records, saveError), |records|);
  }

  // ---------------------------------------------------------------------------
  // getLeads

  /** The query `getLeads` builds: a status filter only when the `status`
      parameter is present and non-empty. */
  predicate MatchesQuery(l: Lead, status: Option<string>) {
    status.None? || status.value == [] || l.status == status.value
  }

  function FilterLeads(leads: seq<Lead>, status: Option<string>): (r: seq<Lead>)
    ensures forall l :: l in r <==> l in leads && MatchesQuery(l, status)
    ensures forall l :: multiset(r)[l] == if MatchesQuery(l, status) then multiset(leads)[l] else 0
  {
    if leads == [] then []
    else
      assert leads == [leads[0]] + leads[1..];
      (if MatchesQuery(leads[0], status) then [leads[0]] else []) + FilterLeads(leads[1..], status)
  }

  function CreatedAtKey(l: Lead): real {
    l.createdAt as real
  }

  /** `getLeads`: the matching leads, newest first. `dbError` is a failure
      of the store's query. */
  function GetLeads(leads: seq<Lead>, status: Option<string>, dbError: Option<string>): Response {
    if dbError.Some? then Failed(500, FETCH_LEADS_ERROR_MESSAGE, dbError)
    else
      var found := SortDesc(FilterLeads(leads, status), CreatedAtKey);
      Listed(200, |found|, found)
  }

  lemma {:induction false} FilterAll(leads: seq<Lead>, status: Option<string>)
    requires status.None? || status.value == []
    ensures FilterLeads(leads, status) == leads
  {
    if leads != [] {
      FilterAll(leads[1..], status);
      assert leads == [leads[0]] + leads[1..];
    }
  }

  /** `getLeads` answers 200 with exactly the leads whose status equals the
      requested one (every lead when none or an empty one is requested),
      each as often as it is stored, ordered by creation time descending. */
  lemma GetLeadsSpec(leads: seq<Lead>, status: Option<string>)
    ensures var resp := GetLeads(leads, status, None);
      && resp.Listed? && resp.statusCode == 200 && resp.count == |resp.data|
      && (forall l :: l in resp.data <==> l in leads && MatchesQuery(l, status))
      && (forall l :: multiset(resp.data)[l] == if MatchesQuery(l, status) then multiset(leads)[l] else 0)
      && ((status.None? || status.value == []) ==> multiset(resp.data) == multiset(leads))
      && SortedDesc(resp.data, CreatedAtKey)
  {
    var filtered := FilterLeads(leads, status);
    SortDescSorted(filtered, CreatedAtKey);
    SortDescPerm(filtered, CreatedAtKey);
    var data := SortDesc(filtered, CreatedAtKey);
    forall l ensures l in data <==> l in filtered {
      assert l in data <==> l in multiset(data);
    }
    if status.None? || status.value == [] {
      FilterAll(leads, status);
    }
  }

  // ---------------------------------------------------------------------------
  // getLead

  function FindById(leads: seq<Lead>, id: nat): (r: Option<Lead>)
    ensures r.None? <==> forall i :: 0 <= i < |leads| ==> leads[i].id != id
    ensures r.Some? ==> r.value in leads && r.value.id == id
  {
    if leads == [] then None
    else if leads[0].id == id then Some(leads[0])
    else FindById(leads[1..], id)
  }

  /** `getLead`: the lead with the requested identifier, or 404. */
  function GetLead(leads: seq<Lead>, id: nat, dbError: Option<string>): Response {
    if dbError.Some? then Failed(500, FETCH_LEAD_ERROR_MESSAGE, dbError)
    else
      match FindById(leads, id)
      case None => Failed(404, NOT_FOUND_MESSAGE, None)
      case Some(l) => Found(200, l)
  }

  /** In a well-formed store `getLead` finds the lead with that identifier
      when there is one and answers 404 exactly when there is none. */
  lemma GetLeadSpec(leads: seq<Lead>, id: nat)
    requires WellFormed(leads)
    ensures GetLead(leads, id, None) == if id < |leads| then Found(200, leads[id]) else Failed(404, NOT_FOUND_MESSAGE, None)
  {
    if id < |leads| {
      assert leads[id].id == id;
    }
  }

  /** A failing store query makes either handler answer 500 with its own
      message and the query's error, whatever the request asked for. */
  lemma QueryFailures(leads: seq<Lead>, status: Option<string>, id: nat, e: string)
    ensures GetLeads(leads, status, Some(e)) == Failed(500, FETCH_LEADS_ERROR_MESSAGE, Some(e))
    ensures GetLead(leads, id, Some(e)) == Failed(500, FETCH_LEAD_ERROR_MESSAGE, Some(e))
  {
  }
}
