/** The Lead record: the one entity of the system, its schema constraints and
    the defaults a new record receives (models/Lead.js). */
module LeadModel {
  import opened Wrappers
  import opened Text

  /** Milliseconds since the epoch, as a JavaScript `Date` holds them. */
  type Timestamp = int

  const VERIFIED: string := "Verified"
  const TO_CHECK: string := "To Check"

  /** The fields a caller supplies when a lead is created: one enriched
      record. `error` is the extra message an enrichment failure carries;
      the schema has no such path, so it is not stored. */
  datatype LeadInput = LeadInput(
    name: string,
    mostLikelyCountry: string,
    probability: real,
    confidenceScore: int,
    status: string,
    error: Option<string>)

  /** A stored lead. `id` stands for the store-assigned `_id`. */
  datatype Lead = Lead(
    id: nat,
    name: string,
    mostLikelyCountry: string,
    probability: real,
    confidenceScore: int,
    status: string,
    synced: bool,
    syncedAt: Option<Timestamp>,
    createdAt: Timestamp)

  predicate IsStatus(s: string) {
    s == VERIFIED || s == TO_CHECK
  }

  /** The schema's constraints on a document: required strings are non-empty,
      probability in [0, 1], confidenceScore in [0, 100], status in the enum. */
  predicate LeadValid(l: Lead) {
    && l.name != []
    && l.mostLikelyCountry != []
    && 0.0 <= l.probability <= 1.0
    && 0 <= l.confidenceScore <= 100
    && IsStatus(l.status)
  }

  /** `new Lead(data)`: the name goes through the schema's `trim` setter, the
      `error` path is dropped, and the defaults apply: not synced, no sync
      time, created now. */
  function NewLead(data: LeadInput, id: nat, now: Timestamp): Lead {
    Lead(id, Trim(data.name), data.mostLikelyCountry, data.probability,
         data.confidenceScore, data.status, false, None, now)
  }

  /** What the schema demands of the supplied fields, stated on the input. */
  predicate InputValid(data: LeadInput) {
    && Trim(data.name) != []
    && data.mostLikelyCountry != []
    && 0.0 <= data.probability <= 1.0
    && 0 <= data.confidenceScore <= 100
    && IsStatus(data.status)
  }

  /** A new lead is not synced, has no sync time, was created now, and
      keeps the supplied fields except that its name is trimmed; an already
      trimmed name is stored as is. */
  lemma NewLeadDefaults(data: LeadInput, id: nat, now: Timestamp)
    ensures var l := NewLead(data, id, now);
      && l.id == id && l.createdAt == now && !l.synced && l.syncedAt == None
      && l.name == Trim(data.name) && (Trim(data.name) == data.name ==> l.name == data.name)
      && l.mostLikelyCountry == data.mostLikelyCountry && l.probability == data.probability
      && l.confidenceScore == data.confidenceScore && l.status == data.status
  {
  }

  /** A new lead passes validation exactly when its input does, whatever id
      and creation time it receives. */
  lemma NewLeadValidIff(data: LeadInput, id: nat, now: Timestamp)
    ensures LeadValid(NewLead(data, id, now)) <==> InputValid(data)
  {
  }
}
