/** The record store behind the Lead model: the collection the controller
    saves into, the sync cycle updates, and the queries read. */
module LeadStore {
  import opened Wrappers
  import opened LeadModel

  /** The message of the validation error a save reports for a document that
      breaks the schema. */
  const VALIDATION_FAILED: string := "Lead validation failed"

  /** Every stored document carries its position as identifier (so
      identifiers are unique) and passed schema validation. */
  ghost predicate WellFormed(leads: seq<Lead>) {
    forall i :: 0 <= i < |leads| ==> leads[i].id == i && LeadValid(leads[i])
  }

  /** A run of `n` writes stops at the first one the store rejects.
      `outcome(j)` is what the store reports for the `j`-th write (`None`
      when it succeeds); the result is the index of the first rejected write
      from `from` on, or `n` when none of them is rejected. */
  function FirstFailure(n: nat, outcome: nat -> Option<string>, from: nat): (k: nat)
    requires from <= n
    ensures from <= k <= n
    ensures forall t :: from <= t < k ==> outcome(t).None?
    ensures k < n ==> outcome(k).Some?
    decreases n - from
  {
    if from == n || outcome(from).Some? then from else FirstFailure(n, outcome, from + 1)
  }

  /** None of the first `j` outcomes is a failure. */
  predicate NoFailureBefore(outcome: nat -> Option<string>, j: nat) {
    j == 0 || (NoFailureBefore(outcome, j - 1) && outcome(j - 1).None?)
  }

  lemma {:induction false} NoFailureBeforeAll(outcome: nat -> Option<string>, j: nat)
    requires NoFailureBefore(outcome, j)
    ensures forall t :: 0 <= t < j ==> outcome(t).None?
  {
    if j > 0 {
      NoFailureBeforeAll(outcome, j - 1);
    }
  }

  lemma {:induction false} NoFailureBeforeOf(outcome: nat -> Option<string>, j: nat)
    requires forall t :: 0 <= t < j ==> outcome(t).None?
    ensures NoFailureBefore(outcome, j)
  {
    if j > 0 {
      NoFailureBeforeOf(outcome, j - 1);
    }
  }

  /** A run of `n` steps that got through the first `j` and either stopped
      at step `j` or finished (`j == n`) stopped at its first failure. */
  lemma FirstFailureAt(n: nat, outcome: nat -> Option<string>, j: nat)
    requires j <= n && NoFailureBefore(outcome, j)
    requires j < n ==> outcome(j).Some?
    ensures FirstFailure(n, outcome, 0) == j
  {
    NoFailureBeforeAll(outcome, j);
  }

  /** The store enforces no uniqueness of names (the `name` index is not
      unique): any valid input can be added next to the stored leads, even
      when a stored lead already has its trimmed name. */
  lemma SharedNamesAllowed(leads: seq<Lead>, data: LeadInput, now: Timestamp)
    requires WellFormed(leads) && InputValid(data)
    ensures WellFormed(leads + [NewLead(data, |leads|, now)])
  {
    NewLeadValidIff(data, |leads|, now);
  }

  /** `leads` in insertion order, which is the order the model's `find` returns.
      Nothing is ever deleted, so the identifier a lead receives is its
      insertion position. */
  class Store {
    var leads: seq<Lead>

    ghost predicate Valid()
      reads this
    {
      WellFormed(leads)
    }

    constructor ()
      ensures Valid() && leads == []
    {
      leads := [];
    }

    /** `new Lead(data).save()`: validation runs first; a document that
        passes is inserted unless the store reports `failure`. Names are
        not checked against the stored leads (the `name` index is not unique). */
    method Create(data: LeadInput, now: Timestamp, failure: Option<string>) returns (r: Result<Lead, string>)
      requires Valid()
      modifies this
      ensures Valid()
      ensures var l := NewLead(data, |old(leads)|, now);
        if !LeadValid(l) then
          r == Failure(VALIDATION_FAILED) && leads == old(leads)
        else if failure.Some? then
          r == Failure(failure.value) && leads == old(leads)
        else
          r == Success(l) && leads == old(leads) + [l]
    {
      var l := NewLead(data, |leads|, now);
      if !LeadValid(l) {
        return Failure(VALIDATION_FAILED);
      }
      if failure.Some? {
        return Failure(failure.value);
      }
      leads := leads + [l];
      r := Success(l);
    }

    /** `doc.save()` on a document already in the store: validation runs
        first; a document that passes replaces the stored lead at position
        `i` (whose identifier it keeps) unless the store reports `failure`. */
    method Update(i: nat, updated: Lead, failure: Option<string>) returns (error: Option<string>)
      requires Valid() && i < |leads| && updated.id == leads[i].id
      modifies this
      ensures Valid()
      ensures if !LeadValid(updated) then error == Some(VALIDATION_FAILED) && leads == old(leads)
              else error == failure && leads == if failure.None? then old(leads)[i := updated] else old(leads)
    {
      if !LeadValid(updated) {
        return Some(VALIDATION_FAILED);
      }
      error := failure;
      if failure.None? {
        leads := leads[i := updated];
      }
    }
  }
}
