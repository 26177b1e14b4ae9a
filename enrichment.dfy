/** The enrichment batch (services/enrichmentService.js): blank names are
    dropped, the raw strings are de-duplicated, every remaining name is looked
    up with the nationality oracle and turned into one lead record. The
    concurrent lookups share no state and `Promise.all` keeps input order,
    so the batch is modelled as a map over the unique names. */
module EnrichmentService {
  import opened Wrappers
  import opened Text
  import opened Sorting
  import opened LeadModel

  /** One entry of the oracle's `country` list. */
  datatype Candidate = Candidate(countryId: string, probability: real)

  /** The oracle's answer body; `country` may be absent. */
  datatype NationalityData = NationalityData(country: Option<seq<Candidate>>)

  datatype OracleError = OracleError(message: string)

  type Answer = Result<NationalityData, OracleError>

  /** The nationality lookup for one (trimmed) name, standing in for the
      HTTP call of `getNationality`. */
  type Oracle = string -> Answer

  /** Status threshold: a top probability at or above it is Verified. */
  const THRESHOLD: real := 0.6

  const UNKNOWN_COUNTRY: string := "Unknown"
  const ERROR_COUNTRY: string := "Error"

  function ProbabilityOf(c: Candidate): real {
    c.probability
  }

  /** `nationalityData.country || []` */
  function Countries(d: NationalityData): seq<Candidate> {
    d.country.GetOr([])
  }

  // ---------------------------------------------------------------------------
  // Filtering and de-duplication of the input names

  /** Position of the first occurrence of `x` in `s`. */
  function FirstIndex<T(==)>(s: seq<T>, x: T): (k: nat)
    requires x in s
    ensures k < |s| && s[k] == x && x !in s[..k]
  {
    if s[0] == x then 0 else 1 + FirstIndex(s[1..], x)
  }

  lemma {:induction false} FirstIndexOfPrefix<T>(s: seq<T>, t: seq<T>, x: T)
    requires x in s
    ensures FirstIndex(s + t, x) == FirstIndex(s, x)
  {
    if s[0] != x {
      assert (s + t)[1..] == s[1..] + t;
      FirstIndexOfPrefix(s[1..], t, x);
    }
  }

  lemma FirstIndexOfNew<T>(s: seq<T>, x: T)
    requires x !in s
    ensures FirstIndex(s + [x], x) == |s|
  {
  }

  /** `names.filter(name => name && name.trim())`: the strings that are not
      blank, kept as they are (untrimmed) and in order. A string is kept
      when its trimmed form is non-empty, that is, when some character of it
      is not whitespace (`TrimEmptyIff`). */
  function NonBlank(names: seq<string>): (r: seq<string>)
    ensures forall x :: x in r <==> x in names && !AllWhitespace(x)
  {
    if names == [] then []
    else
      var last := names[|names| - 1];
      assert names == names[..|names| - 1] + [last];
      NonBlank(names[..|names| - 1]) + (if !AllWhitespace(last) then [last] else [])
  }

  /** `[...new Set(s)]`: each distinct string once, at its first occurrence. */
  function Dedup(s: seq<string>): (r: seq<string>)
    ensures forall x :: x in r <==> x in s
    ensures forall i, j :: 0 <= i < j < |r| ==> r[i] != r[j]
  {
    if s == [] then []
    else
      var last := s[|s| - 1];
      var r := Dedup(s[..|s| - 1]);
      assert s == s[..|s| - 1] + [last];
      if last in r then r else r + [last]
  }

  /** The names the batch looks up: non-blank, de-duplicated on the raw
      (untrimmed) strings, in first-occurrence order. */
  function UniqueNames(names: seq<string>): seq<string> {
    Dedup(NonBlank(names))
  }

  lemma {:induction false} DedupKeepsFirstOccurrenceOrder(s: seq<string>)
    ensures forall i, j :: 0 <= i < j < |Dedup(s)| ==> FirstIndex(s, Dedup(s)[i]) < FirstIndex(s, Dedup(s)[j])
  {
    if s != [] {
      var p, last := s[..|s| - 1], s[|s| - 1];
      assert s == p + [last];
      DedupKeepsFirstOccurrenceOrder(p);
      var r := Dedup(s);
      forall x | x in p ensures FirstIndex(s, x) == FirstIndex(p, x) {
        FirstIndexOfPrefix(p, [last], x);
      }
      if last !in Dedup(p) {
        FirstIndexOfNew(p, last);
      }
    }
  }

  lemma {:induction false} NonBlankKeepsFirstOccurrenceOrder(names: seq<string>, x: string, y: string)
    requires x in NonBlank(names) && y in NonBlank(names)
    requires FirstIndex(NonBlank(names), x) < FirstIndex(NonBlank(names), y)
    ensures FirstIndex(names, x) < FirstIndex(names, y)
  {
    var p, last := names[..|names| - 1], names[|names| - 1];
    assert names == p + [last];
    var q := NonBlank(p);
    var tail := if !AllWhitespace(last) then [last] else [];
    assert NonBlank(names) == q + tail;
    if x in q && y in q {
      FirstIndexOfPrefix(q, tail, x);
      FirstIndexOfPrefix(q, tail, y);
      FirstIndexOfPrefix(p, [last], x);
      FirstIndexOfPrefix(p, [last], y);
      NonBlankKeepsFirstOccurrenceOrder(p, x, y);
    } else if x in q {
      assert y == last && y !in p;
      FirstIndexOfPrefix(p, [last], x);
      FirstIndexOfNew(p, y);
    }
  }

  /** The batch looks up each non-blank input string exactly once, in the
      order of first occurrence; strings that differ only by surrounding
      whitespace stay apart. */
  lemma UniqueNamesSpec(names: seq<string>)
    ensures forall x :: x in UniqueNames(names) <==> x in names && Trim(x) != []
    ensures forall i, j :: 0 <= i < j < |UniqueNames(names)| ==> UniqueNames(names)[i] != UniqueNames(names)[j]
    ensures forall i, j :: 0 <= i < j < |UniqueNames(names)| ==>
      FirstIndex(names, UniqueNames(names)[i]) < FirstIndex(names, UniqueNames(names)[j])
  {
    var q := NonBlank(names);
    var u := UniqueNames(names);
    forall x ensures Trim(x) == [] <==> AllWhitespace(x) {
      TrimEmptyIff(x);
    }
    DedupKeepsFirstOccurrenceOrder(q);
    forall i, j | 0 <= i < j < |u| ensures FirstIndex(names, u[i]) < FirstIndex(names, u[j]) {
      NonBlankKeepsFirstOccurrenceOrder(names, u[i], u[j]);
    }
  }

  // ---------------------------------------------------------------------------
  // Classification of one name

  /** `Math.round(x)`: the nearest integer, halves rounded up. */
  function RoundHalfUp(x: real): (r: int)
    ensures r as real - 0.5 <= x < r as real + 0.5
  {
    (x + 0.5).Floor
  }

  /** The record for a name whose lookup failed. */
  function ErrorRecord(name: string, message: string): LeadInput {
    LeadInput(name, ERROR_COUNTRY, 0.0, 0, TO_CHECK, Some(message))
  }

  /** The record for a name the oracle knows no country for. */
  function UnknownRecord(name: string): LeadInput {
    LeadInput(name, UNKNOWN_COUNTRY, 0.0, 0, TO_CHECK, None)
  }

  /** The per-name step of `processBatch`: the answer of the oracle for
      `name` becomes the error record, the unknown record, or the record of
      the head of the candidates sorted by descending probability. */
  function Classify(name: string, answer: Answer): LeadInput {
    match answer
    case Failure(e) => ErrorRecord(name, e.message)
    case Success(data) =>
      var countries := Countries(data);
      if |countries| == 0 then UnknownRecord(name)
      else
        var mostLikely := SortDesc(countries, ProbabilityOf)[0];
        var probability := mostLikely.probability;
        LeadInput(name, mostLikely.countryId, probability, RoundHalfUp(probability * 100.0),
                  if probability >= THRESHOLD then VERIFIED else TO_CHECK, None)
  }

  /** The classification rules: a failed lookup gives the error sentinel, an
      empty or missing country list the unknown sentinel, and otherwise the
      chosen country is the first one of maximal probability. In every case
      the score is the rounded percentage and the status is Verified exactly
      at or above the threshold. */
  lemma ClassificationRules(name: string, answer: Answer)
    ensures Classify(name, answer).name == name
    ensures answer.Failure? ==> Classify(name, answer) == ErrorRecord(name, answer.error.message)
    ensures answer.Success? && Countries(answer.value) == [] ==> Classify(name, answer) == UnknownRecord(name)
    ensures answer.Success? && Countries(answer.value) != [] ==>
      var cs, r := Countries(answer.value), Classify(name, answer);
      var k := FirstMaxIndex(cs, ProbabilityOf);
      && r.mostLikelyCountry == cs[k].countryId && r.probability == cs[k].probability
      && (forall j :: 0 <= j < |cs| ==> cs[j].probability <= r.probability)
      && (forall j :: 0 <= j < k ==> cs[j].probability < r.probability)
      && r.error == None
    ensures Classify(name, answer).confidenceScore == RoundHalfUp(Classify(name, answer).probability * 100.0)
    ensures Classify(name, answer).status == VERIFIED <==> Classify(name, answer).probability >= THRESHOLD
    ensures IsStatus(Classify(name, answer).status)
  {
    if answer.Success? && Countries(answer.value) != [] {
      SortDescHead(Countries(answer.value), ProbabilityOf);
    }
  }

  /** A lookup of `name.trim()` and its classification. */
  function EnrichName(name: string, oracle: Oracle): LeadInput {
    Classify(Trim(name), oracle(Trim(name)))
  }

  /** `processBatch(names)`: one record per unique name, in order. */
  function ProcessBatch(names: seq<string>, oracle: Oracle): seq<LeadInput> {
    var unique := UniqueNames(names);
    seq(|unique|, i requires 0 <= i < |unique| => EnrichName(unique[i], oracle))
  }

  // ---------------------------------------------------------------------------
  // Properties of the batch

  /** One record per unique name, in the same order, named by its trimmed
      form: the record the oracle's answer for that trimmed form classifies to. */
  lemma BatchShape(names: seq<string>, oracle: Oracle)
    ensures |ProcessBatch(names, oracle)| == |UniqueNames(names)|
    ensures forall i :: 0 <= i < |UniqueNames(names)| ==>
      ProcessBatch(names, oracle)[i] == Classify(Trim(UniqueNames(names)[i]), oracle(Trim(UniqueNames(names)[i])))
    ensures forall i :: 0 <= i < |UniqueNames(names)| ==>
      ProcessBatch(names, oracle)[i].name == Trim(UniqueNames(names)[i]) != []
  {
    var u := UniqueNames(names);
    forall i | 0 <= i < |u|
      ensures ProcessBatch(names, oracle)[i].name == Trim(u[i]) != []
    {
      assert u[i] in NonBlank(names);
      TrimEmptyIff(u[i]);
      ClassificationRules(Trim(u[i]), oracle(Trim(u[i])));
    }
  }

  /** Every record keeps the scoring policy: the score is the rounded
      percentage, at most half a point away from it, and the status is
      Verified exactly at or above the threshold. */
  lemma ScoringPolicy(names: seq<string>, oracle: Oracle)
    ensures forall r :: r in ProcessBatch(names, oracle) ==>
      && r.confidenceScore == RoundHalfUp(r.probability * 100.0)
      && (r.status == VERIFIED <==> r.probability >= THRESHOLD)
  {
    var u := UniqueNames(names);
    forall r | r in ProcessBatch(names, oracle)
      ensures r.confidenceScore == RoundHalfUp(r.probability * 100.0)
      ensures r.status == VERIFIED <==> r.probability >= THRESHOLD
    {
      var i :| 0 <= i < |u| && r == ProcessBatch(names, oracle)[i];
      ClassificationRules(Trim(u[i]), oracle(Trim(u[i])));
    }
  }

  /** For a probability in [0, 1] the rounded percentage lies in [0, 100]. */
  lemma ScoreBounds(p: real)
    requires 0.0 <= p <= 1.0
    ensures 0 <= RoundHalfUp(p * 100.0) <= 100
  {
  }

  /** An answer the oracle's contract allows: probabilities in [0, 1] and
      non-empty country identifiers. */
  predicate WellFormedAnswer(a: Answer) {
    a.Success? ==> forall c :: c in Countries(a.value) ==> 0.0 <= c.probability <= 1.0 && c.countryId != []
  }

  /** With well-formed answers every record satisfies the schema, so it can
      be saved. */
  lemma RecordsSatisfySchema(names: seq<string>, oracle: Oracle)
    requires forall n :: WellFormedAnswer(oracle(n))
    ensures forall r :: r in ProcessBatch(names, oracle) ==> InputValid(r)
  {
    var u := UniqueNames(names);
    forall r | r in ProcessBatch(names, oracle) ensures InputValid(r) {
      var i :| 0 <= i < |u| && r == ProcessBatch(names, oracle)[i];
      var n := Trim(u[i]);
      assert u[i] in NonBlank(names);
      TrimEmptyIff(u[i]);
      TrimIdempotent(u[i]);
      var a := oracle(n);
      ClassificationRules(n, a);
      if a.Success? && Countries(a.value) != [] {
        var cs := Countries(a.value);
        var k := FirstMaxIndex(cs, ProbabilityOf);
        assert cs[k] in cs;
        ScoreBounds(r.probability);
      }
    }
  }

  /** A failed lookup for one name yields the error record for that name and
      changes no other record of the batch. */
  lemma FailureIsolation(names: seq<string>, oracle: Oracle, failing: Oracle, bad: string)
    requires forall n :: n != bad ==> failing(n) == oracle(n)
    requires failing(bad).Failure?
    ensures |ProcessBatch(names, failing)| == |ProcessBatch(names, oracle)|
    ensures forall i :: 0 <= i < |ProcessBatch(names, oracle)| ==>
      if ProcessBatch(names, oracle)[i].name == bad
      then ProcessBatch(names, failing)[i] == ErrorRecord(bad, failing(bad).error.message)
      else ProcessBatch(names, failing)[i] == ProcessBatch(names, oracle)[i]
  {
    var u := UniqueNames(names);
    forall i | 0 <= i < |u| && ProcessBatch(names, oracle)[i].name == bad
      ensures ProcessBatch(names, failing)[i] == ErrorRecord(bad, failing(bad).error.message)
    {
      ClassificationRules(Trim(u[i]), oracle(Trim(u[i])));
    }
    forall i | 0 <= i < |u| && ProcessBatch(names, oracle)[i].name != bad
      ensures ProcessBatch(names, failing)[i] == ProcessBatch(names, oracle)[i]
    {
      ClassificationRules(Trim(u[i]), oracle(Trim(u[i])));
    }
  }

  lemma BobVariantsTrim()
    ensures Trim("Bob") == "Bob" && Trim("Bob ") == "Bob"
    ensures !AllWhitespace("Bob") && !AllWhitespace("Bob ")
  {
    assert "Bob"[0] == 'B' && "Bob "[0] == 'B' && "Bob"[2] == 'b';
    assert !IsJsWhitespace('B') && !IsJsWhitespace('b');
    assert TrimStart("Bob") == "Bob" && TrimEnd("Bob") == "Bob";
    assert TrimStart("Bob ") == "Bob ";
    assert "Bob "[..3] == "Bob";
  }

  lemma BobVariantsAreUnique()
    ensures UniqueNames(["Bob", "Bob "]) == ["Bob", "Bob "]
  {
    BobVariantsTrim();
    var names := ["Bob", "Bob "];
    assert names[..1] == ["Bob"];
    assert NonBlank(names[..1]) == ["Bob"];
    assert NonBlank(names) == names;
    assert "Bob" != "Bob " by { assert |"Bob"| != |"Bob "|; }
    assert Dedup(names[..1]) == ["Bob"];
  }

  /** `"Bob"` and `"Bob "` are distinct raw strings: both are looked up and
      both records are named `"Bob"`. */
  lemma WhitespaceVariantsNotMerged(oracle: Oracle)
    ensures |ProcessBatch(["Bob", "Bob "], oracle)| == 2
    ensures ProcessBatch(["Bob", "Bob "], oracle)[0].name == "Bob"
    ensures ProcessBatch(["Bob", "Bob "], oracle)[1].name == "Bob"
  {
    BobVariantsTrim();
    BobVariantsAreUnique();
    BatchShape(["Bob", "Bob "], oracle);
  }

  lemma AhmedIsUnique()
    ensures Trim("Ahmed") == "Ahmed"
    ensures UniqueNames(["Ahmed"]) == ["Ahmed"]
  {
    assert "Ahmed"[0] == 'A' && "Ahmed"[4] == 'd';
    assert !IsJsWhitespace('A') && !IsJsWhitespace('d');
    assert TrimStart("Ahmed") == "Ahmed";
    assert !AllWhitespace("Ahmed");
    assert NonBlank(["Ahmed"]) == ["Ahmed"];
  }

  /** The top candidate decides: 0.82 for NG gives score 82 and Verified. */
  lemma TopCandidateExample(oracle: Oracle)
    requires oracle("Ahmed") == Success(NationalityData(Some([Candidate("NG", 0.82), Candidate("GB", 0.15)])))
    ensures ProcessBatch(["Ahmed"], oracle) == [LeadInput("Ahmed", "NG", 0.82, 82, VERIFIED, None)]
  {
    AhmedIsUnique();
    assert FirstMaxIndex([Candidate("NG", 0.82), Candidate("GB", 0.15)], ProbabilityOf) == 0;
    assert RoundHalfUp(0.82 * 100.0) == 82;
    ClassificationRules("Ahmed", oracle("Ahmed"));
    assert ProcessBatch(["Ahmed"], oracle)[0] == Classify("Ahmed", oracle("Ahmed"));
  }
}
