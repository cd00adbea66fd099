/** Evidence records and the append-only evidence chain. */
module EvidenceRecords {
  import opened Wrappers

  /** The one error kind of the library: a value outside its permitted range. */
  datatype Error = ValueError(message: string)

  const ConfidenceRangeMessage: string := "Confidence must be between 0.0 and 1.0"

  /** The range check run when evidence is constructed. */
  predicate ConfidenceInRange(confidence: real)
  {
    0.0 <= confidence <= 1.0
  }

  /** The fields of a piece of evidence, with the record's defaults.
      `kind` stands for the Python field `type`; `metadata` is not modelled. */
  datatype EvidenceData = EvidenceData(
    description: string,
    kind: string := "general",
    source: Option<string> := None,
    confidence: real := 1.0,
    sampleSize: Option<int> := None)

  /** Every piece of evidence that exists has passed the construction check. */
  type Evidence = e: EvidenceData | ConfidenceInRange(e.confidence)
    witness EvidenceData("")

  /** Constructing evidence: succeeds exactly when the confidence is in [0, 1],
      and then stores every field as given; fails with a ValueError otherwise. */
  function NewEvidence(
    description: string,
    kind: string := "general",
    source: Option<string> := None,
    confidence: real := 1.0,
    sampleSize: Option<int> := None): (r: Result<Evidence, Error>)
    ensures r.Success? <==> 0.0 <= confidence <= 1.0
    ensures r.Success? ==>
      && r.value.description == description
      && r.value.kind == kind
      && r.value.source == source
      && r.value.confidence == confidence
      && r.value.sampleSize == sampleSize
    ensures r.Failure? ==> r.error == ValueError(ConfidenceRangeMessage)
  {
    var e := EvidenceData(description, kind, source, confidence, sampleSize);
    if ConfidenceInRange(e.confidence) then Success(e)
    else Failure(ValueError(ConfidenceRangeMessage))
  }

  /** Evidence built from a description alone has the default type, full
      confidence and no source. */
  lemma NewEvidenceDefaults(description: string)
    ensures NewEvidence(description).Success?
    ensures NewEvidence(description).value.kind == "general"
    ensures NewEvidence(description).value.confidence == 1.0
    ensures NewEvidence(description).value.source == None
  {
  }

  /** An ordered, append-only list of evidence that supports one point. */
  class EvidenceChain {
    var items: seq<Evidence>

    constructor (items: seq<Evidence> := [])
      ensures this.items == items
    {
      this.items := items;
    }

    /** Appends `e` at the end; every earlier item keeps its place. */
    method AddEvidence(e: Evidence)
      modifies this
      ensures items == old(items) + [e]
      ensures |items| == |old(items)| + 1 && items[|items| - 1] == e
      ensures forall i :: 0 <= i < |old(items)| ==> items[i] == old(items)[i]
    {
      items := items + [e];
    }

    /** The number of stored items. */
    method Length() returns (n: nat)
      ensures n == |items|
    {
      n := |items|;
    }

    /** A fresh traversal of the stored items, in insertion order. */
    method Iterate() returns (traversal: seq<Evidence>)
      ensures |traversal| == |items|
      ensures forall i :: 0 <= i < |items| ==> traversal[i] == items[i]
    {
      traversal := items;
    }
  }

  /** Adding two items to an empty chain gives length 2 with the first item first. */
  method AddTwoInOrder(ev1: Evidence, ev2: Evidence) returns (chain: EvidenceChain)
    ensures fresh(chain)
    ensures chain.items == [ev1, ev2]
  {
    chain := new EvidenceChain();
    chain.AddEvidence(ev1);
    chain.AddEvidence(ev2);
    var n := chain.Length();
    assert n == 2;
    var first := chain.Iterate();
    assert first[0] == ev1;
  }
}
