/** The validator: score, evidence strength and the list of missing parts. */
module Validation {
  import opened EvidenceRecords
  import opened Arguments
  import opened Metrics

  datatype ValidationResult = ValidationResult(
    qualityScore: real,
    evidenceStrength: string,
    missingElements: seq<string>)

  /** The parts the validator checks, in the order it reports them. The claim is not among them. */
  const CheckedElements: seq<string> := ["warrant", "counterarguments", "limitations", "evidence"]

  /** The position of a checked part in the report order. */
  function ReportRank(name: string): nat
  {
    if name == "warrant" then 0
    else if name == "counterarguments" then 1
    else if name == "limitations" then 2
    else 3
  }

  /** The named part of `a` is empty. */
  predicate IsMissing(a: Argument, name: string)
  {
    || (name == "warrant" && a.warrant == [])
    || (name == "counterarguments" && a.counterarguments == [])
    || (name == "limitations" && a.limitations == [])
    || (name == "evidence" && a.evidence == [])
  }

  /** The names among `names` whose part is empty, in the order of `names`. */
  function MissingAmong(a: Argument, names: seq<string>): (r: seq<string>)
    ensures forall x :: x in r <==> x in names && IsMissing(a, x)
    ensures |r| <= |names|
  {
    if names == [] then []
    else if IsMissing(a, names[0]) then [names[0]] + MissingAmong(a, names[1..])
    else MissingAmong(a, names[1..])
  }

  function MissingElements(a: Argument): seq<string>
  {
    MissingAmong(a, CheckedElements)
  }

  predicate RankSorted(names: seq<string>)
  {
    forall i, j :: 0 <= i < j < |names| ==> ReportRank(names[i]) < ReportRank(names[j])
  }

  lemma {:induction false} MissingAmongKeepsOrder(a: Argument, names: seq<string>)
    requires RankSorted(names)
    ensures RankSorted(MissingAmong(a, names))
  {
    if names != [] {
      var rest := names[1..];
      assert RankSorted(rest) by {
        forall i, j | 0 <= i < j < |rest| ensures ReportRank(rest[i]) < ReportRank(rest[j]) {
          assert rest[i] == names[i + 1] && rest[j] == names[j + 1];
        }
      }
      MissingAmongKeepsOrder(a, rest);
      if IsMissing(a, names[0]) {
        var r := [names[0]] + MissingAmong(a, rest);
        forall i, j | 0 <= i < j < |r| ensures ReportRank(r[i]) < ReportRank(r[j]) {
          if i == 0 {
            assert r[j] in MissingAmong(a, rest) by {
              assert r[j] == MissingAmong(a, rest)[j - 1];
            }
            var k :| 0 <= k < |rest| && rest[k] == r[j];
            assert names[k + 1] == r[j];
          }
        }
      }
    }
  }

  /** Each checked part is reported exactly when it is empty. */
  lemma MissingExactlyWhenEmpty(a: Argument)
    ensures "warrant" in MissingElements(a) <==> a.warrant == []
    ensures "counterarguments" in MissingElements(a) <==> a.counterarguments == []
    ensures "limitations" in MissingElements(a) <==> a.limitations == []
    ensures "evidence" in MissingElements(a) <==> a.evidence == []
  {
  }

  /** The claim is never reported, even when it is empty. */
  lemma ClaimNeverMissing(a: Argument)
    ensures "claim" !in MissingElements(a)
  {
  }

  /** The report follows the fixed order warrant, counterarguments, limitations,
      evidence; hence it has no duplicates and at most four entries. */
  lemma MissingInReportOrder(a: Argument)
    ensures RankSorted(MissingElements(a))
    ensures forall i, j :: 0 <= i < j < |MissingElements(a)| ==> MissingElements(a)[i] != MissingElements(a)[j]
    ensures |MissingElements(a)| <= 4
  {
    MissingAmongKeepsOrder(a, CheckedElements);
  }

  class Validator {
    constructor ()
    {
    }

    /** Packages the completeness score, the strength of the argument's evidence
        and the missing parts, checked in report order. */
    method Validate(a: Argument) returns (result: ValidationResult)
      ensures result.qualityScore == Score(a) as real
      ensures result.evidenceStrength == AssessEvidenceStrength(a.evidence)
      ensures result.missingElements == MissingElements(a)
    {
      var score := CalculateCompletenessScore(a);
      var strength := AssessEvidenceStrength(a.evidence);

      var missing: seq<string> := [];
      if a.warrant == [] {
        missing := missing + ["warrant"];
      }
      if a.counterarguments == [] {
        missing := missing + ["counterarguments"];
      }
      if a.limitations == [] {
        missing := missing + ["limitations"];
      }
      if a.evidence == [] {
        missing := missing + ["evidence"];
      }
      MissingByPart(a);

      result := ValidationResult(score, strength, missing);
    }
  }

  /** The missing list, part by part. */
  lemma MissingByPart(a: Argument)
    ensures MissingElements(a) ==
              (if a.warrant == [] then ["warrant"] else [])
              + ((if a.counterarguments == [] then ["counterarguments"] else [])
                 + ((if a.limitations == [] then ["limitations"] else [])
                    + (if a.evidence == [] then ["evidence"] else [])))
  {
    var e := if a.evidence == [] then ["evidence"] else [];
    var l := if a.limitations == [] then ["limitations"] else [];
    var c := if a.counterarguments == [] then ["counterarguments"] else [];
    var w := if a.warrant == [] then ["warrant"] else [];
    assert IsMissing(a, "evidence") <==> a.evidence == [];
    MissingAmongStep(a, ["evidence"]);
    assert ["evidence"][1..] == [];
    assert MissingAmong(a, ["evidence"]) == e;
    assert IsMissing(a, "limitations") <==> a.limitations == [];
    MissingAmongStep(a, ["limitations", "evidence"]);
    assert ["limitations", "evidence"][1..] == ["evidence"];
    assert MissingAmong(a, ["limitations", "evidence"]) == l + e;
    assert ["counterarguments", "limitations", "evidence"][0] == "counterarguments";
    assert IsMissing(a, "counterarguments") <==> a.counterarguments == [];
    MissingAmongStep(a, ["counterarguments", "limitations", "evidence"]);
    assert ["counterarguments", "limitations", "evidence"][1..] == ["limitations", "evidence"];
    assert MissingAmong(a, ["counterarguments", "limitations", "evidence"]) == c + (l + e);
    assert IsMissing(a, "warrant") <==> a.warrant == [];
    MissingAmongStep(a, CheckedElements);
    assert CheckedElements[1..] == ["counterarguments", "limitations", "evidence"];
    assert MissingAmong(a, CheckedElements) == w + (c + (l + e));
  }

  lemma MissingAmongStep(a: Argument, names: seq<string>)
    requires names != []
    ensures MissingAmong(a, names) ==
              (if IsMissing(a, names[0]) then [names[0]] else []) + MissingAmong(a, names[1..])
  {
  }

  /** A fully populated argument with experimental evidence at 0.9 validates
      with score 100, strength "strong" and nothing missing. */
  lemma PerfectArgumentValidates(a: Argument, ev: Evidence)
    requires ev.kind == "experimental" && ev.confidence == 0.9
    requires a == Argument("Claim", [ev], "Warrant", [PlainText("Counter")], [], ["Limit"])
    ensures Score(a) == 100
    ensures AssessEvidenceStrength(a.evidence) == "strong"
    ensures MissingElements(a) == []
  {
    FullArgumentScoresHundred(a);
    assert a.evidence[0].kind == "experimental";
    assert HasExperimental(a.evidence);
    assert a.evidence[..0] == [];
    assert Sum(a.evidence) == 0.9;
    MissingByPart(a);
  }

  /** An argument with only a claim validates with score 20, weak evidence,
      and "evidence" reported missing. */
  lemma ClaimOnlyArgumentValidates(a: Argument)
    requires a == NewArgument("Empty Claim")
    ensures Score(a) == 20
    ensures AssessEvidenceStrength(a.evidence) == "weak"
    ensures "evidence" in MissingElements(a)
  {
    ClaimOnlyScoresTwenty(a);
  }
}
