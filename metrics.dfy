/** The completeness score and the evidence-strength heuristic. */
module Metrics {
  import opened EvidenceRecords
  import opened Arguments

  // ---------------------------------------------------------------------
  // Completeness score
  // ---------------------------------------------------------------------

  /** The five scored parts of an argument. */
  datatype Component = ClaimPart | EvidencePart | WarrantPart | CounterargumentsPart | LimitationsPart

  const Components: seq<Component> :=
    [ClaimPart, EvidencePart, WarrantPart, CounterargumentsPart, LimitationsPart]

  function Weight(c: Component): nat
  {
    match c
    case ClaimPart => 20
    case EvidencePart => 30
    case WarrantPart => 20
    case CounterargumentsPart => 15
    case LimitationsPart => 15
  }

  /** A part is present when it is non-empty (Python truthiness). */
  predicate Present(a: Argument, c: Component)
  {
    match c
    case ClaimPart => a.claim != []
    case EvidencePart => a.evidence != []
    case WarrantPart => a.warrant != []
    case CounterargumentsPart => a.counterarguments != []
    case LimitationsPart => a.limitations != []
  }

  function TotalWeight(cs: seq<Component>): nat
  {
    if cs == [] then 0 else Weight(cs[0]) + TotalWeight(cs[1..])
  }

  /** The parts among `cs` that `a` has, in the order of `cs`. */
  function PresentAmong(a: Argument, cs: seq<Component>): (r: seq<Component>)
    ensures forall c :: c in r <==> c in cs && Present(a, c)
    ensures |r| <= |cs|
  {
    if cs == [] then []
    else if Present(a, cs[0]) then [cs[0]] + PresentAmong(a, cs[1..])
    else PresentAmong(a, cs[1..])
  }

  /** The score: the total weight of exactly the parts the argument has. */
  function Score(a: Argument): nat
  {
    TotalWeight(PresentAmong(a, Components))
  }

  function PresenceWeight(a: Argument, c: Component): nat
  {
    if Present(a, c) then Weight(c) else 0
  }

  /** The score, part by part. */
  lemma ScoreByPart(a: Argument)
    ensures Score(a) == PresenceWeight(a, ClaimPart) + PresenceWeight(a, EvidencePart)
                        + PresenceWeight(a, WarrantPart) + PresenceWeight(a, CounterargumentsPart)
                        + PresenceWeight(a, LimitationsPart)
  {
    var cs := Components;
    assert cs[1..] == [EvidencePart, WarrantPart, CounterargumentsPart, LimitationsPart];
    assert cs[1..][1..] == [WarrantPart, CounterargumentsPart, LimitationsPart];
    assert cs[1..][1..][1..] == [CounterargumentsPart, LimitationsPart];
    assert cs[1..][1..][1..][1..] == [LimitationsPart];
    assert cs[1..][1..][1..][1..][1..] == [];
    TotalWeightOfPresent(a, cs);
    TotalWeightOfPresent(a, cs[1..]);
    TotalWeightOfPresent(a, cs[1..][1..]);
    TotalWeightOfPresent(a, cs[1..][1..][1..]);
    TotalWeightOfPresent(a, cs[1..][1..][1..][1..]);
  }

  /** Filtering peels off one part at a time. */
  lemma TotalWeightOfPresent(a: Argument, cs: seq<Component>)
    requires cs != []
    ensures TotalWeight(PresentAmong(a, cs)) == PresenceWeight(a, cs[0]) + TotalWeight(PresentAmong(a, cs[1..]))
  {
    if Present(a, cs[0]) {
      var rest := PresentAmong(a, cs[1..]);
      assert ([cs[0]] + rest)[1..] == rest;
    }
  }

  /** The score computed as the source does: start from zero and add the
      weight of each non-empty part in turn. */
  method CalculateCompletenessScore(a: Argument) returns (score: real)
    ensures score == Score(a) as real
  {
    var total: nat := 0;
    if a.claim != [] {
      total := total + Weight(ClaimPart);
    }
    if a.evidence != [] && |a.evidence| > 0 {
      total := total + Weight(EvidencePart);
    }
    if a.warrant != [] {
      total := total + Weight(WarrantPart);
    }
    if a.counterarguments != [] && |a.counterarguments| > 0 {
      total := total + Weight(CounterargumentsPart);
    }
    if a.limitations != [] && |a.limitations| > 0 {
      total := total + Weight(LimitationsPart);
    }
    ScoreByPart(a);
    score := total as real;
  }

  /** Filtering for `b` keeps at least the weight filtering for `a` keeps,
      when every part `a` has is one `b` has. */
  lemma {:induction false} PresentWeightMonotone(a: Argument, b: Argument, cs: seq<Component>)
    requires forall c :: Present(a, c) ==> Present(b, c)
    ensures TotalWeight(PresentAmong(a, cs)) <= TotalWeight(PresentAmong(b, cs))
  {
    if cs != [] {
      TotalWeightOfPresent(a, cs);
      TotalWeightOfPresent(b, cs);
      PresentWeightMonotone(a, b, cs[1..]);
    }
  }

  /** Filtering never adds weight. */
  lemma {:induction false} PresentWeightBounded(a: Argument, cs: seq<Component>)
    ensures TotalWeight(PresentAmong(a, cs)) <= TotalWeight(cs)
  {
    if cs != [] {
      TotalWeightOfPresent(a, cs);
      PresentWeightBounded(a, cs[1..]);
    }
  }

  /** The score lies in [0, 100]. */
  lemma ScoreInRange(a: Argument)
    ensures 0 <= Score(a) <= 100
  {
    PresentWeightBounded(a, Components);
    assert TotalWeight(Components) == 100;
  }

  /** The score is one of the sums of a subset of the weights. */
  lemma ScoreIsReachable(a: Argument)
    ensures Score(a) in {0, 15, 20, 30, 35, 40, 45, 50, 55, 60, 65, 70, 80, 85, 100}
  {
    ScoreByPart(a);
  }

  /** Making more parts non-empty never lowers the score. */
  lemma ScoreMonotone(a: Argument, b: Argument)
    requires forall c :: Present(a, c) ==> Present(b, c)
    ensures Score(a) <= Score(b)
  {
    PresentWeightMonotone(a, b, Components);
  }

  /** Only presence matters: how many items a part holds, and what they say
      (confidences included), never changes the score. */
  lemma ScoreDependsOnlyOnPresence(a: Argument, b: Argument)
    requires forall c :: Present(a, c) <==> Present(b, c)
    ensures Score(a) == Score(b)
  {
    ScoreMonotone(a, b);
    ScoreMonotone(b, a);
  }

  /** Filling in one more part adds exactly its weight: each part counts in full or not at all. */
  lemma ScoreAddsFullWeight(a: Argument, b: Argument, c: Component)
    requires !Present(a, c) && Present(b, c)
    requires forall d :: d != c ==> (Present(a, d) <==> Present(b, d))
    ensures Score(b) == Score(a) + Weight(c)
  {
    ScoreByPart(a);
    ScoreByPart(b);
  }

  /** All five parts present gives the full score. */
  lemma FullArgumentScoresHundred(a: Argument)
    requires forall c :: Present(a, c)
    ensures Score(a) == 100
  {
    ScoreByPart(a);
  }

  /** An argument with only a claim scores 20. */
  lemma ClaimOnlyScoresTwenty(a: Argument)
    requires a.claim != []
    requires a.evidence == [] && a.warrant == [] && a.counterarguments == [] && a.limitations == []
    ensures Score(a) == 20
  {
    ScoreByPart(a);
  }

  // ---------------------------------------------------------------------
  // Evidence strength
  // ---------------------------------------------------------------------

  /** The sum of the confidences, added left to right. */
  function Sum(evs: seq<Evidence>): real
  {
    if evs == [] then 0.0 else Sum(evs[..|evs| - 1]) + evs[|evs| - 1].confidence
  }

  function MeanConfidence(evs: seq<Evidence>): real
    requires evs != []
  {
    Sum(evs) / (|evs| as real)
  }

  predicate HasExperimental(evs: seq<Evidence>)
  {
    exists i :: 0 <= i < |evs| && evs[i].kind == "experimental"
  }

  /** "strong" when the mean confidence exceeds 0.8 and some item is
      experimental, else "moderate" when the mean exceeds 0.5, else "weak";
      an empty list is "weak". */
  function AssessEvidenceStrength(evs: seq<Evidence>): (r: string)
    ensures r == "weak" || r == "moderate" || r == "strong"
    ensures r == "strong" <==> evs != [] && MeanConfidence(evs) > 0.8 && HasExperimental(evs)
    ensures r == "moderate" <==>
              evs != [] && MeanConfidence(evs) > 0.5 && !(MeanConfidence(evs) > 0.8 && HasExperimental(evs))
  {
    if evs == [] then "weak"
    else
      var avg := MeanConfidence(evs);
      if avg > 0.8 && HasExperimental(evs) then "strong"
      else if avg > 0.5 then "moderate"
      else "weak"
  }

  /** The tiers ordered from weak to strong. */
  function StrengthRank(s: string): nat
  {
    if s == "strong" then 2 else if s == "moderate" then 1 else 0
  }

  /** The thresholds are strict: a mean of exactly 0.5 is weak, a mean of
      exactly 0.8 is at best moderate. */
  lemma StrengthThresholdsAreStrict(evs: seq<Evidence>)
    requires evs != []
    ensures MeanConfidence(evs) == 0.5 ==> AssessEvidenceStrength(evs) == "weak"
    ensures MeanConfidence(evs) == 0.8 ==> AssessEvidenceStrength(evs) == "moderate"
  {
  }

  lemma {:induction false} SumInRange(evs: seq<Evidence>)
    ensures 0.0 <= Sum(evs) <= |evs| as real
  {
    if evs != [] {
      SumInRange(evs[..|evs| - 1]);
    }
  }

  /** Since every confidence is in [0, 1], so is the mean. */
  lemma MeanInUnitInterval(evs: seq<Evidence>)
    requires evs != []
    ensures 0.0 <= MeanConfidence(evs) <= 1.0
  {
    SumInRange(evs);
  }

  lemma {:induction false} SumAppend(s: seq<Evidence>, t: seq<Evidence>)
    ensures Sum(s + t) == Sum(s) + Sum(t)
  {
    if t == [] {
      assert s + t == s;
    } else {
      var t' := t[..|t| - 1];
      assert (s + t)[..|s + t| - 1] == s + t';
      SumAppend(s, t');
    }
  }

  lemma HasExperimentalAppend(s: seq<Evidence>, t: seq<Evidence>)
    ensures HasExperimental(s + t) <==> HasExperimental(s) || HasExperimental(t)
  {
    if HasExperimental(s + t) {
      var i :| 0 <= i < |s + t| && (s + t)[i].kind == "experimental";
      if i >= |s| {
        assert t[i - |s|].kind == "experimental";
      }
    }
    if HasExperimental(t) {
      var i :| 0 <= i < |t| && t[i].kind == "experimental";
      assert (s + t)[|s| + i].kind == "experimental";
    }
    if HasExperimental(s) {
      var i :| 0 <= i < |s| && s[i].kind == "experimental";
      assert (s + t)[i].kind == "experimental";
    }
  }

  /** The order of the evidence does not matter. */
  lemma StrengthOrderIndependent(s: seq<Evidence>, t: seq<Evidence>)
    ensures AssessEvidenceStrength(s + t) == AssessEvidenceStrength(t + s)
  {
    SumAppend(s, t);
    SumAppend(t, s);
    HasExperimentalAppend(s, t);
    HasExperimentalAppend(t, s);
  }

  lemma {:induction false} SumMonotone(s: seq<Evidence>, t: seq<Evidence>)
    requires |s| == |t|
    requires forall i :: 0 <= i < |s| ==> s[i].confidence <= t[i].confidence
    ensures Sum(s) <= Sum(t)
  {
    if s != [] {
      SumMonotone(s[..|s| - 1], t[..|t| - 1]);
    }
  }

  /** Raising confidences, with the types unchanged, never lowers the tier. */
  lemma StrengthMonotone(s: seq<Evidence>, t: seq<Evidence>)
    requires |s| == |t|
    requires forall i :: 0 <= i < |s| ==> s[i].kind == t[i].kind && s[i].confidence <= t[i].confidence
    ensures StrengthRank(AssessEvidenceStrength(s)) <= StrengthRank(AssessEvidenceStrength(t))
  {
    if s != [] {
      SumMonotone(s, t);
      var n := |s| as real;
      assert Sum(s) / n <= Sum(t) / n;
      if HasExperimental(s) {
        var i :| 0 <= i < |s| && s[i].kind == "experimental";
        assert t[i].kind == "experimental";
      }
    }
  }

  lemma {:induction false} SumOfUniform(evs: seq<Evidence>, c: real)
    requires forall i :: 0 <= i < |evs| ==> evs[i].confidence == c
    ensures Sum(evs) == c * (|evs| as real)
  {
    if evs != [] {
      SumOfUniform(evs[..|evs| - 1], c);
    }
  }

  /** When every item has confidence `c`, the tier is decided by `c` itself:
      e.g. all 1.0 with an experimental item is "strong", all 0.6 without one is "moderate". */
  lemma UniformConfidenceStrength(evs: seq<Evidence>, c: real)
    requires evs != []
    requires forall i :: 0 <= i < |evs| ==> evs[i].confidence == c
    ensures AssessEvidenceStrength(evs) ==
              if c > 0.8 && HasExperimental(evs) then "strong"
              else if c > 0.5 then "moderate"
              else "weak"
  {
    SumOfUniform(evs, c);
    var n := |evs| as real;
    assert MeanConfidence(evs) == c * n / n;
    assert c * n / n == c;
  }
}
