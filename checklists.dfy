/** The reproducibility checklist generated from an argument. */
module Checklists {
  import opened Wrappers
  import opened EvidenceRecords
  import opened Arguments

  // ---------------------------------------------------------------------
  // Decimal rendering of item numbers (Python's str of a non-negative int)
  // ---------------------------------------------------------------------

  predicate IsDigit(ch: char)
  {
    '0' <= ch <= '9'
  }

  predicate AllDigits(s: string)
  {
    forall i :: 0 <= i < |s| ==> IsDigit(s[i])
  }

  function DigitChar(d: nat): (ch: char)
    requires d < 10
    ensures IsDigit(ch) && (ch as int) - ('0' as int) == d
  {
    ('0' as int + d) as char
  }

  /** The decimal numeral of `n`, most significant digit first. */
  function Decimal(n: nat): (s: string)
    ensures |s| >= 1 && AllDigits(s)
    decreases n
  {
    if n < 10 then [DigitChar(n)] else Decimal(n / 10) + [DigitChar(n % 10)]
  }

  /** The value of a decimal numeral. */
  function DecimalValue(s: string): nat
    requires AllDigits(s)
  {
    if s == [] then 0
    else DecimalValue(s[..|s| - 1]) * 10 + ((s[|s| - 1] as int) - ('0' as int))
  }

  /** Reading back a rendered numeral gives the number. */
  lemma {:induction false} DecimalRoundTrip(n: nat)
    ensures DecimalValue(Decimal(n)) == n
    decreases n
  {
    var s := Decimal(n);
    if n >= 10 {
      DecimalRoundTrip(n / 10);
      assert s[..|s| - 1] == Decimal(n / 10);
    }
  }

  /** Different numbers render differently. */
  lemma DecimalInjective(m: nat, n: nat)
    requires Decimal(m) == Decimal(n)
    ensures m == n
  {
    DecimalRoundTrip(m);
    DecimalRoundTrip(n);
  }

  // ---------------------------------------------------------------------
  // The lines of the checklist
  // ---------------------------------------------------------------------

  const NoSourceListed: string := "No source listed"
  const SourcePrefix: string := "[ ] Verify source availability for Evidence #"
  const AuditPrefix: string := "[ ] Audit data processing steps for Evidence #"
  const NoEvidenceLine: string := "[!] No evidence provided to verify"
  const WarrantPrefix: string := "[ ] Verify warrant logic: "
  const MissingWarrantLine: string := "[!] Missing Warrant"
  const LimitationsLine: string := "[ ] Confirm all listed limitations are addressed in discussion"
  const NoLimitationsLine: string := "[!] No limitations disclosed"

  /** How many characters of the warrant the checklist quotes. */
  const WarrantExcerptLength: nat := 50

  /** The source shown for evidence: itself, or a placeholder when absent or empty. */
  function SourceText(source: Option<string>): (t: string)
    ensures source.Some? && source.value != [] ==> t == source.value
    ensures source.None? || source.value == [] ==> t == NoSourceListed
  {
    match source
    case Some(s) => if s != [] then s else NoSourceListed
    case None => NoSourceListed
  }

  /** The source-verification line for the evidence numbered `number`. */
  function SourceLine(number: nat, ev: Evidence): string
  {
    SourcePrefix + Decimal(number) + ": " + SourceText(ev.source)
  }

  /** The data-processing audit line for the evidence numbered `number`. */
  function AuditLine(number: nat): string
  {
    AuditPrefix + Decimal(number)
  }

  /** The first characters (at most fifty) of the warrant. */
  function WarrantExcerpt(warrant: string): (x: string)
    ensures |x| == if |warrant| < WarrantExcerptLength then |warrant| else WarrantExcerptLength
    ensures x <= warrant
    ensures |warrant| <= WarrantExcerptLength ==> x == warrant
  {
    if |warrant| <= WarrantExcerptLength then warrant else warrant[..WarrantExcerptLength]
  }

  function WarrantLine(warrant: string): string
  {
    if warrant != [] then WarrantPrefix + WarrantExcerpt(warrant) + "..." else MissingWarrantLine
  }

  function LimitationsLineFor(limitations: seq<string>): string
  {
    if limitations != [] then LimitationsLine else NoLimitationsLine
  }

  /** Two lines per piece of evidence, numbered from 1, in list order. */
  function EvidenceLines(evs: seq<Evidence>): (lines: seq<string>)
    ensures |lines| == 2 * |evs|
  {
    if evs == [] then []
    else EvidenceLines(evs[..|evs| - 1]) + [SourceLine(|evs|, evs[|evs| - 1]), AuditLine(|evs|)]
  }

  /** The checklist: the evidence lines (or one flag when there is no evidence),
      then the warrant line, then the limitations line. */
  function Checklist(a: Argument): (lines: seq<string>)
    ensures |lines| == if a.evidence == [] then 3 else 2 * |a.evidence| + 2
  {
    (if a.evidence == [] then [NoEvidenceLine] else EvidenceLines(a.evidence))
    + [WarrantLine(a.warrant), LimitationsLineFor(a.limitations)]
  }

  // ---------------------------------------------------------------------
  // Generation
  // ---------------------------------------------------------------------

  /** Builds the checklist line by line, as the source does; it changes nothing. */
  method GenerateChecklist(a: Argument) returns (checklist: seq<string>)
    ensures checklist == Checklist(a)
  {
    checklist := [];

    if a.evidence != [] {
      for idx := 0 to |a.evidence|
        invariant |checklist| == 2 * idx
        invariant checklist == EvidenceLines(a.evidence[..idx])
      {
        var ev := a.evidence[idx];
        assert a.evidence[..idx + 1][..idx] == a.evidence[..idx];
        checklist := checklist + [SourceLine(idx + 1, ev)];
        checklist := checklist + [AuditLine(idx + 1)];
      }
      assert a.evidence[..|a.evidence|] == a.evidence;
    } else {
      checklist := checklist + [NoEvidenceLine];
    }

    checklist := checklist + [if a.warrant != [] then WarrantPrefix + WarrantExcerpt(a.warrant) + "..." else MissingWarrantLine];

    if a.limitations != [] {
      checklist := checklist + [LimitationsLine];
    } else {
      checklist := checklist + [NoLimitationsLine];
    }
  }

  /** The argument's own entry point: exactly the checklist of the argument. */
  method GenerateReproducibilityChecklist(a: Argument) returns (checklist: seq<string>)
    ensures checklist == Checklist(a)
  {
    checklist := GenerateChecklist(a);
  }

  // ---------------------------------------------------------------------
  // Properties
  // ---------------------------------------------------------------------

  /** Evidence item i (from 0) owns lines 2i and 2i+1, numbered i+1. */
  lemma {:induction false} EvidenceLinesAt(evs: seq<Evidence>, i: nat)
    requires i < |evs|
    ensures |EvidenceLines(evs)| == 2 * |evs|
    ensures EvidenceLines(evs)[2 * i] == SourceLine(i + 1, evs[i])
    ensures EvidenceLines(evs)[2 * i + 1] == AuditLine(i + 1)
  {
    var init := evs[..|evs| - 1];
    if i < |init| {
      EvidenceLinesAt(init, i);
      assert init[i] == evs[i];
    } else if init != [] {
      EvidenceLinesAt(init, 0);
    }
  }

  /** The shape of the checklist: 2n+2 lines for n >= 1 pieces of evidence,
      3 lines without evidence, and the fixed content of every line. */
  lemma ChecklistShape(a: Argument)
    ensures a.evidence != [] ==> |Checklist(a)| == 2 * |a.evidence| + 2
    ensures a.evidence == [] ==> |Checklist(a)| == 3 && Checklist(a)[0] == NoEvidenceLine
    ensures forall i :: 0 <= i < |a.evidence| ==>
              && Checklist(a)[2 * i] == SourcePrefix + Decimal(i + 1) + ": " + SourceText(a.evidence[i].source)
              && Checklist(a)[2 * i + 1] == AuditPrefix + Decimal(i + 1)
    ensures Checklist(a)[|Checklist(a)| - 2] ==
              if a.warrant != [] then WarrantPrefix + WarrantExcerpt(a.warrant) + "..." else MissingWarrantLine
    ensures Checklist(a)[|Checklist(a)| - 1] ==
              if a.limitations != [] then LimitationsLine else NoLimitationsLine
  {
    if a.evidence != [] {
      EvidenceLinesAt(a.evidence, 0);
      forall i | 0 <= i < |a.evidence|
        ensures Checklist(a)[2 * i] == SourceLine(i + 1, a.evidence[i])
        ensures Checklist(a)[2 * i + 1] == AuditLine(i + 1)
      {
        EvidenceLinesAt(a.evidence, i);
      }
    }
  }

  /** The numbered lines of different evidence items are different. */
  lemma AuditLinesDistinct(a: Argument, i: nat, j: nat)
    requires i < j < |a.evidence|
    ensures Checklist(a)[2 * i + 1] != Checklist(a)[2 * j + 1]
  {
    ChecklistShape(a);
    if AuditLine(i + 1) == AuditLine(j + 1) {
      var p := |AuditPrefix|;
      assert AuditLine(i + 1)[p..] == Decimal(i + 1);
      assert AuditLine(j + 1)[p..] == Decimal(j + 1);
      DecimalInjective(i + 1, j + 1);
    }
  }
}
