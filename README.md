# ida-framework argument scoring, validation and checklists — a Dafny model

This project models the core of a small library for structuring research
arguments: the records an argument is made of (evidence, evidence chains,
counterarguments, rebuttals, the argument itself), the weighted completeness
score, the evidence-strength heuristic, the validator that packages both with
the list of missing parts, and the reproducibility checklist generator.

Modules, one per source file:

- `Wrappers` (`wrappers.dfy`): `Option` and `Result`.
- `EvidenceRecords` (`evidence.dfy`): `Evidence` and `EvidenceChain`
  (src/ida/core/evidence.py). The range check on the confidence is the subset
  type `Evidence`, and `NewEvidence` is the checked constructor. It returns a
  `ValueError` when the confidence is out of range. `EvidenceChain` is a class
  whose `items` field is a sequence that `AddEvidence` reassigns.
- `Arguments` (`argument.py` → `argument.dfy`): `Counterargument`, `Rebuttal`,
  `Argument`, and the polymorphic counterargument entry
  `PlainText(string) | Structured(Counterargument)`. Defaults are datatype
  constructor defaults. Being values, two arguments can never share a
  default list.
- `Metrics` (`metrics.dfy`): the completeness score, specified as the total
  weight of the present parts and computed by `CalculateCompletenessScore`
  step by step; and `AssessEvidenceStrength`, a function over the mean
  confidence (exact `real` arithmetic).
- `Validation` (`validator.dfy`): `ValidationResult` and `Validator.Validate`.
  The missing list is built by four conditional appends, specified as a
  filter of the fixed report order.
- `Checklists` (`checklists.dfy`): `GenerateChecklist` builds the list in a
  loop, and is proved equal to the function `Checklist`. The decimal
  rendering of item numbers (`Decimal`) is modelled and proved invertible.

Python truthiness of strings and lists is "non-empty". Python's `float`
confidence is a Dafny `real`. The Python field `Evidence.type` is named
`kind`, because `type` is a Dafny keyword.

`Argument.generate_reproducibility_checklist` is modelled as
`Checklists.GenerateReproducibilityChecklist`, a free method. Dafny does not
allow the import cycle between the argument and the checklist modules,
which the Python code avoids with a local import. `GenerateChecklist` has no
`modifies` clause, so it changes nothing. Its result equals a function of
the argument, so equal arguments give equal checklists.

## Model

| member | source | states |
|---|---|---|
| `EvidenceRecords.NewEvidence` | src/ida/core/evidence.py:4-18 | construction succeeds iff 0.0 <= confidence <= 1.0, and then stores every field as given; otherwise it fails with ValueError("Confidence must be between 0.0 and 1.0") |
| `EvidenceRecords.NewEvidenceDefaults` | src/ida/core/evidence.py:10-13 | evidence from a description alone succeeds with type "general", confidence 1.0 and no source |
| `EvidenceRecords.EvidenceChain.constructor` | src/ida/core/evidence.py:20-25 | a chain starts with the given items, empty by default |
| `EvidenceRecords.EvidenceChain.AddEvidence` | src/ida/core/evidence.py:27-28 | the new items are the old items with `e` appended; length grows by one, `e` is last, earlier items keep their index |
| `EvidenceRecords.EvidenceChain.Length` | src/ida/core/evidence.py:33-34 | the reported length is the number of stored items |
| `EvidenceRecords.EvidenceChain.Iterate` | src/ida/core/evidence.py:30-31 | a traversal yields exactly the stored items in insertion order |
| `EvidenceRecords.AddTwoInOrder` | tests/test_core_structure.py:16-23 | adding ev1 then ev2 to a fresh chain gives exactly [ev1, ev2]: length 2, first item ev1 |
| `Arguments.NewArgument` | src/ida/core/argument.py:21-31 | an argument from a claim alone has empty evidence, warrant, counterarguments, rebuttals and limitations |
| `Arguments.NewCounterargument` | src/ida/core/argument.py:10-13 | a counterargument defaults to strength "moderate" |
| `Arguments.NewRebuttal` | src/ida/core/argument.py:15-19 | a rebuttal defaults to no evidence |
| `Metrics.PresentAmong` | src/ida/validation/metrics.py:18-31 | a part is selected iff it is one of the candidates and the argument's field is non-empty |
| `Metrics.CalculateCompletenessScore` | src/ida/validation/metrics.py:5-33 | the step-by-step sum equals the total weight of exactly the non-empty parts among claim, evidence, warrant, counterarguments, limitations |
| `Metrics.ScoreByPart` | src/ida/validation/metrics.py:10-31 | the score is the sum, over the five parts, of the part's weight (20, 30, 20, 15, 15) if it is non-empty and 0 otherwise |
| `Metrics.ScoreInRange` | src/ida/validation/metrics.py:5-33 | the score is between 0 and 100 |
| `Metrics.ScoreIsReachable` | src/ida/validation/metrics.py:10-31 | the score is one of the subset sums of the weights: 0, 15, 20, 30, 35, 40, 45, 50, 55, 60, 65, 70, 80, 85 or 100 |
| `Metrics.ScoreMonotone` | src/ida/validation/metrics.py:18-31 | when every part non-empty in `a` is non-empty in `b`, `b` scores at least as much |
| `Metrics.ScoreDependsOnlyOnPresence` | src/ida/validation/metrics.py:18-31 | two arguments with the same non-empty parts score the same, whatever the number of items or their confidences |
| `Metrics.ScoreAddsFullWeight` | src/ida/validation/metrics.py:18-31 | filling in one more part raises the score by exactly that part's weight |
| `Metrics.FullArgumentScoresHundred` | src/ida/validation/metrics.py:10-31 | all five parts non-empty gives 100 |
| `Metrics.ClaimOnlyScoresTwenty` | src/ida/validation/metrics.py:18-19 | only a non-empty claim gives 20 |
| `Metrics.AssessEvidenceStrength` | src/ida/validation/metrics.py:35-47 | the result is "weak", "moderate" or "strong"; "strong" iff the list is non-empty, the mean confidence is > 0.8 and some item has type exactly "experimental"; "moderate" iff it is not strong and the mean is > 0.5; the empty list is "weak" |
| `Metrics.StrengthThresholdsAreStrict` | src/ida/validation/metrics.py:42-47 | a mean of exactly 0.5 gives "weak", a mean of exactly 0.8 gives "moderate" |
| `Metrics.MeanInUnitInterval` | src/ida/validation/metrics.py:39 | since every confidence is in [0, 1], so is the mean |
| `Metrics.StrengthOrderIndependent` | src/ida/validation/metrics.py:39-40 | swapping two blocks of the evidence list never changes the strength |
| `Metrics.StrengthMonotone` | src/ida/validation/metrics.py:39-47 | raising confidences item by item, with the same types, never lowers the tier |
| `Metrics.UniformConfidenceStrength` | src/ida/validation/metrics.py:39-47 | when all items have confidence c, the tier is decided by c itself (all 1.0 with an experimental item is "strong", all 0.6 is "moderate") |
| `Validation.MissingAmong` | src/ida/validation/validator.py:17-25 | a name is selected iff it is one of the candidates and that part of the argument is empty |
| `Validation.Validator.Validate` | src/ida/validation/validator.py:13-31 | the result holds the completeness score, the strength of the argument's evidence, and the missing parts in report order |
| `Validation.MissingByPart` | src/ida/validation/validator.py:17-25 | the missing list is "warrant", "counterarguments", "limitations", "evidence", in that order, each present iff its part is empty |
| `Validation.MissingExactlyWhenEmpty` | src/ida/validation/validator.py:17-25 | each of the four names is in the missing list iff the corresponding field is empty |
| `Validation.ClaimNeverMissing` | src/ida/validation/validator.py:17-25 | "claim" is never reported missing, even for an empty claim |
| `Validation.MissingInReportOrder` | src/ida/validation/validator.py:17-25 | the missing list follows the fixed report order, has no duplicates and at most four entries |
| `Validation.PerfectArgumentValidates` | tests/test_validator.py:6-19 | the fully populated argument with experimental evidence at 0.9 scores 100, is "strong" and misses nothing |
| `Validation.ClaimOnlyArgumentValidates` | tests/test_validator.py:21-28 | an argument with only a claim scores 20, is "weak" and misses "evidence" |
| `Checklists.Decimal` | src/ida/reproducibility/checklists.py:10-11 | an item number renders as a non-empty string of decimal digits |
| `Checklists.DecimalRoundTrip` | src/ida/reproducibility/checklists.py:10-11 | reading back a rendered number gives the number |
| `Checklists.DecimalInjective` | src/ida/reproducibility/checklists.py:10-11 | different item numbers render differently |
| `Checklists.SourceText` | src/ida/reproducibility/checklists.py:10 | the source line shows the source when it is present and non-empty, else "No source listed" |
| `Checklists.WarrantExcerpt` | src/ida/reproducibility/checklists.py:16 | the quoted warrant is its prefix of length min(50, length), the whole warrant when it has at most 50 characters |
| `Checklists.EvidenceLines` | src/ida/reproducibility/checklists.py:9-11 | each piece of evidence contributes exactly two lines |
| `Checklists.Checklist` | src/ida/reproducibility/checklists.py:4-24 | the checklist has 3 lines without evidence and 2n+2 lines with n >= 1 pieces of evidence |
| `Checklists.GenerateChecklist` | src/ida/reproducibility/checklists.py:4-24 | the list built by the loop and the conditional appends is exactly `Checklist(a)` |
| `Checklists.GenerateReproducibilityChecklist` | src/ida/core/argument.py:33-35 | the argument's checklist is exactly the generated checklist |
| `Checklists.EvidenceLinesAt` | src/ida/reproducibility/checklists.py:9-11 | evidence i (from 0) owns lines 2i and 2i+1: the source line and the audit line, both numbered i+1 |
| `Checklists.ChecklistShape` | src/ida/reproducibility/checklists.py:8-24 | length 2n+2 (or 3 with the "[!] No evidence provided to verify" line first); line 2i is "[ ] Verify source availability for Evidence #<i+1>: <source>", line 2i+1 is "[ ] Audit data processing steps for Evidence #<i+1>"; second to last is the truncated warrant line or "[!] Missing Warrant"; last is the limitations confirmation or "[!] No limitations disclosed" |
| `Checklists.AuditLinesDistinct` | src/ida/reproducibility/checklists.py:11 | the audit lines of different evidence items differ |

## Left out

- src/ida/reproducibility/artifacts.py: Markdown export and package creation are file-system I/O. It is not part of this model.
- src/ida/core/claim.py and src/ida/core/hypothesis.py: data-only records with no behaviour. They are not part of this model.
- `Evidence.metadata`: an opaque dictionary of arbitrary values that no logic reads. It is not modelled. `sample_size` is kept as `Option<int>` and never read.
- Floating point: confidences and the mean are exact reals. IEEE rounding of `sum(...)/len(...)` near the 0.5 and 0.8 thresholds is not captured. Neither is a NaN confidence, which the Python range check rejects.
- Mutation of an `Evidence` after construction: Python dataclasses allow it, but the model treats evidence as an immutable value that always satisfies its range check.
- Aliasing of the argument's lists: arguments are values here. Two Python arguments sharing one list object, and in-place changes seen through both, are not modelled.
- `EvidenceChain.__iter__` returns a lazy iterator. `EvidenceChain.Iterate` returns the whole traversal as one sequence.
