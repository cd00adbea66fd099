/** The argument aggregate and the records it holds. */
module Arguments {
  import opened Wrappers
  import opened EvidenceRecords

  /** An opposing point. Its strength is meant to be "weak", "moderate" or
      "strong" but is never checked against that set. */
  datatype Counterargument = Counterargument(statement: string, strength: string := "moderate")

  /** A counterargument entry is either plain text or a structured record. */
  datatype CounterargumentEntry = PlainText(text: string) | Structured(counterargument: Counterargument)

  /** A response to a counterargument, optionally backed by evidence. */
  datatype Rebuttal = Rebuttal(counterargument: Counterargument, response: string, evidence: Option<Evidence> := None)

  /** The root aggregate. Every collection defaults to empty; being a value,
      no two arguments can share one. */
  datatype Argument = Argument(
    claim: string,
    evidence: seq<Evidence> := [],
    warrant: string := "",
    counterarguments: seq<CounterargumentEntry> := [],
    rebuttals: seq<Rebuttal> := [],
    limitations: seq<string> := [])

  /** An argument built from its claim alone. */
  function NewArgument(claim: string): (a: Argument)
    ensures a.claim == claim
    ensures a.evidence == [] && a.warrant == "" && a.counterarguments == []
    ensures a.rebuttals == [] && a.limitations == []
  {
    Argument(claim)
  }

  /** A counterargument built from its statement alone is of moderate strength. */
  function NewCounterargument(statement: string): (c: Counterargument)
    ensures c.statement == statement && c.strength == "moderate"
  {
    Counterargument(statement)
  }

  /** A rebuttal built without evidence carries none. */
  function NewRebuttal(counterargument: Counterargument, response: string): (r: Rebuttal)
    ensures r.counterargument == counterargument && r.response == response
    ensures r.evidence == None
  {
    Rebuttal(counterargument, response)
  }
}
