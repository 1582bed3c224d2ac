/** The holder a ClassModel keeps its collection name in. Proposals are
    recorded in the order they are made; the rule that picks the current value
    from them belongs to the holder's own class and is kept abstract: it is
    fixed when the holder is created. */
module WeightedValues {
  import opened Wrappers

  datatype Proposal = Proposal(weight: int, value: string)

  /** How the holder derives its current value from the proposals made so far. */
  type Rule = seq<Proposal> -> Option<string>

  class WeightedValue {
    const rule: Rule
    var proposals: seq<Proposal>

    constructor (rule: Rule)
      ensures this.rule == rule && proposals == []
    {
      this.rule := rule;
      proposals := [];
    }

    method Set(weight: int, value: string)
      modifies this
      ensures proposals == old(proposals) + [Proposal(weight, value)]
    {
      proposals := proposals + [Proposal(weight, value)];
    }

    function Get(): Option<string>
      reads this
    {
      rule(proposals)
    }
  }
}
