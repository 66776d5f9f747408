/** Whole runs of a classifier against the plain set of rules it stands for. */
module ClassifierRuns {
  import opened Options
  import opened FlowMatch
  import Classifier

  datatype Op = Replace(rule: Rule) | Remove(rule: Rule)

  /** What an operation does to the set of rules held. */
  ghost function Apply(s: set<Rule>, op: Op): set<Rule> {
    match op
    case Replace(rule) => (set r | r in s && !SameKey(r, rule)) + {rule}
    case Remove(rule) => s - {rule}
  }

  ghost function HeldAfter(ops: seq<Op>): set<Rule> {
    if ops == [] then {} else Apply(HeldAfter(ops[..|ops| - 1]), ops[|ops| - 1])
  }

  /** Rules are well formed, and only a rule that is held is removed. */
  ghost predicate Legal(ops: seq<Op>) {
    forall i | 0 <= i < |ops| ::
      match ops[i]
      case Replace(rule) => rule.WellFormed()
      case Remove(rule) => rule in HeldAfter(ops[..i])
  }

  ghost predicate KeysUnique(s: set<Rule>) {
    forall a, b | a in s && b in s && SameKey(a, b) :: a == b
  }

  /** At most one rule is held for a match and a priority. */
  lemma {:induction false} HeldKeysUnique(ops: seq<Op>)
    ensures KeysUnique(HeldAfter(ops))
  {
    if ops != [] {
      HeldKeysUnique(ops[..|ops| - 1]);
    }
  }

  lemma ReplaceApplies(s: set<Rule>, rule: Rule, displaced: Option<Rule>, out: set<Rule>)
    requires KeysUnique(s)
    requires displaced.None? ==> (forall r | r in s :: !SameKey(r, rule)) && out == s + {rule}
    requires displaced.Some? ==>
               displaced.value in s && SameKey(displaced.value, rule) && out == s - {displaced.value} + {rule}
    ensures out == Apply(s, Replace(rule))
  {
    forall r | r in s && SameKey(r, rule) ensures displaced == Some(r) {
      assert SameKey(r, displaced.value);
    }
  }

  /** After any legal run, lookup finds a best match among the rules held by plain bookkeeping. */
  method LookupAfter(hash: Bits -> nat, ops: seq<Op>, flow: Bits) returns (best: Option<Rule>)
    requires Legal(ops)
    ensures best.None? ==> forall r | r in HeldAfter(ops) :: !Matches(r, flow)
    ensures best.Some? ==> best.value in HeldAfter(ops) && Matches(best.value, flow)
    ensures best.Some? ==> forall r | r in HeldAfter(ops) && Matches(r, flow) :: r.priority <= best.value.priority
  {
    hide Classifier.Classifier.Valid, Matches;
    var c := new Classifier.Classifier(hash);
    for i := 0 to |ops|
      invariant fresh(c) && c.Valid() && c.held == HeldAfter(ops[..i])
    {
      HeldKeysUnique(ops[..i]);
      assert ops[..i + 1][..i] == ops[..i];
      match ops[i] {
        case Replace(rule) =>
          var displaced := c.Replace(rule);
          ReplaceApplies(HeldAfter(ops[..i]), rule, displaced, c.held);
        case Remove(rule) =>
          c.Remove(rule);
      }
    }
    assert ops[..|ops|] == ops;
    best := c.Lookup(flow);
  }
}
