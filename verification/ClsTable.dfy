/** A table of the classifier: the rules that share one mask (struct cls_table).
 *
 * A table is a record in the classifier's dictionary; a method that changes it
 * returns the record that replaces it there.
 */
module ClsTable {
  import opened Options
  import opened FlowMatch
  import opened Seqs
  import opened Chains

  datatype Table = Table(mask: Bits, chains: seq<Chain>, nTableRules: nat, maxPriority: nat, maxCount: nat)
  {
    ghost predicate Valid(hash: Bits -> nat) {
      && ChainsOk(chains, mask, hash)
      && MaxOk(Held(), maxPriority, maxCount)
      && nTableRules == |Held()|
    }

    ghost function Held(): set<Rule> {
      RuleSet(chains)
    }
  }

  function EmptyTable(mask: Bits): (t: Table)
    ensures t.mask == mask && t.Held() == {} && t.maxPriority == 0
    ensures forall hash :: t.Valid(hash)
  {
    assert AtPriority({}, 0) == {};
    Table(mask, [], 0, 0, 0)
  }

  /** find_equal: the index of the chain of masked value `flow`, or -1. */
  method FindEqual(t: Table, flow: Bits, hash: Bits -> nat) returns (i: int)
    requires ChainsOk(t.chains, t.mask, hash)
    ensures -1 <= i < |t.chains|
    ensures if i == -1 then forall k | 0 <= k < |t.chains| :: t.chains[k].rules[0].flow != flow
            else t.chains[i].rules[0].flow == flow
  {
    i := 0;
    while i < |t.chains|
      invariant 0 <= i <= |t.chains|
      invariant forall k | 0 <= k < i :: t.chains[k].rules[0].flow != flow
    {
      assert ChainOk(t.chains[i], t.mask, hash);
      if t.chains[i].hash == hash(flow) && t.chains[i].rules[0].flow == flow {
        return;
      }
      i := i + 1;
    }
    i := -1;
  }

  /** find_match: the best rule of the table for a packet. */
  method FindMatch(t: Table, flow: Bits, hash: Bits -> nat) returns (r: Option<Rule>)
    requires t.Valid(hash)
    ensures r.None? ==> forall x | x in t.Held() :: !Matches(x, flow)
    ensures r.Some? ==> r.value in t.Held() && Matches(r.value, flow)
    ensures r.Some? ==> forall x | x in t.Held() && Matches(x, flow) :: x.priority <= r.value.priority
  {
    var i := 0;
    while i < |t.chains|
      invariant 0 <= i <= |t.chains|
      invariant forall k | 0 <= k < i :: !EqualInMask(t.chains[k].rules[0].flow, flow, t.mask)
    {
      assert ChainOk(t.chains[i], t.mask, hash);
      ChainFlow(t.chains[i], t.mask, hash);
      if t.chains[i].hash == hash(flow.And(t.mask)) && EqualInMask(t.chains[i].rules[0].flow, flow, t.mask) {
        MatchIsInChain(t.chains, i, t.mask, hash, flow);
        return Some(t.chains[i].rules[0]);
      }
      i := i + 1;
    }
    forall x | x in t.Held() ensures !Matches(x, flow) {
      MatchesIsEqualInMask(x, flow);
    }
    return None;
  }

  /** The place in a chain of a rule of the given priority. */
  method FindPosition(rules: seq<Rule>, priority: nat) returns (p: nat)
    ensures p <= |rules| && forall j | 0 <= j < p :: rules[j].priority > priority
    ensures p < |rules| ==> rules[p].priority <= priority
  {
    p := 0;
    while p < |rules| && priority < rules[p].priority
      invariant p <= |rules| && forall j | 0 <= j < p :: rules[j].priority > priority
    {
      p := p + 1;
    }
  }

  /** insert_rule: the change to the chains. */
  method InsertInChains(t: Table, rule: Rule, hash: Bits -> nat) returns (chains: seq<Chain>, displaced: Option<Rule>)
    requires ChainsOk(t.chains, t.mask, hash) && rule.mask == t.mask && rule.WellFormed()
    ensures ChainsOk(chains, t.mask, hash)
    ensures displaced.None? ==>
              && (forall r | r in t.Held() :: !SameKey(r, rule))
              && RuleSet(chains) == t.Held() + {rule}
    ensures displaced.Some? ==>
              && displaced.value in t.Held() && SameKey(displaced.value, rule)
              && (rule == displaced.value || rule !in t.Held())
              && RuleSet(chains) == t.Held() - {displaced.value} + {rule}
  {
    chains := t.chains;
    var i := FindEqual(t, rule.flow, hash);
    if i == -1 {
      var c := Chain(hash(rule.flow), [rule]);
      AppendChain(chains, c, t.mask, hash);
      KeyAbsent(chains, rule, t.mask, hash);
      return chains + [c], None;
    }
    var c := chains[i];
    var p := FindPosition(c.rules, rule.priority);
    if p < |c.rules| && c.rules[p].priority == rule.priority {
      ReplaceInChain(chains, i, p, rule, t.mask, hash);
      return chains[i := Chain(c.hash, c.rules[p := rule])], Some(c.rules[p]);
    }
    InsertInChain(chains, i, p, rule, t.mask, hash);
    return chains[i := Chain(c.hash, c.rules[..p] + [rule] + c.rules[p..])], None;
  }

  /** The part of classifier_remove that takes `rule` out of its chain. */
  method RemoveFromChains(t: Table, rule: Rule, hash: Bits -> nat) returns (chains: seq<Chain>)
    requires ChainsOk(t.chains, t.mask, hash) && rule in t.Held()
    ensures ChainsOk(chains, t.mask, hash) && RuleSet(chains) == t.Held() - {rule}
    ensures Flat(chains) == Without(Flat(t.chains), rule)
  {
    chains := t.chains;
    var i := FindEqual(t, rule.flow, hash);
    HasChain(chains, rule, t.mask, hash);
    var c := chains[i];
    var j :| 0 <= j < |c.rules| && c.rules[j] == rule;
    if |c.rules| == 1 {
      DropChain(chains, i, t.mask, hash);
      FlatDropped(chains, i, t.mask, hash);
      return chains[..i] + chains[i + 1..];
    } else {
      RemoveInChain(chains, i, j, t.mask, hash);
      FlatRewritten(chains, i, j, t.mask, hash);
      return chains[i := Chain(c.hash, c.rules[..j] + c.rules[j + 1..])];
    }
  }

  /** The rescan of update_tables_after_removal. */
  method Rescan(chains: seq<Chain>, ghost mask: Bits, ghost hash: Bits -> nat) returns (maxPriority: nat, maxCount: nat)
    requires ChainsOk(chains, mask, hash)
    ensures MaxOk(RuleSet(chains), maxPriority, maxCount)
  {
    maxPriority, maxCount := 0, 0;
    var i := 0;
    assert RuleSet(chains[..0]) == {};
    assert AtPriority({}, 0) == {};
    while i < |chains|
      invariant 0 <= i <= |chains|
      invariant MaxOk(RuleSet(chains[..i]), maxPriority, maxCount)
    {
      MaxAfterChain(chains, i, mask, hash, maxPriority, maxCount);
      assert ChainOk(chains[i], mask, hash);
      var head := chains[i].rules[0];
      if head.priority > maxPriority {
        maxPriority := head.priority;
        maxCount := 1;
      } else if head.priority == maxPriority {
        maxCount := maxCount + 1;
      }
      i := i + 1;
    }
    assert chains[..i] == chains;
  }

  /** insert_rule, with the counting around it, as far as it concerns the table. */
  method Insert(t: Table, rule: Rule, hash: Bits -> nat) returns (out: Table, displaced: Option<Rule>)
    requires t.Valid(hash) && rule.mask == t.mask && rule.WellFormed()
    ensures out.Valid(hash) && out.mask == t.mask && out.nTableRules > 0
    ensures displaced.None? ==>
              && (forall r | r in t.Held() :: !SameKey(r, rule))
              && out.Held() == t.Held() + {rule}
              && out.maxPriority == if rule.priority > t.maxPriority then rule.priority else t.maxPriority
    ensures displaced.Some? ==>
              && displaced.value in t.Held() && SameKey(displaced.value, rule)
              && (rule == displaced.value || rule !in t.Held())
              && out.Held() == t.Held() - {displaced.value} + {rule}
              && out.maxPriority == t.maxPriority
  {
    hide ChainsOk, RuleSet, MaxOk;
    var chains;
    chains, displaced := InsertInChains(t, rule, hash);
    out := t.(chains := chains);
    if displaced.Some? {
      MaxAfterReplacement(t.Held(), displaced.value, rule, t.maxPriority, t.maxCount);
    } else {
      MaxAfterInsertion(t.Held(), rule, t.maxPriority, t.maxCount);
      if rule.priority == t.maxPriority {
        out := out.(maxCount := t.maxCount + 1);
      } else if rule.priority > t.maxPriority {
        out := out.(maxPriority := rule.priority, maxCount := 1);
      }
      out := out.(nTableRules := t.nTableRules + 1);
    }
  }

  /** classifier_remove, as far as it concerns the table. */
  method Remove(t: Table, rule: Rule, hash: Bits -> nat) returns (out: Table)
    requires t.Valid(hash) && rule in t.Held()
    ensures out.Valid(hash) && out.mask == t.mask
    ensures out.Held() == t.Held() - {rule} && out.maxPriority <= t.maxPriority
    ensures out.nTableRules == 0 <==> out.Held() == {}
    ensures Flat(out.chains) == Without(Flat(t.chains), rule)
  {
    hide ChainsOk, RuleSet, Flat;
    MaxAfterRemoval(t.Held(), rule, t.maxPriority, t.maxCount);
    var chains := RemoveFromChains(t, rule, hash);
    out := t.(chains := chains, nTableRules := t.nTableRules - 1);
    if rule.priority == t.maxPriority {
      out := out.(maxCount := t.maxCount - 1);
      if out.maxCount == 0 {
        var p, n := Rescan(chains, t.mask, hash);
        MaxIsAttained(out.Held(), p, n);
        out := out.(maxPriority := p, maxCount := n);
      }
    }
  }

  /** The search of classifier_find_rule_exactly within a table. */
  method FindExactly(t: Table, target: Rule, hash: Bits -> nat) returns (r: Option<Rule>)
    requires t.Valid(hash) && target.mask == t.mask && target.WellFormed()
    ensures r.None? ==> forall x | x in t.Held() :: !SameKey(x, target)
    ensures r.Some? ==> r.value in t.Held() && SameKey(r.value, target)
  {
    if target.priority > t.maxPriority {
      return None;
    }
    var i := FindEqual(t, target.flow, hash);
    if i == -1 {
      KeyAbsent(t.chains, target, t.mask, hash);
      return None;
    }
    var rules := t.chains[i].rules;
    var p := FindPosition(rules, target.priority);
    ChainHasKey(t.chains, i, p, target, t.mask, hash);
    if p < |rules| && rules[p].priority == target.priority {
      assert ChainOk(t.chains[i], t.mask, hash);
      return Some(rules[p]);
    }
    return None;
  }

  lemma ChainHasKey(chains: seq<Chain>, i: nat, p: nat, target: Rule, mask: Bits, hash: Bits -> nat)
    requires ChainsOk(chains, mask, hash) && i < |chains| && chains[i].rules[0].flow == target.flow
    requires p <= |chains[i].rules| && forall j | 0 <= j < p :: chains[i].rules[j].priority > target.priority
    requires p < |chains[i].rules| ==> chains[i].rules[p].priority <= target.priority
    ensures forall x | x in RuleSet(chains) && SameKey(x, target) :: p < |chains[i].rules| && x == chains[i].rules[p]
    ensures p < |chains[i].rules| ==> chains[i].rules[p] in RuleSet(chains)
  {
    assert ChainOk(chains[i], mask, hash);
    assert p < |chains[i].rules| ==> chains[i].rules[p] in chains[i].rules;
    forall x | x in RuleSet(chains) && SameKey(x, target) ensures p < |chains[i].rules| && x == chains[i].rules[p] {
      HasChain(chains, x, mask, hash);
      var j :| 0 <= j < |chains[i].rules| && chains[i].rules[j] == x;
    }
  }

  /** The scan of classifier_rule_overlaps within a table. */
  method OverlapsIn(t: Table, target: Rule, ghost hash: Bits -> nat) returns (found: bool)
    requires t.Valid(hash) && target.WellFormed()
    ensures found <==> exists r :: r in t.Held() && Overlap(r, target)
  {
    var mask := target.mask.And(t.mask);
    var i := 0;
    while i < |t.chains|
      invariant 0 <= i <= |t.chains|
      invariant forall k, r | 0 <= k < i && r in t.chains[k].rules :: !Overlap(r, target)
    {
      var rules := t.chains[i].rules;
      assert ChainOk(t.chains[i], t.mask, hash);
      var j := 0;
      while j < |rules| && rules[j].priority >= target.priority
        invariant 0 <= j <= |rules|
        invariant forall k | 0 <= k < j :: !Overlap(rules[k], target)
      {
        if rules[j].priority == target.priority {
          OverlapIsEqualInCombinedMask(target, rules[j]);
          OverlapSymmetric(target, rules[j]);
          if EqualInMask(target.flow, rules[j].flow, mask) {
            assert rules[j] in t.chains[i].rules;
            return true;
          }
        }
        j := j + 1;
      }
      i := i + 1;
    }
    return false;
  }

  lemma OverlapSymmetric(a: Rule, b: Rule)
    ensures Overlap(a, b) <==> Overlap(b, a)
  {}
}
