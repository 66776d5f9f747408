/** The flow classifier (ovs/lib/classifier.c): a tuple-space index over rules.
 *
 * `tables` is the hash map of tables by mask and `order` its iteration order;
 * `tablesPriority` lists the tables in order of falling `maxPriority`.  Both
 * lists name a table by its mask.
 */
module Classifier {
  import opened Options
  import opened Seqs
  import opened FlowMatch
  import opened Chains
  import opened ClsTable
  import opened PriorityList

  type Tables = map<Bits, Table>

  ghost function Priorities(tables: Tables): (p: map<Bits, nat>)
    ensures p.Keys == tables.Keys
  {
    map m | m in tables :: tables[m].maxPriority
  }

  ghost function OfMask(s: set<Rule>, mask: Bits): set<Rule> {
    set r | r in s && r.mask == mask
  }

  /** Every table holds exactly the rules of `held` with its mask. */
  ghost predicate Partitioned(held: set<Rule>, tables: Tables, hash: Bits -> nat) {
    && (forall m | m in tables :: tables[m].mask == m && tables[m].Valid(hash) && tables[m].Held() == OfMask(held, m))
    && (forall r | r in held :: r.mask in tables)
  }

  /** All rules in the order in which a cursor visits them. */
  ghost function InOrder(tables: Tables, order: seq<Bits>): seq<Rule>
    requires forall m | m in order :: m in tables
  {
    if order == [] then [] else Flat(tables[order[0]].chains) + InOrder(tables, order[1..])
  }

  class Classifier {
    const hash: Bits -> nat
    var nRules: nat
    var tables: Tables
    var order: seq<Bits>
    var tablesPriority: seq<Bits>
    ghost var held: set<Rule>   // the rules held, the abstract value of a classifier

    /** The invariant, but for tables that hold no rule yet. */
    ghost predicate Indexed()
      reads this
    {
      && Lists(order, tables.Keys)
      && Lists(tablesPriority, tables.Keys)
      && Falling(tablesPriority, Priorities(tables))
      && Partitioned(held, tables, hash)
      && nRules == |held|
    }

    ghost predicate Valid()
      reads this
    {
      Indexed() && forall m | m in tables :: tables[m].nTableRules > 0
    }

    constructor (hash: Bits -> nat)
      ensures Valid() && held == {} && this.hash == hash
    {
      this.hash := hash;
      nRules, tables, order, tablesPriority, held := 0, map[], [], [], {};
    }

    method InsertTable(mask: Bits)
      requires Indexed() && mask !in tables
      modifies this`tables, this`order, this`tablesPriority
      ensures Indexed() && tables == old(tables)[mask := EmptyTable(mask)]
    {
      hide Table.Valid, Table.Held, Lists, Falling, Partitioned;
      PartitionedWithEmpty(held, tables, hash, mask);
      ghost var p := Priorities(tables);
      tables := tables[mask := EmptyTable(mask)];
      Appended(order, p, mask);
      Appended(tablesPriority, p, mask);
      assert Priorities(tables) == p[mask := 0] && tables.Keys == p.Keys + {mask};
      order := order + [mask];
      tablesPriority := tablesPriority + [mask];
    }

    /** Moves table `m`, whose `maxPriority` has grown, to its place in the priority list. */
    method MoveEarlier(m: Bits)
      requires Lists(tablesPriority, tables.Keys) && m in tables
      requires FallingButEarlier(tablesPriority, Priorities(tables), m)
      modifies this`tablesPriority
      ensures Lists(tablesPriority, tables.Keys) && Falling(tablesPriority, Priorities(tables))
    {
      var k :| 0 <= k < |tablesPriority| && tablesPriority[k] == m;
      var i := k;
      while i > 0 && tables[tablesPriority[i - 1]].maxPriority < tables[m].maxPriority
        invariant 0 <= i <= k
        invariant i < k ==> tables[tablesPriority[i]].maxPriority < tables[m].maxPriority
      {
        i := i - 1;
      }
      MovedEarlier(tablesPriority, Priorities(tables), i, k);
      tablesPriority := tablesPriority[..i] + [m] + tablesPriority[i..k] + tablesPriority[k + 1..];
    }

    /** Moves table `m`, whose `maxPriority` has shrunk, to its place in the priority list. */
    method MoveLater(m: Bits)
      requires Lists(tablesPriority, tables.Keys) && m in tables
      requires FallingButLater(tablesPriority, Priorities(tables), m)
      modifies this`tablesPriority
      ensures Lists(tablesPriority, tables.Keys) && Falling(tablesPriority, Priorities(tables))
    {
      var k :| 0 <= k < |tablesPriority| && tablesPriority[k] == m;
      var i := k + 1;
      while i < |tablesPriority| && tables[tablesPriority[i]].maxPriority > tables[m].maxPriority
        invariant k < i <= |tablesPriority|
        invariant i > k + 1 ==> tables[tablesPriority[i - 1]].maxPriority > tables[m].maxPriority
      {
        i := i + 1;
      }
      MovedLater(tablesPriority, Priorities(tables), k, i);
      tablesPriority := tablesPriority[..k] + tablesPriority[k + 1..i] + [m] + tablesPriority[i..];
    }

    /** classifier_replace: afterwards `rule` is the one rule of its match and priority. */
    method Replace(rule: Rule) returns (displaced: Option<Rule>)
      requires Valid() && rule.WellFormed()
      modifies this
      ensures Valid()
      ensures displaced.None? ==>
                (forall r | r in old(held) :: !SameKey(r, rule)) && held == old(held) + {rule}
      ensures displaced.Some? ==>
                && displaced.value in old(held) && SameKey(displaced.value, rule)
                && held == old(held) - {displaced.value} + {rule}
    {
      hide Table.Valid, Table.Held, Lists, Falling, Partitioned, SameKey, Priorities;
      if rule.mask !in tables {
        InsertTable(rule.mask);
      }
      displaced := InsertRule(rule);
    }

    /** insert_rule, with the counting that classifier_replace does after it. */
    method InsertRule(rule: Rule) returns (displaced: Option<Rule>)
      requires Indexed() && rule.mask in tables && rule.WellFormed()
      modifies this
      ensures Indexed() && tables.Keys == old(tables.Keys)
      ensures tables[rule.mask].nTableRules > 0
      ensures forall m | m in tables && m != rule.mask :: tables[m] == old(tables)[m]
      ensures displaced.None? ==>
                (forall r | r in old(held) :: !SameKey(r, rule)) && held == old(held) + {rule}
      ensures displaced.Some? ==>
                && displaced.value in old(held) && SameKey(displaced.value, rule)
                && held == old(held) - {displaced.value} + {rule}
    {
      hide Table.Valid, Table.Held, Lists, Falling, FallingButEarlier, Partitioned, OfMask, SameKey, Priorities;
      var m := rule.mask;
      TableOfMask(held, tables, hash, m);
      var t;
      t, displaced := Insert(tables[m], rule, hash);
      Retabled(tablesPriority, tables, m, t);
      if displaced.Some? {
        TakePlace(t, displaced.value, rule);
      } else {
        TakeIn(t, rule);
      }
    }

    /** The table of `rule` becomes `t`, where `rule` is in the place of `was`. */
    method TakePlace(t: Table, was: Rule, rule: Rule)
      requires Indexed() && t.mask in tables && t.Valid(hash) && rule.mask == t.mask
      requires was in OfMask(held, t.mask) && (rule == was || rule !in OfMask(held, t.mask))
      requires t.Held() == tables[t.mask].Held() - {was} + {rule}
      requires Falling(tablesPriority, Priorities(tables[t.mask := t]))
      modifies this`held, this`tables
      ensures Indexed() && was in old(held)
      ensures tables == old(tables)[t.mask := t] && held == old(held) - {was} + {rule}
    {
      hide Table.Valid, Table.Held, Lists, Falling, Partitioned, OfMask, Priorities;
      ReplaceInHeld(held, t.mask, was, rule);
      Repartition(held, tables, hash, t, {was}, {rule});
      held := held - {was} + {rule};
      assert tables[t.mask := t].Keys == tables.Keys;
      tables := tables[t.mask := t];
    }

    /** The table of `rule` becomes `t`, which holds `rule` besides, and goes to its place in the priority list. */
    method TakeIn(t: Table, rule: Rule)
      requires Indexed() && t.mask in tables && t.Valid(hash) && rule.mask == t.mask
      requires forall r | r in OfMask(held, rule.mask) :: !SameKey(r, rule)
      requires t.Held() == tables[t.mask].Held() + {rule}
      requires FallingButEarlier(tablesPriority, Priorities(tables[t.mask := t]), t.mask)
      modifies this`held, this`tables, this`nRules, this`tablesPriority
      ensures Indexed() && (forall r | r in old(held) :: !SameKey(r, rule))
      ensures tables == old(tables)[t.mask := t] && held == old(held) + {rule}
    {
      hide Table.Valid, Table.Held, Lists, Falling, FallingButEarlier, Partitioned, OfMask, SameKey, Priorities;
      KeyInMask(held, rule);
      RepartitionInsert(held, tables, hash, t, rule);
      held := held + {rule};
      assert tables[t.mask := t].Keys == tables.Keys;
      tables := tables[t.mask := t];
      nRules := nRules + 1;
      MoveEarlier(t.mask);
    }

    /** classifier_remove. */
    method Remove(rule: Rule)
      requires Valid() && rule in held
      modifies this
      ensures Valid() && held == old(held) - {rule}
      ensures InOrder(tables, order) == Without(old(InOrder(tables, order)), rule)
    {
      hide Table.Valid, Table.Held, Lists, Falling, FallingButLater, Partitioned, OfMask, Priorities, InOrder;
      var m := rule.mask;
      ListedTables(order, tables);
      TableOfRule(held, tables, hash, rule);
      var t := ClsTable.Remove(tables[m], rule, hash);
      Repartition(held, tables, hash, t, {rule}, {});
      Retabled(tablesPriority, tables, m, t);
      RemovedInOrder(held, tables, hash, order, t, rule);
      assert held - {rule} + {} == held - {rule};
      held := held - {rule};
      nRules := nRules - 1;
      tables := tables[m := t];
      if t.nTableRules == 0 {
        DestroyTable(m);
      } else {
        MoveLater(m);
      }
    }

    /** classifier_lookup: the early exit on `maxPriority` loses nothing. */
    method Lookup(flow: Bits) returns (best: Option<Rule>)
      requires Valid()
      ensures best.None? ==> forall r | r in held :: !Matches(r, flow)
      ensures best.Some? ==> best.value in held && Matches(best.value, flow)
      ensures best.Some? ==> forall r | r in held && Matches(r, flow) :: r.priority <= best.value.priority
    {
      hide Table.Valid, Table.Held, Partitioned, Falling, Matches;
      var i := 0;
      while i < |tablesPriority|
        invariant 0 <= i <= |tablesPriority|
        invariant Best(None, held, tablesPriority[..i], flow)
      {
        TableOfMask(held, tables, hash, tablesPriority[i]);
        var rule := FindMatch(tables[tablesPriority[i]], flow, hash);
        BestExtends(None, rule, held, tablesPriority, i, flow);
        i := i + 1;
        if rule.Some? {
          best := rule;
          while i < |tablesPriority|
            invariant 0 <= i <= |tablesPriority|
            invariant best.Some? && Best(best, held, tablesPriority[..i], flow)
          {
            if tables[tablesPriority[i]].maxPriority <= best.value.priority {
              NothingBetter(held, tables, hash, tablesPriority, i, flow, best.value);
              return;
            }
            TableOfMask(held, tables, hash, tablesPriority[i]);
            rule := FindMatch(tables[tablesPriority[i]], flow, hash);
            BestExtends(best, rule, held, tablesPriority, i, flow);
            if rule.Some? && rule.value.priority > best.value.priority {
              best := rule;
            }
            i := i + 1;
          }
          AllMasks(held, tables, hash, tablesPriority, flow);
          return;
        }
      }
      AllMasks(held, tables, hash, tablesPriority, flow);
      return None;
    }

    /** classifier_find_rule_exactly. */
    method FindRuleExactly(target: Rule) returns (r: Option<Rule>)
      requires Valid() && target.WellFormed()
      ensures r.None? ==> forall x | x in held :: !SameKey(x, target)
      ensures r.Some? ==> r.value in held && SameKey(r.value, target)
    {
      hide Table.Valid, Table.Held;
      if target.mask !in tables {
        return None;
      }
      TableOfMask(held, tables, hash, target.mask);
      r := FindExactly(tables[target.mask], target, hash);
      if r.None? {
        KeyInMask(held, target);
      }
    }

    /** classifier_rule_overlaps: is there a rule of the same priority that shares a packet with `target`? */
    method RuleOverlaps(target: Rule) returns (found: bool)
      requires Valid() && target.WellFormed()
      ensures found <==> exists r :: r in held && Overlap(r, target)
    {
      hide Table.Valid, Table.Held, Partitioned, Falling, Overlap;
      var i := 0;
      while i < |tablesPriority| && target.priority <= tables[tablesPriority[i]].maxPriority
        invariant 0 <= i <= |tablesPriority|
        invariant forall r | r in held && r.mask in tablesPriority[..i] :: !Overlap(r, target)
      {
        var m := tablesPriority[i];
        TableOfMask(held, tables, hash, m);
        found := OverlapsIn(tables[m], target, hash);
        if found {
          return true;
        }
        forall r | r in held && r.mask in tablesPriority[..i + 1] ensures !Overlap(r, target) {
          assert r.mask == m ==> r in OfMask(held, m);
        }
        i := i + 1;
      }
      NoneOverlapsLater(held, tables, hash, tablesPriority, i, target);
      return false;
    }

    method DestroyTable(m: Bits)
      requires Lists(order, tables.Keys) && Lists(tablesPriority, tables.Keys) && m in tables
      requires FallingButLater(tablesPriority, Priorities(tables), m)
      requires Partitioned(held, tables, hash) && tables[m].Held() == {}
      modifies this`tables, this`order, this`tablesPriority
      ensures Lists(order, tables.Keys) && Lists(tablesPriority, tables.Keys)
      ensures Falling(tablesPriority, Priorities(tables))
      ensures tables == old(tables) - {m} && Partitioned(held, tables, hash)
      ensures InOrder(tables, order) == old(InOrder(tables, order))
    {
      hide Table.Valid, Table.Held, Partitioned, Falling, FallingButLater, InOrder;
      var i :| 0 <= i < |order| && order[i] == m;
      var k :| 0 <= k < |tablesPriority| && tablesPriority[k] == m;
      hide Lists;
      ghost var p := Priorities(tables);
      Dropped(order, p, i);
      Dropped(tablesPriority, p, k);
      Unpartitioned(held, tables, hash, m);
      DroppedInOrder(held, tables, hash, order, i);
      order := order[..i] + order[i + 1..];
      tablesPriority := tablesPriority[..k] + tablesPriority[k + 1..];
      tables := tables - {m};
      assert Priorities(tables) == p - {m} && tables.Keys == p.Keys - {m};
    }
  }

  lemma TableOfMask(held: set<Rule>, tables: Tables, hash: Bits -> nat, m: Bits)
    requires Partitioned(held, tables, hash) && m in tables
    ensures tables[m].mask == m && tables[m].Valid(hash) && tables[m].Held() == OfMask(held, m)
  {}

  lemma TableOfRule(held: set<Rule>, tables: Tables, hash: Bits -> nat, rule: Rule)
    requires Partitioned(held, tables, hash) && rule in held
    ensures rule.mask in tables
    ensures var t := tables[rule.mask]; t.mask == rule.mask && t.Valid(hash) && rule in t.Held()
  {
    hide Table.Valid, Table.Held;
    assert rule in OfMask(held, rule.mask);
  }

  /** A rule of the key of `rule` would be among the rules of its mask. */
  lemma KeyInMask(held: set<Rule>, rule: Rule)
    requires forall r | r in OfMask(held, rule.mask) :: !SameKey(r, rule)
    ensures forall r | r in held :: !SameKey(r, rule)
    ensures rule !in held
  {
    forall r | r in held ensures !SameKey(r, rule) {
      assert r.mask == rule.mask ==> r in OfMask(held, rule.mask);
    }
  }

  /** The priority list when the table of mask `m` becomes `t`. */
  lemma Retabled(s: seq<Bits>, tables: Tables, m: Bits, t: Table)
    requires Falling(s, Priorities(tables)) && m in tables
    ensures tables[m := t].Keys == tables.Keys
    ensures t.maxPriority == tables[m].maxPriority ==> Falling(s, Priorities(tables[m := t]))
    ensures t.maxPriority >= tables[m].maxPriority ==> FallingButEarlier(s, Priorities(tables[m := t]), m)
    ensures t.maxPriority <= tables[m].maxPriority ==> FallingButLater(s, Priorities(tables[m := t]), m)
  {
    hide Falling, FallingButEarlier, FallingButLater;
    Repriced(s, Priorities(tables), m, t.maxPriority);
    assert Priorities(tables[m := t]) == Priorities(tables)[m := t.maxPriority];
  }

  lemma Repartition(held: set<Rule>, tables: Tables, hash: Bits -> nat, t: Table, gone: set<Rule>, added: set<Rule>)
    requires Partitioned(held, tables, hash) && t.mask in tables && t.Valid(hash)
    requires forall r | r in gone + added :: r.mask == t.mask
    requires t.Held() == tables[t.mask].Held() - gone + added
    ensures Partitioned(held - gone + added, tables[t.mask := t], hash)
  {
    hide Table.Valid, Table.Held;
    var now := held - gone + added;
    forall m | m in tables && m != t.mask ensures OfMask(now, m) == OfMask(held, m) {}
    assert OfMask(now, t.mask) == OfMask(held, t.mask) - gone + added;
  }

  lemma RepartitionInsert(held: set<Rule>, tables: Tables, hash: Bits -> nat, t: Table, rule: Rule)
    requires Partitioned(held, tables, hash) && t.mask in tables && t.Valid(hash) && rule.mask == t.mask
    requires t.Held() == tables[t.mask].Held() + {rule}
    ensures Partitioned(held + {rule}, tables[t.mask := t], hash)
  {
    hide Table.Valid, Table.Held, Partitioned;
    Repartition(held, tables, hash, t, {}, {rule});
    assert held - {} + {rule} == held + {rule};
  }

  lemma ReplaceInHeld(held: set<Rule>, m: Bits, was: Rule, rule: Rule)
    requires was in OfMask(held, m) && rule.mask == m && (rule == was || rule !in OfMask(held, m))
    ensures was in held && was.mask == m && |held - {was} + {rule}| == |held|
  {
    assert rule in held - {was} ==> rule in OfMask(held, m);
  }

  lemma PartitionedWithEmpty(held: set<Rule>, tables: Tables, hash: Bits -> nat, m: Bits)
    requires Partitioned(held, tables, hash) && m !in tables
    ensures Partitioned(held, tables[m := EmptyTable(m)], hash)
  {
    hide Table.Valid, Table.Held;
    assert OfMask(held, m) == {};
  }

  lemma Unpartitioned(held: set<Rule>, tables: Tables, hash: Bits -> nat, m: Bits)
    requires Partitioned(held, tables, hash) && m in tables && tables[m].Held() == {}
    ensures Partitioned(held, tables - {m}, hash)
  {
    hide Table.Valid, Table.Held;
    forall r | r in held ensures r.mask != m {
      assert r in OfMask(held, r.mask);
    }
  }

  // ---------------------------------------------------------------------
  // Lookup

  /** `best` is a best match for a packet among the rules whose mask is in `masks`. */
  ghost predicate Best(best: Option<Rule>, held: set<Rule>, masks: seq<Bits>, flow: Bits) {
    && (best.Some? ==> best.value in held && Matches(best.value, flow))
    && (forall r | r in held && r.mask in masks && Matches(r, flow) ::
          best.Some? && r.priority <= best.value.priority)
  }

  lemma BestExtends(best: Option<Rule>, rule: Option<Rule>, held: set<Rule>, masks: seq<Bits>, i: nat, flow: Bits)
    requires i < |masks| && Best(best, held, masks[..i], flow)
    requires rule.None? ==> forall x | x in OfMask(held, masks[i]) :: !Matches(x, flow)
    requires rule.Some? ==> rule.value in OfMask(held, masks[i]) && Matches(rule.value, flow)
    requires rule.Some? ==>
               forall x | x in OfMask(held, masks[i]) && Matches(x, flow) :: x.priority <= rule.value.priority
    ensures var better := best.None? || (rule.Some? && rule.value.priority > best.value.priority);
            Best(if better then rule else best, held, masks[..i + 1], flow)
  {
    hide Matches;
    forall r | r in held && r.mask in masks[..i + 1] && Matches(r, flow)
      ensures r.mask in masks[..i] || r in OfMask(held, masks[i])
    {}
  }

  /** From a table that cannot beat `best` on, no rule can. */
  lemma NothingBetter(held: set<Rule>, tables: Tables, hash: Bits -> nat, masks: seq<Bits>, i: nat, flow: Bits,
                      best: Rule)
    requires Partitioned(held, tables, hash) && Lists(masks, tables.Keys) && Falling(masks, Priorities(tables))
    requires i < |masks| && tables[masks[i]].maxPriority <= best.priority
    requires Best(Some(best), held, masks[..i], flow)
    ensures forall r | r in held && Matches(r, flow) :: r.priority <= best.priority
  {
    hide Matches, Table.Held;
    forall r | r in held && Matches(r, flow) ensures r.priority <= best.priority {
      TableOfRule(held, tables, hash, r);
      var j :| 0 <= j < |masks| && masks[j] == r.mask;
      if j < i {
        assert masks[..i][j] == r.mask;
      } else {
        assert r.priority <= tables[masks[j]].maxPriority;
        assert i < j ==> Ordered(Priorities(tables), masks[i], masks[j]);
      }
    }
  }

  lemma AllMasks(held: set<Rule>, tables: Tables, hash: Bits -> nat, masks: seq<Bits>, flow: Bits)
    requires Partitioned(held, tables, hash) && Lists(masks, tables.Keys)
    ensures forall r | r in held :: r.mask in masks[..|masks|]
  {
    hide Table.Held, Table.Valid;
    assert masks[..|masks|] == masks;
  }

  lemma NoneOverlapsLater(held: set<Rule>, tables: Tables, hash: Bits -> nat, masks: seq<Bits>, i: nat, target: Rule)
    requires Partitioned(held, tables, hash) && Lists(masks, tables.Keys) && Falling(masks, Priorities(tables))
    requires i <= |masks| && (i < |masks| ==> tables[masks[i]].maxPriority < target.priority)
    ensures forall r | r in held && r.mask !in masks[..i] :: !Overlap(r, target)
  {
    ListedTables(masks, tables);
    forall r | r in held && r.mask !in masks[..i] ensures !Overlap(r, target) {
      hide *;
      RankBelow(held, tables, hash, masks, i, r);
      OverlapPriority(r, target);
    }
  }

  lemma OverlapPriority(a: Rule, b: Rule)
    requires a.priority != b.priority
    ensures !Overlap(a, b)
  {}

  /** A rule of a table from `i` on has at most the largest priority of the table at `i`. */
  lemma RankBelow(held: set<Rule>, tables: Tables, hash: Bits -> nat, masks: seq<Bits>, i: nat, r: Rule)
    requires Partitioned(held, tables, hash) && Lists(masks, tables.Keys) && Falling(masks, Priorities(tables))
    requires i <= |masks| && r in held && r.mask !in masks[..i]
    ensures i < |masks| && masks[i] in tables && r.priority <= tables[masks[i]].maxPriority
  {
    TableOfRule(held, tables, hash, r);
    assert tables[r.mask].Valid(hash);
    hide *;
    RankInTable(tables[r.mask], r, hash);
    LaterRank(tables, masks, i, r.mask);
  }

  lemma LaterRank(tables: Tables, masks: seq<Bits>, i: nat, m: Bits)
    requires Lists(masks, tables.Keys) && Falling(masks, Priorities(tables))
    requires i <= |masks| && m in tables && m !in masks[..i]
    ensures i < |masks| && masks[i] in tables && tables[m].maxPriority <= tables[masks[i]].maxPriority
  {
    assert forall k | 0 <= k < i :: masks[k] in masks[..i];
    var j :| 0 <= j < |masks| && masks[j] == m;
    assert i < j ==> Ordered(Priorities(tables), masks[i], masks[j]);
  }

  lemma RankInTable(t: Table, r: Rule, hash: Bits -> nat)
    requires t.Valid(hash) && r in t.Held()
    ensures r.priority <= t.maxPriority
  {}

  // ---------------------------------------------------------------------
  // The order of iteration

  lemma ListedTables(order: seq<Bits>, tables: Tables)
    requires Lists(order, tables.Keys)
    ensures forall m | m in order :: m in tables
  {}

  lemma {:induction false} InOrderConcat(tables: Tables, a: seq<Bits>, b: seq<Bits>)
    requires forall m | m in a + b :: m in tables
    ensures (forall m | m in a :: m in tables) && (forall m | m in b :: m in tables)
    ensures InOrder(tables, a + b) == InOrder(tables, a) + InOrder(tables, b)
  {
    assert forall m | m in a :: m in a + b;
    assert forall m | m in b :: m in a + b;
    if a == [] {
      assert a + b == b;
    } else {
      assert (a + b)[1..] == a[1..] + b;
      InOrderConcat(tables, a[1..], b);
    }
  }

  lemma InOrderMiddle(tables: Tables, a: seq<Bits>, m: Bits, b: seq<Bits>)
    requires m in tables && (forall x | x in a :: x in tables) && (forall x | x in b :: x in tables)
    ensures InOrder(tables, a + [m] + b) == InOrder(tables, a) + Flat(tables[m].chains) + InOrder(tables, b)
  {
    InOrderConcat(tables, a + [m], b);
    InOrderConcat(tables, a, [m]);
    assert [m][1..] == [] && InOrder(tables, [m]) == Flat(tables[m].chains) + [];
  }

  /** Only the tables listed matter. */
  lemma {:induction false} InOrderSame(tables: Tables, others: Tables, order: seq<Bits>)
    requires forall m | m in order :: m in tables && m in others && tables[m] == others[m]
    ensures InOrder(tables, order) == InOrder(others, order)
  {
    if order != [] {
      InOrderSame(tables, others, order[1..]);
    }
  }

  lemma {:induction false} InOrderMembers(held: set<Rule>, tables: Tables, hash: Bits -> nat, order: seq<Bits>)
    requires Partitioned(held, tables, hash) && Distinct(order) && forall m | m in order :: m in tables
    ensures forall r :: r in InOrder(tables, order) <==> r in held && r.mask in order
    ensures Distinct(InOrder(tables, order))
  {
    if order != [] {
      var m, rest := order[0], order[1..];
      assert InOrder(tables, order) == Flat(tables[m].chains) + InOrder(tables, rest);
      hide *;
      DistinctHead(order);
      InOrderMembers(held, tables, hash, rest);
      TableInOrder(held, tables, hash, m);
      TogetherInOrder(held, Flat(tables[m].chains), InOrder(tables, rest), order);
    }
  }

  lemma DistinctHead(order: seq<Bits>)
    requires order != [] && Distinct(order)
    ensures Distinct(order[1..]) && order[0] !in order[1..]
    ensures forall m | m in order[1..] :: m in order
  {}

  lemma TogetherInOrder(held: set<Rule>, a: seq<Rule>, b: seq<Rule>, order: seq<Bits>)
    requires order != [] && order[0] !in order[1..] && Distinct(a) && Distinct(b)
    requires forall r :: r in a <==> r in held && r.mask == order[0]
    requires forall r :: r in b <==> r in held && r.mask in order[1..]
    ensures (forall r :: r in a + b <==> r in held && r.mask in order) && Distinct(a + b)
  {
    hide Distinct;
    assert forall m :: m in order <==> m == order[0] || m in order[1..];
    DistinctConcat(a, b);
  }

  lemma TableInOrder(held: set<Rule>, tables: Tables, hash: Bits -> nat, m: Bits)
    requires Partitioned(held, tables, hash) && m in tables
    ensures forall r :: r in Flat(tables[m].chains) <==> r in held && r.mask == m
    ensures Distinct(Flat(tables[m].chains))
  {
    TableOfMask(held, tables, hash, m);
    ValidChains(tables[m], hash);
    hide Partitioned, Flat, Table.Valid, Table.Held, RuleSet, Distinct;
    FlatRuleSet(tables[m].chains);
    FlatDistinct(tables[m].chains, m, hash);
  }

  lemma ValidChains(t: Table, hash: Bits -> nat)
    requires t.Valid(hash)
    ensures ChainsOk(t.chains, t.mask, hash) && t.Held() == RuleSet(t.chains)
  {}

  lemma ListedDistinct(order: seq<Bits>, keys: set<Bits>)
    requires Lists(order, keys)
    ensures Distinct(order)
  {}

  /** The tables before and after the one at `i`. */
  lemma SplitOrder(order: seq<Bits>, tables: Tables, i: nat)
    requires Lists(order, tables.Keys) && i < |order|
    ensures var m, a, b := order[i], order[..i], order[i + 1..];
            && order == a + [m] + b && Distinct(a) && Distinct(b) && m !in a && m !in b && m in tables
            && (forall x | x in a :: x in tables) && (forall x | x in b :: x in tables)
            && (forall x | x in a + b :: x in tables && x != m)
  {
    assert order[i] in order;
    assert forall x | x in order[..i] :: x in order;
    assert forall x | x in order[i + 1..] :: x in order;
  }

  /** The table of `rule` becomes `t`, which lacks it; the others keep their order. */
  lemma RemovedInOrder(held: set<Rule>, tables: Tables, hash: Bits -> nat, order: seq<Bits>, t: Table, rule: Rule)
    requires Partitioned(held, tables, hash) && Lists(order, tables.Keys) && rule in held && rule.mask in tables
    requires Flat(t.chains) == Without(Flat(tables[rule.mask].chains), rule)
    ensures (forall m | m in order :: m in tables)
    ensures InOrder(tables[rule.mask := t], order) == Without(InOrder(tables, order), rule)
  {
    var i :| 0 <= i < |order| && order[i] == rule.mask;
    var a, b := order[..i], order[i + 1..];
    ListedTables(order, tables);
    hide *;
    SplitOrder(order, tables, i);
    InOrderMembers(held, tables, hash, a);
    InOrderMembers(held, tables, hash, b);
    ReplacedMiddle(tables, a, rule.mask, b, t);
    WithoutConcat(InOrder(tables, a) + Flat(tables[rule.mask].chains), InOrder(tables, b), rule);
    WithoutConcat(InOrder(tables, a), Flat(tables[rule.mask].chains), rule);
    WithoutAbsent(InOrder(tables, a), rule);
    WithoutAbsent(InOrder(tables, b), rule);
  }

  lemma ReplacedMiddle(tables: Tables, a: seq<Bits>, m: Bits, b: seq<Bits>, t: Table)
    requires m in tables && m !in a && m !in b
    requires (forall x | x in a :: x in tables) && (forall x | x in b :: x in tables)
    ensures InOrder(tables, a + [m] + b) == InOrder(tables, a) + Flat(tables[m].chains) + InOrder(tables, b)
    ensures InOrder(tables[m := t], a + [m] + b) == InOrder(tables, a) + Flat(t.chains) + InOrder(tables, b)
  {
    hide *;
    InOrderMiddle(tables, a, m, b);
    InOrderMiddle(tables[m := t], a, m, b);
    InOrderSame(tables, tables[m := t], a);
    InOrderSame(tables, tables[m := t], b);
  }

  /** A table without rules is not missed. */
  lemma DroppedInOrder(held: set<Rule>, tables: Tables, hash: Bits -> nat, order: seq<Bits>, i: nat)
    requires Partitioned(held, tables, hash) && Lists(order, tables.Keys) && i < |order|
    requires order[i] in tables && tables[order[i]].Held() == {}
    ensures forall m | m in order[..i] + order[i + 1..] :: m in tables && m != order[i]
    ensures (forall m | m in order :: m in tables)
    ensures InOrder(tables - {order[i]}, order[..i] + order[i + 1..]) == InOrder(tables, order)
  {
    var m, a, b := order[i], order[..i], order[i + 1..];
    ListedTables(order, tables);
    NoRules(tables[m]);
    hide *;
    SplitOrder(order, tables, i);
    InOrderMiddle(tables, a, m, b);
    InOrderConcat(tables - {m}, a, b);
    InOrderSame(tables, tables - {m}, a);
    InOrderSame(tables, tables - {m}, b);
    assert InOrder(tables, a) + [] == InOrder(tables, a);
  }

  lemma NoRules(t: Table)
    requires t.Held() == {}
    ensures Flat(t.chains) == []
  {
    assert Flat(t.chains) != [] ==> Flat(t.chains)[0] in Flat(t.chains);
    hide Flat;
    FlatRuleSet(t.chains);
  }
}
