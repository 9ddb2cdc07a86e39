/** The query evaluator: it works through lists of bindings in the planned order, joins a bound
    entity variable in batches, and counts work units against a budget.  Every method is tied
    to the meaning of its clauses, and a pattern costs the same on either path. */
module Evaluator {
  import opened Facts
  import opened Query
  import opened Scoping
  import opened Costs
  import opened Rules

  const BATCH := 400

  /** The planned order, by the loops of the planner. */
  method OrderQueryClauses(cs: seq<Clause>, initial: set<string>) returns (result: seq<Clause>)
    ensures result == Order(cs, initial)
  {
    hide Order;
    var bound, offset := initial, 0;
    result := [];
    assert cs[0..] == cs;
    while offset < |cs|
      invariant 0 <= offset <= |cs| && result + Order(cs[offset..], bound) == Order(cs, initial)
    {
      ghost var rest := cs[offset..];
      if !IsPattern(cs[offset]) {
        OrderBarrier(cs, offset, bound);
        assert (result + [cs[offset]]) + Order(cs[offset + 1..], bound + BarrierVars(cs[offset]))
            == result + ([cs[offset]] + Order(cs[offset + 1..], bound + BarrierVars(cs[offset])));
        result := result + [cs[offset]];
        bound := bound + BarrierVars(cs[offset]);
        offset := offset + 1;
      } else {
        var end, block := offset, [];
        while end < |cs| && IsPattern(cs[end])
          invariant offset <= end <= |cs| && block == cs[offset..end]
          invariant forall i :: 0 <= i < |block| ==> IsPattern(block[i])
        {
          block := block + [cs[end]];
          end := end + 1;
        }
        assert block + cs[end..] == rest;
        result, bound := OrderBlock(block, cs[end..], result, bound);
        offset := end;
      }
    }
    NothingToOrder(cs[|cs|..], bound);
  }

  lemma NothingToOrder(cs: seq<Clause>, bound: set<string>)
    requires cs == []
    ensures Order(cs, bound) == []
  {
  }

  lemma OrderBarrier(cs: seq<Clause>, offset: nat, bound: set<string>)
    requires offset < |cs| && !IsPattern(cs[offset])
    ensures Order(cs[offset..], bound) == [cs[offset]] + Order(cs[offset + 1..], bound + BarrierVars(cs[offset]))
  {
    var rest := cs[offset..];
    assert rest[0] == cs[offset] && rest[1..] == cs[offset + 1..];
  }

  lemma WithoutConcat<T>(s: seq<T>, t: seq<T>, i: nat)
    requires i < |s|
    ensures Without(s + t, i) == Without(s, i) + t
  {
  }

  lemma OrderPick(left: seq<Clause>, rest: seq<Clause>, bound: set<string>, best: nat)
    requires best < |left| && (forall i :: 0 <= i < |left| ==> IsPattern(left[i])) && (rest != [] ==> !IsPattern(rest[0]))
    requires forall j :: 0 <= j < |left| ==> RankOf(left[best], bound) <= RankOf(left[j], bound)
    requires forall j :: 0 <= j < best ==> RankOf(left[best], bound) < RankOf(left[j], bound)
    ensures Order(left + rest, bound) == [left[best]] + Order(Without(left, best) + rest, bound + ClauseVars(left[best]))
  {
    hide *;
    BestOfBlock(left, rest, bound, best);
    WithoutConcat(left, rest, best);
    PickedFirst(left + rest, bound);
  }

  /** Moves the patterns of a block to the result, always the cheapest first. */
  method OrderBlock(block: seq<Clause>, ghost rest: seq<Clause>, before: seq<Clause>, initial: set<string>)
    returns (result: seq<Clause>, bound: set<string>)
    requires forall i :: 0 <= i < |block| ==> IsPattern(block[i])
    requires rest != [] ==> !IsPattern(rest[0])
    ensures result + Order(rest, bound) == before + Order(block + rest, initial)
  {
    hide Order;
    var left := block;
    result, bound := before, initial;
    while left != []
      invariant forall i :: 0 <= i < |left| ==> IsPattern(left[i])
      invariant result + Order(left + rest, bound) == before + Order(block + rest, initial)
    {
      var best := 0;
      for i := 1 to |left|
        invariant 0 <= best < i
        invariant forall j :: 0 <= j < i ==> RankOf(left[best], bound) <= RankOf(left[j], bound)
        invariant forall j :: 0 <= j < best ==> RankOf(left[best], bound) < RankOf(left[j], bound)
      {
        if AccessRank(left[i].terms, bound) < AccessRank(left[best].terms, bound) {
          best := i;
        }
      }
      OrderPick(left, rest, bound, best);
      ghost var tail := Order(Without(left, best) + rest, bound + ClauseVars(left[best]));
      assert (result + [left[best]]) + tail == result + ([left[best]] + tail);
      result := result + [left[best]];
      bound := bound + Counted(left[best].terms);
      left := Without(left, best);
    }
    assert left + rest == rest;
  }

  lemma BestOfBlock(block: seq<Clause>, rest: seq<Clause>, bound: set<string>, best: nat)
    requires best < |block| && (forall i :: 0 <= i < |block| ==> IsPattern(block[i]))
    requires rest != [] ==> !IsPattern(rest[0])
    requires forall j :: 0 <= j < |block| ==> RankOf(block[best], bound) <= RankOf(block[j], bound)
    requires forall j :: 0 <= j < best ==> RankOf(block[best], bound) < RankOf(block[j], bound)
    ensures Block(block + rest) == |block| && Best(block + rest, |block|, bound) == best
  {
    BlockOf(block, rest);
    var cs := block + rest;
    var i := Best(cs, |block|, bound);
    assert cs[i] == block[i] && cs[best] == block[best];
    assert !(i < best) && !(best < i);
  }

  lemma {:induction false} BlockOf(block: seq<Clause>, rest: seq<Clause>)
    requires (forall i :: 0 <= i < |block| ==> IsPattern(block[i])) && (rest != [] ==> !IsPattern(rest[0]))
    ensures Block(block + rest) == |block|
  {
    if block == [] {
      assert block + rest == rest;
    } else {
      assert (block + rest)[1..] == block[1..] + rest;
      BlockOf(block[1..], rest);
    }
  }

  // ----- distinct bindings -----

  /** First occurrences only. */
  method DistinctBindings(input: seq<Binding>) returns (output: seq<Binding>)
    ensures SetOf(output) == SetOf(input)
    ensures forall i, j :: 0 <= i < j < |output| ==> output[i] != output[j]
  {
    output := [];
    var seen: set<Binding> := {};
    for i := 0 to |input|
      invariant seen == SetOf(output) == SetOf(input[..i])
      invariant forall i, j :: 0 <= i < j < |output| ==> output[i] != output[j]
    {
      assert input[..i + 1] == input[..i] + [input[i]];
      if input[i] !in seen {
        seen := seen + {input[i]};
        output := output + [input[i]];
      }
    }
    assert input[..|input|] == input;
  }

  // ----- evaluation -----

  /** How an evaluation ends. */
  datatype Outcome =
    | Done(rows: seq<Binding>)
    | Exhausted
    | Unbound
    | Wrong
    | NotBool

  /** The outcome answers the question: rows are the meaning's rows, an unbound use is one in
      the meaning, and a wrong query has no rows in the meaning.  An evaluation gives up only when
      its budget is spent, or over a pattern that tests the added position. */
  ghost predicate Answers(r: Outcome, a: Answer, spent: bool, tests: bool) {
    match r
    case Done(rows) => a == Rows(SetOf(rows))
    case Unbound => a.Unsafe?
    case Wrong => !a.Rows?
    case Exhausted => spent
    case NotBool => tests
  }

  /** Some pattern of the clause says something about the added position. */
  ghost predicate TestsAdded(c: Clause)
    decreases c
  {
    match c
    case Pattern(terms) => |terms| == 5 && !terms[4].Blank?
    case Predicate(_, _, _) => false
    case Rule(_, _) => false
    case Not(body) => exists d :: d in body && TestsAdded(d)
    case Or(branches) => exists branch :: branch in branches && exists d :: d in branch.body && TestsAdded(d)
  }

  ghost predicate AnyTests(cs: seq<Clause>) {
    exists c :: c in cs && TestsAdded(c)
  }

  /** The strict check accepts every definition, and its head variables are bound. */
  ghost predicate SafeRule(defs: seq<Definition>) {
    forall i :: 0 <= i < |defs| ==> Safe(defs[i])
  }

  ghost predicate Safe(def: Definition) {
    Strict(def.body, {}).Some? && forall i :: 0 <= i < |def.args| ==> def.args[i] in Strict(def.body, {}).value
  }

  lemma SafeDefinition(env: Env, def: Definition)
    requires Safe(def)
    ensures var a := Meaning(env, def.body, {map[]}); !a.Unsafe? && (a.Rows? ==> HeadsBound(def.args, a.rows))
  {
    StrictSound(env, def.body, {}, {map[]});
  }

  datatype Built = Ready | Cyclic | Undefined | Stopped(why: Outcome)

  /** Every named relation is the fixed point of its definitions over these relations. */
  ghost predicate AllSettled(env: Env, rules: Program, names: set<string>) {
    forall name :: name in names ==>
      name in rules && name in env.relations && exists n :: Settles(env, name, rules[name], env.relations[name], n)
  }

  /** The rules derived so far, in an order that respects what they need. */
  ghost predicate SoFar(env: Env, rules: Program, done: set<string>, order: seq<string>) {
    done == SetOf(order) && InOrder(rules, order) && AllSettled(env, rules, done)
  }

  /** The rules being visited form a path of needs that leads to `name`. */
  ghost predicate OnPath(rules: Program, visiting: set<string>, path: seq<string>, name: string) {
    && visiting == SetOf(path) && visiting <= rules.Keys
    && (forall i, j :: 0 <= i < j < |path| && j == i + 1 ==> Needs(rules, path[i], path[j]))
    && (path != [] ==> Needs(rules, path[|path| - 1], name))
  }

  lemma NoPath(rules: Program, name: string)
    ensures OnPath(rules, {}, [], name)
  {
  }

  lemma LongerPath(rules: Program, visiting: set<string>, path: seq<string>, name: string, b: string)
    requires OnPath(rules, visiting, path, name) && Needs(rules, name, b)
    ensures OnPath(rules, visiting + {name}, path + [name], b)
  {
    SetOfSnoc(path, name);
  }

  lemma CycleOnPath(rules: Program, visiting: set<string>, path: seq<string>, name: string) returns (cycle: seq<string>)
    requires OnPath(rules, visiting, path, name) && name in visiting
    ensures IsCycle(rules, cycle)
  {
    var k :| 0 <= k < |path| && path[k] == name;
    cycle := path[k..];
    assert k != |path| - 1;
    forall i, j | 0 <= i < j < |cycle| && j == i + 1 ensures Needs(rules, cycle[i], cycle[j]) {
      assert cycle[i] == path[k + i] && cycle[j] == path[k + j];
    }
  }

  /** Deriving one more relation leaves the derived ones settled. */
  lemma OneMoreDerived(env: Env, rules: Program, done: set<string>, order: seq<string>, name: string, tuples: set<Row>, n: nat)
    requires SoFar(env, rules, done, order) && name in rules && name !in done
    requires forall b :: b in AllCalls(rules[name]) && b != name ==> b in done
    requires Settles(env, name, rules[name], tuples, n)
    ensures SoFar(With(env, name, tuples), rules, done + {name}, order + [name])
  {
    hide Settles;
    var env' := With(env, name, tuples);
    SetOfSnoc(order, name);
    forall d | d in done + {name} ensures d in rules && d in env'.relations && exists m :: Settles(env', d, rules[d], env'.relations[d], m) {
      if d == name {
        SettlesSame(env, env', name, rules[name], tuples, n);
      } else {
        var m :| Settles(env, d, rules[d], env.relations[d], m);
        var i :| 0 <= i < |order| && order[i] == d;
        forall b | b in AllCalls(rules[d]) - {d} ensures b in done {
          assert Needs(rules, order[i], b) && b in order[..i];
        }
        SettlesSame(env, env', d, rules[d], env.relations[d], m);
      }
    }
    OrderGrows(rules, order, name);
  }

  lemma OrderGrows(rules: Program, order: seq<string>, name: string)
    requires InOrder(rules, order) && name !in order && forall b :: Needs(rules, name, b) ==> b in order
    ensures InOrder(rules, order + [name])
  {
    var longer := order + [name];
    forall i, b | 0 <= i < |longer| && Needs(rules, longer[i], b) ensures b in longer[..i] {
      assert i < |order| ==> longer[..i] == order[..i];
      assert longer[..|order|] == order;
    }
  }

  lemma AllDerived(env: Env, rules: Program, done: set<string>, order: seq<string>)
    requires SoFar(env, rules, done, order) && rules.Keys <= done
    ensures AllSettled(env, rules, rules.Keys)
    ensures forall c :: !IsCycle(rules, c)
    ensures forall a, b :: Needs(rules, a, b) ==> b in rules
  {
    forall c ensures !IsCycle(rules, c) {
      OrderExcludesCycle(rules, order, c);
    }
    forall a, b | Needs(rules, a, b) ensures b in rules {
      var i :| 0 <= i < |order| && order[i] == a;
      assert b in order[..i];
    }
  }

  class Engine {
    const facts: seq<Row>
    const current: bool
    const arity: map<string, nat>
    const compare: (string, Value, Value) -> Option<bool>
    const rules: Program
    const budget: nat
    var relations: map<string, seq<Row>>
    var work: nat

    ghost predicate Valid()
      reads this
    {
      RowsSized(facts) && work <= budget
    }

    ghost function Scope(): Env
      reads this
    {
      Env(facts, arity, map name | name in relations :: SetOf(relations[name]), compare)
    }

    constructor (facts: seq<Row>, current: bool, arity: map<string, nat>,
                 compare: (string, Value, Value) -> Option<bool>, rules: Program, budget: nat)
      requires RowsSized(facts)
      ensures Valid() && this.facts == facts && this.current == current && this.arity == arity && this.compare == compare
      ensures this.rules == rules && this.budget == budget
      ensures relations == map[] && work == 0
    {
      this.facts, this.current, this.arity, this.compare, this.rules, this.budget := facts, current, arity, compare, rules, budget;
      relations, work := map[], 0;
    }

    method Spend() returns (ok: bool)
      requires Valid()
      modifies `work
      ensures Valid()
      ensures ok <==> old(work) < budget
      ensures work == if ok then old(work) + 1 else old(work)
    {
      if work >= budget {
        return false;
      }
      work := work + 1;
      return true;
    }

    /** One binding: ask the database, spend per returned row, match. */
    method EvalIndexedPattern(terms: seq<Term>, b: Binding) returns (r: Outcome)
      requires Valid() && WellSized(terms)
      modifies `work
      ensures Valid()
      ensures r.Done? || r.Exhausted? || r.NotBool?
      ensures r.Done? ==> SetOf(r.rows) == PatternRows(facts, terms, {b}) && work == old(work) + Cost(facts, terms, b)
      ensures r.Exhausted? ==> work == budget && old(work) + Cost(facts, terms, b) > budget
      ensures r.NotBool? <==> |terms| == 5 && TermBound(terms[4], b) && TermCell(terms[4], 4, b).tag != TAG_BOOL
    {
      if |terms| == 5 && TermBound(terms[4], b) && TermCell(terms[4], 4, b).tag != TAG_BOOL {
        return NotBool;
      }
      var rows := [];
      for i := 0 to |facts|
        invariant Valid()
        invariant work == old(work) + Cost(facts[..i], terms, b)
        invariant SetOf(rows) == PatternRows(facts[..i], terms, {b})
      {
        hide PatternRows, Cost;
        OneMoreRow(facts, terms, b, i);
        if Probed(terms, facts[i], b) {
          var ok := Spend();
          if !ok {
            CostGrows(facts, terms, b, i + 1);
            return Exhausted;
          }
          var next := Match(false, terms, facts[i], b);
          if next.Some? {
            SetOfSnoc(rows, next.value);
            rows := rows + [next.value];
          }
        }
      }
      assert facts[..|facts|] == facts;
      return Done(rows);
    }

    static function GroupFor(groups: map<int, seq<Binding>>, e: int): seq<Binding> {
      if e in groups then groups[e] else []
    }

    /** The bindings by entity, and the entities in order of first appearance. */
    static method ByEntity(input: seq<Binding>, x: string) returns (groups: map<int, seq<Binding>>, entities: seq<int>)
      requires forall b :: b in input ==> x in b
      ensures forall e :: e in groups ==> groups[e] == GroupOf(input, x, e)
      ensures forall e :: e in entities <==> e in groups
      ensures forall b: Binding :: b in input ==> b[x].cell in groups
      ensures forall i, j :: 0 <= i < j < |entities| ==> entities[i] != entities[j]
    {
      groups, entities := map[], [];
      for i := 0 to |input|
        invariant forall b :: b in input[..i] ==> x in b
        invariant forall e {:trigger GroupOf(input[..i], x, e)} :: GroupFor(groups, e) == GroupOf(input[..i], x, e)
        invariant forall e :: e in entities <==> e in groups
        invariant forall j :: 0 <= j < i ==> input[j][x].cell in groups
        invariant forall i, j :: 0 <= i < j < |entities| ==> entities[i] != entities[j]
      {
        hide GroupOf;
        ghost var before := groups;
        var e := input[i][x].cell;
        if e !in groups {
          entities := entities + [e];
          groups := groups[e := []];
        }
        groups := groups[e := groups[e] + [input[i]]];
        forall d ensures GroupFor(groups, d) == GroupOf(input[..i + 1], x, d) {
          GroupSnoc(input, x, i, d);
          assert GroupFor(before, d) == GroupOf(input[..i], x, d);
        }
      }
      assert input[..|input|] == input;
    }

    /** One batch: the rows of its entities, each matched with the bindings of its entity. */
    method EvalChunk(terms: seq<Term>, chunk: seq<int>, groups: map<int, seq<Binding>>, ghost input: seq<Binding>) returns (r: Outcome)
      requires Valid() && Batchable(terms, input)
      requires forall e :: e in chunk ==> e in groups && groups[e] == GroupOf(input, terms[0].name, e)
      modifies `work
      ensures Valid() && (r.Done? || r.Exhausted?)
      ensures r.Done? ==>
        && SetOf(r.rows) == PatternRows(facts, terms, BindingsIn(input, terms[0].name, SetOf(chunk)))
        && work == old(work) + BatchCost(facts, terms, input, SetOf(chunk))
      ensures r.Exhausted? ==> work == budget && old(work) + BatchCost(facts, terms, input, SetOf(chunk)) > budget
    {
      ghost var bindings := BindingsIn(input, terms[0].name, SetOf(chunk));
      var rows := [];
      for i := 0 to |facts|
        invariant Valid()
        invariant work == old(work) + BatchCost(facts[..i], terms, input, SetOf(chunk))
        invariant SetOf(rows) == PatternRows(facts[..i], terms, bindings)
      {
        hide PatternRows, GroupOf;
        assert facts[..i + 1] == facts[..i] + [facts[i]] && facts[..i + 1][..i] == facts[..i];
        RowsConcat(facts[..i], [facts[i]], terms, bindings);
        GroupMatches(terms, facts[i], input, SetOf(chunk));
        BatchCostGrows(facts, terms, input, SetOf(chunk), i + 1);
        if facts[i][1].cell == terms[1].entity.cell && facts[i][0].cell in chunk {
          var ok;
          rows, ok := EvalRow(terms, facts[i], groups[facts[i][0].cell], rows);
          if !ok {
            return Exhausted;
          }
        }
      }
      assert facts[..|facts|] == facts;
      return Done(rows);
    }

    /** One row against the bindings of its entity. */
    method EvalRow(terms: seq<Term>, row: Row, group: seq<Binding>, before: seq<Binding>) returns (rows: seq<Binding>, ok: bool)
      requires Valid()
      modifies `work
      ensures Valid()
      ensures ok ==> SetOf(rows) == SetOf(before) + PatternRows([row], terms, SetOf(group)) && work == old(work) + |group|
      ensures !ok ==> work == budget && old(work) + |group| > budget
    {
      rows, ok := before, true;
      for j := 0 to |group|
        invariant Valid() && ok && work == old(work) + j
        invariant SetOf(rows) == SetOf(before) + PatternRows([row], terms, SetOf(group[..j]))
      {
        ok := Spend();
        if !ok {
          return;
        }
        assert group[..j + 1] == group[..j] + [group[j]];
        SetOfSnoc(group[..j], group[j]);
        InputUnion([row], terms, SetOf(group[..j]), {group[j]});
        OneRowOneBinding(row, terms, group[j]);
        var next := Match(false, terms, row, group[j]);
        if next.Some? {
          SetOfSnoc(rows, next.value);
          rows := rows + [next.value];
        }
      }
      assert group[..|group|] == group;
    }

    static method SortEntities(entities: seq<int>) returns (sorted: seq<int>)
      requires forall i, j :: 0 <= i < j < |entities| ==> entities[i] != entities[j]
      ensures forall e :: e in sorted <==> e in entities
      ensures forall i, j :: 0 <= i < j < |sorted| ==> sorted[i] < sorted[j]
    {
      sorted := [];
      for i := 0 to |entities|
        invariant forall e :: e in sorted <==> e in entities[..i]
        invariant forall i, j :: 0 <= i < j < |sorted| ==> sorted[i] < sorted[j]
      {
        var n := |sorted|;
        while n > 0 && sorted[n - 1] > entities[i]
          invariant 0 <= n <= |sorted|
          invariant forall j :: n <= j < |sorted| ==> entities[i] < sorted[j]
        {
          n := n - 1;
        }
        assert entities[i] !in sorted;
        sorted := sorted[..n] + [entities[i]] + sorted[n..];
        assert entities[..i + 1] == entities[..i] + [entities[i]];
      }
      assert entities[..|entities|] == entities;
    }

    /** A pattern costs and finds the same on either path. */
    ghost predicate PatternAnswered(before: nat, terms: seq<Term>, input: seq<Binding>, r: Outcome)
      requires RowsSized(facts) && WellSized(terms)
      reads this
    {
      && Valid()
      && (r.Done? || r.Exhausted? || r.NotBool?)
      && (r.Done? ==> SetOf(r.rows) == PatternRows(facts, terms, SetOf(input)) && work == before + CostOfAll(facts, terms, input))
      && (r.Exhausted? ==> work == budget && before + CostOfAll(facts, terms, input) > budget)
      && (r.NotBool? ==> TestsAdded(Pattern(terms)))
    }

    /** Joins a bound entity variable, 400 entities at a time. */
    method EvalBoundEntityBatch(terms: seq<Term>, input: seq<Binding>) returns (r: Outcome)
      requires Valid() && Batchable(terms, input)
      modifies `work
      ensures PatternAnswered(old(work), terms, input, r) && !r.NotBool?
    {
      hide BatchCost, PatternRows, CostOfAll, GroupOf;
      var x := terms[0].name;
      var groups, found := ByEntity(input, x);
      var entities := SortEntities(found);
      BatchCostsTheSame(facts, terms, input, SetOf(entities));
      assert BindingsIn(input, x, SetOf(entities)) == SetOf(input);
      var rows, offset := [], 0;
      assert entities[..0] == [];
      NothingYet(facts, terms, input);
      while offset < |entities|
        invariant Valid() && 0 <= offset <= |entities|
        invariant work == old(work) + BatchCost(facts, terms, input, SetOf(entities[..offset]))
        invariant SetOf(rows) == PatternRows(facts, terms, BindingsIn(input, x, SetOf(entities[..offset])))
      {
        var end := if offset + BATCH < |entities| then offset + BATCH else |entities|;
        NextBatch(facts, terms, input, entities, offset, end);
        NextBatch(facts, terms, input, entities, end, |entities|);
        assert entities[..|entities|] == entities;
        var part := EvalChunk(terms, entities[offset..end], groups, input);
        if part.Exhausted? {
          return Exhausted;
        }
        assert SetOf(rows + part.rows) == SetOf(rows) + SetOf(part.rows);
        rows := rows + part.rows;
        offset := end;
      }
      assert entities[..|entities|] == entities;
      var distinct := DistinctBindings(rows);
      return Done(distinct);
    }

    method EvalPattern(terms: seq<Term>, input: seq<Binding>) returns (r: Outcome)
      requires Valid() && WellSized(terms)
      modifies `work
      ensures PatternAnswered(old(work), terms, input, r)
    {
      if |terms| == 5 && terms[4].Const? && terms[4].plain.tag != TAG_BOOL {
        return NotBool;
      }
      if current && Batchable(terms, input) {
        r := EvalBoundEntityBatch(terms, input);
        return;
      }
      var rows := [];
      for i := 0 to |input|
        invariant Valid()
        invariant work == old(work) + CostOfAll(facts, terms, input[..i])
        invariant SetOf(rows) == PatternRows(facts, terms, SetOf(input[..i]))
      {
        hide PatternRows, CostOfAll;
        OneMoreBinding(facts, terms, input, i);
        var part := EvalIndexedPattern(terms, input[i]);
        if !part.Done? {
          return part;
        }
        assert SetOf(rows + part.rows) == SetOf(rows) + SetOf(part.rows);
        rows := rows + part.rows;
      }
      assert input[..|input|] == input;
      var distinct := DistinctBindings(rows);
      return Done(distinct);
    }

    method EvalPredicate(c: Clause, input: seq<Binding>) returns (r: Outcome)
      requires Valid() && c.Predicate?
      modifies `work
      ensures Valid() && Answers(r, ClauseMeaning(Scope(), c, SetOf(input)), work == budget, TestsAdded(c))
    {
      ghost var env := Scope();
      var rows := [];
      for i := 0 to |input|
        invariant Valid() && Scope() == env
        invariant forall j :: 0 <= j < i ==> Operable(c, input[j]) && Holds(env, c, input[j]).Some?
        invariant SetOf(rows) == set b | b in input[..i] && Holds(env, c, b) == Some(true)
      {
        var ok := Spend();
        if !ok {
          return Exhausted;
        }
        assert input[i] in input && input[..i + 1] == input[..i] + [input[i]];
        var left, right := OperandValue(c.left, input[i]), OperandValue(c.right, input[i]);
        if left.None? || right.None? {
          assert input[i] in SetOf(input) && !Operable(c, input[i]);
          return Unbound;
        }
        var matched := compare(c.op, left.value, right.value);
        if matched.None? {
          assert input[i] in SetOf(input) && Holds(env, c, input[i]).None?;
          return Wrong;
        }
        if matched.value {
          SetOfSnoc(rows, input[i]);
          rows := rows + [input[i]];
        }
      }
      assert input[..|input|] == input;
      var distinct := DistinctBindings(rows);
      return Done(distinct);
    }

    method EvalRule(name: string, args: seq<Term>, input: seq<Binding>) returns (r: Outcome)
      requires Valid()
      modifies `work
      ensures Valid() && Answers(r, ClauseMeaning(Scope(), Rule(name, args), SetOf(input)), work == budget, false)
    {
      ghost var env := Scope();
      if name !in arity || |args| != arity[name] {
        return Wrong;
      }
      var tuples := if name in relations then relations[name] else [];
      var rows := [];
      for i := 0 to |input|
        invariant Valid() && Scope() == env
        invariant SetOf(rows) == RuleRows(SetOf(tuples), args, SetOf(input[..i]))
      {
        assert input[..i + 1] == input[..i] + [input[i]];
        SetOfSnoc(input[..i], input[i]);
        RuleInputs(SetOf(tuples), args, SetOf(input[..i]), input[i]);
        var ok;
        rows, ok := EvalTuples(tuples, args, input[i], rows);
        if !ok {
          return Exhausted;
        }
      }
      assert input[..|input|] == input;
      var distinct := DistinctBindings(rows);
      return Done(distinct);
    }

    method EvalTuples(tuples: seq<Row>, args: seq<Term>, b: Binding, before: seq<Binding>) returns (rows: seq<Binding>, ok: bool)
      requires Valid()
      modifies `work
      ensures Valid()
      ensures ok ==> SetOf(rows) == SetOf(before) + RuleRows(SetOf(tuples), args, {b})
      ensures !ok ==> work == budget
    {
      rows, ok := before, true;
      for j := 0 to |tuples|
        invariant Valid() && ok
        invariant SetOf(rows) == SetOf(before) + RuleRows(SetOf(tuples[..j]), args, {b})
      {
        ok := Spend();
        if !ok {
          return;
        }
        assert tuples[..j + 1] == tuples[..j] + [tuples[j]];
        var next := Match(true, args, tuples[j], b);
        if next.Some? {
          SetOfSnoc(rows, next.value);
          rows := rows + [next.value];
        }
      }
      assert tuples[..|tuples|] == tuples;
    }

    method EvalNot(body: seq<Clause>, input: seq<Binding>) returns (r: Outcome)
      requires Valid()
      modifies `work
      ensures Valid() && Answers(r, ClauseMeaning(Scope(), Not(body), SetOf(input)), work == budget, TestsAdded(Not(body)))
      decreases body, 2
    {
      hide Meaning, ClauseMeaning, Correlated;
      ghost var env := Scope();
      for i := 0 to |input|
        invariant forall j :: 0 <= j < i ==> Correlated(body, input[j])
      {
        if !Correlated(body, input[i]) {
          NotFails(env, body, SetOf(input), input[i]);
          return Unbound;
        }
      }
      var rows := [];
      for i := 0 to |input|
        invariant Valid() && Scope() == env
        invariant forall j :: 0 <= j < i ==> Meaning(env, body, {input[j]}).Rows?
        invariant SetOf(rows) == set b | b in input[..i] && Meaning(env, body, {b}) == Rows({})
      {
        assert input[..i + 1] == input[..i] + [input[i]];
        assert SetOf([input[i]]) == {input[i]};
        NotFails(env, body, SetOf(input), input[i]);
        var matches := EvalClauses(body, [input[i]]);
        if !matches.Done? {
          return matches;
        }
        assert matches.rows != [] ==> matches.rows[0] in SetOf(matches.rows);
        if matches.rows == [] {
          SetOfSnoc(rows, input[i]);
          rows := rows + [input[i]];
        }
      }
      assert input[..|input|] == input;
      NotHolds(env, body, input, SetOf(rows));
      return Done(rows);
    }

    method EvalOr(branches: seq<Branch>, input: seq<Binding>) returns (r: Outcome)
      requires Valid()
      modifies `work
      ensures Valid() && Answers(r, ClauseMeaning(Scope(), Or(branches), SetOf(input)), work == budget, TestsAdded(Or(branches)))
      decreases branches, 2
    {
      hide Meaning, OrMeaning;
      ghost var env := Scope();
      if branches == [] {
        return Wrong;
      }
      var rows := [];
      assert branches[0..] == branches;
      for i := 0 to |branches|
        invariant Valid() && Scope() == env
        invariant OrMeaning(env, branches, SetOf(input)) == Join(Rows(SetOf(rows)), OrMeaning(env, branches[i..], SetOf(input)))
      {
        NextBranch(env, branches, i, SetOf(input));
        var matches := EvalClauses(branches[i].body, input);
        if !matches.Done? {
          return matches;
        }
        assert SetOf(rows + matches.rows) == SetOf(rows) + SetOf(matches.rows);
        rows := rows + matches.rows;
      }
      assert branches[|branches|..] == [];
      NoBranches(env, branches[|branches|..], SetOf(input));
      var distinct := DistinctBindings(rows);
      return Done(distinct);
    }

    method EvalClause(c: Clause, input: seq<Binding>) returns (r: Outcome)
      requires Valid()
      modifies `work
      ensures Valid() && Answers(r, ClauseMeaning(Scope(), c, SetOf(input)), work == budget, TestsAdded(c))
      decreases c, 3
    {
      match c
      case Pattern(terms) =>
        if !WellSized(terms) {
          return Wrong;
        }
        r := EvalPattern(terms, input);
      case Predicate(_, _, _) => r := EvalPredicate(c, input);
      case Not(body) => r := EvalNot(body, input);
      case Or(branches) => r := EvalOr(branches, input);
      case Rule(name, args) => r := EvalRule(name, args, input);
    }

    /** Evaluates the clauses in the planned order; the outcome answers their written order. */
    method EvalClauses(cs: seq<Clause>, input: seq<Binding>) returns (r: Outcome)
      requires Valid()
      modifies `work
      ensures Valid() && Answers(r, Meaning(Scope(), cs, SetOf(input)), work == budget, AnyTests(cs))
      decreases cs, 1
    {
      ghost var env := Scope();
      var names := InitialNames(input);
      var ordered := OrderQueryClauses(cs, names);
      OrderPreserves(env, cs, names, SetOf(input));
      var rows := input;
      assert ordered[0..] == ordered;
      for i := 0 to |ordered|
        invariant Valid() && Scope() == env
        invariant Meaning(env, cs, SetOf(input)) == Meaning(env, ordered[i..], SetOf(rows))
      {
        hide Meaning, ClauseMeaning, Order;
        OrderElements(cs, names, ordered[i]);
        FirstClause(env, ordered, i, SetOf(rows));
        var next := EvalClause(ordered[i], rows);
        if !next.Done? {
          return next;
        }
        rows := next.rows;
        if rows == [] {
          return Done(rows);
        }
        assert rows[0] in SetOf(rows);
      }
      assert ordered[|ordered|..] == [];
      return Done(rows);
    }

    /** Answers a query.  If the strict check accepts the clauses for the variables of the input
        and announces the wanted ones, the run never meets an unbound variable and every row
        binds all that is asked for. */
    method Ask(cs: seq<Clause>, initial: Binding, find: seq<string>) returns (r: Outcome)
      requires Valid()
      modifies `work
      ensures Valid() && Answers(r, Meaning(Scope(), cs, {initial}), work == budget, AnyTests(cs))
      ensures Strict(cs, initial.Keys).Some? && SetOf(find) <= Strict(cs, initial.Keys).value ==>
        !r.Unbound? && (r.Done? ==> forall b :: b in r.rows ==> SetOf(find) <= b.Keys)
    {
      hide Meaning, Strict;
      assert SetOf([initial]) == {initial};
      r := EvalClauses(cs, [initial]);
      if Strict(cs, initial.Keys).Some? {
        StrictSound(Scope(), cs, initial.Keys, {initial});
        assert r.Done? ==> forall b :: b in r.rows ==> b in SetOf(r.rows);
      }
    }

    /** Adds the head tuples of the bindings; a head variable must be bound. */
    static method AddTuples(args: seq<string>, bindings: seq<Binding>, before: seq<Row>) returns (rows: seq<Row>, ok: bool)
      ensures ok <==> HeadsBound(args, SetOf(bindings))
      ensures ok ==> SetOf(rows) == SetOf(before) + HeadRows(args, SetOf(bindings))
      ensures |rows| >= |before| && (|rows| == |before| <==> rows == before)
      ensures ok && rows != before ==> SetOf(before) < SetOf(rows)
    {
      rows, ok := before, true;
      for i := 0 to |bindings|
        invariant ok && HeadsBound(args, SetOf(bindings[..i]))
        invariant SetOf(rows) == SetOf(before) + HeadRows(args, SetOf(bindings[..i]))
        invariant before <= rows && (rows != before ==> SetOf(before) < SetOf(rows))
      {
        assert bindings[..i + 1] == bindings[..i] + [bindings[i]];
        SetOfSnoc(bindings[..i], bindings[i]);
        if exists j :: 0 <= j < |args| && args[j] !in bindings[i] {
          assert bindings[i] in SetOf(bindings);
          return before, false;
        }
        var row := HeadRow(args, bindings[i]);
        OneMoreHead(args, SetOf(bindings[..i]), bindings[i]);
        if row !in rows {
          SetOfSnoc(rows, row);
          rows := rows + [row];
        }
      }
      assert bindings[..|bindings|] == bindings;
    }

    /** What one definition adds. */
    method DeriveOne(def: Definition, before: seq<Row>) returns (rows: seq<Row>, r: Outcome)
      requires Valid()
      modifies `work
      ensures Valid()
      ensures Safe(def) ==> !r.Unbound?
      ensures r.Exhausted? ==> work == budget
      ensures r.Wrong? || r.Unbound? ==> DerivedBy(Scope(), def).None?
      ensures r.Done? ==>
        && DerivedBy(Scope(), def).Some?
        && SetOf(rows) == SetOf(before) + DerivedBy(Scope(), def).value
        && (rows != before ==> SetOf(before) < SetOf(rows))
    {
      hide Meaning, HeadsBound, HeadRows, RowsSized, Strict;
      ghost var env := Scope();
      var empty: Binding := map[];
      assert SetOf([empty]) == {empty};
      if Safe(def) { SafeDefinition(env, def); }
      r := EvalClauses(def.body, [empty]);
      rows := before;
      if !r.Done? {
        return;
      }
      var ok;
      rows, ok := AddTuples(def.args, r.rows, before);
      if !ok {
        return rows, Unbound;
      }
    }

    /** One pass over the definitions, all seeing the relation as it was before the pass. */
    method DerivePass(name: string, before: seq<Row>) returns (rows: seq<Row>, r: Outcome)
      requires Valid() && name in rules
      modifies `work
      ensures Valid()
      ensures SafeRule(rules[name]) ==> !r.Unbound?
      ensures r.Exhausted? ==> work == budget
      ensures r.Wrong? || r.Unbound? ==> OnePass(Scope(), rules[name]).None?
      ensures r.Done? ==>
        && OnePass(Scope(), rules[name]).Some?
        && SetOf(rows) == SetOf(before) + OnePass(Scope(), rules[name]).value
        && (rows != before ==> SetOf(before) < SetOf(rows))
    {
      ghost var env := Scope();
      var defs := rules[name];
      rows := before;
      for i := 0 to |defs|
        invariant Valid() && Scope() == env
        invariant OnePass(env, defs[..i]).Some? && SetOf(rows) == SetOf(before) + OnePass(env, defs[..i]).value
        invariant rows != before ==> SetOf(before) < SetOf(rows)
      {
        hide OnePass, DerivedBy, RowsSized, Safe;
        PassSnoc(env, defs, i);
        rows, r := DeriveOne(defs[i], rows);
        if !r.Done? {
          if r.Wrong? || r.Unbound? { PassStops(env, defs, i + 1); }
          return;
        }
      }
      assert defs[..|defs|] == defs;
      return rows, Done([]);
    }

    /** Derives a relation: passes from nothing until one adds nothing.  It ends because tuples
        are drawn from the finitely many cells of the facts and the other relations. */
    method DeriveRelation(name: string, ghost cells: set<Value>) returns (r: Outcome, ghost n: nat)
      requires Valid() && name in rules && EnvIn(Scope(), cells)
      requires name in arity && forall i :: 0 <= i < |rules[name]| ==> |rules[name][i].args| == arity[name]
      modifies `work, `relations
      ensures Valid()
      ensures SafeRule(rules[name]) ==> !r.Unbound?
      ensures r.Exhausted? ==> work == budget
      ensures r.Wrong? || r.Unbound? ==> Iterate(old(Scope()), name, rules[name], n + 1).None?
      ensures r.Done? ==> name in relations && relations == old(relations)[name := relations[name]]
      ensures r.Done? ==> Settles(old(Scope()), name, rules[name], SetOf(relations[name]), n)
      ensures r.Done? ==> EnvIn(Scope(), cells)
    {
      hide OnePass, AllRows, Iterate, Closed, SafeRule, RowsSized;
      ghost var env, was, domain := Scope(), relations, AllRows(cells, arity[name]);
      var rows: seq<Row> := [];
      n := 0;
      assert SetOf(rows) == {} && Iterate(env, name, rules[name], 0) == Some({}) by { NoPassYet(env, name, rules[name]); }
      while true
        invariant Valid() && (relations == was || (name in relations && relations == was[name := relations[name]]))
        invariant Iterate(env, name, rules[name], n) == Some(SetOf(rows))
        invariant SetOf(rows) <= domain && CellsIn(SetOf(rows), cells)
        decreases domain - SetOf(rows)
      {
        relations := relations[name := rows];
        assert Scope() == With(env, name, SetOf(rows));
        ghost var base := SetOf(rows);
        var more;
        more, r := DerivePass(name, rows);
        if !r.Done? {
          IterateStops(env, name, rules[name], n, base);
          return;
        }
        PassInDomain(With(env, name, base), rules[name], cells, arity[name]);
        AfterPass(env, name, rules[name], n, base);
        if more == rows {
          break;
        }
        rows, n := more, n + 1;
      }
    }

    ghost predicate Arities() {
      forall name :: name in rules ==> name in arity && forall i :: 0 <= i < |rules[name]| ==> |rules[name][i].args| == arity[name]
    }

    lemma ArityOf(name: string)
      requires Arities() && name in rules
      ensures name in arity && forall i :: 0 <= i < |rules[name]| ==> |rules[name][i].args| == arity[name]
    {
    }

    /** Derives a rule after the rules it needs, depth first. */
    method Build(name: string, visiting: set<string>, done: set<string>, ghost path: seq<string>, ghost order: seq<string>,
                 ghost cells: set<Value>)
      returns (r: Built, done': set<string>, ghost order': seq<string>, ghost cycle: seq<string>)
      requires Valid() && Arities() && EnvIn(Scope(), cells) && name in rules
      requires SoFar(Scope(), rules, done, order) && OnPath(rules, visiting, path, name) && visiting !! done
      modifies `work, `relations
      ensures Valid()
      ensures r.Ready? ==>
        SoFar(Scope(), rules, done', order') && EnvIn(Scope(), cells) && done + {name} <= done' && visiting !! done'
      ensures r.Cyclic? ==> IsCycle(rules, cycle)
      ensures r.Undefined? ==> exists a, b :: Needs(rules, a, b) && b !in rules
      ensures r.Stopped? ==> !r.why.Done? && (r.why.Exhausted? ==> work == budget)
      decreases rules.Keys - visiting
    {
      hide SoFar, EnvIn, OnPath, Settles, Arities;
      done', order', cycle := done, order, [];
      if name in done {
        r := Ready;
        return;
      }
      if name in visiting {
        cycle := CycleOnPath(rules, visiting, path, name);
        r := Cyclic;
        return;
      }
      var rest := AllCalls(rules[name]);
      while rest != {}
        invariant rest <= AllCalls(rules[name])
        invariant Valid() && EnvIn(Scope(), cells) && SoFar(Scope(), rules, done', order')
        invariant done <= done' && (visiting + {name}) !! done'
        invariant forall b :: b in AllCalls(rules[name]) && b !in rest && b != name ==> b in done'
        decreases |rest|
      {
        var b: string :| b in rest;
        rest := rest - {b};
        if b != name {
          assert Needs(rules, name, b);
          if b !in rules {
            r := Undefined;
            return;
          }
          LongerPath(rules, visiting, path, name, b);
          r, done', order', cycle := Build(b, visiting + {name}, done', path + [name], order', cells);
          if !r.Ready? {
            return;
          }
        }
      }
      ArityOf(name);
      ghost var env := Scope();
      var out, n := DeriveRelation(name, cells);
      if !out.Done? {
        r := Stopped(out);
        return;
      }
      assert Scope() == With(env, name, SetOf(relations[name]));
      OneMoreDerived(env, rules, done', order', name, SetOf(relations[name]), n);
      done', order', r := done' + {name}, order' + [name], Ready;
    }

    /** Derives every rule.  It succeeds only if no rule calls an undefined one and no cycle is
        longer than one, and then every relation is the fixed point over the final relations. */
    method BuildRelations(ghost cells: set<Value>) returns (r: Built, ghost cycle: seq<string>)
      requires Valid() && Arities() && EnvIn(Scope(), cells) && relations == map[]
      modifies `work, `relations
      ensures Valid()
      ensures r.Ready? ==> AllSettled(Scope(), rules, rules.Keys) && forall c :: !IsCycle(rules, c)
      ensures r.Ready? ==> forall a, b :: Needs(rules, a, b) ==> b in rules
      ensures r.Cyclic? ==> IsCycle(rules, cycle)
      ensures r.Undefined? ==> exists a, b :: Needs(rules, a, b) && b !in rules
      ensures r.Stopped? ==> !r.why.Done? && (r.why.Exhausted? ==> work == budget)
    {
      var done: set<string> := {};
      ghost var order: seq<string> := [];
      var rest := rules.Keys;
      r, cycle := Ready, [];
      while rest != {}
        invariant Valid() && EnvIn(Scope(), cells) && SoFar(Scope(), rules, done, order)
        invariant rest <= rules.Keys && rules.Keys - rest <= done && r.Ready?
        decreases |rest|
      {
        hide SoFar, EnvIn;
        var name: string :| name in rest;
        rest := rest - {name};
        NoPath(rules, name);
        r, done, order, cycle := Build(name, {}, done, [], order, cells);
        if !r.Ready? {
          return;
        }
      }
      AllDerived(Scope(), rules, done, order);
    }
  }

  /** A negation is as unsafe or wrong as its body under any of its bindings. */
  lemma NotFails(env: Env, body: seq<Clause>, input: set<Binding>, b: Binding)
    requires b in input
    ensures !Correlated(body, b) || Meaning(env, body, {b}).Unsafe? ==> ClauseMeaning(env, Not(body), input).Unsafe?
    ensures !Meaning(env, body, {b}).Rows? ==> !ClauseMeaning(env, Not(body), input).Rows?
  {
  }

  lemma NotHolds(env: Env, body: seq<Clause>, input: seq<Binding>, rows: set<Binding>)
    requires forall j :: 0 <= j < |input| ==> Correlated(body, input[j]) && Meaning(env, body, {input[j]}).Rows?
    requires rows == set b | b in input && Meaning(env, body, {b}) == Rows({})
    ensures ClauseMeaning(env, Not(body), SetOf(input)) == Rows(rows)
  {
    hide Meaning, Correlated;
    forall b | b in SetOf(input) ensures Correlated(body, b) && Meaning(env, body, {b}).Rows? {
      var j :| 0 <= j < |input| && input[j] == b;
    }
  }

  lemma RuleInputs(tuples: set<Row>, args: seq<Term>, input: set<Binding>, b: Binding)
    ensures RuleRows(tuples, args, input + {b}) == RuleRows(tuples, args, input) + RuleRows(tuples, args, {b})
  {
  }

  lemma NoBranches(env: Env, branches: seq<Branch>, input: set<Binding>)
    requires branches == []
    ensures OrMeaning(env, branches, input) == Rows({})
  {
  }

  lemma NextBranch(env: Env, branches: seq<Branch>, i: nat, input: set<Binding>)
    requires i < |branches|
    ensures OrMeaning(env, branches[i..], input) == Join(Meaning(env, branches[i].body, input), OrMeaning(env, branches[i + 1..], input))
  {
    assert branches[i..][1..] == branches[i + 1..];
  }

  lemma FirstClause(env: Env, cs: seq<Clause>, i: nat, input: set<Binding>)
    requires i < |cs|
    ensures var a := ClauseMeaning(env, cs[i], input);
      Meaning(env, cs[i..], input) == if a.Rows? && a.rows != {} then Meaning(env, cs[i + 1..], a.rows) else a
  {
    assert cs[i..][1..] == cs[i + 1..];
  }

  /** The variables that every binding has. */
  function InitialNames(input: seq<Binding>): set<string> {
    if input == [] then {} else set x | x in input[0] && forall b :: b in input ==> x in b
  }

  lemma InitialNamesExactly(input: seq<Binding>, x: string)
    ensures x in InitialNames(input) <==> input != [] && forall b :: b in input ==> x in b
  {
    assert input != [] ==> input[0] in input;
  }

  lemma NoPassYet(env: Env, name: string, defs: seq<Definition>)
    ensures Iterate(env, name, defs, 0) == Some({})
  {
  }

  lemma AfterPass(env: Env, name: string, defs: seq<Definition>, n: nat, base: set<Row>)
    requires Iterate(env, name, defs, n) == Some(base) && OnePass(With(env, name, base), defs).Some?
    ensures var more := OnePass(With(env, name, base), defs).value;
      && Iterate(env, name, defs, n + 1) == Some(base + more)
      && (more <= base ==> Closed(env, name, defs, base))
  {
  }

  lemma IterateStops(env: Env, name: string, defs: seq<Definition>, n: nat, base: set<Row>)
    requires Iterate(env, name, defs, n) == Some(base)
    ensures OnePass(With(env, name, base), defs).None? ==> Iterate(env, name, defs, n + 1).None?
  {
  }

  /** A definition that fails makes the whole pass fail. */
  lemma {:induction false} PassStops(env: Env, defs: seq<Definition>, n: nat)
    requires n <= |defs| && OnePass(env, defs[..n]).None?
    ensures OnePass(env, defs).None?
    decreases |defs| - n
  {
    if n == |defs| {
      assert defs[..n] == defs;
    } else {
      PassSnoc(env, defs, n);
      PassStops(env, defs, n + 1);
    }
  }

  lemma PassSnoc(env: Env, defs: seq<Definition>, i: nat)
    requires i < |defs|
    ensures OnePass(env, defs[..i + 1]) ==
      var before, last := OnePass(env, defs[..i]), DerivedBy(env, defs[i]);
      if before.Some? && last.Some? then Some(before.value + last.value) else None
  {
    assert defs[..i + 1][..i] == defs[..i];
  }

  lemma OneMoreHead(args: seq<string>, rows: set<Binding>, b: Binding)
    requires HeadsBound(args, rows) && forall i :: 0 <= i < |args| ==> args[i] in b
    ensures HeadsBound(args, rows + {b}) && HeadRows(args, rows + {b}) == HeadRows(args, rows) + {HeadRow(args, b)}
  {
  }

  lemma {:induction false} PassInDomain(env: Env, defs: seq<Definition>, cells: set<Value>, n: nat)
    requires EnvIn(env, cells) && OnePass(env, defs).Some? && forall i :: 0 <= i < |defs| ==> |defs[i].args| == n
    ensures OnePass(env, defs).value <= AllRows(cells, n) && CellsIn(OnePass(env, defs).value, cells)
  {
    if defs != [] {
      PassInDomain(env, defs[..|defs| - 1], cells, n);
      DerivedInDomain(env, defs[|defs| - 1], cells);
    }
  }
}
