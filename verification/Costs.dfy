/** What evaluation costs.  A pattern spends one unit per row the database returns for it; the
    rows of all entities of a batch, each taken once per binding of its entity, are as many as
    the rows the bindings would have asked for one by one. */
module Costs {
  import opened Facts
  import opened Query

  function SetOf<T(!new)>(s: seq<T>): set<T> {
    set x | x in s
  }

  // ----- what a pattern costs -----

  predicate TermBound(t: Term, b: Binding) {
    t.Const? || (t.Var? && t.name in b)
  }

  function TermCell(t: Term, i: nat, b: Binding): Value
    requires TermBound(t, b)
  {
    match t
    case Const(entity, plain, _) => if AsEntity(false, i, plain) then entity else plain
    case Var(x) => b[x]
  }

  predicate Pinned(terms: seq<Term>, i: nat, row: Row, b: Binding)
    requires |row| == 5 && |terms| <= 5
  {
    i < |terms| && TermBound(terms[i], b) ==> TermCell(terms[i], i, b).cell == row[i].cell
  }

  /** The rows the database returns for a pattern under a binding: every bound entity,
      attribute, transaction and added term is pinned, and the value only next to a bound
      attribute. */
  predicate Probed(terms: seq<Term>, row: Row, b: Binding)
    requires |row| == 5 && WellSized(terms)
  {
    && Pinned(terms, 0, row, b) && Pinned(terms, 1, row, b) && Pinned(terms, 3, row, b) && Pinned(terms, 4, row, b)
    && (TermBound(terms[1], b) && TermBound(terms[2], b) ==> TermCell(terms[2], 2, b) == row[2])
  }

  lemma MatchedIsProbed(terms: seq<Term>, row: Row, b: Binding)
    requires |row| == 5 && WellSized(terms) && Match(false, terms, row, b).Some?
    ensures Probed(terms, row, b)
  {
    var b' := Match(false, terms, row, b).value;
    MatchExactly(false, terms, row, b, b');
    forall i | 0 <= i < |terms| && TermBound(terms[i], b) ensures TermCell(terms[i], i, b) == row[i] {
      assert TermAgrees(false, terms[i], i, row[i], b');
    }
  }

  /** The work of one pattern under one binding: the rows the database returns. */
  function Cost(facts: seq<Row>, terms: seq<Term>, b: Binding): nat
    requires RowsSized(facts) && WellSized(terms)
  {
    if facts == [] then 0
    else Cost(facts[..|facts| - 1], terms, b) + (if Probed(terms, facts[|facts| - 1], b) then 1 else 0)
  }

  /** The value a term has under a binding, as an entity or as a plain value. */
  ghost predicate Given(t: Term, asEntity: bool, b: Binding, v: Value) {
    match t
    case Blank => false
    case Const(entity, plain, _) => v == if asEntity then entity else plain
    case Var(x) => x in b && v == b[x]
  }

  /** The row agrees with every given entity, attribute, transaction and flag, and with the value if
      both attribute and value are given. */
  ghost predicate Returned(terms: seq<Term>, row: Row, b: Binding)
    requires |row| == 5 && WellSized(terms)
  {
    && (forall j, v :: j in {0, 1, 3, 4} && j < |terms| && Given(terms[j], j != 4, b, v) ==> row[j].cell == v.cell)
    && (forall a, v :: Given(terms[1], true, b, a) && Given(terms[2], false, b, v) ==> row[2] == v)
  }

  lemma ProbedExactly(terms: seq<Term>, row: Row, b: Binding)
    requires |row| == 5 && WellSized(terms)
    ensures Probed(terms, row, b) <==> Returned(terms, row, b)
  {
    forall j | j in {0, 1, 3, 4} && j < |terms|
      ensures Pinned(terms, j, row, b) <==> forall v :: Given(terms[j], j != 4, b, v) ==> row[j].cell == v.cell
    {
      if TermBound(terms[j], b) { assert Given(terms[j], j != 4, b, TermCell(terms[j], j, b)); }
    }
    if TermBound(terms[1], b) && TermBound(terms[2], b) {
      assert Given(terms[1], true, b, TermCell(terms[1], 1, b)) && Given(terms[2], false, b, TermCell(terms[2], 2, b));
    }
  }

  /** The places of the rows returned. */
  ghost function ReturnedAt(facts: seq<Row>, terms: seq<Term>, b: Binding): set<nat>
    requires RowsSized(facts) && WellSized(terms)
  {
    set i: nat | i < |facts| && ReturnedRow(facts, terms, b, i)
  }

  ghost predicate ReturnedRow(facts: seq<Row>, terms: seq<Term>, b: Binding, i: nat)
    requires RowsSized(facts) && WellSized(terms)
  {
    i < |facts| && Returned(terms, facts[i], b)
  }

  /** The work under one binding is the number of rows returned for it. */
  lemma {:induction false} CostExactly(facts: seq<Row>, terms: seq<Term>, b: Binding)
    requires RowsSized(facts) && WellSized(terms)
    ensures Cost(facts, terms, b) == |ReturnedAt(facts, terms, b)|
  {
    hide Probed, Returned, ReturnedAt;
    NothingReturned(terms, b);
    if facts != [] {
      var n := |facts| - 1;
      CostExactly(facts[..n], terms, b);
      ProbedExactly(terms, facts[n], b);
      OneMoreReturned(facts[..n], facts[n], terms, b);
      assert facts[..n] + [facts[n]] == facts;
    }
  }

  lemma NothingReturned(terms: seq<Term>, b: Binding)
    requires WellSized(terms)
    ensures |ReturnedAt([], terms, b)| == 0
  {
  }

  lemma OneMoreReturned(facts: seq<Row>, row: Row, terms: seq<Term>, b: Binding)
    requires RowsSized(facts) && |row| == 5 && WellSized(terms)
    ensures |ReturnedAt(facts + [row], terms, b)| == |ReturnedAt(facts, terms, b)| + if Returned(terms, row, b) then 1 else 0
  {
    hide Returned;
    var n, before, after := |facts|, ReturnedAt(facts, terms, b), ReturnedAt(facts + [row], terms, b);
    forall i: nat ensures i in after <==> i in before || (i == n && Returned(terms, row, b)) {
      assert i in before <==> ReturnedRow(facts, terms, b, i);
      assert i in after <==> ReturnedRow(facts + [row], terms, b, i);
    }
    assert after == before + if Returned(terms, row, b) then {n} else {};
  }

  function CostOfAll(facts: seq<Row>, terms: seq<Term>, input: seq<Binding>): nat
    requires RowsSized(facts) && WellSized(terms)
  {
    if input == [] then 0
    else CostOfAll(facts, terms, input[..|input| - 1]) + Cost(facts, terms, input[|input| - 1])
  }

  lemma {:induction false} CostGrows(facts: seq<Row>, terms: seq<Term>, b: Binding, i: nat)
    requires RowsSized(facts) && WellSized(terms) && i <= |facts|
    ensures Cost(facts[..i], terms, b) <= Cost(facts, terms, b)
    decreases |facts|
  {
    if i < |facts| {
      CostGrows(facts[..|facts| - 1], terms, b, i);
      assert facts[..|facts| - 1][..i] == facts[..i];
    } else {
      assert facts[..i] == facts;
    }
  }

  lemma {:induction false} CostOfAllGrows(facts: seq<Row>, terms: seq<Term>, input: seq<Binding>, i: nat)
    requires RowsSized(facts) && WellSized(terms) && i <= |input|
    ensures CostOfAll(facts, terms, input[..i]) <= CostOfAll(facts, terms, input)
    decreases |input|
  {
    if i < |input| {
      CostOfAllGrows(facts, terms, input[..|input| - 1], i);
      assert input[..|input| - 1][..i] == input[..i];
    } else {
      assert input[..i] == input;
    }
  }

  lemma SetOfSnoc<T(!new)>(s: seq<T>, x: T)
    ensures SetOf(s + [x]) == SetOf(s) + {x}
  {
  }

  lemma OneMoreRow(facts: seq<Row>, terms: seq<Term>, b: Binding, i: nat)
    requires RowsSized(facts) && WellSized(terms) && i < |facts|
    ensures Cost(facts[..i + 1], terms, b) == Cost(facts[..i], terms, b) + (if Probed(terms, facts[i], b) then 1 else 0)
    ensures PatternRows(facts[..i + 1], terms, {b}) == PatternRows(facts[..i], terms, {b})
      + (if Match(false, terms, facts[i], b).Some? then {Match(false, terms, facts[i], b).value} else {})
    ensures Match(false, terms, facts[i], b).Some? ==> Probed(terms, facts[i], b)
  {
    assert facts[..i + 1] == facts[..i] + [facts[i]] && facts[..i + 1][..i] == facts[..i];
    if Match(false, terms, facts[i], b).Some? { MatchedIsProbed(terms, facts[i], b); }
  }

  // ----- batches -----

  /** The bindings of one entity, in input order. */
  function GroupOf(input: seq<Binding>, x: string, e: int): seq<Binding>
    requires forall b :: b in input ==> x in b
  {
    if input == [] then []
    else
      var n := |input| - 1;
      assert input[n] in input;
      GroupOf(input[..n], x, e) + (if input[n][x].cell == e then [input[n]] else [])
  }

  lemma GroupSnoc(input: seq<Binding>, x: string, i: nat, e: int)
    requires (forall b :: b in input ==> x in b) && i < |input|
    ensures (forall b :: b in input[..i] ==> x in b) && (forall b :: b in input[..i + 1] ==> x in b)
    ensures input[i] in input
    ensures GroupOf(input[..i + 1], x, e) == GroupOf(input[..i], x, e) + (if input[i][x].cell == e then [input[i]] else [])
  {
    assert input[..i + 1][..i] == input[..i];
  }

  lemma {:induction false} GroupIn(input: seq<Binding>, x: string, e: int)
    requires forall b :: b in input ==> x in b
    ensures forall b: Binding :: b in GroupOf(input, x, e) <==> b in input && b[x].cell == e
  {
    if input != [] {
      var n := |input| - 1;
      GroupIn(input[..n], x, e);
      assert input == input[..n] + [input[n]];
    }
  }

  /** The pattern can be joined in batches: a bound entity variable, a constant attribute, and a
      value position that binds nothing or something new. */
  predicate Batchable(terms: seq<Term>, input: seq<Binding>) {
    && |terms| == 3 && |input| >= 2
    && terms[0].Var? && terms[1].Const?
    && (terms[2].Blank? || (terms[2].Var? && forall b :: b in input ==> terms[2].name !in b))
    && (forall b: Binding :: b in input ==> terms[0].name in b && b[terms[0].name].tag == TAG_REF)
  }

  predicate RowOf(terms: seq<Term>, row: Row, entities: set<int>)
    requires |terms| == 3 && terms[1].Const? && |row| == 5
  {
    row[1].cell == terms[1].entity.cell && row[0].cell in entities
  }

  /** The work of a batch: each row of its entities, once per binding of the row's entity. */
  function BatchCost(facts: seq<Row>, terms: seq<Term>, input: seq<Binding>, entities: set<int>): nat
    requires RowsSized(facts) && Batchable(terms, input)
  {
    if facts == [] then 0
    else
      var n := |facts| - 1;
      BatchCost(facts[..n], terms, input, entities) + RowCost(terms, facts[n], input, entities)
  }

  function RowCost(terms: seq<Term>, row: Row, input: seq<Binding>, entities: set<int>): nat
    requires |row| == 5 && Batchable(terms, input)
  {
    if RowOf(terms, row, entities) then |GroupOf(input, terms[0].name, row[0].cell)| else 0
  }

  lemma {:induction false} BatchCostGrows(facts: seq<Row>, terms: seq<Term>, input: seq<Binding>, entities: set<int>, i: nat)
    requires RowsSized(facts) && Batchable(terms, input) && i <= |facts|
    ensures BatchCost(facts[..i], terms, input, entities) <= BatchCost(facts, terms, input, entities)
    decreases |facts|
  {
    if i < |facts| {
      BatchCostGrows(facts[..|facts| - 1], terms, input, entities, i);
      assert facts[..|facts| - 1][..i] == facts[..i];
    } else {
      assert facts[..i] == facts;
    }
  }

  /** Batches of different entities add up. */
  lemma {:induction false} BatchesAddUp(facts: seq<Row>, terms: seq<Term>, input: seq<Binding>, some: set<int>, more: set<int>)
    requires RowsSized(facts) && Batchable(terms, input) && some !! more
    ensures BatchCost(facts, terms, input, some + more)
         == BatchCost(facts, terms, input, some) + BatchCost(facts, terms, input, more)
  {
    if facts != [] {
      BatchesAddUp(facts[..|facts| - 1], terms, input, some, more);
    }
  }

  /** How many bindings ask for this row. */
  function Askers(terms: seq<Term>, row: Row, input: seq<Binding>): nat
    requires |row| == 5 && WellSized(terms)
  {
    if input == [] then 0
    else
      var n := |input| - 1;
      Askers(terms, row, input[..n]) + (if Probed(terms, row, input[n]) then 1 else 0)
  }

  lemma {:induction false} CostByRows(facts: seq<Row>, terms: seq<Term>, input: seq<Binding>)
    requires RowsSized(facts) && WellSized(terms) && facts != []
    ensures var n := |facts| - 1;
      CostOfAll(facts, terms, input) == CostOfAll(facts[..n], terms, input) + Askers(terms, facts[n], input)
  {
    if input != [] {
      CostByRows(facts, terms, input[..|input| - 1]);
    }
  }

  lemma {:induction false} NoRowsNoCost(terms: seq<Term>, input: seq<Binding>)
    requires WellSized(terms)
    ensures CostOfAll([], terms, input) == 0
  {
    if input != [] {
      NoRowsNoCost(terms, input[..|input| - 1]);
    }
  }

  /** A binding of a batch asks for exactly the rows of its entity and the attribute. */
  lemma AsksFor(terms: seq<Term>, row: Row, b: Binding)
    requires |row| == 5 && |terms| == 3 && terms[0].Var? && terms[1].Const? && terms[0].name in b
    requires terms[2].Blank? || (terms[2].Var? && terms[2].name !in b)
    ensures Probed(terms, row, b) <==> row[0].cell == b[terms[0].name].cell && row[1].cell == terms[1].entity.cell
  {
    assert Pinned(terms, 0, row, b) <==> row[0].cell == b[terms[0].name].cell;
    assert Pinned(terms, 1, row, b) <==> row[1].cell == terms[1].entity.cell;
  }

  lemma {:induction false} AskersAreGroup(terms: seq<Term>, row: Row, input: seq<Binding>)
    requires |row| == 5 && |terms| == 3 && terms[0].Var? && terms[1].Const?
    requires terms[2].Blank? || (terms[2].Var? && forall b :: b in input ==> terms[2].name !in b)
    requires forall b :: b in input ==> terms[0].name in b
    ensures Askers(terms, row, input) ==
      if row[1].cell == terms[1].entity.cell then |GroupOf(input, terms[0].name, row[0].cell)| else 0
  {
    if input != [] {
      var n := |input| - 1;
      assert input[n] in input;
      AskersAreGroup(terms, row, input[..n]);
      AsksFor(terms, row, input[n]);
    }
  }

  /** One batch over all entities costs what the bindings cost one by one. */
  lemma {:induction false} BatchCostsTheSame(facts: seq<Row>, terms: seq<Term>, input: seq<Binding>, entities: set<int>)
    requires RowsSized(facts) && Batchable(terms, input)
    requires forall b: Binding :: b in input ==> b[terms[0].name].cell in entities
    ensures BatchCost(facts, terms, input, entities) == CostOfAll(facts, terms, input)
  {
    if facts == [] {
      NoRowsNoCost(terms, input);
    } else {
      var row := facts[|facts| - 1];
      BatchCostsTheSame(facts[..|facts| - 1], terms, input, entities);
      CostByRows(facts, terms, input);
      AskersAreGroup(terms, row, input);
      GroupIn(input, terms[0].name, row[0].cell);
      var group := GroupOf(input, terms[0].name, row[0].cell);
      assert |group| > 0 ==> group[0] in group;
    }
  }

  // ----- the rows of a batch -----

  lemma RowsConcat(facts: seq<Row>, more: seq<Row>, terms: seq<Term>, input: set<Binding>)
    ensures PatternRows(facts + more, terms, input) == PatternRows(facts, terms, input) + PatternRows(more, terms, input)
  {
    assert forall row :: row in facts + more <==> row in facts || row in more;
  }

  lemma InputUnion(facts: seq<Row>, terms: seq<Term>, input: set<Binding>, more: set<Binding>)
    ensures PatternRows(facts, terms, input + more) == PatternRows(facts, terms, input) + PatternRows(facts, terms, more)
  {
  }

  lemma OneRowOneBinding(row: Row, terms: seq<Term>, b: Binding)
    ensures PatternRows([row], terms, {b})
         == if Match(false, terms, row, b).Some? then {Match(false, terms, row, b).value} else {}
  {
  }

  /** The bindings of a batch. */
  function BindingsIn(input: seq<Binding>, x: string, entities: set<int>): set<Binding>
    requires forall b :: b in input ==> x in b
  {
    set b: Binding | b in input && b[x].cell in entities
  }

  /** Only the bindings of a row's entity can match it. */
  lemma GroupMatches(terms: seq<Term>, row: Row, input: seq<Binding>, entities: set<int>)
    requires |row| == 5 && Batchable(terms, input)
    ensures var x := terms[0].name;
      PatternRows([row], terms, BindingsIn(input, x, entities))
      == if RowOf(terms, row, entities) then PatternRows([row], terms, SetOf(GroupOf(input, x, row[0].cell))) else {}
  {
    var x := terms[0].name;
    GroupIn(input, x, row[0].cell);
    forall b: Binding | b in input && Match(false, terms, row, b).Some?
      ensures row[0].cell == b[x].cell && row[1].cell == terms[1].entity.cell
    {
      MatchedIsProbed(terms, row, b);
      AsksFor(terms, row, b);
    }
  }

  /** What the batches up to some entity have cost and found, and what the next one adds. */
  lemma NextBatch(facts: seq<Row>, terms: seq<Term>, input: seq<Binding>, entities: seq<int>, from: nat, to: nat)
    requires RowsSized(facts) && Batchable(terms, input) && from <= to <= |entities|
    requires forall i, j :: 0 <= i < j < |entities| ==> entities[i] != entities[j]
    ensures BatchCost(facts, terms, input, SetOf(entities[..to]))
         == BatchCost(facts, terms, input, SetOf(entities[..from])) + BatchCost(facts, terms, input, SetOf(entities[from..to]))
    ensures PatternRows(facts, terms, BindingsIn(input, terms[0].name, SetOf(entities[..to])))
         == PatternRows(facts, terms, BindingsIn(input, terms[0].name, SetOf(entities[..from])))
            + PatternRows(facts, terms, BindingsIn(input, terms[0].name, SetOf(entities[from..to])))
  {
    hide BatchCost, PatternRows;
    var some, more := SetOf(entities[..from]), SetOf(entities[from..to]);
    assert entities[..to] == entities[..from] + entities[from..to];
    assert SetOf(entities[..to]) == some + more;
    assert some !! more;
    BatchesAddUp(facts, terms, input, some, more);
    var x := terms[0].name;
    assert BindingsIn(input, x, some + more) == BindingsIn(input, x, some) + BindingsIn(input, x, more);
    InputUnion(facts, terms, BindingsIn(input, x, some), BindingsIn(input, x, more));
  }

  lemma NothingYet(facts: seq<Row>, terms: seq<Term>, input: seq<Binding>)
    requires RowsSized(facts) && Batchable(terms, input)
    ensures BatchCost(facts, terms, input, SetOf([])) == 0
    ensures PatternRows(facts, terms, BindingsIn(input, terms[0].name, SetOf([]))) == {}
  {
    NoEntitiesNoCost(facts, terms, input);
  }

  lemma {:induction false} NoEntitiesNoCost(facts: seq<Row>, terms: seq<Term>, input: seq<Binding>)
    requires RowsSized(facts) && Batchable(terms, input)
    ensures BatchCost(facts, terms, input, SetOf([])) == 0
  {
    if facts != [] {
      NoEntitiesNoCost(facts[..|facts| - 1], terms, input);
    }
  }

  lemma OneMoreBinding(facts: seq<Row>, terms: seq<Term>, input: seq<Binding>, i: nat)
    requires RowsSized(facts) && WellSized(terms) && i < |input|
    ensures CostOfAll(facts, terms, input[..i + 1]) == CostOfAll(facts, terms, input[..i]) + Cost(facts, terms, input[i])
    ensures CostOfAll(facts, terms, input[..i + 1]) <= CostOfAll(facts, terms, input)
    ensures PatternRows(facts, terms, SetOf(input[..i + 1]))
         == PatternRows(facts, terms, SetOf(input[..i])) + PatternRows(facts, terms, {input[i]})
  {
    assert input[..i + 1] == input[..i] + [input[i]] && input[..i + 1][..i] == input[..i];
    CostOfAllGrows(facts, terms, input, i + 1);
    SetOfSnoc(input[..i], input[i]);
    InputUnion(facts, terms, SetOf(input[..i]), {input[i]});
  }
}
