/** Recursive rules: what one pass over a rule's definitions derives, the iteration to a fixed
    point, and when that fixed point is the least one. */
module Rules {
  import opened Facts
  import opened Query

  datatype Definition = Definition(args: seq<string>, body: seq<Clause>)

  // ----- which rules a body calls -----

  function ClauseCalls(c: Clause): set<string>
    decreases c
  {
    match c
    case Pattern(_) => {}
    case Predicate(_, _, _) => {}
    case Not(body) => Calls(body)
    case Or(branches) => BranchCalls(branches)
    case Rule(name, _) => {name}
  }

  function Calls(cs: seq<Clause>): set<string>
    decreases cs
  {
    if cs == [] then {} else ClauseCalls(cs[0]) + Calls(cs[1..])
  }

  function BranchCalls(branches: seq<Branch>): set<string>
    decreases branches
  {
    if branches == [] then {} else Calls(branches[0].body) + BranchCalls(branches[1..])
  }

  function AllCalls(defs: seq<Definition>): set<string> {
    if defs == [] then {} else AllCalls(defs[..|defs| - 1]) + Calls(defs[|defs| - 1].body)
  }

  /** The rule is not called under a negation. */
  predicate Positive(name: string, cs: seq<Clause>)
    decreases cs
  {
    cs == [] || (PositiveClause(name, cs[0]) && Positive(name, cs[1..]))
  }

  predicate PositiveClause(name: string, c: Clause)
    decreases c
  {
    match c
    case Pattern(_) => true
    case Predicate(_, _, _) => true
    case Not(body) => name !in Calls(body)
    case Or(branches) => PositiveBranches(name, branches)
    case Rule(_, _) => true
  }

  predicate PositiveBranches(name: string, branches: seq<Branch>)
    decreases branches
  {
    branches == [] || (Positive(name, branches[0].body) && PositiveBranches(name, branches[1..]))
  }

  // ----- meaning depends on the called relations only -----

  /** The two environments differ at most in the relations outside `calls`. */
  ghost predicate Alike(env: Env, env': Env, calls: set<string>) {
    && env.facts == env'.facts && env.arity == env'.arity && env.compare == env'.compare
    && forall name :: name in calls ==> Tuples(env, name) == Tuples(env', name)
  }

  lemma {:induction false} SameMeaning(env: Env, env': Env, cs: seq<Clause>, input: set<Binding>)
    requires Alike(env, env', Calls(cs))
    ensures Meaning(env, cs, input) == Meaning(env', cs, input)
    decreases cs, 1
  {
    if cs != [] {
      SameClause(env, env', cs[0], input);
      var a := ClauseMeaning(env, cs[0], input);
      if a.Rows? { SameMeaning(env, env', cs[1..], a.rows); }
    }
  }

  lemma {:induction false} SameClause(env: Env, env': Env, c: Clause, input: set<Binding>)
    requires Alike(env, env', ClauseCalls(c))
    ensures ClauseMeaning(env, c, input) == ClauseMeaning(env', c, input)
    decreases c, 0
  {
    match c
    case Pattern(_) =>
    case Predicate(_, _, _) =>
      assert forall b :: Holds(env, c, b) == Holds(env', c, b);
    case Not(body) =>
      forall b ensures Meaning(env, body, {b}) == Meaning(env', body, {b}) {
        SameMeaning(env, env', body, {b});
      }
    case Or(branches) => SameOr(env, env', branches, input);
    case Rule(_, _) =>
  }

  lemma {:induction false} SameOr(env: Env, env': Env, branches: seq<Branch>, input: set<Binding>)
    requires Alike(env, env', BranchCalls(branches))
    ensures OrMeaning(env, branches, input) == OrMeaning(env', branches, input)
    decreases branches, 1
  {
    if branches != [] {
      SameMeaning(env, env', branches[0].body, input);
      SameOr(env, env', branches[1..], input);
    }
  }

  // ----- meaning grows with a relation that is not negated -----

  function With(env: Env, name: string, tuples: set<Row>): Env {
    env.(relations := env.relations[name := tuples])
  }

  ghost predicate Below(a: Answer, a': Answer) {
    a.Rows? && a'.Rows? ==> a.rows <= a'.rows
  }

  lemma {:induction false} Monotone(env: Env, name: string, small: set<Row>, large: set<Row>, cs: seq<Clause>,
                                    input: set<Binding>, input': set<Binding>)
    requires small <= large && input <= input' && Positive(name, cs)
    ensures Below(Meaning(With(env, name, small), cs, input), Meaning(With(env, name, large), cs, input'))
    decreases cs, 1
  {
    if cs != [] {
      var a, a' := ClauseMeaning(With(env, name, small), cs[0], input), ClauseMeaning(With(env, name, large), cs[0], input');
      MonotoneClause(env, name, small, large, cs[0], input, input');
      if a.Rows? && a'.Rows? && a.rows != {} {
        Monotone(env, name, small, large, cs[1..], a.rows, a'.rows);
      }
    }
  }

  lemma {:induction false} MonotoneClause(env: Env, name: string, small: set<Row>, large: set<Row>, c: Clause,
                                          input: set<Binding>, input': set<Binding>)
    requires small <= large && input <= input' && PositiveClause(name, c)
    ensures Below(ClauseMeaning(With(env, name, small), c, input), ClauseMeaning(With(env, name, large), c, input'))
    decreases c, 0
  {
    match c
    case Pattern(_) =>
    case Predicate(_, _, _) =>
      assert forall b :: Holds(With(env, name, small), c, b) == Holds(With(env, name, large), c, b);
    case Not(body) =>
      forall b ensures Meaning(With(env, name, small), body, {b}) == Meaning(With(env, name, large), body, {b}) {
        SameMeaning(With(env, name, small), With(env, name, large), body, {b});
      }
    case Or(branches) => MonotoneOr(env, name, small, large, branches, input, input');
    case Rule(_, _) =>
  }

  lemma {:induction false} MonotoneOr(env: Env, name: string, small: set<Row>, large: set<Row>, branches: seq<Branch>,
                                      input: set<Binding>, input': set<Binding>)
    requires small <= large && input <= input' && PositiveBranches(name, branches)
    ensures Below(OrMeaning(With(env, name, small), branches, input), OrMeaning(With(env, name, large), branches, input'))
    decreases branches, 1
  {
    if branches != [] {
      Monotone(env, name, small, large, branches[0].body, input, input');
      MonotoneOr(env, name, small, large, branches[1..], input, input');
    }
  }

  // ----- passes and fixed points -----

  predicate HeadsBound(args: seq<string>, rows: set<Binding>) {
    forall b, i :: b in rows && 0 <= i < |args| ==> args[i] in b
  }

  function HeadRow(args: seq<string>, b: Binding): Row
    requires forall i :: 0 <= i < |args| ==> args[i] in b
  {
    seq(|args|, i requires 0 <= i < |args| => b[args[i]])
  }

  function HeadRows(args: seq<string>, rows: set<Binding>): set<Row>
    requires HeadsBound(args, rows)
  {
    set b | b in rows :: HeadRow(args, b)
  }

  /** What one definition derives; None when its body fails. */
  function DerivedBy(env: Env, def: Definition): Option<set<Row>> {
    var a := Meaning(env, def.body, {map[]});
    if a.Rows? && HeadsBound(def.args, a.rows) then Some(HeadRows(def.args, a.rows)) else None
  }

  /** What all definitions derive from the same relations. */
  function OnePass(env: Env, defs: seq<Definition>): Option<set<Row>> {
    if defs == [] then Some({})
    else
      var before, last := OnePass(env, defs[..|defs| - 1]), DerivedBy(env, defs[|defs| - 1]);
      if before.Some? && last.Some? then Some(before.value + last.value) else None
  }

  /** The relation after n passes that each add to it. */
  function Iterate(env: Env, name: string, defs: seq<Definition>, n: nat): Option<set<Row>> {
    if n == 0 then Some({})
    else
      var before := Iterate(env, name, defs, n - 1);
      if before.None? then None
      else
        var more := OnePass(With(env, name, before.value), defs);
        if more.None? then None else Some(before.value + more.value)
  }

  /** The tuples are closed: another pass derives nothing new. */
  ghost predicate Closed(env: Env, name: string, defs: seq<Definition>, tuples: set<Row>) {
    var more := OnePass(With(env, name, tuples), defs);
    more.Some? && more.value <= tuples
  }

  /** The inflationary fixed point: reached by passes from nothing, and closed. */
  ghost predicate Settles(env: Env, name: string, defs: seq<Definition>, tuples: set<Row>, n: nat) {
    Iterate(env, name, defs, n) == Some(tuples) && Closed(env, name, defs, tuples)
  }

  predicate AllPositive(name: string, defs: seq<Definition>) {
    forall i :: 0 <= i < |defs| ==> Positive(name, defs[i].body)
  }

  lemma {:induction false} PassMonotone(env: Env, name: string, small: set<Row>, large: set<Row>, defs: seq<Definition>)
    requires small <= large && AllPositive(name, defs)
    requires OnePass(With(env, name, small), defs).Some? && OnePass(With(env, name, large), defs).Some?
    ensures OnePass(With(env, name, small), defs).value <= OnePass(With(env, name, large), defs).value
  {
    if defs != [] {
      PassMonotone(env, name, small, large, defs[..|defs| - 1]);
      Monotone(env, name, small, large, defs[|defs| - 1].body, {map[]}, {map[]});
    }
  }

  /** A rule that does not call itself under a negation settles on the least closed relation. */
  lemma {:induction false} LeastFixpoint(env: Env, name: string, defs: seq<Definition>, tuples: set<Row>, n: nat, closed: set<Row>)
    requires Iterate(env, name, defs, n) == Some(tuples) && AllPositive(name, defs)
    requires Closed(env, name, defs, closed)
    ensures tuples <= closed
  {
    if n > 0 {
      var before := Iterate(env, name, defs, n - 1).value;
      LeastFixpoint(env, name, defs, before, n - 1, closed);
      PassMonotone(env, name, before, closed, defs);
    }
  }

  /** Once settled, further passes change nothing: the fixed point is unique. */
  lemma {:induction false} SettledStays(env: Env, name: string, defs: seq<Definition>, tuples: set<Row>, n: nat, m: nat)
    requires Settles(env, name, defs, tuples, n) && n <= m
    ensures Iterate(env, name, defs, m) == Some(tuples)
  {
    if n < m {
      SettledStays(env, name, defs, tuples, n, m - 1);
      assert tuples + OnePass(With(env, name, tuples), defs).value == tuples;
    }
  }

  // ----- the finite domain -----

  /** Every cell comes from the given ones. */
  ghost predicate CellsIn(rows: set<Row>, cells: set<Value>) {
    forall row, i :: row in rows && 0 <= i < |row| ==> row[i] in cells
  }

  ghost predicate ValuesIn(rows: set<Binding>, cells: set<Value>) {
    forall b, x :: b in rows && x in b ==> b[x] in cells
  }

  ghost predicate EnvIn(env: Env, cells: set<Value>) {
    CellsIn((set row | row in env.facts), cells) && forall name :: name in env.relations ==> CellsIn(env.relations[name], cells)
  }

  lemma {:induction false} MatchCells(inRule: bool, terms: seq<Term>, i: nat, row: Row, b: Binding, cells: set<Value>)
    requires i <= |terms| <= |row| && (forall j :: 0 <= j < |row| ==> row[j] in cells) && (forall x :: x in b ==> b[x] in cells)
    requires MatchFrom(inRule, terms, i, row, b).Some?
    ensures forall x :: x in MatchFrom(inRule, terms, i, row, b).value ==> MatchFrom(inRule, terms, i, row, b).value[x] in cells
    decreases |terms| - i
  {
    if i < |terms| {
      if terms[i].Var? && terms[i].name !in b {
        MatchCells(inRule, terms, i + 1, row, b[terms[i].name := row[i]], cells);
      } else {
        MatchCells(inRule, terms, i + 1, row, b, cells);
      }
    }
  }

  /** Evaluation invents no cells. */
  lemma {:induction false} MeaningCells(env: Env, cs: seq<Clause>, input: set<Binding>, cells: set<Value>)
    requires EnvIn(env, cells) && ValuesIn(input, cells)
    ensures Meaning(env, cs, input).Rows? ==> ValuesIn(Meaning(env, cs, input).rows, cells)
    decreases cs, 1
  {
    if cs != [] {
      ClauseCells(env, cs[0], input, cells);
      var a := ClauseMeaning(env, cs[0], input);
      if a.Rows? { MeaningCells(env, cs[1..], a.rows, cells); }
    }
  }

  lemma RowsCells(inRule: bool, terms: seq<Term>, rows: set<Row>, input: set<Binding>, cells: set<Value>)
    requires CellsIn(rows, cells) && ValuesIn(input, cells)
    ensures ValuesIn((set b, row | b in input && row in rows && Match(inRule, terms, row, b).Some? :: Match(inRule, terms, row, b).value), cells)
  {
    forall b, row | b in input && row in rows && Match(inRule, terms, row, b).Some?
      ensures forall x :: x in Match(inRule, terms, row, b).value ==> Match(inRule, terms, row, b).value[x] in cells
    {
      MatchCells(inRule, terms, 0, row, b, cells);
    }
  }

  lemma {:induction false} ClauseCells(env: Env, c: Clause, input: set<Binding>, cells: set<Value>)
    requires EnvIn(env, cells) && ValuesIn(input, cells)
    ensures ClauseMeaning(env, c, input).Rows? ==> ValuesIn(ClauseMeaning(env, c, input).rows, cells)
    decreases c, 0
  {
    match c
    case Pattern(terms) =>
      var facts := set row | row in env.facts;
      RowsCells(false, terms, facts, input, cells);
      assert PatternRows(env.facts, terms, input)
          == set b, row | b in input && row in facts && Match(false, terms, row, b).Some? :: Match(false, terms, row, b).value;
    case Predicate(_, _, _) =>
    case Not(_) =>
    case Or(branches) => OrCells(env, branches, input, cells);
    case Rule(name, args) => RowsCells(true, args, Tuples(env, name), input, cells);
  }

  lemma {:induction false} OrCells(env: Env, branches: seq<Branch>, input: set<Binding>, cells: set<Value>)
    requires EnvIn(env, cells) && ValuesIn(input, cells)
    ensures OrMeaning(env, branches, input).Rows? ==> ValuesIn(OrMeaning(env, branches, input).rows, cells)
    decreases branches, 1
  {
    if branches != [] {
      MeaningCells(env, branches[0].body, input, cells);
      OrCells(env, branches[1..], input, cells);
    }
  }

  /** All tuples of a length over finitely many cells. */
  function AllRows(cells: set<Value>, n: nat): set<Row> {
    if n == 0 then {[]} else set row, cell | row in AllRows(cells, n - 1) && cell in cells :: row + [cell]
  }

  lemma {:induction false} InAllRows(cells: set<Value>, row: Row)
    requires forall i :: 0 <= i < |row| ==> row[i] in cells
    ensures row in AllRows(cells, |row|)
  {
    if row != [] {
      var n := |row| - 1;
      InAllRows(cells, row[..n]);
      assert row == row[..n] + [row[n]];
    }
  }

  /** A definition derives only tuples of its arity over the known cells. */
  lemma DerivedInDomain(env: Env, def: Definition, cells: set<Value>)
    requires EnvIn(env, cells) && DerivedBy(env, def).Some?
    ensures DerivedBy(env, def).value <= AllRows(cells, |def.args|) && CellsIn(DerivedBy(env, def).value, cells)
  {
    MeaningCells(env, def.body, {map[]}, cells);
    forall row | row in DerivedBy(env, def).value ensures row in AllRows(cells, |def.args|) && forall i :: 0 <= i < |row| ==> row[i] in cells {
      InAllRows(cells, row);
    }
  }

  // ----- fixed points in the final environment -----

  lemma {:induction false} SamePass(env: Env, env': Env, defs: seq<Definition>)
    requires Alike(env, env', AllCalls(defs))
    ensures OnePass(env, defs) == OnePass(env', defs)
  {
    if defs != [] {
      SamePass(env, env', defs[..|defs| - 1]);
      SameMeaning(env, env', defs[|defs| - 1].body, {map[]});
    }
  }

  lemma AlikeWith(env: Env, env': Env, name: string, tuples: set<Row>, calls: set<string>)
    requires Alike(env, env', calls - {name})
    ensures Alike(With(env, name, tuples), With(env', name, tuples), calls)
  {
    forall other | other in calls ensures Tuples(With(env, name, tuples), other) == Tuples(With(env', name, tuples), other) {
      if other != name { assert other in calls - {name}; }
    }
  }

  lemma {:induction false} SameIterate(env: Env, env': Env, name: string, defs: seq<Definition>, n: nat)
    requires Alike(env, env', AllCalls(defs) - {name})
    ensures Iterate(env, name, defs, n) == Iterate(env', name, defs, n)
  {
    if n > 0 {
      SameIterate(env, env', name, defs, n - 1);
      var before := Iterate(env, name, defs, n - 1);
      if before.Some? {
        AlikeWith(env, env', name, before.value, AllCalls(defs));
        SamePass(With(env, name, before.value), With(env', name, before.value), defs);
      }
    }
  }

  /** A settled relation stays settled when other relations that it does not use change. */
  lemma SettlesSame(env: Env, env': Env, name: string, defs: seq<Definition>, tuples: set<Row>, n: nat)
    requires Settles(env, name, defs, tuples, n) && Alike(env, env', AllCalls(defs) - {name})
    ensures Settles(env', name, defs, tuples, n)
  {
    SameIterate(env, env', name, defs, n);
    AlikeWith(env, env', name, tuples, AllCalls(defs));
    SamePass(With(env, name, tuples), With(env', name, tuples), defs);
  }

  // ----- dependencies -----

  type Program = map<string, seq<Definition>>

  /** Rule `a` needs rule `b` derived first. */
  predicate Needs(rules: Program, a: string, b: string) {
    a in rules && b in AllCalls(rules[a]) && a != b
  }

  /** A cycle longer than one. */
  ghost predicate IsCycle(rules: Program, cycle: seq<string>) {
    && |cycle| >= 2
    && (forall i, j :: 0 <= i < j < |cycle| && j == i + 1 ==> Needs(rules, cycle[i], cycle[j]))
    && Needs(rules, cycle[|cycle| - 1], cycle[0])
  }

  /** Every rule comes after the rules it needs. */
  ghost predicate InOrder(rules: Program, order: seq<string>) {
    && (forall i, j :: 0 <= i < j < |order| ==> order[i] != order[j])
    && forall i, b :: 0 <= i < |order| && Needs(rules, order[i], b) ==> b in order[..i]
  }

  lemma NeededBefore(rules: Program, order: seq<string>, i: nat, b: string) returns (j: nat)
    requires InOrder(rules, order) && i < |order| && Needs(rules, order[i], b)
    ensures j < i && order[j] == b
  {
    j :| 0 <= j < i && order[..i][j] == b;
  }

  lemma {:induction false} WalkDown(rules: Program, order: seq<string>, cycle: seq<string>, n: nat, start: nat) returns (at: nat)
    requires InOrder(rules, order) && n < |cycle| && start < |order| && order[start] == cycle[0]
    requires forall i, j :: 0 <= i < j < |cycle| && j == i + 1 ==> Needs(rules, cycle[i], cycle[j])
    ensures at <= start && order[at] == cycle[n]
  {
    if n == 0 {
      at := start;
    } else {
      var before := WalkDown(rules, order, cycle, n - 1, start);
      assert Needs(rules, cycle[n - 1], cycle[n]);
      at := NeededBefore(rules, order, before, cycle[n]);
    }
  }

  /** Rules that have an order have no cycle. */
  lemma OrderExcludesCycle(rules: Program, order: seq<string>, cycle: seq<string>)
    requires InOrder(rules, order) && (forall name :: name in rules ==> name in order)
    ensures !IsCycle(rules, cycle)
  {
    if IsCycle(rules, cycle) {
      assert Needs(rules, cycle[0], cycle[1]);
      var start :| 0 <= start < |order| && order[start] == cycle[0];
      var last := WalkDown(rules, order, cycle, |cycle| - 1, start);
      var again := NeededBefore(rules, order, last, cycle[0]);
    }
  }
}
