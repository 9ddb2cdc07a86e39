/** Scoping: the check that is made before a query runs, the check that would suffice, and exactly
    when a query that passes the first can still meet an unbound variable. */
module Scoping {
  import opened Facts
  import opened Query

  // ----- the check -----

  /** The static check: the variables bound after the clauses, or None if a predicate operand
      is unbound, a negation uncorrelated, or the branches of an `or` bind different variables. */
  function Validate(cs: seq<Clause>, bound: set<string>): Option<set<string>>
    decreases cs
  {
    if cs == [] then Some(bound)
    else
      match ValidateClause(cs[0], bound)
      case None => None
      case Some(after) => Validate(cs[1..], after)
  }

  function ValidateClause(c: Clause, bound: set<string>): Option<set<string>>
    decreases c
  {
    match c
    case Pattern(terms) => if WellSized(terms) then Some(bound + Counted(terms)) else None
    case Predicate(_, _, _) => if ClauseVars(c) <= bound then Some(bound) else None
    case Not(body) => if bound * BodyVars(body) != {} && Validate(body, bound).Some? then Some(bound) else None
    case Or(branches) => if branches == [] then None else ValidateOr(branches, bound)
    case Rule(_, args) => Some(bound + Counted(args))
  }

  function ValidateOr(branches: seq<Branch>, bound: set<string>): Option<set<string>>
    requires branches != []
    decreases branches
  {
    var first := Validate(branches[0].body, bound);
    if |branches| == 1 || first.None? then first
    else if ValidateOr(branches[1..], bound) == first then first
    else None
  }

  ghost predicate BindExactly(rows: set<Binding>, vars: set<string>) {
    forall b :: b in rows ==> b.Keys == vars
  }

  lemma MatchBinds(inRule: bool, terms: seq<Term>, row: Row, b: Binding)
    requires Match(inRule, terms, row, b).Some?
    ensures Match(inRule, terms, row, b).value.Keys == b.Keys + TermVars(terms)
  {
    MatchExactly(inRule, terms, row, b, Match(inRule, terms, row, b).value);
  }

  /** Along the check, no constant holds a text that is counted as newly bound. */
  ghost predicate Honest(cs: seq<Clause>, bound: set<string>)
    decreases cs
  {
    cs == [] || (HonestClause(cs[0], bound)
      && (ValidateClause(cs[0], bound).Some? ==> Honest(cs[1..], ValidateClause(cs[0], bound).value)))
  }

  ghost predicate HonestClause(c: Clause, bound: set<string>)
    decreases c
  {
    match c
    case Pattern(terms) => Counted(terms) <= bound + TermVars(terms)
    case Rule(_, args) => Counted(args) <= bound + TermVars(args)
    case Predicate(_, _, _) => true
    case Not(body) => Honest(body, bound)
    case Or(branches) => forall branch :: branch in branches ==> Honest(branch.body, bound)
  }

  /** What running needs: the same walk, with the variables that matching really binds.  Texts
      inside constants bind nothing, and a comparison does not look at them. */
  function Strict(cs: seq<Clause>, bound: set<string>): Option<set<string>>
    decreases cs
  {
    if cs == [] then Some(bound)
    else
      match StrictClause(cs[0], bound)
      case None => None
      case Some(after) => Strict(cs[1..], after)
  }

  function OperandNames(t: Operand): set<string> {
    if t.Bound? then {t.name} else {}
  }

  function StrictClause(c: Clause, bound: set<string>): Option<set<string>>
    decreases c
  {
    match c
    case Pattern(terms) => if WellSized(terms) then Some(bound + TermVars(terms)) else None
    case Predicate(_, l, r) => if OperandNames(l) + OperandNames(r) <= bound then Some(bound) else None
    case Not(body) => if bound * BodyVars(body) != {} && Strict(body, bound).Some? then Some(bound) else None
    case Or(branches) => if branches == [] then None else StrictOr(branches, bound)
    case Rule(_, args) => Some(bound + TermVars(args))
  }

  function StrictOr(branches: seq<Branch>, bound: set<string>): Option<set<string>>
    requires branches != []
    decreases branches
  {
    var first := Strict(branches[0].body, bound);
    if |branches| == 1 || first.None? then first
    else if StrictOr(branches[1..], bound) == first then first
    else None
  }

  /** Clauses that the strict check accepts never meet an unbound operand or an uncorrelated
      negation, and every binding of the answer binds exactly the variables it announces. */
  lemma {:induction false} StrictSound(env: Env, cs: seq<Clause>, bound: set<string>, input: set<Binding>)
    requires Strict(cs, bound).Some? && BindExactly(input, bound)
    ensures !Meaning(env, cs, input).Unsafe?
    ensures Meaning(env, cs, input).Rows? ==> BindExactly(Meaning(env, cs, input).rows, Strict(cs, bound).value)
    decreases cs, 1
  {
    if cs != [] {
      StrictClauseSound(env, cs[0], bound, input);
      var a := ClauseMeaning(env, cs[0], input);
      if a.Rows? && a.rows != {} {
        StrictSound(env, cs[1..], StrictClause(cs[0], bound).value, a.rows);
      }
    }
  }

  lemma {:induction false} StrictClauseSound(env: Env, c: Clause, bound: set<string>, input: set<Binding>)
    requires StrictClause(c, bound).Some? && BindExactly(input, bound)
    ensures !ClauseMeaning(env, c, input).Unsafe?
    ensures ClauseMeaning(env, c, input).Rows? ==> BindExactly(ClauseMeaning(env, c, input).rows, StrictClause(c, bound).value)
    decreases c, 0
  {
    match c
    case Pattern(terms) =>
      forall b, row | b in input && row in env.facts && Match(false, terms, row, b).Some?
        ensures Match(false, terms, row, b).value.Keys == bound + TermVars(terms)
      {
        MatchBinds(false, terms, row, b);
      }
    case Predicate(_, l, r) =>
      assert forall b :: b in input ==> Operable(c, b) by {
        assert l.Bound? ==> l.name in OperandNames(l);
        assert r.Bound? ==> r.name in OperandNames(r);
      }
    case Not(body) =>
      forall b | b in input ensures Correlated(body, b) && !Meaning(env, body, {b}).Unsafe? {
        StrictSound(env, body, bound, {b});
      }
    case Or(branches) =>
      StrictOrSound(env, branches, bound, input);
    case Rule(name, args) =>
      if ClauseMeaning(env, c, input).Rows? {
        forall b, row | b in input && row in Tuples(env, name) && Match(true, args, row, b).Some?
          ensures Match(true, args, row, b).value.Keys == bound + TermVars(args)
        {
          MatchBinds(true, args, row, b);
        }
      }
  }

  lemma {:induction false} StrictOrSound(env: Env, branches: seq<Branch>, bound: set<string>, input: set<Binding>)
    requires branches != [] && StrictOr(branches, bound).Some? && BindExactly(input, bound)
    ensures !OrMeaning(env, branches, input).Unsafe?
    ensures OrMeaning(env, branches, input).Rows? ==> BindExactly(OrMeaning(env, branches, input).rows, StrictOr(branches, bound).value)
    decreases branches, 1
  {
    StrictSound(env, branches[0].body, bound, input);
    if |branches| > 1 {
      StrictOrSound(env, branches[1..], bound, input);
    } else {
      assert branches[1..] == [];
    }
  }

  // ----- honest clauses -----

  /** Where no constant hides a variable, the check made before a run is strict enough. */
  lemma {:induction false} HonestStrict(cs: seq<Clause>, bound: set<string>)
    requires Validate(cs, bound).Some? && Honest(cs, bound)
    ensures Strict(cs, bound) == Validate(cs, bound)
    decreases cs, 1
  {
    if cs != [] {
      HonestClauseStrict(cs[0], bound);
      HonestStrict(cs[1..], ValidateClause(cs[0], bound).value);
    }
  }

  lemma {:induction false} HonestClauseStrict(c: Clause, bound: set<string>)
    requires ValidateClause(c, bound).Some? && HonestClause(c, bound)
    ensures StrictClause(c, bound) == ValidateClause(c, bound)
    decreases c, 0
  {
    match c
    case Pattern(terms) => assert bound + Counted(terms) == bound + TermVars(terms);
    case Rule(_, args) => assert bound + Counted(args) == bound + TermVars(args);
    case Predicate(_, l, r) =>
      assert OperandNames(l) <= OperandVars(l) && OperandNames(r) <= OperandVars(r);
    case Not(body) => HonestStrict(body, bound);
    case Or(branches) => HonestOrStrict(branches, bound);
  }

  lemma {:induction false} HonestOrStrict(branches: seq<Branch>, bound: set<string>)
    requires branches != [] && ValidateOr(branches, bound).Some? && forall branch :: branch in branches ==> Honest(branch.body, bound)
    ensures StrictOr(branches, bound) == ValidateOr(branches, bound)
    decreases branches, 1
  {
    HonestStrict(branches[0].body, bound);
    if |branches| > 1 { HonestOrStrict(branches[1..], bound); }
  }

  /** Scoping is sound: where the check accepts honest clauses, no run meets an unbound operand or an
      uncorrelated negation, and every binding of the answer binds exactly the variables the
      check announced. */
  lemma ScopingSound(env: Env, cs: seq<Clause>, bound: set<string>, input: set<Binding>)
    requires Validate(cs, bound).Some? && Honest(cs, bound) && BindExactly(input, bound)
    ensures !Meaning(env, cs, input).Unsafe?
    ensures Meaning(env, cs, input).Rows? ==> BindExactly(Meaning(env, cs, input).rows, Validate(cs, bound).value)
  {
    HonestStrict(cs, bound);
    StrictSound(env, cs, bound, input);
  }

  // ----- the strict check asks for no more than runs need -----

  /** Patterns, comparisons and rule calls only. */
  predicate Straight(cs: seq<Clause>) {
    forall c :: c in cs ==> c.Pattern? || c.Predicate? || c.Rule?
  }

  /** A rule is called with one number of arguments, and a constant that is matched as an entity
      denotes one. */
  ghost predicate Coherent(cs: seq<Clause>) {
    && (forall c, d :: c in cs && d in cs && c.Rule? && d.Rule? && c.name == d.name ==> |c.args| == |d.args|)
    && (forall c :: c in cs && c.Rule? ==> forall t :: t in c.args && t.Const? ==> t.entity.tag == TAG_REF)
  }

  const Any := Value(TAG_REF, 0)

  /** The binding that gives every variable the same value. */
  function AllSame(vars: set<string>): Binding {
    map x | x in vars :: Any
  }

  function CellFor(inRule: bool, t: Term, i: nat): Value {
    if !t.Const? then Any
    else if (if inRule then t.plain.tag == TAG_REF else i == 0 || i == 1 || i == 3) then t.entity
    else t.plain
  }

  /** A row that the terms match. */
  function RowFor(inRule: bool, terms: seq<Term>, n: nat): Row {
    seq(n, i requires 0 <= i < n => if i < |terms| then CellFor(inRule, terms[i], i) else Any)
  }

  lemma RowFits(inRule: bool, terms: seq<Term>, n: nat, bound: set<string>)
    requires |terms| <= n && (inRule ==> forall t :: t in terms && t.Const? ==> t.entity.tag == TAG_REF)
    ensures Match(inRule, terms, RowFor(inRule, terms, n), AllSame(bound)) == Some(AllSame(bound + TermVars(terms)))
  {
    var row, after := RowFor(inRule, terms, n), AllSame(bound + TermVars(terms));
    forall j | 0 <= j < |terms| ensures TermAgrees(inRule, terms[j], j, row[j], after) {
      assert terms[j] in terms;
      assert terms[j].Var? ==> terms[j].name in TermVars(terms);
    }
    MatchExactly(inRule, terms, row, AllSame(bound), after);
  }

  /** An environment in which every clause of the list finds a row. */
  ghost predicate Welcomes(env: Env, cs: seq<Clause>) {
    && (forall c :: c in cs && c.Pattern? ==> WellSized(c.terms) && RowFor(false, c.terms, 5) in env.facts)
    && (forall c :: c in cs && c.Rule? ==>
          && c.name in env.arity && env.arity[c.name] == |c.args| && RowFor(true, c.args, |c.args|) in Tuples(env, c.name)
          && forall t :: t in c.args && t.Const? ==> t.entity.tag == TAG_REF)
    && (forall op, l, r :: env.compare(op, l, r) == Some(true))
  }

  /** In such an environment a list that the strict check rejects runs into an unbound operand. */
  lemma {:induction false} RejectedIsUnsafe(env: Env, cs: seq<Clause>, bound: set<string>, rows: set<Binding>)
    requires Straight(cs) && Welcomes(env, cs) && Strict(cs, bound).None? && BindExactly(rows, bound) && AllSame(bound) in rows
    ensures Meaning(env, cs, rows).Unsafe?
  {
    var c := cs[0];
    assert c in cs;
    assert forall d :: d in cs[1..] ==> d in cs;
    match c
    case Predicate(_, l, r) =>
      if StrictClause(c, bound).None? {
        assert !Operable(c, AllSame(bound));
      } else {
        PredicatePasses(env, c, bound, rows);
        RejectedIsUnsafe(env, cs[1..], bound, rows);
      }
    case Pattern(terms) =>
      StrictClauseSound(env, c, bound, rows);
      RowFits(false, terms, 5, bound);
      var next := PatternRows(env.facts, terms, rows);
      assert AllSame(bound + TermVars(terms)) in next;
      RejectedIsUnsafe(env, cs[1..], bound + TermVars(terms), next);
    case Rule(name, args) =>
      StrictClauseSound(env, c, bound, rows);
      RowFits(true, args, |args|, bound);
      var next := RuleRows(Tuples(env, name), args, rows);
      assert AllSame(bound + TermVars(args)) in next;
      RejectedIsUnsafe(env, cs[1..], bound + TermVars(args), next);
  }

  lemma PredicatePasses(env: Env, c: Clause, bound: set<string>, rows: set<Binding>)
    requires c.Predicate? && StrictClause(c, bound).Some? && BindExactly(rows, bound)
    requires forall op, l, r :: env.compare(op, l, r) == Some(true)
    ensures ClauseMeaning(env, c, rows) == Rows(rows)
  {
    forall b | b in rows ensures Operable(c, b) && Holds(env, c, b) == Some(true) {
      assert c.left.Bound? ==> c.left.name in OperandNames(c.left);
      assert c.right.Bound? ==> c.right.name in OperandNames(c.right);
    }
  }

  /** The facts and tuples that the clauses of a list look for. */
  function FactsFor(cs: seq<Clause>): seq<Row> {
    if cs == [] then []
    else FactsFor(cs[..|cs| - 1]) + (if cs[|cs| - 1].Pattern? then [RowFor(false, cs[|cs| - 1].terms, 5)] else [])
  }

  lemma {:induction false} FactsAre(cs: seq<Clause>, c: Clause)
    requires c in cs && c.Pattern?
    ensures RowFor(false, c.terms, 5) in FactsFor(cs)
  {
    var n := |cs| - 1;
    if c != cs[n] {
      assert c in cs[..n];
      FactsAre(cs[..n], c);
    }
  }

  lemma {:induction false} FactsSized(cs: seq<Clause>)
    ensures RowsSized(FactsFor(cs))
  {
    if cs != [] { FactsSized(cs[..|cs| - 1]); }
  }

  function RuleNames(cs: seq<Clause>): set<string> {
    set c | c in cs && c.Rule? :: c.name
  }

  function TuplesFor(cs: seq<Clause>, name: string): set<Row> {
    set c | c in cs && c.Rule? && c.name == name :: RowFor(true, c.args, |c.args|)
  }

  function ArityIn(cs: seq<Clause>, name: string): nat {
    if cs == [] then 0
    else if cs[0].Rule? && cs[0].name == name then |cs[0].args|
    else ArityIn(cs[1..], name)
  }

  lemma {:induction false} ArityIs(cs: seq<Clause>, c: Clause)
    requires c in cs && c.Rule? && forall d :: d in cs && d.Rule? && d.name == c.name ==> |d.args| == |c.args|
    ensures ArityIn(cs, c.name) == |c.args|
  {
    assert cs[0] in cs;
    if !(cs[0].Rule? && cs[0].name == c.name) {
      ArityIs(cs[1..], c);
    }
  }

  function Stage(cs: seq<Clause>): Env {
    Env(FactsFor(cs), map name | name in RuleNames(cs) :: ArityIn(cs, name), map name | name in RuleNames(cs) :: TuplesFor(cs, name),
        (op: string, l: Value, r: Value) => Some(true))
  }

  lemma StageWelcomes(cs: seq<Clause>)
    requires Coherent(cs) && forall c :: c in cs && c.Pattern? ==> WellSized(c.terms)
    ensures Welcomes(Stage(cs), cs) && RowsSized(Stage(cs).facts)
  {
    FactsSized(cs);
    forall c | c in cs && c.Pattern? ensures RowFor(false, c.terms, 5) in FactsFor(cs) {
      FactsAre(cs, c);
    }
    forall c | c in cs && c.Rule? ensures c.name in RuleNames(cs) && ArityIn(cs, c.name) == |c.args| && RowFor(true, c.args, |c.args|) in TuplesFor(cs, c.name) {
      ArityIs(cs, c);
    }
  }

  lemma {:induction false} ValidSizes(cs: seq<Clause>, bound: set<string>, c: Clause)
    requires Validate(cs, bound).Some? && c in cs && c.Pattern?
    ensures WellSized(c.terms)
  {
    if c != cs[0] {
      assert c in cs[1..];
      ValidSizes(cs[1..], ValidateClause(cs[0], bound).value, c);
    }
  }

  /** Scoping, exactly: of the straight queries that the check accepts, those that never meet an
      unbound variable, whatever the facts, the rules and the input, are the ones that the strict
      check accepts as well. */
  lemma ScopingExactly(cs: seq<Clause>, bound: set<string>)
    requires Straight(cs) && Coherent(cs) && Validate(cs, bound).Some?
    ensures Strict(cs, bound).Some? <==>
      forall env: Env, input :: RowsSized(env.facts) && BindExactly(input, bound) ==> !Meaning(env, cs, input).Unsafe?
  {
    if Strict(cs, bound).Some? {
      forall env: Env, input | RowsSized(env.facts) && BindExactly(input, bound) ensures !Meaning(env, cs, input).Unsafe? {
        StrictSound(env, cs, bound, input);
      }
    } else {
      forall c | c in cs && c.Pattern? ensures WellSized(c.terms) {
        ValidSizes(cs, bound, c);
      }
      StageWelcomes(cs);
      var input := {AllSame(bound)};
      RejectedIsUnsafe(Stage(cs), cs, bound, input);
      assert BindExactly(input, bound);
    }
  }

  /** The excluded query: a constant holds a text that looks like a variable, and a predicate uses
      that variable.  The check accepts, and the run meets an unbound operand on any matching row. */
  lemma HiddenVariableUnbound(env: Env, row: Row, x: string, c: Value, op: string)
    requires row in env.facts && |row| == 5
    ensures var cs := [Pattern([Blank, Blank, Const(row[2], row[2], {x})]), Predicate(op, Bound(x), Literal(c, {}))];
      && Validate(cs, {}) == Some({x}) && Meaning(env, cs, {map[]}) == Unsafe && Strict(cs, {}).None? && !Honest(cs, {})
  {
    var terms := [Blank, Blank, Const(row[2], row[2], {x})];
    var p, q := Pattern(terms), Predicate(op, Bound(x), Literal(c, {}));
    var cs := [p, q];
    assert terms[2] in terms && TermVars(terms) == {} && Counted(terms) == {x};
    assert cs[1..] == [q] && [q][1..] == [];
    assert {} + TermVars(terms) == {} && StrictClause(p, {}) == Some({}) && OperandNames(q.left) == {x};
    assert StrictClause(q, {}) == None && Strict([q], {}) == None;
    assert Validate(cs, {}) == Validate([q], {x});
    assert ClauseVars(q) == {x};
    assert ValidateClause(q, {x}) == Some({x}) && Validate([], {x}) == Some({x});
    assert Validate([q], {x}) == Some({x});
    var rows := PatternRows(env.facts, terms, {map[]});
    MatchExactly(false, terms, row, map[], map[]);
    assert Match(false, terms, row, map[]) == Some(map[]) && map[] in rows;
    assert ClauseMeaning(env, p, {map[]}) == Rows(rows);
    var none: Binding := map[];
    assert !Operable(q, none) && none in rows;
    assert Meaning(env, cs, {map[]}) == Meaning(env, [q], rows);
    assert ClauseMeaning(env, q, rows) == Unsafe;
  }

  // ----- without structured constants -----

  /** No constant holds a text that looks like a variable. */
  ghost predicate Opaque(cs: seq<Clause>)
    decreases cs
  {
    forall c :: c in cs ==> OpaqueClause(c)
  }

  ghost predicate OpaqueClause(c: Clause)
    decreases c
  {
    match c
    case Pattern(terms) => forall t :: t in terms && t.Const? ==> t.inside == {}
    case Predicate(_, l, r) => (l.Literal? ==> l.inside == {}) && (r.Literal? ==> r.inside == {})
    case Not(body) => Opaque(body)
    case Or(branches) => forall branch :: branch in branches ==> Opaque(branch.body)
    case Rule(_, args) => forall t :: t in args && t.Const? ==> t.inside == {}
  }

  /** Where no constant holds such a text, the check that is made is the check that suffices. */
  lemma {:induction false} ChecksAgree(cs: seq<Clause>, bound: set<string>)
    requires Opaque(cs)
    ensures Validate(cs, bound) == Strict(cs, bound)
    decreases cs, 1
  {
    if cs != [] {
      assert cs[0] in cs && forall c :: c in cs[1..] ==> c in cs;
      ClauseChecksAgree(cs[0], bound);
      if StrictClause(cs[0], bound).Some? { ChecksAgree(cs[1..], StrictClause(cs[0], bound).value); }
    }
  }

  lemma {:induction false} ClauseChecksAgree(c: Clause, bound: set<string>)
    requires OpaqueClause(c)
    ensures ValidateClause(c, bound) == StrictClause(c, bound)
    decreases c, 0
  {
    match c
    case Pattern(terms) => assert Counted(terms) == TermVars(terms);
    case Predicate(_, l, r) => assert OperandVars(l) == OperandNames(l) && OperandVars(r) == OperandNames(r);
    case Not(body) => ChecksAgree(body, bound);
    case Or(branches) => if branches != [] { BranchChecksAgree(branches, bound); }
    case Rule(_, args) => assert Counted(args) == TermVars(args);
  }

  lemma {:induction false} BranchChecksAgree(branches: seq<Branch>, bound: set<string>)
    requires branches != [] && forall branch :: branch in branches ==> Opaque(branch.body)
    ensures ValidateOr(branches, bound) == StrictOr(branches, bound)
    decreases branches, 0
  {
    assert branches[0] in branches && forall branch :: branch in branches[1..] ==> branch in branches;
    ChecksAgree(branches[0].body, bound);
    if |branches| > 1 { BranchChecksAgree(branches[1..], bound); }
  }

  // ----- what the check accepts -----

  /** The text is counted in terms: as a variable, or inside a constant. */
  predicate CountedIn(terms: seq<Term>, x: string) {
    exists t :: t in terms && (t == Var(x) || (t.Const? && x in t.inside))
  }

  predicate CountedOperand(t: Operand, x: string) {
    t == Bound(x) || (t.Literal? && x in t.inside)
  }

  /** A pattern or a rule call provides the texts counted in it. */
  predicate Provides(c: Clause, x: string) {
    (c.Pattern? && CountedIn(c.terms, x)) || (c.Rule? && CountedIn(c.args, x))
  }

  ghost predicate ProvidedBy(cs: seq<Clause>, bound: set<string>, x: string) {
    x in bound || exists c :: c in cs && Provides(c, x)
  }

  /** Proper patterns, and comparisons of what was provided before them. */
  ghost predicate Accepted(cs: seq<Clause>, bound: set<string>) {
    && (forall c :: c in cs && c.Pattern? ==> 3 <= |c.terms| <= 5)
    && (forall i, x :: 0 <= i < |cs| && cs[i].Predicate? && (CountedOperand(cs[i].left, x) || CountedOperand(cs[i].right, x)) ==>
          ProvidedBy(cs[..i], bound, x))
  }

  /** Patterns, comparisons and rule calls are accepted if and only if each pattern is proper and
      each comparison speaks of what was provided before it; the variables announced are all those
      provided. */
  lemma {:induction false} StraightExactly(cs: seq<Clause>, bound: set<string>)
    requires Straight(cs)
    ensures Validate(cs, bound).Some? <==> Accepted(cs, bound)
    ensures Validate(cs, bound).Some? ==> forall x :: x in Validate(cs, bound).value <==> ProvidedBy(cs, bound, x)
  {
    if cs != [] {
      var c, rest := cs[0], cs[1..];
      assert c in cs && forall d :: d in cs <==> d == c || d in rest;
      FirstProvides(c, bound);
      if ValidateClause(c, bound).Some? {
        var more := ValidateClause(c, bound).value;
        StraightExactly(rest, more);
        forall x ensures ProvidedBy(cs, bound, x) <==> ProvidedBy(rest, more, x) {
        }
        RestAccepted(cs, bound, more);
      } else if c.Predicate? {
        var x :| x in ClauseVars(c) && x !in bound;
        assert CountedOperand(c.left, x) || CountedOperand(c.right, x);
        assert !ProvidedBy(cs[..0], bound, x);
      }
    }
  }

  lemma FirstProvides(c: Clause, bound: set<string>)
    requires c.Pattern? || c.Predicate? || c.Rule?
    ensures ValidateClause(c, bound).Some? <==>
      && (c.Pattern? ==> 3 <= |c.terms| <= 5)
      && (c.Predicate? ==> forall x :: CountedOperand(c.left, x) || CountedOperand(c.right, x) ==> x in bound)
    ensures ValidateClause(c, bound).Some? ==> forall x :: x in ValidateClause(c, bound).value <==> x in bound || Provides(c, x)
  {
    if c.Pattern? { CountedExactly(c.terms); }
    if c.Rule? { CountedExactly(c.args); }
    if c.Predicate? {
      assert forall x :: x in ClauseVars(c) <==> CountedOperand(c.left, x) || CountedOperand(c.right, x);
    }
  }

  lemma CountedExactly(terms: seq<Term>)
    ensures forall x :: x in Counted(terms) <==> CountedIn(terms, x)
  {
    assert forall x :: x in TermVars(terms) <==> Var(x) in terms;
  }

  lemma RestAccepted(cs: seq<Clause>, bound: set<string>, more: set<string>)
    requires cs != [] && ValidateClause(cs[0], bound) == Some(more) && (cs[0].Pattern? || cs[0].Predicate? || cs[0].Rule?)
    ensures Accepted(cs, bound) <==> Accepted(cs[1..], more)
  {
    var c, rest := cs[0], cs[1..];
    FirstProvides(c, bound);
    hide Provides, CountedOperand, ValidateClause;
    assert forall d :: d in cs <==> d == c || d in rest;
    forall i, x | 0 <= i < |rest| ensures ProvidedBy(cs[..i + 1], bound, x) <==> ProvidedBy(rest[..i], more, x) {
      assert cs[..i + 1] == [c] + rest[..i];
    }
    if Accepted(cs, bound) {
      forall i, x | 0 <= i < |rest| && rest[i].Predicate? && (CountedOperand(rest[i].left, x) || CountedOperand(rest[i].right, x))
        ensures ProvidedBy(rest[..i], more, x)
      {
        assert cs[i + 1] == rest[i];
      }
    }
    if Accepted(rest, more) {
      forall i, x | 0 <= i < |cs| && cs[i].Predicate? && (CountedOperand(cs[i].left, x) || CountedOperand(cs[i].right, x))
        ensures ProvidedBy(cs[..i], bound, x)
      {
        if i > 0 { assert cs[i] == rest[i - 1]; }
      }
    }
  }
}
