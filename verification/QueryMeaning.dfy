/** What each kind of clause answers, said of bindings and rows one by one, and what the planned
    order minimises. */
module QueryMeaning {
  import opened Facts
  import opened Query

  // ----- one clause -----

  /** The binding adds exactly the variables among the terms. */
  ghost predicate Adds(terms: seq<Term>, b: Binding, b': Binding) {
    && (forall x :: x in b' <==> x in b || Var(x) in terms)
    && (forall x :: x in b ==> b'[x] == b[x])
  }

  /** A pattern is answered by the bindings that add its variables so that some datom shows, place
      by place, the bound cells and the constants: as entities in the entity, attribute and
      transaction places, as plain values elsewhere. */
  lemma PatternMeans(env: Env, terms: seq<Term>, input: set<Binding>, b': Binding)
    requires WellSized(terms)
    ensures ClauseMeaning(env, Pattern(terms), input).Rows?
    ensures b' in ClauseMeaning(env, Pattern(terms), input).rows <==>
      exists b, row :: b in input && row in env.facts && |terms| <= |row| && Adds(terms, b, b') && Shows(terms, row, b')
  {
    forall b, row | b in input && row in env.facts && |terms| <= |row|
      ensures Match(false, terms, row, b) == Some(b') <==> Adds(terms, b, b') && Shows(terms, row, b')
    {
      MatchExactly(false, terms, row, b, b');
      AddsExtends(terms, b, b');
      assert forall j :: 0 <= j < |terms| ==> (TermAgrees(false, terms[j], j, row[j], b') <==> ShowsAt(terms[j], j, row[j], b'));
    }
    if b, row :| b in input && row in env.facts && |terms| <= |row| && Adds(terms, b, b') && Shows(terms, row, b') {
      assert Match(false, terms, row, b) == Some(b');
    }
  }

  ghost predicate Shows(terms: seq<Term>, row: Row, b: Binding)
    requires |terms| <= |row|
  {
    forall j :: 0 <= j < |terms| ==> ShowsAt(terms[j], j, row[j], b)
  }

  ghost predicate ShowsAt(t: Term, j: nat, cell: Value, b: Binding) {
    match t
    case Blank => true
    case Var(x) => x in b && b[x] == cell
    case Const(entity, plain, _) => cell == (if j in {0, 1, 3} then entity else plain)
  }

  lemma AddsExtends(terms: seq<Term>, b: Binding, b': Binding)
    ensures Adds(terms, b, b') <==> Extends(b, b', TermVars(terms))
  {
    assert forall x :: x in TermVars(terms) <==> Var(x) in terms;
  }

  /** A rule is answered by the tuples of its relation in the same way; a constant is an entity
      where the tuple holds a reference. */
  lemma RuleMeans(env: Env, name: string, args: seq<Term>, input: set<Binding>, b': Binding)
    requires name in env.arity && env.arity[name] == |args|
    ensures ClauseMeaning(env, Rule(name, args), input).Rows?
    ensures b' in ClauseMeaning(env, Rule(name, args), input).rows <==>
      name in env.relations && exists b, row :: b in input && row in env.relations[name] && |args| <= |row| && Adds(args, b, b') && Tells(args, row, b')
  {
    forall b, row | b in input && row in Tuples(env, name) && |args| <= |row|
      ensures Match(true, args, row, b) == Some(b') <==> Adds(args, b, b') && Tells(args, row, b')
    {
      MatchExactly(true, args, row, b, b');
      AddsExtends(args, b, b');
      assert forall j :: 0 <= j < |args| ==> (TermAgrees(true, args[j], j, row[j], b') <==> TellsAt(args[j], row[j], b'));
    }
    if name in env.relations {
      if b, row :| b in input && row in env.relations[name] && |args| <= |row| && Adds(args, b, b') && Tells(args, row, b') {
        assert Match(true, args, row, b) == Some(b');
      }
    }
  }

  ghost predicate Tells(args: seq<Term>, row: Row, b: Binding)
    requires |args| <= |row|
  {
    forall j :: 0 <= j < |args| ==> TellsAt(args[j], row[j], b)
  }

  ghost predicate TellsAt(t: Term, cell: Value, b: Binding) {
    match t
    case Blank => true
    case Var(x) => x in b && b[x] == cell
    case Const(entity, plain, _) => cell == (if cell.tag == TAG_REF then entity else plain)
  }

  /** The value an operand has under a binding. */
  ghost predicate Has(t: Operand, b: Binding, v: Value) {
    match t
    case Literal(value, _) => v == value
    case Bound(x) => x in b && v == b[x]
  }

  /** A comparison keeps the bindings under which it holds of its two operands, left and right. */
  lemma PredicateMeans(env: Env, op: string, left: Operand, right: Operand, input: set<Binding>)
    ensures var a := ClauseMeaning(env, Predicate(op, left, right), input);
      && (a.Unsafe? <==> exists b :: b in input && !(exists l, r :: Has(left, b, l) && Has(right, b, r)))
      && (a.Rows? ==> forall b :: b in a.rows <==>
            b in input && exists l, r :: Has(left, b, l) && Has(right, b, r) && env.compare(op, l, r) == Some(true))
  {
    var c := Predicate(op, left, right);
    forall b ensures Operable(c, b) <==> exists l, r :: Has(left, b, l) && Has(right, b, r) {
      if Operable(c, b) {
        assert Has(left, b, OperandValue(left, b).value) && Has(right, b, OperandValue(right, b).value);
      }
    }
    forall b ensures Holds(env, c, b) == Some(true) <==> exists l, r :: Has(left, b, l) && Has(right, b, r) && env.compare(op, l, r) == Some(true) {
      if Holds(env, c, b) == Some(true) {
        assert Has(left, b, OperandValue(left, b).value) && Has(right, b, OperandValue(right, b).value);
      }
    }
  }

  /** A negation keeps the bindings that its body answers with nothing. */
  lemma NotMeans(env: Env, body: seq<Clause>, input: set<Binding>)
    ensures var a := ClauseMeaning(env, Not(body), input);
      a.Rows? ==> forall b :: b in a.rows <==> b in input && Answered(Meaning(env, body, {b})) == {}
  {
    var a := ClauseMeaning(env, Not(body), input);
    if a.Rows? {
      forall b | b in input ensures b in a.rows <==> Answered(Meaning(env, body, {b})) == {} {
        assert Meaning(env, body, {b}).Rows?;
      }
    }
  }

  function Answered(a: Answer): set<Binding> {
    if a.Rows? then a.rows else {}
  }

  /** A disjunction answers what some branch answers. */
  lemma {:induction false} OrMeans(env: Env, branches: seq<Branch>, input: set<Binding>)
    ensures OrMeaning(env, branches, input).Unsafe? <==> exists i :: 0 <= i < |branches| && Meaning(env, branches[i].body, input).Unsafe?
    ensures OrMeaning(env, branches, input).Rows? ==> forall b :: b in OrMeaning(env, branches, input).rows <==>
      exists i :: 0 <= i < |branches| && b in Answered(Meaning(env, branches[i].body, input))
  {
    if branches != [] {
      var first, rest := Meaning(env, branches[0].body, input), OrMeaning(env, branches[1..], input);
      OrMeans(env, branches[1..], input);
      assert forall i :: 0 < i < |branches| ==> branches[i] == branches[1..][i - 1];
      if first.Rows? && rest.Rows? {
        forall b ensures b in first.rows + rest.rows <==>
          exists i :: 0 <= i < |branches| && b in Answered(Meaning(env, branches[i].body, input))
        {
          if b in rest.rows {
            var i :| 0 <= i < |branches[1..]| && b in Answered(Meaning(env, branches[1..][i].body, input));
            assert branches[i + 1] == branches[1..][i];
          }
        }
      }
      if rest.Unsafe? {
        var i :| 0 <= i < |branches[1..]| && Meaning(env, branches[1..][i].body, input).Unsafe?;
        assert branches[i + 1] == branches[1..][i];
      }
    }
  }

  // ----- the planned order -----

  /** The places that are known before a pattern runs: constants, blanks and bound variables. */
  predicate Known(t: Term, bound: set<string>) {
    t.Blank? || t.Const? || t.name in bound
  }

  /** The cost classes, cheapest first: entity and attribute known; attribute and value; entity;
      attribute; value; none.  Binding more variables never makes a pattern dearer. */
  lemma RankMeans(terms: seq<Term>, bound: set<string>, more: set<string>)
    requires WellSized(terms) && bound <= more
    ensures var e, a, v := Known(terms[0], bound), Known(terms[1], bound), Known(terms[2], bound);
      var rank := AccessRank(terms, bound);
      && (rank == 0 <==> e && a) && (rank == 1 <==> !e && a && v) && (rank == 2 <==> e && !a)
      && (rank == 3 <==> !e && a && !v) && (rank == 4 <==> !e && !a && v) && (rank == 5 <==> !e && !a && !v)
    ensures AccessRank(terms, more) <= AccessRank(terms, bound)
  {
  }

  /** The variables the planner counts as bound after the clauses: not those of comparisons and
      negations, nor of what is no proper pattern. */
  function Gathered(done: seq<Clause>, bound: set<string>): set<string> {
    bound + set c, x | c in done && (IsPattern(c) || c.Or? || c.Rule?) && x in ClauseVars(c) :: x
  }

  ghost predicate PatternsFrom(cs: seq<Clause>, i: nat, j: nat)
    requires j < |cs|
  {
    forall k :: i <= k <= j ==> IsPattern(cs[k])
  }

  /** The planned order is greedy: each pattern is at least as cheap, given what was gathered
      before it, as every pattern that still follows it in its block. */
  lemma {:induction false} OrderGreedy(cs: seq<Clause>, bound: set<string>, i: nat, j: nat)
    requires i <= j < |Order(cs, bound)| && PatternsFrom(Order(cs, bound), i, j)
    ensures var out := Order(cs, bound); var before := Gathered(out[..i], bound);
      IsPattern(out[i]) && IsPattern(out[j]) && AccessRank(out[i].terms, before) <= AccessRank(out[j].terms, before)
    decreases |cs|
  {
    hide AccessRank, ClauseVars, BarrierVars, Best, Order, Gathered, IsPattern;
    var out := Order(cs, bound);
    assert IsPattern(out[i]) && IsPattern(out[j]);
    OrderLength(cs, bound);
    if i == 0 {
      NothingGathered(bound);
      assert out[..0] == [];
      FirstIsBest(cs, bound, j);
    } else {
      var best, rest := GreedyStep(cs, bound, i, j);
      var more := Gathered([cs[best]], bound);
      OrderGreedy(rest, more, i - 1, j - 1);
      assert out[i] == Order(rest, more)[i - 1] && out[j] == Order(rest, more)[j - 1];
    }
  }

  /** After the first chosen clause the rest is ordered on its own. */
  lemma GreedyStep(cs: seq<Clause>, bound: set<string>, i: nat, j: nat) returns (best: nat, rest: seq<Clause>)
    requires 0 < i <= j < |Order(cs, bound)| && PatternsFrom(Order(cs, bound), i, j)
    ensures best < |cs| && |rest| == |cs| - 1
    ensures var more := Gathered([cs[best]], bound); var tail := Order(rest, more);
      && Order(cs, bound) == [cs[best]] + tail
      && j - 1 < |tail| && PatternsFrom(tail, i - 1, j - 1)
      && Gathered(Order(cs, bound)[..i], bound) == Gathered(tail[..i - 1], more)
  {
    hide AccessRank, ClauseVars, BarrierVars, Best, Order, Gathered, IsPattern;
    var out := Order(cs, bound);
    OrderLength(cs, bound);
    GatheredFirst(cs, bound);
    best := if IsPattern(cs[0]) then Best(cs, Block(cs), bound) else 0;
    rest := if IsPattern(cs[0]) then Without(cs, best) else cs[1..];
    var tail := Order(rest, Gathered([cs[best]], bound));
    forall k | i - 1 <= k <= j - 1 ensures IsPattern(tail[k]) {
      assert tail[k] == out[k + 1];
    }
    assert out[..i] == [cs[best]] + tail[..i - 1];
    GatheredMore(cs[best], tail[..i - 1], bound);
  }

  lemma NothingGathered(bound: set<string>)
    ensures Gathered([], bound) == bound
  {
  }

  lemma GatheredFirst(cs: seq<Clause>, bound: set<string>)
    requires cs != []
    ensures var out, best := Order(cs, bound), if IsPattern(cs[0]) then Best(cs, Block(cs), bound) else 0;
      && out != [] && out[0] == cs[best]
      && out == [cs[best]] + Order(if IsPattern(cs[0]) then Without(cs, best) else cs[1..], Gathered([cs[best]], bound))
  {
    var best := if IsPattern(cs[0]) then Best(cs, Block(cs), bound) else 0;
    var c := cs[best];
    assert Gathered([c], bound) == bound + (if IsPattern(c) || c.Or? || c.Rule? then ClauseVars(c) else {}) by {
      assert forall d :: d in [c] <==> d == c;
    }
  }

  lemma GatheredMore(c: Clause, done: seq<Clause>, bound: set<string>)
    ensures Gathered([c] + done, bound) == Gathered(done, Gathered([c], bound))
  {
    assert forall d :: d in [c] + done <==> d == c || d in done;
  }

  lemma FirstIsBest(cs: seq<Clause>, bound: set<string>, j: nat)
    requires j < |Order(cs, bound)| && PatternsFrom(Order(cs, bound), 0, j)
    ensures var out := Order(cs, bound);
      IsPattern(out[0]) && IsPattern(out[j]) && AccessRank(out[0].terms, bound) <= AccessRank(out[j].terms, bound)
  {
    hide AccessRank, ClauseVars, BarrierVars, Best;
    var out, n := Order(cs, bound), Block(cs);
    OrderLength(cs, bound);
    assert IsPattern(out[0]) && IsPattern(out[j]);
    if j >= n {
      BlockEnds(cs);
      OrderKeepsBarriers(cs, bound, n);
      assert false;
    }
    BlockStays(cs, bound, j);
    var k :| 0 <= k < n && cs[k] == out[j];
    assert RankOf(cs[Best(cs, n, bound)], bound) <= RankOf(cs[k], bound);
  }

  lemma {:induction false} BlockEnds(cs: seq<Clause>)
    requires Block(cs) < |cs|
    ensures !IsPattern(cs[Block(cs)])
  {
    if IsPattern(cs[0]) { BlockEnds(cs[1..]); }
  }

  /** The clauses of the first block stay in it. */
  lemma {:induction false} BlockStays(cs: seq<Clause>, bound: set<string>, j: nat)
    requires j < Block(cs)
    ensures j < |Order(cs, bound)| && exists k :: 0 <= k < Block(cs) && cs[k] == Order(cs, bound)[j]
    decreases |cs|
  {
    hide Order, AccessRank, ClauseVars, BarrierVars, Best, IsPattern;
    var best := Best(cs, Block(cs), bound);
    var rest := Without(cs, best);
    BlockFirst(cs, bound);
    if j > 0 {
      BlockWithout(cs, best);
      BlockStays(rest, bound + ClauseVars(cs[best]), j - 1);
      var k :| 0 <= k < Block(rest) && rest[k] == Order(rest, bound + ClauseVars(cs[best]))[j - 1];
      assert rest[k] == cs[if k < best then k else k + 1];
    }
  }

  lemma BlockFirst(cs: seq<Clause>, bound: set<string>)
    requires Block(cs) > 0
    ensures var best := Best(cs, Block(cs), bound);
      best < Block(cs) <= |cs| && Order(cs, bound) == [cs[best]] + Order(Without(cs, best), bound + ClauseVars(cs[best]))
  {
  }

  lemma {:induction false} BlockWithout(cs: seq<Clause>, i: nat)
    requires i < Block(cs)
    ensures Block(Without(cs, i)) == Block(cs) - 1
  {
    if i == 0 {
      assert Without(cs, 0) == cs[1..];
    } else {
      BlockWithout(cs[1..], i - 1);
      assert Without(cs, i)[1..] == Without(cs[1..], i - 1) && Without(cs, i)[0] == cs[0];
    }
  }
}
