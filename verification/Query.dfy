/** The meaning of queries.  Clauses are read in written order over sets of bindings; the order
    the query planner chooses, and the scoping check made before any evaluation, are compared
    with that meaning. */
module Query {
  import opened Facts

  /** A datom as a query sees it: entity, attribute, value, transaction, added. */
  type Row = seq<Value>

  type Binding = map<string, Value>

  /** A constant may name an entity or stand for itself, depending on where it is matched.  A
      structured constant may hold, inside it, texts that look like variables. */
  datatype Term = Blank | Var(name: string) | Const(entity: Value, plain: Value, inside: set<string>)

  datatype Operand = Bound(name: string) | Literal(value: Value, inside: set<string>)

  datatype Clause =
    | Pattern(terms: seq<Term>)
    | Predicate(op: string, left: Operand, right: Operand)
    | Not(body: seq<Clause>)
    | Or(branches: seq<Branch>)
    | Rule(name: string, args: seq<Term>)

  datatype Branch = Branch(body: seq<Clause>)

  /** What clauses are evaluated against.  A comparison of two cells may be undefined. */
  datatype Env = Env(
    facts: seq<Row>,
    arity: map<string, nat>,
    relations: map<string, set<Row>>,
    compare: (string, Value, Value) -> Option<bool>)

  // ----- matching -----

  /** A constant is compared as an entity in the entity, attribute and transaction positions of
      a pattern, and against references in rule tuples. */
  predicate AsEntity(inRule: bool, i: nat, cell: Value) {
    if inRule then cell.tag == TAG_REF else i == 0 || i == 1 || i == 3
  }

  predicate ConstFits(inRule: bool, t: Term, i: nat, cell: Value)
    requires t.Const?
  {
    (if AsEntity(inRule, i, cell) then t.entity else t.plain) == cell
  }

  /** Matches the terms from position i on, extending the binding. */
  function MatchFrom(inRule: bool, terms: seq<Term>, i: nat, row: Row, b: Binding): Option<Binding>
    requires i <= |terms| <= |row|
    decreases |terms| - i
  {
    if i == |terms| then Some(b)
    else
      match terms[i]
      case Blank => MatchFrom(inRule, terms, i + 1, row, b)
      case Const(_, _, _) => if ConstFits(inRule, terms[i], i, row[i]) then MatchFrom(inRule, terms, i + 1, row, b) else None
      case Var(x) =>
        if x !in b then MatchFrom(inRule, terms, i + 1, row, b[x := row[i]])
        else if b[x] == row[i] then MatchFrom(inRule, terms, i + 1, row, b)
        else None
  }

  function Match(inRule: bool, terms: seq<Term>, row: Row, b: Binding): Option<Binding> {
    if |terms| <= |row| then MatchFrom(inRule, terms, 0, row, b) else None
  }

  function TermVars(terms: seq<Term>): set<string> {
    set t | t in terms && t.Var? :: t.name
  }

  /** `b'` keeps what `b` says and binds `vars` besides. */
  ghost predicate Extends(b: Binding, b': Binding, vars: set<string>) {
    b'.Keys == b.Keys + vars && forall x :: x in b ==> b'[x] == b[x]
  }

  /** Every term agrees with the row under the binding. */
  ghost predicate Agrees(inRule: bool, terms: seq<Term>, i: nat, row: Row, b: Binding)
    requires |terms| <= |row|
  {
    forall j :: i <= j < |terms| ==> TermAgrees(inRule, terms[j], j, row[j], b)
  }

  predicate TermAgrees(inRule: bool, t: Term, j: nat, cell: Value, b: Binding) {
    match t
    case Blank => true
    case Const(_, _, _) => ConstFits(inRule, t, j, cell)
    case Var(x) => x in b && b[x] == cell
  }

  lemma TailVars(terms: seq<Term>, i: nat)
    requires i < |terms|
    ensures TermVars(terms[i..]) == TermVars(terms[i + 1..]) + (if terms[i].Var? then {terms[i].name} else {})
  {
    assert terms[i..] == [terms[i]] + terms[i + 1..];
    assert forall t :: t in terms[i..] <==> t == terms[i] || t in terms[i + 1..];
  }

  /** Matching, said without its order: the results are the extensions by the terms' variables
      that agree with the row. */
  lemma {:induction false} MatchFromExactly(inRule: bool, terms: seq<Term>, i: nat, row: Row, b: Binding, b': Binding)
    requires i <= |terms| <= |row|
    ensures MatchFrom(inRule, terms, i, row, b) == Some(b')
       <==> Extends(b, b', TermVars(terms[i..])) && Agrees(inRule, terms, i, row, b')
    decreases |terms| - i
  {
    if i == |terms| {
      assert TermVars(terms[i..]) == {};
      assert Extends(b, b', {}) <==> b == b';
    } else {
      TailVars(terms, i);
      var rest := TermVars(terms[i + 1..]);
      var agrees := Agrees(inRule, terms, i + 1, row, b');
      assert Agrees(inRule, terms, i, row, b') <==> TermAgrees(inRule, terms[i], i, row[i], b') && agrees;
      MatchFromExactly(inRule, terms, i + 1, row, b, b');
      if terms[i].Var? {
        var x := terms[i].name;
        MatchFromExactly(inRule, terms, i + 1, row, b[x := row[i]], b');
        ExtendsOne(b, b', x, row[i], rest);
      }
    }
  }

  lemma ExtendsOne(b: Binding, b': Binding, x: string, cell: Value, rest: set<string>)
    ensures x !in b ==> (Extends(b[x := cell], b', rest) <==> Extends(b, b', rest + {x}) && x in b' && b'[x] == cell)
    ensures x in b ==> (Extends(b, b', rest + {x}) <==> Extends(b, b', rest))
  {
    if x !in b {
      assert b[x := cell].Keys + rest == b.Keys + (rest + {x});
      if Extends(b[x := cell], b', rest) {
        assert x in b[x := cell];
        assert forall y :: y in b ==> y in b[x := cell];
      }
    } else {
      assert b.Keys + (rest + {x}) == b.Keys + rest;
    }
  }

  lemma MatchExactly(inRule: bool, terms: seq<Term>, row: Row, b: Binding, b': Binding)
    requires |terms| <= |row|
    ensures Match(inRule, terms, row, b) == Some(b')
       <==> Extends(b, b', TermVars(terms)) && Agrees(inRule, terms, 0, row, b')
  {
    MatchFromExactly(inRule, terms, 0, row, b, b');
    assert terms[0..] == terms;
  }

  // ----- meaning -----

  /** A set of bindings; or the query uses a variable where it is not bound; or it fails for
      another reason, such as an undefined comparison or rule. */
  datatype Answer = Rows(rows: set<Binding>) | Unsafe | Failed

  predicate WellSized(terms: seq<Term>) {
    3 <= |terms| <= 5
  }

  function PatternRows(facts: seq<Row>, terms: seq<Term>, input: set<Binding>): set<Binding> {
    set b, row | b in input && row in facts && Match(false, terms, row, b).Some? :: Match(false, terms, row, b).value
  }

  function RuleRows(tuples: set<Row>, args: seq<Term>, input: set<Binding>): set<Binding> {
    set b, row | b in input && row in tuples && Match(true, args, row, b).Some? :: Match(true, args, row, b).value
  }

  /** The tuples derived for a rule so far. */
  function Tuples(env: Env, name: string): set<Row> {
    if name in env.relations then env.relations[name] else {}
  }

  function OperandValue(t: Operand, b: Binding): Option<Value> {
    match t
    case Literal(v, _) => Some(v)
    case Bound(x) => if x in b then Some(b[x]) else None
  }

  /** Does the predicate hold?  None when an operand is unbound or the comparison undefined. */
  function Holds(env: Env, c: Clause, b: Binding): Option<bool>
    requires c.Predicate?
  {
    var l, r := OperandValue(c.left, b), OperandValue(c.right, b);
    if l.None? || r.None? then None else env.compare(c.op, l.value, r.value)
  }

  predicate Operable(c: Clause, b: Binding)
    requires c.Predicate?
  {
    OperandValue(c.left, b).Some? && OperandValue(c.right, b).Some?
  }

  function OperandVars(t: Operand): set<string> {
    if t.Bound? then {t.name} else t.inside
  }

  /** The variables counted in terms: those that matching binds, and the texts inside constants. */
  function Counted(terms: seq<Term>): set<string> {
    TermVars(terms) + set t, x | t in terms && t.Const? && x in t.inside :: x
  }

  /** All variables counted in a clause, nested ones included. */
  function ClauseVars(c: Clause): set<string>
    decreases c
  {
    match c
    case Pattern(terms) => Counted(terms)
    case Predicate(_, l, r) => OperandVars(l) + OperandVars(r)
    case Not(body) => BodyVars(body)
    case Or(branches) => BranchVars(branches)
    case Rule(_, args) => Counted(args)
  }

  function BodyVars(cs: seq<Clause>): set<string>
    decreases cs
  {
    if cs == [] then {} else ClauseVars(cs[0]) + BodyVars(cs[1..])
  }

  function BranchVars(branches: seq<Branch>): set<string>
    decreases branches
  {
    if branches == [] then {} else BodyVars(branches[0].body) + BranchVars(branches[1..])
  }

  predicate Correlated(body: seq<Clause>, b: Binding) {
    b.Keys * BodyVars(body) != {}
  }

  /** Unsafety outweighs other failures, and a failure outweighs rows. */
  function Join(a: Answer, a': Answer): Answer {
    if a.Unsafe? || a'.Unsafe? then Unsafe
    else if a.Failed? || a'.Failed? then Failed
    else Rows(a.rows + a'.rows)
  }

  /** Clauses in written order; once no binding is left, the rest is not looked at. */
  function Meaning(env: Env, cs: seq<Clause>, input: set<Binding>): Answer
    decreases cs
  {
    if cs == [] then Rows(input)
    else
      var a := ClauseMeaning(env, cs[0], input);
      if a.Rows? && a.rows != {} then Meaning(env, cs[1..], a.rows) else a
  }

  function ClauseMeaning(env: Env, c: Clause, input: set<Binding>): Answer
    decreases c
  {
    match c
    case Pattern(terms) => if WellSized(terms) then Rows(PatternRows(env.facts, terms, input)) else Failed
    case Predicate(_, _, _) =>
      if exists b :: b in input && !Operable(c, b) then Unsafe
      else if exists b :: b in input && Holds(env, c, b).None? then Failed
      else Rows(set b | b in input && Holds(env, c, b) == Some(true))
    case Not(body) =>
      if exists b :: b in input && (!Correlated(body, b) || Meaning(env, body, {b}).Unsafe?) then Unsafe
      else if exists b :: b in input && Meaning(env, body, {b}).Failed? then Failed
      else Rows(set b | b in input && Meaning(env, body, {b}) == Rows({}))
    case Or(branches) => if branches == [] then Failed else OrMeaning(env, branches, input)
    case Rule(name, args) =>
      if name !in env.arity || |args| != env.arity[name] then Failed
      else Rows(RuleRows(Tuples(env, name), args, input))
  }

  function OrMeaning(env: Env, branches: seq<Branch>, input: set<Binding>): Answer
    decreases branches
  {
    if branches == [] then Rows({})
    else Join(Meaning(env, branches[0].body, input), OrMeaning(env, branches[1..], input))
  }

  // ----- the planned order -----

  predicate IsPattern(c: Clause) {
    c.Pattern? && WellSized(c.terms)
  }

  predicate PlannedBound(t: Term, bound: set<string>) {
    t.Var? ==> t.name in bound
  }

  /** The cost class of a pattern given the variables bound so far. */
  function AccessRank(terms: seq<Term>, bound: set<string>): nat
    requires WellSized(terms)
  {
    var e, a, v := PlannedBound(terms[0], bound), PlannedBound(terms[1], bound), PlannedBound(terms[2], bound);
    if e && a then 0
    else if a && v then 1
    else if e then 2
    else if a then 3
    else if v then 4
    else 5
  }

  /** The length of the block of patterns at the front. */
  function Block(cs: seq<Clause>): (n: nat)
    ensures n <= |cs| && forall i :: 0 <= i < n ==> IsPattern(cs[i])
  {
    if cs == [] || !IsPattern(cs[0]) then 0 else 1 + Block(cs[1..])
  }

  function RankOf(c: Clause, bound: set<string>): nat {
    if IsPattern(c) then AccessRank(c.terms, bound) else 6
  }

  /** The first pattern of the best rank among the first n. */
  function Best(cs: seq<Clause>, n: nat, bound: set<string>): (i: nat)
    requires 0 < n <= |cs|
    ensures i < n
    ensures forall j :: 0 <= j < n ==> RankOf(cs[i], bound) <= RankOf(cs[j], bound)
    ensures forall j :: 0 <= j < i ==> RankOf(cs[i], bound) < RankOf(cs[j], bound)
  {
    if n == 1 then 0
    else
      var i := Best(cs, n - 1, bound);
      if RankOf(cs[n - 1], bound) < RankOf(cs[i], bound) then n - 1 else i
  }

  function Without<T>(s: seq<T>, i: nat): seq<T>
    requires i < |s|
  {
    s[..i] + s[i + 1..]
  }

  /** What the planner takes as bound after a barrier. */
  function BarrierVars(c: Clause): set<string> {
    if c.Or? || c.Rule? then ClauseVars(c) else {}
  }

  /** Greedy order: within a block of patterns always the cheapest next; everything else is a
      barrier and stays in place. */
  function Order(cs: seq<Clause>, bound: set<string>): seq<Clause>
    decreases |cs|
  {
    if cs == [] then []
    else if !IsPattern(cs[0]) then [cs[0]] + Order(cs[1..], bound + BarrierVars(cs[0]))
    else
      var i := Best(cs, Block(cs), bound);
      [cs[i]] + Order(Without(cs, i), bound + ClauseVars(cs[i]))
  }

  // ----- patterns commute -----

  ghost predicate RowsSized(facts: seq<Row>) {
    forall row :: row in facts ==> |row| == 5
  }

  /** The two patterns, matched one after the other, in terms that do not mention their order. */
  lemma TwoPatterns(facts: seq<Row>, p: seq<Term>, q: seq<Term>, input: set<Binding>, b'': Binding)
    requires RowsSized(facts) && WellSized(p) && WellSized(q)
    ensures b'' in PatternRows(facts, q, PatternRows(facts, p, input)) <==>
      exists b, f, g :: b in input && f in facts && g in facts
        && Extends(b, b'', TermVars(p) + TermVars(q)) && Agrees(false, p, 0, f, b'') && Agrees(false, q, 0, g, b'')
  {
    if b'' in PatternRows(facts, q, PatternRows(facts, p, input)) {
      var b', g :| b' in PatternRows(facts, p, input) && g in facts && Match(false, q, g, b') == Some(b'');
      var b, f :| b in input && f in facts && Match(false, p, f, b) == Some(b');
      MatchExactly(false, q, g, b', b'');
      MatchExactly(false, p, f, b, b');
      AgreesLater(p, f, b', b'', TermVars(q));
      assert Extends(b, b'', TermVars(p) + TermVars(q));
    }
    if exists b, f, g :: b in input && f in facts && g in facts
        && Extends(b, b'', TermVars(p) + TermVars(q)) && Agrees(false, p, 0, f, b'') && Agrees(false, q, 0, g, b'')
    {
      var b, f, g :| b in input && f in facts && g in facts
        && Extends(b, b'', TermVars(p) + TermVars(q)) && Agrees(false, p, 0, f, b'') && Agrees(false, q, 0, g, b'');
      var b' := map x | x in b.Keys + TermVars(p) :: b''[x];
      assert Extends(b, b', TermVars(p)) && Extends(b', b'', TermVars(q));
      AgreesEarlier(p, f, b', b'');
      MatchExactly(false, p, f, b, b');
      MatchExactly(false, q, g, b', b'');
      assert b' in PatternRows(facts, p, input);
    }
  }

  lemma AgreesLater(p: seq<Term>, f: Row, b: Binding, b': Binding, vars: set<string>)
    requires |p| <= |f| && Agrees(false, p, 0, f, b) && Extends(b, b', vars)
    ensures Agrees(false, p, 0, f, b')
  {
    forall j | 0 <= j < |p| ensures TermAgrees(false, p[j], j, f[j], b') {
      assert TermAgrees(false, p[j], j, f[j], b);
    }
  }

  lemma AgreesEarlier(p: seq<Term>, f: Row, b: Binding, b': Binding)
    requires |p| <= |f| && Agrees(false, p, 0, f, b') && TermVars(p) <= b.Keys && forall x :: x in b ==> x in b' && b'[x] == b[x]
    ensures Agrees(false, p, 0, f, b)
  {
    forall j | 0 <= j < |p| ensures TermAgrees(false, p[j], j, f[j], b) {
      assert TermAgrees(false, p[j], j, f[j], b');
      assert p[j].Var? ==> p[j].name in TermVars(p);
    }
  }

  lemma PatternsCommute(facts: seq<Row>, p: seq<Term>, q: seq<Term>, input: set<Binding>)
    requires RowsSized(facts) && WellSized(p) && WellSized(q)
    ensures PatternRows(facts, q, PatternRows(facts, p, input)) == PatternRows(facts, p, PatternRows(facts, q, input))
  {
    forall b ensures b in PatternRows(facts, q, PatternRows(facts, p, input)) <==> b in PatternRows(facts, p, PatternRows(facts, q, input)) {
      TwoPatterns(facts, p, q, input, b);
      TwoPatterns(facts, q, p, input, b);
      assert TermVars(p) + TermVars(q) == TermVars(q) + TermVars(p);
    }
  }

  // ----- the planned order preserves meaning -----

  lemma FirstPattern(env: Env, p: Clause, rest: seq<Clause>, input: set<Binding>)
    requires IsPattern(p)
    ensures var rows := PatternRows(env.facts, p.terms, input);
      Meaning(env, [p] + rest, input) == if rows == {} then Rows({}) else Meaning(env, rest, rows)
  {
    assert ([p] + rest)[1..] == rest;
    assert ClauseMeaning(env, p, input) == Rows(PatternRows(env.facts, p.terms, input));
  }

  lemma NoneFromNone(facts: seq<Row>, p: seq<Term>)
    ensures PatternRows(facts, p, {}) == {}
  {
  }

  lemma TwoFirst(env: Env, p: Clause, q: Clause, rest: seq<Clause>, input: set<Binding>)
    requires IsPattern(p) && IsPattern(q)
    ensures var rows := PatternRows(env.facts, q.terms, PatternRows(env.facts, p.terms, input));
      Meaning(env, [p] + ([q] + rest), input) == if rows == {} then Rows({}) else Meaning(env, rest, rows)
  {
    hide Meaning, PatternRows;
    FirstPattern(env, p, [q] + rest, input);
    FirstPattern(env, q, rest, PatternRows(env.facts, p.terms, input));
    NoneFromNone(env.facts, q.terms);
  }

  lemma {:induction false} MoveFront(env: Env, cs: seq<Clause>, i: nat, input: set<Binding>)
    requires RowsSized(env.facts) && i < |cs| && forall j :: 0 <= j <= i ==> IsPattern(cs[j])
    ensures Meaning(env, [cs[i]] + Without(cs, i), input) == Meaning(env, cs, input)
    decreases i
  {
    hide Meaning, PatternRows;
    if i == 0 {
      assert [cs[0]] + Without(cs, 0) == cs;
    } else {
      var p, q, tail, rest := cs[0], cs[i], cs[1..], Without(cs[1..], i - 1);
      var first := PatternRows(env.facts, p.terms, input);
      assert Without(cs, i) == [p] + rest && cs == [p] + tail && tail[i - 1] == q;
      MoveFront(env, tail, i - 1, first);
      FirstPattern(env, p, tail, input);
      FirstPattern(env, p, [q] + rest, input);
      TwoFirst(env, p, q, rest, input);
      TwoFirst(env, q, p, rest, input);
      PatternsCommute(env.facts, p.terms, q.terms, input);
    }
  }

  /** Planning preserves meaning: the greedy order returns the same bindings as the written
      order, or fails in the same way, for every clause list, bound set and input. */
  lemma {:induction false} OrderPreserves(env: Env, cs: seq<Clause>, bound: set<string>, input: set<Binding>)
    requires RowsSized(env.facts)
    ensures Meaning(env, Order(cs, bound), input) == Meaning(env, cs, input)
    decreases |cs|
  {
    if cs == [] {
    } else if !IsPattern(cs[0]) {
      var tail := Order(cs[1..], bound + BarrierVars(cs[0]));
      var a := ClauseMeaning(env, cs[0], input);
      assert ([cs[0]] + tail)[1..] == tail;
      if a.Rows? { OrderPreserves(env, cs[1..], bound + BarrierVars(cs[0]), a.rows); }
    } else {
      var i := Best(cs, Block(cs), bound);
      var tail := Order(Without(cs, i), bound + ClauseVars(cs[i]));
      var rows := PatternRows(env.facts, cs[i].terms, input);
      MoveFront(env, cs, i, input);
      OrderPreserves(env, Without(cs, i), bound + ClauseVars(cs[i]), rows);
      assert ([cs[i]] + tail)[1..] == tail && ([cs[i]] + Without(cs, i))[1..] == Without(cs, i);
      assert ClauseMeaning(env, cs[i], input) == Rows(rows);
    }
  }

  lemma WithoutPermutes<T>(s: seq<T>, i: nat)
    requires i < |s|
    ensures multiset([s[i]]) + multiset(Without(s, i)) == multiset(s)
  {
    assert s == s[..i] + [s[i]] + s[i + 1..];
  }

  lemma ConsMultiset<T>(x: T, s: seq<T>)
    ensures multiset([x] + s) == multiset([x]) + multiset(s)
  {
  }

  /** The chosen order is a permutation of the clauses. */
  lemma {:induction false} OrderPermutes(cs: seq<Clause>, bound: set<string>)
    ensures multiset(Order(cs, bound)) == multiset(cs)
    decreases |cs|
  {
    hide Best, BarrierVars, ClauseVars;
    if cs == [] {
    } else if !IsPattern(cs[0]) {
      OrderPermutes(cs[1..], bound + BarrierVars(cs[0]));
      ConsMultiset(cs[0], Order(cs[1..], bound + BarrierVars(cs[0])));
      ConsMultiset(cs[0], cs[1..]);
      assert cs == [cs[0]] + cs[1..];
    } else {
      var i := Best(cs, Block(cs), bound);
      OrderPermutes(Without(cs, i), bound + ClauseVars(cs[i]));
      ConsMultiset(cs[i], Order(Without(cs, i), bound + ClauseVars(cs[i])));
      WithoutPermutes(cs, i);
    }
  }

  /** Every barrier stays in its place. */
  lemma {:induction false} OrderKeepsBarriers(cs: seq<Clause>, bound: set<string>, j: nat)
    requires j < |cs| && !IsPattern(cs[j])
    ensures |Order(cs, bound)| == |cs| && Order(cs, bound)[j] == cs[j]
    decreases |cs|
  {
    hide Order, Best;
    OrderLength(cs, bound);
    if !IsPattern(cs[0]) {
      BarrierFirst(cs, bound);
      if j > 0 {
        assert cs[1..][j - 1] == cs[j];
        OrderKeepsBarriers(cs[1..], bound + BarrierVars(cs[0]), j - 1);
      }
    } else {
      PickedFirst(cs, bound);
      var i := Best(cs, Block(cs), bound);
      assert i < j && Without(cs, i)[j - 1] == cs[j];
      OrderKeepsBarriers(Without(cs, i), bound + ClauseVars(cs[i]), j - 1);
    }
  }

  lemma BarrierFirst(cs: seq<Clause>, bound: set<string>)
    requires cs != [] && !IsPattern(cs[0])
    ensures Order(cs, bound) == [cs[0]] + Order(cs[1..], bound + BarrierVars(cs[0]))
  {
  }

  lemma PickedFirst(cs: seq<Clause>, bound: set<string>)
    requires cs != [] && IsPattern(cs[0])
    ensures var i := Best(cs, Block(cs), bound); Order(cs, bound) == [cs[i]] + Order(Without(cs, i), bound + ClauseVars(cs[i]))
  {
  }

  lemma OrderElements(cs: seq<Clause>, bound: set<string>, c: Clause)
    requires c in Order(cs, bound)
    ensures c in cs
  {
    OrderPermutes(cs, bound);
    assert c in multiset(Order(cs, bound));
  }

  lemma OrderLength(cs: seq<Clause>, bound: set<string>)
    ensures |Order(cs, bound)| == |cs|
  {
    OrderPermutes(cs, bound);
    assert |multiset(Order(cs, bound))| == |multiset(cs)|;
  }
}
