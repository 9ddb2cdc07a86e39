/** What rules answer, column by column: which tuples a definition derives, what a settled relation
    holds, and what a call of a rule returns. */
module RuleAnswers {
  import opened Facts
  import opened Query
  import opened Rules

  /** Some definition's body has a binding that the row reads off in the order of the head. */
  ghost predicate Says(env: Env, defs: seq<Definition>, row: Row) {
    exists i, b :: 0 <= i < |defs| && Answers(env, defs[i], b) && Reads(defs[i].args, row, b)
  }

  ghost predicate Answers(env: Env, def: Definition, b: Binding) {
    var a := Meaning(env, def.body, {map[]});
    a.Rows? && b in a.rows
  }

  /** Cell i of the row is the value of the i-th head variable. */
  ghost predicate Reads(args: seq<string>, row: Row, b: Binding) {
    |row| == |args| && forall i :: 0 <= i < |row| ==> args[i] in b && row[i] == b[args[i]]
  }

  /** A definition derives a row exactly if some binding of its body has the row's cells under the
      head variables, position by position. */
  lemma DerivedExactly(env: Env, def: Definition, row: Row)
    requires DerivedBy(env, def).Some?
    ensures row in DerivedBy(env, def).value <==>
      exists b :: (b in Meaning(env, def.body, {map[]}).rows
        && |row| == |def.args| && forall i :: 0 <= i < |row| ==> def.args[i] in b && row[i] == b[def.args[i]])
  {
    DerivedReads(env, def, row);
    var rows := Meaning(env, def.body, {map[]}).rows;
    forall b | b in rows && |row| == |def.args| && forall i :: 0 <= i < |row| ==> def.args[i] in b && row[i] == b[def.args[i]]
      ensures row in DerivedBy(env, def).value
    {
      assert Answers(env, def, b) && Reads(def.args, row, b);
    }
    if row in DerivedBy(env, def).value {
      var b :| Answers(env, def, b) && Reads(def.args, row, b);
      assert b in rows;
      assert |row| == |def.args|;
      assert forall i :: 0 <= i < |row| ==> def.args[i] in b && row[i] == b[def.args[i]];
      assert exists b :: (b in Meaning(env, def.body, {map[]}).rows
        && |row| == |def.args| && forall i :: 0 <= i < |row| ==> def.args[i] in b && row[i] == b[def.args[i]]);
    } else {
      assert !exists b :: (b in Meaning(env, def.body, {map[]}).rows
        && |row| == |def.args| && forall i :: 0 <= i < |row| ==> def.args[i] in b && row[i] == b[def.args[i]]);
    }
  }

  lemma DerivedReads(env: Env, def: Definition, row: Row)
    requires DerivedBy(env, def).Some?
    ensures row in DerivedBy(env, def).value <==> exists b :: Answers(env, def, b) && Reads(def.args, row, b)
  {
    var rows, args := Meaning(env, def.body, {map[]}).rows, def.args;
    assert DerivedBy(env, def).value == HeadRows(args, rows);
    HeadReads(args, rows, row);
    if b :| b in rows && Reads(args, row, b) {
      assert Answers(env, def, b);
    }
    if b :| Answers(env, def, b) && Reads(args, row, b) {
      assert b in rows;
    }
  }

  lemma HeadReads(args: seq<string>, rows: set<Binding>, row: Row)
    requires HeadsBound(args, rows)
    ensures row in HeadRows(args, rows) <==> exists b :: b in rows && Reads(args, row, b)
  {
    forall b | b in rows ensures row == HeadRow(args, b) <==> Reads(args, row, b) {
      if Reads(args, row, b) { assert row == HeadRow(args, b); }
    }
    if b :| b in rows && Reads(args, row, b) {
      assert HeadRow(args, b) in HeadRows(args, rows);
    }
  }

  lemma {:induction false} PassExactly(env: Env, defs: seq<Definition>, row: Row)
    requires OnePass(env, defs).Some?
    ensures row in OnePass(env, defs).value <==> Says(env, defs, row)
  {
    if defs != [] {
      hide OnePass, DerivedBy, Answers, Reads;
      var n := |defs| - 1;
      LastPass(env, defs);
      PassExactly(env, defs[..n], row);
      DerivedReads(env, defs[n], row);
      if Says(env, defs[..n], row) {
        var i, b :| 0 <= i < n && Answers(env, defs[..n][i], b) && Reads(defs[..n][i].args, row, b);
        assert defs[..n][i] == defs[i];
      }
      if Says(env, defs, row) {
        var i, b :| 0 <= i < |defs| && Answers(env, defs[i], b) && Reads(defs[i].args, row, b);
        assert i < n ==> defs[..n][i] == defs[i];
      }
    } else {
      assert OnePass(env, defs).value == {};
    }
  }

  lemma LastPass(env: Env, defs: seq<Definition>)
    requires defs != [] && OnePass(env, defs).Some?
    ensures var n := |defs| - 1;
      && OnePass(env, defs[..n]).Some? && DerivedBy(env, defs[n]).Some?
      && OnePass(env, defs).value == OnePass(env, defs[..n]).value + DerivedBy(env, defs[n]).value
  {
  }

  /** The relation as it stood before pass m. */
  ghost predicate SaidAt(env: Env, name: string, defs: seq<Definition>, m: nat, row: Row) {
    Iterate(env, name, defs, m).Some? && Says(With(env, name, Iterate(env, name, defs, m).value), defs, row)
  }

  lemma {:induction false} IterateExactly(env: Env, name: string, defs: seq<Definition>, n: nat, row: Row)
    requires Iterate(env, name, defs, n).Some?
    ensures row in Iterate(env, name, defs, n).value <==> exists m :: 0 <= m < n && SaidAt(env, name, defs, m, row)
  {
    if n > 0 {
      var before := Iterate(env, name, defs, n - 1).value;
      IterateExactly(env, name, defs, n - 1, row);
      PassExactly(With(env, name, before), defs, row);
      assert SaidAt(env, name, defs, n - 1, row) <==> Says(With(env, name, before), defs, row);
    }
  }

  /** A settled relation holds exactly what its definitions said at some pass before it settled. */
  lemma SettledExactly(env: Env, name: string, defs: seq<Definition>, tuples: set<Row>, n: nat, row: Row)
    requires Settles(env, name, defs, tuples, n)
    ensures row in tuples <==> exists m :: 0 <= m < n && SaidAt(env, name, defs, m, row)
  {
    IterateExactly(env, name, defs, n, row);
  }

  lemma {:induction false} IterateWithin(env: Env, name: string, defs: seq<Definition>, m: nat, n: nat)
    requires m <= n && Iterate(env, name, defs, n).Some?
    ensures Iterate(env, name, defs, m).Some? && Iterate(env, name, defs, m).value <= Iterate(env, name, defs, n).value
    decreases n
  {
    if m < n { IterateWithin(env, name, defs, m, n - 1); }
  }

  /** The fixed-point equation: a rule that does not call itself under a negation holds a tuple
      exactly if one of its definitions says it over the finished relation. */
  lemma SettledEquation(env: Env, name: string, defs: seq<Definition>, tuples: set<Row>, n: nat, row: Row)
    requires Settles(env, name, defs, tuples, n) && AllPositive(name, defs)
    ensures row in tuples <==> Says(With(env, name, tuples), defs, row)
  {
    hide *;
    SettledExactly(env, name, defs, tuples, n, row);
    SettledClosed(env, name, defs, tuples, n);
    PassExactly(With(env, name, tuples), defs, row);
    if row in tuples {
      var m :| 0 <= m < n && SaidAt(env, name, defs, m, row);
      SaidParts(env, name, defs, m, row);
      IterateWithin(env, name, defs, m, n);
      PassSome(env, name, defs, m, n);
      var small := Iterate(env, name, defs, m).value;
      PassExactly(With(env, name, small), defs, row);
      PassMonotone(env, name, small, tuples, defs);
    }
  }

  lemma SettledClosed(env: Env, name: string, defs: seq<Definition>, tuples: set<Row>, n: nat)
    requires Settles(env, name, defs, tuples, n)
    ensures Iterate(env, name, defs, n) == Some(tuples)
    ensures OnePass(With(env, name, tuples), defs).Some? && OnePass(With(env, name, tuples), defs).value <= tuples
  {
  }

  lemma SaidParts(env: Env, name: string, defs: seq<Definition>, m: nat, row: Row)
    requires SaidAt(env, name, defs, m, row)
    ensures Iterate(env, name, defs, m).Some? && Says(With(env, name, Iterate(env, name, defs, m).value), defs, row)
  {
  }

  lemma PassSome(env: Env, name: string, defs: seq<Definition>, m: nat, n: nat)
    requires m < n && Iterate(env, name, defs, n).Some?
    ensures Iterate(env, name, defs, m).Some? && OnePass(With(env, name, Iterate(env, name, defs, m).value), defs).Some?
  {
    IterateWithin(env, name, defs, m, n);
    IterateWithin(env, name, defs, m + 1, n);
  }

  // ----- calling a rule -----

  function Variables(names: seq<string>): seq<Term> {
    seq(|names|, i requires 0 <= i < |names| => Var(names[i]))
  }

  /** The call's variables take the cells of a tuple, position by position. */
  ghost predicate Takes(names: seq<string>, row: Row, b: Binding) {
    && |row| == |names| && (forall x :: x in b <==> x in names)
    && forall i :: 0 <= i < |names| ==> names[i] in b && b[names[i]] == row[i]
  }

  lemma CallMatches(names: seq<string>, row: Row, b: Binding)
    requires |row| == |names|
    ensures Match(true, Variables(names), row, map[]) == Some(b) <==> Takes(names, row, b)
  {
    var terms := Variables(names);
    MatchExactly(true, terms, row, map[], b);
    forall x ensures x in TermVars(terms) <==> x in names {
      if x in TermVars(terms) {
        var t :| t in terms && t.Var? && t.name == x;
        var i :| 0 <= i < |terms| && terms[i] == t;
        assert names[i] == x;
      }
      if x in names {
        var i :| 0 <= i < |names| && names[i] == x;
        assert terms[i] in terms && terms[i] == Var(x);
      }
    }
    if Takes(names, row, b) {
      assert b.Keys == TermVars(terms);
      forall j | 0 <= j < |terms| ensures TermAgrees(true, terms[j], j, row[j], b) {
        assert terms[j] == Var(names[j]);
      }
    }
    if Extends(map[], b, TermVars(terms)) && Agrees(true, terms, 0, row, b) {
      forall i | 0 <= i < |names| ensures names[i] in b && b[names[i]] == row[i] {
        assert TermAgrees(true, terms[i], i, row[i], b);
      }
    }
  }

  /** Calling a rule with variables answers its tuples, one binding each, by position. */
  lemma CallExactly(env: Env, name: string, names: seq<string>, b: Binding)
    requires name in env.arity && env.arity[name] == |names| && forall row :: row in Tuples(env, name) ==> |row| == |names|
    ensures ClauseMeaning(env, Rule(name, Variables(names)), {map[]}).Rows?
    ensures b in ClauseMeaning(env, Rule(name, Variables(names)), {map[]}).rows <==>
      exists row :: row in Tuples(env, name) && Takes(names, row, b)
  {
    var terms, rows := Variables(names), RuleRows(Tuples(env, name), Variables(names), {map[]});
    forall row | row in Tuples(env, name) ensures Match(true, terms, row, map[]) == Some(b) <==> Takes(names, row, b) {
      CallMatches(names, row, b);
    }
    if b in rows {
      var b0, row :| b0 in {map[]} && row in Tuples(env, name) && Match(true, terms, row, b0).Some? && Match(true, terms, row, b0).value == b;
      assert Takes(names, row, b);
    }
    if row :| row in Tuples(env, name) && Takes(names, row, b) {
      var none: Binding := map[];
      assert none in {map[]} && Match(true, terms, row, none).Some?;
    }
  }

  /** The binding b' is the pattern's binding b under the call's names. */
  ghost predicate Renames(args: seq<string>, names: seq<string>, b: Binding, b': Binding) {
    && |args| == |names| && (forall x :: x in b' <==> x in names)
    && forall i :: 0 <= i < |names| ==> args[i] in b && names[i] in b' && b'[names[i]] == b[args[i]]
  }

  /** End to end: a rule with one pattern for its body, called with variables, answers the
      pattern's own bindings, renamed position by position. */
  lemma RuleAnswersPattern(env: Env, name: string, args: seq<string>, terms: seq<Term>, tuples: set<Row>, n: nat,
                           names: seq<string>, b': Binding)
    requires WellSized(terms) && name in env.arity && env.arity[name] == |args| == |names|
    requires Settles(env, name, [Definition(args, [Pattern(terms)])], tuples, n)
    ensures var a := ClauseMeaning(With(env, name, tuples), Rule(name, Variables(names)), {map[]});
      a.Rows? && (b' in a.rows <==> exists b :: b in PatternRows(env.facts, terms, {map[]}) && Renames(args, names, b, b'))
  {
    hide Meaning, ClauseMeaning, PatternRows, Settles, Says, RuleRows, Reads, Takes, Renames, Answers, AllPositive;
    var over, rows := With(env, name, tuples), PatternRows(env.facts, terms, {map[]});
    forall row ensures row in tuples <==> exists b :: b in rows && Reads(args, row, b) {
      PatternTuples(env, name, args, terms, tuples, n, row);
    }
    forall row | row in tuples ensures |row| == |names| {
      var b :| b in rows && Reads(args, row, b);
      ReadsLength(args, row, b);
    }
    CallExactly(over, name, names, b');
    if exists row :: row in tuples && Takes(names, row, b') {
      var row :| row in tuples && Takes(names, row, b');
      var b :| b in rows && Reads(args, row, b);
      RowBetween(args, names, row, b, b');
    }
    if b :| b in rows && Renames(args, names, b, b') {
      var row := RowOf(args, names, b, b');
      assert row in tuples;
    }
  }

  lemma ReadsLength(args: seq<string>, row: Row, b: Binding)
    requires Reads(args, row, b)
    ensures |row| == |args|
  {
  }

  lemma RowBetween(args: seq<string>, names: seq<string>, row: Row, b: Binding, b': Binding)
    requires Reads(args, row, b) && Takes(names, row, b')
    ensures Renames(args, names, b, b')
  {
  }

  lemma RowOf(args: seq<string>, names: seq<string>, b: Binding, b': Binding) returns (row: Row)
    requires Renames(args, names, b, b')
    ensures Reads(args, row, b) && Takes(names, row, b')
  {
    row := seq(|names|, i requires 0 <= i < |names| => b[args[i]]);
  }

  lemma PatternTuples(env: Env, name: string, args: seq<string>, terms: seq<Term>, tuples: set<Row>, n: nat, row: Row)
    requires WellSized(terms) && Settles(env, name, [Definition(args, [Pattern(terms)])], tuples, n)
    ensures row in tuples <==> exists b :: b in PatternRows(env.facts, terms, {map[]}) && Reads(args, row, b)
  {
    hide Settles, Reads, PatternRows, AllPositive, Says;
    var def, over := Definition(args, [Pattern(terms)]), With(env, name, tuples);
    OnePatternPositive(name, args, terms);
    SettledEquation(env, name, [def], tuples, n, row);
    SaysOne(over, def, row);
    PatternAnswers(over, def, terms);
  }

  lemma PatternAnswers(env: Env, def: Definition, terms: seq<Term>)
    requires WellSized(terms) && def.body == [Pattern(terms)]
    ensures forall b :: Answers(env, def, b) <==> b in PatternRows(env.facts, terms, {map[]})
  {
    assert def.body[0] == Pattern(terms) && def.body[1..] == [];
    var rows := PatternRows(env.facts, terms, {map[]});
    assert ClauseMeaning(env, Pattern(terms), {map[]}) == Rows(rows);
    assert Meaning(env, def.body, {map[]}) == Rows(rows);
  }

  lemma OnePatternPositive(name: string, args: seq<string>, terms: seq<Term>)
    ensures AllPositive(name, [Definition(args, [Pattern(terms)])])
  {
    assert [Pattern(terms)][1..] == [];
  }

  lemma SaysOne(env: Env, def: Definition, row: Row)
    ensures Says(env, [def], row) <==> exists b :: Answers(env, def, b) && Reads(def.args, row, b)
  {
    if Says(env, [def], row) {
      var i, b :| 0 <= i < |[def]| && Answers(env, [def][i], b) && Reads([def][i].args, row, b);
      assert [def][i] == def;
    }
    if b :| Answers(env, def, b) && Reads(def.args, row, b) {
      assert [def][0] == def;
    }
  }
}
