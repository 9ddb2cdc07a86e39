/** One commit on the fact table, and what the past looks like afterwards.  Assertions append
    rows, retractions stamp rows with the retracting transaction, and rows of no-history
    attributes are deleted instead. */
module History {
  import opened Facts
  import opened Planner
  import opened Localization

  // ----- the effect of a commit -----

  function RetireRow(schema: Schema, f: Fact, gone: set<Fact>, tx: int): seq<Fact> {
    if f !in gone then [f]
    else if f.key.a in schema.nohistory then []
    else [f.(rx := Some(tx))]
  }

  function Retired(schema: Schema, table: seq<Fact>, gone: set<Fact>, tx: int): seq<Fact> {
    if table == [] then []
    else RetireRow(schema, table[0], gone, tx) + Retired(schema, table[1..], gone, tx)
  }

  function Fresh(next: nat, keys: seq<Triple>, tx: int): seq<Fact> {
    seq(|keys|, i requires 0 <= i < |keys| => Fact(next + i, keys[i], tx, None))
  }

  function Install(schema: Schema, table: seq<Fact>, next: nat, gone: set<Fact>, keys: seq<Triple>, tx: int): seq<Fact> {
    Retired(schema, table, gone, tx) + Fresh(next, keys, tx)
  }

  lemma {:induction false} RetiredConcat(schema: Schema, s: seq<Fact>, t: seq<Fact>, gone: set<Fact>, tx: int)
    ensures Retired(schema, s + t, gone, tx) == Retired(schema, s, gone, tx) + Retired(schema, t, gone, tx)
  {
    if s == [] {
      assert s + t == t;
    } else {
      assert (s + t)[1..] == s[1..] + t;
      RetiredConcat(schema, s[1..], t, gone, tx);
    }
  }

  lemma {:induction false} RetiredUntouched(schema: Schema, table: seq<Fact>, gone: set<Fact>, tx: int)
    requires forall f :: f in table ==> f !in gone
    ensures Retired(schema, table, gone, tx) == table
  {
    if table != [] {
      RetiredUntouched(schema, table[1..], gone, tx);
    }
  }

  /** The rows of a retired table are the untouched rows and the stamped ones. */
  lemma {:induction false} RetiredRows(schema: Schema, table: seq<Fact>, gone: set<Fact>, tx: int, f: Fact)
    ensures f in Retired(schema, table, gone, tx) <==>
      || (f in table && f !in gone)
      || (f.rx == Some(tx) && f.key.a !in schema.nohistory && exists g :: g in table && g in gone && f == g.(rx := Some(tx)))
  {
    if table != [] {
      RetiredRows(schema, table[1..], gone, tx, f);
      assert forall g :: g in table <==> g == table[0] || g in table[1..];
    }
  }

  lemma {:induction false} RetiredById(schema: Schema, table: seq<Fact>, gone: set<Fact>, tx: int)
    requires ById(table)
    ensures ById(Retired(schema, table, gone, tx))
  {
    if table != [] {
      var head, rest := RetireRow(schema, table[0], gone, tx), Retired(schema, table[1..], gone, tx);
      RetiredById(schema, table[1..], gone, tx);
      forall f | f in rest ensures table[0].id < f.id {
        RetiredRows(schema, table[1..], gone, tx, f);
        assert forall g :: g in table[1..] ==> table[0].id < g.id;
      }
      var r := head + rest;
      forall i, j | 0 <= i < j < |r| ensures r[i].id < r[j].id {
        assert r[j] in rest;
        if i < |head| { assert r[i].id == table[0].id; } else { assert r[i] == rest[i - |head|] && r[j] == rest[j - |head|]; }
      }
    }
  }

  // ----- the past -----

  /** A view at `basis` does not reveal retractions that come later. */
  function Shown(f: Fact, basis: int): Fact {
    if f.rx.Some? && f.rx.value > basis then f.(rx := None) else f
  }

  /** The recorded history up to and including `basis`, as a reader pinned there sees it. */
  function AsOf(table: seq<Fact>, basis: int): seq<Fact> {
    if table == [] then []
    else (if table[0].tx <= basis then [Shown(table[0], basis)] else []) + AsOf(table[1..], basis)
  }

  /** The facts visible at `basis`. */
  function View(table: seq<Fact>, basis: int): seq<Fact> {
    LiveOf(AsOf(table, basis))
  }

  lemma {:induction false} AsOfRows(table: seq<Fact>, basis: int, f: Fact)
    ensures f in AsOf(table, basis) <==> exists g :: g in table && g.tx <= basis && f == Shown(g, basis)
  {
    if table != [] {
      AsOfRows(table[1..], basis, f);
      assert forall g :: g in table <==> g == table[0] || g in table[1..];
    }
  }

  lemma {:induction false} AsOfConcat(s: seq<Fact>, t: seq<Fact>, basis: int)
    ensures AsOf(s + t, basis) == AsOf(s, basis) + AsOf(t, basis)
  {
    if s == [] {
      assert s + t == t;
    } else {
      assert (s + t)[1..] == s[1..] + t;
      AsOfConcat(s[1..], t, basis);
    }
  }

  lemma {:induction false} AsOfFuture(table: seq<Fact>, basis: int)
    requires forall f :: f in table ==> f.tx > basis
    ensures AsOf(table, basis) == []
  {
    if table != [] {
      AsOfFuture(table[1..], basis);
    }
  }

  lemma {:induction false} AsOfRetired(schema: Schema, table: seq<Fact>, gone: set<Fact>, tx: int, basis: int)
    requires basis < tx && forall f :: f in gone ==> f.rx.None? && f.key.a !in schema.nohistory
    ensures AsOf(Retired(schema, table, gone, tx), basis) == AsOf(table, basis)
  {
    if table != [] {
      AsOfRetired(schema, table[1..], gone, tx, basis);
      AsOfConcat(RetireRow(schema, table[0], gone, tx), Retired(schema, table[1..], gone, tx), basis);
    }
  }

  ghost predicate PastKept(before: seq<Fact>, after: seq<Fact>, tx: int) {
    forall basis :: basis < tx ==> AsOf(after, basis) == AsOf(before, basis)
  }

  /** The past, exactly: a commit leaves every earlier view unchanged if and only if it retracts
      nothing of a no-history attribute. */
  lemma PastKeptExactly(schema: Schema, table: seq<Fact>, next: nat, gone: set<Fact>, keys: seq<Triple>, tx: int)
    requires ById(table) && (forall f :: f in table ==> f.tx < tx)
    requires forall f :: f in gone ==> f in table && f.rx.None?
    ensures PastKept(table, Install(schema, table, next, gone, keys, tx), tx)
       <==> forall f :: f in gone ==> f.key.a !in schema.nohistory
  {
    var retired, added := Retired(schema, table, gone, tx), Fresh(next, keys, tx);
    forall basis | basis < tx ensures AsOf(retired + added, basis) == AsOf(retired, basis) {
      AsOfConcat(retired, added, basis);
      AsOfFuture(added, basis);
    }
    if forall f :: f in gone ==> f.key.a !in schema.nohistory {
      forall basis | basis < tx ensures AsOf(retired, basis) == AsOf(table, basis) {
        AsOfRetired(schema, table, gone, tx, basis);
      }
    } else {
      var f :| f in gone && f.key.a in schema.nohistory;
      DeletedIsMissed(schema, table, gone, tx, f);
      assert AsOf(retired, f.tx) != AsOf(table, f.tx);
    }
  }

  lemma DeletedIsMissed(schema: Schema, table: seq<Fact>, gone: set<Fact>, tx: int, f: Fact)
    requires ById(table) && f in table && f in gone && f.rx.None? && f.key.a in schema.nohistory
    ensures f in AsOf(table, f.tx) && f !in AsOf(Retired(schema, table, gone, tx), f.tx)
  {
    AsOfRows(table, f.tx, f);
    assert f == Shown(f, f.tx);
    var retired := Retired(schema, table, gone, tx);
    AsOfRows(retired, f.tx, f);
    forall g | g in retired && g.id == f.id ensures false {
      RetiredRows(schema, table, gone, tx, g);
      forall h | h in table && h.id == f.id ensures h == f { SameId(table, h, f); }
    }
  }

  lemma SameId(rows: seq<Fact>, f: Fact, g: Fact)
    requires ById(rows) && f in rows && g in rows && f.id == g.id
    ensures f == g
  {
    var i :| 0 <= i < |rows| && rows[i] == f;
    var j :| 0 <= j < |rows| && rows[j] == g;
    assert !(i < j) && !(j < i);
  }

  // ----- the present -----

  lemma {:induction false} LiveConcat(s: seq<Fact>, t: seq<Fact>)
    ensures LiveOf(s + t) == LiveOf(s) + LiveOf(t)
  {
    var all := set f | f in s + t && f.rx.None?;
    KeepConcat(s, t, all);
    KeepAgrees(s, all, set f | f in s && f.rx.None?);
    KeepAgrees(t, all, set f | f in t && f.rx.None?);
  }

  lemma LiveOne(f: Fact)
    ensures LiveOf([f]) == if f.rx.None? then [f] else []
  {
    var live := set g | g in [f] && g.rx.None?;
    if f.rx.None? { KeepAll([f], live); } else { KeepNone([f], live); }
  }

  lemma {:induction false} LiveRetired(schema: Schema, table: seq<Fact>, gone: set<Fact>, tx: int)
    ensures LiveOf(Retired(schema, table, gone, tx)) == Keep(table, set f | f in table && f.rx.None? && f !in gone)
  {
    if table != [] {
      var head, rest := RetireRow(schema, table[0], gone, tx), Retired(schema, table[1..], gone, tx);
      LiveRetired(schema, table[1..], gone, tx);
      LiveConcat(head, rest);
      if head != [] { LiveOne(head[0]); }
      assert LiveOf(head) == if table[0].rx.None? && table[0] !in gone then [table[0]] else [];
      KeepAgrees(table[1..], (set f | f in table[1..] && f.rx.None? && f !in gone), (set f | f in table && f.rx.None? && f !in gone));
    }
  }

  /** After a commit the live facts are the old ones without the retracted, then the new ones. */
  lemma LiveInstalled(schema: Schema, table: seq<Fact>, next: nat, gone: set<Fact>, keys: seq<Triple>, tx: int)
    ensures LiveOf(Install(schema, table, next, gone, keys, tx))
         == Keep(table, set f | f in table && f.rx.None? && f !in gone) + Fresh(next, keys, tx)
  {
    var added := Fresh(next, keys, tx);
    LiveConcat(Retired(schema, table, gone, tx), added);
    LiveRetired(schema, table, gone, tx);
    KeepAll(added, set f | f in added && f.rx.None?);
  }

  /** At or after its last transaction, a table's view is its live facts. */
  lemma {:induction false} ViewNow(table: seq<Fact>, basis: int)
    requires forall f :: f in table ==> f.tx <= basis && (f.rx.Some? ==> f.rx.value <= basis)
    ensures AsOf(table, basis) == table && View(table, basis) == LiveOf(table)
  {
    if table != [] {
      ViewNow(table[1..], basis);
    }
  }
}
