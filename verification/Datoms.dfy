/** What datom pages mean in terms of the stored rows: which datoms a source holds, in which
    order of the columns they come, and that replaying the datoms of the history source up to a
    basis gives the facts of that basis. */
module Datoms {
  import opened Facts
  import opened Planner
  import opened Localization
  import opened Identities
  import opened History
  import opened Store
  import opened Soundness
  import opened Runs
  import opened Constraints
  import opened Paging
  import opened Snapshot
  import opened Retained

  // ----- what a source holds -----

  /** The datom reports the assertion or the retraction of a stored row, no later than `basis`. */
  ghost predicate InHistory(table: seq<Fact>, basis: int, d: Datom) {
    exists f :: f in table && f.id == d.id && f.key == d.key && d.tx <= basis
                && (if d.added then f.tx == d.tx else f.rx == Some(d.tx))
  }

  /** The datom reports a row asserted no later than `basis` and not retracted by then. */
  ghost predicate InCurrent(table: seq<Fact>, basis: int, d: Datom) {
    d.added && exists f :: f in table && f.id == d.id && f.key == d.key && f.tx == d.tx && f.tx <= basis
                           && (f.rx.None? || f.rx.value > basis)
  }

  ghost predicate Held(source: Source, table: seq<Fact>, basis: int, d: Datom) {
    if source.Current? then InCurrent(table, basis, d) else InHistory(table, basis, d)
  }

  lemma {:induction false} HistoryExactly(table: seq<Fact>, basis: int, d: Datom)
    ensures d in AllDatoms(Recorded, basis, table) <==>
      exists f :: f in table && f.id == d.id && f.key == d.key && d.tx <= basis
                  && (if d.added then f.tx == d.tx else f.rx == Some(d.tx))
  {
    if table != [] {
      HistoryExactly(table[1..], basis, d);
      assert forall g :: g in table <==> g == table[0] || g in table[1..];
    }
  }

  lemma {:induction false} CurrentExactly(table: seq<Fact>, basis: int, d: Datom)
    ensures d in AllDatoms(Current, basis, table) <==>
      (d.added && exists f :: f in table && f.id == d.id && f.key == d.key && f.tx == d.tx && f.tx <= basis
                              && (f.rx.None? || f.rx.value > basis))
  {
    if table != [] {
      CurrentExactly(table[1..], basis, d);
      assert forall g :: g in table <==> g == table[0] || g in table[1..];
    }
  }

  /** The facts visible at a basis: asserted no later, and not retracted by then. */
  lemma ViewExactly(table: seq<Fact>, basis: int, k: Triple)
    ensures k in Keys(View(table, basis)) <==>
      exists f :: f in table && f.key == k && f.tx <= basis && (f.rx.None? || f.rx.value > basis)
  {
    var seen := AsOf(table, basis);
    if k in Keys(View(table, basis)) {
      var f :| f in LiveOf(seen) && f.key == k;
      AsOfRows(table, basis, f);
    }
    forall g | g in table && g.key == k && g.tx <= basis && (g.rx.None? || g.rx.value > basis)
      ensures k in Keys(View(table, basis))
    {
      AsOfRows(table, basis, g.(rx := None));
      assert g.(rx := None) in LiveOf(seen);
    }
  }

  // ----- the orders -----

  /** After the index columns: tag, transaction, retractions before assertions, row id. */
  predicate ThenBefore(d: Datom, d': Datom) {
    if d.key.v.tag != d'.key.v.tag then d.key.v.tag < d'.key.v.tag
    else if d.tx != d'.tx then d.tx < d'.tx
    else if d.added != d'.added then d'.added
    else d.id < d'.id
  }

  /** The columns of each index, in the order its name gives. */
  predicate ColumnsBefore(index: Index, d: Datom, d': Datom) {
    var k, k' := d.key, d'.key;
    match index
    case Eavt =>
      if k.e != k'.e then k.e < k'.e
      else if k.a != k'.a then k.a < k'.a
      else if k.v.cell != k'.v.cell then k.v.cell < k'.v.cell
      else ThenBefore(d, d')
    case Avet =>
      if k.a != k'.a then k.a < k'.a
      else if k.v.cell != k'.v.cell then k.v.cell < k'.v.cell
      else if k.e != k'.e then k.e < k'.e
      else ThenBefore(d, d')
    case Vaet =>
      if k.v.cell != k'.v.cell then k.v.cell < k'.v.cell
      else if k.a != k'.a then k.a < k'.a
      else if k.e != k'.e then k.e < k'.e
      else ThenBefore(d, d')
  }

  lemma LexStep(s: seq<int>, t: seq<int>, x: int, y: int)
    requires |s| == |t|
    ensures LexLess([x] + s, [y] + t) <==> x < y || (x == y && LexLess(s, t))
  {
    assert ([x] + s)[1..] == s && ([y] + t)[1..] == t;
  }

  lemma LexFour(s: seq<int>, t: seq<int>)
    requires |s| == |t| == 4
    ensures LexLess(s, t) <==>
      if s[0] != t[0] then s[0] < t[0]
      else if s[1] != t[1] then s[1] < t[1]
      else if s[2] != t[2] then s[2] < t[2]
      else s[3] < t[3]
  {
    LexStep([], [], s[3], t[3]);
    LexStep([s[3]], [t[3]], s[2], t[2]);
    LexStep([s[2], s[3]], [t[2], t[3]], s[1], t[1]);
    LexStep([s[1], s[2], s[3]], [t[1], t[2], t[3]], s[0], t[0]);
    assert [s[3]] + [] == [s[3]] && [t[3]] + [] == [t[3]];
    assert [s[2]] + [s[3]] == [s[2], s[3]] && [t[2]] + [t[3]] == [t[2], t[3]];
    assert [s[1]] + [s[2], s[3]] == [s[1], s[2], s[3]] && [t[1]] + [t[2], t[3]] == [t[1], t[2], t[3]];
    assert s == [s[0]] + [s[1], s[2], s[3]] && t == [t[0]] + [t[1], t[2], t[3]];
  }

  lemma LexThree(a: seq<int>, b: seq<int>, s: seq<int>, t: seq<int>)
    requires |a| == |b| == 3 && |s| == |t|
    ensures LexLess(a + s, b + t) <==>
      if a[0] != b[0] then a[0] < b[0]
      else if a[1] != b[1] then a[1] < b[1]
      else if a[2] != b[2] then a[2] < b[2]
      else LexLess(s, t)
  {
    hide LexLess;
    Peel(a, s);
    Peel(b, t);
    LexStep(s, t, a[2], b[2]);
    LexStep([a[2]] + s, [b[2]] + t, a[1], b[1]);
    LexStep([a[1]] + ([a[2]] + s), [b[1]] + ([b[2]] + t), a[0], b[0]);
  }

  lemma Peel(a: seq<int>, s: seq<int>)
    requires |a| == 3
    ensures a + s == [a[0]] + ([a[1]] + ([a[2]] + s))
  {
  }

  /** The page order compares the columns of the index one after the other. */
  lemma OrderExactly(index: Index, d: Datom, d': Datom)
    ensures Before(index, d, d') <==> ColumnsBefore(index, d, d')
  {
    hide LexLess;
    var s, t := [d.key.v.tag, d.tx, Flag(d.added), d.id], [d'.key.v.tag, d'.tx, Flag(d'.added), d'.id];
    LexFour(s, t);
    var a, b := Rank(index, d)[..3], Rank(index, d')[..3];
    assert Rank(index, d) == a + s && Rank(index, d') == b + t;
    LexThree(a, b, s, t);
  }

  // ----- one read -----

  /** When a page read succeeds and how it fails. */
  lemma ReadExactly(db: Db, asOf: Option<int>, options: Options, limit: int, cursor: Option<Cursor>)
    ensures ReadPage(db, asOf, options, limit, cursor) == Err(TooLarge) <==> limit < 0 || limit > 1000
    ensures ReadPage(db, asOf, options, limit, cursor).Ok? <==>
      && 0 <= limit <= 1000
      && (cursor.Some? ==>
            && cursor.value.options == options
            && cursor.value.basis <= Basis(db.events)
            && (asOf.Some? ==> cursor.value.basis <= asOf.value))
    ensures var reply := ReadPage(db, asOf, options, limit, cursor);
      reply.Err? ==> reply.error == TooLarge || (reply.error == Conflict && cursor.Some?)
  {
  }

  /** The page of a first read is pinned to the smaller of the two bases; every page holds at most
      as many datoms as asked for, and exactly as many if more follow. */
  lemma PageExactly(db: Db, asOf: Option<int>, options: Options, limit: int, cursor: Option<Cursor>, page: Page)
    requires ReadPage(db, asOf, options, limit, cursor) == Ok(page)
    ensures cursor.None? ==>
      && page.basis <= Basis(db.events) && (asOf.Some? ==> page.basis <= asOf.value)
      && (page.basis == Basis(db.events) || asOf == Some(page.basis))
    ensures var size := if limit == 0 then 100 else limit;
      |page.items| <= size && (page.next.Some? ==> |page.items| == size)
  {
  }

  // ----- all pages -----

  /** The components that are given must be met, and the reference index holds references only. */
  predicate Asked(options: Options, d: Datom) {
    var c := options.components;
    && (options.index.Vaet? ==> d.key.v.tag == TAG_REF)
    && (c.e.Some? ==> d.key.e == c.e.value)
    && (c.a.Some? ==> d.key.a == c.a.value)
    && (c.v.Some? ==> d.key.v == c.v.value)
    && (c.tx.Some? ==> d.tx == c.tx.value)
    && (c.added.Some? ==> d.added == c.added.value)
  }

  /** A pinned list is determined by the rows: what it holds and in which order. */
  lemma PinnedExactly(db: Db, options: Options, basis: int)
    requires Sound(db)
    ensures forall d :: d in Pinned(db, options, basis) <==> Asked(options, d) && Held(options.source, db.table, basis, d)
    ensures var list := Pinned(db, options, basis);
      forall i, j :: 0 <= i < j < |list| ==> ColumnsBefore(options.index, list[i], list[j])
  {
    hide Sound, AsOf, ColumnsBefore, Sort, AllDatoms;
    var all := AllDatoms(options.source, basis, AsOf(db.table, basis));
    var list := Pinned(db, options, basis);
    Sorts(options.index, Matching(options, None, all));
    forall d ensures d in list <==> Asked(options, d) && Held(options.source, db.table, basis, d) {
      RowsBehind(db, options.source, basis, d);
      assert d in list <==> d in all && Wanted(options, d);
    }
    forall i, j | 0 <= i < j < |list| ensures ColumnsBefore(options.index, list[i], list[j]) {
      OrderExactly(options.index, list[i], list[j]);
    }
  }

  lemma RowsBehind(db: Db, source: Source, basis: int, d: Datom)
    requires Sound(db)
    ensures d in AllDatoms(source, basis, AsOf(db.table, basis)) <==> Held(source, db.table, basis, d)
  {
    forall f | f in db.table ensures f.rx.Some? ==> f.tx < f.rx.value {
      SoundRow(db, f);
    }
    hide Sound, AllDatoms, AsOf;
    DatomsPinned(source, basis, db.table);
    HistoryExactly(db.table, basis, d);
    CurrentExactly(db.table, basis, d);
  }

  /** Reading all pages of a cursor at any moments of a run lists, in the order of the index's
      columns, exactly the datoms that the rows of the first page's state hold at its basis. */
  lemma PagesHold(schema: Schema, dbs: seq<Db>, steps: seq<Step>, asOf: Option<int>, options: Options,
                  moments: seq<Moment>, pages: seq<Page>)
    requires IsRun(schema, dbs, steps) && Chain(dbs, asOf, options, moments, pages) && pages[|pages| - 1].next.None?
    requires forall n :: 0 <= n < |steps| < |dbs| ==> KeepsHistory(schema, dbs[n], steps[n])
    ensures |moments| == |pages| > 0 && moments[0].at < |dbs|
    ensures var first, items := dbs[moments[0].at], Items(pages);
      && pages[0].basis == (if asOf.Some? && asOf.value < Basis(first.events) then asOf.value else Basis(first.events))
      && (forall d :: d in items <==> Asked(options, d) && Held(options.source, first.table, pages[0].basis, d))
      && forall i, j :: 0 <= i < j < |items| ==> ColumnsBefore(options.index, items[i], items[j])
  {
    hide IsRun, KeepsHistory, Pinned, Held, Asked, ColumnsBefore, Raw;
    PagesAreTheList(schema, dbs, steps, asOf, options, moments, pages);
    RunLength(schema, dbs, steps);
    RunSound(schema, dbs, steps, moments[0].at);
    PinnedExactly(dbs[moments[0].at], options, pages[0].basis);
  }

  // ----- replaying the history -----

  /** Replays datoms: an added fact comes in, a retracted one goes. */
  function Replayed(list: seq<Datom>): set<Triple> {
    if list == [] then {}
    else
      var before, last := Replayed(list[..|list| - 1]), list[|list| - 1];
      if last.added then before + {last.key} else before - {last.key}
  }

  /** Some datom adds the fact and no later one retracts it. */
  ghost predicate Stays(list: seq<Datom>, i: int) {
    0 <= i < |list| && list[i].added
    && forall j :: i < j < |list| ==> !(list[j].key == list[i].key && !list[j].added)
  }

  lemma {:induction false} ReplayedExactly(list: seq<Datom>, k: Triple)
    ensures k in Replayed(list) <==> exists i :: Stays(list, i) && list[i].key == k
  {
    if list != [] {
      var n := |list| - 1;
      var shorter := list[..n];
      ReplayedExactly(shorter, k);
      if k in Replayed(list) {
        if list[n].added && list[n].key == k {
          assert Stays(list, n);
        } else {
          var i :| Stays(shorter, i) && shorter[i].key == k;
          assert Stays(list, i) && list[i].key == k;
        }
      }
      if i :| Stays(list, i) && list[i].key == k {
        if i < n { assert Stays(shorter, i) && shorter[i].key == k; }
      }
    }
  }

  /** Among datoms of one fact every index orders by transaction, and retractions come first. */
  lemma SameFactOrder(index: Index, d: Datom, d': Datom)
    requires d.key == d'.key && ColumnsBefore(index, d, d')
    ensures d.tx < d'.tx || (d.tx == d'.tx && (d.added ==> d'.added))
  {
  }

  lemma ReplayKeeps(db: Db, index: Index, basis: int, list: seq<Datom>, i: nat)
    requires Sound(db) && LayeredById(db.table)
    requires forall d :: d in list ==> InHistory(db.table, basis, d)
    requires forall i, j :: 0 <= i < j < |list| ==> ColumnsBefore(index, list[i], list[j])
    requires i < |list| && list[i].added && InCurrent(db.table, basis, list[i])
    ensures Stays(list, i)
  {
    hide Sound, ColumnsBefore;
    var f :| f in db.table && f.id == list[i].id && f.key == list[i].key && f.tx == list[i].tx && (f.rx.None? || f.rx.value > basis);
    forall j | i < j < |list| && list[j].key == list[i].key && !list[j].added ensures false {
      SameFactOrder(index, list[i], list[j]);
      assert list[j] in list;
      var g :| g in db.table && g.id == list[j].id && g.key == f.key && g.rx == Some(list[j].tx);
      SoundRow(db, g);
      OneRowPerId(db, f, g);
    }
  }

  lemma OneRowPerId(db: Db, f: Fact, g: Fact)
    requires Sound(db) && f in db.table && g in db.table && f.id == g.id
    ensures f == g
  {
    var i :| 0 <= i < |db.table| && db.table[i] == f;
    var j :| 0 <= j < |db.table| && db.table[j] == g;
  }

  /** Replaying the history datoms of some facts, in the order of any index, gives those of the
      facts that are visible at the basis. */
  lemma ReplayIsView(db: Db, index: Index, basis: int, list: seq<Datom>, chosen: iset<Triple>)
    requires Sound(db) && LayeredById(db.table)
    requires forall d :: d in list <==> d.key in chosen && InHistory(db.table, basis, d)
    requires forall i, j :: 0 <= i < j < |list| ==> ColumnsBefore(index, list[i], list[j])
    ensures forall k :: k in Replayed(list) <==> k in chosen && k in Keys(View(db.table, basis))
  {
    hide Sound, LayeredById, ColumnsBefore, View, Replayed;
    forall k ensures k in Replayed(list) <==> k in chosen && k in Keys(View(db.table, basis)) {
      ReplayedExactly(list, k);
      ViewExactly(db.table, basis, k);
      if i :| Stays(list, i) && list[i].key == k {
        StayingIsVisible(db, index, basis, list, chosen, i);
      }
      if k in chosen && k in Keys(View(db.table, basis)) {
        var f :| f in db.table && f.key == k && f.tx <= basis && (f.rx.None? || f.rx.value > basis);
        var d := Datom(f.id, k, f.tx, true);
        assert InHistory(db.table, basis, d) && d in list;
        var i :| 0 <= i < |list| && list[i] == d;
        ReplayKeeps(db, index, basis, list, i);
      }
    }
  }

  lemma StayingIsVisible(db: Db, index: Index, basis: int, list: seq<Datom>, chosen: iset<Triple>, i: int)
    requires Sound(db) && Stays(list, i)
    requires forall d :: d in list <==> d.key in chosen && InHistory(db.table, basis, d)
    requires forall i, j :: 0 <= i < j < |list| ==> ColumnsBefore(index, list[i], list[j])
    ensures list[i].key in chosen
    ensures exists f :: f in db.table && f.key == list[i].key && f.tx <= basis && (f.rx.None? || f.rx.value > basis)
  {
    hide Sound, ColumnsBefore;
    assert list[i] in list && list[i].added;
    var f :| f in db.table && f.id == list[i].id && f.key == list[i].key && f.tx == list[i].tx && f.tx <= basis;
    if f.rx.Some? && f.rx.value <= basis {
      SoundRow(db, f);
      var d := Datom(f.id, f.key, f.rx.value, false);
      assert InHistory(db.table, basis, d) && d in list;
      var j :| 0 <= j < |list| && list[j] == d;
      if j < i { SameFactOrder(index, list[j], list[i]); }
    }
  }

  /** In every state of a run from a pristine store: all pages of a history cursor that
      constrains facts only, replayed in page order, give exactly the facts visible at the
      cursor's basis that meet the constraint. */
  lemma HistoryReplays(schema: Schema, dbs: seq<Db>, steps: seq<Step>, asOf: Option<int>, options: Options,
                       moments: seq<Moment>, pages: seq<Page>)
    requires IsRun(schema, dbs, steps) && Pristine(dbs[0])
    requires Chain(dbs, asOf, options, moments, pages) && pages[|pages| - 1].next.None?
    requires forall n :: 0 <= n < |steps| < |dbs| ==> KeepsHistory(schema, dbs[n], steps[n])
    requires options.source == Recorded && options.components.tx.None? && options.components.added.None?
    ensures |moments| == |pages| > 0 && moments[0].at < |dbs|
    ensures forall k :: k in Replayed(Items(pages)) <==>
      && k in Keys(View(dbs[moments[0].at].table, pages[0].basis))
      && (options.index.Vaet? ==> k.v.tag == TAG_REF)
      && (options.components.e.Some? ==> k.e == options.components.e.value)
      && (options.components.a.Some? ==> k.a == options.components.a.value)
      && (options.components.v.Some? ==> k.v == options.components.v.value)
  {
    hide IsRun, KeepsHistory, InHistory, InCurrent, ColumnsBefore, Chain, Sound, LayeredById, View, Replayed, Pristine;
    PagesHold(schema, dbs, steps, asOf, options, moments, pages);
    var first := dbs[moments[0].at];
    RunSound(schema, dbs, steps, moments[0].at);
    RunRetains(schema, dbs, steps, moments[0].at);
    var chosen := iset k: Triple | Asked(options, Datom(0, k, 0, true));
    assert forall d :: Asked(options, d) <==> d.key in chosen;
    ReplayIsView(first, options.index, pages[0].basis, Items(pages), chosen);
  }
}
