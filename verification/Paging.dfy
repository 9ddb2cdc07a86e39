/** Datom paging: a page is a bounded, ordered query after a seek position, and its cursor pins
    the basis of the first page.  This module proves that the pages of a cursor, read at any
    later moments of a run, are together exactly the ordered datom list of the first page's
    basis, without gap or repeat. */
module Paging {
  import opened Facts
  import opened Planner
  import opened Localization
  import opened Identities
  import opened History
  import opened Store
  import opened Soundness
  import opened Runs
  import opened Constraints

  const MAX_PAGE := 1000

  datatype Index = Eavt | Avet | Vaet

  datatype Source = Current | Recorded

  datatype Datom = Datom(id: nat, key: Triple, tx: int, added: bool)

  /** Resolved index components; an absent one does not constrain. */
  datatype Components = Components(e: Option<int>, a: Option<int>, v: Option<Value>, tx: Option<int>, added: Option<bool>)

  datatype Options = Options(index: Index, source: Source, components: Components)

  /** A cursor names the arguments it belongs to, the pinned basis and the last datom returned. */
  datatype Cursor = Cursor(options: Options, basis: int, seek: Datom)

  datatype Page = Page(items: seq<Datom>, basis: int, next: Option<Cursor>)

  // ----- what is selected -----

  predicate Fits<T(==)>(want: Option<T>, got: T) {
    want.None? || want.value == got
  }

  predicate Wanted(options: Options, d: Datom) {
    var c := options.components;
    && (options.index == Vaet ==> d.key.v.tag == TAG_REF)
    && Fits(c.e, d.key.e) && Fits(c.a, d.key.a) && Fits(c.v, d.key.v) && Fits(c.tx, d.tx) && Fits(c.added, d.added)
  }

  function DatomsOf(source: Source, basis: int, f: Fact): seq<Datom> {
    match source
    case Current =>
      if f.tx <= basis && (f.rx.None? || f.rx.value > basis) then [Datom(f.id, f.key, f.tx, true)] else []
    case Recorded =>
      (if f.tx <= basis then [Datom(f.id, f.key, f.tx, true)] else [])
      + (if f.rx.Some? && f.rx.value <= basis then [Datom(f.id, f.key, f.rx.value, false)] else [])
  }

  function AllDatoms(source: Source, basis: int, table: seq<Fact>): seq<Datom> {
    if table == [] then [] else DatomsOf(source, basis, table[0]) + AllDatoms(source, basis, table[1..])
  }

  /** The short cut for the current source at the current basis reads the live rows only. */
  function LiveDatoms(table: seq<Fact>): seq<Datom> {
    if table == [] then []
    else (if table[0].rx.None? then [Datom(table[0].id, table[0].key, table[0].tx, true)] else []) + LiveDatoms(table[1..])
  }

  function Selected(db: Db, source: Source, basis: int): seq<Datom> {
    if source == Current && basis == Basis(db.events) then LiveDatoms(db.table)
    else AllDatoms(source, basis, db.table)
  }

  // ----- the order -----

  function Flag(b: bool): int { if b then 1 else 0 }

  function Rank(index: Index, d: Datom): seq<int> {
    var k := d.key;
    (match index
     case Eavt => [k.e, k.a, k.v.cell]
     case Avet => [k.a, k.v.cell, k.e]
     case Vaet => [k.v.cell, k.a, k.e])
    + [k.v.tag, d.tx, Flag(d.added), d.id]
  }

  predicate LexLess(s: seq<int>, t: seq<int>)
    requires |s| == |t|
  {
    s != [] && (s[0] < t[0] || (s[0] == t[0] && LexLess(s[1..], t[1..])))
  }

  predicate Before(index: Index, d: Datom, d': Datom) {
    LexLess(Rank(index, d), Rank(index, d'))
  }

  lemma {:induction false} LexTotal(s: seq<int>, t: seq<int>)
    requires |s| == |t|
    ensures LexLess(s, t) || LexLess(t, s) || s == t
    ensures !LexLess(s, s) && !(LexLess(s, t) && LexLess(t, s))
  {
    if s != [] {
      LexTotal(s[1..], t[1..]);
      LexTotal(s[1..], s[1..]);
    }
  }

  lemma {:induction false} LexTransitive(s: seq<int>, t: seq<int>, u: seq<int>)
    requires |s| == |t| == |u| && LexLess(s, t) && LexLess(t, u)
    ensures LexLess(s, u)
  {
    if s[0] == t[0] == u[0] {
      LexTransitive(s[1..], t[1..], u[1..]);
    }
  }

  lemma SameRank(index: Index, d: Datom, d': Datom)
    requires Rank(index, d) == Rank(index, d')
    ensures d == d'
  {
    var r, r' := Rank(index, d), Rank(index, d');
    assert r[0] == r'[0] && r[1] == r'[1] && r[2] == r'[2] && r[3] == r'[3] && r[4] == r'[4] && r[5] == r'[5] && r[6] == r'[6];
  }

  lemma BeforeTotal(index: Index, d: Datom, d': Datom)
    ensures Before(index, d, d') || Before(index, d', d) || d == d'
    ensures !Before(index, d, d) && !(Before(index, d, d') && Before(index, d', d))
  {
    LexTotal(Rank(index, d), Rank(index, d'));
    if Rank(index, d) == Rank(index, d') { SameRank(index, d, d'); }
  }

  lemma BeforeTransitive(index: Index, d: Datom, d': Datom, d'': Datom)
    requires Before(index, d, d') && Before(index, d', d'')
    ensures Before(index, d, d'')
  {
    LexTransitive(Rank(index, d), Rank(index, d'), Rank(index, d''));
  }

  ghost predicate Ordered(index: Index, list: seq<Datom>) {
    forall i, j :: 0 <= i < j < |list| ==> Before(index, list[i], list[j])
  }

  /** Insertion into an ordered list; a datom that is there already is not repeated. */
  function Insert(index: Index, list: seq<Datom>, d: Datom): seq<Datom> {
    if list == [] then [d]
    else if d == list[0] then list
    else if Before(index, d, list[0]) then [d] + list
    else [list[0]] + Insert(index, list[1..], d)
  }

  function Sort(index: Index, list: seq<Datom>): seq<Datom> {
    if list == [] then [] else Insert(index, Sort(index, list[1..]), list[0])
  }

  lemma {:induction false} InsertElements(index: Index, list: seq<Datom>, d: Datom)
    ensures forall x :: x in Insert(index, list, d) <==> x == d || x in list
  {
    if list != [] {
      InsertElements(index, list[1..], d);
    }
  }

  lemma {:induction false} InsertOrdered(index: Index, list: seq<Datom>, d: Datom)
    requires Ordered(index, list)
    ensures Ordered(index, Insert(index, list, d))
  {
    if list == [] {
    } else {
      var head, rest := list[0], list[1..];
      assert Ordered(index, rest);
      BeforeTotal(index, d, head);
      InsertOrdered(index, rest, d);
      InsertElements(index, rest, d);
      if d == head {
      } else if Before(index, d, head) {
        forall x | x in rest ensures Before(index, d, x) {
          BeforeTransitive(index, d, head, x);
        }
        ConsOrdered(index, d, list);
      } else {
        ConsOrdered(index, head, Insert(index, rest, d));
      }
    }
  }

  lemma ConsOrdered(index: Index, d: Datom, list: seq<Datom>)
    requires Ordered(index, list) && forall x :: x in list ==> Before(index, d, x)
    ensures Ordered(index, [d] + list)
  {
  }

  lemma {:induction false} Sorts(index: Index, list: seq<Datom>)
    ensures Ordered(index, Sort(index, list)) && forall x :: x in Sort(index, list) <==> x in list
  {
    if list != [] {
      Sorts(index, list[1..]);
      InsertOrdered(index, Sort(index, list[1..]), list[0]);
      InsertElements(index, Sort(index, list[1..]), list[0]);
    }
  }

  /** The order leaves no freedom. */
  lemma {:induction false} OrderedUnique(index: Index, s: seq<Datom>, t: seq<Datom>)
    requires Ordered(index, s) && Ordered(index, t) && forall x :: x in s <==> x in t
    ensures s == t
  {
    assert |s| == 0 <==> |t| == 0 by {
      assert |s| != 0 ==> s[0] in t;
      assert |t| != 0 ==> t[0] in s;
    }
    if s != [] {
      assert s[0] in t && t[0] in s;
      BeforeTotal(index, s[0], t[0]);
      forall x ensures x in s[1..] <==> x in t[1..] {
        BeforeTotal(index, x, x);
        if x in s[1..] { assert x in t; }
        if x in t[1..] { assert x in s; }
      }
      OrderedUnique(index, s[1..], t[1..]);
    }
  }

  // ----- a page -----

  /** The rows the query sees before it orders and limits them. */
  function Matching(options: Options, seek: Option<Datom>, list: seq<Datom>): seq<Datom> {
    Keep(list, set d | d in list && Wanted(options, d) && (seek.Some? ==> Before(options.index, seek.value, d)))
  }

  function Take<T>(list: seq<T>, n: nat): seq<T> {
    if |list| <= n then list else list[..n]
  }

  function Raw(db: Db, options: Options, basis: int, seek: Option<Datom>, limit: nat): seq<Datom> {
    Take(Sort(options.index, Matching(options, seek, Selected(db, options.source, basis))), limit + 1)
  }

  function PageOf(options: Options, basis: int, raw: seq<Datom>, limit: nat): Page
    requires limit > 0
  {
    if |raw| > limit then Page(raw[..limit], basis, Some(Cursor(options, basis, raw[limit - 1])))
    else Page(raw, basis, None)
  }

  /** Limit 0 asks for the default. */
  function Limit(limit: int): Option<nat> {
    var n := if limit == 0 then 100 else limit;
    if n < 1 || n > MAX_PAGE then None else Some(n)
  }

  function ReadPage(db: Db, asOf: Option<int>, options: Options, limit: int, cursor: Option<Cursor>): Result<Page> {
    var current := Basis(db.events);
    var n := Limit(limit);
    if n.None? then Err(TooLarge)
    else
      match cursor
      case None =>
        var basis := if asOf.Some? && asOf.value < current then asOf.value else current;
        Ok(PageOf(options, basis, Raw(db, options, basis, None, n.value), n.value))
      case Some(c) =>
        if c.options != options then Err(Conflict)
        else if c.basis > current || (asOf.Some? && c.basis > asOf.value) then Err(Conflict)
        else Ok(PageOf(options, c.basis, Raw(db, options, c.basis, Some(c.seek), n.value), n.value))
  }

  // ----- pages of one basis -----

  /** The query after position n of the full list finds exactly the rest of it. */
  lemma SeekFindsRest(options: Options, list: seq<Datom>, n: nat)
    requires var full := Sort(options.index, Matching(options, None, list)); 0 < n <= |full|
    ensures var full := Sort(options.index, Matching(options, None, list));
      Sort(options.index, Matching(options, Some(full[n - 1]), list)) == full[n..]
  {
    var index := options.index;
    var full := Sort(index, Matching(options, None, list));
    var last := full[n - 1];
    var rest := Matching(options, Some(last), list);
    Sorts(index, Matching(options, None, list));
    Sorts(index, rest);
    forall d ensures d in rest <==> d in full[n..] {
      if d in full[n..] {
        var j :| n <= j < |full| && full[j] == d;
        assert Before(index, full[n - 1], full[j]) && full[j] in full;
      }
      if d in rest {
        assert d in full;
        var j :| 0 <= j < |full| && full[j] == d;
        BeforeTotal(index, d, last);
        assert !(j < n - 1) && j != n - 1;
      }
    }
    OrderedUnique(index, Sort(index, rest), full[n..]);
  }

  // ----- the pinned basis -----

  /** What a pinned reader selects depends on the recorded history up to its basis only. */
  lemma {:induction false} DatomsPinned(source: Source, basis: int, table: seq<Fact>)
    requires forall f :: f in table && f.rx.Some? ==> f.tx < f.rx.value
    ensures AllDatoms(source, basis, table) == AllDatoms(source, basis, AsOf(table, basis))
  {
    if table != [] {
      DatomsPinned(source, basis, table[1..]);
      assert table[0] in table;
      if table[0].tx <= basis {
        var shown, rest := Shown(table[0], basis), AsOf(table[1..], basis);
        assert AsOf(table, basis) == [shown] + rest && ([shown] + rest)[1..] == rest;
      } else {
        assert AsOf(table, basis) == AsOf(table[1..], basis);
      }
    }
  }

  lemma {:induction false} LiveDatomsAre(basis: int, table: seq<Fact>)
    requires forall f :: f in table ==> f.tx <= basis && (f.rx.Some? ==> f.rx.value <= basis)
    ensures LiveDatoms(table) == AllDatoms(Current, basis, table)
  {
    if table != [] {
      LiveDatomsAre(basis, table[1..]);
      assert table[0] in table;
    }
  }

  /** The short cut selects the same rows. */
  lemma SelectedAre(db: Db, source: Source, basis: int)
    requires Sound(db)
    ensures Selected(db, source, basis) == AllDatoms(source, basis, AsOf(db.table, basis))
  {
    TxsBounded(db);
    forall f | f in db.table
      ensures f.rx.Some? ==> f.tx < f.rx.value
      ensures f.tx <= Basis(db.events) && (f.rx.Some? ==> f.rx.value <= Basis(db.events))
    {
      assert RowOk(db, f);
    }
    LiveDatomsAre(Basis(db.events), db.table);
    DatomsPinned(source, basis, db.table);
  }

  /** The step commits nothing, or a transaction that deletes no history. */
  ghost predicate KeepsHistory(schema: Schema, db: Db, step: Step) {
    step.Write? && forall f :: f in DeltaOf(schema, db, step.req).retractions ==> f.key.a !in schema.nohistory
  }

  lemma StepAsOf(schema: Schema, db: Db, step: Step, basis: int)
    requires Sound(db) && Admissible(db, step) && KeepsHistory(schema, db, step) && basis < db.next
    ensures AsOf(Next(schema, db, step).0.table, basis) == AsOf(db.table, basis)
    ensures basis < Next(schema, db, step).0.next
    ensures Basis(db.events) <= Basis(Next(schema, db, step).0.events)
  {
    var (db', reply) := Next(schema, db, step);
    StepCases(schema, db, step);
    if reply.Applied? {
      var delta := DeltaOf(schema, db, step.req);
      CommitAsOf(schema, db, step.req, delta, basis);
    }
  }

  lemma CommitAsOf(schema: Schema, db: Db, req: Request, delta: Delta, basis: int)
    requires Committing(schema, db, req, delta) && basis < db.next
    requires forall f :: f in delta.retractions ==> f.key.a !in schema.nohistory
    ensures var db' := Committed(schema, db, req, delta);
      AsOf(db'.table, basis) == AsOf(db.table, basis) && basis < db'.next && Basis(db.events) <= Basis(db'.events)
  {
    var db', tx := Committed(schema, db, req, delta), TxOf(db, req, delta);
    CommitParts(schema, db, req, delta);
    RetractionsSpareReceipts(schema, db, req, delta);
    TxsBounded(db);
    forall f | f in db.table ensures f.tx < tx {
      assert RowOk(db, f);
    }
    PastKeptExactly(schema, db.table, db.nextRow, Gone(delta), KeysOf(db, req, delta), tx);
  }

  /** As-of views are unchanged by everything that a run commits later. */
  lemma {:induction false} RunAsOf(schema: Schema, dbs: seq<Db>, steps: seq<Step>, i: nat, j: nat, basis: int)
    requires IsRun(schema, dbs, steps) && i <= j < |dbs| && basis <= Basis(dbs[i].events)
    requires forall n :: i <= n < j && n < |steps| ==> KeepsHistory(schema, dbs[n], steps[n])
    ensures AsOf(dbs[j].table, basis) == AsOf(dbs[i].table, basis)
    ensures basis <= Basis(dbs[j].events)
  {
    hide *;
    RunLength(schema, dbs, steps);
    if i < j {
      RunAsOf(schema, dbs, steps, i, j - 1, basis);
      RunStep(schema, dbs, steps, j - 1);
      NextFollows(dbs[j - 1]);
      StepAsOf(schema, dbs[j - 1], steps[j - 1], basis);
    }
  }

  lemma NextFollows(db: Db)
    requires Sound(db)
    ensures db.next == Basis(db.events) + 1
  {
  }

  // ----- pages over a run -----

  /** One page read: in which state of the run, and with which limit. */
  datatype Moment = Moment(at: nat, limit: int)

  ghost predicate Reads(dbs: seq<Db>, asOf: Option<int>, options: Options, moment: Moment, cursor: Option<Cursor>, page: Page) {
    moment.at < |dbs| && ReadPage(dbs[moment.at], asOf, options, moment.limit, cursor) == Ok(page)
  }

  /** The pages of one cursor, read at later and later moments of a run. */
  ghost predicate Chain(dbs: seq<Db>, asOf: Option<int>, options: Options, moments: seq<Moment>, pages: seq<Page>) {
    && |moments| == |pages| > 0
    && Reads(dbs, asOf, options, moments[0], None, pages[0])
    && forall i, j :: 0 <= i < j < |pages| && j == i + 1 ==>
         moments[i].at <= moments[j].at && pages[i].next.Some? && Reads(dbs, asOf, options, moments[j], pages[i].next, pages[j])
  }

  function Items(pages: seq<Page>): seq<Datom> {
    if pages == [] then [] else Items(pages[..|pages| - 1]) + pages[|pages| - 1].items
  }

  /** The pages so far are a prefix of the list, and the cursor stands at its end. */
  ghost predicate UpTo(options: Options, basis: int, full: seq<Datom>, pages: seq<Page>)
    requires pages != []
  {
    var items, last := Items(pages), pages[|pages| - 1];
    && last.basis == basis
    && items <= full
    && (last.next.None? ==> items == full)
    && (last.next.Some? ==> 0 < |items| < |full| && last.next.value == Cursor(options, basis, full[|items| - 1]))
  }

  lemma PageSlice(full: seq<Datom>, n: nat, limit: nat)
    requires n <= |full|
    ensures var raw := Take(full[n..], limit + 1);
      if |raw| > limit then n + limit < |full| && raw[..limit] == full[n..n + limit]
      else n + |raw| == |full| && raw == full[n..n + |raw|]
  {
    var rest := full[n..];
    if |rest| > limit {
      assert rest[..limit + 1][..limit] == rest[..limit];
      assert rest[..limit] == full[n..n + limit];
    }
  }

  /** One page: from position n of the full list, it returns the next items. */
  lemma PageAt(db: Db, options: Options, basis: int, seek: Option<Datom>, limit: nat, full: seq<Datom>, n: nat)
    requires Sound(db) && limit > 0 && n <= |full|
    requires full == Sort(options.index, Matching(options, None, AllDatoms(options.source, basis, AsOf(db.table, basis))))
    requires (n == 0 && seek.None?) || (n > 0 && seek == Some(full[n - 1]))
    ensures var page := PageOf(options, basis, Raw(db, options, basis, seek, limit), limit);
      && page.basis == basis
      && n + |page.items| <= |full| && page.items == full[n..n + |page.items|]
      && (page.next.None? ==> n + |page.items| == |full|)
      && (page.next.Some? ==> |page.items| == limit && n + limit < |full| && page.next.value == Cursor(options, basis, full[n + limit - 1]))
  {
    hide Sound, Matching, AllDatoms, AsOf, Sort, Selected;
    SelectedAre(db, options.source, basis);
    if n > 0 {
      SeekFindsRest(options, AllDatoms(options.source, basis, AsOf(db.table, basis)), n);
    }
    assert full[0..] == full;
    var rest := full[n..];
    assert Raw(db, options, basis, seek, limit) == Take(rest, limit + 1);
    PageSlice(full, n, limit);
  }

  lemma ChainLink(dbs: seq<Db>, asOf: Option<int>, options: Options, moments: seq<Moment>, pages: seq<Page>)
    requires Chain(dbs, asOf, options, moments, pages)
    ensures var n := |pages| - 1;
      && |moments| == |pages| > 0 && moments[n].at < |dbs|
      && (n == 0 ==> Reads(dbs, asOf, options, moments[0], None, pages[0]))
      && (n > 0 ==> Chain(dbs, asOf, options, moments[..n], pages[..n]) && pages[n - 1].next.Some?
                    && moments[n - 1].at <= moments[n].at
                    && Reads(dbs, asOf, options, moments[n], pages[n - 1].next, pages[n]))
  {
    hide ReadPage;
    var n := |pages| - 1;
    if n > 0 {
      assert moments[n - 1].at <= moments[n].at;
      assert pages[..n][0] == pages[0] && moments[..n][0] == moments[0];
      forall i, j | 0 <= i < j < n && j == i + 1
        ensures moments[..n][i].at <= moments[..n][j].at && pages[..n][i].next.Some?
        ensures Reads(dbs, asOf, options, moments[..n][j], pages[..n][i].next, pages[..n][j])
      {
        assert moments[..n][i] == moments[i] && moments[..n][j] == moments[j] && pages[..n][i] == pages[i] && pages[..n][j] == pages[j];
        assert moments[i].at <= moments[j].at;
      }
    }
  }

  lemma {:induction false} ChainStart(dbs: seq<Db>, asOf: Option<int>, options: Options, moments: seq<Moment>, pages: seq<Page>)
    requires Chain(dbs, asOf, options, moments, pages)
    ensures |moments| == |pages| > 0 && moments[0].at <= moments[|pages| - 1].at < |dbs|
  {
    ChainLink(dbs, asOf, options, moments, pages);
    if |pages| > 1 {
      ChainStart(dbs, asOf, options, moments[..|pages| - 1], pages[..|pages| - 1]);
    }
  }

  /** What one read returns, given where its cursor stands. */
  lemma ReadAt(db: Db, asOf: Option<int>, options: Options, limit: int, cursor: Option<Cursor>, basis: int,
               full: seq<Datom>, n: nat, page: Page)
    requires Sound(db) && n <= |full| && ReadPage(db, asOf, options, limit, cursor) == Ok(page)
    requires full == Sort(options.index, Matching(options, None, AllDatoms(options.source, basis, AsOf(db.table, basis))))
    requires (n == 0 && cursor.None? && page.basis == basis) || (n > 0 && cursor == Some(Cursor(options, basis, full[n - 1])))
    ensures page.basis == basis
    ensures n + |page.items| <= |full| && page.items == full[n..n + |page.items|]
    ensures page.next.None? ==> n + |page.items| == |full|
    ensures page.next.Some? ==>
      (0 < |page.items| && n + |page.items| < |full| && page.next.value == Cursor(options, basis, full[n + |page.items| - 1]))
  {
    hide Sound, Matching, AllDatoms, AsOf, Sort, Raw;
    var seek := if cursor.Some? then Some(cursor.value.seek) else None;
    PageAt(db, options, basis, seek, Limit(limit).value, full, n);
  }

  /** The list a pinned basis stands for. */
  function Pinned(db: Db, options: Options, basis: int): seq<Datom> {
    Sort(options.index, Matching(options, None, AllDatoms(options.source, basis, AsOf(db.table, basis))))
  }

  lemma PageJoins(options: Options, basis: int, full: seq<Datom>, pages: seq<Page>, page: Page)
    requires pages != [] && UpTo(options, basis, full, pages) && pages[|pages| - 1].next.Some?
    requires var n := |Items(pages)|;
      && page.basis == basis
      && n + |page.items| <= |full| && page.items == full[n..n + |page.items|]
      && (page.next.None? ==> n + |page.items| == |full|)
      && (page.next.Some? ==> 0 < |page.items| && n + |page.items| < |full|
                              && page.next.value == Cursor(options, basis, full[n + |page.items| - 1]))
    ensures UpTo(options, basis, full, pages + [page])
  {
    assert (pages + [page])[..|pages|] == pages;
    assert Items(pages + [page]) == Items(pages) + page.items;
  }

  /** Pinned paging: the pages of one cursor, read at any later moments of a run whose commits
      keep history, are a prefix of the ordered datom list of the first page's basis, and all
      of it once a page carries no further cursor.  Nothing is skipped or repeated. */
  lemma {:induction false} PagesAreTheList(schema: Schema, dbs: seq<Db>, steps: seq<Step>, asOf: Option<int>,
                                           options: Options, moments: seq<Moment>, pages: seq<Page>)
    requires IsRun(schema, dbs, steps) && Chain(dbs, asOf, options, moments, pages)
    requires forall n :: 0 <= n < |steps| < |dbs| ==> KeepsHistory(schema, dbs[n], steps[n])
    ensures |moments| == |pages| > 0 && moments[0].at < |dbs|
    ensures var basis := pages[0].basis;
      && basis <= Basis(dbs[moments[0].at].events)
      && UpTo(options, basis, Pinned(dbs[moments[0].at], options, basis), pages)
  {
    hide *;
    RunLength(schema, dbs, steps);
    ChainLink(dbs, asOf, options, moments, pages);
    ChainStart(dbs, asOf, options, moments, pages);
    var n, first := |pages| - 1, dbs[moments[0].at];
    var basis := pages[0].basis;
    if n == 0 {
      RunSound(schema, dbs, steps, moments[0].at);
      FirstPage(dbs, asOf, options, moments[0], pages[0]);
      assert pages == [pages[0]];
    } else {
      PagesAreTheList(schema, dbs, steps, asOf, options, moments[..n], pages[..n]);
      var full := Pinned(first, options, basis);
      RunAsOf(schema, dbs, steps, moments[0].at, moments[n].at, basis);
      RunSound(schema, dbs, steps, moments[n].at);
      LaterPage(dbs, asOf, options, moments[n], first, basis, pages[..n], pages[n]);
      assert pages == pages[..n] + [pages[n]];
    }
  }

  lemma FirstPage(dbs: seq<Db>, asOf: Option<int>, options: Options, moment: Moment, page: Page)
    requires Reads(dbs, asOf, options, moment, None, page) && Sound(dbs[moment.at])
    ensures page.basis <= Basis(dbs[moment.at].events)
    ensures UpTo(options, page.basis, Pinned(dbs[moment.at], options, page.basis), [page])
  {
    hide Sound, Matching, AllDatoms, AsOf, Sort, Raw;
    ReadAt(dbs[moment.at], asOf, options, moment.limit, None, page.basis, Pinned(dbs[moment.at], options, page.basis), 0, page);
    assert [page][..0] == [];
    assert Items([page]) == page.items;
  }

  lemma LaterPage(dbs: seq<Db>, asOf: Option<int>, options: Options, moment: Moment, first: Db, basis: int,
                  pages: seq<Page>, page: Page)
    requires pages != [] && pages[|pages| - 1].next.Some? && Reads(dbs, asOf, options, moment, pages[|pages| - 1].next, page)
    requires Sound(dbs[moment.at]) && AsOf(dbs[moment.at].table, basis) == AsOf(first.table, basis)
    requires UpTo(options, basis, Pinned(first, options, basis), pages)
    ensures UpTo(options, basis, Pinned(first, options, basis), pages + [page])
  {
    hide Sound, Matching, AllDatoms, AsOf, Sort, Raw, ReadPage;
    var full := Pinned(first, options, basis);
    ReadAt(dbs[moment.at], asOf, options, moment.limit, pages[|pages| - 1].next, basis, full, |Items(pages)|, page);
    PageJoins(options, basis, full, pages, page);
  }

  /** A cursor never goes stale: every later read with a valid limit succeeds. */
  lemma CursorStaysValid(schema: Schema, dbs: seq<Db>, steps: seq<Step>, asOf: Option<int>, options: Options,
                         first: Moment, cursor: Option<Cursor>, page: Page, later: Moment)
    requires IsRun(schema, dbs, steps) && Reads(dbs, asOf, options, first, cursor, page) && page.next.Some?
    requires first.at <= later.at < |dbs| && Limit(later.limit).Some?
    requires forall n :: first.at <= n < later.at && n < |steps| ==> KeepsHistory(schema, dbs[n], steps[n])
    ensures ReadPage(dbs[later.at], asOf, options, later.limit, page.next).Ok?
  {
    hide IsRun, Raw, KeepsHistory;
    RunAsOf(schema, dbs, steps, first.at, later.at, page.basis);
  }
}
