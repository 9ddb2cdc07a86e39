/** Bounded ranking: a heap with the worst kept candidate at its root, fed with the best
    candidate of each entity.  Its result is the front of the full ranking. */
module Ranking {
  import opened Facts

  /** A scored fact of an entity.  Fact ids are distinct. */
  datatype Candidate = Candidate(e: int, id: int, score: real)

  /** Higher scores first, then lower fact ids. */
  predicate Better(c: Candidate, d: Candidate) {
    c.score > d.score || (c.score == d.score && c.id < d.id)
  }

  function Members(s: seq<Candidate>): set<Candidate> {
    set c | c in s
  }

  // ----- the full ranking -----

  ghost predicate Ranked(list: seq<Candidate>) {
    forall i, j :: 0 <= i < j < |list| ==> Better(list[i], list[j])
  }

  ghost predicate DistinctIds(list: seq<Candidate>) {
    forall i, j :: 0 <= i < j < |list| ==> list[i].id != list[j].id
  }

  function Insert(list: seq<Candidate>, c: Candidate): seq<Candidate> {
    if list == [] || Better(c, list[0]) then [c] + list else [list[0]] + Insert(list[1..], c)
  }

  /** Sorts the candidates, best first. */
  function Rank(list: seq<Candidate>): seq<Candidate> {
    if list == [] then [] else Insert(Rank(list[..|list| - 1]), list[|list| - 1])
  }

  lemma {:induction false} Inserts(list: seq<Candidate>, c: Candidate)
    requires Ranked(list) && forall d :: d in list ==> d.id != c.id
    ensures Ranked(Insert(list, c)) && |Insert(list, c)| == |list| + 1
    ensures forall d :: d in Insert(list, c) <==> d == c || d in list
  {
    if list == [] {
    } else if Better(c, list[0]) {
      assert forall d :: d in list ==> d == list[0] || Better(list[0], d);
    } else {
      Inserts(list[1..], c);
      var rest := Insert(list[1..], c);
      assert forall d :: d in rest ==> Better(list[0], d);
    }
  }

  lemma {:induction false} Ranks(list: seq<Candidate>)
    requires DistinctIds(list)
    ensures Ranked(Rank(list)) && |Rank(list)| == |list| && forall d :: d in Rank(list) <==> d in list
  {
    if list != [] {
      var n := |list| - 1;
      Ranks(list[..n]);
      Inserts(Rank(list[..n]), list[n]);
      assert list == list[..n] + [list[n]];
    }
  }

  /** A ranking is determined by its members. */
  lemma {:induction false} RankedUnique(s: seq<Candidate>, t: seq<Candidate>)
    requires Ranked(s) && Ranked(t) && forall c :: c in s <==> c in t
    ensures s == t
  {
    assert |s| == 0 <==> |t| == 0 by {
      assert |s| != 0 ==> s[0] in t;
      assert |t| != 0 ==> t[0] in s;
    }
    if s != [] {
      assert s[0] in t && t[0] in s;
      forall c ensures c in s[1..] <==> c in t[1..] {
        if c in s[1..] { assert c in t; }
        if c in t[1..] { assert c in s; }
      }
      RankedUnique(s[1..], t[1..]);
    }
  }

  lemma {:induction false} Cardinality(s: seq<Candidate>)
    requires forall i, j :: 0 <= i < j < |s| ==> s[i] != s[j]
    ensures |Members(s)| == |s|
  {
    if s != [] {
      var n := |s| - 1;
      Cardinality(s[..n]);
      assert Members(s) == Members(s[..n]) + {s[n]};
    }
  }

  lemma SubsetSize(s: set<Candidate>, t: set<Candidate>)
    requires s <= t
    ensures |s| <= |t| && (|s| == |t| ==> s == t)
  {
    assert t == s + (t - s);
    assert |t| == |s| + |t - s|;
  }

  /** `kept` are the best `limit` of the offered candidates. */
  ghost predicate Best(kept: seq<Candidate>, offered: seq<Candidate>, limit: nat) {
    && |kept| == (if |offered| < limit then |offered| else limit)
    && DistinctIds(kept)
    && (forall c :: c in kept ==> c in offered)
    && (forall c, d :: c in kept && d in offered && d !in kept ==> Better(c, d))
  }

  function Take(list: seq<Candidate>, n: nat): seq<Candidate> {
    if |list| <= n then list else list[..n]
  }

  lemma FrontIsKept(full: seq<Candidate>, kept: seq<Candidate>, offered: seq<Candidate>, limit: nat, i: nat)
    requires Ranked(full) && (forall c :: c in full <==> c in offered) && Best(kept, offered, limit) && i < |kept| && i < |full|
    ensures full[i] in kept
  {
    if full[i] !in kept {
      forall c | c in kept ensures c in full[..i] {
        assert Better(c, full[i]) && c in full;
        var j :| 0 <= j < |full| && full[j] == c;
        assert j < i;
      }
      Cardinality(kept);
      Cardinality(full[..i]);
      SubsetSize(Members(kept), Members(full[..i]));
    }
  }

  /** The kept candidates, sorted, are the front of the full ranking. */
  lemma BestIsFront(kept: seq<Candidate>, offered: seq<Candidate>, limit: nat)
    requires DistinctIds(offered) && Best(kept, offered, limit)
    ensures Rank(kept) == Take(Rank(offered), limit)
  {
    var full, n := Rank(offered), |kept|;
    Ranks(offered);
    Ranks(kept);
    var front := full[..n];
    forall i | 0 <= i < n ensures full[i] in kept {
      FrontIsKept(full, kept, offered, limit, i);
    }
    Cardinality(kept);
    Cardinality(front);
    SubsetSize(Members(front), Members(kept));
    assert forall c :: c in front <==> c in Members(front);
    assert forall c :: c in kept <==> c in Members(kept);
    RankedUnique(Rank(kept), front);
  }

  // ----- the heap -----

  function Parent(i: nat): nat
    requires i > 0
  {
    (i - 1) / 2
  }

  /** No candidate is worse than its parent, so the root is the worst. */
  ghost predicate WorstFirst(heap: seq<Candidate>) {
    forall i :: 0 < i < |heap| ==> !Better(heap[Parent(i)], heap[i])
  }

  lemma {:induction false} RootIsWorst(heap: seq<Candidate>, i: nat)
    requires WorstFirst(heap) && i < |heap|
    ensures !Better(heap[0], heap[i])
  {
    if i > 0 {
      RootIsWorst(heap, Parent(i));
      assert !Better(heap[Parent(i)], heap[i]);
    }
  }

  function Swap(heap: seq<Candidate>, i: nat, j: nat): seq<Candidate>
    requires i < |heap| && j < |heap|
  {
    heap[i := heap[j]][j := heap[i]]
  }

  lemma SwapPermutes(heap: seq<Candidate>, i: nat, j: nat)
    requires i < |heap| && j < |heap|
    ensures multiset(Swap(heap, i, j)) == multiset(heap)
  {
  }

  lemma Permuted(s: seq<Candidate>, t: seq<Candidate>)
    requires multiset(s) == multiset(t) && DistinctIds(s)
    ensures |s| == |t| && (forall c :: c in s <==> c in t) && DistinctIds(t)
  {
    assert |s| == |multiset(s)| == |t|;
    forall c ensures c in s <==> c in t {
      assert c in s <==> c in multiset(s);
      assert c in t <==> c in multiset(t);
    }
    forall i, j | 0 <= i < j < |t| ensures t[i].id != t[j].id {
      if t[i].id == t[j].id {
        SameIdSameCandidate(s, t[i], t[j]);
        TwiceInMultiset(t, i, j);
        OnceInMultiset(s, t[i]);
      }
    }
  }

  lemma SameIdSameCandidate(s: seq<Candidate>, c: Candidate, d: Candidate)
    requires DistinctIds(s) && c in s && d in s && c.id == d.id
    ensures c == d
  {
    var i :| 0 <= i < |s| && s[i] == c;
    var j :| 0 <= j < |s| && s[j] == d;
    assert !(i < j) && !(j < i);
  }

  lemma TwiceInMultiset(t: seq<Candidate>, i: nat, j: nat)
    requires i < j < |t| && t[i] == t[j]
    ensures multiset(t)[t[i]] >= 2
  {
    assert t == t[..j] + [t[j]] + t[j + 1..];
    assert t[i] in multiset(t[..j]);
  }

  lemma {:induction false} OnceInMultiset(s: seq<Candidate>, c: Candidate)
    requires DistinctIds(s)
    ensures multiset(s)[c] <= 1
  {
    if s != [] {
      var n := |s| - 1;
      OnceInMultiset(s[..n], c);
      assert s == s[..n] + [s[n]];
      if c == s[n] {
        assert c !in s[..n];
        assert c !in multiset(s[..n]);
      }
    }
  }

  /** A heap with one candidate that may be worse than its parent. */
  ghost predicate RisingAt(heap: seq<Candidate>, at: nat) {
    && at < |heap|
    && (forall i :: 0 < i < |heap| && i != at ==> !Better(heap[Parent(i)], heap[i]))
    && (forall i :: 0 < i < |heap| && Parent(i) == at && at > 0 ==> !Better(heap[Parent(at)], heap[i]))
  }

  /** A heap with one candidate that may be better than its children. */
  ghost predicate SinkingAt(heap: seq<Candidate>, at: nat) {
    && at < |heap|
    && (forall i :: 0 < i < |heap| && Parent(i) != at ==> !Better(heap[Parent(i)], heap[i]))
    && (forall i :: 0 < i < |heap| && Parent(i) == at && at > 0 ==> !Better(heap[Parent(at)], heap[i]))
  }

  lemma Risen(heap: seq<Candidate>, at: nat)
    requires RisingAt(heap, at) && at > 0 && Better(heap[Parent(at)], heap[at])
    ensures RisingAt(Swap(heap, Parent(at), at), Parent(at))
  {
    var up := Parent(at);
    var after := Swap(heap, up, at);
    forall i | 0 < i < |heap| && i != up ensures !Better(after[Parent(i)], after[i]) {
      assert i != at ==> !Better(heap[Parent(i)], heap[i]);
    }
    forall i | 0 < i < |heap| && Parent(i) == up && up > 0 ensures !Better(after[Parent(up)], after[i]) {
      assert !Better(heap[Parent(up)], heap[up]);
      assert i != at ==> !Better(heap[up], heap[i]);
    }
  }

  lemma Sunk(heap: seq<Candidate>, at: nat, worst: nat)
    requires SinkingAt(heap, at) && 0 < worst < |heap| && Parent(worst) == at && Better(heap[at], heap[worst])
    requires forall i :: 0 < i < |heap| && Parent(i) == at ==> !Better(heap[worst], heap[i])
    ensures SinkingAt(Swap(heap, at, worst), worst)
  {
    var after := Swap(heap, at, worst);
    forall i | 0 < i < |heap| && Parent(i) != worst ensures !Better(after[Parent(i)], after[i]) {
      if Parent(i) == at && i != worst {
        assert !Better(heap[worst], heap[i]);
      } else if i == at {
        assert !Better(heap[Parent(at)], heap[worst]);
      } else if i != worst {
        assert !Better(heap[Parent(i)], heap[i]);
      }
    }
    forall i | 0 < i < |heap| && Parent(i) == worst ensures !Better(after[Parent(worst)], after[i]) {
      assert !Better(heap[Parent(i)], heap[i]);
    }
  }

  class BoundedRanking {
    const limit: nat
    var heap: seq<Candidate>
    var count: nat
    ghost var offered: seq<Candidate>

    ghost predicate Valid()
      reads this
    {
      limit > 0 && count == |offered| && DistinctIds(offered) && WorstFirst(heap) && Best(heap, offered, limit)
    }

    constructor (limit: nat)
      requires limit > 0
      ensures Valid() && this.limit == limit && offered == []
    {
      this.limit := limit;
      heap, count, offered := [], 0, [];
    }

    method SiftUp(start: nat)
      requires RisingAt(heap, start)
      modifies `heap
      ensures WorstFirst(heap) && multiset(heap) == old(multiset(heap))
    {
      var index := start;
      while index > 0
        invariant RisingAt(heap, index) && multiset(heap) == old(multiset(heap))
      {
        var parent := Parent(index);
        if !Better(heap[parent], heap[index]) {
          break;
        }
        Risen(heap, index);
        SwapPermutes(heap, parent, index);
        heap := Swap(heap, parent, index);
        index := parent;
      }
    }

    method SiftDown(start: nat)
      requires SinkingAt(heap, start)
      modifies `heap
      ensures WorstFirst(heap) && multiset(heap) == old(multiset(heap))
    {
      var index: nat := start;
      while true
        invariant SinkingAt(heap, index) && multiset(heap) == old(multiset(heap))
        decreases |heap| - index
      {
        var left := index * 2 + 1;
        if left >= |heap| {
          return;
        }
        var right, worst := left + 1, left;
        if right < |heap| && Better(heap[left], heap[right]) {
          worst := right;
        }
        assert forall i :: 0 < i < |heap| && Parent(i) == index ==> i == left || i == right;
        if !Better(heap[index], heap[worst]) {
          return;
        }
        Sunk(heap, index, worst);
        SwapPermutes(heap, index, worst);
        heap := Swap(heap, index, worst);
        index := worst;
      }
    }

    /** Offers a candidate: it is kept while there is room, and after that only in place of the
        worst kept one. */
    method Add(candidate: Candidate)
      requires Valid() && forall c :: c in offered ==> c.id != candidate.id
      modifies this
      ensures Valid() && offered == old(offered) + [candidate]
    {
      hide Best, DistinctIds;
      count := count + 1;
      offered := offered + [candidate];
      OneMoreOffered(old(offered), candidate);
      ghost var kept := heap;
      if |heap| < limit {
        Joined(heap, old(offered), limit, candidate);
        heap := heap + [candidate];
        SiftUp(|heap| - 1);
        BestPermuted(kept + [candidate], heap, offered, limit);
        return;
      }
      HeapFull(heap, old(offered), limit);
      if !Better(candidate, heap[0]) {
        Refused(heap, old(offered), limit, candidate);
        return;
      }
      Replaced(heap, old(offered), limit, candidate);
      heap := heap[0 := candidate];
      SiftDown(0);
      BestPermuted(kept[0 := candidate], heap, offered, limit);
    }

    /** The front of the full ranking of everything offered, and whether there was more. */
    method Result() returns (candidates: seq<Candidate>, truncated: bool)
      requires Valid()
      ensures candidates == Take(Rank(offered), limit)
      ensures truncated <==> |offered| > limit
      ensures forall i, j :: 0 <= i < j < |candidates| ==>
        candidates[i].score > candidates[j].score
        || (candidates[i].score == candidates[j].score && candidates[i].id < candidates[j].id)
      ensures forall c, d :: c in candidates && d in offered && d !in candidates ==>
        d.score < c.score || (d.score == c.score && d.id > c.id)
    {
      BestIsFront(heap, offered, limit);
      Ranks(offered);
      TakenFirst(Rank(offered), limit);
      return Rank(heap), count > limit;
    }
  }

  /** The front of a ranking, by scores and fact ids. */
  lemma TakenFirst(full: seq<Candidate>, limit: nat)
    requires Ranked(full)
    ensures var front := Take(full, limit);
      && (forall i, j :: 0 <= i < j < |front| ==>
            front[i].score > front[j].score || (front[i].score == front[j].score && front[i].id < front[j].id))
      && (forall c, d :: c in front && d in full && d !in front ==> d.score < c.score || (d.score == c.score && d.id > c.id))
  {
    var front := Take(full, limit);
    forall i, j | 0 <= i < j < |front|
      ensures front[i].score > front[j].score || (front[i].score == front[j].score && front[i].id < front[j].id)
    {
      assert Better(full[i], full[j]);
    }
    forall c, d | c in front && d in full && d !in front ensures d.score < c.score || (d.score == c.score && d.id > c.id) {
      var i :| 0 <= i < |front| && front[i] == c;
      var j :| 0 <= j < |full| && full[j] == d;
      assert forall k :: 0 <= k < |front| ==> full[k] == front[k] && front[k] in front;
      assert Better(full[i], full[j]);
    }
  }

  lemma OneMoreOffered(offered: seq<Candidate>, candidate: Candidate)
    requires DistinctIds(offered) && forall c :: c in offered ==> c.id != candidate.id
    ensures DistinctIds(offered + [candidate])
  {
  }

  lemma BestPermuted(kept: seq<Candidate>, kept': seq<Candidate>, offered: seq<Candidate>, limit: nat)
    requires Best(kept, offered, limit) && multiset(kept) == multiset(kept')
    ensures Best(kept', offered, limit)
  {
    Permuted(kept, kept');
  }

  /** While there is room, everything offered is kept. */
  lemma Joined(heap: seq<Candidate>, offered: seq<Candidate>, limit: nat, candidate: Candidate)
    requires Best(heap, offered, limit) && |heap| < limit && WorstFirst(heap) && DistinctIds(offered)
    requires forall c :: c in offered ==> c.id != candidate.id
    ensures Best(heap + [candidate], offered + [candidate], limit) && RisingAt(heap + [candidate], |heap|)
  {
    AllKept(heap, offered, limit);
    var after := heap + [candidate];
    assert after[|heap|] == candidate && forall c :: c in offered + [candidate] ==> c in after;
    forall i | 0 < i < |after| && i != |heap| ensures !Better(after[Parent(i)], after[i]) {
      assert after[Parent(i)] == heap[Parent(i)] && after[i] == heap[i];
    }
  }

  lemma AllKept(heap: seq<Candidate>, offered: seq<Candidate>, limit: nat)
    requires Best(heap, offered, limit) && |heap| < limit && DistinctIds(offered)
    ensures |heap| == |offered| && forall c :: c in offered ==> c in heap
  {
    Cardinality(heap);
    Cardinality(offered);
    SubsetSize(Members(heap), Members(offered));
    assert forall c :: c in heap <==> c in Members(heap);
    assert forall c :: c in offered <==> c in Members(offered);
  }

  lemma HeapFull(heap: seq<Candidate>, offered: seq<Candidate>, limit: nat)
    requires Best(heap, offered, limit) && |heap| >= limit > 0 && WorstFirst(heap)
    ensures |heap| == limit && forall c :: c in heap ==> !Better(heap[0], c)
  {
    forall c | c in heap ensures !Better(heap[0], c) {
      var i :| 0 <= i < |heap| && heap[i] == c;
      RootIsWorst(heap, i);
    }
  }

  lemma Refused(heap: seq<Candidate>, offered: seq<Candidate>, limit: nat, candidate: Candidate)
    requires heap != [] && Best(heap, offered, limit) && |heap| == limit && (forall c :: c in offered ==> c.id != candidate.id)
    requires (forall c :: c in heap ==> !Better(heap[0], c)) && !Better(candidate, heap[0])
    ensures Best(heap, offered + [candidate], limit)
  {
    assert heap[0] in heap;
    forall c, d | c in heap && d in offered + [candidate] && d !in heap ensures Better(c, d) {
      assert d in offered || d == candidate;
    }
  }

  /** Replacing the worst kept candidate by a better one keeps the best. */
  lemma Replaced(heap: seq<Candidate>, offered: seq<Candidate>, limit: nat, candidate: Candidate)
    requires heap != [] && Best(heap, offered, limit) && |heap| == limit && (forall c :: c in offered ==> c.id != candidate.id)
    requires (forall c :: c in heap ==> !Better(heap[0], c)) && Better(candidate, heap[0]) && WorstFirst(heap)
    ensures Best(heap[0 := candidate], offered + [candidate], limit) && SinkingAt(heap[0 := candidate], 0)
  {
    var after := heap[0 := candidate];
    assert heap[0] in heap && after[0] in after;
    forall c | c in after ensures c == candidate || (c in heap && c != heap[0]) {
      var i :| 0 <= i < |after| && after[i] == c;
      if i > 0 { assert heap[i].id != heap[0].id; }
    }
    forall c, d | c in after && d in offered + [candidate] && d !in after ensures Better(c, d) {
      assert d in offered;
      DroppedIsWorse(heap, offered, limit, candidate, d);
    }
    forall i | 0 < i < |after| && Parent(i) != 0 ensures !Better(after[Parent(i)], after[i]) {
      assert !Better(heap[Parent(i)], heap[i]);
    }
  }

  lemma DroppedIsWorse(heap: seq<Candidate>, offered: seq<Candidate>, limit: nat, candidate: Candidate, d: Candidate)
    requires heap != [] && Best(heap, offered, limit) && d in offered && d !in heap[0 := candidate]
    ensures d == heap[0] || (d !in heap && Better(heap[0], d))
  {
    assert heap[0] in heap;
    var after := heap[0 := candidate];
    assert forall i :: 0 < i < |heap| ==> after[i] == heap[i] && after[i] in after;
  }

  // ----- the best candidate of each entity -----

  /** A row of the scan: eligible rows with a finite score carry one. */
  datatype Scanned = Skipped(e: int) | Scored(candidate: Candidate)

  function EntityOf(row: Scanned): int {
    match row
    case Skipped(e) => e
    case Scored(c) => c.e
  }

  function Candidates(rows: seq<Scanned>): set<Candidate> {
    set row | row in rows && row.Scored? :: row.candidate
  }

  /** The candidates that no candidate of their entity beats. */
  function Winners(rows: seq<Scanned>): set<Candidate> {
    set c | c in Candidates(rows) && forall d :: d in Candidates(rows) && d.e == c.e ==> !Better(d, c)
  }

  /** The row belongs to the entity. */
  predicate RowOf(row: Scanned, e: int) {
    row == Skipped(e) || (row.Scored? && row.candidate.e == e)
  }

  lemma EntitiesAscend(rows: seq<Scanned>)
    requires Grouped(rows)
    ensures forall i, j :: 0 <= i < j < |rows| ==> EntityOf(rows[i]) <= EntityOf(rows[j])
  {
    forall i, j | 0 <= i < j < |rows| ensures EntityOf(rows[i]) <= EntityOf(rows[j]) {
      assert RowOf(rows[i], EntityOf(rows[i])) && RowOf(rows[j], EntityOf(rows[j]));
    }
  }

  /** Rows come grouped by entity, and fact ids are distinct. */
  ghost predicate Grouped(rows: seq<Scanned>) {
    && (forall i, j, e, f :: 0 <= i < j < |rows| && RowOf(rows[i], e) && RowOf(rows[j], f) ==> e <= f)
    && (forall i, j :: 0 <= i < j < |rows| && rows[i].Scored? && rows[j].Scored? ==> rows[i].candidate.id != rows[j].candidate.id)
  }

  lemma IdsDiffer(rows: seq<Scanned>, c: Candidate, d: Candidate)
    requires Grouped(rows) && c in Candidates(rows) && d in Candidates(rows)
    ensures c != d ==> c.id != d.id
  {
    var i :| 0 <= i < |rows| && rows[i] == Scored(c);
    var j :| 0 <= j < |rows| && rows[j] == Scored(d);
    assert i < j || j < i || i == j;
  }

  /** `best` is the best candidate of entity `e` so far. */
  ghost predicate BestOf(rows: seq<Scanned>, e: int, best: Option<Candidate>) {
    match best
    case None => forall c :: c in Candidates(rows) ==> c.e != e
    case Some(b) => b in Candidates(rows) && b.e == e && forall c :: c in Candidates(rows) && c.e == e ==> !Better(c, b)
  }

  /** The offered candidates and the current best are the winners of the rows read so far. */
  ghost predicate Scanning(rows: seq<Scanned>, offered: seq<Candidate>, current: int, best: Option<Candidate>) {
    && (forall row :: row in rows ==> EntityOf(row) <= current)
    && (forall c :: c in offered <==> c in Winners(rows) && c.e < current)
    && BestOf(rows, current, best)
  }

  lemma CandidatesSnoc(rows: seq<Scanned>, row: Scanned)
    ensures Candidates(rows + [row]) == Candidates(rows) + (if row.Scored? then {row.candidate} else {})
  {
    assert forall r :: r in rows + [row] <==> r in rows || r == row;
  }

  /** When the entity changes, its best joins the offered ones. */
  lemma EntityFinished(rows: seq<Scanned>, offered: seq<Candidate>, current: int, best: Option<Candidate>, next: int, ids: seq<Scanned>)
    requires Scanning(rows, offered, current, best) && current < next
    requires Grouped(ids) && Candidates(rows) <= Candidates(ids)
    ensures Scanning(rows, if best.Some? then offered + [best.value] else offered, next, None)
  {
    forall c | c in Candidates(rows) ensures c.e <= current {
      assert Scored(c) in rows;
    }
    if best.Some? {
      forall c | c in Winners(rows) && c.e == current ensures c == best.value {
        IdsDiffer(ids, c, best.value);
      }
    }
  }

  /** One more row of the current entity. */
  lemma RowScanned(rows: seq<Scanned>, offered: seq<Candidate>, current: int, best: Option<Candidate>, row: Scanned)
    requires Scanning(rows, offered, current, best) && EntityOf(row) == current
    ensures var best' := if row.Scored? && (best.None? || Better(row.candidate, best.value)) then Some(row.candidate) else best;
      Scanning(rows + [row], offered, current, best')
  {
    CandidatesSnoc(rows, row);
    forall c: Candidate | c.e < current ensures c in Winners(rows + [row]) <==> c in Winners(rows) {
    }
  }

  /** Streams the rows of a scan into a bounded ranking, one best candidate per entity: higher
      scores first, lower fact ids among equal scores. */
  method RankEntities(rows: seq<Scanned>, limit: nat) returns (candidates: seq<Candidate>, truncated: bool, ghost full: seq<Candidate>)
    requires Grouped(rows) && limit > 0
    ensures Ranked(full) && Members(full) == Winners(rows)
    ensures candidates == Take(full, limit)
    ensures truncated <==> exists d :: Scored(d) in rows && forall k :: k in candidates ==> k.e != d.e
    ensures forall i, j :: 0 <= i < j < |candidates| ==>
      candidates[i].score > candidates[j].score
      || (candidates[i].score == candidates[j].score && candidates[i].id < candidates[j].id)
    ensures forall c, d :: c in candidates && Scored(d) in rows && d.e == c.e ==>
      d.score < c.score || (d.score == c.score && d.id >= c.id)
    ensures forall c :: c in candidates ==> Scored(c) in rows
    ensures forall d :: Scored(d) in rows && (forall k :: k in candidates ==> k.e != d.e) ==>
      |candidates| == limit && forall c :: c in candidates ==> d.score < c.score || (d.score == c.score && d.id > c.id)
  {
    hide Winners, Rank, Ranked, Take, Best, WorstFirst;
    var ranking := new BoundedRanking(limit);
    ScanEntities(rows, ranking);
    OfferedRanked(ranking.offered);
    full := Rank(ranking.offered);
    WinnersLead(rows, full, limit);
    LeftOut(rows, full, limit);
    candidates, truncated := ranking.Result();
  }

  /** The loop over the scan: each entity's best candidate is offered when the entity is done. */
  method ScanEntities(rows: seq<Scanned>, ranking: BoundedRanking)
    requires Grouped(rows) && ranking.Valid() && ranking.offered == []
    modifies ranking
    ensures ranking.Valid() && Members(ranking.offered) == Winners(rows)
  {
    hide Winners, Scanning, Candidates, Best, WorstFirst, DistinctIds, Rank, Ranked;
    EntitiesAscend(rows);
    var current, best := if rows == [] then 0 else EntityOf(rows[0]), None;
    NothingScanned(current);
    for i := 0 to |rows|
      invariant ranking.Valid()
      invariant Scanning(rows[..i], ranking.offered, current, best)
      invariant i < |rows| ==> current <= EntityOf(rows[i])
    {
      var row := rows[i];
      PrefixCandidates(rows, i);
      if EntityOf(row) != current {
        EntityFinished(rows[..i], ranking.offered, current, best, EntityOf(row), rows);
        FinishAllowed(rows, rows[..i], ranking.offered, current, best);
        if best.Some? {
          ranking.Add(best.value);
        }
        best := None;
      }
      current := EntityOf(row);
      RowScanned(rows[..i], ranking.offered, current, best, row);
      assert rows[..i + 1] == rows[..i] + [row];
      if row.Scored? && (best.None? || Better(row.candidate, best.value)) {
        best := Some(row.candidate);
      }
    }
    assert rows[..|rows|] == rows;
    EntityFinished(rows, ranking.offered, current, best, current + 1, rows);
    FinishAllowed(rows, rows, ranking.offered, current, best);
    if best.Some? {
      ranking.Add(best.value);
    }
    AllOffered(rows, ranking.offered, current + 1);
  }

  /** The front of the winners: the best candidates of the best entities. */
  lemma WinnersLead(rows: seq<Scanned>, full: seq<Candidate>, limit: nat)
    requires Grouped(rows) && Ranked(full) && Members(full) == Winners(rows)
    ensures var front := Take(full, limit);
      && (forall c :: c in front ==> Scored(c) in rows)
      && (forall c, d :: c in front && Scored(d) in rows && d.e == c.e ==> d.score < c.score || (d.score == c.score && d.id >= c.id))
      && (forall d :: Scored(d) in rows && (forall k :: k in front ==> k.e != d.e) ==>
            |front| == limit && forall c :: c in front ==> d.score < c.score || (d.score == c.score && d.id > c.id))
  {
    hide Ranked;
    var front := Take(full, limit);
    TakenFirst(full, limit);
    forall c | c in front ensures c in Winners(rows) {
      assert c in full && c in Members(full);
    }
    forall c, d | c in front && Scored(d) in rows && d.e == c.e ensures d.score < c.score || (d.score == c.score && d.id >= c.id) {
      assert c in Winners(rows) && d in Candidates(rows) && !Better(d, c);
    }
    forall d | Scored(d) in rows && (forall k :: k in front ==> k.e != d.e)
      ensures |front| == limit && forall c :: c in front ==> d.score < c.score || (d.score == c.score && d.id > c.id)
    {
      assert d in Candidates(rows);
      var w := WinnerOf(rows, d);
      assert w in Members(full) && w in full && w !in front;
      assert !Better(d, w);
    }
  }

  /** Some entity is left out exactly if there are more winners than fit. */
  lemma LeftOut(rows: seq<Scanned>, full: seq<Candidate>, limit: nat)
    requires Ranked(full) && Members(full) == Winners(rows)
    ensures |full| > limit <==> exists d :: Scored(d) in rows && forall k :: k in Take(full, limit) ==> k.e != d.e
  {
    var front := Take(full, limit);
    if |full| > limit {
      var w := full[limit];
      assert w in full && w in Members(full);
      forall k | k in front ensures k.e != w.e {
        var i :| 0 <= i < limit && full[i] == k;
        assert k in full && k in Members(full) && Better(k, w);
      }
      assert Scored(w) in rows;
    }
    if d :| Scored(d) in rows && forall k :: k in front ==> k.e != d.e {
      assert d in Candidates(rows);
      var w := WinnerOf(rows, d);
      assert w in Members(full) && w in full && w !in front;
    }
  }

  /** Every scanned entity has a winner that its candidates do not beat. */
  lemma WinnerOf(rows: seq<Scanned>, d: Candidate) returns (w: Candidate)
    requires d in Candidates(rows)
    ensures w in Winners(rows) && w.e == d.e && !Better(d, w)
  {
    var cs := set c | c in Candidates(rows) && c.e == d.e;
    assert d in cs;
    w := BestAmong(cs);
  }

  lemma BestAmong(cs: set<Candidate>) returns (w: Candidate)
    requires cs != {}
    ensures w in cs && forall c :: c in cs ==> !Better(c, w)
  {
    var c :| c in cs;
    var rest := cs - {c};
    w := c;
    if rest != {} {
      var best := BestAmong(rest);
      if Better(best, c) { w := best; }
      forall d | d in cs ensures !Better(d, w) {
        if d != c { assert d in rest && !Better(d, best); }
      }
    } else {
      forall d | d in cs ensures d == c {
        assert d != c ==> d in rest;
      }
    }
  }

  lemma OfferedRanked(offered: seq<Candidate>)
    requires DistinctIds(offered)
    ensures Ranked(Rank(offered)) && Members(Rank(offered)) == Members(offered) && |Members(offered)| == |offered| == |Rank(offered)|
  {
    Ranks(offered);
    Cardinality(offered);
  }

  lemma NothingScanned(current: int)
    ensures Scanning([], [], current, None)
  {
  }

  lemma PrefixCandidates(rows: seq<Scanned>, i: nat)
    requires i <= |rows|
    ensures Candidates(rows[..i]) <= Candidates(rows)
  {
    assert forall r :: r in rows[..i] ==> r in rows;
  }

  lemma FinishAllowed(ids: seq<Scanned>, rows: seq<Scanned>, offered: seq<Candidate>, current: int, best: Option<Candidate>)
    requires Scanning(rows, offered, current, best) && Grouped(ids) && Candidates(rows) <= Candidates(ids)
    ensures best.Some? ==> forall c :: c in offered ==> c.id != best.value.id
  {
    if best.Some? {
      forall c | c in offered ensures c.id != best.value.id {
        IdsDiffer(ids, c, best.value);
      }
    }
  }

  lemma AllOffered(rows: seq<Scanned>, offered: seq<Candidate>, next: int)
    requires Scanning(rows, offered, next, None)
    ensures Members(offered) == Winners(rows)
  {
    forall c | c in Winners(rows) ensures c.e < next {
      assert Scored(c) in rows && c.e != next;
    }
  }
}
