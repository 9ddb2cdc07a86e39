/** The identity allocator and the compaction of its pending identities.  A plan allocates ids
    as it resolves its input; identities that end up in no fact are dropped before the commit
    and the remaining ones close ranks, so that committed ids have no gaps. */
module Identities {
  import opened Facts
  import opened Planner

  /** What a pending identity was allocated for.  Names and imported identities are always kept. */
  datatype Claim = Anonymous | Named(name: string) | Imported(uuid: Uuid)

  // ----- which ids are kept, and where they move -----

  /** The ids kept out of first, first + 1, ...: one per claim, in order. */
  function Kept(first: int, claims: seq<Claim>, mentioned: set<int>): seq<int> {
    if claims == [] then []
    else
      var n := |claims| - 1;
      Kept(first, claims[..n], mentioned)
      + (if claims[n] != Anonymous || first + n in mentioned then [first + n] else [])
  }

  function KeptClaims(first: int, claims: seq<Claim>, mentioned: set<int>): seq<Claim> {
    if claims == [] then []
    else
      var n := |claims| - 1;
      KeptClaims(first, claims[..n], mentioned)
      + (if claims[n] != Anonymous || first + n in mentioned then [claims[n]] else [])
  }

  function Position(kept: seq<int>, id: int): (i: nat)
    requires id in kept
    ensures i < |kept| && kept[i] == id
  {
    var n := |kept| - 1;
    if kept[n] == id then n else Position(kept[..n], id)
  }

  function Rename(first: int, kept: seq<int>, id: int): int {
    if id in kept then first + Position(kept, id) else id
  }

  function RenameValue(first: int, kept: seq<int>, v: Value): Value {
    if v.tag == TAG_REF then v.(cell := Rename(first, kept, v.cell)) else v
  }

  function RenameTriple(first: int, kept: seq<int>, k: Triple): Triple {
    Triple(Rename(first, kept, k.e), Rename(first, kept, k.a), RenameValue(first, kept, k.v))
  }

  /** The ids a list of facts speaks about. */
  function Mentions(k: Triple): set<int> {
    {k.e, k.a} + (if k.v.tag == TAG_REF then {k.v.cell} else {})
  }

  function MentionedBy(keys: seq<Triple>): set<int> {
    set k, id | k in keys && id in Mentions(k) :: id
  }

  // ----- the renaming -----

  ghost predicate Ascending(s: seq<int>) {
    forall i, j :: 0 <= i < j < |s| ==> s[i] < s[j]
  }

  lemma {:induction false} KeptExactly(first: int, claims: seq<Claim>, mentioned: set<int>)
    ensures var kept := Kept(first, claims, mentioned);
      && Ascending(kept)
      && |kept| == |KeptClaims(first, claims, mentioned)|
      && |kept| <= |claims|
      && (forall id :: id in kept <==>
            (first <= id < first + |claims| && (claims[id - first] != Anonymous || id in mentioned)))
      && (forall i :: 0 <= i < |kept| ==>
            (first <= kept[i] < first + |claims| && KeptClaims(first, claims, mentioned)[i] == claims[kept[i] - first]))
  {
    if claims != [] {
      var n := |claims| - 1;
      KeptExactly(first, claims[..n], mentioned);
      var kept := Kept(first, claims[..n], mentioned);
      forall i | 0 <= i < |kept| ensures first <= kept[i] < first + n {
        assert kept[i] in kept;
      }
    }
  }

  lemma PositionOf(kept: seq<int>, i: nat)
    requires Ascending(kept) && i < |kept|
    ensures Position(kept, kept[i]) == i
  {
    var j := Position(kept, kept[i]);
    assert !(i < j) && !(j < i);
  }

  /** The renaming is an order-preserving bijection from the kept ids onto the first ids of the
      allocated range, and it moves nothing else. */
  lemma RenameExactly(first: int, claims: seq<Claim>, mentioned: set<int>)
    ensures var kept := Kept(first, claims, mentioned);
      && (forall id :: id in kept ==> first <= Rename(first, kept, id) < first + |kept|)
      && (forall i :: 0 <= i < |kept| ==> Rename(first, kept, kept[i]) == first + i)
      && (forall id, id' :: id in kept && id' in kept && id < id' ==> Rename(first, kept, id) < Rename(first, kept, id'))
      && (forall id :: id < first ==> Rename(first, kept, id) == id)
  {
    var kept := Kept(first, claims, mentioned);
    KeptExactly(first, claims, mentioned);
    forall i | 0 <= i < |kept| ensures Rename(first, kept, kept[i]) == first + i {
      PositionOf(kept, i);
    }
  }

  /** Ids the commit may speak about: older ids, and kept ones. */
  ghost predicate Spoken(first: int, kept: seq<int>, id: int) {
    id < first || id in kept
  }

  lemma RenameInjective(first: int, claims: seq<Claim>, mentioned: set<int>, id: int, id': int)
    requires var kept := Kept(first, claims, mentioned); Spoken(first, kept, id) && Spoken(first, kept, id')
    requires var kept := Kept(first, claims, mentioned); Rename(first, kept, id) == Rename(first, kept, id')
    ensures id == id'
  {
    RenameExactly(first, claims, mentioned);
  }

  ghost predicate SpokenTriple(first: int, kept: seq<int>, k: Triple) {
    forall id :: id in Mentions(k) ==> Spoken(first, kept, id)
  }

  lemma RenameTripleInjective(first: int, claims: seq<Claim>, mentioned: set<int>, k: Triple, l: Triple)
    requires var kept := Kept(first, claims, mentioned); SpokenTriple(first, kept, k) && SpokenTriple(first, kept, l)
    requires var kept := Kept(first, claims, mentioned); RenameTriple(first, kept, k) == RenameTriple(first, kept, l)
    ensures k == l
  {
    assert k.e in Mentions(k) && k.a in Mentions(k) && l.e in Mentions(l) && l.a in Mentions(l);
    RenameInjective(first, claims, mentioned, k.e, l.e);
    RenameInjective(first, claims, mentioned, k.a, l.a);
    if k.v.tag == TAG_REF {
      assert k.v.cell in Mentions(k) && l.v.cell in Mentions(l);
      RenameInjective(first, claims, mentioned, k.v.cell, l.v.cell);
    }
  }

  lemma RenameOld(first: int, kept: seq<int>, k: Triple)
    requires forall id :: id in kept ==> id >= first
    requires forall id :: id in Mentions(k) ==> id < first
    ensures RenameTriple(first, kept, k) == k
  {
    assert k.e in Mentions(k) && k.a in Mentions(k);
    assert k.v.tag == TAG_REF ==> k.v.cell in Mentions(k);
  }

  // ----- the allocator -----

  const MAX_ID := 0x7fff_ffff_ffff_ffff

  datatype PendingIdentity = PendingIdentity(id: int, claim: Claim)

  function RenameAll(first: int, kept: seq<int>, facts: seq<Triple>): seq<Triple> {
    seq(|facts|, i requires 0 <= i < |facts| => RenameTriple(first, kept, facts[i]))
  }

  /** When nothing is dropped, nothing moves. */
  lemma NothingDropped(first: int, claims: seq<Claim>, mentioned: set<int>, facts: seq<Triple>)
    requires |Kept(first, claims, mentioned)| == |claims|
    ensures RenameAll(first, Kept(first, claims, mentioned), facts) == facts
    ensures KeptClaims(first, claims, mentioned) == claims
  {
    hide Kept, KeptClaims, Rename, RenameTriple;
    var kept, left := Kept(first, claims, mentioned), KeptClaims(first, claims, mentioned);
    KeptInRange(first, claims, mentioned);
    Contiguous(first, kept, |claims|);
    RenamesNothing(first, kept, facts);
    forall i | 0 <= i < |claims| ensures left[i] == claims[i] {
      assert kept[i] == first + i;
    }
  }

  lemma KeptInRange(first: int, claims: seq<Claim>, mentioned: set<int>)
    ensures var kept, left := Kept(first, claims, mentioned), KeptClaims(first, claims, mentioned);
      && Ascending(kept) && |kept| == |left|
      && forall i :: 0 <= i < |kept| ==> first <= kept[i] < first + |claims| && left[i] == claims[kept[i] - first]
  {
    hide Kept, KeptClaims;
    KeptExactly(first, claims, mentioned);
  }

  lemma RenamesNothing(first: int, kept: seq<int>, facts: seq<Triple>)
    requires forall i :: 0 <= i < |kept| ==> kept[i] == first + i
    ensures RenameAll(first, kept, facts) == facts
  {
    assert forall id :: Rename(first, kept, id) == id;
    assert forall k :: RenameTriple(first, kept, k) == k;
  }

  lemma {:induction false} Contiguous(first: int, s: seq<int>, n: nat)
    requires Ascending(s) && |s| == n && forall i :: 0 <= i < n ==> first <= s[i] < first + n
    ensures forall i :: 0 <= i < n ==> s[i] == first + i
  {
    if n > 0 {
      forall i | 0 <= i < n ensures first + i <= s[i] { AtLeast(first, s, i); }
      forall i | 0 <= i < n ensures s[i] <= first + i { AtMost(first + n, s, i); }
    }
  }

  lemma {:induction false} AtLeast(low: int, s: seq<int>, i: nat)
    requires Ascending(s) && i < |s| && s[0] >= low
    ensures s[i] >= low + i
  {
    if i > 0 { AtLeast(low, s, i - 1); }
  }

  lemma {:induction false} AtMost(high: int, s: seq<int>, i: nat)
    requires Ascending(s) && i < |s| && s[|s| - 1] < high
    ensures s[i] <= high - (|s| - i)
    decreases |s| - i
  {
    if i + 1 < |s| { AtMost(high, s, i + 1); }
  }

  function ClaimsOf(pending: seq<PendingIdentity>): seq<Claim> {
    seq(|pending|, i requires 0 <= i < |pending| => pending[i].claim)
  }

  function Numbered(first: int, claims: seq<Claim>): seq<PendingIdentity> {
    seq(|claims|, i requires 0 <= i < |claims| => PendingIdentity(first + i, claims[i]))
  }

  /** The index holds exactly the named and imported claims, at their ids. */
  ghost predicate Indexed(first: int, ids: map<Claim, int>, claims: seq<Claim>) {
    && (forall c :: c in ids ==> c != Anonymous && IdOf(first, claims, c, ids[c]))
    && (forall i :: 0 <= i < |claims| && claims[i] != Anonymous ==> claims[i] in ids && ids[claims[i]] == first + i)
  }

  predicate IdOf(first: int, claims: seq<Claim>, c: Claim, id: int) {
    first <= id < first + |claims| && claims[id - first] == c
  }

  function RenamedIds(first: int, kept: seq<int>, ids: map<Claim, int>): map<Claim, int> {
    map c | c in ids :: Rename(first, kept, ids[c])
  }

  function RenamedTempids(first: int, next: int, kept: seq<int>, tempids: map<string, int>): map<string, int> {
    map name | name in tempids && (first <= tempids[name] < next ==> tempids[name] in kept) :: Rename(first, kept, tempids[name])
  }

  lemma AllTempidsStay(first: int, claims: seq<Claim>, mentioned: set<int>, tempids: map<string, int>)
    requires |Kept(first, claims, mentioned)| == |claims|
    ensures RenamedTempids(first, first + |claims|, Kept(first, claims, mentioned), tempids) == tempids
  {
    hide Kept, KeptClaims;
    var kept := Kept(first, claims, mentioned);
    KeptInRange(first, claims, mentioned);
    Contiguous(first, kept, |claims|);
    forall id ensures Rename(first, kept, id) == id && (first <= id < first + |claims| ==> id in kept) {
      if first <= id < first + |claims| { assert kept[id - first] == id; }
    }
  }

  /** Temporary ids move like the facts: those that survive name the identity they named. */
  lemma TempidsMove(first: int, claims: seq<Claim>, mentioned: set<int>, tempids: map<string, int>, name: string)
    requires name in tempids && first <= tempids[name] < first + |claims|
    ensures var kept := Kept(first, claims, mentioned);
      var moved := RenamedTempids(first, first + |claims|, kept, tempids);
      && (name in moved <==> (claims[tempids[name] - first] != Anonymous || tempids[name] in mentioned))
      && (name in moved ==> IdOf(first, KeptClaims(first, claims, mentioned), claims[tempids[name] - first], moved[name]))
  {
    hide Kept, KeptClaims;
    var id, kept := tempids[name], Kept(first, claims, mentioned);
    KeptMembers(first, claims, mentioned, id);
    if id in kept {
      KeptInRange(first, claims, mentioned);
      assert kept[Position(kept, id)] == id;
    }
  }

  lemma KeptMembers(first: int, claims: seq<Claim>, mentioned: set<int>, id: int)
    requires first <= id < first + |claims|
    ensures id in Kept(first, claims, mentioned) <==> claims[id - first] != Anonymous || id in mentioned
  {
    hide Kept, KeptClaims;
    KeptExactly(first, claims, mentioned);
  }

  lemma IndexedOneMore(first: int, ids: map<Claim, int>, claims: seq<Claim>, claim: Claim)
    requires Indexed(first, ids, claims) && claim !in ids
    ensures Indexed(first, if claim == Anonymous then ids else ids[claim := first + |claims|], claims + [claim])
  {
    assert forall c :: c in ids ==> IdOf(first, claims, c, ids[c]) ==> IdOf(first, claims + [claim], c, ids[c]);
  }

  /** A name moves with its identity. */
  lemma NameMoves(first: int, ids: map<Claim, int>, claims: seq<Claim>, mentioned: set<int>, c: Claim)
    requires c in ids && c != Anonymous && IdOf(first, claims, c, ids[c])
    ensures var kept := Kept(first, claims, mentioned);
      IdOf(first, KeptClaims(first, claims, mentioned), c, Rename(first, kept, ids[c]))
  {
    KeptExactly(first, claims, mentioned);
  }

  lemma MovedIsNamed(first: int, ids: map<Claim, int>, claims: seq<Claim>, mentioned: set<int>, i: nat)
    requires Indexed(first, ids, claims) && i < |KeptClaims(first, claims, mentioned)|
    requires KeptClaims(first, claims, mentioned)[i] != Anonymous
    ensures var c, kept := KeptClaims(first, claims, mentioned)[i], Kept(first, claims, mentioned);
      c in ids && Rename(first, kept, ids[c]) == first + i
  {
    KeptExactly(first, claims, mentioned);
    PositionOf(Kept(first, claims, mentioned), i);
  }

  lemma MovesTo(first: int, claims: seq<Claim>, mentioned: set<int>, n: nat)
    requires n < |Kept(first, claims, mentioned)|
    ensures var kept := Kept(first, claims, mentioned);
      && |KeptClaims(first, claims, mentioned)| == |kept|
      && IdOf(first, claims, KeptClaims(first, claims, mentioned)[n], kept[n])
      && Rename(first, kept, kept[n]) == first + n
  {
    KeptExactly(first, claims, mentioned);
    PositionOf(Kept(first, claims, mentioned), n);
  }

  lemma IndexedMoved(first: int, ids: map<Claim, int>, claims: seq<Claim>, mentioned: set<int>)
    requires Indexed(first, ids, claims)
    ensures Indexed(first, RenamedIds(first, Kept(first, claims, mentioned), ids), KeptClaims(first, claims, mentioned))
  {
    var renamed, moved := RenamedIds(first, Kept(first, claims, mentioned), ids), KeptClaims(first, claims, mentioned);
    forall c | c in renamed ensures c != Anonymous && IdOf(first, moved, c, renamed[c]) {
      NameMoves(first, ids, claims, mentioned, c);
    }
    forall i | 0 <= i < |moved| && moved[i] != Anonymous ensures moved[i] in renamed && renamed[moved[i]] == first + i {
      MovedIsNamed(first, ids, claims, mentioned, i);
    }
  }

  /** One plan's allocator: ids first, first + 1, ... in the order they are asked for. */
  class Allocator {
    const first: int
    /** The names of the store. */
    const stored: map<string, int>
    var next: int
    var dirty: bool
    var ids: map<Claim, int>
    var pending: seq<PendingIdentity>

    ghost predicate Valid()
      reads this
    {
      && next == first + |pending|
      && dirty == (pending != [])
      && pending == Numbered(first, ClaimsOf(pending))
      && Indexed(first, ids, ClaimsOf(pending))
    }

    constructor (start: int, names: map<string, int>)
      ensures Valid() && first == start && stored == names && pending == []
    {
      first, next, dirty, ids, pending, stored := start, start, false, map[], [], names;
    }

    /** The next id, for a claim that has none yet. */
    method Allocate(claim: Claim) returns (r: Result<int>)
      requires Valid() && claim !in ids
      modifies this
      ensures Valid()
      ensures old(next) == MAX_ID ==> r == Err(TooLarge) && pending == old(pending)
      ensures old(next) != MAX_ID ==> r == Ok(old(next)) && ClaimsOf(pending) == ClaimsOf(old(pending)) + [claim]
    {
      if next == MAX_ID {
        return Err(TooLarge);
      }
      IndexedOneMore(first, ids, ClaimsOf(pending), claim);
      ghost var claims := ClaimsOf(pending) + [claim];
      r := Ok(next);
      pending := pending + [PendingIdentity(next, claim)];
      assert ClaimsOf(pending) == claims && pending == Numbered(first, claims);
      if claim != Anonymous {
        ids := ids[claim := next];
      }
      next, dirty := next + 1, true;
    }

    /** The id of a name: one that this plan gave it, else the store's, else a new one if asked to
        create it. */
    method Name(name: string, create: bool) returns (r: Result<Option<int>>)
      requires Valid()
      modifies this
      ensures Valid()
      ensures Named(name) in old(ids) ==> r == Ok(Some(old(ids)[Named(name)])) && pending == old(pending)
      ensures Named(name) !in old(ids) && name in stored ==> r == Ok(Some(stored[name])) && pending == old(pending)
      ensures Named(name) !in old(ids) && name !in stored && !create ==> r == Ok(None) && pending == old(pending)
      ensures Named(name) !in old(ids) && name !in stored && create ==>
        if old(next) == MAX_ID then r == Err(TooLarge) && pending == old(pending)
        else r == Ok(Some(old(next))) && ClaimsOf(pending) == ClaimsOf(old(pending)) + [Named(name)]
    {
      if Named(name) in ids {
        return Ok(Some(ids[Named(name)]));
      }
      if name in stored {
        return Ok(Some(stored[name]));
      }
      if !create {
        return Ok(None);
      }
      var id := Allocate(Named(name));
      return if id.Ok? then Ok(Some(id.value)) else Err(id.error);
    }

    /** An identity that an event creates; the event may not list it twice. */
    method Import(uuid: Uuid) returns (r: Result<int>)
      requires Valid()
      modifies this
      ensures Valid()
      ensures Imported(uuid) in old(ids) ==> r == Err(Conflict) && pending == old(pending)
      ensures Imported(uuid) !in old(ids) ==>
        if old(next) == MAX_ID then r == Err(TooLarge) && pending == old(pending)
        else r == Ok(old(next)) && ClaimsOf(pending) == ClaimsOf(old(pending)) + [Imported(uuid)]
    {
      if Imported(uuid) in ids {
        return Err(Conflict);
      }
      r := Allocate(Imported(uuid));
    }

    /** Drops the anonymous identities no fact mentions, closes ranks, and renames the facts and
        the temporary ids; a temporary id whose identity is dropped is forgotten. */
    method Compact(assertions: seq<Triple>, txFacts: seq<Triple>, tempids: map<string, int>)
      returns (assertions': seq<Triple>, txFacts': seq<Triple>, tempids': map<string, int>)
      requires Valid()
      modifies this
      ensures Valid()
      ensures var claims, mentioned := ClaimsOf(old(pending)), MentionedBy(assertions + txFacts);
        var kept := Kept(first, claims, mentioned);
        && ClaimsOf(pending) == KeptClaims(first, claims, mentioned)
        && next == first + |kept|
        && assertions' == RenameAll(first, kept, assertions)
        && txFacts' == RenameAll(first, kept, txFacts)
        && tempids' == RenamedTempids(first, old(next), kept, tempids)
    {
      ghost var claims, mentioned := ClaimsOf(pending), MentionedBy(assertions + txFacts);
      var ordered := KeptInOrder(assertions, txFacts);
      if |ordered| == |pending| {
        NothingDropped(first, claims, mentioned, assertions);
        NothingDropped(first, claims, mentioned, txFacts);
        AllTempidsStay(first, claims, mentioned, tempids);
        return assertions, txFacts, tempids;
      }
      tempids' := RenamedTempids(first, next, ordered, tempids);
      assertions' := RenameAll(first, ordered, assertions);
      txFacts' := RenameAll(first, ordered, txFacts);
      IndexedMoved(first, ids, claims, mentioned);
      ids := RenamedIds(first, ordered, ids);
      pending := MovePending(ordered, mentioned);
      next := first + |ordered|;
      dirty := next != first;
    }

    /** The surviving identities at their new ids. */
    method MovePending(ordered: seq<int>, ghost mentioned: set<int>) returns (moved: seq<PendingIdentity>)
      requires pending == Numbered(first, ClaimsOf(pending))
      requires ordered == Kept(first, ClaimsOf(pending), mentioned)
      ensures ClaimsOf(moved) == KeptClaims(first, ClaimsOf(pending), mentioned)
      ensures moved == Numbered(first, ClaimsOf(moved)) && |moved| == |ordered|
    {
      ghost var claims := ClaimsOf(pending);
      ghost var kept := KeptClaims(first, claims, mentioned);
      assert |kept| == |ordered| by { KeptExactly(first, claims, mentioned); }
      moved := [];
      for n := 0 to |ordered|
        invariant moved == Numbered(first, kept[..n])
      {
        MovesTo(first, claims, mentioned, n);
        var identity := pending[ordered[n] - first];
        assert identity == PendingIdentity(ordered[n], kept[n]);
        moved := moved + [identity.(id := Rename(first, ordered, identity.id))];
      }
      assert kept[..|ordered|] == kept;
      assert ClaimsOf(moved) == kept;
    }

    /** The kept ids in ascending order. */
    method KeptInOrder(assertions: seq<Triple>, txFacts: seq<Triple>) returns (ordered: seq<int>)
      requires Valid()
      ensures ordered == Kept(first, ClaimsOf(pending), MentionedBy(assertions + txFacts))
    {
      ghost var claims, mentioned := ClaimsOf(pending), MentionedBy(assertions + txFacts);
      var kept := (set c | c in ids :: ids[c]) + MentionedBy(assertions) + MentionedBy(txFacts);
      assert MentionedBy(assertions) + MentionedBy(txFacts) == mentioned by {
        assert forall k :: k in assertions + txFacts <==> k in assertions || k in txFacts;
      }
      ordered := [];
      for n := 0 to |pending|
        invariant ordered == Kept(first, claims[..n], mentioned)
      {
        assert claims[..n + 1][..n] == claims[..n];
        assert first + n in kept <==> claims[n] != Anonymous || first + n in mentioned;
        if first + n in kept {
          ordered := ordered + [first + n];
        }
      }
      assert claims[..|pending|] == claims;
    }
  }
}
