/** Reading an event, by the loops of the replica: identities are allocated in the order the event
    lists them, then the tuples become operations, retractions before assertions. */
module Applier {
  import opened Facts
  import opened Identities
  import opened Store
  import opened Snapshot
  import opened Replica

  /** Allocates the identities the event creates; known ones are kept, and a repeated anonymous one
      stops the event. */
  method PreallocateIdentities(index: map<Selector, int>, next: int, created: seq<Selector>) returns (r: Result<Known>)
    ensures r == Preallocate(index, next, created)
  {
    var index', claims := index, [];
    for i := 0 to |created|
      invariant Preallocate(index, next, created[..i]) == Ok(Known(index', claims))
    {
      assert created[..i + 1][..i] == created[..i];
      if created[i] !in index' {
        index' := index'[created[i] := next + |claims|];
        claims := claims + [ClaimOf(created[i])];
      } else if created[i] !in index && created[i].Eid? {
        RepeatStops(index, next, created, i + 1);
        return Err(Conflict);
      }
    }
    assert created[..|created|] == created;
    return Ok(Known(index', claims));
  }

  lemma {:induction false} RepeatStops(index: map<Selector, int>, next: int, created: seq<Selector>, n: nat)
    requires n <= |created| && Preallocate(index, next, created[..n]).Err?
    ensures Preallocate(index, next, created) == Preallocate(index, next, created[..n])
    decreases |created| - n
  {
    if n == |created| {
      assert created[..n] == created;
    } else {
      assert created[..n + 1][..n] == created[..n];
      RepeatStops(index, next, created, n + 1);
    }
  }

  /** Resolves the tuples in order; a selector nobody knows stops the event. */
  method ResolveTuples(index: map<Selector, int>, uuid: Uuid, tuples: seq<Tuple>) returns (r: Option<seq<Triple>>)
    ensures r == KeysOfTuples(index, uuid, tuples)
  {
    var keys := [];
    for i := 0 to |tuples|
      invariant KeysOfTuples(index, uuid, tuples[..i]) == Some(keys)
    {
      assert tuples[..i + 1][..i] == tuples[..i];
      var key := KeyOf(index, uuid, tuples[i]);
      if key.None? {
        UnknownStops(index, uuid, tuples, i + 1);
        return None;
      }
      keys := keys + [key.value];
    }
    assert tuples[..|tuples|] == tuples;
    return Some(keys);
  }

  lemma {:induction false} UnknownStops(index: map<Selector, int>, uuid: Uuid, tuples: seq<Tuple>, n: nat)
    requires n <= |tuples| && KeysOfTuples(index, uuid, tuples[..n]).None?
    ensures KeysOfTuples(index, uuid, tuples).None?
    decreases |tuples| - n
  {
    if n == |tuples| {
      assert tuples[..n] == tuples;
    } else {
      assert tuples[..n + 1][..n] == tuples[..n];
      UnknownStops(index, uuid, tuples, n + 1);
    }
  }

  /** The keys that are transaction metadata apart from those that are facts. */
  method SplitKeys(keys: seq<Triple>) returns (meta: seq<Triple>, facts: seq<Triple>)
    ensures meta == MetaOf(keys) && facts == FactsOf(keys)
  {
    meta, facts := [], [];
    var i := |keys|;
    while i > 0
      invariant 0 <= i <= |keys| && meta == MetaOf(keys[i..]) && facts == FactsOf(keys[i..])
    {
      i := i - 1;
      assert keys[i..][1..] == keys[i + 1..];
      if IsMeta(keys[i]) { meta := [keys[i]] + meta; } else { facts := [keys[i]] + facts; }
    }
  }

  /** Retractions precede assertions. */
  method BuildOperations(gone: seq<Triple>, facts: seq<Triple>) returns (ops: seq<Op>)
    ensures ops == Retracts(gone) + Asserts(facts)
  {
    var retracts, asserts := [], [];
    for i := 0 to |gone|
      invariant retracts == Retracts(gone[..i])
    {
      retracts := retracts + [Retract(gone[i].e, Some(gone[i].a), Some(gone[i].v))];
    }
    assert gone[..|gone|] == gone;
    for i := 0 to |facts|
      invariant asserts == Asserts(facts[..i])
    {
      asserts := asserts + [Assert(facts[i])];
    }
    assert facts[..|facts|] == facts;
    return retracts + asserts;
  }

  /** Reads the request off an event's record. */
  method ReadEvent(next: int, index: map<Selector, int>, uuid: Uuid, payload: Payload, at: int) returns (r: Result<Request>)
    requires payload.Changes?
    ensures r == EventRequest(next, index, uuid, payload, at)
  {
    var known := PreallocateIdentities(index, next, payload.created);
    if known.Err? { return Err(known.error); }
    var index', claims := known.value.index, known.value.claims;
    var gone := ResolveTuples(index', uuid, payload.retracted);
    if gone.None? { return Err(NotFound); }
    var come := ResolveTuples(index', uuid, payload.asserted);
    if come.None? { return Err(NotFound); }
    var meta, facts := SplitKeys(come.value);
    var ops := BuildOperations(gone.value, facts);
    ops := ops + [Assert(ImportKey(payload.at))];
    return Ok(Request(claims, ops, meta, true, None, None, at, uuid));
  }
}
