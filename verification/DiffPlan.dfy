/** The planner's loop as it runs: `working`, `retractByID`, `retractByKey` and `canceled` are
    updated operation by operation, and the inner loops visit the working facts in an
    arbitrary order, as iteration over a hash map does.  The result is `Planner.Plan`, so it
    does not depend on that order. */
module DiffPlan {
  import opened Facts
  import opened Planner

  /** The retraction map the two index maps stand for. */
  ghost function Joined(byKey: map<Triple, nat>, byId: map<nat, Fact>): map<Triple, Fact> {
    map k | k in byKey && byKey[k] in byId :: byId[byKey[k]]
  }

  /** The two retraction indexes mirror each other. */
  ghost predicate Linked(byKey: map<Triple, nat>, byId: map<nat, Fact>) {
    && (forall k :: k in byKey ==> byKey[k] in byId && byId[byKey[k]].key == k)
    && (forall i :: i in byId ==> byId[i].id == i && byId[i].key in byKey && byKey[byId[i].key] == i)
  }

  /** Stored working rows have distinct ids, and none of them is recorded as retracted. */
  ghost predicate Apart(working: map<Triple, Entry>, byKey: map<Triple, nat>, byId: map<nat, Fact>) {
    && (forall k :: k in working && working[k].Stored? ==>
          working[k].row.key == k && k !in byKey && working[k].row.id !in byId)
    && (forall k, l :: k in working && l in working && working[k].Stored? && working[l].Stored? ==>
          (working[k].row.id == working[l].row.id ==> k == l))
  }

  /** Recording one retracted row in both indexes. */
  lemma RecordRetraction(byKey: map<Triple, nat>, byId: map<nat, Fact>, f: Fact)
    requires Linked(byKey, byId) && f.key !in byKey && f.id !in byId
    ensures Linked(byKey[f.key := f.id], byId[f.id := f])
    ensures Joined(byKey[f.key := f.id], byId[f.id := f]) == Joined(byKey, byId)[f.key := f]
  {
  }

  lemma ForgetRetraction(byKey: map<Triple, nat>, byId: map<nat, Fact>, key: Triple)
    requires Linked(byKey, byId) && key in byKey
    ensures Linked(byKey - {key}, byId - {byKey[key]})
    ensures Joined(byKey - {key}, byId - {byKey[key]}) == Joined(byKey, byId) - {key}
  {
  }

  lemma ConsistentApart(rows: seq<Fact>, st: State, n: nat, byKey: map<Triple, nat>, byId: map<nat, Fact>)
    requires ById(rows) && Consistent(rows, st, n) && Linked(byKey, byId) && st.retracted == Joined(byKey, byId)
    ensures Apart(st.working, byKey, byId)
  {
    forall k | k in st.working && st.working[k].Stored? ensures k !in byKey && st.working[k].row.id !in byId {
      assert k in byKey ==> k in Joined(byKey, byId);
      var row := st.working[k].row;
      if row.id in byId {
        assert st.retracted[byId[row.id].key] == byId[row.id];
        IdNamesRow(rows, row, byId[row.id]);
      }
    }
    forall k, l | k in st.working && l in st.working && st.working[k].Stored? && st.working[l].Stored?
      && st.working[k].row.id == st.working[l].row.id ensures k == l
    {
      IdNamesRow(rows, st.working[k].row, st.working[l].row);
    }
  }

  lemma IdNamesRow(rows: seq<Fact>, f: Fact, g: Fact)
    requires ById(rows) && f in rows && g in rows && f.id == g.id
    ensures f == g
  {
    var i :| 0 <= i < |rows| && rows[i] == f;
    var j :| 0 <= j < |rows| && rows[j] == g;
    assert !(i < j) && !(j < i);
  }

  lemma TakenOneMore(working: map<Triple, Entry>, taken: set<Triple>, key: Triple)
    requires key in working
    ensures StoredIn(working, taken + {key})
         == if working[key].Stored? then StoredIn(working, taken)[key := working[key].row] else StoredIn(working, taken)
    ensures PendingIn(working, taken + {key})
         == if working[key].Pending? then PendingIn(working, taken) + {working[key].order} else PendingIn(working, taken)
  {
  }

  /** The facts in `taken` have left the working set; the stored ones are recorded. */
  ghost predicate Took(working: map<Triple, Entry>, byKey: map<Triple, nat>, byId: map<nat, Fact>, taken: set<Triple>,
                       working': map<Triple, Entry>, byKey': map<Triple, nat>, byId': map<nat, Fact>) {
    && working' == working - taken
    && Linked(byKey', byId')
    && Apart(working', byKey', byId')
    && Joined(byKey', byId') == Joined(byKey, byId) + StoredIn(working, taken)
  }

  lemma TookNothing(working: map<Triple, Entry>, byKey: map<Triple, nat>, byId: map<nat, Fact>)
    requires Linked(byKey, byId) && Apart(working, byKey, byId)
    ensures Took(working, byKey, byId, {}, working, byKey, byId) && PendingIn(working, {}) == {}
  {
    assert StoredIn(working, {}) == map[];
  }

  lemma TookPending(working: map<Triple, Entry>, byKey: map<Triple, nat>, byId: map<nat, Fact>, taken: set<Triple>,
                    working': map<Triple, Entry>, byKey': map<Triple, nat>, byId': map<nat, Fact>, key: Triple)
    requires Took(working, byKey, byId, taken, working', byKey', byId')
    requires key in working && key !in taken && working[key].Pending?
    ensures Took(working, byKey, byId, taken + {key}, working' - {key}, byKey', byId')
  {
    TakenOneMore(working, taken, key);
  }

  lemma TookStored(working: map<Triple, Entry>, byKey: map<Triple, nat>, byId: map<nat, Fact>, taken: set<Triple>,
                   working': map<Triple, Entry>, byKey': map<Triple, nat>, byId': map<nat, Fact>, key: Triple)
    requires Took(working, byKey, byId, taken, working', byKey', byId')
    requires key in working && key !in taken && working[key].Stored?
    ensures var row := working[key].row;
      Took(working, byKey, byId, taken + {key}, working' - {key}, byKey'[key := row.id], byId'[row.id := row])
  {
    hide StoredIn;
    var row := working[key].row;
    assert key in working' && working'[key] == working[key];
    TakenOneMore(working, taken, key);
    RecordRetraction(byKey', byId', row);
    ApartAfterRecord(working', byKey', byId', key);
    assert working' - {key} == working - (taken + {key});
  }

  lemma ApartAfterRecord(working: map<Triple, Entry>, byKey: map<Triple, nat>, byId: map<nat, Fact>, key: Triple)
    requires Apart(working, byKey, byId) && key in working && working[key].Stored?
    ensures var row := working[key].row; Apart(working - {key}, byKey[key := row.id], byId[row.id := row])
  {
  }

  /** Takes every fact a retraction hits out of the working set. */
  method TakeAway(op: Op, owners: set<int>, working: map<Triple, Entry>,
                  byKey: map<Triple, nat>, byId: map<nat, Fact>, canceled: set<nat>)
    returns (working': map<Triple, Entry>, byKey': map<Triple, nat>, byId': map<nat, Fact>, canceled': set<nat>)
    requires op.Retract? && Linked(byKey, byId) && Apart(working, byKey, byId)
    ensures var hit := HitBy(working, op, owners);
      && Took(working, byKey, byId, hit, working', byKey', byId')
      && canceled' == canceled + PendingIn(working, hit)
  {
    hide Hits, Took, Linked, Apart, PendingIn, StoredIn;
    TookNothing(working, byKey, byId);
    working', byKey', byId', canceled' := working, byKey, byId, canceled;
    var rest := working.Keys;
    ghost var taken: set<Triple> := {};
    while rest != {}
      invariant rest <= working.Keys
      invariant taken == set k | k in working && k !in rest && Hits(op, k, owners)
      invariant Took(working, byKey, byId, taken, working', byKey', byId')
      invariant canceled' == canceled + PendingIn(working, taken)
      decreases rest
    {
      var key :| key in rest;
      rest := rest - {key};
      if Hits(op, key, owners) {
        TakenOneMore(working, taken, key);
        match working[key] {
          case Pending(order) =>
            TookPending(working, byKey, byId, taken, working', byKey', byId', key);
            canceled' := canceled' + {order};
          case Stored(row) =>
            TookStored(working, byKey, byId, taken, working', byKey', byId', key);
            byId', byKey' := byId'[row.id := row], byKey'[key := row.id];
        }
        working' := working' - {key};
        taken := taken + {key};
      }
    }
    assert taken == HitBy(working, op, owners);
  }

  /** Makes room for `key`: displaces the other stored values of its slot, or reports that the
      plan itself already put a value there. */
  method MakeRoom(schema: Schema, key: Triple, working: map<Triple, Entry>,
                  byKey: map<Triple, nat>, byId: map<nat, Fact>)
    returns (conflict: bool, working': map<Triple, Entry>, byKey': map<Triple, nat>, byId': map<nat, Fact>)
    requires Linked(byKey, byId) && Apart(working, byKey, byId)
    ensures var displaced := Displaced(schema, working, key);
      && conflict == (PendingIn(working, displaced) != {})
      && (!conflict ==> Took(working, byKey, byId, displaced, working', byKey', byId'))
  {
    working', byKey', byId', conflict := working, byKey, byId, false;
    if key.a in schema.many {
      return;
    }
    var rest := working.Keys;
    ghost var taken: set<Triple> := {};
    while rest != {}
      invariant rest <= working.Keys
      invariant taken == set k | k in working && k !in rest && SameSlot(k, key)
      invariant Took(working, byKey, byId, taken, working', byKey', byId')
      invariant PendingIn(working, taken) == {}
      decreases rest
    {
      var k :| k in rest;
      rest := rest - {k};
      if SameSlot(k, key) {
        match working[k] {
          case Pending(order) =>
            conflict := true;
            assert order in PendingIn(working, Displaced(schema, working, key));
            return;
          case Stored(row) =>
            TakenOneMore(working, taken, k);
            TookStored(working, byKey, byId, taken, working', byKey', byId', k);
            byId', byKey' := byId'[row.id := row], byKey'[k := row.id];
        }
        working' := working' - {k};
        taken := taken + {k};
      }
    }
    assert taken == Displaced(schema, working, key);
  }

  /** Does another entity own the value of `key`? */
  method HasRival(working: map<Triple, Entry>, key: Triple) returns (found: bool)
    ensures found <==> exists k :: k in working && Rivals(k, key)
  {
    var rest := working.Keys;
    while rest != {}
      invariant rest <= working.Keys
      invariant forall k :: k in working && k !in rest ==> !Rivals(k, key)
      decreases rest
    {
      var k :| k in rest;
      if Rivals(k, key) {
        return true;
      }
      rest := rest - {k};
    }
    return false;
  }

  /** Inserts `f` into an id-ordered list. */
  method InsertById(rows: seq<Fact>, f: Fact) returns (r: seq<Fact>)
    requires ById(rows) && forall g :: g in rows ==> g.id != f.id
    ensures ById(r) && forall g :: g in r <==> g == f || g in rows
  {
    var i := 0;
    while i < |rows| && rows[i].id < f.id
      invariant 0 <= i <= |rows|
      invariant forall j :: 0 <= j < i ==> rows[j].id < f.id
    {
      i := i + 1;
    }
    assert i < |rows| ==> rows[i] in rows;
    assert forall j :: i <= j < |rows| ==> f.id < rows[j].id;
    r := rows[..i] + [f] + rows[i..];
    InsertedById(rows, f, i);
  }

  lemma InsertedById(rows: seq<Fact>, f: Fact, i: nat)
    requires ById(rows) && i <= |rows|
    requires (forall j :: 0 <= j < i ==> rows[j].id < f.id) && (forall j :: i <= j < |rows| ==> f.id < rows[j].id)
    ensures var r := rows[..i] + [f] + rows[i..]; ById(r) && forall g :: g in r <==> g == f || g in rows
  {
    var r := rows[..i] + [f] + rows[i..];
    assert forall j :: 0 <= j < |r| ==> r[j] == if j < i then rows[j] else if j == i then f else rows[j - 1];
    assert rows == rows[..i] + rows[i..];
  }

  /** The retracted rows in id order. */
  method CollectRetractions(current: seq<Fact>, byKey: map<Triple, nat>, byId: map<nat, Fact>) returns (r: seq<Fact>)
    requires ById(current) && Linked(byKey, byId) && forall i :: i in byId ==> byId[i] in current
    ensures r == Keep(current, Joined(byKey, byId).Values)
  {
    r := [];
    var rest := byId.Keys;
    while rest != {}
      invariant rest <= byId.Keys
      invariant ById(r)
      invariant forall f :: f in r <==> f.id in byId && f.id !in rest && byId[f.id] == f
      decreases rest
    {
      var id :| id in rest;
      rest := rest - {id};
      r := InsertById(r, byId[id]);
    }
    CollectedRetractions(current, byKey, byId, r);
  }

  lemma CollectedRetractions(current: seq<Fact>, byKey: map<Triple, nat>, byId: map<nat, Fact>, r: seq<Fact>)
    requires ById(current) && Linked(byKey, byId) && forall i :: i in byId ==> byId[i] in current
    requires ById(r) && forall f :: f in r <==> f.id in byId && byId[f.id] == f
    ensures r == Keep(current, Joined(byKey, byId).Values)
  {
    var joined := Joined(byKey, byId);
    var kept := Keep(current, joined.Values);
    KeepById(current, joined.Values);
    forall f ensures f in r <==> f in kept {
      if f in r {
        assert joined[f.key] == f;
      }
      if f in kept {
        var k :| k in joined && joined[k] == f;
      }
    }
    ByIdUnique(r, kept);
  }

  method CollectAssertions(inserted: seq<Planned>, canceled: set<nat>) returns (r: seq<Planned>)
    ensures r == Keep(inserted, set p | p in inserted && p.order !in canceled)
  {
    ghost var kept := set p | p in inserted && p.order !in canceled;
    r := [];
    for i := 0 to |inserted|
      invariant r == Keep(inserted[..i], kept)
    {
      KeepConcat(inserted[..i], [inserted[i]], kept);
      assert inserted[..i + 1] == inserted[..i] + [inserted[i]];
      if inserted[i].order !in canceled {
        r := r + [inserted[i]];
      }
    }
    assert inserted[..|inserted|] == inserted;
  }

  /** One assertion: a duplicate is skipped, a displaced fact that comes back is restored, and
      anything else is inserted unless its slot or its unique value is taken. */
  method AssertFact(schema: Schema, key: Triple, order: nat, working: map<Triple, Entry>,
                    byKey: map<Triple, nat>, byId: map<nat, Fact>, inserted: seq<Planned>, ghost canceled: set<nat>)
    returns (conflict: bool, working': map<Triple, Entry>, byKey': map<Triple, nat>, byId': map<nat, Fact>,
             inserted': seq<Planned>)
    requires Linked(byKey, byId) && Apart(working, byKey, byId)
    ensures Linked(byKey', byId')
    ensures StepAssert(schema, State(working, Joined(byKey, byId), inserted, canceled), key, order)
         == if conflict then Err(Conflict) else Ok(State(working', Joined(byKey', byId'), inserted', canceled))
  {
    conflict, working', byKey', byId', inserted' := false, working, byKey, byId, inserted;
    if key in working {
      return;
    }
    conflict, working', byKey', byId' := MakeRoom(schema, key, working, byKey, byId);
    ghost var room := TakeOut(State(working, Joined(byKey, byId), inserted, canceled), Displaced(schema, working, key));
    assert !conflict ==> room == State(working', Joined(byKey', byId'), inserted, canceled);
    if conflict {
      byKey', byId' := byKey, byId;
    } else if key in byKey' {
      ForgetRetraction(byKey', byId', key);
      var restored := byId'[byKey'[key]];
      byId', byKey' := byId' - {byKey'[key]}, byKey' - {key};
      working' := working'[key := Stored(restored)];
    } else {
      if key.a in schema.unique {
        conflict := HasRival(working', key);
      }
      if !conflict {
        working' := working'[key := Pending(order)];
        inserted' := inserted + [Planned(key, order)];
      }
    }
  }

  lemma PrefixKeys(rows: seq<Fact>, i: nat)
    requires LiveRows(rows) && i < |rows|
    ensures rows[i].key !in Keys(rows[..i])
  {
    forall f | f in rows[..i] ensures f.key != rows[i].key {
      var j :| 0 <= j < i && rows[j] == f;
      assert f in rows && rows[i] in rows && f.id != rows[i].id;
    }
  }

  lemma StartWorking(rows: seq<Fact>, working: map<Triple, Entry>)
    requires LiveRows(rows) && working.Keys == Keys(rows) && forall f :: f in rows ==> working[f.key] == Stored(f)
    ensures working == Start(rows).working
  {
    StartConsistent(rows);
  }

  lemma OneMoreRow(rows: seq<Fact>, f: Fact)
    ensures Keys(rows + [f]) == Keys(rows) + {f.key}
    ensures Receipts(rows + [f]) == Receipts(rows) + (if f.key.e == f.tx && f.key.a == ATTR_AT then {f.key.e} else {})
  {
    assert forall g :: g in rows + [f] <==> g in rows || g == f;
  }

  method LoadWorking(current: seq<Fact>) returns (working: map<Triple, Entry>, owners: set<int>)
    requires forall i :: 0 <= i < |current| ==> current[i].key !in Keys(current[..i])
    ensures working.Keys == Keys(current) && (forall f :: f in current ==> working[f.key] == Stored(f))
    ensures owners == Receipts(current)
  {
    working, owners := map[], {};
    for i := 0 to |current|
      invariant working.Keys == Keys(current[..i])
      invariant forall f :: f in current[..i] ==> working[f.key] == Stored(f)
      invariant owners == Receipts(current[..i])
    {
      var fact := current[i];
      assert current[..i + 1] == current[..i] + [fact];
      OneMoreRow(current[..i], fact);
      hide Receipts;
      working := working[fact.key := Stored(fact)];
      if fact.key.e == fact.tx && fact.key.a == ATTR_AT {
        owners := owners + {fact.key.e};
      }
    }
    assert current[..|current|] == current;
  }

  /** The planner.  Its result is the value of `Plan` whatever order the inner loops take. */
  method DiffPlan(schema: Schema, current: seq<Fact>, ops: seq<Op>) returns (r: Result<Delta>)
    requires LiveRows(current)
    ensures r == Plan(schema, current, ops)
  {
    forall i | 0 <= i < |current| ensures current[i].key !in Keys(current[..i]) {
      PrefixKeys(current, i);
    }
    var working, owners := LoadWorking(current);
    StartWorking(current, working);
    var inserted: seq<Planned>, canceled: set<nat> := [], {};
    var byId: map<nat, Fact>, byKey: map<Triple, nat> := map[], map[];
    assert Joined(byKey, byId) == map[];
    for i := 0 to |ops|
      invariant Linked(byKey, byId)
      invariant Run(schema, owners, current, ops[..i]) == Ok(State(working, Joined(byKey, byId), inserted, canceled))
    {
      ghost var st := State(working, Joined(byKey, byId), inserted, canceled);
      assert Apart(working, byKey, byId) by {
        RunKeeps(schema, owners, current, ops[..i]);
        ConsistentApart(current, st, i, byKey, byId);
      }
      assert ops[..i + 1][..i] == ops[..i];
      assert Run(schema, owners, current, ops[..i + 1]) == Step(schema, owners, st, ops[i], i);
      match ops[i] {
        case Missing =>
        case Retract(_, _, _) =>
          working, byKey, byId, canceled := TakeAway(ops[i], owners, working, byKey, byId, canceled);
        case Assert(key) =>
          var conflict;
          conflict, working, byKey, byId, inserted := AssertFact(schema, key, i, working, byKey, byId, inserted, canceled);
          if conflict {
            RunStopped(schema, owners, current, ops, i);
            return Err(Conflict);
          }
      }
    }
    assert ops[..|ops|] == ops;
    assert forall i :: i in byId ==> byId[i] in current by {
      RunKeeps(schema, owners, current, ops);
      assert forall i :: i in byId ==> Joined(byKey, byId)[byId[i].key] == byId[i];
    }
    var retractions := CollectRetractions(current, byKey, byId);
    var assertions := CollectAssertions(inserted, canceled);
    r := Ok(Delta(assertions, retractions));
  }

  /** Once a step fails the whole run fails with the same error. */
  lemma {:induction false} RunStopped(schema: Schema, shielded: set<int>, rows: seq<Fact>, ops: seq<Op>, i: nat)
    requires LiveRows(rows) && i < |ops|
    requires Run(schema, shielded, rows, ops[..i + 1]).Err?
    ensures Run(schema, shielded, rows, ops) == Run(schema, shielded, rows, ops[..i + 1])
  {
    if i + 1 == |ops| {
      assert ops[..i + 1] == ops;
    } else {
      var shorter := ops[..|ops| - 1];
      assert shorter[..i + 1] == ops[..i + 1];
      RunStopped(schema, shielded, rows, shorter, i);
    }
  }
}
