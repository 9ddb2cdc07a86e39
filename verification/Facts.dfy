/** The vocabulary of the fact store: stored values, facts, schemas, planned operations,
    and the few list functions that stand for SQL's filtered, id-ordered selections. */
module Facts {

  datatype Option<+T> = None | Some(value: T)

  datatype Error = Conflict | NotFound | Unsupported | Malformed | TooLarge

  datatype Result<+T> = Ok(value: T) | Err(error: Error)

  /** Global identities.  Event ids are given; the id of an anonymous entity is derived from the
      event that creates it and its position in it. */
  datatype Uuid = Given(n: nat) | Derived(event: Uuid, ordinal: nat)

  /** Entity ids up to and including this one belong to the system. */
  const GENESIS_TX := 64
  const FIRST_USER_ID := 65

  /** Attribute ids of the system attributes the model speaks about. */
  const ATTR_AT := 1
  const ATTR_EXCISED := 11
  const ATTR_UNDOES := 12
  const ATTR_IMPORTED := 13

  /** Value tags. */
  const TAG_REF := 0
  const TAG_BOOL := 1
  const TAG_TEXT := 4
  const TAG_INSTANT := 5
  const TAG_VECTOR := 7
  const TAG_TEXT_REF := 8
  const TAG_BYTES_REF := 9

  /** A stored value: a tag and a storage cell.  The cell of a reference is the id of its
      target and the cell of an indirect value is its content hash; every other cell stands
      for its rank in SQLite's storage order, which is all that planning and paging use. */
  datatype Value = Value(tag: nat, cell: int)

  predicate RefersTo(v: Value, target: int) {
    v.tag == TAG_REF && v.cell == target
  }

  predicate IsText(v: Value) {
    v.tag == TAG_TEXT || v.tag == TAG_TEXT_REF
  }

  predicate IsIndirect(v: Value) {
    v.tag == TAG_VECTOR || v.tag == TAG_TEXT_REF || v.tag == TAG_BYTES_REF
  }

  /** What a fact says: entity, attribute, value. */
  datatype Triple = Triple(e: int, a: int, v: Value)

  /** A row of the fact table.  `rx` is the transaction that retracted it, if any. */
  datatype Fact = Fact(id: nat, key: Triple, tx: int, rx: Option<int>)

  /** The part of the schema that planning and committing consult.  An attribute outside
      `many` holds one value per entity. */
  datatype Schema = Schema(many: set<int>, unique: set<int>, nohistory: set<int>)

  /** A planned operation.  Operation number i of a plan has order i. */
  datatype Op =
    | Assert(key: Triple)
    | Retract(e: int, a: Option<int>, v: Option<Value>)
    | Missing

  /** A fact that a plan will insert, with the order of the operation that asked for it. */
  datatype Planned = Planned(key: Triple, order: nat)

  /** The net effect of a plan. */
  datatype Delta = Delta(assertions: seq<Planned>, retractions: seq<Fact>)

  // ----- lists -----

  /** The elements of `s` that belong to `keep`, in the order of `s`. */
  function Keep<T(==,!new)>(s: seq<T>, keep: set<T>): (r: seq<T>)
    ensures forall x :: x in r <==> x in s && x in keep
  {
    if s == [] then []
    else (if s[0] in keep then [s[0]] else []) + Keep(s[1..], keep)
  }

  lemma {:induction false} KeepConcat<T(!new)>(s: seq<T>, t: seq<T>, keep: set<T>)
    ensures Keep(s + t, keep) == Keep(s, keep) + Keep(t, keep)
  {
    if s == [] {
      assert s + t == t;
    } else {
      assert (s + t)[1..] == s[1..] + t;
      KeepConcat(s[1..], t, keep);
    }
  }

  lemma {:induction false} KeepAgrees<T(!new)>(s: seq<T>, keep: set<T>, keep': set<T>)
    requires forall x :: x in s ==> (x in keep <==> x in keep')
    ensures Keep(s, keep) == Keep(s, keep')
  {
    if s != [] {
      KeepAgrees(s[1..], keep, keep');
    }
  }

  lemma {:induction false} KeepAll<T(!new)>(s: seq<T>, keep: set<T>)
    requires forall x :: x in s ==> x in keep
    ensures Keep(s, keep) == s
  {
    if s != [] {
      KeepAll(s[1..], keep);
    }
  }

  lemma {:induction false} KeepNone<T(!new)>(s: seq<T>, keep: set<T>)
    requires forall x :: x in s ==> x !in keep
    ensures Keep(s, keep) == []
  {
    if s != [] {
      KeepNone(s[1..], keep);
    }
  }

  lemma {:induction false} KeepKeep<T(!new)>(s: seq<T>, one: set<T>, two: set<T>)
    ensures Keep(Keep(s, one), two) == Keep(s, one * two)
  {
    if s != [] {
      KeepKeep(s[1..], one, two);
      var head := if s[0] in one then [s[0]] else [];
      KeepConcat(head, Keep(s[1..], one), two);
    }
  }

  // ----- rows in id order -----

  ghost predicate ById(rows: seq<Fact>) {
    forall i, j :: 0 <= i < j < |rows| ==> rows[i].id < rows[j].id
  }

  /** A selection keeps any strictly increasing rank of the list it selects from. */
  lemma {:induction false} KeepIncreasing<T(!new)>(s: seq<T>, keep: set<T>, rank: T -> int)
    requires forall i, j :: 0 <= i < j < |s| ==> rank(s[i]) < rank(s[j])
    ensures forall i, j :: 0 <= i < j < |Keep(s, keep)| ==> rank(Keep(s, keep)[i]) < rank(Keep(s, keep)[j])
  {
    if s != [] {
      KeepIncreasing(s[1..], keep, rank);
      forall x | x in Keep(s[1..], keep) ensures rank(s[0]) < rank(x) {
        assert x in s[1..];
      }
      ConsIncreasing(s[0], Keep(s[1..], keep), rank);
      assert Keep(s, keep) == if s[0] in keep then [s[0]] + Keep(s[1..], keep) else Keep(s[1..], keep);
    }
  }

  lemma ConsIncreasing<T(!new)>(x: T, s: seq<T>, rank: T -> int)
    requires forall i, j :: 0 <= i < j < |s| ==> rank(s[i]) < rank(s[j])
    requires forall y :: y in s ==> rank(x) < rank(y)
    ensures var r := [x] + s; forall i, j :: 0 <= i < j < |r| ==> rank(r[i]) < rank(r[j])
  {
  }

  lemma KeepById(rows: seq<Fact>, keep: set<Fact>)
    requires ById(rows)
    ensures ById(Keep(rows, keep))
  {
    KeepIncreasing(rows, keep, (f: Fact) => f.id);
  }

  /** A strictly increasing rank leaves no freedom: two such lists with the same elements are
      equal. */
  lemma {:induction false} IncreasingUnique<T(!new)>(s: seq<T>, t: seq<T>, rank: T -> int)
    requires forall i, j :: 0 <= i < j < |s| ==> rank(s[i]) < rank(s[j])
    requires forall i, j :: 0 <= i < j < |t| ==> rank(t[i]) < rank(t[j])
    requires forall x :: x in s <==> x in t
    ensures s == t
  {
    assert |s| == 0 <==> |t| == 0 by {
      assert |s| != 0 ==> s[0] in t;
      assert |t| != 0 ==> t[0] in s;
    }
    if s != [] {
      assert s[0] in t && t[0] in s;
      forall x ensures x in s[1..] <==> x in t[1..] {
        if x in s[1..] { assert x in t; }
        if x in t[1..] { assert x in s; }
      }
      IncreasingUnique(s[1..], t[1..], rank);
    }
  }

  lemma ByIdUnique(s: seq<Fact>, t: seq<Fact>)
    requires ById(s) && ById(t)
    requires forall f :: f in s <==> f in t
    ensures s == t
  {
    IncreasingUnique(s, t, (f: Fact) => f.id);
  }
}
