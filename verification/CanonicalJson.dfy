/** Canonical key order and canonical form.  One printer sorts keys by their UTF-8 bytes, the
    other by code points; both give the same text, which does not depend on the order in which
    an object lists its fields and which determines the value. */
module CanonicalJson {
  import opened Facts
  import opened Json
  import opened JsonSyntax

  // ----- the two orders -----

  /** Lexicographic order; a proper prefix comes first. */
  predicate Lex(x: seq<int>, y: seq<int>) {
    y != [] && (x == [] || x[0] < y[0] || (x[0] == y[0] && Lex(x[1..], y[1..])))
  }

  /** The encoding of section 3 of RFC 3629. */
  function Utf8Char(c: int): seq<int>
    requires IsScalar(c)
  {
    if c < 0x80 then [c]
    else if c < 0x800 then [0xc0 + c / 64, 0x80 + c % 64]
    else if c < 0x10000 then [0xe0 + c / 4096, 0x80 + c / 64 % 64, 0x80 + c % 64]
    else [0xf0 + c / 262144, 0x80 + c / 4096 % 64, 0x80 + c / 64 % 64, 0x80 + c % 64]
  }

  function Utf8(s: Text): seq<int>
    requires WellFormed(s)
  {
    if s == [] then [] else Utf8Char(s[0]) + Utf8(s[1..])
  }

  /** The loop that compares code points one by one. */
  method CompareUnicode(left: Text, right: Text) returns (order: int)
    ensures order < 0 <==> Lex(left, right)
    ensures order > 0 <==> Lex(right, left)
    ensures order == 0 <==> left == right
  {
    var n := if |left| < |right| then |left| else |right|;
    assert left[0..] == left && right[0..] == right;
    for i := 0 to n
      invariant left[..i] == right[..i]
      invariant Lex(left[i..], right[i..]) == Lex(left, right) && Lex(right[i..], left[i..]) == Lex(right, left)
    {
      if left[i] != right[i] {
        return left[i] - right[i];
      }
      assert left[i..][1..] == left[i + 1..] && right[i..][1..] == right[i + 1..];
    }
    assert left[..n] == right[..n];
    assert |left| == |right| ==> left == left[..n] && right == right[..n];
    assert left[n..] == [] || right[n..] == [];
    return |left| - |right|;
  }

  lemma {:induction false} LexPrefix(p: seq<int>, x: seq<int>, y: seq<int>)
    ensures Lex(p + x, p + y) <==> Lex(x, y)
  {
    if p == [] {
      assert p + x == x && p + y == y;
    } else {
      assert (p + x)[1..] == p[1..] + x && (p + y)[1..] == p[1..] + y;
      LexPrefix(p[1..], x, y);
    }
  }

  /** The first bytes in which two encodings differ are in the order of the characters. */
  lemma CharsDiffer(c: int, d: int) returns (k: nat)
    requires IsScalar(c) && IsScalar(d) && c < d
    ensures k < |Utf8Char(c)| && k < |Utf8Char(d)|
    ensures Utf8Char(c)[..k] == Utf8Char(d)[..k] && Utf8Char(c)[k] < Utf8Char(d)[k]
  {
    LeadByte(c);
    LeadByte(d);
    if Length(c) != Length(d) || Length(c) == 1 {
      k := 0;
    } else if Length(c) == 2 {
      k := TwoBytesDiffer(c, d);
    } else if Length(c) == 3 {
      k := ThreeBytesDiffer(c, d);
    } else {
      k := FourBytesDiffer(c, d);
    }
  }

  lemma TwoBytesDiffer(c: int, d: int) returns (k: nat)
    requires IsScalar(c) && IsScalar(d) && c < d && Length(c) == 2 && Length(d) == 2
    ensures k < 2 && Utf8Char(c)[..k] == Utf8Char(d)[..k] && Utf8Char(c)[k] < Utf8Char(d)[k]
  {
    SixBits(c);
    SixBits(d);
    k := if c / 64 != d / 64 then 0 else 1;
  }

  lemma ThreeBytesDiffer(c: int, d: int) returns (k: nat)
    requires IsScalar(c) && IsScalar(d) && c < d && Length(c) == 3 && Length(d) == 3
    ensures k < 3 && Utf8Char(c)[..k] == Utf8Char(d)[..k] && Utf8Char(c)[k] < Utf8Char(d)[k]
  {
    SixBits(c);
    SixBits(d);
    k := if c / 4096 != d / 4096 then 0 else if c / 64 != d / 64 then 1 else 2;
  }

  lemma FourBytesDiffer(c: int, d: int) returns (k: nat)
    requires IsScalar(c) && IsScalar(d) && c < d && Length(c) == 4 && Length(d) == 4
    ensures k < 4 && Utf8Char(c)[..k] == Utf8Char(d)[..k] && Utf8Char(c)[k] < Utf8Char(d)[k]
  {
    SixBits(c);
    SixBits(d);
    k := if c / 262144 != d / 262144 then 0 else if c / 4096 != d / 4096 then 1 else if c / 64 != d / 64 then 2 else 3;
  }

  function Length(c: int): nat {
    if c < 0x80 then 1 else if c < 0x800 then 2 else if c < 0x10000 then 3 else 4
  }

  /** The quotients by powers of 64 nest. */
  lemma SixBits(c: int)
    requires c >= 0
    ensures c / 4096 == c / 64 / 64 && c / 262144 == c / 4096 / 64
    ensures c == c / 64 * 64 + c % 64 && c / 64 == c / 4096 * 64 + c / 64 % 64 && c / 4096 == c / 262144 * 64 + c / 4096 % 64
  {
  }

  /** The first byte tells the length of an encoding. */
  lemma LeadByte(c: int)
    requires IsScalar(c)
    ensures |Utf8Char(c)| == Length(c)
    ensures Length(c) == 1 ==> Utf8Char(c)[0] < 0x80
    ensures Length(c) == 2 ==> 0xc0 <= Utf8Char(c)[0] < 0xe0
    ensures Length(c) == 3 ==> 0xe0 <= Utf8Char(c)[0] < 0xf0
    ensures Length(c) == 4 ==> 0xf0 <= Utf8Char(c)[0]
  {
  }

  lemma CharOrder(c: int, d: int, x: seq<int>, y: seq<int>)
    requires IsScalar(c) && IsScalar(d) && c < d
    ensures Lex(Utf8Char(c) + x, Utf8Char(d) + y) && !Lex(Utf8Char(d) + y, Utf8Char(c) + x)
  {
    var s, t := Utf8Char(c) + x, Utf8Char(d) + y;
    var k := CharsDiffer(c, d);
    var p := Utf8Char(c)[..k];
    assert s == p + s[k..] && t == p + t[k..];
    LexPrefix(p, s[k..], t[k..]);
    LexPrefix(p, t[k..], s[k..]);
  }

  /** UTF-8 keeps code-point order. */
  lemma {:induction false} Utf8KeepsOrder(a: Text, b: Text)
    requires WellFormed(a) && WellFormed(b)
    ensures Lex(Utf8(a), Utf8(b)) <==> Lex(a, b)
  {
    if a != [] && b != [] {
      if a[0] < b[0] {
        CharOrder(a[0], b[0], Utf8(a[1..]), Utf8(b[1..]));
      } else if b[0] < a[0] {
        CharOrder(b[0], a[0], Utf8(b[1..]), Utf8(a[1..]));
      } else {
        LexPrefix(Utf8Char(a[0]), Utf8(a[1..]), Utf8(b[1..]));
        Utf8KeepsOrder(a[1..], b[1..]);
      }
    }
  }

  lemma {:induction false} LexTotal(x: seq<int>, y: seq<int>)
    ensures Lex(x, y) || Lex(y, x) || x == y
    ensures !Lex(x, x) && !(Lex(x, y) && Lex(y, x))
  {
    if x != [] && y != [] {
      LexTotal(x[1..], y[1..]);
    }
    if x != [] {
      LexTotal(x[1..], x[1..]);
    }
  }

  lemma {:induction false} LexTransitive(x: seq<int>, y: seq<int>, z: seq<int>)
    requires Lex(x, y) && Lex(y, z)
    ensures Lex(x, z)
  {
    if x != [] && x[0] == y[0] == z[0] {
      LexTransitive(x[1..], y[1..], z[1..]);
    }
  }

  // ----- canonical form -----

  datatype Order = Bytes | CodePoints

  predicate KeyLess(order: Order, k: Text, l: Text)
    requires order == Bytes ==> WellFormed(k) && WellFormed(l)
  {
    match order
    case Bytes => Lex(Utf8(k), Utf8(l))
    case CodePoints => Lex(k, l)
  }

  predicate KeysFormed(fields: seq<Field>) {
    forall f :: f in fields ==> WellFormed(f.key)
  }

  /** Insertion by key. */
  function Insert(order: Order, fields: seq<Field>, f: Field): (r: seq<Field>)
    requires KeysFormed(fields) && WellFormed(f.key)
    ensures forall g :: g in r <==> g == f || g in fields
  {
    if fields == [] || KeyLess(order, f.key, fields[0].key) then [f] + fields
    else [fields[0]] + Insert(order, fields[1..], f)
  }

  function SortFields(order: Order, fields: seq<Field>): (r: seq<Field>)
    requires KeysFormed(fields)
    ensures forall g :: g in r <==> g in fields
  {
    if fields == [] then [] else Insert(order, SortFields(order, fields[1..]), fields[0])
  }

  /** All keys, nested ones included, are well-formed text. */
  predicate Formed(v: Json)
    decreases v
  {
    match v
    case Arr(items) => forall i :: 0 <= i < |items| ==> Formed(items[i])
    case Obj(fields) => KeysFormed(fields) && forall i :: 0 <= i < |fields| ==> Formed(fields[i].value)
    case _ => true
  }

  function Normalize(order: Order, v: Json): Json
    requires Formed(v)
    decreases v
  {
    match v
    case Arr(items) => Arr(seq(|items|, i requires 0 <= i < |items| => Normalize(order, items[i])))
    case Obj(fields) => Obj(SortFields(order, NormalFields(order, fields)))
    case _ => v
  }

  function NormalFields(order: Order, fields: seq<Field>): (r: seq<Field>)
    requires KeysFormed(fields) && forall i :: 0 <= i < |fields| ==> Formed(fields[i].value)
    ensures |r| == |fields| && KeysFormed(r) && forall i :: 0 <= i < |fields| ==> r[i].key == fields[i].key
    decreases fields
  {
    seq(|fields|, i requires 0 <= i < |fields| => Field(fields[i].key, Normalize(order, fields[i].value)))
  }

  /** The canonical text of a value. */
  function Canonical(order: Order, v: Json, max: nat): Result<Text>
    requires Formed(v)
  {
    Print(Normalize(order, v), 0, max)
  }

  // ----- both printers agree -----

  lemma {:induction false} SameInsert(fields: seq<Field>, f: Field)
    requires KeysFormed(fields) && WellFormed(f.key)
    ensures Insert(Bytes, fields, f) == Insert(CodePoints, fields, f)
  {
    if fields != [] {
      Utf8KeepsOrder(f.key, fields[0].key);
      SameInsert(fields[1..], f);
    }
  }

  lemma {:induction false} SameSort(fields: seq<Field>)
    requires KeysFormed(fields)
    ensures SortFields(Bytes, fields) == SortFields(CodePoints, fields)
  {
    if fields != [] {
      SameSort(fields[1..]);
      SameInsert(SortFields(CodePoints, fields[1..]), fields[0]);
    }
  }

  lemma {:induction false} SameNormal(v: Json)
    requires Formed(v)
    ensures Normalize(Bytes, v) == Normalize(CodePoints, v)
    decreases v
  {
    match v
    case Arr(items) =>
      forall i | 0 <= i < |items| ensures Normalize(Bytes, items[i]) == Normalize(CodePoints, items[i]) {
        SameNormal(items[i]);
      }
    case Obj(fields) =>
      forall i | 0 <= i < |fields| ensures Normalize(Bytes, fields[i].value) == Normalize(CodePoints, fields[i].value) {
        SameNormal(fields[i].value);
      }
      assert NormalFields(Bytes, fields) == NormalFields(CodePoints, fields);
      SameSort(NormalFields(Bytes, fields));
    case _ =>
  }

  /** Sorting keys by bytes and by code points gives the same text. */
  lemma PrintersAgree(v: Json, max: nat)
    requires Formed(v)
    ensures Canonical(Bytes, v, max) == Canonical(CodePoints, v, max)
  {
    SameNormal(v);
  }

  // ----- canonical form is a form of the value -----

  ghost predicate SortedKeys(fields: seq<Field>) {
    forall i, j :: 0 <= i < j < |fields| ==> Lex(fields[i].key, fields[j].key)
  }

  lemma {:induction false} InsertSorted(fields: seq<Field>, f: Field)
    requires KeysFormed(fields) && WellFormed(f.key) && SortedKeys(fields) && forall g :: g in fields ==> g.key != f.key
    ensures SortedKeys(Insert(CodePoints, fields, f))
  {
    if fields != [] {
      LexTotal(f.key, fields[0].key);
      if Lex(f.key, fields[0].key) {
        forall g | g in fields ensures Lex(f.key, g.key) {
          if g != fields[0] { LexTransitive(f.key, fields[0].key, g.key); }
        }
      } else {
        InsertSorted(fields[1..], f);
        var rest := Insert(CodePoints, fields[1..], f);
        assert forall g :: g in rest ==> Lex(fields[0].key, g.key);
      }
    }
  }

  ghost predicate DistinctFields(fields: seq<Field>) {
    forall i, j :: 0 <= i < j < |fields| ==> fields[i].key != fields[j].key
  }

  lemma {:induction false} SortSorts(fields: seq<Field>)
    requires KeysFormed(fields) && DistinctFields(fields)
    ensures SortedKeys(SortFields(CodePoints, fields))
  {
    if fields != [] {
      SortSorts(fields[1..]);
      InsertSorted(SortFields(CodePoints, fields[1..]), fields[0]);
    }
  }

  lemma {:induction false} SortedUnique(s: seq<Field>, t: seq<Field>)
    requires SortedKeys(s) && SortedKeys(t) && forall f :: f in s <==> f in t
    ensures s == t
  {
    assert |s| == 0 <==> |t| == 0 by {
      assert |s| != 0 ==> s[0] in t;
      assert |t| != 0 ==> t[0] in s;
    }
    if s != [] {
      assert s[0] in t && t[0] in s;
      LexTotal(s[0].key, t[0].key);
      LexTotal(s[0].key, s[0].key);
      forall f ensures f in s[1..] <==> f in t[1..] {
        LexTotal(f.key, f.key);
        if f in s[1..] { assert f in t; }
        if f in t[1..] { assert f in s; }
      }
      SortedUnique(s[1..], t[1..]);
    }
  }

  /** The same value: at every depth, arrays item by item and objects as sets of fields. */
  ghost predicate SameValue(v: Json, w: Json)
    decreases v, 0
  {
    match v
    case Arr(items) => w.Arr? && |w.items| == |items| && forall i :: 0 <= i < |items| ==> SameValue(items[i], w.items[i])
    case Obj(fields) =>
      && w.Obj?
      && (forall f :: f in fields ==> FieldAmong(f, w.fields))
      && (forall g :: g in w.fields ==> FieldCovered(fields, g))
    case _ => v == w
  }

  ghost predicate FieldAmong(f: Field, fields: seq<Field>)
    decreases f.value, 1
  {
    exists g :: g in fields && f.key == g.key && SameValue(f.value, g.value)
  }

  ghost predicate FieldCovered(fields: seq<Field>, g: Field)
    decreases fields, 1
  {
    exists f :: f in fields && f.key == g.key && SameValue(f.value, g.value)
  }

  ghost predicate SameElements(s: seq<Field>, t: seq<Field>) {
    forall f :: f in s <==> f in t
  }

  lemma NormalHas(fields: seq<Field>, fields': seq<Field>, i: nat, j: nat)
    requires Formed(Obj(fields)) && Formed(Obj(fields')) && i < |fields| && j < |fields'|
    ensures NormalFields(CodePoints, fields)[i] == NormalFields(CodePoints, fields')[j] <==>
      fields[i].key == fields'[j].key && Normalize(CodePoints, fields[i].value) == Normalize(CodePoints, fields'[j].value)
  {
  }

  lemma SortedSame(fields: seq<Field>, fields': seq<Field>)
    requires Formed(Obj(fields)) && Formed(Obj(fields')) && DistinctFields(fields) && DistinctFields(fields')
    ensures var n, n' := NormalFields(CodePoints, fields), NormalFields(CodePoints, fields');
      SortFields(CodePoints, n) == SortFields(CodePoints, n') <==> SameElements(n, n')
  {
    var n, n' := NormalFields(CodePoints, fields), NormalFields(CodePoints, fields');
    SortSorts(n);
    SortSorts(n');
    assert forall f :: f in SortFields(CodePoints, n) <==> f in n;
    assert forall f :: f in SortFields(CodePoints, n') <==> f in n';
    if SameElements(n, n') {
      SortedUnique(SortFields(CodePoints, n), SortFields(CodePoints, n'));
    }
  }

  /** Two values have one canonical form exactly when they are the same value. */
  lemma {:induction false} NormalExactly(v: Json, w: Json)
    requires Formed(v) && Formed(w) && DistinctKeys(v) && DistinctKeys(w)
    ensures Normalize(CodePoints, v) == Normalize(CodePoints, w) <==> SameValue(v, w)
    decreases v
  {
    match v
    case Arr(items) =>
      if w.Arr? && |w.items| == |items| {
        forall i | 0 <= i < |items| ensures Normalize(CodePoints, items[i]) == Normalize(CodePoints, w.items[i]) <==> SameValue(items[i], w.items[i]) {
          NormalExactly(items[i], w.items[i]);
        }
        var n, n' := Normalize(CodePoints, v).items, Normalize(CodePoints, w).items;
        assert forall i :: 0 <= i < |items| ==> n[i] == Normalize(CodePoints, items[i]) && n'[i] == Normalize(CodePoints, w.items[i]);
        assert n == n' <==> forall i :: 0 <= i < |items| ==> n[i] == n'[i];
      } else if w.Arr? {
        assert |Normalize(CodePoints, v).items| != |Normalize(CodePoints, w).items|;
      }
    case Obj(fields) =>
      if w.Obj? {
        forall i, j | 0 <= i < |fields| && 0 <= j < |w.fields|
          ensures Normalize(CodePoints, fields[i].value) == Normalize(CodePoints, w.fields[j].value) <==> SameValue(fields[i].value, w.fields[j].value)
        {
          NormalExactly(fields[i].value, w.fields[j].value);
        }
        SortedSame(fields, w.fields);
        FieldsExactly(fields, w.fields);
      }
    case _ =>
  }

  lemma FieldsExactly(fields: seq<Field>, fields': seq<Field>)
    requires Formed(Obj(fields)) && Formed(Obj(fields'))
    requires forall i, j :: 0 <= i < |fields| && 0 <= j < |fields'| ==>
      (Normalize(CodePoints, fields[i].value) == Normalize(CodePoints, fields'[j].value) <==> SameValue(fields[i].value, fields'[j].value))
    ensures SameElements(NormalFields(CodePoints, fields), NormalFields(CodePoints, fields')) <==> SameValue(Obj(fields), Obj(fields'))
  {
    hide Normalize, SameValue, FieldAmong, FieldCovered, NormalFields, Formed, KeysFormed, SameElements;
    FormedFields(fields);
    FormedFields(fields');
    var n, n' := NormalFields(CodePoints, fields), NormalFields(CodePoints, fields');
    forall i, j | 0 <= i < |fields| && 0 <= j < |fields'| ensures Corresponds(fields[i], fields'[j], n[i], n'[j]) {
      NormalHas(fields, fields', i, j);
    }
    SameObject(fields, fields');
    if SameElements(n, n') { MatchedFields(fields, fields', n, n'); }
    if SameValue(Obj(fields), Obj(fields')) { MatchedForms(fields, fields', n, n'); }
  }

  lemma FormedFields(fields: seq<Field>)
    requires Formed(Obj(fields))
    ensures KeysFormed(fields) && forall i :: 0 <= i < |fields| ==> Formed(fields[i].value)
  {
  }

  ghost predicate Corresponds(f: Field, g: Field, n: Field, n': Field) {
    n == n' <==> f.key == g.key && SameValue(f.value, g.value)
  }

  lemma MatchedFields(fields: seq<Field>, fields': seq<Field>, n: seq<Field>, n': seq<Field>)
    requires |n| == |fields| && |n'| == |fields'| && SameElements(n, n')
    requires forall i, j :: 0 <= i < |fields| && 0 <= j < |fields'| ==> Corresponds(fields[i], fields'[j], n[i], n'[j])
    ensures (forall f :: f in fields ==> FieldAmong(f, fields')) && forall g :: g in fields' ==> FieldCovered(fields, g)
  {
    hide SameValue, Corresponds, FieldAmong, FieldCovered;
    forall f | f in fields ensures FieldAmong(f, fields') {
      var i :| 0 <= i < |fields| && fields[i] == f;
      assert n[i] in n && n[i] in n';
      var j :| 0 <= j < |n'| && n'[j] == n[i];
      MatchedPair(fields, fields', n, n', i, j);
    }
    forall g | g in fields' ensures FieldCovered(fields, g) {
      var j :| 0 <= j < |fields'| && fields'[j] == g;
      assert n'[j] in n' && n'[j] in n;
      var i :| 0 <= i < |n| && n[i] == n'[j];
      MatchedPair(fields, fields', n, n', i, j);
    }
  }

  lemma MatchedPair(fields: seq<Field>, fields': seq<Field>, n: seq<Field>, n': seq<Field>, i: nat, j: nat)
    requires i < |fields| == |n| && j < |fields'| == |n'| && n[i] == n'[j] && Corresponds(fields[i], fields'[j], n[i], n'[j])
    ensures FieldAmong(fields[i], fields') && FieldCovered(fields, fields'[j])
  {
    hide SameValue;
    assert fields[i] in fields && fields'[j] in fields';
  }

  lemma MatchedForms(fields: seq<Field>, fields': seq<Field>, n: seq<Field>, n': seq<Field>)
    requires |n| == |fields| && |n'| == |fields'|
    requires forall i, j :: 0 <= i < |fields| && 0 <= j < |fields'| ==> Corresponds(fields[i], fields'[j], n[i], n'[j])
    requires (forall f :: f in fields ==> FieldAmong(f, fields')) && forall g :: g in fields' ==> FieldCovered(fields, g)
    ensures SameElements(n, n')
  {
    hide SameValue, FieldAmong, FieldCovered;
    forall i | 0 <= i < |n| ensures n[i] in n' {
      var j := AmongAt(fields[i], fields');
      assert Corresponds(fields[i], fields'[j], n[i], n'[j]) && n'[j] in n';
    }
    forall j | 0 <= j < |n'| ensures n'[j] in n {
      var i := CoveredAt(fields, fields'[j]);
      assert Corresponds(fields[i], fields'[j], n[i], n'[j]) && n[i] in n;
    }
  }

  lemma AmongAt(f: Field, fields: seq<Field>) returns (j: nat)
    requires FieldAmong(f, fields)
    ensures j < |fields| && f.key == fields[j].key && SameValue(f.value, fields[j].value)
  {
    var g :| g in fields && f.key == g.key && SameValue(f.value, g.value);
    j :| 0 <= j < |fields| && fields[j] == g;
  }

  lemma CoveredAt(fields: seq<Field>, g: Field) returns (i: nat)
    requires FieldCovered(fields, g)
    ensures i < |fields| && fields[i].key == g.key && SameValue(fields[i].value, g.value)
  {
    var f :| f in fields && f.key == g.key && SameValue(f.value, g.value);
    i :| 0 <= i < |fields| && fields[i] == f;
  }

  lemma SameObject(fields: seq<Field>, fields': seq<Field>)
    ensures SameValue(Obj(fields), Obj(fields')) <==>
      (forall f :: f in fields ==> FieldAmong(f, fields')) && forall g :: g in fields' ==> FieldCovered(fields, g)
  {
    hide FieldAmong, FieldCovered;
  }

  lemma SortedDistinct(fields: seq<Field>)
    requires SortedKeys(fields)
    ensures DistinctFields(fields)
  {
    forall i, j | 0 <= i < j < |fields| ensures fields[i].key != fields[j].key {
      LexTotal(fields[i].key, fields[i].key);
    }
  }

  lemma {:induction false} NormalDistinct(v: Json)
    requires Formed(v) && DistinctKeys(v)
    ensures DistinctKeys(Normalize(CodePoints, v))
    decreases v
  {
    match v
    case Arr(items) =>
      forall i | 0 <= i < |items| ensures DistinctKeys(Normalize(CodePoints, items[i])) {
        NormalDistinct(items[i]);
      }
    case Obj(fields) =>
      var n := NormalFields(CodePoints, fields);
      forall i | 0 <= i < |fields| ensures DistinctKeys(n[i].value) {
        NormalDistinct(fields[i].value);
      }
      SortSorts(n);
      var sorted := SortFields(CodePoints, n);
      SortedDistinct(sorted);
      forall i | 0 <= i < |sorted| ensures DistinctKeys(sorted[i].value) {
        assert sorted[i] in n;
      }
    case _ =>
  }

  /** Canonical round trip: the canonical text of a value parses, within the depth it was printed
      in, to the value's canonical form. */
  lemma CanonicalReturns(v: Json, max: nat)
    requires Formed(v) && DistinctKeys(v) && Canonical(CodePoints, v, max).Ok?
    ensures Parse(Canonical(CodePoints, v, max).value, max) == Ok(Normalize(CodePoints, v))
  {
    NormalDistinct(v);
    PrintReturns(Normalize(CodePoints, v), max);
  }

  /** Printing is injective and well-defined: within the depth limit, two values have the same
      canonical text if and only if they are the same value. */
  lemma CanonicalInjective(v: Json, w: Json, max: nat)
    requires Formed(v) && Formed(w) && DistinctKeys(v) && DistinctKeys(w) && Canonical(CodePoints, v, max).Ok?
    ensures Canonical(CodePoints, v, max) == Canonical(CodePoints, w, max) <==> SameValue(v, w)
  {
    NormalExactly(v, w);
    if Canonical(CodePoints, v, max) == Canonical(CodePoints, w, max) {
      CanonicalReturns(v, max);
      CanonicalReturns(w, max);
    }
  }
}
