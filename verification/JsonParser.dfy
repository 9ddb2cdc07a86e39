/** The hand-written JSON parser: an index that moves through the source.  Each method consumes
    what the parsing functions say and returns what they return. */
module JsonParser {
  import opened Facts
  import opened Json
  import opened JsonSyntax

  /** The method's result and the text it leaves are those of the function. */
  ghost predicate Agrees<T>(want: Result<Parsed<T>>, got: Result<T>, rest: Text) {
    match want
    case Err(e) => got == Err(e)
    case Ok(p) => got == Ok(p.value) && rest == p.rest
  }

  class Parser {
    const source: Text
    const max: nat
    var index: nat

    ghost predicate Valid()
      reads this
    {
      index <= |source|
    }

    ghost function Rest(): Text
      requires Valid()
      reads this
    {
      source[index..]
    }

    constructor (source: Text, max: nat)
      ensures Valid() && this.source == source && this.max == max && Rest() == source
    {
      this.source, this.max, index := source, max, 0;
    }

    method Advance(n: nat)
      requires Valid() && index + n <= |source|
      modifies this
      ensures Valid() && index == old(index) + n && Rest() == old(Rest())[n..]
    {
      index := index + n;
    }

    method Space()
      requires Valid()
      modifies this
      ensures Valid() && index >= old(index) && Rest() == Skip(old(Rest()))
    {
      while index < |source| && IsSpace(source[index])
        invariant Valid() && index >= old(index) && Skip(Rest()) == Skip(old(Rest()))
        decreases |source| - index
      {
        Advance(1);
      }
    }

    /** Is the next character `c`? */
    predicate Sees(c: int)
      requires Valid()
      reads this
    {
      index < |source| && source[index] == c
    }

    method ReadUnicode() returns (r: Result<int>)
      requires Valid()
      modifies this
      ensures Valid() && index >= old(index) && Agrees(ParseUnicode(old(Rest())), r, Rest())
    {
      var unit := HexUnit(source[index..]);
      if unit.None? {
        return Err(Malformed);
      }
      if 0xdc00 <= unit.value < 0xe000 {
        return Err(Malformed);
      }
      if unit.value < 0xd800 || unit.value >= 0xdc00 {
        Advance(4);
        return Ok(unit.value);
      }
      ghost var rest := Rest();
      if index + 6 > |source| || source[index + 4] != BACKSLASH || source[index + 5] != LOWER_U {
        return Err(Malformed);
      }
      var low := HexUnit(source[index + 6..]);
      assert rest[6..] == source[index + 6..];
      if low.None? || !(0xdc00 <= low.value < 0xe000) {
        return Err(Malformed);
      }
      Advance(10);
      return Ok(0x10000 + (unit.value - 0xd800) * 0x400 + (low.value - 0xdc00));
    }

    method ReadChar() returns (r: Result<int>)
      requires Valid() && index < |source|
      modifies this
      ensures Valid() && index >= old(index) && (r.Ok? ==> index > old(index))
      ensures Agrees(ParseChar(old(Rest())), r, Rest())
    {
      var c := source[index];
      if c == BACKSLASH {
        if index + 1 == |source| {
          return Err(Malformed);
        }
        var escape := source[index + 1];
        assert Rest()[1] == escape;
        Advance(2);
        if escape == LOWER_U {
          r := ReadUnicode();
          return;
        }
        var plain := Unescape(escape);
        return if plain.None? then Err(Malformed) else Ok(plain.value);
      }
      if c < 0x20 || !IsScalar(c) {
        return Err(Malformed);
      }
      Advance(1);
      return Ok(c);
    }

    method ReadString() returns (r: Result<Text>)
      requires Valid() && Sees(QUOTE)
      modifies this
      ensures Valid() && index > old(index) && Agrees(ParseChars(old(Rest())[1..], []), r, Rest())
    {
      Advance(1);
      ghost var start := Rest();
      var acc := [];
      while index < |source|
        invariant Valid() && index > old(index) && ParseChars(Rest(), acc) == ParseChars(start, [])
        decreases |source| - index
      {
        if source[index] == QUOTE {
          Advance(1);
          return Ok(acc);
        }
        var c := ReadChar();
        if c.Err? {
          return Err(c.error);
        }
        acc := acc + [c.value];
      }
      return Err(Malformed);
    }

    method ReadDigits(first: nat) returns (n: nat)
      requires Valid()
      modifies this
      ensures Valid() && index >= old(index) && Parsed(n, Rest()) == ParseDigits(old(Rest()), first)
    {
      n := first;
      while index < |source| && IsDigit(source[index])
        invariant Valid() && index >= old(index) && ParseDigits(Rest(), n) == ParseDigits(old(Rest()), first)
        decreases |source| - index
      {
        n := n * 10 + (source[index] - ZERO);
        Advance(1);
      }
    }

    method ReadNumber() returns (r: Result<int>)
      requires Valid()
      modifies this
      ensures Valid() && index >= old(index) && (r.Ok? ==> index > old(index))
      ensures Agrees(ParseNumber(old(Rest())), r, Rest())
    {
      var negative := Sees(MINUS);
      if negative {
        Advance(1);
      }
      if index == |source| || !IsDigit(source[index]) {
        return Err(Malformed);
      }
      ghost var body := Rest();
      var first := source[index] - ZERO;
      Advance(1);
      var n := 0;
      if first != 0 {
        n := ReadDigits(first);
      }
      if StartsFloat(source[index..]) {
        return Err(Unsupported);
      }
      var size: int := n;
      return Ok(if negative then -size else size);
    }

    method ReadLiteral(text: Text, v: Json) returns (r: Result<Json>)
      requires Valid() && text != []
      modifies this
      ensures Valid() && index >= old(index) && (r.Ok? ==> index > old(index))
      ensures Agrees(ParseLiteral(old(Rest()), text, v), r, Rest())
    {
      if !(text <= source[index..]) {
        return Err(Malformed);
      }
      Advance(|text|);
      return Ok(v);
    }

    method ReadValue(depth: nat) returns (r: Result<Json>)
      requires Valid()
      modifies this
      ensures Valid() && index >= old(index) && (r.Ok? ==> index > old(index))
      ensures Agrees(ParseValue(old(Rest()), depth, max), r, Rest())
      decreases |source| - index, 2
    {
      if index == |source| {
        return Err(Malformed);
      }
      var c := source[index];
      if c == QUOTE {
        var s := ReadString();
        return if s.Ok? then Ok(Str(s.value)) else Err(s.error);
      }
      if c == BRACE {
        if depth >= max {
          return Err(TooLarge);
        }
        r := ReadObject(depth + 1);
        return;
      }
      if c == OPEN {
        if depth >= max {
          return Err(TooLarge);
        }
        r := ReadArray(depth + 1);
        return;
      }
      if c == TRUE_TEXT[0] {
        r := ReadLiteral(TRUE_TEXT, Bool(true));
      } else if c == FALSE_TEXT[0] {
        r := ReadLiteral(FALSE_TEXT, Bool(false));
      } else if c == NULL_TEXT[0] {
        r := ReadLiteral(NULL_TEXT, Null);
      } else if c == MINUS || IsDigit(c) {
        var n := ReadNumber();
        return if n.Ok? then Ok(Int(n.value)) else Err(n.error);
      } else {
        return Err(Malformed);
      }
    }

    method ReadArray(depth: nat) returns (r: Result<Json>)
      requires Valid() && Sees(OPEN)
      modifies this
      ensures Valid() && index > old(index) && Agrees(ParseArray(old(Rest())[1..], depth, max), r, Rest())
      decreases |source| - index, 1
    {
      Advance(1);
      Space();
      if Sees(CLOSE) {
        Advance(1);
        return Ok(Arr([]));
      }
      ghost var start := Rest();
      var result := [];
      while true
        invariant Valid() && index > old(index) && ParseItems(Rest(), depth, max, result) == ParseItems(start, depth, max, [])
        decreases |source| - index
      {
        var item := ReadValue(depth);
        if item.Err? {
          return item;
        }
        Space();
        result := result + [item.value];
        if Sees(CLOSE) {
          Advance(1);
          return Ok(Arr(result));
        }
        if !Sees(COMMA) {
          return Err(Malformed);
        }
        Advance(1);
        Space();
      }
    }

    method ReadObject(depth: nat) returns (r: Result<Json>)
      requires Valid() && Sees(BRACE)
      modifies this
      ensures Valid() && index > old(index) && Agrees(ParseObject(old(Rest())[1..], depth, max), r, Rest())
      decreases |source| - index, 1
    {
      Advance(1);
      Space();
      if Sees(UNBRACE) {
        Advance(1);
        return Ok(Obj([]));
      }
      ghost var start := Rest();
      var result := [];
      while true
        invariant Valid() && index > old(index) && ParseFields(Rest(), depth, max, result) == ParseFields(start, depth, max, [])
        decreases |source| - index
      {
        var field := ReadField(depth, result);
        if field.Err? {
          return Err(field.error);
        }
        result := result + [field.value];
        if Sees(UNBRACE) {
          Advance(1);
          return Ok(Obj(result));
        }
        if !Sees(COMMA) {
          return Err(Malformed);
        }
        Advance(1);
        Space();
      }
    }

    /** One field and the space after it. */
    method ReadField(depth: nat, before: seq<Field>) returns (r: Result<Field>)
      requires Valid()
      modifies this
      ensures Valid() && index >= old(index) && (r.Ok? ==> index > old(index))
      ensures r.Err? ==> ParseFields(old(Rest()), depth, max, before) == Err(r.error)
      ensures r.Ok? ==> ParseFields(old(Rest()), depth, max, before) == AfterField(Rest(), depth, max, before + [r.value])
      decreases |source| - index, 1
    {
      if !Sees(QUOTE) {
        return Err(Malformed);
      }
      var key := ReadString();
      if key.Err? {
        return Err(key.error);
      }
      Space();
      if HasKey(before, key.value) || !Sees(COLON) {
        return Err(Malformed);
      }
      Advance(1);
      Space();
      var v := ReadValue(depth);
      if v.Err? {
        return Err(v.error);
      }
      Space();
      return Ok(Field(key.value, v.value));
    }

    /** Parses the whole source: it is accepted if and only if it is a legal spelling. */
    method ParseSource() returns (r: Result<Json>)
      requires index == 0
      modifies this
      ensures r == Parse(source, max)
      ensures forall v :: r == Ok(v) <==> exists lead, doc, trail :: Spells(source, lead, doc, trail, v, max)
    {
      forall v ensures Parse(source, max) == Ok(v) <==> exists lead, doc, trail :: Spells(source, lead, doc, trail, v, max) {
        ParseExactly(source, max, v);
      }
      assert source[0..] == source;
      Space();
      r := ReadValue(0);
      if r.Ok? {
        Space();
        if index != |source| {
          return Err(Malformed);
        }
      }
    }
  }

  /** What follows a field: the end of the object or another field. */
  function AfterField(next: Text, depth: nat, max: nat, fields: seq<Field>): Result<Parsed<Json>> {
    if next != [] && next[0] == UNBRACE then Ok(Parsed(Obj(fields), next[1..]))
    else if next != [] && next[0] == COMMA then ParseFields(Skip(next[1..]), depth, max, fields)
    else Err(Malformed)
  }
}
