/** Canonical JSON: the printer, the parser, and the two key orders.  Text is a sequence of
    Unicode code points. */
module Json {
  import opened Facts

  type Text = seq<int>

  datatype Field = Field(key: Text, value: Json)

  /** JSON values without floats.  An object lists its fields; keys are distinct. */
  datatype Json =
    | Null
    | Bool(b: bool)
    | Int(n: int)
    | Str(text: Text)
    | Arr(items: seq<Json>)
    | Obj(fields: seq<Field>)

  const QUOTE := 0x22
  const COMMA := 0x2c
  const MINUS := 0x2d
  const DOT := 0x2e
  const ZERO := 0x30
  const COLON := 0x3a
  const OPEN := 0x5b
  const BACKSLASH := 0x5c
  const CLOSE := 0x5d
  const LOWER_A := 0x61
  const LOWER_U := 0x75
  const BRACE := 0x7b
  const UNBRACE := 0x7d

  const TRUE_TEXT: Text := [0x74, 0x72, 0x75, 0x65]
  const FALSE_TEXT: Text := [0x66, 0x61, 0x6c, 0x73, 0x65]
  const NULL_TEXT: Text := [0x6e, 0x75, 0x6c, 0x6c]

  // ----- text -----

  predicate IsScalar(c: int) {
    0 <= c < 0xd800 || 0xe000 <= c < 0x110000
  }

  predicate WellFormed(s: Text) {
    forall c :: c in s ==> IsScalar(c)
  }

  // ----- printing -----

  function HexDigit(d: int): int
    requires 0 <= d < 16
  {
    if d < 10 then ZERO + d else LOWER_A + d - 10
  }

  /** The short escapes of section 7 of RFC 8259 that the printer uses. */
  function ShortEscape(c: int): Option<int> {
    if c == QUOTE || c == BACKSLASH then Some(c)
    else if c == 0x08 then Some(0x62)
    else if c == 0x0c then Some(0x66)
    else if c == 0x0a then Some(0x6e)
    else if c == 0x0d then Some(0x72)
    else if c == 0x09 then Some(0x74)
    else None
  }

  function EscapeChar(c: int): Text {
    var short := ShortEscape(c);
    if short.Some? then [BACKSLASH, short.value]
    else if 0 <= c < 0x20 then [BACKSLASH, LOWER_U, ZERO, ZERO, HexDigit(c / 16), HexDigit(c % 16)]
    else [c]
  }

  function EscapeChars(s: Text): Text {
    if s == [] then [] else EscapeChar(s[0]) + EscapeChars(s[1..])
  }

  function PrintString(s: Text): Text {
    [QUOTE] + EscapeChars(s) + [QUOTE]
  }

  function Digits(n: nat): Text {
    if n < 10 then [ZERO + n] else Digits(n / 10) + [ZERO + n % 10]
  }

  function PrintInt(n: int): Text {
    if n < 0 then [MINUS] + Digits(-n) else Digits(n)
  }

  const MIN_INT := -0x8000_0000_0000_0000
  const MAX_INT := 0x7fff_ffff_ffff_ffff

  /** Prints a value whose objects already list their fields in canonical order. */
  function Print(v: Json, depth: nat, max: nat): Result<Text>
    decreases v
  {
    match v
    case Null => Ok(NULL_TEXT)
    case Bool(b) => Ok(if b then TRUE_TEXT else FALSE_TEXT)
    case Int(n) => if MIN_INT <= n <= MAX_INT then Ok(PrintInt(n)) else Err(Malformed)
    case Str(s) => if WellFormed(s) then Ok(PrintString(s)) else Err(Malformed)
    case Arr(items) =>
      if depth >= max then Err(TooLarge)
      else if items == [] then Ok([OPEN, CLOSE])
      else (
        match PrintItems(items, depth + 1, max)
        case Err(e) => Err(e)
        case Ok(t) => Ok([OPEN] + t))
    case Obj(fields) =>
      if depth >= max then Err(TooLarge)
      else if fields == [] then Ok([BRACE, UNBRACE])
      else
        match PrintFields(fields, depth + 1, max)
        case Err(e) => Err(e)
        case Ok(t) => Ok([BRACE] + t)
  }

  /** The items with their separators and the closing bracket. */
  function PrintItems(items: seq<Json>, depth: nat, max: nat): Result<Text>
    requires items != []
    decreases items
  {
    match Print(items[0], depth, max)
    case Err(e) => Err(e)
    case Ok(t) =>
      if |items| == 1 then Ok(t + [CLOSE])
      else
        match PrintItems(items[1..], depth, max)
        case Err(e) => Err(e)
        case Ok(rest) => Ok(t + ([COMMA] + rest))
  }

  function PrintFields(fields: seq<Field>, depth: nat, max: nat): Result<Text>
    requires fields != []
    decreases fields
  {
    if !WellFormed(fields[0].key) then Err(Malformed)
    else
      match Print(fields[0].value, depth, max)
      case Err(e) => Err(e)
      case Ok(t) =>
        var head := PrintString(fields[0].key) + ([COLON] + t);
        if |fields| == 1 then Ok(head + [UNBRACE])
        else
          match PrintFields(fields[1..], depth, max)
          case Err(e) => Err(e)
          case Ok(rest) => Ok(head + ([COMMA] + rest))
  }

  // ----- parsing -----

  /** What a parse returns: the value and the text it leaves. */
  datatype Parsed<+T> = Parsed(value: T, rest: Text)

  predicate IsSpace(c: int) {
    || 0x09 <= c <= 0x0d || c == 0x20 || c == 0xa0 || c == 0x1680 || 0x2000 <= c <= 0x200a
    || c == 0x2028 || c == 0x2029 || c == 0x202f || c == 0x205f || c == 0x3000 || c == 0xfeff
  }

  function Skip(rest: Text): (r: Text)
    ensures |r| <= |rest|
    ensures r != [] ==> !IsSpace(r[0])
    ensures rest != [] && !IsSpace(rest[0]) ==> r == rest
  {
    if rest != [] && IsSpace(rest[0]) then Skip(rest[1..]) else rest
  }

  predicate IsDigit(c: int) {
    ZERO <= c <= ZERO + 9
  }

  function HexValue(c: int): Option<int> {
    if IsDigit(c) then Some(c - ZERO)
    else if LOWER_A <= c <= LOWER_A + 5 then Some(c - LOWER_A + 10)
    else if 0x41 <= c <= 0x46 then Some(c - 0x41 + 10)
    else None
  }

  /** Four hexadecimal digits. */
  function HexUnit(rest: Text): Option<int> {
    if |rest| < 4 then None
    else
      var a, b, c, d := HexValue(rest[0]), HexValue(rest[1]), HexValue(rest[2]), HexValue(rest[3]);
      if a.None? || b.None? || c.None? || d.None? then None
      else Some(((a.value * 16 + b.value) * 16 + c.value) * 16 + d.value)
  }

  function Unescape(c: int): Option<int> {
    if c == QUOTE || c == BACKSLASH || c == 0x2f then Some(c)
    else if c == 0x62 then Some(0x08)
    else if c == 0x66 then Some(0x0c)
    else if c == 0x6e then Some(0x0a)
    else if c == 0x72 then Some(0x0d)
    else if c == 0x74 then Some(0x09)
    else None
  }

  /** A unicode escape after its `u`; a high surrogate needs its low half in a second escape. */
  function ParseUnicode(rest: Text): (r: Result<Parsed<int>>)
    ensures r.Ok? ==> |r.value.rest| < |rest|
  {
    var unit := HexUnit(rest);
    if unit.None? then Err(Malformed)
    else if 0xd800 <= unit.value < 0xdc00 then
      if |rest| >= 6 && rest[4] == BACKSLASH && rest[5] == LOWER_U && HexUnit(rest[6..]).Some?
         && 0xdc00 <= HexUnit(rest[6..]).value < 0xe000
      then Ok(Parsed(0x10000 + (unit.value - 0xd800) * 0x400 + (HexUnit(rest[6..]).value - 0xdc00), rest[10..]))
      else Err(Malformed)
    else if 0xdc00 <= unit.value < 0xe000 then Err(Malformed)
    else Ok(Parsed(unit.value, rest[4..]))
  }

  /** One character of a string, escaped or not. */
  function ParseChar(rest: Text): (r: Result<Parsed<int>>)
    requires rest != []
    ensures r.Ok? ==> |r.value.rest| < |rest|
  {
    if rest[0] == BACKSLASH then
      if |rest| == 1 then Err(Malformed)
      else if rest[1] == LOWER_U then ParseUnicode(rest[2..])
      else
        var plain := Unescape(rest[1]);
        if plain.None? then Err(Malformed) else Ok(Parsed(plain.value, rest[2..]))
    else if rest[0] < 0x20 || !IsScalar(rest[0]) then Err(Malformed)
    else Ok(Parsed(rest[0], rest[1..]))
  }

  /** The characters up to and including the closing quote. */
  function ParseChars(rest: Text, acc: Text): (r: Result<Parsed<Text>>)
    ensures r.Ok? ==> |r.value.rest| < |rest|
    decreases |rest|
  {
    if rest == [] then Err(Malformed)
    else if rest[0] == QUOTE then Ok(Parsed(acc, rest[1..]))
    else
      match ParseChar(rest)
      case Err(e) => Err(e)
      case Ok(p) => ParseChars(p.rest, acc + [p.value])
  }

  /** The longest run of digits. */
  function ParseDigits(rest: Text, acc: nat): (r: Parsed<nat>)
    ensures |r.rest| <= |rest|
    decreases |rest|
  {
    if rest != [] && IsDigit(rest[0]) then ParseDigits(rest[1..], acc * 10 + (rest[0] - ZERO)) else Parsed(acc, rest)
  }

  predicate StartsDigit(rest: Text) {
    rest != [] && IsDigit(rest[0])
  }

  /** A fraction or an exponent follows, so the number is a float. */
  predicate StartsFloat(rest: Text) {
    && rest != []
    && (|| (rest[0] == DOT && StartsDigit(rest[1..]))
        || ((rest[0] == 0x65 || rest[0] == 0x45) && |rest| > 1
            && (IsDigit(rest[1]) || ((rest[1] == MINUS || rest[1] == 0x2b) && StartsDigit(rest[2..])))))
  }

  /** A number; a leading zero stands alone.  Floats are outside the model. */
  function ParseNumber(rest: Text): (r: Result<Parsed<int>>)
    ensures r.Ok? ==> |r.value.rest| < |rest|
  {
    var negative := rest != [] && rest[0] == MINUS;
    var body := if negative then rest[1..] else rest;
    if !StartsDigit(body) then Err(Malformed)
    else
      var p := if body[0] == ZERO then Parsed(0, body[1..]) else ParseDigits(body[1..], body[0] - ZERO);
      var size: int := p.value;
      if StartsFloat(p.rest) then Err(Unsupported) else Ok(Parsed(if negative then -size else size, p.rest))
  }

  function ParseLiteral(rest: Text, text: Text, v: Json): (r: Result<Parsed<Json>>)
    requires text != []
    ensures r.Ok? ==> |r.value.rest| < |rest|
  {
    if text <= rest then Ok(Parsed(v, rest[|text|..])) else Err(Malformed)
  }

  function ParseValue(rest: Text, depth: nat, max: nat): (r: Result<Parsed<Json>>)
    ensures r.Ok? ==> |r.value.rest| < |rest|
    decreases |rest|, 0
  {
    if rest == [] then Err(Malformed)
    else if rest[0] == QUOTE then
      match ParseChars(rest[1..], [])
      case Err(e) => Err(e)
      case Ok(p) => Ok(Parsed(Str(p.value), p.rest))
    else if rest[0] == BRACE then if depth >= max then Err(TooLarge) else ParseObject(rest[1..], depth + 1, max)
    else if rest[0] == OPEN then if depth >= max then Err(TooLarge) else ParseArray(rest[1..], depth + 1, max)
    else if rest[0] == TRUE_TEXT[0] then ParseLiteral(rest, TRUE_TEXT, Bool(true))
    else if rest[0] == FALSE_TEXT[0] then ParseLiteral(rest, FALSE_TEXT, Bool(false))
    else if rest[0] == NULL_TEXT[0] then ParseLiteral(rest, NULL_TEXT, Null)
    else if rest[0] == MINUS || IsDigit(rest[0]) then
      match ParseNumber(rest)
      case Err(e) => Err(e)
      case Ok(p) => Ok(Parsed(Int(p.value), p.rest))
    else Err(Malformed)
  }

  function ParseArray(rest: Text, depth: nat, max: nat): (r: Result<Parsed<Json>>)
    ensures r.Ok? ==> |r.value.rest| < |rest|
    decreases |rest|, 2
  {
    var next := Skip(rest);
    if next != [] && next[0] == CLOSE then Ok(Parsed(Arr([]), next[1..])) else ParseItems(next, depth, max, [])
  }

  function ParseItems(rest: Text, depth: nat, max: nat, acc: seq<Json>): (r: Result<Parsed<Json>>)
    ensures r.Ok? ==> |r.value.rest| < |rest|
    decreases |rest|, 1
  {
    match ParseValue(rest, depth, max)
    case Err(e) => Err(e)
    case Ok(p) =>
      var next := Skip(p.rest);
      if next != [] && next[0] == CLOSE then Ok(Parsed(Arr(acc + [p.value]), next[1..]))
      else if next != [] && next[0] == COMMA then ParseItems(Skip(next[1..]), depth, max, acc + [p.value])
      else Err(Malformed)
  }

  function ParseObject(rest: Text, depth: nat, max: nat): (r: Result<Parsed<Json>>)
    ensures r.Ok? ==> |r.value.rest| < |rest|
    decreases |rest|, 2
  {
    var next := Skip(rest);
    if next != [] && next[0] == UNBRACE then Ok(Parsed(Obj([]), next[1..])) else ParseFields(next, depth, max, [])
  }

  predicate HasKey(fields: seq<Field>, key: Text) {
    exists f :: f in fields && f.key == key
  }

  function ParseFields(rest: Text, depth: nat, max: nat, acc: seq<Field>): (r: Result<Parsed<Json>>)
    ensures r.Ok? ==> |r.value.rest| < |rest|
    decreases |rest|, 1
  {
    if rest == [] || rest[0] != QUOTE then Err(Malformed)
    else
      match ParseChars(rest[1..], [])
      case Err(e) => Err(e)
      case Ok(key) =>
        var colon := Skip(key.rest);
        if HasKey(acc, key.value) || colon == [] || colon[0] != COLON then Err(Malformed)
        else
          match ParseValue(Skip(colon[1..]), depth, max)
          case Err(e) => Err(e)
          case Ok(p) =>
            var next, fields := Skip(p.rest), acc + [Field(key.value, p.value)];
            if next != [] && next[0] == UNBRACE then Ok(Parsed(Obj(fields), next[1..]))
            else if next != [] && next[0] == COMMA then ParseFields(Skip(next[1..]), depth, max, fields)
            else Err(Malformed)
  }

  function Parse(source: Text, max: nat): Result<Json> {
    match ParseValue(Skip(source), 0, max)
    case Err(e) => Err(e)
    case Ok(p) => if Skip(p.rest) == [] then Ok(p.value) else Err(Malformed)
  }

  // ----- objects -----

  /** Keys of each object are distinct. */
  ghost predicate DistinctKeys(v: Json)
    decreases v
  {
    match v
    case Arr(items) => forall i :: 0 <= i < |items| ==> DistinctKeys(items[i])
    case Obj(fields) =>
      && (forall i :: 0 <= i < |fields| ==> DistinctKeys(fields[i].value))
      && (forall i, j :: 0 <= i < j < |fields| ==> fields[i].key != fields[j].key)
    case _ => true
  }
}
