/** The grammar of the JSON texts that the parser accepts, stated apart from it: how each value may
    be spelled, and what a spelling means.  The parser accepts exactly the legal spellings, within
    the depth limit, with their meaning. */
module JsonSyntax {
  import opened Facts
  import opened Json

  // ----- spellings -----

  type Nibble = d: nat | d < 16
  type Decimal = d: nat | d < 10
  type Octal = k: nat | k < 8

  /** A hexadecimal digit in either case. */
  datatype Hex = Hex(d: Nibble, upper: bool)

  /** The four digits of a unicode escape. */
  datatype Unit = Unit(d3: Hex, d2: Hex, d1: Hex, d0: Hex)

  /** One character of a string: as it is, by a short escape, or by one or two unicode escapes. */
  datatype Mark = Plain(c: int) | Short(k: Octal) | Escaped(unit: Unit) | Paired(high: Unit, low: Unit)

  /** A value with the white space inside it.  Only an empty container uses `pad`. */
  datatype Doc =
    | DNull
    | DTrue
    | DFalse
    | DInt(negative: bool, digits: seq<Decimal>)
    | DStr(marks: seq<Mark>)
    | DArr(pad: Text, items: seq<Item>)
    | DObj(pad: Text, fields: seq<Entry>)

  datatype Item = Item(lead: Text, value: Doc, trail: Text)

  datatype Entry = Entry(lead: Text, key: seq<Mark>, gap: Text, space: Text, value: Doc, trail: Text)

  /** The white space and line terminators of sections 12.2 and 12.3 of ECMA-262. */
  const SPACES: set<int> :=
    {0x09, 0x0a, 0x0b, 0x0c, 0x0d, 0x20, 0xa0, 0x1680,
     0x2000, 0x2001, 0x2002, 0x2003, 0x2004, 0x2005, 0x2006, 0x2007, 0x2008, 0x2009, 0x200a,
     0x2028, 0x2029, 0x202f, 0x205f, 0x3000, 0xfeff}

  /** The short escapes of section 7 of RFC 8259, and the characters they stand for. */
  const SHORT_NAMES := "\"\\/bfnrt"
  const SHORT_CODES: seq<int> := [0x22, 0x5c, 0x2f, 0x08, 0x0c, 0x0a, 0x0d, 0x09]

  const LOWER_HEX := "0123456789abcdef"
  const UPPER_HEX := "0123456789ABCDEF"

  predicate White(s: Text) {
    forall c :: c in s ==> c in SPACES
  }

  function Codes(s: string): Text {
    seq(|s|, i requires 0 <= i < |s| => s[i] as int)
  }

  // ----- characters -----

  function SpellHex(h: Hex): int {
    if h.upper then UPPER_HEX[h.d] as int else LOWER_HEX[h.d] as int
  }

  function SpellUnit(u: Unit): Text {
    ['\\' as int, 'u' as int, SpellHex(u.d3), SpellHex(u.d2), SpellHex(u.d1), SpellHex(u.d0)]
  }

  function UnitValue(u: Unit): nat {
    0x1000 * u.d3.d + 0x100 * u.d2.d + 0x10 * u.d1.d + u.d0.d
  }

  /** Raw characters are Unicode scalar values other than control characters, the quote and the
      backslash; the halves of a surrogate pair occur together only. */
  predicate LegalMark(m: Mark) {
    match m
    case Plain(c) => 0x20 <= c <= 0x10ffff && !(0xd800 <= c <= 0xdfff) && c != '\"' as int && c != '\\' as int
    case Short(_) => true
    case Escaped(unit) => !(0xd800 <= UnitValue(unit) <= 0xdfff)
    case Paired(high, low) => 0xd800 <= UnitValue(high) <= 0xdbff && 0xdc00 <= UnitValue(low) <= 0xdfff
  }

  function SpellMark(m: Mark): Text {
    match m
    case Plain(c) => [c]
    case Short(k) => ['\\' as int, SHORT_NAMES[k] as int]
    case Escaped(unit) => SpellUnit(unit)
    case Paired(high, low) => SpellUnit(high) + SpellUnit(low)
  }

  /** The code point a mark stands for; surrogates combine as section 3.8 of Unicode says. */
  function MarkValue(m: Mark): int {
    match m
    case Plain(c) => c
    case Short(k) => SHORT_CODES[k]
    case Escaped(unit) => UnitValue(unit)
    case Paired(high, low) => 0x10000 + 0x400 * (UnitValue(high) - 0xd800) + (UnitValue(low) - 0xdc00)
  }

  predicate LegalMarks(marks: seq<Mark>) {
    forall m :: m in marks ==> LegalMark(m)
  }

  function SpellMarks(marks: seq<Mark>): Text {
    if marks == [] then [] else SpellMark(marks[0]) + SpellMarks(marks[1..])
  }

  function TextOf(marks: seq<Mark>): Text {
    seq(|marks|, i requires 0 <= i < |marks| => MarkValue(marks[i]))
  }

  function SpellString(marks: seq<Mark>): Text {
    ['\"' as int] + (SpellMarks(marks) + ['\"' as int])
  }

  // ----- values -----

  function SpellDigits(digits: seq<Decimal>): Text {
    seq(|digits|, i requires 0 <= i < |digits| => '0' as int + digits[i])
  }

  function Number(digits: seq<Decimal>): nat {
    if digits == [] then 0 else Number(digits[..|digits| - 1]) * 10 + digits[|digits| - 1]
  }

  function Spell(doc: Doc): Text
    decreases doc
  {
    match doc
    case DNull => Codes("null")
    case DTrue => Codes("true")
    case DFalse => Codes("false")
    case DInt(negative, digits) => (if negative then ['-' as int] else []) + SpellDigits(digits)
    case DStr(marks) => SpellString(marks)
    case DArr(pad, items) => ['[' as int] + (if items == [] then pad + [']' as int] else SpellItems(items))
    case DObj(pad, fields) => ['{' as int] + (if fields == [] then pad + ['}' as int] else SpellEntries(fields))
  }

  function SpellItem(item: Item): Text
    decreases item
  {
    item.lead + (Spell(item.value) + item.trail)
  }

  /** The items, separated by commas, and the closing bracket. */
  function SpellItems(items: seq<Item>): Text
    requires items != []
    decreases items
  {
    SpellItem(items[0]) + (if |items| == 1 then [']' as int] else [',' as int] + SpellItems(items[1..]))
  }

  function SpellEntry(entry: Entry): Text
    decreases entry
  {
    entry.lead + (SpellString(entry.key) + (entry.gap + ([':' as int] + (entry.space + (Spell(entry.value) + entry.trail)))))
  }

  function SpellEntries(fields: seq<Entry>): Text
    requires fields != []
    decreases fields
  {
    SpellEntry(fields[0]) + (if |fields| == 1 then ['}' as int] else [',' as int] + SpellEntries(fields[1..]))
  }

  function Sense(doc: Doc): Json
    decreases doc
  {
    match doc
    case DNull => Null
    case DTrue => Bool(true)
    case DFalse => Bool(false)
    case DInt(negative, digits) => var size: int := Number(digits); Int(if negative then -size else size)
    case DStr(marks) => Str(TextOf(marks))
    case DArr(_, items) => Arr(ItemSenses(items))
    case DObj(_, fields) => Obj(EntrySenses(fields))
  }

  function ItemSenses(items: seq<Item>): seq<Json>
    decreases items
  {
    if items == [] then [] else [Sense(items[0].value)] + ItemSenses(items[1..])
  }

  function EntrySenses(fields: seq<Entry>): seq<Field>
    decreases fields
  {
    if fields == [] then [] else [Field(TextOf(fields[0].key), Sense(fields[0].value))] + EntrySenses(fields[1..])
  }

  /** Numbers have no leading zero, keys are not repeated, and containers nest at most `room` deep. */
  ghost predicate Legal(doc: Doc, room: nat)
    decreases doc
  {
    match doc
    case DInt(_, digits) => digits != [] && (digits[0] == 0 ==> |digits| == 1)
    case DStr(marks) => LegalMarks(marks)
    case DArr(pad, items) =>
      room > 0 && White(pad) && forall i :: 0 <= i < |items| ==> LegalItem(items[i], room - 1)
    case DObj(pad, fields) =>
      && room > 0 && White(pad)
      && (forall i :: 0 <= i < |fields| ==> LegalEntry(fields[i], room - 1))
      && (forall i, j :: 0 <= i < j < |fields| ==> TextOf(fields[i].key) != TextOf(fields[j].key))
    case _ => true
  }

  ghost predicate LegalItem(item: Item, room: nat)
    decreases item
  {
    White(item.lead) && White(item.trail) && Legal(item.value, room)
  }

  ghost predicate LegalEntry(entry: Entry, room: nat)
    decreases entry
  {
    White(entry.lead) && LegalMarks(entry.key) && White(entry.gap) && White(entry.space) && White(entry.trail) && Legal(entry.value, room)
  }

  // ----- characters are parsed -----

  lemma SpaceExactly(c: int)
    ensures IsSpace(c) <==> c in SPACES
  {
  }

  lemma {:induction false} WhiteSkipped(white: Text, tail: Text)
    requires White(white)
    ensures Skip(white + tail) == Skip(tail)
  {
    if white == [] {
      assert white + tail == tail;
    } else {
      SpaceExactly(white[0]);
      assert (white + tail)[1..] == white[1..] + tail;
      WhiteSkipped(white[1..], tail);
    }
  }

  lemma {:induction false} SkippedWhite(rest: Text) returns (white: Text)
    ensures White(white) && rest == white + Skip(rest)
  {
    white := [];
    if rest != [] && IsSpace(rest[0]) {
      SpaceExactly(rest[0]);
      var more := SkippedWhite(rest[1..]);
      white := [rest[0]] + more;
    }
  }

  /** Either case of a hexadecimal digit has its value, and nothing else has one. */
  lemma HexParses(h: Hex)
    ensures HexValue(SpellHex(h)) == Some(h.d)
  {
  }

  lemma HexSpelled(c: int) returns (h: Hex)
    requires HexValue(c).Some?
    ensures SpellHex(h) == c && h.d == HexValue(c).value
  {
    h := Hex(HexValue(c).value, c < 0x61);
  }

  lemma HexUnitIs(rest: Text)
    requires |rest| >= 4
    ensures HexUnit(rest).Some? <==> forall i :: 0 <= i < 4 ==> HexValue(rest[i]).Some?
    ensures HexUnit(rest).Some? ==>
      HexUnit(rest).value == 0x1000 * HexValue(rest[0]).value + 0x100 * HexValue(rest[1]).value + 0x10 * HexValue(rest[2]).value + HexValue(rest[3]).value
  {
    hide HexValue;
  }

  lemma UnitParses(u: Unit, tail: Text)
    ensures var t := SpellUnit(u) + tail;
      |t| >= 6 && t[0] == BACKSLASH && t[1] == LOWER_U && HexUnit(t[2..]) == Some(UnitValue(u)) && t[6..] == tail
  {
    hide HexValue, HexUnit, SpellHex;
    var t := SpellUnit(u) + tail;
    HexParses(u.d3);
    HexParses(u.d2);
    HexParses(u.d1);
    HexParses(u.d0);
    HexUnitIs(t[2..]);
  }

  lemma UnitSpelled(rest: Text) returns (u: Unit)
    requires HexUnit(rest).Some?
    ensures |rest| >= 4 && UnitValue(u) == HexUnit(rest).value
    ensures [BACKSLASH, LOWER_U] + rest == SpellUnit(u) + rest[4..]
  {
    hide HexValue, SpellHex;
    HexUnitIs(rest);
    var d3 := HexSpelled(rest[0]);
    var d2 := HexSpelled(rest[1]);
    var d1 := HexSpelled(rest[2]);
    var d0 := HexSpelled(rest[3]);
    u := Unit(d3, d2, d1, d0);
  }

  /** Every legal mark is read as the character it stands for. */
  lemma MarkParses(m: Mark, tail: Text)
    requires LegalMark(m)
    ensures var t := SpellMark(m) + tail; t[0] != QUOTE && ParseChar(t) == Ok(Parsed(MarkValue(m), tail))
  {
    hide HexUnit, SpellUnit, UnitValue;
    var t := SpellMark(m) + tail;
    match m
    case Plain(c) => assert t[1..] == tail;
    case Short(k) => assert t[2..] == tail; assert t[1] == SHORT_NAMES[k] as int;
    case Escaped(unit) =>
      UnitParses(unit, tail);
      assert t[2..][4..] == tail;
    case Paired(high, low) =>
      var rest := SpellUnit(low) + tail;
      assert t == SpellUnit(high) + rest;
      UnitParses(high, rest);
      UnitParses(low, tail);
      assert t[6..] == rest && t[2..][6..] == rest[2..] && t[2..][4] == rest[0] && t[2..][5] == rest[1];
      assert t[2..][10..] == tail;
  }

  /** Every character that is read was spelled by a legal mark. */
  lemma CharSpelled(rest: Text) returns (m: Mark)
    requires rest != [] && rest[0] != QUOTE && ParseChar(rest).Ok?
    ensures LegalMark(m) && MarkValue(m) == ParseChar(rest).value.value
    ensures rest == SpellMark(m) + ParseChar(rest).value.rest
  {
    hide HexUnit, SpellUnit, UnitValue;
    if rest[0] != BACKSLASH {
      m := Plain(rest[0]);
    } else if rest[1] == LOWER_U {
      var more := rest[2..];
      assert rest == [BACKSLASH, LOWER_U] + more;
      var high := UnitSpelled(more);
      if 0xd800 <= UnitValue(high) < 0xdc00 {
        var low := UnitSpelled(more[6..]);
        assert more[4..] == [BACKSLASH, LOWER_U] + more[6..];
        m := Paired(high, low);
        assert more[6..][4..] == more[10..];
        assert rest == SpellUnit(high) + (SpellUnit(low) + more[10..]);
      } else {
        m := Escaped(high);
      }
    } else {
      var k := ShortSpelled(rest[1]);
      m := Short(k);
    }
  }

  lemma ShortSpelled(c: int) returns (k: Octal)
    requires Unescape(c).Some?
    ensures SHORT_NAMES[k] as int == c && SHORT_CODES[k] == Unescape(c).value
  {
    k := if c == 0x22 then 0 else if c == 0x5c then 1 else if c == 0x2f then 2 else if c == 0x62 then 3
         else if c == 0x66 then 4 else if c == 0x6e then 5 else if c == 0x72 then 6 else 7;
  }

  lemma {:induction false} MarksParse(marks: seq<Mark>, acc: Text, tail: Text)
    requires LegalMarks(marks)
    ensures ParseChars(SpellMarks(marks) + tail, acc) == ParseChars(tail, acc + TextOf(marks))
  {
    if marks == [] {
      assert SpellMarks(marks) + tail == tail && acc + TextOf(marks) == acc;
    } else {
      var more := SpellMarks(marks[1..]) + tail;
      assert SpellMarks(marks) + tail == SpellMark(marks[0]) + more;
      MarkParses(marks[0], more);
      MarksParse(marks[1..], acc + [MarkValue(marks[0])], tail);
      assert (acc + [MarkValue(marks[0])]) + TextOf(marks[1..]) == acc + TextOf(marks);
    }
  }

  lemma StringParses(marks: seq<Mark>, tail: Text)
    requires LegalMarks(marks)
    ensures var t := SpellString(marks) + tail; t[0] == QUOTE && ParseChars(t[1..], []) == Ok(Parsed(TextOf(marks), tail))
  {
    var t := SpellString(marks) + tail;
    assert t[1..] == SpellMarks(marks) + ([QUOTE] + tail);
    MarksParse(marks, [], [QUOTE] + tail);
    assert ([QUOTE] + tail)[1..] == tail && [] + TextOf(marks) == TextOf(marks);
  }

  lemma {:induction false} CharsSpelled(rest: Text, acc: Text) returns (marks: seq<Mark>)
    requires ParseChars(rest, acc).Ok?
    ensures LegalMarks(marks) && ParseChars(rest, acc).value.value == acc + TextOf(marks)
    ensures rest == SpellMarks(marks) + ([QUOTE] + ParseChars(rest, acc).value.rest)
    decreases |rest|
  {
    hide ParseChar, SpellMark, MarkValue, LegalMark, TextOf;
    if rest[0] == QUOTE {
      marks := [];
      NoMarks(acc);
    } else {
      var m := CharSpelled(rest);
      var p := ParseChar(rest).value;
      var more := CharsSpelled(p.rest, acc + [p.value]);
      marks := [m] + more;
      OneMoreMark(m, more, acc);
    }
  }

  lemma NoMarks(acc: Text)
    ensures acc + TextOf([]) == acc
  {
  }

  lemma OneMoreMark(m: Mark, more: seq<Mark>, acc: Text)
    ensures (acc + [MarkValue(m)]) + TextOf(more) == acc + TextOf([m] + more)
    ensures SpellMarks([m] + more) == SpellMark(m) + SpellMarks(more)
  {
    assert ([m] + more)[1..] == more;
  }

  lemma StringSpelled(rest: Text) returns (marks: seq<Mark>)
    requires rest != [] && rest[0] == QUOTE && ParseChars(rest[1..], []).Ok?
    ensures LegalMarks(marks) && ParseChars(rest[1..], []).value.value == TextOf(marks)
    ensures rest == SpellString(marks) + ParseChars(rest[1..], []).value.rest
  {
    marks := CharsSpelled(rest[1..], []);
    assert [] + TextOf(marks) == TextOf(marks);
    assert rest == [QUOTE] + rest[1..];
  }

  // ----- numbers are parsed -----

  /** The text goes on with something that does not belong to the number before it. */
  predicate Ends(doc: Doc, tail: Text) {
    doc.DInt? && doc.digits != [] ==> !StartsFloat(tail) && (doc.digits[0] == 0 || !StartsDigit(tail))
  }

  lemma {:induction false} DigitsParse(digits: seq<Decimal>, i: nat, tail: Text)
    requires i <= |digits| && !StartsDigit(tail)
    ensures ParseDigits(SpellDigits(digits[i..]) + tail, Number(digits[..i])) == Parsed(Number(digits), tail)
    decreases |digits| - i
  {
    if i == |digits| {
      assert digits[..i] == digits && SpellDigits(digits[i..]) + tail == tail;
    } else {
      var t := SpellDigits(digits[i..]) + tail;
      assert t[0] == ZERO + digits[i] && t[1..] == SpellDigits(digits[i + 1..]) + tail;
      assert digits[..i + 1][..i] == digits[..i];
      DigitsParse(digits, i + 1, tail);
    }
  }

  lemma {:induction false} DigitsSpelled(rest: Text, before: seq<Decimal>) returns (digits: seq<Decimal>)
    ensures ParseDigits(rest, Number(before)).value == Number(before + digits)
    ensures rest == SpellDigits(digits) + ParseDigits(rest, Number(before)).rest
    decreases |rest|
  {
    hide Number, SpellDigits;
    digits := [];
    if StartsDigit(rest) {
      var d: Decimal := rest[0] - ZERO;
      OneMoreDigit(before, d);
      var more := DigitsSpelled(rest[1..], before + [d]);
      digits := [d] + more;
      OneDigitFirst(before, d, more);
      assert rest == [ZERO + d] + rest[1..];
    } else {
      NoDigits(before, rest);
    }
  }

  lemma OneMoreDigit(before: seq<Decimal>, d: Decimal)
    ensures Number(before + [d]) == Number(before) * 10 + d
  {
    assert (before + [d])[..|before|] == before;
  }

  lemma OneDigitFirst(before: seq<Decimal>, d: Decimal, more: seq<Decimal>)
    ensures before + [d] + more == before + ([d] + more) && SpellDigits([d] + more) == [ZERO + d] + SpellDigits(more)
  {
  }

  lemma NoDigits(before: seq<Decimal>, rest: Text)
    ensures before + [] == before && SpellDigits([]) + rest == rest
  {
  }

  lemma SizeParses(digits: seq<Decimal>, tail: Text)
    requires digits != [] && (digits[0] == 0 ==> |digits| == 1) && (digits[0] != 0 ==> !StartsDigit(tail))
    ensures var body := SpellDigits(digits) + tail;
      && StartsDigit(body) && (body[0] == ZERO <==> digits[0] == 0)
      && (if body[0] == ZERO then Parsed(0, body[1..]) else ParseDigits(body[1..], body[0] - ZERO)) == Parsed(Number(digits), tail)
  {
    hide ParseDigits, SpellDigits, Number;
    var rest := SpellDigits(digits[1..]) + tail;
    FirstDigit(digits);
    FirstNumber(digits);
    Regroup([ZERO + digits[0]], SpellDigits(digits[1..]), tail);
    var body := SpellDigits(digits) + tail;
    assert body == [ZERO + digits[0]] + rest && body[1..] == rest;
    if digits[0] == 0 {
      NoDigits([], tail);
    } else {
      DigitsParse(digits, 1, tail);
    }
  }

  lemma FirstDigit(digits: seq<Decimal>)
    requires digits != []
    ensures SpellDigits(digits) == [ZERO + digits[0]] + SpellDigits(digits[1..])
  {
    forall i | 0 < i < |digits| ensures SpellDigits(digits)[i] == SpellDigits(digits[1..])[i - 1] {
    }
  }

  lemma FirstNumber(digits: seq<Decimal>)
    requires digits != []
    ensures Number(digits[..1]) == digits[0]
    ensures |digits| == 1 ==> digits[1..] == [] && Number(digits) == digits[0]
  {
    var one := digits[..1];
    assert one[..0] == [];
    assert Number(one[..0]) == 0;
    assert |digits| == 1 ==> digits == one;
  }

  lemma NumberParses(doc: Doc, tail: Text)
    requires doc.DInt? && Legal(doc, 0) && Ends(doc, tail)
    ensures ParseNumber(Spell(doc) + tail) == Ok(Parsed(Sense(doc).n, tail))
  {
    hide StartsFloat, StartsDigit, ParseDigits, Number, SpellDigits;
    SizeParses(doc.digits, tail);
    var body := SpellDigits(doc.digits) + tail;
    SizeStarts(doc.digits, tail);
    if doc.negative {
      Regroup([MINUS], SpellDigits(doc.digits), tail);
      assert ([MINUS] + body)[1..] == body;
      assert Spell(doc) + tail == [MINUS] + body;
    } else {
      assert [] + SpellDigits(doc.digits) == SpellDigits(doc.digits);
      assert Spell(doc) + tail == body;
    }
  }

  lemma SizeStarts(digits: seq<Decimal>, tail: Text)
    requires digits != []
    ensures var body := SpellDigits(digits) + tail; body != [] && body[0] != MINUS
  {
    assert SpellDigits(digits)[0] == ZERO + digits[0];
  }

  lemma SizeSpelled(body: Text) returns (digits: seq<Decimal>)
    requires StartsDigit(body)
    ensures digits != [] && (digits[0] == 0 ==> |digits| == 1)
    ensures var p := if body[0] == ZERO then Parsed(0, body[1..]) else ParseDigits(body[1..], body[0] - ZERO);
      Number(digits) == p.value && body == SpellDigits(digits) + p.rest
  {
    var d: Decimal := body[0] - ZERO;
    assert [d][..0] == [];
    assert Number([d]) == d;
    assert body == [body[0]] + body[1..];
    digits := [d];
    assert SpellDigits(digits) == [body[0]];
    if d != 0 {
      var more := DigitsSpelled(body[1..], [d]);
      digits := [d] + more;
      assert SpellDigits(digits) == [body[0]] + SpellDigits(more);
    }
  }

  lemma NumberSpelled(rest: Text) returns (doc: Doc)
    requires ParseNumber(rest).Ok?
    ensures doc.DInt? && Legal(doc, 0) && Sense(doc) == Int(ParseNumber(rest).value.value)
    ensures rest == Spell(doc) + ParseNumber(rest).value.rest
  {
    hide StartsFloat, ParseDigits, Number, SpellDigits;
    var negative := rest[0] == MINUS;
    var body := if negative then rest[1..] else rest;
    var digits := SizeSpelled(body);
    doc := DInt(negative, digits);
    var tail := ParseNumber(rest).value.rest;
    Regroup(if negative then [MINUS] else [], SpellDigits(digits), tail);
    assert rest == (if negative then [MINUS] else []) + body;
    assert body == SpellDigits(digits) + tail;
  }

  // ----- legal spellings are parsed -----

  predicate Solid(t: Text) {
    t != [] && !IsSpace(t[0]) && t[0] != CLOSE && t[0] != UNBRACE
  }

  lemma SpellSolid(doc: Doc, room: nat)
    requires Legal(doc, room)
    ensures Solid(Spell(doc))
  {
    if doc.DInt? {
      assert SpellDigits(doc.digits)[0] == ZERO + doc.digits[0];
    }
  }

  lemma SolidStays(t: Text, tail: Text)
    requires Solid(t)
    ensures Skip(t + tail) == t + tail && (t + tail)[0] == t[0]
  {
  }

  lemma LiteralReturns(text: Text, v: Json, tail: Text)
    requires text != []
    ensures ParseLiteral(text + tail, text, v) == Ok(Parsed(v, tail))
  {
    assert (text + tail)[|text|..] == tail;
  }

  lemma LiteralParses(doc: Doc, depth: nat, max: nat, tail: Text)
    requires doc.DNull? || doc.DTrue? || doc.DFalse?
    ensures ParseValue(Spell(doc) + tail, depth, max) == Ok(Parsed(Sense(doc), tail))
  {
    var t := Spell(doc);
    assert Codes("null") == NULL_TEXT && Codes("true") == TRUE_TEXT && Codes("false") == FALSE_TEXT;
    LiteralReturns(t, Sense(doc), tail);
  }

  /** Every legal spelling is read as what it means, whatever follows it. */
  lemma {:induction false} ValueParses(doc: Doc, depth: nat, room: nat, tail: Text)
    requires Legal(doc, room) && Ends(doc, tail)
    ensures ParseValue(Spell(doc) + tail, depth, depth + room) == Ok(Parsed(Sense(doc), tail))
    decreases doc, 1
  {
    match doc
    case DInt(negative, digits) =>
      NumberParses(doc, tail);
      assert SpellDigits(digits)[0] == ZERO + digits[0];
    case DStr(marks) => StringParses(marks, tail);
    case DArr(pad, items) => ArrayParses(doc, depth, room, tail);
    case DObj(pad, fields) => ObjectParses(doc, depth, room, tail);
    case _ => LiteralParses(doc, depth, depth + room, tail);
  }

  lemma {:induction false} ArrayParses(doc: Doc, depth: nat, room: nat, tail: Text)
    requires doc.DArr? && Legal(doc, room)
    ensures ParseValue(Spell(doc) + tail, depth, depth + room) == Ok(Parsed(Sense(doc), tail))
    decreases doc, 0
  {
    hide ParseItems, SpellItems, SpellItem, LegalItem, Skip, White;
    var t, items := Spell(doc) + tail, doc.items;
    if items == [] {
      assert t[1..] == doc.pad + ([CLOSE] + tail);
      WhiteSkipped(doc.pad, [CLOSE] + tail);
      SpaceStops([CLOSE] + tail);
      assert ([CLOSE] + tail)[1..] == tail && ItemSenses(items) == [];
    } else {
      assert t[1..] == SpellItems(items) + tail;
      ItemsStart(items, room - 1, tail);
      ItemsParse(items, depth + 1, room - 1, [], tail);
      assert [] + ItemSenses(items) == ItemSenses(items);
    }
  }

  lemma SpaceStops(t: Text)
    requires t != [] && !IsSpace(t[0])
    ensures Skip(t) == t
  {
  }

  /** After the white space the first item begins. */
  lemma ItemsStart(items: seq<Item>, room: nat, tail: Text)
    requires items != [] && LegalItem(items[0], room)
    ensures var t := Skip(SpellItems(items) + tail); t != [] && t[0] != CLOSE
  {
    var item := items[0];
    var more := item.trail + (SpellItems(items)[|SpellItem(item)|..] + tail);
    assert SpellItems(items) + tail == item.lead + (Spell(item.value) + more);
    WhiteSkipped(item.lead, Spell(item.value) + more);
    SpellSolid(item.value, room);
    SolidStays(Spell(item.value), more);
  }

  /** What follows a value inside a container does not continue it. */
  lemma TrailEnds(doc: Doc, trail: Text, tail: Text)
    requires White(trail) && tail != [] && tail[0] in {COMMA, CLOSE, UNBRACE}
    ensures Ends(doc, trail + tail)
  {
    if trail != [] {
      assert (trail + tail)[0] == trail[0] && trail[0] in trail;
      SpaceExactly(trail[0]);
    }
  }

  lemma {:induction false} ItemsParse(items: seq<Item>, depth: nat, room: nat, acc: seq<Json>, tail: Text)
    requires items != [] && forall i :: 0 <= i < |items| ==> LegalItem(items[i], room)
    ensures ParseItems(Skip(SpellItems(items) + tail), depth, depth + room, acc) == Ok(Parsed(Arr(acc + ItemSenses(items)), tail))
    decreases items, 0
  {
    hide ParseItems, ParseValue, Skip, White, Spell, Sense, SpellItems, ItemSenses, Ends;
    var item, rest := items[0], items[1..];
    var after := if |items| == 1 then [CLOSE] + tail else [COMMA] + (SpellItems(rest) + tail);
    ItemsSplit(items, tail);
    assert LegalItem(item, room);
    WhiteSkipped(item.lead, Spell(item.value) + (item.trail + after));
    SpellSolid(item.value, room);
    SolidStays(Spell(item.value), item.trail + after);
    TrailEnds(item.value, item.trail, after);
    ValueParses(item.value, depth, room, item.trail + after);
    WhiteSkipped(item.trail, after);
    SpaceStops(after);
    ItemStep(Spell(item.value) + (item.trail + after), depth, depth + room, acc, Sense(item.value), item.trail + after);
    if |items| == 1 {
      assert after[1..] == tail;
    } else {
      assert after[1..] == SpellItems(rest) + tail;
      ItemsParse(rest, depth, room, acc + [Sense(item.value)], tail);
    }
    SensesSplit(items, acc);
  }

  lemma ItemStep(rest: Text, depth: nat, max: nat, acc: seq<Json>, v: Json, after: Text)
    requires ParseValue(rest, depth, max) == Ok(Parsed(v, after)) && Skip(after) != []
    ensures Skip(after)[0] == CLOSE ==> ParseItems(rest, depth, max, acc) == Ok(Parsed(Arr(acc + [v]), Skip(after)[1..]))
    ensures Skip(after)[0] == COMMA ==> ParseItems(rest, depth, max, acc) == ParseItems(Skip(Skip(after)[1..]), depth, max, acc + [v])
  {
    hide Skip, ParseValue;
  }

  lemma ItemsSplit(items: seq<Item>, tail: Text)
    requires items != []
    ensures SpellItems(items) + tail ==
      items[0].lead + (Spell(items[0].value) + (items[0].trail
        + (if |items| == 1 then [CLOSE] + tail else [COMMA] + (SpellItems(items[1..]) + tail))))
  {
    hide Spell, SpellItem;
    var rest := if |items| == 1 then [] else SpellItems(items[1..]);
    Regroup(SpellItem(items[0]), [CLOSE], tail);
    Regroup(SpellItem(items[0]), [COMMA] + rest, tail);
    Regroup([COMMA], rest, tail);
    ItemThen(items[0], if |items| == 1 then [CLOSE] + tail else [COMMA] + (rest + tail));
  }

  lemma ItemThen(item: Item, after: Text)
    ensures SpellItem(item) + after == item.lead + (Spell(item.value) + (item.trail + after))
  {
    hide Spell;
    var v := Spell(item.value);
    Regroup(v, item.trail, after);
    Regroup(item.lead, v + item.trail, after);
  }

  lemma SensesSplit(items: seq<Item>, acc: seq<Json>)
    requires items != []
    ensures if |items| == 1 then acc + ItemSenses(items) == acc + [Sense(items[0].value)]
            else acc + ItemSenses(items) == (acc + [Sense(items[0].value)]) + ItemSenses(items[1..])
  {
    hide Sense;
    Regroup(acc, [Sense(items[0].value)], ItemSenses(items[1..]));
  }

  lemma Regroup<T>(a: seq<T>, b: seq<T>, c: seq<T>)
    ensures a + (b + c) == (a + b) + c && (c == [] ==> a + (b + c) == a + b)
  {
  }

  lemma {:induction false} ObjectParses(doc: Doc, depth: nat, room: nat, tail: Text)
    requires doc.DObj? && Legal(doc, room)
    ensures ParseValue(Spell(doc) + tail, depth, depth + room) == Ok(Parsed(Sense(doc), tail))
    decreases doc, 0
  {
    hide ParseFields, SpellEntries, SpellEntry, LegalEntry, Skip, White;
    var t, fields := Spell(doc) + tail, doc.fields;
    if fields == [] {
      assert t[1..] == doc.pad + ([UNBRACE] + tail);
      WhiteSkipped(doc.pad, [UNBRACE] + tail);
      SpaceStops([UNBRACE] + tail);
      assert ([UNBRACE] + tail)[1..] == tail && EntrySenses(fields) == [];
    } else {
      assert t[1..] == SpellEntries(fields) + tail;
      EntriesStart(fields, room - 1, tail);
      EntriesParse(fields, depth + 1, room - 1, [], tail);
      assert [] + EntrySenses(fields) == EntrySenses(fields);
    }
  }

  lemma EntriesStart(fields: seq<Entry>, room: nat, tail: Text)
    requires fields != [] && LegalEntry(fields[0], room)
    ensures var t := Skip(SpellEntries(fields) + tail); t != [] && t[0] == QUOTE
  {
    var entry := fields[0];
    var more := (entry.gap + ([COLON] + (entry.space + (Spell(entry.value) + entry.trail))))
                + (SpellEntries(fields)[|SpellEntry(entry)|..] + tail);
    assert SpellEntries(fields) + tail == entry.lead + (SpellString(entry.key) + more);
    WhiteSkipped(entry.lead, SpellString(entry.key) + more);
    SolidStays(SpellString(entry.key), more);
  }

  /** The text of a field after its key. */
  function AfterKey(entry: Entry, after: Text): Text {
    entry.gap + ([COLON] + (entry.space + (Spell(entry.value) + (entry.trail + after))))
  }

  lemma EntriesSplit(fields: seq<Entry>, tail: Text)
    requires fields != []
    ensures SpellEntries(fields) + tail ==
      fields[0].lead + (SpellString(fields[0].key) + AfterKey(fields[0],
        if |fields| == 1 then [UNBRACE] + tail else [COMMA] + (SpellEntries(fields[1..]) + tail)))
  {
    hide SpellEntry, AfterKey, SpellString;
    var rest := if |fields| == 1 then [] else SpellEntries(fields[1..]);
    Regroup(SpellEntry(fields[0]), [UNBRACE], tail);
    Regroup(SpellEntry(fields[0]), [COMMA] + rest, tail);
    Regroup([COMMA], rest, tail);
    EntryThen(fields[0], if |fields| == 1 then [UNBRACE] + tail else [COMMA] + (rest + tail));
  }

  lemma EntryThen(entry: Entry, after: Text)
    ensures SpellEntry(entry) + after == entry.lead + (SpellString(entry.key) + AfterKey(entry, after))
  {
    hide Spell, SpellString;
    var v, w := Spell(entry.value), SpellString(entry.key);
    var t4 := v + entry.trail;
    var t3 := entry.space + t4;
    var t2 := [COLON] + t3;
    var t1 := entry.gap + t2;
    Regroup(v, entry.trail, after);
    Regroup(entry.space, t4, after);
    Regroup([COLON], t3, after);
    Regroup(entry.gap, t2, after);
    Regroup(w, t1, after);
    Regroup(entry.lead, w + t1, after);
  }

  lemma EntrySensesSplit(fields: seq<Entry>, acc: seq<Field>)
    requires fields != []
    ensures var f := Field(TextOf(fields[0].key), Sense(fields[0].value));
      if |fields| == 1 then acc + EntrySenses(fields) == acc + [f]
      else acc + EntrySenses(fields) == (acc + [f]) + EntrySenses(fields[1..])
  {
    hide Sense, TextOf;
    Regroup(acc, [Field(TextOf(fields[0].key), Sense(fields[0].value))], EntrySenses(fields[1..]));
  }

  /** Reading one field, up to the separator after it. */
  lemma {:induction false} EntryParses(entry: Entry, depth: nat, room: nat, acc: seq<Field>, after: Text)
    requires LegalEntry(entry, room) && after != [] && after[0] in {COMMA, CLOSE, UNBRACE}
    requires !HasKey(acc, TextOf(entry.key))
    ensures var rest := SpellString(entry.key) + AfterKey(entry, after);
      var more := acc + [Field(TextOf(entry.key), Sense(entry.value))];
      && (after[0] == UNBRACE ==> ParseFields(rest, depth, depth + room, acc) == Ok(Parsed(Obj(more), after[1..])))
      && (after[0] == COMMA ==> ParseFields(rest, depth, depth + room, acc) == ParseFields(Skip(after[1..]), depth, depth + room, more))
    decreases entry, 0
  {
    hide ParseFields, ParseValue, ParseChars, Skip, White, Spell, Sense, SpellString, TextOf, HasKey, Ends, LegalMarks;
    var valued := entry.space + (Spell(entry.value) + (entry.trail + after));
    var colon := [COLON] + valued;
    StringParses(entry.key, AfterKey(entry, after));
    WhiteSkipped(entry.gap, colon);
    SpaceStops(colon);
    assert colon[1..] == valued;
    WhiteSkipped(entry.space, Spell(entry.value) + (entry.trail + after));
    SpellSolid(entry.value, room);
    SolidStays(Spell(entry.value), entry.trail + after);
    TrailEnds(entry.value, entry.trail, after);
    ValueParses(entry.value, depth, room, entry.trail + after);
    WhiteSkipped(entry.trail, after);
    SpaceStops(after);
    FieldStep(SpellString(entry.key) + AfterKey(entry, after), depth, depth + room, acc, TextOf(entry.key), AfterKey(entry, after),
              Sense(entry.value), entry.trail + after);
  }

  lemma FieldStep(rest: Text, depth: nat, max: nat, acc: seq<Field>, key: Text, gap: Text, v: Json, after: Text)
    requires rest != [] && rest[0] == QUOTE && ParseChars(rest[1..], []) == Ok(Parsed(key, gap)) && !HasKey(acc, key)
    requires Skip(gap) != [] && Skip(gap)[0] == COLON
    requires ParseValue(Skip(Skip(gap)[1..]), depth, max) == Ok(Parsed(v, after)) && Skip(after) != []
    ensures Skip(after)[0] == UNBRACE ==> ParseFields(rest, depth, max, acc) == Ok(Parsed(Obj(acc + [Field(key, v)]), Skip(after)[1..]))
    ensures Skip(after)[0] == COMMA ==>
      ParseFields(rest, depth, max, acc) == ParseFields(Skip(Skip(after)[1..]), depth, max, acc + [Field(key, v)])
  {
    hide Skip, ParseValue, ParseChars, HasKey;
  }

  lemma {:induction false} EntriesParse(fields: seq<Entry>, depth: nat, room: nat, acc: seq<Field>, tail: Text)
    requires fields != [] && forall i :: 0 <= i < |fields| ==> LegalEntry(fields[i], room)
    requires forall i, j :: 0 <= i < j < |fields| ==> TextOf(fields[i].key) != TextOf(fields[j].key)
    requires forall i :: 0 <= i < |fields| ==> !HasKey(acc, TextOf(fields[i].key))
    ensures ParseFields(Skip(SpellEntries(fields) + tail), depth, depth + room, acc) == Ok(Parsed(Obj(acc + EntrySenses(fields)), tail))
    decreases fields, 1
  {
    hide ParseFields, Skip, White, Spell, Sense, SpellEntries, EntrySenses, SpellString, TextOf, LegalEntry, HasKey, AfterKey;
    var entry, rest := fields[0], fields[1..];
    var after := if |fields| == 1 then [UNBRACE] + tail else [COMMA] + (SpellEntries(rest) + tail);
    EntriesSplit(fields, tail);
    assert LegalEntry(entry, room);
    LeadSkipped(entry, room, AfterKey(entry, after));
    EntryParses(entry, depth, room, acc, after);
    if |fields| == 1 {
      assert after[1..] == tail;
    } else {
      assert after[1..] == SpellEntries(rest) + tail;
      var more := acc + [Field(TextOf(entry.key), Sense(entry.value))];
      forall i | 0 <= i < |rest| ensures !HasKey(more, TextOf(rest[i].key)) {
        assert rest[i] == fields[i + 1];
        OneMoreKey(acc, Field(TextOf(entry.key), Sense(entry.value)), TextOf(fields[i + 1].key));
      }
      EntriesParse(rest, depth, room, more, tail);
    }
    EntrySensesSplit(fields, acc);
  }

  lemma LeadSkipped(entry: Entry, room: nat, more: Text)
    requires LegalEntry(entry, room)
    ensures Skip(entry.lead + (SpellString(entry.key) + more)) == SpellString(entry.key) + more
  {
    WhiteSkipped(entry.lead, SpellString(entry.key) + more);
    SolidStays(SpellString(entry.key), more);
  }

  lemma OneMoreKey(acc: seq<Field>, f: Field, key: Text)
    ensures HasKey(acc + [f], key) <==> HasKey(acc, key) || f.key == key
  {
    if HasKey(acc, key) {
      var g :| g in acc && g.key == key;
      assert g in acc + [f];
    } else if f.key == key {
      assert f in acc + [f];
    }
  }

  // ----- whatever is parsed is a legal spelling -----

  function Room(depth: nat, max: nat): nat {
    if depth < max then max - depth else 0
  }

  /** Every value that is read was spelled legally. */
  lemma {:induction false} ValueSpelled(rest: Text, depth: nat, max: nat) returns (doc: Doc)
    requires ParseValue(rest, depth, max).Ok?
    ensures Legal(doc, Room(depth, max)) && Sense(doc) == ParseValue(rest, depth, max).value.value
    ensures rest == Spell(doc) + ParseValue(rest, depth, max).value.rest
    decreases |rest|, 1
  {
    if rest[0] == QUOTE {
      var marks := StringSpelled(rest);
      doc := DStr(marks);
    } else if rest[0] == OPEN {
      doc := ArraySpelled(rest, depth, max);
    } else if rest[0] == BRACE {
      doc := ObjectSpelled(rest, depth, max);
    } else if rest[0] == MINUS || IsDigit(rest[0]) {
      doc := NumberSpelled(rest);
    } else {
      doc := LiteralSpelled(rest, depth, max);
    }
  }

  lemma LiteralSpelled(rest: Text, depth: nat, max: nat) returns (doc: Doc)
    requires ParseValue(rest, depth, max).Ok?
    requires rest[0] != QUOTE && rest[0] != OPEN && rest[0] != BRACE && rest[0] != MINUS && !IsDigit(rest[0])
    ensures Legal(doc, Room(depth, max)) && Sense(doc) == ParseValue(rest, depth, max).value.value
    ensures rest == Spell(doc) + ParseValue(rest, depth, max).value.rest
  {
    doc := if rest[0] == TRUE_TEXT[0] then DTrue else if rest[0] == FALSE_TEXT[0] then DFalse else DNull;
    assert Codes("null") == NULL_TEXT && Codes("true") == TRUE_TEXT && Codes("false") == FALSE_TEXT;
    assert Spell(doc) <= rest;
  }

  lemma {:induction false} ArraySpelled(rest: Text, depth: nat, max: nat) returns (doc: Doc)
    requires ParseValue(rest, depth, max).Ok? && rest[0] == OPEN
    ensures Legal(doc, Room(depth, max)) && Sense(doc) == ParseValue(rest, depth, max).value.value
    ensures rest == Spell(doc) + ParseValue(rest, depth, max).value.rest
    decreases |rest|, 0
  {
    hide ParseItems, SpellItems, LegalItem, Skip, White;
    var body := rest[1..];
    assert rest == [OPEN] + body;
    var next := Skip(body);
    if next != [] && next[0] == CLOSE {
      var pad := SkippedWhite(body);
      doc := DArr(pad, []);
      assert ItemSenses([]) == [];
      assert next == [CLOSE] + next[1..];
    } else {
      hide ItemSenses;
      var items := ItemsSpelled(body, depth + 1, max, []);
      doc := DArr([], items);
      assert [] + ItemSenses(items) == ItemSenses(items);
      NothingIsWhite();
    }
  }

  lemma NothingIsWhite()
    ensures White([])
  {
  }

  lemma {:induction false} ItemsSpelled(rest: Text, depth: nat, max: nat, acc: seq<Json>) returns (items: seq<Item>)
    requires ParseItems(Skip(rest), depth, max, acc).Ok?
    ensures items != [] && forall i :: 0 <= i < |items| ==> LegalItem(items[i], Room(depth, max))
    ensures ParseItems(Skip(rest), depth, max, acc).value.value == Arr(acc + ItemSenses(items))
    ensures rest == SpellItems(items) + ParseItems(Skip(rest), depth, max, acc).value.rest
    decreases |rest|, 3
  {
    hide ParseItems, ParseValue, Spell, Sense, SpellItems, ItemSenses, LegalItem, Skip, White;
    var lead := SkippedWhite(rest);
    var next := Skip(rest);
    var item, after := ItemSpelled(next, depth, max, acc, lead);
    if after[0] == CLOSE {
      items := [item];
      assert after == [CLOSE] + after[1..];
      ItemsSplit(items, after[1..]);
      SensesSplit(items, acc);
    } else {
      var more := ItemsSpelled(after[1..], depth, max, acc + [Sense(item.value)]);
      items := [item] + more;
      assert items[1..] == more && after == [COMMA] + after[1..];
      ItemsSplit(items, ParseItems(next, depth, max, acc).value.rest);
      SensesSplit(items, acc);
    }
  }

  /** One item that is read, and what comes after it. */
  lemma {:induction false} ItemSpelled(rest: Text, depth: nat, max: nat, acc: seq<Json>, lead: Text) returns (item: Item, after: Text)
    requires ParseItems(rest, depth, max, acc).Ok? && White(lead)
    ensures LegalItem(item, Room(depth, max)) && item.lead == lead
    ensures after != [] && |after| < |rest| && rest == Spell(item.value) + (item.trail + after)
    ensures var more := acc + [Sense(item.value)];
      if after[0] == CLOSE then ParseItems(rest, depth, max, acc) == Ok(Parsed(Arr(more), after[1..]))
      else after[0] == COMMA && ParseItems(rest, depth, max, acc) == ParseItems(Skip(after[1..]), depth, max, more)
    decreases |rest|, 2
  {
    hide ParseItems, ParseValue, Spell, Sense, Legal, Skip, White;
    var p := ItemRead(rest, depth, max, acc);
    var value := ValueSpelled(rest, depth, max);
    var trail := SkippedWhite(p.rest);
    after := Skip(p.rest);
    item := Item(lead, value, trail);
  }

  lemma ItemRead(rest: Text, depth: nat, max: nat, acc: seq<Json>) returns (p: Parsed<Json>)
    requires ParseItems(rest, depth, max, acc).Ok?
    ensures ParseValue(rest, depth, max) == Ok(p) && Skip(p.rest) != [] && |Skip(p.rest)| < |rest|
    ensures var after := Skip(p.rest);
      if after[0] == CLOSE then ParseItems(rest, depth, max, acc) == Ok(Parsed(Arr(acc + [p.value]), after[1..]))
      else after[0] == COMMA && ParseItems(rest, depth, max, acc) == ParseItems(Skip(after[1..]), depth, max, acc + [p.value])
  {
    p := ParseValue(rest, depth, max).value;
  }

  lemma {:induction false} ObjectSpelled(rest: Text, depth: nat, max: nat) returns (doc: Doc)
    requires ParseValue(rest, depth, max).Ok? && rest[0] == BRACE
    ensures Legal(doc, Room(depth, max)) && Sense(doc) == ParseValue(rest, depth, max).value.value
    ensures rest == Spell(doc) + ParseValue(rest, depth, max).value.rest
    decreases |rest|, 0
  {
    hide ParseFields, SpellEntries, EntrySenses, LegalEntry, Skip, White, HasKey, TextOf, Legal, Spell, Sense;
    var body := rest[1..];
    assert rest == [BRACE] + body;
    var next := Skip(body);
    var end := ParseValue(rest, depth, max).value.rest;
    if next != [] && next[0] == UNBRACE {
      var pad := SkippedWhite(body);
      doc := DObj(pad, []);
      EmptyObject(pad, Room(depth, max));
      assert next == [UNBRACE] + end;
      Regroup(pad, [UNBRACE], end);
      Regroup([BRACE], pad + [UNBRACE], end);
    } else {
      var fields := EntriesSpelled(body, depth + 1, max, []);
      doc := DObj([], fields);
      assert [] + EntrySenses(fields) == EntrySenses(fields);
      FullObject(fields, Room(depth, max));
      Regroup([BRACE], SpellEntries(fields), end);
    }
  }

  lemma EmptyObject(pad: Text, room: nat)
    requires White(pad) && room > 0
    ensures var doc := DObj(pad, []); Legal(doc, room) && Sense(doc) == Obj([]) && Spell(doc) == [BRACE] + (pad + [UNBRACE])
  {
  }

  lemma FullObject(fields: seq<Entry>, room: nat)
    requires fields != [] && room > 0 && forall i :: 0 <= i < |fields| ==> LegalEntry(fields[i], room - 1)
    requires forall i, j :: 0 <= i < j < |fields| ==> TextOf(fields[i].key) != TextOf(fields[j].key)
    ensures var doc := DObj([], fields);
      Legal(doc, room) && Sense(doc) == Obj(EntrySenses(fields)) && Spell(doc) == [BRACE] + SpellEntries(fields)
  {
    hide LegalEntry, TextOf, EntrySenses, SpellEntries;
    NothingIsWhite();
  }

  lemma {:induction false} EntriesSpelled(rest: Text, depth: nat, max: nat, acc: seq<Field>) returns (fields: seq<Entry>)
    requires ParseFields(Skip(rest), depth, max, acc).Ok?
    ensures fields != [] && forall i :: 0 <= i < |fields| ==> LegalEntry(fields[i], Room(depth, max))
    ensures forall i, j :: 0 <= i < j < |fields| ==> TextOf(fields[i].key) != TextOf(fields[j].key)
    ensures forall i :: 0 <= i < |fields| ==> !HasKey(acc, TextOf(fields[i].key))
    ensures ParseFields(Skip(rest), depth, max, acc).value.value == Obj(acc + EntrySenses(fields))
    ensures rest == SpellEntries(fields) + ParseFields(Skip(rest), depth, max, acc).value.rest
    decreases |rest|, 3
  {
    hide ParseFields, ParseValue, ParseChars, Spell, SpellString, Sense, SpellEntries, EntrySenses, Legal, LegalMarks, TextOf, Skip, White, HasKey, AfterKey;
    var lead := SkippedWhite(rest);
    var next := Skip(rest);
    var entry, after := EntrySpelled(next, depth, max, acc);
    entry := entry.(lead := lead);
    var f := Field(TextOf(entry.key), Sense(entry.value));
    if after[0] == UNBRACE {
      fields := [entry];
      SameAfterKey(entry, after);
      assert after == [UNBRACE] + after[1..];
      EntriesSplit(fields, after[1..]);
      EntrySensesSplit(fields, acc);
    } else {
      var more := EntriesSpelled(after[1..], depth, max, acc + [f]);
      fields := [entry] + more;
      var end := ParseFields(next, depth, max, acc).value.rest;
      assert fields[1..] == more && after == [COMMA] + after[1..];
      SameAfterKey(entry, after);
      EntriesSplit(fields, end);
      EntrySensesSplit(fields, acc);
      forall i | 0 <= i < |more| ensures !HasKey(acc, TextOf(more[i].key)) && TextOf(more[i].key) != TextOf(entry.key) {
        OneMoreKey(acc, f, TextOf(more[i].key));
      }
      EntriesJoined(entry, more, depth, max, acc);
    }
  }

  lemma EntriesJoined(entry: Entry, more: seq<Entry>, depth: nat, max: nat, acc: seq<Field>)
    requires LegalEntry(entry, Room(depth, max)) && forall i :: 0 <= i < |more| ==> LegalEntry(more[i], Room(depth, max))
    requires forall i, j :: 0 <= i < j < |more| ==> TextOf(more[i].key) != TextOf(more[j].key)
    requires !HasKey(acc, TextOf(entry.key))
    requires forall i :: 0 <= i < |more| ==> !HasKey(acc, TextOf(more[i].key)) && TextOf(more[i].key) != TextOf(entry.key)
    ensures var fields := [entry] + more;
      && (forall i :: 0 <= i < |fields| ==> LegalEntry(fields[i], Room(depth, max)) && !HasKey(acc, TextOf(fields[i].key)))
      && (forall i, j :: 0 <= i < j < |fields| ==> TextOf(fields[i].key) != TextOf(fields[j].key))
  {
    hide LegalEntry, TextOf, HasKey;
  }

  lemma SameAfterKey(entry: Entry, after: Text)
    ensures forall lead :: AfterKey(entry.(lead := lead), after) == AfterKey(entry, after)
  {
  }

  /** One field that is read, and what comes after it. */
  lemma {:induction false} EntrySpelled(rest: Text, depth: nat, max: nat, acc: seq<Field>) returns (entry: Entry, after: Text)
    requires ParseFields(rest, depth, max, acc).Ok?
    ensures LegalEntry(entry, Room(depth, max)) && entry.lead == [] && !HasKey(acc, TextOf(entry.key))
    ensures after != [] && |after| < |rest| && rest == SpellString(entry.key) + AfterKey(entry, after)
    ensures var more := acc + [Field(TextOf(entry.key), Sense(entry.value))];
      if after[0] == UNBRACE then ParseFields(rest, depth, max, acc) == Ok(Parsed(Obj(more), after[1..]))
      else after[0] == COMMA && ParseFields(rest, depth, max, acc) == ParseFields(Skip(after[1..]), depth, max, more)
    decreases |rest|, 1
  {
    hide ParseFields, ParseValue, ParseChars, Spell, SpellString, Sense, Legal, LegalMarks, TextOf, Skip, White, HasKey;
    var key, p := FieldRead(rest, depth, max, acc);
    var marks := StringSpelled(rest);
    var gap := SkippedWhite(key.rest);
    var colon := Skip(key.rest);
    assert colon == [COLON] + colon[1..];
    var space := SkippedWhite(colon[1..]);
    var value := ValueSpelled(Skip(colon[1..]), depth, max);
    var trail := SkippedWhite(p.rest);
    after := Skip(p.rest);
    NothingIsWhite();
    entry := Entry([], marks, gap, space, value, trail);
  }

  lemma FieldRead(rest: Text, depth: nat, max: nat, acc: seq<Field>) returns (key: Parsed<Text>, p: Parsed<Json>)
    requires ParseFields(rest, depth, max, acc).Ok?
    ensures rest != [] && rest[0] == QUOTE && ParseChars(rest[1..], []) == Ok(key) && !HasKey(acc, key.value)
    ensures var colon := Skip(key.rest);
      && colon != [] && colon[0] == COLON && |Skip(colon[1..])| < |rest|
      && ParseValue(Skip(colon[1..]), depth, max) == Ok(p)
      && var after, more := Skip(p.rest), acc + [Field(key.value, p.value)];
         && after != [] && |after| < |rest|
         && if after[0] == UNBRACE then ParseFields(rest, depth, max, acc) == Ok(Parsed(Obj(more), after[1..]))
            else after[0] == COMMA && ParseFields(rest, depth, max, acc) == ParseFields(Skip(after[1..]), depth, max, more)
  {
    key := ParseChars(rest[1..], []).value;
    p := ParseValue(Skip(Skip(key.rest)[1..]), depth, max).value;
  }

  // ----- the parser accepts exactly the legal spellings -----

  /** A whole source: a legal spelling of the value, within the limit, between white space. */
  ghost predicate Spells(source: Text, lead: Text, doc: Doc, trail: Text, v: Json, max: nat) {
    White(lead) && Legal(doc, max) && White(trail) && source == lead + (Spell(doc) + trail) && Sense(doc) == v
  }

  /** A source is accepted with a value if and only if it is a legal spelling of the value. */
  lemma ParseExactly(source: Text, max: nat, v: Json)
    ensures Parse(source, max) == Ok(v) <==> exists lead, doc, trail :: Spells(source, lead, doc, trail, v, max)
  {
    hide Spell, Sense, Legal, White, Skip, ParseValue;
    if Parse(source, max) == Ok(v) {
      var lead := SkippedWhite(source);
      var doc := ValueSpelled(Skip(source), 0, max);
      var trail := SkippedWhite(ParseValue(Skip(source), 0, max).value.rest);
      assert trail + [] == trail;
      assert Spells(source, lead, doc, trail, v, max);
    }
    if lead, doc, trail :| Spells(source, lead, doc, trail, v, max) {
      SpellingParses(source, lead, doc, trail, max);
    }
  }

  lemma SpellingParses(source: Text, lead: Text, doc: Doc, trail: Text, max: nat)
    requires White(lead) && Legal(doc, max) && White(trail) && source == lead + (Spell(doc) + trail)
    ensures Parse(source, max) == Ok(Sense(doc))
  {
    hide Spell, Sense, Legal, White, Skip, ParseValue, Ends;
    WhiteSkipped(lead, Spell(doc) + trail);
    SpellSolid(doc, max);
    SolidStays(Spell(doc), trail);
    WhiteEnds(doc, trail);
    ValueParses(doc, 0, max, trail);
    assert trail + [] == trail;
    WhiteSkipped(trail, []);
    NothingToSkip();
  }

  lemma NothingToSkip()
    ensures Skip([]) == []
  {
  }

  lemma WhiteEnds(doc: Doc, trail: Text)
    requires White(trail)
    ensures Ends(doc, trail)
  {
    if trail != [] {
      assert trail[0] in trail;
      SpaceExactly(trail[0]);
    }
  }

  /** A spelling has one meaning. */
  lemma OneMeaning(source: Text, max: nat, lead: Text, doc: Doc, trail: Text, v: Json, lead': Text, doc': Doc, trail': Text, v': Json)
    requires Spells(source, lead, doc, trail, v, max) && Spells(source, lead', doc', trail', v', max)
    ensures v == v'
  {
    ParseExactly(source, max, v);
    ParseExactly(source, max, v');
  }

  // ----- what is refused -----

  /** Anything but white space after a whole value is refused; so is a digit after a leading zero. */
  lemma TrailingRefused(lead: Text, doc: Doc, gap: Text, more: Text, max: nat)
    requires White(lead) && Legal(doc, max) && White(gap) && more != [] && more[0] !in SPACES
    requires gap == [] && doc.DInt? ==>
      more[0] !in {'.' as int, 'e' as int, 'E' as int} && (doc.digits[0] == 0 || !('0' as int <= more[0] <= '9' as int))
    ensures Parse(lead + (Spell(doc) + (gap + more)), max) == Err(Malformed)
  {
    hide Spell, Sense, White, Skip, ParseValue, Ends;
    var tail := gap + more;
    SpaceExactly(more[0]);
    WhiteSkipped(lead, Spell(doc) + tail);
    SpellSolid(doc, max);
    SolidStays(Spell(doc), tail);
    if gap == [] {
      assert tail == more;
      NextEnds(doc, max, more);
    } else {
      GapEnds(doc, gap, more);
    }
    ValueParses(doc, 0, max, tail);
    WhiteSkipped(gap, more);
    SpaceStops(more);
  }

  lemma NextEnds(doc: Doc, max: nat, more: Text)
    requires Legal(doc, max) && more != []
    requires doc.DInt? ==>
      more[0] !in {'.' as int, 'e' as int, 'E' as int} && (doc.digits[0] == 0 || !('0' as int <= more[0] <= '9' as int))
    ensures Ends(doc, more)
  {
  }

  lemma GapEnds(doc: Doc, gap: Text, more: Text)
    requires White(gap) && gap != []
    ensures Ends(doc, gap + more)
  {
    assert (gap + more)[0] == gap[0] && gap[0] in gap;
    SpaceExactly(gap[0]);
  }

  lemma LeadingZeroRefused(negative: bool, digits: seq<Decimal>, max: nat)
    requires |digits| > 1 && digits[0] == 0
    ensures Parse(Spell(DInt(negative, digits)), max) == Err(Malformed)
  {
    var zero, more := DInt(negative, [0]), SpellDigits(digits[1..]);
    assert SpellDigits(digits) == SpellDigits([0]) + more && more[0] == '0' as int + digits[1];
    assert Spell(DInt(negative, digits)) == [] + (Spell(zero) + ([] + more));
    TrailingRefused([], zero, [], more, max);
  }

  /** After any legal characters, half of a surrogate pair without its other half is refused. */
  lemma UnpairedRefused(marks: seq<Mark>, half: Unit, more: Text, depth: nat, max: nat)
    requires LegalMarks(marks) && 0xd800 <= UnitValue(half) <= 0xdfff
    requires UnitValue(half) <= 0xdbff ==>
      forall low: Unit, tail: Text :: more == SpellUnit(low) + tail ==> !(0xdc00 <= UnitValue(low) <= 0xdfff)
    ensures ParseValue(['\"' as int] + (SpellMarks(marks) + (SpellUnit(half) + more)), depth, max) == Err(Malformed)
  {
    hide SpellUnit, UnitValue, ParseChar, SpellMarks, TextOf;
    var t := SpellUnit(half) + more;
    var text := [QUOTE] + (SpellMarks(marks) + t);
    assert text[1..] == SpellMarks(marks) + t;
    MarksParse(marks, [], t);
    UnitParses(half, more);
    HalfRefused(half, more);
  }

  lemma HalfRefused(half: Unit, more: Text)
    requires 0xd800 <= UnitValue(half) <= 0xdfff
    requires UnitValue(half) <= 0xdbff ==>
      forall low: Unit, tail: Text :: more == SpellUnit(low) + tail ==> !(0xdc00 <= UnitValue(low) <= 0xdfff)
    ensures ParseChar(SpellUnit(half) + more) == Err(Malformed)
  {
    hide HexUnit, SpellUnit, UnitValue;
    var t := SpellUnit(half) + more;
    UnitParses(half, more);
    var rest := t[2..];
    assert rest[4..] == more;
    if |more| >= 2 {
      assert rest[4] == more[0] && rest[5] == more[1] && rest[6..] == more[2..];
      if more[0] == BACKSLASH && more[1] == LOWER_U && HexUnit(more[2..]).Some? {
        var low := UnitSpelled(more[2..]);
        assert more == [BACKSLASH, LOWER_U] + more[2..];
      }
    }
  }

  /** A repeated key is refused, however either occurrence spells it. */
  lemma {:induction false} RepeatedKeyRefused(fields: seq<Entry>, again: Entry, more: Text, i: nat, depth: nat, room: nat)
    requires i < |fields| && TextOf(fields[i].key) == TextOf(again.key)
    requires forall j :: 0 <= j < |fields| ==> LegalEntry(fields[j], room)
    requires LegalEntry(again, room)
    requires forall j, k :: 0 <= j < k < |fields| ==> TextOf(fields[j].key) != TextOf(fields[k].key)
    ensures ParseValue(['{' as int] + Before(fields, SpellEntry(again) + more), depth, depth + 1 + room) == Err(Malformed)
  {
    hide SpellEntry, LegalEntry, TextOf, ParseFields, Skip;
    var rest := Before(fields, SpellEntry(again) + more);
    assert (['{' as int] + rest)[1..] == rest;
    BeforeStarts(fields, again, more, room);
    RepeatedKey(fields, again, more, depth + 1, room, []);
  }

  /** Fields, each with a comma after it, and then a text. */
  function Before(fields: seq<Entry>, rest: Text): Text {
    if fields == [] then rest else SpellEntry(fields[0]) + ([',' as int] + Before(fields[1..], rest))
  }

  lemma BeforeStarts(fields: seq<Entry>, again: Entry, more: Text, room: nat)
    requires fields != [] && LegalEntry(fields[0], room)
    ensures var t := Skip(Before(fields, SpellEntry(again) + more)); t != [] && t[0] == QUOTE
  {
    hide SpellEntry, AfterKey, LegalEntry;
    var after := [COMMA] + Before(fields[1..], SpellEntry(again) + more);
    EntryThen(fields[0], after);
    LeadSkipped(fields[0], room, AfterKey(fields[0], after));
  }

  lemma {:induction false} RepeatedKey(fields: seq<Entry>, again: Entry, more: Text, depth: nat, room: nat, acc: seq<Field>)
    requires HasKey(acc, TextOf(again.key)) || exists i :: 0 <= i < |fields| && TextOf(fields[i].key) == TextOf(again.key)
    requires forall j :: 0 <= j < |fields| ==> LegalEntry(fields[j], room) && !HasKey(acc, TextOf(fields[j].key))
    requires LegalEntry(again, room)
    requires forall j, k :: 0 <= j < k < |fields| ==> TextOf(fields[j].key) != TextOf(fields[k].key)
    ensures ParseFields(Skip(Before(fields, SpellEntry(again) + more)), depth, depth + room, acc) == Err(Malformed)
  {
    hide SpellEntry, LegalEntry, TextOf, ParseFields, Skip, HasKey, AfterKey, Sense, SpellString;
    if fields == [] {
      EntryThen(again, more);
      LeadSkipped(again, room, AfterKey(again, more));
      KeyRefused(again, room, more, depth, depth + room, acc);
    } else {
      var entry, rest := fields[0], fields[1..];
      var after := [COMMA] + Before(rest, SpellEntry(again) + more);
      var f := Field(TextOf(entry.key), Sense(entry.value));
      EntryThen(entry, after);
      assert LegalEntry(entry, room);
      LeadSkipped(entry, room, AfterKey(entry, after));
      EntryParses(entry, depth, room, acc, after);
      assert after[1..] == Before(rest, SpellEntry(again) + more);
      OneMoreKey(acc, f, TextOf(again.key));
      forall j | 0 <= j < |rest| ensures LegalEntry(rest[j], room) && !HasKey(acc + [f], TextOf(rest[j].key)) {
        assert rest[j] == fields[j + 1];
        OneMoreKey(acc, f, TextOf(fields[j + 1].key));
      }
      if i :| 0 <= i < |fields| && TextOf(fields[i].key) == TextOf(again.key) {
        assert i > 0 ==> rest[i - 1] == fields[i];
      }
      RepeatedKey(rest, again, more, depth, room, acc + [f]);
    }
  }

  lemma KeyRefused(entry: Entry, room: nat, more: Text, depth: nat, max: nat, acc: seq<Field>)
    requires LegalEntry(entry, room) && HasKey(acc, TextOf(entry.key))
    ensures ParseFields(SpellString(entry.key) + AfterKey(entry, more), depth, max, acc) == Err(Malformed)
  {
    hide ParseChars, SpellMarks, TextOf, HasKey, AfterKey;
    StringParses(entry.key, AfterKey(entry, more));
  }

  // ----- printing is the compact spelling -----

  /** The shortest escape, and none where none is needed. */
  function MarkOf(c: int): Mark {
    if c == '\"' as int then Short(0)
    else if c == '\\' as int then Short(1)
    else if c == 0x08 then Short(3)
    else if c == 0x0c then Short(4)
    else if c == 0x0a then Short(5)
    else if c == 0x0d then Short(6)
    else if c == 0x09 then Short(7)
    else if 0 <= c < 0x20 then Escaped(Unit(Hex(0, false), Hex(0, false), Hex(c / 16, false), Hex(c % 16, false)))
    else Plain(c)
  }

  function MarksOf(s: Text): seq<Mark> {
    seq(|s|, i requires 0 <= i < |s| => MarkOf(s[i]))
  }

  function DecimalsOf(n: nat): seq<Decimal> {
    if n < 10 then [n] else DecimalsOf(n / 10) + [n % 10]
  }

  /** The spelling without white space, in lower case. */
  function Compact(v: Json): Doc
    decreases v
  {
    match v
    case Null => DNull
    case Bool(b) => if b then DTrue else DFalse
    case Int(n) => DInt(n < 0, DecimalsOf(if n < 0 then -n else n))
    case Str(s) => DStr(MarksOf(s))
    case Arr(items) => DArr([], CompactItems(items))
    case Obj(fields) => DObj([], CompactFields(fields))
  }

  function CompactItems(items: seq<Json>): seq<Item>
    decreases items
  {
    if items == [] then [] else [Item([], Compact(items[0]), [])] + CompactItems(items[1..])
  }

  function CompactFields(fields: seq<Field>): seq<Entry>
    decreases fields
  {
    if fields == [] then [] else [Entry([], MarksOf(fields[0].key), [], [], Compact(fields[0].value), [])] + CompactFields(fields[1..])
  }

  lemma MarkPrints(c: int)
    requires IsScalar(c)
    ensures LegalMark(MarkOf(c)) && MarkValue(MarkOf(c)) == c && SpellMark(MarkOf(c)) == EscapeChar(c)
  {
    if 0 <= c < 0x20 {
      assert LOWER_HEX[c / 16] as int == HexDigit(c / 16) && LOWER_HEX[c % 16] as int == HexDigit(c % 16);
    }
  }

  lemma {:induction false} MarksPrint(s: Text)
    requires WellFormed(s)
    ensures LegalMarks(MarksOf(s)) && TextOf(MarksOf(s)) == s && SpellMarks(MarksOf(s)) == EscapeChars(s)
  {
    hide MarkOf, LegalMark, MarkValue, SpellMark, EscapeChar, IsScalar;
    forall i | 0 <= i < |s| ensures LegalMark(MarkOf(s[i])) && MarkValue(MarkOf(s[i])) == s[i] {
      MarkPrints(s[i]);
    }
    if s != [] {
      MarkPrints(s[0]);
      MarksPrint(s[1..]);
      assert MarksOf(s)[1..] == MarksOf(s[1..]);
    }
  }

  lemma StringPrints(s: Text)
    requires WellFormed(s)
    ensures LegalMarks(MarksOf(s)) && TextOf(MarksOf(s)) == s && SpellString(MarksOf(s)) == PrintString(s)
  {
    MarksPrint(s);
  }

  lemma {:induction false} DigitsPrint(n: nat)
    ensures var d := DecimalsOf(n); SpellDigits(d) == Digits(n) && Number(d) == n && d != [] && (d[0] == 0 <==> n == 0) && (n < 10 ==> |d| == 1)
  {
    if n < 10 {
      assert [n][..0] == [];
    } else {
      DigitsPrint(n / 10);
      var d, last: Decimal := DecimalsOf(n / 10), n % 10;
      assert (d + [last])[..|d|] == d;
      assert SpellDigits(d + [last]) == SpellDigits(d) + [ZERO + last];
    }
  }

  /** Whatever prints within the depth limit prints as its compact spelling, which is legal. */
  lemma {:induction false} PrintSpells(v: Json, depth: nat, max: nat)
    requires Print(v, depth, max).Ok? && DistinctKeys(v)
    ensures Legal(Compact(v), Room(depth, max)) && Sense(Compact(v)) == v && Spell(Compact(v)) == Print(v, depth, max).value
    decreases v, 1
  {
    match v
    case Null => assert Codes("null") == NULL_TEXT;
    case Bool(b) => assert Codes("true") == TRUE_TEXT && Codes("false") == FALSE_TEXT;
    case Int(n) =>
      DigitsPrint(if n < 0 then -n else n);
      assert [] + SpellDigits(Compact(v).digits) == SpellDigits(Compact(v).digits);
    case Str(s) => StringPrints(s);
    case Arr(items) => ArrayPrints(items, depth, max);
    case Obj(fields) => ObjectPrints(fields, depth, max);
  }

  lemma {:induction false} ArrayPrints(items: seq<Json>, depth: nat, max: nat)
    requires Print(Arr(items), depth, max).Ok? && forall i :: 0 <= i < |items| ==> DistinctKeys(items[i])
    ensures var doc := DArr([], CompactItems(items));
      Legal(doc, Room(depth, max)) && Sense(doc) == Arr(items) && Spell(doc) == Print(Arr(items), depth, max).value
    decreases items, 1
  {
    hide PrintItems, DistinctKeys, SpellItems, LegalItem, White;
    NothingIsWhite();
    if items == [] {
      assert CompactItems(items) == [] && ItemSenses([]) == [] && [CLOSE] == [] + [CLOSE];
    } else {
      hide CompactItems, ItemSenses;
      ItemsPrint(items, depth + 1, max);
    }
  }

  lemma {:induction false} ObjectPrints(fields: seq<Field>, depth: nat, max: nat)
    requires Print(Obj(fields), depth, max).Ok? && forall i :: 0 <= i < |fields| ==> DistinctKeys(fields[i].value)
    requires forall i, j :: 0 <= i < j < |fields| ==> fields[i].key != fields[j].key
    ensures var doc := DObj([], CompactFields(fields));
      Legal(doc, Room(depth, max)) && Sense(doc) == Obj(fields) && Spell(doc) == Print(Obj(fields), depth, max).value
    decreases fields, 1
  {
    hide PrintFields, DistinctKeys, SpellEntries, LegalEntry, White, TextOf;
    NothingIsWhite();
    if fields == [] {
      assert CompactFields(fields) == [] && EntrySenses([]) == [] && [UNBRACE] == [] + [UNBRACE];
    } else {
      hide CompactFields, EntrySenses;
      FieldsPrint(fields, depth + 1, max);
    }
  }

  lemma {:induction false} ItemsPrint(items: seq<Json>, depth: nat, max: nat)
    requires items != [] && PrintItems(items, depth, max).Ok? && forall i :: 0 <= i < |items| ==> DistinctKeys(items[i])
    ensures var r := CompactItems(items);
      && |r| == |items| && (forall i :: 0 <= i < |r| ==> LegalItem(r[i], Room(depth, max)))
      && ItemSenses(r) == items && SpellItems(r) == PrintItems(items, depth, max).value
    decreases items, 0
  {
    hide Print, Compact, Legal, Sense, Spell, SpellItem, DistinctKeys, White;
    var r, rest := CompactItems(items), items[1..];
    PrintSpells(items[0], depth, max);
    NothingIsWhite();
    BareItem(Compact(items[0]));
    assert r[1..] == CompactItems(rest);
    if rest != [] {
      ItemsPrint(rest, depth, max);
    }
    forall i | 0 <= i < |r| ensures LegalItem(r[i], Room(depth, max)) {
      if i > 0 { assert r[i] == r[1..][i - 1]; }
    }
  }

  lemma BareItem(doc: Doc)
    ensures SpellItem(Item([], doc, [])) == Spell(doc)
  {
  }

  lemma BareEntry(key: seq<Mark>, doc: Doc)
    ensures SpellEntry(Entry([], key, [], [], doc, [])) == SpellString(key) + ([COLON] + Spell(doc))
  {
    hide Spell, SpellString;
    assert [] + ([COLON] + ([] + (Spell(doc) + []))) == [COLON] + Spell(doc);
  }

  lemma {:induction false} FieldsPrint(fields: seq<Field>, depth: nat, max: nat)
    requires fields != [] && PrintFields(fields, depth, max).Ok? && forall i :: 0 <= i < |fields| ==> DistinctKeys(fields[i].value)
    ensures var r := CompactFields(fields);
      && |r| == |fields| && (forall i :: 0 <= i < |r| ==> LegalEntry(r[i], Room(depth, max)) && TextOf(r[i].key) == fields[i].key)
      && EntrySenses(r) == fields && SpellEntries(r) == PrintFields(fields, depth, max).value
    decreases fields, 0
  {
    hide Print, Compact, Legal, LegalMarks, Sense, Spell, SpellEntry, SpellString, PrintString, MarksOf, TextOf, DistinctKeys, White, WellFormed;
    var r, rest := CompactFields(fields), fields[1..];
    PrintSpells(fields[0].value, depth, max);
    StringPrints(fields[0].key);
    NothingIsWhite();
    BareEntry(MarksOf(fields[0].key), Compact(fields[0].value));
    assert r[1..] == CompactFields(rest);
    if rest != [] {
      FieldsPrint(rest, depth, max);
    }
    forall i | 0 <= i < |r| ensures LegalEntry(r[i], Room(depth, max)) && TextOf(r[i].key) == fields[i].key {
      if i > 0 { assert r[i] == r[1..][i - 1] && fields[i] == rest[i - 1]; }
    }
  }

  /** Round trip: whatever prints within the depth limit parses back within it to the same value,
      also before any text that does not continue a number. */
  lemma ValueReturns(v: Json, depth: nat, max: nat, tail: Text)
    requires Print(v, depth, max).Ok? && DistinctKeys(v)
    requires tail == [] || tail[0] in {COMMA, CLOSE, UNBRACE} || tail[0] in SPACES
    ensures ParseValue(Print(v, depth, max).value + tail, depth, max) == Ok(Parsed(v, tail))
  {
    hide Spell, Sense, Legal, Print, Compact;
    PrintSpells(v, depth, max);
    if tail != [] { SpaceExactly(tail[0]); }
    ValueParses(Compact(v), depth, Room(depth, max), tail);
    if depth > max {
      ScalarOnly(v, depth, max);
      var t := Print(v, depth, max).value;
      assert (t + tail)[0] == t[0];
      assert ParseValue(t + tail, depth, max) == ParseValue(t + tail, depth, depth);
    }
  }

  /** Below the depth limit nothing but scalars prints. */
  lemma ScalarOnly(v: Json, depth: nat, max: nat)
    requires Print(v, depth, max).Ok? && depth >= max
    ensures var t := Print(v, depth, max).value; t != [] && t[0] != OPEN && t[0] != BRACE
  {
    if v.Int? { DigitsPrint(if v.n < 0 then -v.n else v.n); }
  }

  lemma PrintReturns(v: Json, max: nat)
    requires Print(v, 0, max).Ok? && DistinctKeys(v)
    ensures Parse(Print(v, 0, max).value, max) == Ok(v)
  {
    hide Spell, Sense, Legal, Print, Compact;
    var t := Print(v, 0, max).value;
    PrintSpells(v, 0, max);
    NothingIsWhite();
    assert t == [] + (Spell(Compact(v)) + []);
    SpellingParses(t, [], Compact(v), [], max);
  }

  // ----- what prints -----

  predicate Scalars(s: Text) {
    forall c :: c in s ==> 0 <= c <= 0x10ffff && !(0xd800 <= c <= 0xdfff)
  }

  /** Numbers fit in 64 bits, texts and keys have no surrogates, containers nest at most `room` deep. */
  ghost predicate Printable(v: Json, room: nat)
    decreases v
  {
    match v
    case Int(n) => -0x8000_0000_0000_0000 <= n < 0x8000_0000_0000_0000
    case Str(s) => Scalars(s)
    case Arr(items) => room > 0 && forall i :: 0 <= i < |items| ==> Printable(items[i], room - 1)
    case Obj(fields) => room > 0 && forall i :: 0 <= i < |fields| ==> Scalars(fields[i].key) && Printable(fields[i].value, room - 1)
    case _ => true
  }

  lemma {:induction false} PrintExactly(v: Json, depth: nat, max: nat)
    ensures Print(v, depth, max).Ok? <==> Printable(v, Room(depth, max))
    decreases v, 1
  {
    match v
    case Arr(items) => if depth < max && items != [] { ItemsPrintExactly(items, depth + 1, max); }
    case Obj(fields) => if depth < max && fields != [] { FieldsPrintExactly(fields, depth + 1, max); }
    case _ =>
  }

  lemma {:induction false} ItemsPrintExactly(items: seq<Json>, depth: nat, max: nat)
    requires items != []
    ensures PrintItems(items, depth, max).Ok? <==> forall i :: 0 <= i < |items| ==> Printable(items[i], Room(depth, max))
    decreases items, 0
  {
    hide Print, Printable;
    PrintExactly(items[0], depth, max);
    if |items| > 1 {
      ItemsPrintExactly(items[1..], depth, max);
      assert forall i :: 0 < i < |items| ==> items[i] == items[1..][i - 1];
    }
  }

  lemma {:induction false} FieldsPrintExactly(fields: seq<Field>, depth: nat, max: nat)
    requires fields != []
    ensures PrintFields(fields, depth, max).Ok? <==>
      forall i :: 0 <= i < |fields| ==> Scalars(fields[i].key) && Printable(fields[i].value, Room(depth, max))
    decreases fields, 0
  {
    hide Print, Printable, PrintString;
    PrintExactly(fields[0].value, depth, max);
    assert Scalars(fields[0].key) <==> WellFormed(fields[0].key);
    hide Scalars, WellFormed;
    if |fields| > 1 {
      FieldsPrintExactly(fields[1..], depth, max);
      assert forall i :: 0 < i < |fields| ==> fields[i] == fields[1..][i - 1];
    }
  }
}
