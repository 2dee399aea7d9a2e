/**
 * JSON texts as `JSON.stringify` prints them without spaces (sections 4, 5 and 7 of
 * RFC 8259), over UTF-16 code units, with a reader that shows the printing to be
 * uniquely decodable.
 */
module Json {

  type CodeUnit = c: int | 0 <= c < 0x1_0000

  type Text = seq<CodeUnit>

  import opened Options

  /** A JSON value; a number is kept as the characters it prints as. */
  datatype Json =
    | Null
    | Bool(truth: bool)
    | Number(lexeme: Text)
    | Str(text: Text)
    | Arr(items: seq<Json>)
    | Obj(members: seq<Member>)

  datatype Member = Member(key: Text, value: Json)

  const QUOTE: CodeUnit := 34
  const COMMA: CodeUnit := 44
  const COLON: CodeUnit := 58
  const OPEN_BRACKET: CodeUnit := 91
  const BACKSLASH: CodeUnit := 92
  const CLOSE_BRACKET: CodeUnit := 93
  const LETTER_U: CodeUnit := 117
  const OPEN_BRACE: CodeUnit := 123
  const CLOSE_BRACE: CodeUnit := 125

  const NULL_TEXT: Text := [110, 117, 108, 108]
  const TRUE_TEXT: Text := [116, 114, 117, 101]
  const FALSE_TEXT: Text := [102, 97, 108, 115, 101]

  /** The characters a printed number is made of: digits, sign, point and exponent. */
  predicate IsNumberUnit(c: CodeUnit) {
    48 <= c <= 57 || c == 43 || c == 45 || c == 46 || c == 101
  }

  predicate IsLexeme(lexeme: Text) {
    lexeme != [] && forall i :: 0 <= i < |lexeme| ==> IsNumberUnit(lexeme[i])
  }

  /** Every number in the value prints as a number. */
  predicate WellFormed(json: Json) {
    match json
    case Number(lexeme) => IsLexeme(lexeme)
    case Arr(items) => forall i :: 0 <= i < |items| ==> WellFormed(items[i])
    case Obj(members) => forall i :: 0 <= i < |members| ==> WellFormed(members[i].value)
    case _ => true
  }

  // ----- Printing -----

  function HexDigit(d: int): (c: CodeUnit)
    requires 0 <= d < 16
  {
    if d < 10 then 48 + d else 87 + d
  }

  function Hex4(c: CodeUnit): (digits: Text)
    ensures |digits| == 4
  {
    [HexDigit(c / 16 / 16 / 16), HexDigit(c / 16 / 16 % 16), HexDigit(c / 16 % 16), HexDigit(c % 16)]
  }

  predicate IsHighSurrogate(c: CodeUnit) { 0xD800 <= c < 0xDC00 }

  predicate IsLowSurrogate(c: CodeUnit) { 0xDC00 <= c < 0xE000 }

  /** The letter that follows the backslash in a two-character escape. */
  function ShortEscape(c: CodeUnit): Option<CodeUnit> {
    if c == 8 then Some(98)
    else if c == 9 then Some(116)
    else if c == 10 then Some(110)
    else if c == 12 then Some(102)
    else if c == 13 then Some(114)
    else if c == QUOTE then Some(QUOTE)
    else if c == BACKSLASH then Some(BACKSLASH)
    else None
  }

  /** One code unit that is not part of a surrogate pair: escaped in two characters, in six, or not at all. */
  function EscapeUnit(c: CodeUnit): (r: Text)
    ensures |r| == 2 <==> c in {8, 9, 10, 12, 13, QUOTE, BACKSLASH}
    ensures |r| == 6 <==> (c < 0x20 && c !in {8, 9, 10, 12, 13}) || 0xD800 <= c < 0xE000
    ensures |r| in {2, 6} || r == [c]
  {
    if ShortEscape(c).Some? then [BACKSLASH, ShortEscape(c).value]
    else if c < 0x20 || IsHighSurrogate(c) || IsLowSurrogate(c) then [BACKSLASH, LETTER_U] + Hex4(c)
    else [c]
  }

  function Escape(text: Text): Text {
    if text == [] then []
    else if |text| >= 2 && IsHighSurrogate(text[0]) && IsLowSurrogate(text[1])
    then text[..2] + Escape(text[2..])
    else EscapeUnit(text[0]) + Escape(text[1..])
  }

  /** Two code units stay as they are together exactly when they are a surrogate pair. */
  lemma PairsStayTogether(text: Text)
    requires |text| >= 2
    ensures Escape(text) == if 0xD800 <= text[0] <= 0xDBFF && 0xDC00 <= text[1] <= 0xDFFF
                            then text[..2] + Escape(text[2..]) else EscapeUnit(text[0]) + Escape(text[1..])
  {
  }

  function Quote(text: Text): Text {
    [QUOTE] + Escape(text) + [QUOTE]
  }

  function Print(json: Json): Text
    decreases json, 1
  {
    match json
    case Null => NULL_TEXT
    case Bool(truth) => if truth then TRUE_TEXT else FALSE_TEXT
    case Number(lexeme) => lexeme
    case Str(text) => Quote(text)
    case Arr(items) => [OPEN_BRACKET] + PrintItems(items) + [CLOSE_BRACKET]
    case Obj(members) => [OPEN_BRACE] + PrintMembers(members) + [CLOSE_BRACE]
  }

  function PrintItems(items: seq<Json>): Text
    decreases items, 0
  {
    if items == [] then []
    else if |items| == 1 then Print(items[0])
    else Print(items[0]) + [COMMA] + PrintItems(items[1..])
  }

  function PrintMember(member: Member): Text
    decreases member, 2
  {
    Quote(member.key) + [COLON] + Print(member.value)
  }

  function PrintMembers(members: seq<Member>): Text
    decreases members, 0
  {
    if members == [] then []
    else if |members| == 1 then PrintMember(members[0])
    else PrintMember(members[0]) + [COMMA] + PrintMembers(members[1..])
  }

  // ----- Reading -----

  datatype Read<+T> = Failed | Got(value: T, rest: Text)

  function HexValue(c: CodeUnit): Option<int> {
    if 48 <= c <= 57 then Some(c - 48) else if 97 <= c <= 102 then Some(c - 87) else None
  }

  function ReadHex4(text: Text): Option<CodeUnit>
    requires |text| >= 4
  {
    match (HexValue(text[0]), HexValue(text[1]), HexValue(text[2]), HexValue(text[3]))
    case (Some(a), Some(b), Some(c), Some(d)) =>
      var unit := a * 4096 + b * 256 + c * 16 + d;
      if 0 <= unit < 0x1_0000 then Some(unit) else None
    case _ => None
  }

  function UnescapeShort(c: CodeUnit): Option<CodeUnit> {
    if c == 98 then Some(8)
    else if c == 116 then Some(9)
    else if c == 110 then Some(10)
    else if c == 102 then Some(12)
    else if c == 114 then Some(13)
    else if c == QUOTE || c == BACKSLASH then Some(c)
    else None
  }

  function Prepend(c: CodeUnit, read: Read<Text>): Read<Text> {
    match read
    case Failed => Failed
    case Got(text, rest) => Got([c] + text, rest)
  }

  /** Reads the inside of a string up to and including its closing quote. */
  function ReadString(text: Text): (r: Read<Text>)
    ensures r.Got? ==> |r.rest| < |text|
  {
    if text == [] then Failed
    else if text[0] == QUOTE then Got([], text[1..])
    else if text[0] != BACKSLASH then Prepend(text[0], ReadString(text[1..]))
    else if |text| < 2 then Failed
    else if text[1] == LETTER_U then
      if |text| < 6 then Failed
      else
        match ReadHex4(text[2..6])
        case None => Failed
        case Some(c) => Prepend(c, ReadString(text[6..]))
    else
      match UnescapeShort(text[1])
      case None => Failed
      case Some(c) => Prepend(c, ReadString(text[2..]))
  }

  /** The length of the number at the start of the text. */
  function NumberLength(text: Text): (n: nat)
    ensures n <= |text|
  {
    if text != [] && IsNumberUnit(text[0]) then 1 + NumberLength(text[1..]) else 0
  }

  function ReadWord(word: Text, meaning: Json, text: Text): (r: Read<Json>)
    requires word != []
    ensures r.Got? ==> |r.rest| < |text|
  {
    if word <= text then Got(meaning, text[|word|..]) else Failed
  }

  function ReadValue(text: Text): (r: Read<Json>)
    ensures r.Got? ==> |r.rest| < |text|
    decreases |text|, 1
  {
    if text == [] then Failed
    else if text[0] == NULL_TEXT[0] then ReadWord(NULL_TEXT, Null, text)
    else if text[0] == TRUE_TEXT[0] then ReadWord(TRUE_TEXT, Bool(true), text)
    else if text[0] == FALSE_TEXT[0] then ReadWord(FALSE_TEXT, Bool(false), text)
    else if IsNumberUnit(text[0]) then
      Got(Number(text[..NumberLength(text)]), text[NumberLength(text)..])
    else if text[0] == QUOTE then
      match ReadString(text[1..])
      case Failed => Failed
      case Got(s, rest) => Got(Str(s), rest)
    else if text[0] == OPEN_BRACKET then
      if |text| > 1 && text[1] == CLOSE_BRACKET then Got(Arr([]), text[2..])
      else
        match ReadItems(text[1..])
        case Failed => Failed
        case Got(items, rest) => Got(Arr(items), rest)
    else if text[0] == OPEN_BRACE then
      if |text| > 1 && text[1] == CLOSE_BRACE then Got(Obj([]), text[2..])
      else
        match ReadMembers(text[1..])
        case Failed => Failed
        case Got(members, rest) => Got(Obj(members), rest)
    else Failed
  }

  /** Reads at least one item, and the closing bracket. */
  function ReadItems(text: Text): (r: Read<seq<Json>>)
    ensures r.Got? ==> |r.rest| < |text|
    decreases |text|, 2
  {
    match ReadValue(text)
    case Failed => Failed
    case Got(item, rest) =>
      if rest == [] then Failed
      else if rest[0] == CLOSE_BRACKET then Got([item], rest[1..])
      else if rest[0] != COMMA then Failed
      else
        match ReadItems(rest[1..])
        case Failed => Failed
        case Got(items, rest') => Got([item] + items, rest')
  }

  function ReadMember(text: Text): (r: Read<Member>)
    ensures r.Got? ==> |r.rest| < |text|
    decreases |text|, 2
  {
    if text == [] || text[0] != QUOTE then Failed
    else
      match ReadString(text[1..])
      case Failed => Failed
      case Got(key, afterKey) =>
        if afterKey == [] || afterKey[0] != COLON then Failed
        else
          match ReadValue(afterKey[1..])
          case Failed => Failed
          case Got(value, rest) => Got(Member(key, value), rest)
  }

  /** Reads at least one member, and the closing brace. */
  function ReadMembers(text: Text): (r: Read<seq<Member>>)
    ensures r.Got? ==> |r.rest| < |text|
    decreases |text|, 3
  {
    match ReadMember(text)
    case Failed => Failed
    case Got(member, rest) =>
      if rest == [] then Failed
      else if rest[0] == CLOSE_BRACE then Got([member], rest[1..])
      else if rest[0] != COMMA then Failed
      else
        match ReadMembers(rest[1..])
        case Failed => Failed
        case Got(members, rest') => Got([member] + members, rest')
  }

  // ----- Reading undoes printing -----

  lemma HexRoundTrip(c: CodeUnit)
    ensures ReadHex4(Hex4(c)) == Some(c)
  {
    var q1 := c / 16;
    var q2 := q1 / 16;
    var q3 := q2 / 16;
    assert c == 16 * q1 + c % 16 && q1 == 16 * q2 + q1 % 16 && q2 == 16 * q3 + q2 % 16;
    assert Hex4(c) == [HexDigit(q3), HexDigit(q2 % 16), HexDigit(q1 % 16), HexDigit(c % 16)];
  }

  lemma ShortEscapeRoundTrip(c: CodeUnit, tail: Text)
    requires ShortEscape(c).Some?
    ensures ReadString([BACKSLASH, ShortEscape(c).value] + tail) == Prepend(c, ReadString(tail))
  {
    assert ([BACKSLASH, ShortEscape(c).value] + tail)[2..] == tail;
  }

  lemma HexEscapeRoundTrip(c: CodeUnit, tail: Text)
    ensures ReadString([BACKSLASH, LETTER_U] + Hex4(c) + tail) == Prepend(c, ReadString(tail))
  {
    hide Hex4, ReadHex4, HexValue, UnescapeShort;
    var printed := [BACKSLASH, LETTER_U] + Hex4(c) + tail;
    HexRoundTrip(c);
    assert printed[2..6] == Hex4(c) && printed[6..] == tail;
  }

  lemma UnitRoundTrip(c: CodeUnit, tail: Text)
    ensures ReadString(EscapeUnit(c) + tail) == Prepend(c, ReadString(tail))
  {
    if ShortEscape(c).Some? {
      ShortEscapeRoundTrip(c, tail);
    } else if c < 0x20 || IsHighSurrogate(c) || IsLowSurrogate(c) {
      HexEscapeRoundTrip(c, tail);
    } else {
      assert ([c] + tail)[1..] == tail;
    }
  }

  /** A surrogate pair is printed as it is. */
  lemma PairRoundTrip(high: CodeUnit, low: CodeUnit, tail: Text)
    requires IsHighSurrogate(high) && IsLowSurrogate(low)
    ensures ReadString([high, low] + tail) == Prepend(high, Prepend(low, ReadString(tail)))
  {
    assert ([high, low] + tail)[1..] == [low] + tail;
    assert ([low] + tail)[1..] == tail;
  }

  lemma ConcatAssociates(a: Text, b: Text, c: Text)
    ensures (a + b) + c == a + (b + c)
  {
  }

  /** An escaped string reads back when the closing quote follows. */
  lemma {:induction false} StringRoundTrip(text: Text, after: Text)
    requires after != [] && after[0] == QUOTE
    ensures ReadString(Escape(text) + after) == Got(text, after[1..])
  {
    if text == [] {
      assert Escape(text) + after == after;
    } else {
      hide ReadString, EscapeUnit;
      if |text| >= 2 && IsHighSurrogate(text[0]) && IsLowSurrogate(text[1]) {
        StringRoundTrip(text[2..], after);
        PairRoundTrip(text[0], text[1], Escape(text[2..]) + after);
        ConcatAssociates(text[..2], Escape(text[2..]), after);
        assert text[..2] == [text[0], text[1]];
        assert text == [text[0]] + ([text[1]] + text[2..]);
      } else {
        StringRoundTrip(text[1..], after);
        UnitRoundTrip(text[0], Escape(text[1..]) + after);
        ConcatAssociates(EscapeUnit(text[0]), Escape(text[1..]), after);
        assert text == [text[0]] + text[1..];
      }
    }
  }

  /** What may follow a value: nothing, or a character that cannot continue a number. */
  predicate Delimited(rest: Text) {
    rest == [] || !IsNumberUnit(rest[0])
  }

  lemma {:induction false} NumberRoundTrip(lexeme: Text, rest: Text)
    requires forall i :: 0 <= i < |lexeme| ==> IsNumberUnit(lexeme[i])
    requires Delimited(rest)
    ensures NumberLength(lexeme + rest) == |lexeme|
  {
    if lexeme == [] {
      assert lexeme + rest == rest;
    } else {
      NumberRoundTrip(lexeme[1..], rest);
      assert (lexeme + rest)[1..] == lexeme[1..] + rest;
    }
  }

  lemma ScalarRoundTrip(json: Json, rest: Text)
    requires json.Null? || json.Bool? || json.Number? || json.Str?
    requires WellFormed(json) && Delimited(rest)
    ensures ReadValue(Print(json) + rest) == Got(json, rest)
  {
    hide ReadString, Escape;
    var printed := Print(json) + rest;
    assert printed[..|Print(json)|] == Print(json) && printed[|Print(json)|..] == rest;
    match json
    case Number(lexeme) =>
      NumberRoundTrip(lexeme, rest);
    case Str(text) =>
      StringRoundTrip(text, [QUOTE] + rest);
      assert printed[1..] == Escape(text) + ([QUOTE] + rest);
    case _ =>
  }

  /** No value prints as nothing, or starts like the end of an array. */
  lemma FirstUnit(json: Json)
    requires WellFormed(json)
    ensures Print(json) != [] && Print(json)[0] != CLOSE_BRACKET
  {
  }

  lemma FirstOfItems(items: seq<Json>)
    requires items != [] && WellFormed(items[0])
    ensures PrintItems(items) != [] && PrintItems(items)[0] != CLOSE_BRACKET
  {
    FirstUnit(items[0]);
    hide Print;
  }

  lemma ArrayRoundTrip(items: seq<Json>, rest: Text)
    requires items != [] ==> WellFormed(items[0])
    requires items != [] ==> ReadItems(PrintItems(items) + ([CLOSE_BRACKET] + rest)) == Got(items, rest)
    ensures ReadValue(Print(Arr(items)) + rest) == Got(Arr(items), rest)
  {
    hide ReadItems;
    var printed := Print(Arr(items)) + rest;
    assert printed == [OPEN_BRACKET] + PrintItems(items) + [CLOSE_BRACKET] + rest;
    if items == [] {
      assert printed == [OPEN_BRACKET, CLOSE_BRACKET] + rest;
    } else {
      FirstOfItems(items);
      assert printed[1..] == PrintItems(items) + ([CLOSE_BRACKET] + rest);
    }
  }

  lemma ReadEmptyObject(rest: Text)
    ensures ReadValue([OPEN_BRACE, CLOSE_BRACE] + rest) == Got(Obj([]), rest)
  {
    var text := [OPEN_BRACE, CLOSE_BRACE] + rest;
    assert text[0] == OPEN_BRACE && text[1] == CLOSE_BRACE && text[2..] == rest;
  }

  lemma ReadFilledObject(inner: Text, members: seq<Member>, rest: Text)
    requires inner != [] && inner[0] != CLOSE_BRACE && ReadMembers(inner) == Got(members, rest)
    ensures ReadValue([OPEN_BRACE] + inner) == Got(Obj(members), rest)
  {
    hide ReadMembers;
    var text := [OPEN_BRACE] + inner;
    assert text[0] == OPEN_BRACE && text[1] == inner[0] && text[1..] == inner;
  }

  lemma FirstOfMembers(members: seq<Member>)
    requires members != []
    ensures PrintMembers(members) != [] && PrintMembers(members)[0] == QUOTE
  {
  }

  lemma Enclosed(open: CodeUnit, inner: Text, close: CodeUnit, rest: Text)
    ensures ([open] + inner + [close]) + rest == [open] + (inner + ([close] + rest))
    ensures inner == [] ==> [open] + (inner + ([close] + rest)) == [open, close] + rest
  {
  }

  lemma ObjectRoundTrip(members: seq<Member>, rest: Text)
    requires members != [] ==> ReadMembers(PrintMembers(members) + ([CLOSE_BRACE] + rest)) == Got(members, rest)
    ensures ReadValue(Print(Obj(members)) + rest) == Got(Obj(members), rest)
  {
    hide ReadMembers, ReadValue;
    Enclosed(OPEN_BRACE, PrintMembers(members), CLOSE_BRACE, rest);
    if members == [] {
      ReadEmptyObject(rest);
    } else {
      FirstOfMembers(members);
      ReadFilledObject(PrintMembers(members) + ([CLOSE_BRACE] + rest), members, rest);
    }
  }

  /** Whatever follows it, a printed value reads back as itself: printing is uniquely decodable. */
  lemma {:induction false} ValueRoundTrip(json: Json, rest: Text)
    requires WellFormed(json) && Delimited(rest)
    ensures ReadValue(Print(json) + rest) == Got(json, rest)
    decreases json, 1
  {
    hide ReadValue, Print;
    match json
    case Arr(items) =>
      if items != [] {
        ItemsRoundTrip(items, [CLOSE_BRACKET] + rest);
      }
      ArrayRoundTrip(items, rest);
    case Obj(members) =>
      if members != [] {
        MembersRoundTrip(members, [CLOSE_BRACE] + rest);
      }
      ObjectRoundTrip(members, rest);
    case _ => ScalarRoundTrip(json, rest);
  }

  lemma {:induction false} ItemsRoundTrip(items: seq<Json>, after: Text)
    requires items != [] && forall i :: 0 <= i < |items| ==> WellFormed(items[i])
    requires after != [] && after[0] == CLOSE_BRACKET
    ensures ReadItems(PrintItems(items) + after) == Got(items, after[1..])
    decreases items, 0
  {
    hide ReadValue, Print;
    if |items| == 1 {
      ValueRoundTrip(items[0], after);
      assert items == [items[0]];
    } else {
      var tail := PrintItems(items[1..]) + after;
      ItemsRoundTrip(items[1..], after);
      ValueRoundTrip(items[0], [COMMA] + tail);
      ConcatAssociates(Print(items[0]) + [COMMA], PrintItems(items[1..]), after);
      ConcatAssociates(Print(items[0]), [COMMA], tail);
      assert ([COMMA] + tail)[1..] == tail;
      assert items == [items[0]] + items[1..];
    }
  }

  lemma {:induction false} MemberRoundTrip(member: Member, rest: Text)
    requires WellFormed(member.value) && Delimited(rest)
    ensures ReadMember(PrintMember(member) + rest) == Got(member, rest)
    decreases member, 2
  {
    hide ReadValue, ReadString, Print, Escape;
    var printed := PrintMember(member) + rest;
    var afterKey := [QUOTE, COLON] + (Print(member.value) + rest);
    assert printed == [QUOTE] + (Escape(member.key) + afterKey);
    assert printed[1..] == Escape(member.key) + afterKey;
    StringRoundTrip(member.key, afterKey);
    ValueRoundTrip(member.value, rest);
    assert afterKey[1..][1..] == Print(member.value) + rest;
  }

  lemma {:induction false} MembersRoundTrip(members: seq<Member>, after: Text)
    requires members != [] && forall i :: 0 <= i < |members| ==> WellFormed(members[i].value)
    requires after != [] && after[0] == CLOSE_BRACE
    ensures ReadMembers(PrintMembers(members) + after) == Got(members, after[1..])
    decreases members, 0
  {
    hide ReadMember, PrintMember;
    if |members| == 1 {
      MemberRoundTrip(members[0], after);
      assert members == [members[0]];
    } else {
      var tail := PrintMembers(members[1..]) + after;
      MembersRoundTrip(members[1..], after);
      MemberRoundTrip(members[0], [COMMA] + tail);
      ConcatAssociates(PrintMember(members[0]) + [COMMA], PrintMembers(members[1..]), after);
      ConcatAssociates(PrintMember(members[0]), [COMMA], tail);
      assert ([COMMA] + tail)[1..] == tail;
      assert members == [members[0]] + members[1..];
    }
  }

  /** Different values print differently. */
  lemma PrintIsInjective(a: Json, b: Json)
    requires WellFormed(a) && WellFormed(b) && Print(a) == Print(b)
    ensures a == b
  {
    ValueRoundTrip(a, []);
    ValueRoundTrip(b, []);
    assert Print(a) + [] == Print(a) && Print(b) + [] == Print(b);
  }
}
