/**
 JSON text as RFC 8259 defines it: concrete syntax trees that keep every choice a writer
 has (whitespace, escapes, member order, duplicate names), the text of a tree, and the
 parser. Text is a sequence of Unicode scalar values.
 */
module JsonText {

  // ----- Whitespace (RFC 8259 section 2)

  predicate IsWs(c: char) {
    c == ' ' || c == '\t' || c == '\n' || c == '\r'
  }

  predicate AllWs(s: string) {
    forall i | 0 <= i < |s| :: IsWs(s[i])
  }

  /** The number of leading whitespace characters. */
  function WsLength(s: string): (n: nat)
    ensures n <= |s| && AllWs(s[..n]) && (n < |s| ==> !IsWs(s[n]))
  {
    if s != "" && IsWs(s[0]) then 1 + WsLength(s[1..]) else 0
  }

  lemma {:induction false} WsLengthIs(w: string, rest: string)
    requires AllWs(w) && (rest != "" ==> !IsWs(rest[0]))
    ensures WsLength(w + rest) == |w|
    ensures (w + rest)[..|w|] == w && (w + rest)[|w|..] == rest
  {
    if w == "" {
      assert w + rest == rest;
    } else {
      assert (w + rest)[1..] == w[1..] + rest;
      WsLengthIs(w[1..], rest);
    }
  }

  // ----- Numbers (RFC 8259 section 6)

  predicate IsDigit(c: char) {
    '0' <= c <= '9'
  }

  predicate IsNumberChar(c: char) {
    IsDigit(c) || c == '-' || c == '+' || c == '.' || c == 'e' || c == 'E'
  }

  predicate AllNumberChars(s: string) {
    forall i | 0 <= i < |s| :: IsNumberChar(s[i])
  }

  function DigitCount(s: string): (n: nat)
    ensures n <= |s| && forall i | 0 <= i < n :: IsDigit(s[i])
  {
    if s != "" && IsDigit(s[0]) then 1 + DigitCount(s[1..]) else 0
  }

  predicate IsExponent(s: string)
    ensures IsExponent(s) ==> AllNumberChars(s)
  {
    s == "" ||
    ((s[0] == 'e' || s[0] == 'E') &&
     var digits := if |s| > 1 && (s[1] == '+' || s[1] == '-') then s[2..] else s[1..];
     digits != "" && DigitCount(digits) == |digits|)
  }

  predicate IsFraction(s: string)
    ensures IsFraction(s) ==> AllNumberChars(s)
  {
    if s != "" && s[0] == '.' then
      var n := DigitCount(s[1..]);
      n > 0 && IsExponent(s[1 + n..])
    else
      IsExponent(s)
  }

  predicate IsUnsigned(s: string)
    ensures IsUnsigned(s) ==> s != "" && IsDigit(s[0]) && AllNumberChars(s)
  {
    var n := DigitCount(s);
    n > 0 && (s[0] == '0' ==> n == 1) && IsFraction(s[n..])
  }

  predicate IsNumber(s: string)
    ensures IsNumber(s) ==> s != "" && (IsDigit(s[0]) || s[0] == '-') && AllNumberChars(s)
  {
    if s != "" && s[0] == '-' then IsUnsigned(s[1..]) else IsUnsigned(s)
  }

  /** The length of the longest prefix of number characters. */
  function NumberLength(s: string): (n: nat)
    ensures n <= |s| && AllNumberChars(s[..n]) && (n < |s| ==> !IsNumberChar(s[n]))
  {
    if s != "" && IsNumberChar(s[0]) then 1 + NumberLength(s[1..]) else 0
  }

  lemma {:induction false} NumberLengthIs(lexeme: string, rest: string)
    requires AllNumberChars(lexeme) && (rest != "" ==> !IsNumberChar(rest[0]))
    ensures NumberLength(lexeme + rest) == |lexeme|
    ensures (lexeme + rest)[..|lexeme|] == lexeme && (lexeme + rest)[|lexeme|..] == rest
  {
    if lexeme == "" {
      assert lexeme + rest == rest;
    } else {
      assert (lexeme + rest)[1..] == lexeme[1..] + rest;
      NumberLengthIs(lexeme[1..], rest);
    }
  }

  // ----- Strings (RFC 8259 section 7)

  /** One written unit of a string: a character as itself, a two-character escape, or a \u escape. */
  datatype Piece =
    | Plain(c: char)
    | Escape(letter: char)
    | Unicode(h3: char, h2: char, h1: char, h0: char)
  {
    predicate Valid() {
      match this
      case Plain(c) => c >= ' ' && c != '"' && c != '\\'
      case Escape(l) => l in "\"\\/bfnrt"
      case Unicode(a, b, c, d) => IsHex(a) && IsHex(b) && IsHex(c) && IsHex(d)
    }

    function Render(): (s: string)
      ensures s != ""
    {
      match this
      case Plain(c) => [c]
      case Escape(l) => ['\\', l]
      case Unicode(a, b, c, d) => ['\\', 'u', a, b, c, d]
    }
  }

  predicate IsHex(c: char) {
    IsDigit(c) || 'a' <= c <= 'f' || 'A' <= c <= 'F'
  }

  predicate ValidPieces(pieces: seq<Piece>) {
    forall i | 0 <= i < |pieces| :: pieces[i].Valid()
  }

  /** The text of the pieces and the closing quotation mark, followed by rest. */
  function WritePieces(pieces: seq<Piece>, rest: string): string {
    if pieces == [] then "\"" + rest else pieces[0].Render() + WritePieces(pieces[1..], rest)
  }

  datatype Parsed<T> = Fail | Got(value: T, rest: string)

  /** Parses the pieces of a string and its closing quotation mark. */
  function ParsePieces(s: string): (p: Parsed<seq<Piece>>)
    ensures p.Got? ==> |p.rest| < |s|
  {
    if s == "" then Fail
    else if s[0] == '"' then Got([], s[1..])
    else
      var first := ParsePiece(s);
      if first.Fail? then Fail
      else
        var others := ParsePieces(first.rest);
        if others.Fail? then Fail else Got([first.value] + others.value, others.rest)
  }

  function ParsePiece(s: string): (p: Parsed<Piece>)
    requires s != ""
    ensures p.Got? ==> |p.rest| < |s|
  {
    if s[0] == '\\' then
      if |s| >= 6 && s[1] == 'u' && Unicode(s[2], s[3], s[4], s[5]).Valid() then
        Got(Unicode(s[2], s[3], s[4], s[5]), s[6..])
      else if |s| >= 2 && Escape(s[1]).Valid() then
        Got(Escape(s[1]), s[2..])
      else
        Fail
    else if Plain(s[0]).Valid() then
      Got(Plain(s[0]), s[1..])
    else
      Fail
  }

  lemma ParsePieceOfWrite(p: Piece, rest: string)
    requires p.Valid()
    ensures (p.Render() + rest)[0] != '"'
    ensures ParsePiece(p.Render() + rest) == Got(p, rest)
  {
    assert (p.Render() + rest)[|p.Render()|..] == rest;
  }

  lemma {:induction false} ParsePiecesOfWrite(pieces: seq<Piece>, rest: string)
    requires ValidPieces(pieces)
    ensures ParsePieces(WritePieces(pieces, rest)) == Got(pieces, rest)
  {
    if pieces == [] {
      assert WritePieces(pieces, rest)[1..] == rest;
    } else {
      ParsePieceOfWrite(pieces[0], WritePieces(pieces[1..], rest));
      ParsePiecesOfWrite(pieces[1..], rest);
      assert pieces == [pieces[0]] + pieces[1..];
    }
  }

  lemma WriteOfParsePiece(s: string)
    requires s != "" && ParsePiece(s).Got?
    ensures ParsePiece(s).value.Valid()
    ensures s == ParsePiece(s).value.Render() + ParsePiece(s).rest
  {
  }

  lemma {:induction false} WriteOfParsePieces(s: string)
    requires ParsePieces(s).Got?
    ensures ValidPieces(ParsePieces(s).value)
    ensures s == WritePieces(ParsePieces(s).value, ParsePieces(s).rest)
    decreases |s|
  {
    if s[0] == '"' {
      assert s == ['"'] + s[1..];
    } else {
      var first := ParsePiece(s);
      WriteOfParsePiece(s);
      WriteOfParsePieces(first.rest);
      var others := ParsePieces(first.rest);
      assert ([first.value] + others.value)[1..] == others.value;
    }
  }

  // ----- Values, arrays and objects (RFC 8259 sections 3 to 5)

  datatype Cst =
    | Null
    | True
    | False
    | Number(lexeme: string)
    | Text(pieces: seq<Piece>)
    | EmptyArray(ws: string)
    | Array(items: Items)
    | EmptyObject(ws: string)
    | Object(members: Members)

  datatype Items =
    | LastItem(pre: string, value: Cst, post: string)
    | MoreItems(pre: string, value: Cst, post: string, rest: Items)

  datatype Members =
    | LastMember(pre: string, key: seq<Piece>, mid: string, gap: string, value: Cst, post: string)
    | MoreMembers(pre: string, key: seq<Piece>, mid: string, gap: string, value: Cst, post: string, rest: Members)

  predicate Valid(c: Cst) {
    match c
    case Number(lexeme) => IsNumber(lexeme)
    case Text(pieces) => ValidPieces(pieces)
    case EmptyArray(ws) => AllWs(ws)
    case EmptyObject(ws) => AllWs(ws)
    case Array(items) => ValidItems(items)
    case Object(members) => ValidMembers(members)
    case _ => true
  }

  predicate ValidItems(items: Items) {
    AllWs(items.pre) && AllWs(items.post) && Valid(items.value) &&
    (items.MoreItems? ==> ValidItems(items.rest))
  }

  predicate ValidMembers(m: Members) {
    AllWs(m.pre) && ValidPieces(m.key) && AllWs(m.mid) && AllWs(m.gap) && AllWs(m.post) && Valid(m.value) &&
    (m.MoreMembers? ==> ValidMembers(m.rest))
  }

  /** The text of c followed by rest. */
  function Write(c: Cst, rest: string): string
    decreases c, 2
  {
    match c
    case Null => "null" + rest
    case True => "true" + rest
    case False => "false" + rest
    case Number(lexeme) => lexeme + rest
    case Text(pieces) => "\"" + WritePieces(pieces, rest)
    case EmptyArray(ws) => "[" + (ws + ("]" + rest))
    case Array(items) => "[" + WriteItems(items, rest)
    case EmptyObject(ws) => "{" + (ws + ("}" + rest))
    case Object(members) => "{" + WriteMembers(members, rest)
  }

  /** The text of the items and the closing bracket, followed by rest. */
  function WriteItems(items: Items, rest: string): string
    decreases items, 1
  {
    items.pre + Write(items.value, items.post + AfterItem(items, rest))
  }

  function AfterItem(items: Items, rest: string): string
    decreases items, 0
  {
    match items
    case LastItem(_, _, _) => "]" + rest
    case MoreItems(_, _, _, others) => "," + WriteItems(others, rest)
  }

  /** The text of the members and the closing brace, followed by rest. */
  function WriteMembers(m: Members, rest: string): string
    decreases m, 1
  {
    WriteName(m.pre, m.key, m.mid, m.gap, Write(m.value, m.post + AfterMember(m, rest)))
  }

  function AfterMember(m: Members, rest: string): string
    decreases m, 0
  {
    match m
    case LastMember(_, _, _, _, _, _) => "}" + rest
    case MoreMembers(_, _, _, _, _, _, others) => "," + WriteMembers(others, rest)
  }

  function WriteName(pre: string, key: seq<Piece>, mid: string, gap: string, rest: string): string {
    pre + ("\"" + WritePieces(key, mid + (":" + (gap + rest))))
  }

  function ParseValue(s: string): (p: Parsed<Cst>)
    ensures p.Got? ==> |p.rest| < |s|
    decreases |s|, 0
  {
    if s == "" then Fail
    else if s[0] == '"' then
      var p := ParsePieces(s[1..]);
      if p.Fail? then Fail else Got(Text(p.value), p.rest)
    else if s[0] == '[' then
      var n := 1 + WsLength(s[1..]);
      if n < |s| && s[n] == ']' then Got(EmptyArray(s[1..n]), s[n + 1..])
      else
        var p := ParseItems(s[1..]);
        if p.Fail? then Fail else Got(Array(p.value), p.rest)
    else if s[0] == '{' then
      var n := 1 + WsLength(s[1..]);
      if n < |s| && s[n] == '}' then Got(EmptyObject(s[1..n]), s[n + 1..])
      else
        var p := ParseMembers(s[1..]);
        if p.Fail? then Fail else Got(Object(p.value), p.rest)
    else ParseScalar(s)
  }

  function ParseScalar(s: string): (p: Parsed<Cst>)
    requires s != ""
    ensures p.Got? ==> |p.rest| < |s|
  {
    if "null" <= s then Got(Null, s[4..])
    else if "true" <= s then Got(True, s[4..])
    else if "false" <= s then Got(False, s[5..])
    else
      var n := NumberLength(s);
      if IsNumber(s[..n]) then Got(Number(s[..n]), s[n..]) else Fail
  }

  function ParseItems(s: string): (p: Parsed<Items>)
    ensures p.Got? ==> |p.rest| < |s|
    decreases |s|, 1
  {
    var n := WsLength(s);
    var v := ParseValue(s[n..]);
    if v.Fail? then Fail
    else
      var m := WsLength(v.rest);
      var pre, post, tail := s[..n], v.rest[..m], v.rest[m..];
      if tail == "" then Fail
      else if tail[0] == ']' then Got(LastItem(pre, v.value, post), tail[1..])
      else if tail[0] == ',' then
        var others := ParseItems(tail[1..]);
        if others.Fail? then Fail else Got(MoreItems(pre, v.value, post, others.value), others.rest)
      else Fail
  }

  function ParseMembers(s: string): (p: Parsed<Members>)
    ensures p.Got? ==> |p.rest| < |s|
    decreases |s|, 1
  {
    var head := ParseName(s);
    if head.Fail? then Fail
    else
      var v := ParseValue(head.rest);
      if v.Fail? then Fail
      else
        var m := WsLength(v.rest);
        var post, tail := v.rest[..m], v.rest[m..];
        var (pre, key, mid, gap) := head.value;
        if tail == "" then Fail
        else if tail[0] == '}' then Got(LastMember(pre, key, mid, gap, v.value, post), tail[1..])
        else if tail[0] == ',' then
          var others := ParseMembers(tail[1..]);
          if others.Fail? then Fail
          else Got(MoreMembers(pre, key, mid, gap, v.value, post, others.value), others.rest)
        else Fail
  }

  /** Parses the part of a member before its value: name, colon and the whitespace around them. */
  function ParseName(s: string): (p: Parsed<(string, seq<Piece>, string, string)>)
    ensures p.Got? ==> |p.rest| < |s|
  {
    var n := WsLength(s);
    if n == |s| || s[n] != '"' then Fail
    else
      var key := ParsePieces(s[n + 1..]);
      if key.Fail? then Fail
      else
        var m := WsLength(key.rest);
        if m == |key.rest| || key.rest[m] != ':' then Fail
        else
          var after := key.rest[m + 1..];
          var g := WsLength(after);
          Got((s[..n], key.value, key.rest[..m], after[..g]), after[g..])
  }

  // ----- The parser accepts every text of a tree

  /** What may follow a value inside a text: the end, whitespace or a structural character. */
  predicate Stops(rest: string) {
    rest != "" ==> IsWs(rest[0]) || rest[0] == ',' || rest[0] == ']' || rest[0] == '}'
  }

  lemma StopsAfterWs(post: string, rest: string)
    requires AllWs(post) && Stops(rest)
    ensures Stops(post + rest)
  {
  }

  lemma {:induction false} WriteStart(c: Cst, rest: string)
    requires Valid(c)
    ensures Write(c, rest) != ""
    ensures var first := Write(c, rest)[0]; !IsWs(first) && first != ']' && first != '}'
  {
  }

  lemma {:induction false} ScalarOfNumber(s: string)
    requires s != "" && (IsDigit(s[0]) || s[0] == '-')
    ensures ParseValue(s) == ParseScalar(s)
    ensures var n := NumberLength(s);
            ParseScalar(s) == if IsNumber(s[..n]) then Got(Number(s[..n]), s[n..]) else Fail
  {
  }

  lemma {:induction false} ParseOfNumber(lexeme: string, rest: string)
    requires IsNumber(lexeme) && Stops(rest)
    ensures ParseValue(lexeme + rest) == Got(Number(lexeme), rest)
  {
    var s := lexeme + rest;
    assert s[0] == lexeme[0];
    ScalarOfNumber(s);
    NumberLengthIs(lexeme, rest);
    assert ParseScalar(s) == Got(Number(lexeme), rest);
  }

  lemma {:induction false} ParseOfText(pieces: seq<Piece>, rest: string)
    requires ValidPieces(pieces)
    ensures ParseValue(Write(Text(pieces), rest)) == Got(Text(pieces), rest)
  {
    assert Write(Text(pieces), rest)[1..] == WritePieces(pieces, rest);
    ParsePiecesOfWrite(pieces, rest);
  }

  lemma {:induction false} ParseOfEmptyArray(ws: string, rest: string)
    requires AllWs(ws)
    ensures ParseValue(Write(EmptyArray(ws), rest)) == Got(EmptyArray(ws), rest)
  {
    ParseOfEmpty('[', ws, ']', rest);
  }

  lemma {:induction false} ParseOfEmptyObject(ws: string, rest: string)
    requires AllWs(ws)
    ensures ParseValue(Write(EmptyObject(ws), rest)) == Got(EmptyObject(ws), rest)
  {
    ParseOfEmpty('{', ws, '}', rest);
  }

  lemma {:induction false} ParseOfWord(c: Cst, rest: string)
    requires c.Null? || c.True? || c.False?
    ensures ParseValue(Write(c, rest)) == Got(c, rest)
  {
    var word := if c.Null? then "null" else if c.True? then "true" else "false";
    assert word <= word + rest && (word + rest)[|word|..] == rest;
  }

  lemma ParseOfEmpty(open: char, ws: string, close: char, rest: string)
    requires AllWs(ws) && !IsWs(close)
    ensures var s := [open] + (ws + ([close] + rest)); var n := 1 + WsLength(s[1..]);
            n == 1 + |ws| && n < |s| && s[n] == close && s[1..n] == ws && s[n + 1..] == rest
  {
    var s := [open] + (ws + ([close] + rest));
    assert s[1..] == ws + ([close] + rest);
    WsLengthIs(ws, [close] + rest);
    assert s[1..|ws| + 1] == s[1..][..|ws|];
    assert s[|ws| + 2..] == s[1..][|ws|..][1..];
  }

  lemma {:induction false} ParseOfArray(items: Items, rest: string)
    requires ValidItems(items)
    requires ParseItems(WriteItems(items, rest)) == Got(items, rest)
    ensures ParseValue(Write(Array(items), rest)) == Got(Array(items), rest)
  {
    var s := Write(Array(items), rest);
    var tail := items.post + AfterItem(items, rest);
    assert s[1..] == WriteItems(items, rest);
    WriteStart(items.value, tail);
    WsLengthIs(items.pre, Write(items.value, tail));
    assert s[1 + |items.pre|] == Write(items.value, tail)[0];
  }

  lemma NameStart(pre: string, key: seq<Piece>, mid: string, gap: string, rest: string)
    requires AllWs(pre)
    ensures var s := WriteName(pre, key, mid, gap, rest);
            WsLength(s) == |pre| < |s| && s[|pre|] == '"'
  {
    var quoted := "\"" + WritePieces(key, mid + (":" + (gap + rest)));
    WsLengthIs(pre, quoted);
    assert (pre + quoted)[|pre|] == quoted[0];
  }

  lemma {:induction false} ObjectOfMembers(t: string, m: Members, rest: string)
    requires var n := WsLength(t); n < |t| && t[n] != '}'
    requires ParseMembers(t) == Got(m, rest)
    ensures ParseValue("{" + t) == Got(Object(m), rest)
  {
    hide ParseMembers, WsLength, ParseItems, ParsePieces;
    var s := "{" + t;
    assert s[0] == '{' && s[1..] == t;
    var n := WsLength(t);
    assert s[1 + n] == t[n];
  }

  lemma {:induction false} MembersStart(m: Members, rest: string)
    requires ValidMembers(m)
    ensures var t := WriteMembers(m, rest); var n := WsLength(t); n < |t| && t[n] == '"'
  {
    NameStart(m.pre, m.key, m.mid, m.gap, Write(m.value, m.post + AfterMember(m, rest)));
  }

  lemma {:induction false} ParseOfWrite(c: Cst, rest: string)
    requires Valid(c) && Stops(rest)
    ensures ParseValue(Write(c, rest)) == Got(c, rest)
    decreases c
  {
    match c {
      case Number(lexeme) =>
        ParseOfNumber(lexeme, rest);
      case Text(pieces) =>
        ParseOfText(pieces, rest);
      case EmptyArray(ws) =>
        ParseOfEmptyArray(ws, rest);
      case EmptyObject(ws) =>
        ParseOfEmptyObject(ws, rest);
      case Array(items) =>
        ParseItemsOfWrite(items, rest);
        ParseOfArray(items, rest);
      case Object(members) =>
        MembersStart(members, rest);
        ParseMembersOfWrite(members, rest);
        ObjectOfMembers(WriteMembers(members, rest), members, rest);
      case _ =>
        ParseOfWord(c, rest);
    }
  }

  lemma {:induction false} ParseItemsOfWrite(items: Items, rest: string)
    requires ValidItems(items)
    ensures ParseItems(WriteItems(items, rest)) == Got(items, rest)
    decreases items
  {
    var after := AfterItem(items, rest);
    var tail := items.post + after;
    WriteStart(items.value, tail);
    WsLengthIs(items.pre, Write(items.value, tail));
    WsLengthIs(items.post, after);
    StopsAfterWs(items.post, after);
    ParseOfWrite(items.value, tail);
    if items.LastItem? {
      assert after[1..] == rest;
    } else {
      assert after[1..] == WriteItems(items.rest, rest);
      ParseItemsOfWrite(items.rest, rest);
    }
  }

  lemma ParseNameOfWrite(pre: string, key: seq<Piece>, mid: string, gap: string, rest: string)
    requires AllWs(pre) && ValidPieces(key) && AllWs(mid) && AllWs(gap)
    requires rest != "" && !IsWs(rest[0])
    ensures ParseName(WriteName(pre, key, mid, gap, rest)) == Got((pre, key, mid, gap), rest)
  {
    var after := gap + rest;
    var afterKey := mid + (":" + after);
    var quoted := "\"" + WritePieces(key, afterKey);
    WsLengthIs(pre, quoted);
    assert quoted[1..] == WritePieces(key, afterKey);
    assert (pre + quoted)[|pre| + 1..] == quoted[1..];
    ParsePiecesOfWrite(key, afterKey);
    WsLengthIs(mid, ":" + after);
    assert afterKey[|mid| + 1..] == after;
    WsLengthIs(gap, rest);
  }

  lemma {:induction false} ParseMembersOfWrite(m: Members, rest: string)
    requires ValidMembers(m)
    ensures ParseMembers(WriteMembers(m, rest)) == Got(m, rest)
    decreases m
  {
    var after := AfterMember(m, rest);
    var tail := m.post + after;
    WriteStart(m.value, tail);
    ParseNameOfWrite(m.pre, m.key, m.mid, m.gap, Write(m.value, tail));
    WsLengthIs(m.post, after);
    StopsAfterWs(m.post, after);
    ParseOfWrite(m.value, tail);
    if m.LastMember? {
      assert after[1..] == rest;
    } else {
      assert after[1..] == WriteMembers(m.rest, rest);
      ParseMembersOfWrite(m.rest, rest);
    }
  }

  // ----- The parser accepts nothing else

  lemma {:induction false} WriteOfParse(s: string)
    requires ParseValue(s).Got?
    ensures Valid(ParseValue(s).value)
    ensures s == Write(ParseValue(s).value, ParseValue(s).rest)
    decreases |s|, 0
  {
    assert s == [s[0]] + s[1..];
    if s[0] == '"' {
      WriteOfParsePieces(s[1..]);
    } else if s[0] == '[' {
      var n := 1 + WsLength(s[1..]);
      if n < |s| && s[n] == ']' {
        EmptySplit(s, n);
      } else {
        WriteOfParseItems(s[1..]);
      }
    } else if s[0] == '{' {
      var n := 1 + WsLength(s[1..]);
      if n < |s| && s[n] == '}' {
        EmptySplit(s, n);
      } else {
        WriteOfParseMembers(s[1..]);
      }
    } else {
      WriteOfParseScalar(s);
    }
  }

  lemma EmptySplit(s: string, n: nat)
    requires 1 <= n < |s|
    ensures s == [s[0]] + (s[1..n] + ([s[n]] + s[n + 1..]))
    ensures s[1..n] == s[1..][..n - 1]
  {
  }

  lemma WriteOfParseScalar(s: string)
    requires s != "" && ParseScalar(s).Got?
    ensures Valid(ParseScalar(s).value)
    ensures s == Write(ParseScalar(s).value, ParseScalar(s).rest)
  {
  }

  /** A text cut at a whitespace run and at a value, put together again. */
  lemma {:induction false} Reassemble(s: string, n: nat, value: Cst, after: string, m: nat)
    requires n <= |s| && s[n..] == Write(value, after) && m <= |after|
    ensures s == s[..n] + Write(value, after[..m] + after[m..])
  {
    assert after == after[..m] + after[m..];
    assert s == s[..n] + s[n..];
  }

  lemma {:induction false} WriteOfParseItems(s: string)
    requires ParseItems(s).Got?
    ensures ValidItems(ParseItems(s).value)
    ensures s == WriteItems(ParseItems(s).value, ParseItems(s).rest)
    decreases |s|, 1
  {
    var n := WsLength(s);
    var v := ParseValue(s[n..]);
    WriteOfParse(s[n..]);
    var m := WsLength(v.rest);
    var tail := v.rest[m..];
    if tail[0] == ',' {
      WriteOfParseItems(tail[1..]);
    }
    assert tail == [tail[0]] + tail[1..];
    assert tail == AfterItem(ParseItems(s).value, ParseItems(s).rest);
    Reassemble(s, n, v.value, v.rest, m);
  }

  lemma {:induction false} ReassembleName(s: string, n: nat, key: seq<Piece>, afterKey: string, m: nat, g: nat)
    requires n < |s| && s[n] == '"' && s[n + 1..] == WritePieces(key, afterKey)
    requires m < |afterKey| && afterKey[m] == ':' && g <= |afterKey| - m - 1
    ensures s == WriteName(s[..n], key, afterKey[..m], afterKey[m + 1..][..g], afterKey[m + 1..][g..])
  {
    var after := afterKey[m + 1..];
    assert after == after[..g] + after[g..];
    assert afterKey == afterKey[..m] + (":" + after);
    assert s == s[..n] + ("\"" + s[n + 1..]);
  }

  lemma WriteOfParseName(s: string)
    requires ParseName(s).Got?
    ensures var (pre, key, mid, gap) := ParseName(s).value;
            AllWs(pre) && ValidPieces(key) && AllWs(mid) && AllWs(gap) &&
            s == WriteName(pre, key, mid, gap, ParseName(s).rest)
  {
    var n := WsLength(s);
    WriteOfParsePieces(s[n + 1..]);
    var key := ParsePieces(s[n + 1..]);
    var m := WsLength(key.rest);
    var after := key.rest[m + 1..];
    ReassembleName(s, n, key.value, key.rest, m, WsLength(after));
  }

  lemma {:induction false} WriteOfParseMembers(s: string)
    requires ParseMembers(s).Got?
    ensures ValidMembers(ParseMembers(s).value)
    ensures s == WriteMembers(ParseMembers(s).value, ParseMembers(s).rest)
    decreases |s|, 1
  {
    hide ParseName, ParseValue, Write, WriteName, Valid, ValidPieces, WsLength;
    var head := ParseName(s);
    var v := ParseValue(head.rest);
    var m := WsLength(v.rest);
    var tail := v.rest[m..];
    var p := ParseMembers(s);
    assert tail == AfterMember(p.value, p.rest) && (p.value.MoreMembers? ==> ValidMembers(p.value.rest)) by {
      if tail[0] == ',' {
        WriteOfParseMembers(tail[1..]);
      }
      assert tail == [tail[0]] + tail[1..];
    }
    WriteOfParse(head.rest);
    Reassemble(head.rest, 0, v.value, v.rest, m);
    WriteOfParseName(s);
  }
}
