/**
 The values JSON text denotes and the canonical text of a value: object names in ascending
 order and without duplicates, no whitespace, numbers with their lexemes, and the escapes
 that Go's encoder chooses.
 */
module CanonicalJson {
  import opened Wrappers
  import opened Ordering
  import opened JsonText

  /** A number is its lexeme: 12.5 and 12.50 are different values. */
  datatype Value =
    | JNull
    | JBool(b: bool)
    | JNumber(lexeme: string)
    | JString(s: string)
    | JArray(items: seq<Value>)
    | JObject(members: map<string, Value>)

  // ----- Strings

  function HexValue(c: char): (n: nat)
    requires IsHex(c)
    ensures n < 16
  {
    if IsDigit(c) then c as int - '0' as int
    else if 'a' <= c <= 'f' then c as int - 'a' as int + 10
    else c as int - 'A' as int + 10
  }

  /** The UTF-16 code unit a \u escape stands for. */
  function Unit(p: Piece): (n: nat)
    requires p.Unicode? && p.Valid()
    ensures n < 0x1_0000
  {
    ((HexValue(p.h3) * 16 + HexValue(p.h2)) * 16 + HexValue(p.h1)) * 16 + HexValue(p.h0)
  }

  predicate IsSurrogate(n: nat) {
    0xD800 <= n < 0xE000
  }

  const REPLACEMENT: char := '\U{FFFD}'

  function Unescape(letter: char): char {
    match letter
    case 'b' => '\U{0008}'
    case 'f' => '\U{000C}'
    case 'n' => '\n'
    case 'r' => '\r'
    case 't' => '\t'
    case c => c
  }

  /**
   The characters the pieces stand for. A high surrogate joins the low surrogate right
   behind it; a surrogate without its partner becomes the replacement character.
   */
  function Decode(pieces: seq<Piece>): string
    requires ValidPieces(pieces)
  {
    if pieces == [] then ""
    else
      match pieces[0]
      case Plain(c) => [c] + Decode(pieces[1..])
      case Escape(l) => [Unescape(l)] + Decode(pieces[1..])
      case Unicode(_, _, _, _) =>
        var u := Unit(pieces[0]);
        if !IsSurrogate(u) then
          [u as char] + Decode(pieces[1..])
        else if u < 0xDC00 && |pieces| > 1 && pieces[1].Unicode? && 0xDC00 <= Unit(pieces[1]) < 0xE000 then
          [((u - 0xD800) * 0x400 + (Unit(pieces[1]) - 0xDC00) + 0x1_0000) as char] + Decode(pieces[2..])
        else
          [REPLACEMENT] + Decode(pieces[1..])
  }

  function HexDigit(n: nat): (c: char)
    requires n < 16
    ensures IsHex(c) && HexValue(c) == n
  {
    if n < 10 then ('0' as int + n) as char else ('a' as int + n - 10) as char
  }

  /** Go's encoder also escapes <, >, & and the two line separators. */
  function EncodeChar(c: char): (p: Piece)
    ensures p.Valid()
  {
    if c == '"' || c == '\\' then Escape(c)
    else if c == '\U{0008}' then Escape('b')
    else if c == '\U{000C}' then Escape('f')
    else if c == '\n' then Escape('n')
    else if c == '\r' then Escape('r')
    else if c == '\t' then Escape('t')
    else if c < ' ' || c == '<' || c == '>' || c == '&' then
      Unicode('0', '0', HexDigit(c as int / 16), HexDigit(c as int % 16))
    else if c == '\U{2028}' then Unicode('2', '0', '2', '8')
    else if c == '\U{2029}' then Unicode('2', '0', '2', '9')
    else Plain(c)
  }

  function Encode(s: string): (pieces: seq<Piece>)
    ensures ValidPieces(pieces)
  {
    if s == "" then [] else [EncodeChar(s[0])] + Encode(s[1..])
  }

  lemma {:induction false} DecodeOne(c: char, rest: seq<Piece>)
    requires ValidPieces(rest)
    ensures ValidPieces([EncodeChar(c)] + rest)
    ensures Decode([EncodeChar(c)] + rest) == [c] + Decode(rest)
  {
    var p := EncodeChar(c);
    assert ([p] + rest)[1..] == rest;
    if p.Unicode? {
      assert Unit(p) == c as int;
    }
  }

  lemma {:induction false} DecodeEncode(s: string)
    ensures Decode(Encode(s)) == s
  {
    if s != "" {
      DecodeEncode(s[1..]);
      DecodeOne(s[0], Encode(s[1..]));
      assert s == [s[0]] + s[1..];
    }
  }

  // ----- The value of a tree and the canonical tree of a value

  function Meaning(c: Cst): Value
    requires Valid(c)
    decreases c
  {
    match c
    case Null => JNull
    case True => JBool(true)
    case False => JBool(false)
    case Number(lexeme) => JNumber(lexeme)
    case Text(pieces) => JString(Decode(pieces))
    case EmptyArray(_) => JArray([])
    case Array(items) => JArray(ItemsMeaning(items))
    case EmptyObject(_) => JObject(map[])
    case Object(members) => JObject(MembersMeaning(members))
  }

  function ItemsMeaning(items: Items): (vs: seq<Value>)
    requires ValidItems(items)
    ensures vs != []
    decreases items
  {
    match items
    case LastItem(_, v, _) => [Meaning(v)]
    case MoreItems(_, v, _, rest) => [Meaning(v)] + ItemsMeaning(rest)
  }

  /** Of members with one name the last one counts. */
  function MembersMeaning(m: Members): map<string, Value>
    requires ValidMembers(m)
    decreases m
  {
    match m
    case LastMember(_, key, _, _, v, _) => map[Decode(key) := Meaning(v)]
    case MoreMembers(_, key, _, _, v, _, rest) => map[Decode(key) := Meaning(v)] + MembersMeaning(rest)
  }

  /** All numbers in the value are JSON numbers. */
  predicate Good(v: Value)
    decreases v
  {
    match v
    case JNumber(lexeme) => IsNumber(lexeme)
    case JArray(items) => forall i | 0 <= i < |items| :: Good(items[i])
    case JObject(members) => forall k | k in members :: Good(members[k])
    case _ => true
  }

  function Canon(v: Value): Cst
    requires Good(v)
    decreases v, 1
  {
    match v
    case JNull => Null
    case JBool(b) => if b then True else False
    case JNumber(lexeme) => Number(lexeme)
    case JString(s) => Text(Encode(s))
    case JArray(items) => if items == [] then EmptyArray("") else Array(CanonItems(items))
    case JObject(members) =>
      if members == map[] then EmptyObject("")
      else
        var keys := Sort(members.Keys);
        SortCorrect(members.Keys);
        assert forall k | k in keys :: k in Elements(keys);
        Object(CanonMembers(v, keys))
  }

  function CanonItems(vs: seq<Value>): Items
    requires vs != [] && forall i | 0 <= i < |vs| :: Good(vs[i])
    decreases vs, 0
  {
    if |vs| == 1 then LastItem("", Canon(vs[0]), "")
    else MoreItems("", Canon(vs[0]), "", CanonItems(vs[1..]))
  }

  function CanonMembers(v: Value, keys: seq<string>): Members
    requires v.JObject? && Good(v) && keys != [] && forall k | k in keys :: k in v.members
    decreases v, 0, |keys|
  {
    var k := keys[0];
    if |keys| == 1 then LastMember("", Encode(k), "", "", Canon(v.members[k]), "")
    else MoreMembers("", Encode(k), "", "", Canon(v.members[k]), "", CanonMembers(v, keys[1..]))
  }

  /** The canonical text of a value. */
  function Print(v: Value): string
    requires Good(v)
  {
    Write(Canon(v), "")
  }

  // ----- The canonical tree means its value

  lemma {:induction false} MeaningOfCanon(v: Value)
    requires Good(v)
    ensures Valid(Canon(v)) && Meaning(Canon(v)) == v
    decreases v, 1
  {
    match v {
      case JString(s) =>
        DecodeEncode(s);
      case JArray(items) =>
        if items != [] {
          MeaningOfCanonItems(items);
        }
      case JObject(members) =>
        if members != map[] {
          var keys := Sort(members.Keys);
          SortCorrect(members.Keys);
          assert forall k | k in keys :: k in Elements(keys);
          MeaningOfCanonMembers(v, keys);
          assert forall k | k in members :: k in Elements(keys);
          assert Restrict(members, keys) == members;
        }
      case _ =>
    }
  }

  lemma {:induction false} MeaningOfCanonItems(vs: seq<Value>)
    requires vs != [] && forall i | 0 <= i < |vs| :: Good(vs[i])
    ensures ValidItems(CanonItems(vs)) && ItemsMeaning(CanonItems(vs)) == vs
    decreases vs, 0
  {
    MeaningOfCanon(vs[0]);
    if |vs| > 1 {
      MeaningOfCanonItems(vs[1..]);
      assert vs == [vs[0]] + vs[1..];
    }
  }

  function Restrict(members: map<string, Value>, keys: seq<string>): map<string, Value>
    requires forall k | k in keys :: k in members
  {
    map k | k in keys :: members[k]
  }

  lemma RestrictStep(members: map<string, Value>, keys: seq<string>)
    requires keys != [] && forall k | k in keys :: k in members
    ensures |keys| == 1 ==> Restrict(members, keys) == map[keys[0] := members[keys[0]]]
    ensures Restrict(members, keys) == map[keys[0] := members[keys[0]]] + Restrict(members, keys[1..])
  {
    assert keys == [keys[0]] + keys[1..];
  }

  lemma {:induction false} MeaningOfCanonMembers(v: Value, keys: seq<string>)
    requires v.JObject? && Good(v) && keys != [] && forall k | k in keys :: k in v.members
    ensures ValidMembers(CanonMembers(v, keys))
    ensures MembersMeaning(CanonMembers(v, keys)) == Restrict(v.members, keys)
    decreases v, 0, |keys|
  {
    var k := keys[0];
    MeaningOfCanon(v.members[k]);
    DecodeEncode(k);
    RestrictStep(v.members, keys);
    if |keys| > 1 {
      MeaningOfCanonMembers(v, keys[1..]);
    }
  }

  lemma {:induction false} MeaningIsGood(c: Cst)
    requires Valid(c)
    ensures Good(Meaning(c))
    decreases c
  {
    match c {
      case Array(items) => ItemsAreGood(items);
      case Object(members) => MembersAreGood(members);
      case _ =>
    }
  }

  lemma {:induction false} ItemsAreGood(items: Items)
    requires ValidItems(items)
    ensures forall i | 0 <= i < |ItemsMeaning(items)| :: Good(ItemsMeaning(items)[i])
    decreases items
  {
    MeaningIsGood(items.value);
    if items.MoreItems? {
      ItemsAreGood(items.rest);
    }
  }

  lemma {:induction false} MembersAreGood(m: Members)
    requires ValidMembers(m)
    ensures forall k | k in MembersMeaning(m) :: Good(MembersMeaning(m)[k])
    decreases m
  {
    MeaningIsGood(m.value);
    if m.MoreMembers? {
      MembersAreGood(m.rest);
    }
  }

  /** Canonical texts of different values differ. */
  lemma {:induction false} PrintInjective(v: Value, w: Value)
    requires Good(v) && Good(w) && Print(v) == Print(w)
    ensures v == w
  {
    MeaningOfCanon(v);
    MeaningOfCanon(w);
    ParseOfWrite(Canon(v), "");
    ParseOfWrite(Canon(w), "");
  }

  // ----- Nesting

  /** Go's decoder rejects text nested more deeply. */
  const MAX_NESTING: nat := 10000

  predicate Nested(c: Cst, depth: nat)
    decreases c
  {
    match c
    case EmptyArray(_) => depth > 0
    case EmptyObject(_) => depth > 0
    case Array(items) => depth > 0 && NestedItems(items, depth - 1)
    case Object(members) => depth > 0 && NestedMembers(members, depth - 1)
    case _ => true
  }

  predicate NestedItems(items: Items, depth: nat)
    decreases items
  {
    Nested(items.value, depth) && (items.MoreItems? ==> NestedItems(items.rest, depth))
  }

  predicate NestedMembers(m: Members, depth: nat)
    decreases m
  {
    Nested(m.value, depth) && (m.MoreMembers? ==> NestedMembers(m.rest, depth))
  }

  predicate Shallow(v: Value, depth: nat)
    decreases v
  {
    match v
    case JArray(items) => depth > 0 && forall i | 0 <= i < |items| :: Shallow(items[i], depth - 1)
    case JObject(members) => depth > 0 && forall k | k in members :: Shallow(members[k], depth - 1)
    case _ => true
  }

  lemma {:induction false} MeaningIsShallow(c: Cst, depth: nat)
    requires Valid(c) && Nested(c, depth)
    ensures Shallow(Meaning(c), depth)
    decreases c
  {
    match c {
      case Array(items) => ItemsAreShallow(items, depth - 1);
      case Object(members) => MembersAreShallow(members, depth - 1);
      case _ =>
    }
  }

  lemma {:induction false} ItemsAreShallow(items: Items, depth: nat)
    requires ValidItems(items) && NestedItems(items, depth)
    ensures forall i | 0 <= i < |ItemsMeaning(items)| :: Shallow(ItemsMeaning(items)[i], depth)
    decreases items
  {
    MeaningIsShallow(items.value, depth);
    if items.MoreItems? {
      ItemsAreShallow(items.rest, depth);
    }
  }

  lemma {:induction false} MembersAreShallow(m: Members, depth: nat)
    requires ValidMembers(m) && NestedMembers(m, depth)
    ensures forall k | k in MembersMeaning(m) :: Shallow(MembersMeaning(m)[k], depth)
    decreases m
  {
    MeaningIsShallow(m.value, depth);
    if m.MoreMembers? {
      MembersAreShallow(m.rest, depth);
    }
  }

  lemma {:induction false} CanonIsNested(v: Value, depth: nat)
    requires Good(v) && Shallow(v, depth)
    ensures Nested(Canon(v), depth)
    decreases v, 1
  {
    match v {
      case JArray(items) =>
        if items != [] {
          CanonItemsAreNested(items, depth - 1);
        }
      case JObject(members) =>
        if members != map[] {
          var keys := Sort(members.Keys);
          SortCorrect(members.Keys);
          assert forall k | k in keys :: k in Elements(keys);
          CanonMembersAreNested(v, keys, depth - 1);
        }
      case _ =>
    }
  }

  lemma {:induction false} CanonItemsAreNested(vs: seq<Value>, depth: nat)
    requires vs != [] && forall i | 0 <= i < |vs| :: Good(vs[i]) && Shallow(vs[i], depth)
    ensures NestedItems(CanonItems(vs), depth)
    decreases vs, 0
  {
    CanonIsNested(vs[0], depth);
    if |vs| > 1 {
      CanonItemsAreNested(vs[1..], depth);
    }
  }

  lemma {:induction false} CanonMembersAreNested(v: Value, keys: seq<string>, depth: nat)
    requires v.JObject? && Good(v) && keys != [] && forall k | k in keys :: k in v.members
    requires forall k | k in v.members :: Shallow(v.members[k], depth)
    ensures NestedMembers(CanonMembers(v, keys), depth)
    decreases v, 0, |keys|
  {
    CanonIsNested(v.members[keys[0]], depth);
    if |keys| > 1 {
      CanonMembersAreNested(v, keys[1..], depth);
    }
  }

  // ----- canonicalObject

  datatype ObjectError = Malformed | NotAnObject | IsNull | TrailingData

  predicate IsObject(c: Cst) {
    c.EmptyObject? || c.Object?
  }

  /**
   The canonical text of a raw JSON object. Empty raw bytes stand for an absent field and
   have empty canonical bytes.
   */
  function CanonicalObject(raw: string): Result<string, ObjectError> {
    if raw == "" then Success("")
    else
      var p := ParseValue(raw[WsLength(raw)..]);
      if p.Fail? || !Nested(p.value, MAX_NESTING) then Failure(Malformed)
      else if p.value.Null? then Failure(IsNull)
      else if !IsObject(p.value) then Failure(NotAnObject)
      else if !AllWs(p.rest) then Failure(TrailingData)
      else
        WriteOfParse(raw[WsLength(raw)..]);
        MeaningIsGood(p.value);
        Success(Print(Meaning(p.value)))
  }

  /** The text is this tree with whitespace around it: the grammar, without the parser. */
  ghost predicate Spells(raw: string, c: Cst) {
    Valid(c) && exists pre, post | AllWs(pre) && AllWs(post) :: raw == pre + Write(c, post)
  }

  /** The text spells a JSON object that has this value. */
  ghost predicate Denotes(raw: string, v: Value) {
    exists c :: Spells(raw, c) && IsObject(c) && Nested(c, MAX_NESTING) && Meaning(c) == v
  }

  lemma {:induction false} SpelledTreeIsParsed(raw: string, c: Cst)
    requires Spells(raw, c)
    ensures raw != ""
    ensures var p := ParseValue(raw[WsLength(raw)..]); p.Got? && p.value == c && AllWs(p.rest)
  {
    var pre, post :| AllWs(pre) && AllWs(post) && raw == pre + Write(c, post);
    WriteStart(c, post);
    WsLengthIs(pre, Write(c, post));
    ParseOfWrite(c, post);
  }

  lemma {:induction false} ParsedTreeIsSpelled(raw: string)
    requires var p := ParseValue(raw[WsLength(raw)..]); p.Got? && AllWs(p.rest)
    ensures Spells(raw, ParseValue(raw[WsLength(raw)..]).value)
  {
    var n := WsLength(raw);
    var p := ParseValue(raw[n..]);
    WriteOfParse(raw[n..]);
    assert raw == raw[..n] + Write(p.value, p.rest);
  }

  /** Non-empty bytes are accepted exactly when they spell an object, and the result is the canonical text of its value. */
  lemma {:induction false} CanonicalObjectCorrect(raw: string, v: Value)
    requires raw != ""
    ensures Denotes(raw, v) ==> Good(v) && CanonicalObject(raw) == Success(Print(v))
    ensures CanonicalObject(raw).Success? ==> exists w :: Denotes(raw, w)
  {
    if Denotes(raw, v) {
      var c :| Spells(raw, c) && IsObject(c) && Nested(c, MAX_NESTING) && Meaning(c) == v;
      SpelledTreeIsParsed(raw, c);
      MeaningIsGood(c);
    }
    if CanonicalObject(raw).Success? {
      ParsedTreeIsSpelled(raw);
      assert Denotes(raw, Meaning(ParseValue(raw[WsLength(raw)..]).value));
    }
  }

  /** A text has at most one value. */
  lemma DenotesUnique(raw: string, v: Value, w: Value)
    requires Denotes(raw, v) && Denotes(raw, w)
    ensures v == w
  {
    var c :| Spells(raw, c) && IsObject(c) && Nested(c, MAX_NESTING) && Meaning(c) == v;
    var d :| Spells(raw, d) && IsObject(d) && Nested(d, MAX_NESTING) && Meaning(d) == w;
    SpelledTreeIsParsed(raw, c);
    SpelledTreeIsParsed(raw, d);
  }

  /** Two objects have one canonical text exactly when they denote one value. */
  lemma CanonicalTextDecidesValue(raw1: string, v1: Value, raw2: string, v2: Value)
    requires Denotes(raw1, v1) && Denotes(raw2, v2)
    ensures CanonicalObject(raw1) == CanonicalObject(raw2) <==> v1 == v2
  {
    SpellsNonEmpty(raw1, v1);
    SpellsNonEmpty(raw2, v2);
    CanonicalObjectCorrect(raw1, v1);
    CanonicalObjectCorrect(raw2, v2);
    if CanonicalObject(raw1) == CanonicalObject(raw2) {
      PrintInjective(v1, v2);
    }
  }

  lemma SpellsNonEmpty(raw: string, v: Value)
    requires Denotes(raw, v)
    ensures raw != ""
  {
    var c :| Spells(raw, c) && IsObject(c) && Nested(c, MAX_NESTING) && Meaning(c) == v;
    SpelledTreeIsParsed(raw, c);
  }

  lemma TreeOf(raw: string, v: Value) returns (c: Cst)
    requires Denotes(raw, v)
    ensures Valid(c) && Spells(raw, c) && IsObject(c) && Nested(c, MAX_NESTING) && Meaning(c) == v
  {
    c :| Spells(raw, c) && IsObject(c) && Nested(c, MAX_NESTING) && Meaning(c) == v;
  }

  lemma {:induction false} SpelledByItself(c: Cst)
    requires Valid(c)
    ensures Spells(Write(c, ""), c)
  {
    hide Write, Valid;
    var pre, post := "", "";
    assert AllWs(pre) && AllWs(post) && Write(c, "") == pre + Write(c, post);
  }

  /** The canonical text denotes the value of the original. */
  lemma CanonicalTextDenotes(raw: string, v: Value)
    requires Denotes(raw, v)
    ensures CanonicalObject(raw).Success? && Denotes(CanonicalObject(raw).value, v)
  {
    hide CanonicalObject, Spells, Write, Valid, Nested;
    SpellsNonEmpty(raw, v);
    CanonicalObjectCorrect(raw, v);
    var c := TreeOf(raw, v);
    MeaningIsShallow(c, MAX_NESTING);
    MeaningOfCanon(v);
    CanonIsNested(v, MAX_NESTING);
    SpelledByItself(Canon(v));
  }

  /** Canonicalizing a second time changes nothing. */
  lemma CanonicalizeTwice(raw: string)
    requires CanonicalObject(raw).Success?
    ensures CanonicalObject(CanonicalObject(raw).value) == CanonicalObject(raw)
  {
    if raw != "" {
      CanonicalObjectCorrect(raw, JNull);
      var v :| Denotes(raw, v);
      CanonicalTextDenotes(raw, v);
      var text := CanonicalObject(raw).value;
      CanonicalTextDecidesValue(raw, v, text, v);
    }
  }
}
