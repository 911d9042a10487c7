/**
 What marshalling makes of an embedded raw message: it must be JSON, loses its whitespace
 and has five characters escaped.
 */
module Compact {
  import opened Wrappers
  import opened Ordering
  import opened JsonText
  import opened CanonicalJson

  function Escaped(p: Piece): Piece {
    match p
    case Plain('<') => Unicode('0', '0', '3', 'c')
    case Plain('>') => Unicode('0', '0', '3', 'e')
    case Plain('&') => Unicode('0', '0', '2', '6')
    case Plain('\U{2028}') => Unicode('2', '0', '2', '8')
    case Plain('\U{2029}') => Unicode('2', '0', '2', '9')
    case _ => p
  }

  function EscapedAll(pieces: seq<Piece>): (s: seq<Piece>)
    ensures |s| == |pieces|
  {
    if pieces == [] then [] else [Escaped(pieces[0])] + EscapedAll(pieces[1..])
  }

  function Strip(c: Cst): Cst {
    match c
    case Text(pieces) => Text(EscapedAll(pieces))
    case EmptyArray(_) => EmptyArray("")
    case EmptyObject(_) => EmptyObject("")
    case Array(items) => Array(StripItems(items))
    case Object(members) => Object(StripMembers(members))
    case _ => c
  }

  function StripItems(items: Items): Items {
    match items
    case LastItem(_, value, _) => LastItem("", Strip(value), "")
    case MoreItems(_, value, _, rest) => MoreItems("", Strip(value), "", StripItems(rest))
  }

  function StripMembers(m: Members): Members {
    match m
    case LastMember(_, key, _, _, value, _) => LastMember("", EscapedAll(key), "", "", Strip(value), "")
    case MoreMembers(_, key, _, _, value, _, rest) =>
      MoreMembers("", EscapedAll(key), "", "", Strip(value), "", StripMembers(rest))
  }

  /** The embedded text, or nothing when the message is not JSON. */
  function Compacted(raw: string): Option<string> {
    var p := ParseValue(raw[WsLength(raw)..]);
    if p.Got? && AllWs(p.rest) && Nested(p.value, MAX_NESTING) then Some(Write(Strip(p.value), "")) else None
  }

  // ----- Marshalling keeps the value

  lemma {:induction false} EscapedBehind(pieces: seq<Piece>, n: nat)
    requires n <= |pieces|
    ensures EscapedAll(pieces)[n..] == EscapedAll(pieces[n..])
  {
    if n > 0 {
      EscapedBehind(pieces[1..], n - 1);
      assert EscapedAll(pieces)[n..] == EscapedAll(pieces)[1..][n - 1..];
      assert EscapedAll(pieces)[1..] == EscapedAll(pieces[1..]);
      assert pieces[n..] == pieces[1..][n - 1..];
    } else {
      assert EscapedAll(pieces)[0..] == EscapedAll(pieces) && pieces[0..] == pieces;
    }
  }

  lemma {:induction false} EscapedValid(pieces: seq<Piece>)
    requires ValidPieces(pieces)
    ensures ValidPieces(EscapedAll(pieces))
  {
    if pieces != [] {
      EscapedValid(pieces[1..]);
    }
  }

  /** An escaped character stands alone and for itself. */
  lemma EscapedOne(p: Piece)
    requires p.Valid()
    ensures Escaped(p).Valid()
    ensures Escaped(p) == p || (p.Plain? && Escaped(p).Unicode? && !IsSurrogate(Unit(Escaped(p))) && Unit(Escaped(p)) as char == p.c)
  {
  }

  lemma {:induction false} DecodeEscaped(pieces: seq<Piece>)
    requires ValidPieces(pieces)
    ensures ValidPieces(EscapedAll(pieces)) && Decode(EscapedAll(pieces)) == Decode(pieces)
  {
    hide Escaped, Unit;
    EscapedValid(pieces);
    if pieces != [] {
      EscapedOne(pieces[0]);
      EscapedBehind(pieces, 1);
      DecodeEscaped(pieces[1..]);
      if |pieces| > 1 {
        EscapedOne(pieces[1]);
        EscapedBehind(pieces, 2);
        DecodeEscaped(pieces[2..]);
        assert EscapedAll(pieces)[1] == Escaped(pieces[1]);
      }
    }
  }

  lemma {:induction false} StripMeaning(c: Cst)
    requires Valid(c)
    ensures Valid(Strip(c)) && Meaning(Strip(c)) == Meaning(c)
    decreases c
  {
    hide Decode, EscapedAll;
    match c {
      case Text(pieces) => DecodeEscaped(pieces);
      case Array(items) => StripItemsMeaning(items);
      case Object(members) => StripMembersMeaning(members);
      case _ =>
    }
  }

  lemma {:induction false} StripItemsMeaning(items: Items)
    requires ValidItems(items)
    ensures ValidItems(StripItems(items)) && ItemsMeaning(StripItems(items)) == ItemsMeaning(items)
    decreases items
  {
    hide Valid, Meaning, Strip;
    StripMeaning(items.value);
    if items.MoreItems? {
      StripItemsMeaning(items.rest);
    }
  }

  lemma {:induction false} StripMembersMeaning(m: Members)
    requires ValidMembers(m)
    ensures ValidMembers(StripMembers(m)) && MembersMeaning(StripMembers(m)) == MembersMeaning(m)
    decreases m
  {
    hide Valid, Meaning, Strip, Decode, EscapedAll;
    DecodeEscaped(m.key);
    StripMeaning(m.value);
    if m.MoreMembers? {
      StripMembersMeaning(m.rest);
    }
  }

  lemma {:induction false} StripNested(c: Cst, depth: nat)
    ensures Nested(Strip(c), depth) <==> Nested(c, depth)
    decreases c
  {
    if depth > 0 {
      match c {
        case Array(items) => StripItemsNested(items, depth - 1);
        case Object(members) => StripMembersNested(members, depth - 1);
        case _ =>
      }
    }
  }

  lemma {:induction false} StripItemsNested(items: Items, depth: nat)
    ensures NestedItems(StripItems(items), depth) <==> NestedItems(items, depth)
    decreases items
  {
    StripNested(items.value, depth);
    if items.MoreItems? {
      StripItemsNested(items.rest, depth);
    }
  }

  lemma {:induction false} StripMembersNested(m: Members, depth: nat)
    ensures NestedMembers(StripMembers(m), depth) <==> NestedMembers(m, depth)
    decreases m
  {
    StripNested(m.value, depth);
    if m.MoreMembers? {
      StripMembersNested(m.rest, depth);
    }
  }

  /** The marshalled copy of an object loses its spelling but not its value. */
  lemma CompactKeepsValue(raw: string, v: Value)
    requires Denotes(raw, v)
    ensures Compacted(raw).Some? && Denotes(Compacted(raw).value, v)
  {
    hide Spells, Write, Valid, Nested, Meaning;
    var c := TreeOf(raw, v);
    SpelledTreeIsParsed(raw, c);
    StripMeaning(c);
    StripNested(c, MAX_NESTING);
    SpelledByItself(Strip(c));
    assert IsObject(Strip(c));
  }

  // ----- What marshalled text looks like

  /** None of the five characters that marshalled text never holds. */
  predicate Safe(s: string) {
    forall i | 0 <= i < |s| :: s[i] != '<' && s[i] != '>' && s[i] != '&' && s[i] != '\U{2028}' && s[i] != '\U{2029}'
  }

  predicate BarePieces(pieces: seq<Piece>) {
    forall i | 0 <= i < |pieces| && pieces[i].Plain? :: Safe([pieces[i].c])
  }

  /** A tree without whitespace between its tokens whose strings are safe. */
  predicate Bare(c: Cst)
    decreases c
  {
    match c
    case Text(pieces) => BarePieces(pieces)
    case EmptyArray(ws) => ws == ""
    case EmptyObject(ws) => ws == ""
    case Array(items) => BareItems(items)
    case Object(members) => BareMembers(members)
    case _ => true
  }

  predicate BareItems(items: Items)
    decreases items
  {
    items.pre == "" && items.post == "" && Bare(items.value) && (items.MoreItems? ==> BareItems(items.rest))
  }

  predicate BareMembers(m: Members)
    decreases m
  {
    m.pre == "" && m.mid == "" && m.gap == "" && m.post == "" && BarePieces(m.key) && Bare(m.value)
    && (m.MoreMembers? ==> BareMembers(m.rest))
  }

  lemma {:induction false} EscapedIsBare(pieces: seq<Piece>)
    ensures BarePieces(EscapedAll(pieces))
  {
    if pieces != [] {
      EscapedIsBare(pieces[1..]);
    }
  }

  lemma {:induction false} StripIsBare(c: Cst)
    ensures Bare(Strip(c))
    decreases c
  {
    match c {
      case Text(pieces) => EscapedIsBare(pieces);
      case Array(items) => StripItemsBare(items);
      case Object(members) => StripMembersBare(members);
      case _ =>
    }
  }

  lemma {:induction false} StripItemsBare(items: Items)
    ensures BareItems(StripItems(items))
    decreases items
  {
    StripIsBare(items.value);
    if items.MoreItems? {
      StripItemsBare(items.rest);
    }
  }

  lemma {:induction false} StripMembersBare(m: Members)
    ensures BareMembers(StripMembers(m))
    decreases m
  {
    EscapedIsBare(m.key);
    StripIsBare(m.value);
    if m.MoreMembers? {
      StripMembersBare(m.rest);
    }
  }

  lemma {:induction false} PiecesAreSafe(pieces: seq<Piece>, rest: string)
    requires ValidPieces(pieces) && BarePieces(pieces) && Safe(rest)
    ensures Safe(WritePieces(pieces, rest))
  {
    if pieces != [] {
      PiecesAreSafe(pieces[1..], rest);
      PieceIsSafe(pieces[0]);
    }
  }

  lemma PieceIsSafe(p: Piece)
    requires p.Valid() && (p.Plain? ==> Safe([p.c]))
    ensures Safe(p.Render())
  {
  }

  lemma {:induction false} BareIsSafe(c: Cst, rest: string)
    requires Valid(c) && Bare(c) && Safe(rest)
    ensures Safe(Write(c, rest))
    decreases c, 1
  {
    hide IsNumber, WriteItems, WriteMembers;
    match c {
      case Text(pieces) => PiecesAreSafe(pieces, rest);
      case Array(items) => ItemsAreSafe(items, rest);
      case Object(members) => MembersAreSafe(members, rest);
      case _ =>
    }
  }

  lemma {:induction false} ItemsAreSafe(items: Items, rest: string)
    requires ValidItems(items) && BareItems(items) && Safe(rest)
    ensures Safe(WriteItems(items, rest))
    decreases items
  {
    hide Write, Bare, Valid;
    if items.MoreItems? {
      ItemsAreSafe(items.rest, rest);
    }
    BareIsSafe(items.value, items.post + AfterItem(items, rest));
  }

  lemma {:induction false} MembersAreSafe(m: Members, rest: string)
    requires ValidMembers(m) && BareMembers(m) && Safe(rest)
    ensures Safe(WriteMembers(m, rest))
    decreases m
  {
    hide Write, Bare, Valid;
    if m.MoreMembers? {
      MembersAreSafe(m.rest, rest);
    }
    BareIsSafe(m.value, m.post + AfterMember(m, rest));
    PiecesAreSafe(m.key, m.mid + (":" + (m.gap + Write(m.value, m.post + AfterMember(m, rest)))));
  }

  /** The marshalled copy has no whitespace between its tokens and none of the five characters. */
  lemma CompactedIsSafe(raw: string)
    requires Compacted(raw).Some?
    ensures Safe(Compacted(raw).value)
    ensures exists c :: Bare(c) && Valid(c) && Compacted(raw).value == Write(c, "")
  {
    hide Valid, Write, Bare, Nested, Strip;
    var p := ParseValue(raw[WsLength(raw)..]);
    WriteOfParse(raw[WsLength(raw)..]);
    StripMeaning(p.value);
    StripIsBare(p.value);
    BareIsSafe(Strip(p.value), "");
  }

  // ----- Canonical text is marshalled as it is

  lemma {:induction false} EncodedIsEscaped(s: string)
    ensures EscapedAll(Encode(s)) == Encode(s)
  {
    if s != "" {
      EncodedIsEscaped(s[1..]);
    }
  }

  lemma {:induction false} CanonIsStripped(v: Value)
    requires Good(v)
    ensures Strip(Canon(v)) == Canon(v)
    decreases v, 1
  {
    hide Encode, EscapedAll;
    match v {
      case JString(s) => EncodedIsEscaped(s);
      case JArray(items) =>
        if items != [] {
          CanonItemsAreStripped(items);
        }
      case JObject(members) =>
        if members != map[] {
          var keys := Sort(members.Keys);
          SortCorrect(members.Keys);
          assert forall k | k in keys :: k in Elements(keys);
          CanonMembersAreStripped(v, keys);
        }
      case _ =>
    }
  }

  lemma {:induction false} CanonItemsAreStripped(vs: seq<Value>)
    requires vs != [] && forall i | 0 <= i < |vs| :: Good(vs[i])
    ensures StripItems(CanonItems(vs)) == CanonItems(vs)
    decreases vs, 0
  {
    CanonIsStripped(vs[0]);
    if |vs| > 1 {
      CanonItemsAreStripped(vs[1..]);
    }
  }

  lemma {:induction false} CanonMembersAreStripped(v: Value, keys: seq<string>)
    requires v.JObject? && Good(v) && keys != [] && forall k | k in keys :: k in v.members
    ensures StripMembers(CanonMembers(v, keys)) == CanonMembers(v, keys)
    decreases v, 0, |keys|
  {
    hide Encode, EscapedAll;
    EncodedIsEscaped(keys[0]);
    CanonIsStripped(v.members[keys[0]]);
    if |keys| > 1 {
      CanonMembersAreStripped(v, keys[1..]);
    }
  }

  /** Canonical text goes into a marshalled message unchanged. */
  lemma CanonicalTextIsCompact(raw: string)
    requires CanonicalObject(raw).Success? && raw != ""
    ensures Compacted(CanonicalObject(raw).value) == Some(CanonicalObject(raw).value)
  {
    hide Spells, Write, Valid, Nested, Meaning, Canon, CanonicalObject;
    CanonicalObjectCorrect(raw, JNull);
    var v :| Denotes(raw, v);
    CanonicalObjectCorrect(raw, v);
    CanonicalTextDenotes(raw, v);
    ValueOfCanonical(raw, v);
    CanonIsStripped(v);
  }

  lemma {:induction false} ValueOfCanonical(raw: string, v: Value)
    requires Denotes(raw, v) && Good(v)
    ensures var text := Print(v); var p := ParseValue(text[WsLength(text)..]);
            p.Got? && p.value == Canon(v) && AllWs(p.rest) && Nested(p.value, MAX_NESTING)
  {
    hide Spells, Write, Nested, Meaning, Canon;
    var c := TreeOf(raw, v);
    MeaningIsShallow(c, MAX_NESTING);
    MeaningOfCanon(v);
    CanonIsNested(v, MAX_NESTING);
    SpelledByItself(Canon(v));
    SpelledTreeIsParsed(Print(v), Canon(v));
  }
}
