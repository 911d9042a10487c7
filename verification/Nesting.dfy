/**
 How deep raw messages nest, and how deep a message may nest to be decoded again inside the
 record it was marshalled into.
 */
module Nesting {
  import opened JsonText
  import opened CanonicalJson
  import opened Compact

  // ----- Decoding a message inside its record

  /** A tree as the innermost field of so many objects, one inside the other. */
  function Enclosed(c: Cst, objects: nat): Cst {
    if objects == 0 then c else Object(LastMember("", [], "", "", Enclosed(c, objects - 1), ""))
  }

  /**
   Whether a marshalled raw message can be decoded again behind so many enclosing objects:
   the decoder's nesting limit is on the whole text, the encoder's on the message alone.
   */
  predicate Decodable(raw: string, objects: nat) {
    raw == "" ||
    var p := ParseValue(raw[WsLength(raw)..]);
    p.Got? && AllWs(p.rest) && Nested(Enclosed(Strip(p.value), objects), MAX_NESTING)
  }

  /** Absent, or JSON whose arrays and objects nest no deeper than this. */
  predicate NestsWithin(raw: string, depth: nat) {
    raw == "" ||
    var p := ParseValue(raw[WsLength(raw)..]);
    p.Got? && AllWs(p.rest) && Nested(p.value, depth)
  }

  lemma {:induction false} EnclosedNested(c: Cst, objects: nat, depth: nat)
    ensures Nested(Enclosed(c, objects), depth) <==> objects <= depth && Nested(c, depth - objects)
  {
    if objects > 0 && depth > 0 {
      EnclosedNested(c, objects - 1, depth - 1);
    }
  }

  /** Every enclosing object takes one level away. */
  lemma DecodableExactly(raw: string, objects: nat)
    requires objects <= MAX_NESTING
    ensures Decodable(raw, objects) <==> NestsWithin(raw, MAX_NESTING - objects)
  {
    hide Nested, Enclosed, Strip, ParseValue;
    var p := ParseValue(raw[WsLength(raw)..]);
    if p.Got? {
      EnclosedNested(Strip(p.value), objects, MAX_NESTING);
      StripNested(p.value, MAX_NESTING - objects);
    }
  }

  lemma {:induction false} DeeperLimit(c: Cst, depth: nat, more: nat)
    requires Nested(c, depth) && depth <= more
    ensures Nested(c, more)
    decreases c
  {
    match c {
      case Array(items) => DeeperItemsLimit(items, depth - 1, more - 1);
      case Object(members) => DeeperMembersLimit(members, depth - 1, more - 1);
      case _ =>
    }
  }

  lemma {:induction false} DeeperItemsLimit(items: Items, depth: nat, more: nat)
    requires NestedItems(items, depth) && depth <= more
    ensures NestedItems(items, more)
    decreases items
  {
    DeeperLimit(items.value, depth, more);
    if items.MoreItems? {
      DeeperItemsLimit(items.rest, depth, more);
    }
  }

  lemma {:induction false} DeeperMembersLimit(m: Members, depth: nat, more: nat)
    requires NestedMembers(m, depth) && depth <= more
    ensures NestedMembers(m, more)
    decreases m
  {
    DeeperLimit(m.value, depth, more);
    if m.MoreMembers? {
      DeeperMembersLimit(m.rest, depth, more);
    }
  }

  lemma NestsDeeper(raw: string, depth: nat, more: nat)
    requires NestsWithin(raw, depth) && depth <= more
    ensures NestsWithin(raw, more)
  {
    hide Nested;
    if raw != "" {
      DeeperLimit(ParseValue(raw[WsLength(raw)..]).value, depth, more);
    }
  }

  // ----- Deep objects

  /** Empty arrays inside arrays. */
  function Arrays(depth: nat): Cst {
    if depth <= 1 then EmptyArray("") else Array(LastItem("", Arrays(depth - 1), ""))
  }

  /** An object with one member, nested this deep. */
  function DeepTree(depth: nat): Cst
    requires depth >= 2
  {
    Object(LastMember("", [Plain('a')], "", "", Arrays(depth - 1), ""))
  }

  function DeepObject(depth: nat): string
    requires depth >= 2
  {
    Write(DeepTree(depth), "")
  }

  lemma {:induction false} ArraysNest(depth: nat, limit: nat)
    requires depth >= 1
    ensures Valid(Arrays(depth)) && (Nested(Arrays(depth), limit) <==> depth <= limit)
  {
    if depth > 1 {
      ArraysNest(depth - 1, if limit > 0 then limit - 1 else 0);
    }
  }

  /** A deep object is accepted up to the limit and nests exactly as deep as it says. */
  lemma DeepObjectNests(depth: nat, limit: nat)
    requires 2 <= depth <= MAX_NESTING
    ensures DeepObject(depth) != "" && CanonicalObject(DeepObject(depth)).Success?
    ensures NestsWithin(DeepObject(depth), limit) <==> depth <= limit
  {
    hide Arrays, Write, CanonicalObject, ParseValue;
    var c, raw := DeepTree(depth), DeepObject(depth);
    ArraysNest(depth - 1, MAX_NESTING - 1);
    ArraysNest(depth - 1, if limit > 0 then limit - 1 else 0);
    DeepTreeIs(depth, limit);
    SpelledByItself(c);
    SpelledTreeIsParsed(raw, c);
    assert Denotes(raw, Meaning(c));
    CanonicalObjectCorrect(raw, Meaning(c));
  }

  lemma {:induction false} DeepTreeIs(depth: nat, limit: nat)
    requires depth >= 2 && Valid(Arrays(depth - 1))
    ensures Valid(DeepTree(depth)) && IsObject(DeepTree(depth))
    ensures Nested(DeepTree(depth), limit) <==> limit > 0 && Nested(Arrays(depth - 1), limit - 1)
    ensures Nested(DeepTree(depth), MAX_NESTING) <==> Nested(Arrays(depth - 1), MAX_NESTING - 1)
  {
    hide Arrays;
  }
}
