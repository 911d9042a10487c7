/**
 The strings that JSON escapes stand for, by the code units of UTF-16: a \u escape writes
 one unit, and units that belong to no pair are replaced.
 */
module Utf16 {
  import opened JsonText
  import opened CanonicalJson

  predicate High(u: nat) {
    0xD800 <= u < 0xDC00
  }

  predicate Low(u: nat) {
    0xDC00 <= u < 0xE000
  }

  function Units(c: char): (units: seq<nat>)
    ensures 1 <= |units| <= 2
  {
    var code := c as int;
    if code < 0x1_0000 then [code] else [0xD800 + (code - 0x1_0000) / 0x400, 0xDC00 + (code - 0x1_0000) % 0x400]
  }

  function UnitsOf(s: string): seq<nat> {
    if s == "" then [] else Units(s[0]) + UnitsOf(s[1..])
  }

  /** The character of a two-character escape (RFC 8259 section 7). */
  const ESCAPES: map<char, nat> := map[
    '"' := 0x22, '\\' := 0x5C, '/' := 0x2F, 'b' := 0x08, 'f' := 0x0C, 'n' := 0x0A, 'r' := 0x0D, 't' := 0x09]

  const LOWER_HEX := "0123456789abcdef"
  const UPPER_HEX := "0123456789ABCDEF"

  predicate HexOf(c: char, n: nat) {
    n < 16 && (LOWER_HEX[n] == c || UPPER_HEX[n] == c)
  }

  /** The four digits of a \u escape spell this unit, in either case. */
  predicate Spelled(p: Piece, u: nat) {
    && p.Unicode? && u < 0x1_0000
    && HexOf(p.h3, u / 0x1000) && HexOf(p.h2, u / 0x100 % 0x10) && HexOf(p.h1, u / 0x10 % 0x10) && HexOf(p.h0, u % 0x10)
  }

  lemma HexExactly(c: char, n: nat)
    ensures HexOf(c, n) <==> IsHex(c) && HexValue(c) == n
  {
    if n < 16 {
      assert LOWER_HEX[n] == if n < 10 then ('0' as int + n) as char else ('a' as int + n - 10) as char;
      assert UPPER_HEX[n] == if n < 10 then ('0' as int + n) as char else ('A' as int + n - 10) as char;
    }
  }

  lemma UnitExactly(p: Piece, u: nat)
    ensures Spelled(p, u) <==> p.Unicode? && p.Valid() && Unit(p) == u
  {
    hide HexOf, HexValue, IsHex;
    if p.Unicode? && u < 0x1_0000 {
      HexExactly(p.h3, u / 0x1000);
      HexExactly(p.h2, u / 0x100 % 0x10);
      HexExactly(p.h1, u / 0x10 % 0x10);
      HexExactly(p.h0, u % 0x10);
      DigitsOf(u, if p.Valid() then HexValue(p.h3) else 0, if p.Valid() then HexValue(p.h2) else 0,
        if p.Valid() then HexValue(p.h1) else 0, if p.Valid() then HexValue(p.h0) else 0);
    }
  }

  lemma DigitsOf(u: nat, a: nat, b: nat, c: nat, d: nat)
    requires a < 0x10 && b < 0x10 && c < 0x10 && d < 0x10
    ensures ((a * 16 + b) * 16 + c) * 16 + d == u <==>
            u / 0x1000 == a && u / 0x100 % 0x10 == b && u / 0x10 % 0x10 == c && u % 0x10 == d
  {
    assert u / 0x100 == u / 0x10 / 0x10 && u / 0x1000 == u / 0x10 / 0x10 / 0x10;
  }

  /** What may stand in a string: characters from the space on but for two, eight short escapes, and any unit (RFC 8259 section 7). */
  lemma PieceExactly(p: Piece)
    ensures p.Valid() <==>
            match p
            case Plain(c) => 0x20 <= c as int <= 0x21 || 0x23 <= c as int <= 0x5B || 0x5D <= c as int
            case Escape(letter) => letter in ESCAPES
            case Unicode(_, _, _, _) => exists u: nat :: Spelled(p, u)
  {
    hide Spelled;
    if p.Unicode? {
      if p.Valid() {
        UnitExactly(p, Unit(p));
      }
      forall u: nat | Spelled(p, u) ensures p.Valid() {
        UnitExactly(p, u);
      }
    }
  }

  /** The encoder's choice for a character: two-character escapes where there are some, units for other controls and five more. */
  lemma EncoderEscapes(c: char)
    ensures EncodeChar(c).Escape? <==> c as int in {0x22, 0x5C, 0x08, 0x0C, 0x0A, 0x0D, 0x09}
    ensures EncodeChar(c).Unicode? <==>
            (c as int < 0x20 && c as int !in {0x08, 0x0C, 0x0A, 0x0D, 0x09}) || c as int in {0x3C, 0x3E, 0x26, 0x2028, 0x2029}
    ensures EncodeChar(c).Plain? ==> EncodeChar(c).c == c
    ensures EncodeChar(c).Escape? ==> ESCAPES[EncodeChar(c).letter] == c as int
    ensures EncodeChar(c).Unicode? ==> Spelled(EncodeChar(c), c as int)
  {
    hide HexOf;
    if EncodeChar(c).Unicode? {
      UnitExactly(EncodeChar(c), c as int);
    }
  }

  /** The units that the pieces of a string write. */
  function WrittenUnits(pieces: seq<Piece>): seq<nat>
    requires ValidPieces(pieces)
  {
    if pieces == [] then [] else Written(pieces[0]) + WrittenUnits(pieces[1..])
  }

  function Written(p: Piece): (units: seq<nat>)
    requires p.Valid()
    ensures units != []
  {
    match p
    case Plain(c) => Units(c)
    case Escape(l) => [ESCAPES[l]]
    case Unicode(_, _, _, _) => [Unit(p)]
  }

  /** A surrogate that is not part of a pair. */
  predicate Lone(units: seq<nat>, i: nat)
    requires i < |units|
  {
    || (High(units[i]) && !(i + 1 < |units| && Low(units[i + 1])))
    || (Low(units[i]) && !(i > 0 && High(units[i - 1])))
  }

  /** The units with the replacement character for every lone surrogate. */
  ghost predicate Replaced(units: seq<nat>, after: seq<nat>) {
    |units| == |after| && forall i | 0 <= i < |units| :: after[i] == if Lone(units, i) then 0xFFFD else units[i]
  }

  lemma ReplacedTogether(a: seq<nat>, a1: seq<nat>, b: seq<nat>, b1: seq<nat>)
    requires Replaced(a, a1) && Replaced(b, b1)
    requires a != [] && b != [] ==> !(High(a[|a| - 1]) && Low(b[0]))
    ensures Replaced(a + b, a1 + b1)
  {
    forall i | 0 <= i < |a + b| ensures (a1 + b1)[i] == if Lone(a + b, i) then 0xFFFD else (a + b)[i] {
      if i < |a| {
        assert Lone(a + b, i) <==> Lone(a, i);
      } else {
        assert Lone(a + b, i) <==> Lone(b, i - |a|);
      }
    }
  }

  /** A plain character or a short escape never writes a lone surrogate. */
  lemma WrittenAlone(p: Piece)
    requires p.Valid() && !p.Unicode?
    ensures Replaced(Written(p), Written(p)) && !High(Written(p)[|Written(p)| - 1]) && !Low(Written(p)[0])
  {
    if p.Plain? {
      CharacterAlone(p.c);
    }
  }

  lemma CharacterAlone(c: char)
    ensures Replaced(Units(c), Units(c)) && !High(Units(c)[|Units(c)| - 1]) && !Low(Units(c)[0])
  {
  }

  lemma ShortEscape(letter: char)
    requires Escape(letter).Valid()
    ensures Units(Unescape(letter)) == Written(Escape(letter))
  {
  }

  lemma PairJoined(high: nat, low: nat)
    requires High(high) && Low(low)
    ensures Units(((high - 0xD800) * 0x400 + (low - 0xDC00) + 0x1_0000) as char) == [high, low]
    ensures Replaced([high, low], [high, low])
  {
  }

  /** Decoding is reading the written units as UTF-16, with lone surrogates replaced. */
  lemma {:induction false} DecodeIsUtf16(pieces: seq<Piece>)
    requires ValidPieces(pieces)
    ensures Replaced(WrittenUnits(pieces), UnitsOf(Decode(pieces)))
    decreases |pieces|
  {
    hide Unit, Units, Unescape, Replaced, Lone;
    if pieces == [] {
      NothingReplaced();
    } else if pieces[0].Unicode? {
      UnicodeIsUtf16(pieces);
    } else {
      DecodeIsUtf16(pieces[1..]);
      WrittenAlone(pieces[0]);
      if pieces[0].Escape? {
        ShortEscape(pieces[0].letter);
      }
      OneDecoded(if pieces[0].Plain? then pieces[0].c else Unescape(pieces[0].letter), Decode(pieces[1..]));
      ReplacedTogether(Written(pieces[0]), Written(pieces[0]), WrittenUnits(pieces[1..]), UnitsOf(Decode(pieces[1..])));
    }
  }

  lemma NothingReplaced()
    ensures Replaced([], [])
  {
  }

  lemma {:induction false} OneDecoded(c: char, rest: string)
    ensures UnitsOf([c] + rest) == Units(c) + UnitsOf(rest)
  {
    assert ([c] + rest)[1..] == rest;
  }

  lemma {:induction false} UnicodeIsUtf16(pieces: seq<Piece>)
    requires ValidPieces(pieces) && pieces != [] && pieces[0].Unicode?
    ensures Replaced(WrittenUnits(pieces), UnitsOf(Decode(pieces)))
    decreases |pieces|, 0
  {
    hide Unit, Units, Unescape, Lone, Replaced, WrittenUnits, Decode, UnitsOf;
    var u := Unit(pieces[0]);
    if High(u) && |pieces| > 1 && pieces[1].Unicode? && Low(Unit(pieces[1])) {
      var low := Unit(pieces[1]);
      DecodeIsUtf16(pieces[2..]);
      PairJoined(u, low);
      PairDecoded(pieces, u, low);
      ReplacedTogether([u, low], [u, low], WrittenUnits(pieces[2..]), UnitsOf(Decode(pieces[2..])));
    } else {
      DecodeIsUtf16(pieces[1..]);
      OneReplaced(u);
      UnitDecoded(pieces, u);
      if High(u) && |pieces| > 1 {
        NextIsNotLow(pieces[1..]);
      }
      NothingWritten(pieces[1..]);
      ReplacedTogether([u], [if IsSurrogate(u) then 0xFFFD else u], WrittenUnits(pieces[1..]), UnitsOf(Decode(pieces[1..])));
    }
  }

  lemma {:induction false} NothingWritten(pieces: seq<Piece>)
    requires ValidPieces(pieces)
    ensures WrittenUnits(pieces) != [] ==> pieces != []
  {
  }

  lemma {:induction false} PairDecoded(pieces: seq<Piece>, high: nat, low: nat)
    requires ValidPieces(pieces) && |pieces| > 1 && pieces[0].Unicode? && pieces[1].Unicode?
    requires Unit(pieces[0]) == high && Unit(pieces[1]) == low && High(high) && Low(low)
    ensures WrittenUnits(pieces) == [high, low] + WrittenUnits(pieces[2..])
    ensures UnitsOf(Decode(pieces)) == [high, low] + UnitsOf(Decode(pieces[2..]))
  {
    hide Unit;
    PairJoined(high, low);
    assert pieces[1..][1..] == pieces[2..];
    OneDecoded(((high - 0xD800) * 0x400 + (low - 0xDC00) + 0x1_0000) as char, Decode(pieces[2..]));
  }

  lemma {:induction false} UnitDecoded(pieces: seq<Piece>, u: nat)
    requires ValidPieces(pieces) && pieces != [] && pieces[0].Unicode? && Unit(pieces[0]) == u
    requires !(High(u) && |pieces| > 1 && pieces[1].Unicode? && Low(Unit(pieces[1])))
    ensures WrittenUnits(pieces) == [u] + WrittenUnits(pieces[1..])
    ensures UnitsOf(Decode(pieces)) == [if IsSurrogate(u) then 0xFFFD else u] + UnitsOf(Decode(pieces[1..]))
  {
    hide Unit, Units;
    OneReplaced(u);
    OneDecoded(if IsSurrogate(u) then REPLACEMENT else u as char, Decode(pieces[1..]));
  }

  lemma OneReplaced(u: nat)
    requires u < 0x1_0000
    ensures Replaced([u], [if IsSurrogate(u) then 0xFFFD else u])
    ensures Units(if IsSurrogate(u) then REPLACEMENT else u as char) == [if IsSurrogate(u) then 0xFFFD else u]
  {
  }

  lemma {:induction false} NextIsNotLow(pieces: seq<Piece>)
    requires ValidPieces(pieces) && pieces != [] && !(pieces[0].Unicode? && Low(Unit(pieces[0])))
    ensures WrittenUnits(pieces) != [] && !Low(WrittenUnits(pieces)[0])
  {
    if !pieces[0].Unicode? {
      WrittenAlone(pieces[0]);
    }
  }

  /** A string is determined by its units. */
  lemma {:induction false} UnitsDecide(s: string, t: string)
    requires UnitsOf(s) == UnitsOf(t)
    ensures s == t
  {
    hide Units;
    if s != "" && t != "" {
      HeadDecides(s[0], UnitsOf(s[1..]), t[0], UnitsOf(t[1..]));
      UnitsDecide(s[1..], t[1..]);
      assert s == [s[0]] + s[1..] && t == [t[0]] + t[1..];
    }
  }

  lemma HeadDecides(c: char, x: seq<nat>, d: char, y: seq<nat>)
    requires Units(c) + x == Units(d) + y
    ensures c == d && x == y
  {
    var s, t := Units(c) + x, Units(d) + y;
    assert s[0] == Units(c)[0] && t[0] == Units(d)[0];
    if |Units(c)| == 2 && |Units(d)| == 2 {
      assert s[1] == Units(c)[1] && t[1] == Units(d)[1];
    }
    assert |Units(c)| == |Units(d)|;
    assert s[|Units(c)|..] == x && t[|Units(d)|..] == y;
  }
}
