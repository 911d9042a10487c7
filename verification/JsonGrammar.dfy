/**
 The grammar of RFC 8259 in its own words, for the parts that no printer of canonical text
 exercises: which texts are numbers, which whitespace is free, and which characters the
 escapes of a string stand for.
 */
module JsonGrammar {
  import opened Strings
  import opened JsonText
  import opened CanonicalJson

  // ----- Numbers (RFC 8259 section 6)

  predicate Digits(s: string) {
    s != "" && forall i | 0 <= i < |s| :: '0' <= s[i] <= '9'
  }

  ghost predicate Whole(s: string) {
    s == "0" || (Digits(s) && s[0] != '0')
  }

  ghost predicate Fraction(s: string) {
    s == "" || (s[0] == '.' && Digits(s[1..]))
  }

  ghost predicate Exponent(s: string) {
    s == "" ||
    ((s[0] == 'e' || s[0] == 'E') && (Digits(s[1..]) || (|s| > 1 && (s[1] == '+' || s[1] == '-') && Digits(s[2..]))))
  }

  /** A text falls into a sign, a whole part without leading zeros, a fraction and an exponent. */
  ghost predicate NumberOf(s: string, sign: string, whole: string, fraction: string, exponent: string) {
    && s == sign + (whole + (fraction + exponent))
    && (sign == "" || sign == "-") && Whole(whole) && Fraction(fraction) && Exponent(exponent)
  }

  lemma {:induction false} DigitCountIs(digits: string, rest: string)
    requires forall i | 0 <= i < |digits| :: '0' <= digits[i] <= '9'
    requires rest != "" ==> !('0' <= rest[0] <= '9')
    ensures DigitCount(digits + rest) == |digits|
    ensures (digits + rest)[|digits|..] == rest
  {
    if digits == "" {
      assert digits + rest == rest;
    } else {
      assert (digits + rest)[1..] == digits[1..] + rest;
      DigitCountIs(digits[1..], rest);
    }
  }

  lemma {:induction false} AllCounted(s: string)
    ensures s != "" && DigitCount(s) == |s| <==> Digits(s)
  {
    if Digits(s) {
      DigitCountIs(s, "");
      assert s + "" == s;
    }
  }

  lemma ExponentExactly(s: string)
    ensures IsExponent(s) <==> Exponent(s)
  {
    if s != "" {
      AllCounted(s[1..]);
      if |s| > 1 {
        AllCounted(s[2..]);
      }
    }
  }

  lemma FractionReads(fraction: string, exponent: string)
    requires Fraction(fraction) && Exponent(exponent)
    ensures IsFraction(fraction + exponent)
  {
    ExponentExactly(exponent);
    if fraction == "" {
      assert fraction + exponent == exponent;
    } else {
      assert (fraction + exponent)[1..] == fraction[1..] + exponent;
      DigitCountIs(fraction[1..], exponent);
      assert (fraction + exponent)[1 + |fraction[1..]|..] == exponent;
    }
  }

  lemma FractionSplits(s: string) returns (fraction: string, exponent: string)
    requires IsFraction(s)
    ensures s == fraction + exponent && Fraction(fraction) && Exponent(exponent)
  {
    if s != "" && s[0] == '.' {
      var n := DigitCount(s[1..]);
      fraction, exponent := s[..1 + n], s[1 + n..];
      assert fraction[1..] == s[1..][..n];
    } else {
      fraction, exponent := "", s;
    }
    ExponentExactly(exponent);
  }

  lemma UnsignedReads(whole: string, fraction: string, exponent: string)
    requires Whole(whole) && Fraction(fraction) && Exponent(exponent)
    ensures IsUnsigned(whole + (fraction + exponent))
  {
    FractionReads(fraction, exponent);
    DigitCountIs(whole, fraction + exponent);
  }

  lemma UnsignedSplits(s: string) returns (whole: string, fraction: string, exponent: string)
    requires IsUnsigned(s)
    ensures s == whole + (fraction + exponent) && Whole(whole) && Fraction(fraction) && Exponent(exponent)
  {
    var n := DigitCount(s);
    whole := s[..n];
    fraction, exponent := FractionSplits(s[n..]);
    if s[0] == '0' {
      assert whole == "0";
    }
  }

  lemma NumberSplits(s: string)
    requires IsNumber(s)
    ensures exists sign, whole, fraction, exponent :: NumberOf(s, sign, whole, fraction, exponent)
  {
    hide IsUnsigned, Fraction, Exponent, Whole;
    var minus := s[0] == '-';
    var whole, fraction, exponent := UnsignedSplits(if minus then s[1..] else s);
    assert NumberOf(s, if minus then "-" else "", whole, fraction, exponent);
  }

  lemma NumberReads(s: string, sign: string, whole: string, fraction: string, exponent: string)
    requires NumberOf(s, sign, whole, fraction, exponent)
    ensures IsNumber(s)
  {
    hide IsUnsigned, Fraction, Exponent;
    UnsignedReads(whole, fraction, exponent);
    if sign == "-" {
      assert s[1..] == whole + (fraction + exponent);
    } else {
      assert s == whole + (fraction + exponent);
      assert s[0] == whole[0];
    }
  }

  /** The number scanner accepts exactly the numbers of the grammar. */
  lemma NumberExactly(s: string)
    ensures IsNumber(s) <==> exists sign, whole, fraction, exponent :: NumberOf(s, sign, whole, fraction, exponent)
  {
    hide IsNumber, NumberOf;
    if IsNumber(s) {
      NumberSplits(s);
    }
    forall sign, whole, fraction, exponent | NumberOf(s, sign, whole, fraction, exponent) ensures IsNumber(s) {
      NumberReads(s, sign, whole, fraction, exponent);
    }
  }

  // ----- Whitespace (RFC 8259 section 2)

  predicate Blanks(s: string) {
    forall i | 0 <= i < |s| :: s[i] == '\U{0020}' || s[i] == '\U{0009}' || s[i] == '\U{000A}' || s[i] == '\U{000D}'
  }

  /** Exactly space, tab, line feed and carriage return are free around an object. */
  lemma WhitespaceIsFree(raw: string, v: Value, before: string, behind: string)
    requires Denotes(raw, v) && Blanks(before) && Blanks(behind)
    ensures Denotes(before + raw + behind, v)
    ensures CanonicalObject(before + raw + behind) == CanonicalObject(raw)
  {
    hide CanonicalObject, Valid, Nested, Write, Meaning;
    var c := TreeOf(raw, v);
    var pre, post :| AllWs(pre) && AllWs(post) && raw == pre + Write(c, post);
    WriteBehind(c, post, behind);
    assert AllWs(before + pre) && AllWs(post + behind);
    assert before + raw + behind == (before + pre) + Write(c, post + behind);
    assert Spells(before + raw + behind, c);
    SpellsNonEmpty(raw, v);
    CanonicalObjectCorrect(raw, v);
    CanonicalObjectCorrect(before + raw + behind, v);
  }

  lemma OnlyBlanksLead(raw: string)
    requires raw != "" && CanonicalObject(raw).Success?
    ensures exists n | 0 <= n < |raw| :: Blanks(raw[..n]) && raw[n] == '{'
  {
    hide CanonicalObject, Valid, Nested, Meaning;
    CanonicalObjectCorrect(raw, JNull);
    var v :| Denotes(raw, v);
    var c := TreeOf(raw, v);
    var pre, post :| AllWs(pre) && AllWs(post) && raw == pre + Write(c, post);
    assert raw[..|pre|] == pre && raw[|pre|] == Write(c, post)[0];
  }

  // What follows a text is written behind it.

  lemma {:induction false} PiecesBehind(pieces: seq<Piece>, rest: string, behind: string)
    ensures WritePieces(pieces, rest + behind) == WritePieces(pieces, rest) + behind
  {
    if pieces == [] {
      Assoc("\"", rest, behind);
    } else {
      PiecesBehind(pieces[1..], rest, behind);
      Assoc(pieces[0].Render(), WritePieces(pieces[1..], rest), behind);
    }
  }

  lemma {:induction false} WriteBehind(c: Cst, rest: string, behind: string)
    ensures Write(c, rest + behind) == Write(c, rest) + behind
    decreases c, 2
  {
    hide WriteItems, WriteMembers, WritePieces;
    match c {
      case Text(pieces) =>
        PiecesBehind(pieces, rest, behind);
        Assoc("\"", WritePieces(pieces, rest), behind);
      case EmptyArray(ws) =>
        Assoc("]", rest, behind);
        Assoc(ws, "]" + rest, behind);
        Assoc("[", ws + ("]" + rest), behind);
      case EmptyObject(ws) =>
        Assoc("}", rest, behind);
        Assoc(ws, "}" + rest, behind);
        Assoc("{", ws + ("}" + rest), behind);
      case Array(items) =>
        ItemsBehind(items, rest, behind);
        Assoc("[", WriteItems(items, rest), behind);
      case Object(members) =>
        MembersBehind(members, rest, behind);
        Assoc("{", WriteMembers(members, rest), behind);
      case Number(lexeme) => Assoc(lexeme, rest, behind);
      case Null => Assoc("null", rest, behind);
      case True => Assoc("true", rest, behind);
      case False => Assoc("false", rest, behind);
    }
  }

  lemma {:induction false} ItemsBehind(items: Items, rest: string, behind: string)
    ensures WriteItems(items, rest + behind) == WriteItems(items, rest) + behind
    decreases items, 1
  {
    hide Write;
    if items.MoreItems? {
      ItemsBehind(items.rest, rest, behind);
      Assoc(",", WriteItems(items.rest, rest), behind);
    } else {
      Assoc("]", rest, behind);
    }
    Assoc(items.post, AfterItem(items, rest), behind);
    WriteBehind(items.value, items.post + AfterItem(items, rest), behind);
    Assoc(items.pre, Write(items.value, items.post + AfterItem(items, rest)), behind);
  }

  lemma {:induction false} MembersBehind(m: Members, rest: string, behind: string)
    ensures WriteMembers(m, rest + behind) == WriteMembers(m, rest) + behind
    decreases m, 1
  {
    hide Write;
    if m.MoreMembers? {
      MembersBehind(m.rest, rest, behind);
      Assoc(",", WriteMembers(m.rest, rest), behind);
    } else {
      Assoc("}", rest, behind);
    }
    Assoc(m.post, AfterMember(m, rest), behind);
    WriteBehind(m.value, m.post + AfterMember(m, rest), behind);
    NameBehind(m, Write(m.value, m.post + AfterMember(m, rest)), behind);
  }

  lemma NameBehind(m: Members, rest: string, behind: string)
    ensures WriteName(m.pre, m.key, m.mid, m.gap, rest + behind) == WriteName(m.pre, m.key, m.mid, m.gap, rest) + behind
  {
    Assoc(m.gap, rest, behind);
    Assoc(":", m.gap + rest, behind);
    Assoc(m.mid, ":" + (m.gap + rest), behind);
    PiecesBehind(m.key, m.mid + (":" + (m.gap + rest)), behind);
    Assoc("\"", WritePieces(m.key, m.mid + (":" + (m.gap + rest))), behind);
    Assoc(m.pre, "\"" + WritePieces(m.key, m.mid + (":" + (m.gap + rest))), behind);
  }
}
