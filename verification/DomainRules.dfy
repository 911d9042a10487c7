/** The rules of a valid transaction in their own words. */
module DomainRules {
  import opened Wrappers
  import opened JsonText
  import opened CanonicalJson
  import opened JsonGrammar
  import opened Timestamps
  import opened Domain

  /** A decimal: an optional minus sign, digits, and optionally a point with more digits. */
  ghost predicate DecimalOf(s: string, sign: string, whole: string, fraction: string) {
    && s == sign + (whole + fraction) && (sign == "" || sign == "-")
    && Digits(whole) && (fraction == "" || (fraction[0] == '.' && Digits(fraction[1..])))
  }

  lemma WholeReads(whole: string, fraction: string)
    requires Digits(whole) && (fraction == "" || (fraction[0] == '.' && Digits(fraction[1..])))
    ensures var s := whole + fraction; s[0] != '-' && IsDecimal(s) && IsDecimal("-" + s)
  {
    var s := whole + fraction;
    DigitCountIs(whole, fraction);
    if fraction != "" {
      AllCounted(fraction[1..]);
      assert s[|whole| + 1..] == fraction[1..];
    }
    assert ("-" + s)[1..] == s;
  }

  lemma WholeSplits(s: string) returns (whole: string, fraction: string)
    requires s != "" && s[0] != '-' && IsDecimal(s)
    ensures s == whole + fraction && Digits(whole) && (fraction == "" || (fraction[0] == '.' && Digits(fraction[1..])))
  {
    var n := DigitCount(s);
    whole, fraction := s[..n], s[n..];
    if n < |s| {
      AllCounted(s[n + 1..]);
      assert fraction[1..] == s[n + 1..];
    }
  }

  lemma DecimalSplits(s: string)
    requires IsDecimal(s)
    ensures exists sign, whole, fraction :: DecimalOf(s, sign, whole, fraction)
  {
    var minus := s[0] == '-';
    var whole, fraction := WholeSplits(if minus then s[1..] else s);
    assert DecimalOf(s, if minus then "-" else "", whole, fraction);
  }

  lemma DecimalReads(s: string, sign: string, whole: string, fraction: string)
    requires DecimalOf(s, sign, whole, fraction)
    ensures IsDecimal(s)
  {
    WholeReads(whole, fraction);
    assert s == whole + fraction || s == "-" + (whole + fraction);
  }

  /** The amount pattern accepts exactly the decimals. */
  lemma DecimalExactly(s: string)
    ensures IsDecimal(s) <==> exists sign, whole, fraction :: DecimalOf(s, sign, whole, fraction)
  {
    hide IsDecimal, DecimalOf;
    if IsDecimal(s) {
      DecimalSplits(s);
    }
    forall sign, whole, fraction | DecimalOf(s, sign, whole, fraction) ensures IsDecimal(s) {
      DecimalReads(s, sign, whole, fraction);
    }
  }

  ghost predicate AbsentOrObject(raw: string) {
    raw == "" || exists v :: Denotes(raw, v)
  }

  lemma ObjectExactly(raw: string)
    ensures CanonicalObject(raw).Success? <==> AbsentOrObject(raw)
  {
    hide Denotes;
    if raw != "" {
      CanonicalObjectCorrect(raw, JNull);
      forall v | Denotes(raw, v) ensures CanonicalObject(raw).Success? {
        CanonicalObjectCorrect(raw, v);
      }
    }
  }

  // ----- Validation

  /** The code points that Unicode counts as white space. */
  const WHITE_SPACE: set<int> := {
    0x09, 0x0A, 0x0B, 0x0C, 0x0D, 0x20, 0x85, 0xA0, 0x1680, 0x2000, 0x2001, 0x2002, 0x2003, 0x2004, 0x2005, 0x2006, 0x2007,
    0x2008, 0x2009, 0x200A, 0x2028, 0x2029, 0x202F, 0x205F, 0x3000 }

  lemma SpaceExactly(c: char)
    ensures IsSpace(c) <==> c as int in WHITE_SPACE
  {
  }

  lemma BlankExactly(s: string)
    ensures Blank(s) <==> forall c | c in s :: c as int in WHITE_SPACE
  {
    hide IsSpace;
    forall c ensures IsSpace(c) <==> c as int in WHITE_SPACE {
      SpaceExactly(c);
    }
    assert forall i | 0 <= i < |s| :: s[i] in s;
  }

  ghost predicate Breaks(t: Transaction, allowedTypes: set<string>, rule: Invalid) {
    match rule
    case BadSource => |t.source| == 0 || |t.source| > 64
    case BadReference => |t.sourceReference| == 0 || |t.sourceReference| > 128
    case NoType => t.transactionType == ""
    case UnknownType => t.transactionType !in allowedTypes
    case NoTime => t.time == ZERO
    case NotUtc => t.offset != 0
    case BadAmount => !(exists sign, whole, fraction :: DecimalOf(t.baseAmount, sign, whole, fraction))
    case LongCurrency => |t.currency| > 8
    case NoVehicle => t.plate == None && forall c | c in t.transponder :: c as int in WHITE_SPACE
    case BadPlate =>
      && t.plate.Some?
      && (|t.plate.value.number| == 0 || |t.plate.value.number| > 16
          || |t.plate.value.jurisdiction| == 0 || |t.plate.value.jurisdiction| > 8)
    case LongTransponder => |t.transponder| > 64
    case BadLocation => !AbsentOrObject(t.locationRaw)
    case BadMetadata => !AbsentOrObject(t.metadataRaw)
  }

  /** The order in which the rules are looked at. */
  const RULES: seq<Invalid> := [
    BadSource, BadReference, NoType, UnknownType, NoTime, NotUtc, BadAmount, LongCurrency, NoVehicle, BadPlate,
    LongTransponder, BadLocation, BadMetadata ]

  ghost predicate BreaksFirst(t: Transaction, allowedTypes: set<string>, i: nat) {
    i < |RULES| && Breaks(t, allowedTypes, RULES[i]) && forall j | 0 <= j < i :: !Breaks(t, allowedTypes, RULES[j])
  }

  /** A transaction is valid exactly when it breaks no rule, and is refused for the first one it breaks. */
  lemma ValidateExactly(t: Transaction, allowedTypes: set<string>)
    ensures Validate(t, allowedTypes).None? <==> forall rule :: !Breaks(t, allowedTypes, rule)
    ensures forall i: nat | BreaksFirst(t, allowedTypes, i) :: Validate(t, allowedTypes) == Some(RULES[i])
  {
    hide IsDecimal, CanonicalObject, AbsentOrObject, DecimalOf, Blank, WHITE_SPACE;
    DecimalExactly(t.baseAmount);
    ObjectExactly(t.locationRaw);
    ObjectExactly(t.metadataRaw);
    BlankExactly(t.transponder);
    if Validate(t, allowedTypes).Some? {
      assert Breaks(t, allowedTypes, Validate(t, allowedTypes).value);
    }
    forall i: nat | BreaksFirst(t, allowedTypes, i) ensures Validate(t, allowedTypes) == Some(RULES[i]) {
      FirstRule(t, allowedTypes, i);
    }
  }

  lemma FirstRule(t: Transaction, allowedTypes: set<string>, i: nat)
    requires BreaksFirst(t, allowedTypes, i)
    ensures Validate(t, allowedTypes) == Some(RULES[i])
  {
    hide IsDecimal, CanonicalObject, AbsentOrObject, DecimalOf, Blank, WHITE_SPACE;
    DecimalExactly(t.baseAmount);
    ObjectExactly(t.locationRaw);
    ObjectExactly(t.metadataRaw);
    BlankExactly(t.transponder);
    RulesInOrder();
    var rule := RULES[i];
    forall j | 0 <= j < i ensures !Breaks(t, allowedTypes, RULES[j]) {
    }
  }

  lemma RulesInOrder()
    ensures |RULES| == 13
    ensures RULES[0] == BadSource && RULES[1] == BadReference && RULES[2] == NoType && RULES[3] == UnknownType
    ensures RULES[4] == NoTime && RULES[5] == NotUtc && RULES[6] == BadAmount && RULES[7] == LongCurrency
    ensures RULES[8] == NoVehicle && RULES[9] == BadPlate && RULES[10] == LongTransponder
    ensures RULES[11] == BadLocation && RULES[12] == BadMetadata
  {
  }
}
