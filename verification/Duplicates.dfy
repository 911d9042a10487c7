/** Objects that write a name more than once: the member written last counts. */
module Duplicates {
  import opened Wrappers
  import opened Ordering
  import opened Strings
  import opened JsonText
  import opened CanonicalJson

  datatype Member = Member(name: seq<Piece>, value: Cst)

  /** The members in the order in which they are written. */
  function Listed(m: Members): (list: seq<Member>)
    requires ValidMembers(m)
    ensures list != [] && forall i | 0 <= i < |list| :: ValidPieces(list[i].name) && Valid(list[i].value)
    decreases m
  {
    [Member(m.key, m.value)] + if m.MoreMembers? then Listed(m.rest) else []
  }

  ghost predicate Names(m: Members, i: nat, name: string)
    requires ValidMembers(m)
  {
    i < |Listed(m)| && Decode(Listed(m)[i].name) == name
  }

  ghost predicate NamesLast(m: Members, i: nat, name: string)
    requires ValidMembers(m)
  {
    Names(m, i, name) && forall j: nat | j > i :: !Names(m, j, name)
  }

  lemma {:induction false} NamesBehind(m: Members, i: nat, name: string)
    requires ValidMembers(m) && m.MoreMembers? && i > 0
    ensures Names(m, i, name) == Names(m.rest, i - 1, name)
    ensures i < |Listed(m)| ==> Listed(m)[i] == Listed(m.rest)[i - 1]
  {
  }

  /** An object has exactly the names that are written. */
  lemma {:induction false} NamesAreWritten(m: Members, name: string)
    requires ValidMembers(m)
    ensures name in MembersMeaning(m) <==> exists i: nat :: Names(m, i, name)
    decreases m
  {
    hide Names, Decode, Meaning;
    FirstName(m, name);
    if m.MoreMembers? {
      NamesAreWritten(m.rest, name);
      forall i: nat | Names(m, i, name) && i > 0 ensures exists k: nat :: Names(m.rest, k, name) {
        NamesBehind(m, i, name);
      }
      forall k: nat | Names(m.rest, k, name) ensures Names(m, k + 1, name) {
        NamesBehind(m, k + 1, name);
      }
    }
  }

  lemma {:induction false} FirstName(m: Members, name: string)
    requires ValidMembers(m)
    ensures Names(m, 0, name) <==> Decode(m.key) == name
    ensures m.LastMember? ==> forall i: nat | i > 0 :: !Names(m, i, name)
  {
  }

  /** Of members with one name the one that is written last gives the value. */
  lemma {:induction false} LastMemberCounts(m: Members, i: nat, name: string)
    requires ValidMembers(m) && NamesLast(m, i, name)
    ensures name in MembersMeaning(m) && MembersMeaning(m)[name] == Meaning(Listed(m)[i].value)
    decreases m
  {
    hide Names, Decode, Meaning;
    FirstName(m, name);
    NamesAreWritten(m, name);
    ListedThere(m, i, name);
    if m.MoreMembers? {
      if i == 0 {
        forall k: nat ensures !Names(m.rest, k, name) {
          NamesBehind(m, k + 1, name);
        }
        NamesAreWritten(m.rest, name);
      } else {
        forall k: nat | k > i - 1 ensures !Names(m.rest, k, name) {
          NamesBehind(m, k + 1, name);
        }
        NamesBehind(m, i, name);
        LastMemberCounts(m.rest, i - 1, name);
      }
    }
  }

  lemma {:induction false} ListedThere(m: Members, i: nat, name: string)
    requires ValidMembers(m) && Names(m, i, name)
    ensures i < |Listed(m)| && (m.LastMember? ==> i == 0) && Listed(m)[0].value == m.value
  {
  }

  /** The object without one of its members, which is not the one written last. */
  function Without(m: Members, i: nat): (w: Members)
    requires ValidMembers(m) && i + 1 < |Listed(m)|
    ensures ValidMembers(w) && Listed(w) == Listed(m)[..i] + Listed(m)[i + 1..]
    decreases m
  {
    if i == 0 then m.rest else m.(rest := Without(m.rest, i - 1))
  }

  /** A member whose name is written again behind it does not matter. */
  lemma {:induction false} EarlierMemberIsIgnored(m: Members, i: nat, j: nat)
    requires ValidMembers(m) && i < j < |Listed(m)| && Decode(Listed(m)[i].name) == Decode(Listed(m)[j].name)
    ensures MembersMeaning(Without(m, i)) == MembersMeaning(m)
    decreases m
  {
    hide Decode, Meaning, Listed;
    ListedRest(m);
    if i == 0 {
      FirstIsIgnored(m, j);
    } else {
      EarlierMemberIsIgnored(m.rest, i - 1, j - 1);
      MeaningOfMore(m);
      MeaningOfMore(Without(m, i));
    }
  }

  lemma {:induction false} ListedRest(m: Members)
    requires ValidMembers(m) && |Listed(m)| > 1
    ensures m.MoreMembers? && |Listed(m)| == |Listed(m.rest)| + 1
    ensures forall i | 0 < i < |Listed(m)| :: Listed(m)[i] == Listed(m.rest)[i - 1]
  {
  }

  lemma {:induction false} MeaningOfMore(m: Members)
    requires ValidMembers(m) && m.MoreMembers?
    ensures MembersMeaning(m) == map[Decode(m.key) := Meaning(m.value)] + MembersMeaning(m.rest)
  {
  }

  lemma {:induction false} FirstIsIgnored(m: Members, j: nat)
    requires ValidMembers(m) && 0 < j < |Listed(m)| && Decode(Listed(m)[0].name) == Decode(Listed(m)[j].name)
    ensures m.MoreMembers? && MembersMeaning(m.rest) == MembersMeaning(m)
  {
    hide Decode, Meaning;
    var name := Decode(m.key);
    assert Listed(m.rest)[j - 1] == Listed(m)[j];
    assert Names(m.rest, j - 1, name);
    NamesAreWritten(m.rest, name);
  }

  lemma {:induction false} WithoutNests(m: Members, i: nat, depth: nat)
    requires ValidMembers(m) && i + 1 < |Listed(m)| && NestedMembers(m, depth)
    ensures NestedMembers(Without(m, i), depth)
    decreases m
  {
    hide Nested;
    if i > 0 {
      WithoutNests(m.rest, i - 1, depth);
    }
  }

  /** Two raw objects that differ only by a member whose name is written again have one canonical text. */
  lemma {:induction false} EarlierDuplicateIsIgnored(m: Members, i: nat, j: nat)
    requires ValidMembers(m) && NestedMembers(m, MAX_NESTING - 1)
    requires i < j < |Listed(m)| && Decode(Listed(m)[i].name) == Decode(Listed(m)[j].name)
    ensures var raw, less := Write(Object(m), ""), Write(Object(Without(m, i)), "");
            && CanonicalObject(raw).Success? && CanonicalObject(less) == CanonicalObject(raw)
            && Denotes(raw, JObject(MembersMeaning(m)))
  {
    hide Write, CanonicalObject, Decode, MembersMeaning, NestedMembers;
    EarlierMemberIsIgnored(m, i, j);
    WithoutNests(m, i, MAX_NESTING - 1);
    ObjectDenotes(m);
    ObjectDenotes(Without(m, i));
    SpellsNonEmpty(Write(Object(m), ""), JObject(MembersMeaning(m)));
    CanonicalObjectCorrect(Write(Object(m), ""), JObject(MembersMeaning(m)));
    CanonicalTextDecidesValue(Write(Object(m), ""), JObject(MembersMeaning(m)),
      Write(Object(Without(m, i)), ""), JObject(MembersMeaning(Without(m, i))));
  }

  lemma {:induction false} ObjectDenotes(m: Members)
    requires ValidMembers(m) && NestedMembers(m, MAX_NESTING - 1)
    ensures Denotes(Write(Object(m), ""), JObject(MembersMeaning(m)))
  {
    hide Write, NestedMembers, MembersMeaning, Spells;
    var c := Object(m);
    SpelledByItself(c);
    assert IsObject(c) && Nested(c, MAX_NESTING) && Meaning(c) == JObject(MembersMeaning(m));
  }

  // ----- The order of canonical text

  function NamesOf(m: Members): seq<string>
    requires ValidMembers(m)
    decreases m
  {
    [Decode(m.key)] + if m.MoreMembers? then NamesOf(m.rest) else []
  }

  lemma {:induction false} CanonNames(v: Value, keys: seq<string>)
    requires v.JObject? && Good(v) && keys != [] && forall k | k in keys :: k in v.members
    ensures ValidMembers(CanonMembers(v, keys)) && NamesOf(CanonMembers(v, keys)) == keys
    decreases |keys|
  {
    hide Canon;
    MeaningOfCanonMembers(v, keys);
    DecodeEncode(keys[0]);
    if |keys| > 1 {
      CanonNames(v, keys[1..]);
      assert keys == [keys[0]] + keys[1..];
    } else {
      assert keys == [keys[0]];
    }
  }

  /** The canonical text of an object writes each of its names once, in ascending order. */
  lemma {:induction false} CanonicalOrder(v: Value)
    requires v.JObject? && Good(v) && v.members != map[]
    ensures Canon(v).Object? && ValidMembers(Canon(v).members)
    ensures Ascending(NamesOf(Canon(v).members)) && Elements(NamesOf(Canon(v).members)) == v.members.Keys
  {
    hide Ascending;
    var keys := Sort(v.members.Keys);
    SortCorrect(v.members.Keys);
    assert forall k | k in keys :: k in Elements(keys);
    CanonNames(v, keys);
  }

  // ----- An example

  lemma SortOne(k: string)
    ensures Sort({k}) == [k]
  {
    SortCorrect({k});
    assert Sort({k})[0] in Elements(Sort({k}));
  }

  function OneA(lexeme: string): Members {
    LastMember("", [Plain('a')], "", "", Number(lexeme), "")
  }

  lemma NameA(rest: string)
    ensures WriteName("", [Plain('a')], "", "", rest) == "\"a\":" + rest
  {
    var pieces := [Plain('a')];
    assert pieces[1..] == [];
    assert "" + rest == rest && "" + (":" + rest) == ":" + rest;
    assert WritePieces([], ":" + rest) == "\"" + (":" + rest);
    assert WritePieces(pieces, ":" + rest) == "a" + ("\"" + (":" + rest));
    assert WriteName("", pieces, "", "", rest) == "\"" + ("a" + ("\"" + (":" + rest)));
    Assoc("\"", ":", rest);
    Assoc("a", "\":", rest);
    Assoc("\"", "a\":", rest);
    assert "\"" + ":" == "\":" && "a" + "\":" == "a\":" && "\"" + "a\":" == "\"a\":";
  }

  lemma TextOfOne(lexeme: string)
    ensures Write(Object(OneA(lexeme)), "") == "{\"a\":" + (lexeme + "}")
  {
    WriteOne(lexeme);
    Assoc("{", "\"a\":", lexeme + "}");
    assert "{" + "\"a\":" == "{\"a\":";
  }

  lemma WriteOne(lexeme: string)
    ensures WriteMembers(OneA(lexeme), "") == "\"a\":" + (lexeme + "}")
  {
    NameA(lexeme + "}");
    assert AfterMember(OneA(lexeme), "") == "}";
    assert "" + "}" == "}";
    assert Write(Number(lexeme), "}") == lexeme + "}";
  }

  lemma TextOfTwo(first: string, second: string)
    ensures Write(Object(MoreMembers("", [Plain('a')], "", "", Number(first), "", OneA(second))), "") ==
            "{\"a\":" + (first + (",\"a\":" + (second + "}")))
  {
    hide WriteName, WriteMembers;
    var both := MoreMembers("", [Plain('a')], "", "", Number(first), "", OneA(second));
    var tail := ",\"a\":" + (second + "}");
    WriteOne(second);
    Assoc(",", "\"a\":", second + "}");
    assert "," + "\"a\":" == ",\"a\":";
    assert AfterMember(both, "") == tail;
    NameA(first + tail);
    assert "" + tail == tail;
    assert Write(Number(first), tail) == first + tail;
    WriteFirst(both);
    Assoc("{", "\"a\":", first + tail);
    assert "{" + "\"a\":" == "{\"a\":";
  }

  lemma {:induction false} WriteFirst(m: Members)
    ensures Write(Object(m), "") ==
            "{" + WriteName(m.pre, m.key, m.mid, m.gap, Write(m.value, m.post + AfterMember(m, "")))
  {
  }

  lemma OneIsCanonical(lexeme: string)
    requires IsNumber(lexeme)
    ensures ValidMembers(OneA(lexeme)) && Decode([Plain('a')]) == "a"
    ensures MembersMeaning(OneA(lexeme)) == map["a" := JNumber(lexeme)]
    ensures Canon(JObject(MembersMeaning(OneA(lexeme)))) == Object(OneA(lexeme))
  {
    hide IsNumber;
    var members := map["a" := JNumber(lexeme)];
    var pieces := [Plain('a')];
    assert pieces[1..] == [] && Decode([]) == "";
    assert Valid(Number(lexeme));
    assert Good(members["a"]);
    SortOne("a");
    assert members.Keys == {"a"};
    assert Encode("a") == pieces by {
      assert "a"[1..] == "";
    }
    CanonOfOne(JObject(members), "a");
  }

  lemma {:induction false} CanonOfOne(v: Value, k: string)
    requires v.JObject? && Good(v) && v.members.Keys == {k}
    ensures Canon(v) == Object(LastMember("", Encode(k), "", "", Canon(v.members[k]), ""))
  {
    hide Encode;
    SortOne(k);
    assert k in v.members;
    assert CanonMembers(v, [k]) == LastMember("", Encode(k), "", "", Canon(v.members[k]), "");
  }

  lemma {:induction false} NumbersDoNotNest(m: Members, depth: nat)
    requires m.value.Number? && (m.MoreMembers? ==> m.rest.LastMember? && m.rest.value.Number?)
    ensures NestedMembers(m, depth)
  {
  }

  /** The second of these members counts, whatever the first one is. */
  lemma SecondMemberCounts(first: string, second: string)
    requires IsNumber(first) && IsNumber(second)
    ensures CanonicalObject("{\"a\":" + (first + (",\"a\":" + (second + "}")))) == Success("{\"a\":" + (second + "}"))
  {
    hide IsNumber, CanonicalObject, Write, Canon;
    var one := OneA(second);
    var both := MoreMembers("", [Plain('a')], "", "", Number(first), "", one);
    TextOfOne(second);
    TextOfTwo(first, second);
    OneIsCanonical(second);
    assert Listed(both) == [Member([Plain('a')], Number(first)), Member([Plain('a')], Number(second))];
    NumbersDoNotNest(both, MAX_NESTING - 1);
    NumbersDoNotNest(one, MAX_NESTING - 1);
    EarlierDuplicateIsIgnored(both, 0, 1);
    ObjectDenotes(one);
    SpellsNonEmpty(Write(Object(one), ""), JObject(MembersMeaning(one)));
    CanonicalObjectCorrect(Write(Object(one), ""), JObject(MembersMeaning(one)));
  }
}
