/** Facts about concatenated strings. */
module Strings {

  lemma Assoc(a: string, b: string, c: string)
    ensures (a + b) + c == a + (b + c)
  {
  }

  lemma SamePrefix(prefix: string, x: string, y: string)
    requires prefix + x == prefix + y
    ensures x == y
  {
    assert (prefix + x)[|prefix|..] == x && (prefix + y)[|prefix|..] == y;
  }

  lemma SameLengthPrefix(a: string, x: string, b: string, y: string)
    requires |a| == |b| && a + x == b + y
    ensures a == b && x == y
  {
    assert (a + x)[..|a|] == a && (b + y)[..|b|] == b;
    SamePrefix(a, x, y);
  }

  lemma SeparatorWithin(a: string, x: string, b: string, y: string, c: char)
    requires a + ([c] + x) == b + ([c] + y)
    ensures |a| < |b| ==> c in b
  {
    if |a| < |b| {
      assert (a + ([c] + x))[|a|] == c && (b + ([c] + y))[|a|] == b[|a|];
    }
  }

  /** A separator that occurs in neither first part decides where a text is cut. */
  lemma SameAtSeparator(a: string, x: string, b: string, y: string, c: char)
    requires c !in a && c !in b && a + ([c] + x) == b + ([c] + y)
    ensures a == b && x == y
  {
    SeparatorWithin(a, x, b, y, c);
    SeparatorWithin(b, y, a, x, c);
    SameLengthPrefix(a, [c] + x, b, [c] + y);
    assert ([c] + x)[1..] == x && ([c] + y)[1..] == y;
  }

  /** The same when only the first characters may be separators. */
  lemma SameAtSeparatorBehindFirst(a: string, x: string, b: string, y: string, c: char)
    requires a != "" && b != "" && c !in a[1..] && c !in b[1..]
    requires a + ([c] + x) == b + ([c] + y)
    ensures a == b && x == y
  {
    var s, t := a + ([c] + x), b + ([c] + y);
    assert s[0] == a[0] && t[0] == b[0];
    assert s[1..] == a[1..] + ([c] + x) && t[1..] == b[1..] + ([c] + y);
    SameAtSeparator(a[1..], x, b[1..], y, c);
    assert a == [a[0]] + a[1..] && b == [b[0]] + b[1..];
  }

  function Join(a: string, c: char, x: string): string {
    a + ([c] + x)
  }

  /**
   Two joined pairs are one text exactly when they are one pair or one first part continues
   the other behind the separator and the second parts make up for it.
   */
  lemma JoinsCollide(a: string, x: string, b: string, y: string, c: char)
    ensures Join(a, c, x) == Join(b, c, y) <==>
            (a == b && x == y)
            || (exists m :: a == Join(b, c, m) && y == Join(m, c, x))
            || (exists m :: b == Join(a, c, m) && x == Join(m, c, y))
  {
    if Join(a, c, x) == Join(b, c, y) {
      if |a| == |b| {
        SameLengthPrefix(a, [c] + x, b, [c] + y);
        SamePrefix([c], x, y);
      } else if |b| < |a| {
        LongerFirst(a, x, b, y, c);
      } else {
        LongerFirst(b, y, a, x, c);
      }
    }
    forall m | a == Join(b, c, m) && y == Join(m, c, x) ensures Join(a, c, x) == Join(b, c, y) {
      Continued(b, m, x, c);
    }
    forall m | b == Join(a, c, m) && x == Join(m, c, y) ensures Join(a, c, x) == Join(b, c, y) {
      Continued(a, m, y, c);
    }
  }

  lemma Continued(b: string, m: string, x: string, c: char)
    ensures Join(Join(b, c, m), c, x) == Join(b, c, Join(m, c, x))
  {
    Assoc(b, [c] + m, [c] + x);
    Assoc([c], m, [c] + x);
  }

  lemma LongerFirst(a: string, x: string, b: string, y: string, c: char)
    requires Join(a, c, x) == Join(b, c, y) && |b| < |a|
    ensures exists m :: a == Join(b, c, m) && y == Join(m, c, x)
  {
    var n := |b|;
    var head, tail := a[..n], a[n..];
    assert a == head + tail;
    Assoc(head, tail, [c] + x);
    SameLengthPrefix(head, tail + ([c] + x), b, [c] + y);
    var m := tail[1..];
    assert tail[0] == c by {
      assert (tail + ([c] + x))[0] == tail[0];
    }
    assert tail == [c] + m;
    Assoc([c], m, [c] + x);
    SamePrefix([c], m + ([c] + x), y);
    assert a == Join(b, c, m) && y == Join(m, c, x);
  }
}
