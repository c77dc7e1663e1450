/** Bazel module versions and the order on them. */
module ModuleVersion {
  import opened Arithmetic

  type Text = seq<byte>

  const PLUS: byte := 43
  const DASH: byte := 45
  const DOT: byte := 46

  // ---- Versions ----

  predicate IsDigit(c: byte) {
    48 <= c <= 57
  }

  predicate IsLetter(c: byte) {
    65 <= c <= 90 || 97 <= c <= 122
  }

  /** A non-empty run of letters and digits, and dashes where they are allowed. */
  ghost predicate IsWord(x: Text, dashes: bool) {
    x != [] && forall k :: 0 <= k < |x| ==> IsDigit(x[k]) || IsLetter(x[k]) || (dashes && x[k] == DASH)
  }

  ghost predicate Numeric(x: Text) {
    forall k :: 0 <= k < |x| ==> IsDigit(x[k])
  }

  /** Numbers have no leading zeros. */
  ghost predicate IsIdentifier(x: Text, dashes: bool) {
    IsWord(x, dashes) && (Numeric(x) ==> |x| == 1 || x[0] != 48)
  }

  /** Release identifiers, prerelease identifiers when there are any, and build metadata. */
  datatype Version = Version(release: seq<Text>, prerelease: seq<Text>, build: seq<Text>)

  ghost predicate AreIdentifiers(xs: seq<Text>, dashes: bool) {
    forall k :: 0 <= k < |xs| ==> IsIdentifier(xs[k], dashes)
  }

  ghost predicate IsVersion(v: Version) {
    && v.release != [] && AreIdentifiers(v.release, false) && AreIdentifiers(v.prerelease, true)
    && forall k :: 0 <= k < |v.build| ==> IsWord(v.build[k], true)
  }

  /** Identifiers separated by dots. */
  ghost function Dotted(xs: seq<Text>): (t: Text) {
    if xs == [] then [] else if |xs| == 1 then xs[0] else xs[0] + [DOT] + Dotted(xs[1..])
  }

  ghost function Marked(mark: byte, xs: seq<Text>): (t: Text) {
    if xs == [] then [] else [mark] + Dotted(xs)
  }

  /** The text of a version: the strings that the regular expression accepts are those of versions. */
  ghost function TextOf(v: Version): (t: Text) {
    Dotted(v.release) + (Marked(DASH, v.prerelease) + Marked(PLUS, v.build))
  }

  // ---- The order ----

  function Sign(d: int): (s: int) {
    if d < 0 then -1 else if d > 0 then 1 else 0
  }

  ghost function Pow10(n: nat): (p: nat)
    ensures p > 0
  {
    if n == 0 then 1 else 10 * Pow10(n - 1)
  }

  /** The number that digits stand for. */
  ghost function Value(x: Text): (v: nat)
    requires Numeric(x)
  {
    if x == [] then 0
    else
      NonNegative(x[0] - 48, Pow10(|x| - 1));
      (x[0] - 48) * Pow10(|x| - 1) + Value(x[1..])
  }

  lemma NonNegative(a: int, b: int)
    requires a >= 0 && b >= 0
    ensures a * b >= 0
  {
  }

  /** Byte by byte. */
  function Lexical(a: Text, b: Text): (d: int) {
    if a == [] then (if b == [] then 0 else -1)
    else if b == [] then 1
    else if a[0] < b[0] then -1
    else if a[0] > b[0] then 1
    else Lexical(a[1..], b[1..])
  }

  /** a comes before b as a word: b extends it, or the first byte in which they differ is smaller. */
  ghost predicate Precedes(a: Text, b: Text) {
    || (a < b)
    || exists k :: 0 <= k < |a| && k < |b| && a[..k] == b[..k] && a[k] < b[k]
  }

  /** Numbers come before words and are ordered by value; words are in the order of a dictionary. */
  ghost function IdentifierOrder(x: Text, y: Text): (d: int) {
    if Numeric(x) then (if Numeric(y) then Sign(Value(x) - Value(y)) else -1)
    else if Numeric(y) then 1
    else if x == y then 0
    else if Precedes(x, y) then -1
    else 1
  }

  /** The first difference decides; a list comes after its own beginnings. */
  ghost function ListOrder(xs: seq<Text>, ys: seq<Text>): (d: int) {
    if xs == [] then (if ys == [] then 0 else -1)
    else if ys == [] then 1
    else
      var d := IdentifierOrder(xs[0], ys[0]);
      if d != 0 then d else ListOrder(xs[1..], ys[1..])
  }

  /** A prerelease comes before its release; build metadata does not matter. */
  ghost function Order(v: Version, w: Version): (d: int) {
    var d := ListOrder(v.release, w.release);
    if d != 0 then d
    else if v.prerelease == [] then (if w.prerelease == [] then 0 else 1)
    else if w.prerelease == [] then -1
    else ListOrder(v.prerelease, w.prerelease)
  }

  // ---- What Compare computes ----

  predicate IsSeparator(c: byte, dash: bool) {
    c == PLUS || c == DOT || (dash && c == DASH)
  }

  /** The length of the identifier in front. */
  function IdentifierEnd(s: Text, dash: bool): (n: nat)
    ensures n <= |s| && (n < |s| ==> IsSeparator(s[n], dash)) && forall k :: 0 <= k < n ==> !IsSeparator(s[k], dash)
  {
    if s == [] || IsSeparator(s[0], dash) then 0 else 1 + IdentifierEnd(s[1..], dash)
  }

  /** A dash ends the release, a dot continues and a plus or the end of the text ends the version. */
  function Separator(s: Text): (d: int) {
    if s == [] then 0 else if s[0] == DASH then -1 else if s[0] == DOT then 1 else 0
  }

  function Drop(s: Text): (t: Text) {
    if s == [] then [] else s[1..]
  }

  ghost function Flag(b: bool): (d: int) {
    if b then 1 else 0
  }

  /** The difference between two identifiers, numbers being compared by length first. */
  ghost function IdentifierDifference(x: Text, y: Text): (d: int) {
    if Numeric(x) != Numeric(y) then Flag(Numeric(y)) - Flag(Numeric(x))
    else if Numeric(x) && |x| != |y| then |x| - |y|
    else Lexical(x, y)
  }

  /** The result of the loop from two remainders on. */
  ghost function Difference(a: Text, b: Text, dash: bool): (d: int)
    decreases |a|
  {
    var i, j := IdentifierEnd(a, dash), IdentifierEnd(b, dash);
    var d := IdentifierDifference(a[..i], b[..j]);
    if d != 0 then d
    else
      var p, q := Separator(a[i..]), Separator(b[j..]);
      if p != q || p == 0 then p - q
      else Difference(Drop(a[i..]), Drop(b[j..]), dash && p > 0)
  }

  // ---- The loops ----

  /** stripIdentifier. */
  method StripIdentifier(s: Text, dash: bool) returns (identifier: Text, rest: Text)
    ensures identifier == s[..IdentifierEnd(s, dash)] && rest == s[IdentifierEnd(s, dash)..]
  {
    var i := 0;
    while i < |s| && !IsSeparator(s[i], dash)
      invariant i <= |s| && forall k :: 0 <= k < i ==> !IsSeparator(s[k], dash)
    {
      i := i + 1;
    }
    identifier, rest := s[..i], s[i..];
  }

  /** identifierIsNumeric. */
  method IdentifierIsNumeric(x: Text) returns (n: int)
    ensures n == Flag(Numeric(x))
  {
    for i := 0 to |x|
      invariant forall k :: 0 <= k < i ==> IsDigit(x[k])
    {
      if x[i] < 48 || x[i] > 57 {
        return 0;
      }
    }
    n := 1;
  }

  /** stripSeparator. Identifiers are only stripped up to a separator. */
  method StripSeparator(s: Text) returns (d: int, rest: Text)
    requires s == [] || IsSeparator(s[0], true)
    ensures d == Separator(s) && rest == Drop(s)
  {
    if s == [] {
      return 0, s;
    }
    var c := s[0];
    rest := s[1..];
    if c == DASH {
      d := -1;
    } else if c == PLUS {
      d := 0;
    } else {
      d := 1;
    }
  }

  /** Compare. On the texts of versions it has the sign of their order. */
  method Compare(v: Text, w: Text) returns (d: int)
    ensures d == Difference(v, w, true)
    ensures forall x, y :: IsVersion(x) && IsVersion(y) && v == TextOf(x) && w == TextOf(y) ==> Sign(d) == Order(x, y)
  {
    d := CompareTexts(v, w);
    forall x, y | IsVersion(x) && IsVersion(y) && v == TextOf(x) && w == TextOf(y) ensures Sign(d) == Order(x, y) {
      CompareIsOrder(x, y);
    }
  }

  /** The loop of Compare. */
  method CompareTexts(v: Text, w: Text) returns (d: int)
    ensures d == Difference(v, w, true)
  {
    var dash := true;
    var a, b := v, w;
    while true
      invariant Difference(a, b, dash) == Difference(v, w, true)
      decreases |a|
    {
      ghost var a0, b0 := a, b;
      var x, y;
      x, a := StripIdentifier(a, dash);
      y, b := StripIdentifier(b, dash);
      var xIsNumeric := IdentifierIsNumeric(x);
      var yIsNumeric := IdentifierIsNumeric(y);
      if yIsNumeric - xIsNumeric != 0 {
        return yIsNumeric - xIsNumeric;
      }
      if xIsNumeric != 0 && |x| - |y| != 0 {
        return |x| - |y|;
      }
      var cmp := Lexical(x, y);
      if cmp != 0 {
        return cmp;
      }
      var p, q;
      p, a := StripSeparator(a);
      q, b := StripSeparator(b);
      if p - q != 0 || p == 0 {
        return p - q;
      }
      if p <= 0 {
        dash := false;
      }
    }
  }

  // ---- Comparing numbers by length ----

  lemma {:induction false} ValueBound(x: Text)
    requires Numeric(x)
    ensures Value(x) < Pow10(|x|)
  {
    if x != [] {
      ValueBound(x[1..]);
      var p := Pow10(|x| - 1);
      Scale(x[0] - 48, 9, p);
    }
  }

  lemma Scale(a: int, b: int, p: nat)
    requires a <= b
    ensures a * p <= b * p
  {
  }

  lemma {:induction false} Pow10Grows(m: nat, n: nat)
    requires m <= n
    ensures Pow10(m) <= Pow10(n)
  {
    if m < n {
      Pow10Grows(m, n - 1);
    }
  }

  /** Without leading zeros the longer number is larger. */
  lemma ShorterIsSmaller(x: Text, y: Text)
    requires Numeric(x) && Numeric(y) && |x| < |y| && y[0] != 48
    ensures Value(x) < Value(y)
  {
    ValueBound(x);
    Pow10Grows(|x|, |y| - 1);
    Scale(1, y[0] - 48, Pow10(|y| - 1));
  }

  lemma SmallerDigit(x: Text, y: Text)
    requires Numeric(x) && Numeric(y) && |x| == |y| > 0 && x[0] < y[0]
    ensures Value(x) < Value(y)
  {
    ValueBound(x[1..]);
    DigitGap(x[0] - 48, y[0] - 48, Pow10(|x| - 1), Value(x[1..]), Value(y[1..]));
  }

  lemma DigitGap(d: nat, e: nat, p: nat, u: nat, v: nat)
    requires d < e && u < p
    ensures d * p + u < e * p + v
  {
    Scale(d + 1, e, p);
    assert (d + 1) * p == d * p + p;
  }

  /** Numbers of the same length are ordered by their digits. */
  lemma {:induction false} SameLength(x: Text, y: Text)
    requires Numeric(x) && Numeric(y) && |x| == |y|
    ensures Lexical(x, y) == Sign(Value(x) - Value(y))
  {
    if x != [] {
      if x[0] == y[0] {
        SameLength(x[1..], y[1..]);
      } else if x[0] < y[0] {
        SmallerDigit(x, y);
      } else {
        SmallerDigit(y, x);
      }
    }
  }

  lemma PrecedesNext(a: Text, b: Text)
    requires a != [] && b != [] && a[0] == b[0]
    ensures Precedes(a, b) <==> Precedes(a[1..], b[1..])
  {
    var x, y := a[1..], b[1..];
    assert a == [a[0]] + x && b == [b[0]] + y;
    if k :| 0 <= k < |a| && k < |b| && a[..k] == b[..k] && a[k] < b[k] {
      assert x[..k - 1] == a[..k][1..] && y[..k - 1] == b[..k][1..];
      assert x[k - 1] < y[k - 1];
    }
    if k :| 0 <= k < |x| && k < |y| && x[..k] == y[..k] && x[k] < y[k] {
      assert a[..k + 1] == [a[0]] + x[..k] && b[..k + 1] == [b[0]] + y[..k];
      assert a[k + 1] < b[k + 1];
    }
  }

  /** Words are in the order of a dictionary. */
  lemma {:induction false} LexicalPrecedes(a: Text, b: Text)
    ensures Lexical(a, b) < 0 <==> Precedes(a, b)
    ensures Lexical(a, b) > 0 <==> Precedes(b, a)
  {
    if a != [] && b != [] {
      if a[0] == b[0] {
        LexicalPrecedes(a[1..], b[1..]);
        PrecedesNext(a, b);
        PrecedesNext(b, a);
      } else {
        FirstDecides(a, b);
        FirstDecides(b, a);
      }
    }
  }

  lemma FirstDecides(a: Text, b: Text)
    requires a != [] && b != [] && a[0] != b[0]
    ensures Precedes(a, b) <==> a[0] < b[0]
  {
    assert forall k :: 0 < k < |a| && k < |b| ==> a[..k][0] != b[..k][0];
    if a[0] < b[0] {
      assert a[..0] == b[..0];
    }
  }

  lemma {:induction false} LexicalIsSign(x: Text, y: Text)
    ensures Sign(Lexical(x, y)) == Lexical(x, y)
    ensures Lexical(x, y) == 0 <==> x == y
  {
    if x != [] && y != [] && x[0] == y[0] {
      LexicalIsSign(x[1..], y[1..]);
      assert x == [x[0]] + x[1..] && y == [y[0]] + y[1..];
    }
  }

  /** On words the order is that of Lexical. */
  lemma WordsAgree(x: Text, y: Text)
    requires !Numeric(x) && !Numeric(y)
    ensures IdentifierOrder(x, y) == Lexical(x, y)
  {
    LexicalIsSign(x, y);
    LexicalPrecedes(x, y);
  }

  /** Comparing lengths before digits orders numbers by value. */
  lemma IdentifiersAgree(x: Text, y: Text, dashes: bool)
    requires IsIdentifier(x, dashes) && IsIdentifier(y, dashes)
    ensures Sign(IdentifierDifference(x, y)) == IdentifierOrder(x, y)
    ensures IdentifierOrder(x, y) == 0 <==> x == y
  {
    LexicalIsSign(x, y);
    if !Numeric(x) && !Numeric(y) {
      WordsAgree(x, y);
    }
    if Numeric(x) && Numeric(y) {
      if |x| < |y| {
        ShorterIsSmaller(x, y);
      } else if |y| < |x| {
        ShorterIsSmaller(y, x);
      } else {
        SameLength(x, y);
      }
    }
  }

  // ---- The loop follows the order ----

  /** What follows a list of identifiers. */
  ghost predicate IsTail(t: Text, dash: bool) {
    t == [] || t[0] == PLUS || (dash && t[0] == DASH)
  }

  lemma EndIs(x: Text, rest: Text, dash: bool)
    requires IsWord(x, !dash) && (rest == [] || IsSeparator(rest[0], dash))
    ensures IdentifierEnd(x + rest, dash) == |x|
  {
    var s := x + rest;
    assert forall k :: 0 <= k < |x| ==> s[k] == x[k];
    assert rest != [] ==> s[|x|] == rest[0];
  }

  /** The text of a list: its first identifier, and what follows. */
  lemma DottedFirst(xs: seq<Text>, t: Text) returns (rest: Text)
    requires xs != []
    ensures Dotted(xs) + t == xs[0] + rest
    ensures rest == if |xs| == 1 then t else [DOT] + (Dotted(xs[1..]) + t)
  {
    rest := if |xs| == 1 then t else [DOT] + (Dotted(xs[1..]) + t);
  }

  /** The result of the loop when everything before the tails was equal. */
  ghost function TailDifference(s: Text, t: Text, dash: bool): (d: int) {
    var p, q := Separator(s), Separator(t);
    if p != q || p == 0 then p - q else Difference(Drop(s), Drop(t), dash && p > 0)
  }

  /** One round of the loop. */
  lemma Round(x: Text, y: Text, s: Text, t: Text, dash: bool)
    requires IsIdentifier(x, !dash) && IsIdentifier(y, !dash)
    requires (s == [] || IsSeparator(s[0], dash)) && (t == [] || IsSeparator(t[0], dash))
    ensures Sign(Difference(x + s, y + t, dash)) == var d := IdentifierOrder(x, y);
            if d != 0 then d else Sign(TailDifference(s, t, dash))
  {
    EndIs(x, s, dash);
    EndIs(y, t, dash);
    IdentifiersAgree(x, y, !dash);
    var a, b := x + s, y + t;
    assert a[..|x|] == x && a[|x|..] == s && b[..|y|] == y && b[|y|..] == t;
  }

  lemma {:induction false} ListsAgree(xs: seq<Text>, ys: seq<Text>, s: Text, t: Text, dash: bool)
    requires xs != [] && ys != [] && AreIdentifiers(xs, !dash) && AreIdentifiers(ys, !dash) && IsTail(s, dash)
             && IsTail(t, dash)
    ensures Sign(Difference(Dotted(xs) + s, Dotted(ys) + t, dash)) ==
            var d := ListOrder(xs, ys); if d != 0 then d else Sign(TailDifference(s, t, dash))
    decreases |xs|
  {
    var u := DottedFirst(xs, s);
    var v := DottedFirst(ys, t);
    Round(xs[0], ys[0], u, v, dash);
    if IdentifierOrder(xs[0], ys[0]) == 0 {
      if |xs| > 1 && |ys| > 1 {
        ListsAgree(xs[1..], ys[1..], s, t, dash);
        assert Drop(u) == Dotted(xs[1..]) + s && Drop(v) == Dotted(ys[1..]) + t;
      }
    }
  }

  ghost function After(v: Version): (t: Text) {
    Marked(DASH, v.prerelease) + Marked(PLUS, v.build)
  }

  lemma AfterIs(v: Version)
    ensures Separator(After(v)) == if v.prerelease == [] then 0 else -1
    ensures v.prerelease != [] ==> Drop(After(v)) == Dotted(v.prerelease) + Marked(PLUS, v.build)
    ensures IsTail(After(v), true) && IsTail(Marked(PLUS, v.build), false) && Separator(Marked(PLUS, v.build)) == 0
  {
  }

  /** After equal releases a prerelease comes first, and then its identifiers decide. */
  lemma TailsAgree(v: Version, w: Version, s: Text, t: Text)
    requires IsVersion(v) && IsVersion(w) && s == After(v) && t == After(w)
    ensures Sign(TailDifference(s, t, true)) ==
            if v.prerelease == [] then (if w.prerelease == [] then 0 else 1) else if w.prerelease == [] then -1
              else ListOrder(v.prerelease, w.prerelease)
  {
    AfterIs(v);
    AfterIs(w);
    if v.prerelease != [] && w.prerelease != [] {
      ListsAgree(v.prerelease, w.prerelease, Marked(PLUS, v.build), Marked(PLUS, w.build), false);
    }
  }

  /** Compare has the sign of the order on versions. */
  lemma CompareIsOrder(v: Version, w: Version)
    requires IsVersion(v) && IsVersion(w)
    ensures Sign(Difference(TextOf(v), TextOf(w), true)) == Order(v, w)
  {
    var s, t := After(v), After(w);
    AfterIs(v);
    AfterIs(w);
    ListsAgree(v.release, w.release, s, t, true);
    TailsAgree(v, w, s, t);
  }

  // ---- The order is a total preorder ----

  lemma {:induction false} LexicalTurns(x: Text, y: Text)
    ensures Lexical(y, x) == -Lexical(x, y)
  {
    if x != [] && y != [] && x[0] == y[0] {
      LexicalTurns(x[1..], y[1..]);
    }
  }

  lemma IdentifierTurns(x: Text, y: Text)
    ensures IdentifierOrder(y, x) == -IdentifierOrder(x, y)
  {
    LexicalTurns(x, y);
    if !Numeric(x) && !Numeric(y) {
      WordsAgree(x, y);
      WordsAgree(y, x);
    }
  }

  lemma {:induction false} ListTurns(xs: seq<Text>, ys: seq<Text>)
    ensures ListOrder(ys, xs) == -ListOrder(xs, ys)
  {
    if xs != [] && ys != [] {
      IdentifierTurns(xs[0], ys[0]);
      ListTurns(xs[1..], ys[1..]);
    }
  }

  /** Swapping the versions turns the order around, so any two can be compared. */
  lemma OrderTurns(v: Version, w: Version)
    ensures Order(w, v) == -Order(v, w)
  {
    ListTurns(v.release, w.release);
    ListTurns(v.prerelease, w.prerelease);
  }

  /** Two steps up make a step up, and they stay level only when both do. */
  ghost predicate Chains(xy: int, yz: int, xz: int) {
    xy <= 0 && yz <= 0 ==> xz <= 0 && (xz == 0 <==> xy == 0 && yz == 0)
  }

  lemma {:induction false} LexicalChains(x: Text, y: Text, z: Text)
    ensures Chains(Lexical(x, y), Lexical(y, z), Lexical(x, z))
  {
    if x != [] && y != [] && z != [] && x[0] == y[0] == z[0] {
      LexicalChains(x[1..], y[1..], z[1..]);
    }
  }

  lemma IdentifierChains(x: Text, y: Text, z: Text)
    ensures Chains(IdentifierOrder(x, y), IdentifierOrder(y, z), IdentifierOrder(x, z))
  {
    LexicalChains(x, y, z);
    if !Numeric(x) && !Numeric(y) && !Numeric(z) {
      WordsAgree(x, y);
      WordsAgree(y, z);
      WordsAgree(x, z);
    }
  }

  lemma {:induction false} ListChains(xs: seq<Text>, ys: seq<Text>, zs: seq<Text>)
    ensures Chains(ListOrder(xs, ys), ListOrder(ys, zs), ListOrder(xs, zs))
  {
    if xs != [] && ys != [] && zs != [] {
      IdentifierChains(xs[0], ys[0], zs[0]);
      ListChains(xs[1..], ys[1..], zs[1..]);
    }
  }

  lemma OrderChains(v: Version, w: Version, x: Version)
    ensures Chains(Order(v, w), Order(w, x), Order(v, x))
  {
    ListChains(v.release, w.release, x.release);
    ListChains(v.prerelease, w.prerelease, x.prerelease);
  }

  lemma {:induction false} ListTies(xs: seq<Text>, ys: seq<Text>, dashes: bool)
    requires AreIdentifiers(xs, dashes) && AreIdentifiers(ys, dashes)
    ensures ListOrder(xs, ys) == 0 <==> xs == ys
  {
    if xs != [] && ys != [] {
      IdentifiersAgree(xs[0], ys[0], dashes);
      ListTies(xs[1..], ys[1..], dashes);
      assert xs == [xs[0]] + xs[1..] && ys == [ys[0]] + ys[1..];
    }
  }

  /** Compare calls two versions equal exactly when they differ in build metadata alone. */
  lemma TiesDifferInBuild(v: Version, w: Version)
    requires IsVersion(v) && IsVersion(w)
    ensures Difference(TextOf(v), TextOf(w), true) == 0 <==> v.release == w.release && v.prerelease == w.prerelease
  {
    CompareIsOrder(v, w);
    ListTies(v.release, w.release, false);
    ListTies(v.prerelease, w.prerelease, true);
  }

  /** Compare is a total preorder on the texts of versions. */
  lemma TotalPreorder(u: Version, v: Version, w: Version)
    requires IsVersion(u) && IsVersion(v) && IsVersion(w)
    ensures Difference(TextOf(u), TextOf(u), true) == 0
    ensures Difference(TextOf(u), TextOf(v), true) <= 0 || Difference(TextOf(v), TextOf(u), true) <= 0
    ensures Difference(TextOf(u), TextOf(v), true) <= 0 && Difference(TextOf(v), TextOf(w), true) <= 0 ==>
              Difference(TextOf(u), TextOf(w), true) <= 0
  {
    TiesDifferInBuild(u, u);
    CompareIsOrder(u, v);
    CompareIsOrder(v, u);
    CompareIsOrder(v, w);
    CompareIsOrder(u, w);
    OrderTurns(u, v);
    OrderChains(u, v, w);
  }
}
