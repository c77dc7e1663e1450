/** What an automaton holds, apart from the numbers of its states, and the breadth-first order in
    which it is written. */
module GlobOrder {
  import opened Folding
  import opened GlobPattern
  import opened GlobStates

  /** The paths of an automaton and their ends. */
  type Content = map<Path, End>

  ghost predicate Tree(m: Content) {
    [] in m && forall p {:trigger ParentIn(m, p)} :: p in m ==> ParentIn(m, p)
  }

  ghost predicate ParentIn(m: Content, p: Path) {
    p != [] ==> p[..|p| - 1] in m
  }

  // ---- Sorted sets ----

  ghost function Least(xs: set<nat>): (x: nat)
    requires xs != {}
    ensures x in xs && forall y :: y in xs ==> x <= y
  {
    var y :| y in xs;
    if xs == {y} then y
    else
      var rest := xs - {y};
      assert forall z :: z in xs ==> z == y || z in rest;
      var x := Least(rest);
      if x < y then x else y
  }

  ghost predicate Increasing(list: seq<nat>) {
    forall k, l :: 0 <= k < l < |list| ==> list[k] < list[l]
  }

  /** The elements of a set in increasing order. */
  ghost function Sorted(xs: set<nat>): (list: seq<nat>)
    ensures Increasing(list) && forall x :: x in list <==> x in xs
  {
    if xs == {} then [] else [Least(xs)] + Sorted(xs - {Least(xs)})
  }

  ghost function FirstOf(a: seq<nat>): nat {
    if a == [] then 0 else a[0]
  }

  /** There is one way to put a set in order. */
  lemma {:induction false} SortedIsUnique(a: seq<nat>, b: seq<nat>)
    requires Increasing(a) && Increasing(b) && forall x :: x in a <==> x in b
    ensures a == b
  {
    if a == [] || b == [] {
      assert |a| > 0 ==> FirstOf(a) in a;
      assert |b| > 0 ==> FirstOf(b) in b;
    } else {
      assert a[0] in b && b[0] in a;
      var k :| 0 <= k < |b| && b[k] == a[0];
      var l :| 0 <= l < |a| && a[l] == b[0];
      assert a[0] == b[0];
      forall x ensures x in a[1..] <==> x in b[1..] {
        TailHolds(a, x);
        TailHolds(b, x);
      }
      SortedIsUnique(a[1..], b[1..]);
      assert a == [a[0]] + a[1..] && b == [b[0]] + b[1..];
    }
  }

  lemma TailHolds(a: seq<nat>, x: nat)
    requires Increasing(a) && a != []
    ensures x in a[1..] <==> x in a && x != a[0]
  {
    if x in a && x != a[0] {
      var k :| 0 <= k < |a| && a[k] == x;
      assert a[1..][k - 1] == x;
    }
  }

  // ---- The children of a path ----

  ghost function RunesAfter(m: Content, p: Path): set<nat> {
    set q: Path | q in m && ChildForRune(p, q) :: q[|p|].r
  }

  lemma RuneAfter(m: Content, p: Path, r: nat)
    ensures r in RunesAfter(m, p) <==> p + [Rune(r)] in m
  {
    var q := p + [Rune(r)];
    assert q[..|p|] == p && q[|p|] == Rune(r);
    if r in RunesAfter(m, p) {
      var c: Path :| c in m && ChildForRune(p, c) && c[|p|].r == r;
      assert c == p + [c[|p|]];
    }
  }

  /** The regular characters that follow the path, in order. */
  ghost predicate AreRunes(m: Content, p: Path, rs: seq<nat>) {
    Increasing(rs) && forall r :: r in rs <==> p + [Rune(r)] in m
  }

  ghost function Runes(m: Content, p: Path): (rs: seq<nat>)
    ensures AreRunes(m, p, rs)
  {
    RunesExist(m, p);
    var rs :| AreRunes(m, p, rs);
    rs
  }

  lemma RunesExist(m: Content, p: Path)
    ensures exists rs :: AreRunes(m, p, rs)
  {
    forall r ensures r in RunesAfter(m, p) <==> p + [Rune(r)] in m {
      RuneAfter(m, p, r);
    }
    assert AreRunes(m, p, Sorted(RunesAfter(m, p)));
  }

  lemma RunesAreUnique(m: Content, p: Path, rs: seq<nat>)
    requires AreRunes(m, p, rs)
    ensures rs == Runes(m, p)
  {
    SortedIsUnique(rs, Runes(m, p));
  }

  ghost function Wildcards(m: Content, p: Path): (ts: seq<Token>) {
    (if p + [Star] in m then [Star] else []) + (if p + [StarStarSlash] in m then [StarStarSlash] else [])
  }

  ghost function ForRunes(rs: seq<nat>): (ts: seq<Token>)
    ensures |ts| == |rs| && forall k :: 0 <= k < |rs| ==> ts[k] == Rune(rs[k])
  {
    seq(|rs|, k requires 0 <= k < |rs| => Rune(rs[k]))
  }

  ghost function Below(p: Path, ts: seq<Token>): (ps: seq<Path>)
    ensures |ps| == |ts| && forall k :: 0 <= k < |ts| ==> ps[k] == p + [ts[k]]
  {
    seq(|ts|, k requires 0 <= k < |ts| => p + [ts[k]])
  }

  lemma BelowConcat(p: Path, a: seq<Token>, b: seq<Token>)
    ensures Below(p, a + b) == Below(p, a) + Below(p, b)
  {
  }

  /** The children of a path: "*", "**" and then the regular characters in order. */
  ghost function KidsOf(m: Content, p: Path): (ps: seq<Path>) {
    Below(p, Wildcards(m, p) + ForRunes(Runes(m, p)))
  }

  /** Kept folded. */
  ghost predicate AreKids(m: Content, p: Path, ps: seq<Path>) {
    var folded := forall f: Fold {:trigger Opened(f)} :: Opened(f) && f == OfKids ==> ps == KidsOf(m, p);
    folded
  }

  ghost function Kids(m: Content, p: Path): (ps: seq<Path>)
    ensures AreKids(m, p, ps)
  {
    assert AreKids(m, p, KidsOf(m, p));
    var ps :| AreKids(m, p, ps);
    ps
  }

  lemma KidsDistinct(m: Content, p: Path)
    ensures Distinct(Kids(m, p))
  {
    assert Opened(OfKids);
    var rs, ws := Runes(m, p), Wildcards(m, p);
    var ts := ws + ForRunes(rs);
    forall k, l | 0 <= k < |ts| && 0 <= l < |ts| && Below(p, ts)[k] == Below(p, ts)[l] ensures k == l {
      SamePath(p, ts[k], p, ts[l]);
      TokensDiffer(ws, rs, k, l);
    }
  }

  lemma KidsCount(m: Content, p: Path)
    ensures |Runes(m, p)| <= |Kids(m, p)|
  {
    assert Opened(OfKids);
  }

  lemma KidKnown(m: Content, p: Path, q: Path)
    requires q in Kids(m, p)
    ensures q in m && |q| == |p| + 1 && q[..|p|] == p
  {
    assert Opened(OfKids);
    var ts := Wildcards(m, p) + ForRunes(Runes(m, p));
    var k :| 0 <= k < |ts| && Below(p, ts)[k] == q;
    assert q[..|p|] == p;
    TokenKnown(m, p, k);
  }

  lemma KidFound(m: Content, p: Path, q: Path)
    requires q in m && |q| == |p| + 1 && q[..|p|] == p
    ensures q in Kids(m, p)
  {
    assert Opened(OfKids);
    var ts := Wildcards(m, p) + ForRunes(Runes(m, p));
    assert q == p + [q[|p|]];
    var k := TokenFound(m, p, q[|p|]);
    assert Below(p, ts)[k] == q;
  }

  lemma KidsAre(m: Content, p: Path, q: Path)
    ensures q in Kids(m, p) <==> q in m && |q| == |p| + 1 && q[..|p|] == p
  {
    if q in Kids(m, p) {
      KidKnown(m, p, q);
    } else if q in m && |q| == |p| + 1 && q[..|p|] == p {
      KidFound(m, p, q);
    }
  }

  lemma TokensDiffer(ws: seq<Token>, rs: seq<nat>, k: nat, l: nat)
    requires Increasing(rs) && (ws == [] || ws == [Star] || ws == [StarStarSlash] || ws == [Star, StarStarSlash])
    requires var ts := ws + ForRunes(rs); k < |ts| && l < |ts| && ts[k] == ts[l]
    ensures k == l
  {
    if k >= |ws| && l >= |ws| {
      assert rs[k - |ws|] == rs[l - |ws|];
    }
  }

  lemma TokenKnown(m: Content, p: Path, k: nat)
    requires var ts := Wildcards(m, p) + ForRunes(Runes(m, p)); k < |ts|
    ensures var ts := Wildcards(m, p) + ForRunes(Runes(m, p)); p + [ts[k]] in m
  {
    var ws, rs := Wildcards(m, p), Runes(m, p);
    if k >= |ws| {
      assert rs[k - |ws|] in rs;
    }
  }

  lemma TokenFound(m: Content, p: Path, t: Token) returns (k: nat)
    requires p + [t] in m
    ensures var ts := Wildcards(m, p) + ForRunes(Runes(m, p)); k < |ts| && ts[k] == t
  {
    var ws, rs := Wildcards(m, p), Runes(m, p);
    if t.Rune? {
      assert t.r in rs;
      k := RuneToken(ws, rs, t.r);
    } else {
      assert t in ws;
      k :| 0 <= k < |ws| && ws[k] == t;
    }
  }

  lemma RuneToken(ws: seq<Token>, rs: seq<nat>, r: nat) returns (k: nat)
    requires r in rs
    ensures var ts := ws + ForRunes(rs); k < |ts| && ts[k] == Rune(r)
  {
    var l :| 0 <= l < |rs| && rs[l] == r;
    k := |ws| + l;
  }

  // ---- The order ----

  /** Adds the children of the path at k. */
  ghost function Expanded(m: Content, ps: seq<Path>, k: nat): (ps': seq<Path>)
    ensures ps <= ps'
  {
    if k < |ps| then ps + Kids(m, ps[k]) else ps
  }

  /** The paths in the queue, or taken from it, once the children of the first k have been added. */
  ghost function Order(m: Content, k: nat): (ps: seq<Path>)
    ensures |ps| > 0 && ps[0] == []
  {
    if k == 0 then [[]] else Expanded(m, Order(m, k - 1), k - 1)
  }

  lemma OrderStep(m: Content, k: nat, ps: seq<Path>, kids: seq<Path>)
    requires ps == Order(m, k) && k < |ps| && kids == Kids(m, ps[k])
    ensures Order(m, k + 1) == ps + kids
  {
  }

  lemma InEither(a: seq<Path>, b: seq<Path>, p: Path)
    ensures p in a + b <==> p in a || p in b
  {
  }

  lemma FromEither(m: Content, ps: seq<Path>, k: nat, p: Path)
    requires p in Expanded(m, ps, k)
    ensures p in ps || p in m
  {
    if k < |ps| {
      var kids := Kids(m, ps[k]);
      InEither(ps, kids, p);
      KidsAre(m, ps[k], p);
    }
  }

  lemma {:induction false} OrderKnown(m: Content, k: nat, p: Path)
    requires [] in m && p in Order(m, k)
    ensures p in m
  {
    if k > 0 {
      var ps := Order(m, k - 1);
      FromEither(m, ps, k - 1, p);
      if p in ps {
        OrderKnown(m, k - 1, p);
      }
    }
  }

  lemma {:induction false} OrderGrows(m: Content, k: nat, l: nat)
    requires k <= l
    ensures Order(m, k) <= Order(m, l)
  {
    if k < l {
      OrderGrows(m, k, l - 1);
    }
  }

  /** Every path but the first comes from an earlier one whose children have been added. */
  lemma {:induction false} ParentEarlier(m: Content, k: nat, j: nat) returns (i: nat)
    requires 0 < j < |Order(m, k)|
    ensures var ps := Order(m, k); ps[j] != [] && i < j && i < k && i < |ps| && ps[i] == ps[j][..|ps[j]| - 1]
  {
    if k > 0 {
      var ps := Order(m, k - 1);
      if j < |ps| {
        i := ParentEarlier(m, k - 1, j);
      } else {
        i := k - 1;
        var kids := Kids(m, ps[i]);
        OrderStep(m, i, ps, kids);
        var q := kids[j - |ps|];
        assert Order(m, k)[j] == q;
        KidsAre(m, ps[i], q);
      }
    }
  }

  /** The children of a path are not queued before it is taken. */
  lemma KidsAreNew(m: Content, k: nat, q: Path)
    requires k < |Order(m, k)| && Distinct(Order(m, k)) && q in Kids(m, Order(m, k)[k])
    ensures q !in Order(m, k)
  {
    var ps := Order(m, k);
    KidsAre(m, ps[k], q);
    forall j | 0 < j < |ps| ensures ps[j] != q {
      var i := ParentEarlier(m, k, j);
      assert ps[i] != ps[k];
    }
  }

  /** No path is queued twice. */
  lemma {:induction false} OrderDistinct(m: Content, k: nat)
    ensures Distinct(Order(m, k))
  {
    if k > 0 {
      OrderDistinct(m, k - 1);
      var ps := Order(m, k - 1);
      if k - 1 < |ps| {
        var kids := Kids(m, ps[k - 1]);
        forall q | q in kids ensures q !in ps {
          KidsAreNew(m, k - 1, q);
        }
        KidsDistinct(m, ps[k - 1]);
        DistinctConcat(ps, kids);
      }
    }
  }

  lemma DistinctConcat(a: seq<Path>, b: seq<Path>)
    requires Distinct(a) && Distinct(b) && forall q :: q in b ==> q !in a
    ensures Distinct(a + b)
  {
    assert forall k :: 0 <= k < |b| ==> b[k] !in a;
  }

  /** The children of a path that was taken have been queued. */
  lemma KidsQueued(m: Content, i: nat, k: nat, q: Path)
    requires i < k && i < |Order(m, i)| && q in Kids(m, Order(m, i)[i])
    ensures q in Order(m, k)
  {
    var ps := Order(m, i);
    var kids := Kids(m, ps[i]);
    OrderStep(m, i, ps, kids);
    InEither(ps, kids, q);
    Prefixed(m, i + 1, k, q);
  }

  lemma Prefixed(m: Content, k: nat, l: nat, q: Path)
    requires k <= l && q in Order(m, k)
    ensures q in Order(m, l)
  {
    OrderGrows(m, k, l);
  }

  /** When the queue is empty every path has been in it. */
  lemma {:induction false} OrderComplete(m: Content, k: nat, p: Path)
    requires Tree(m) && |Order(m, k)| == k && p in m
    ensures p in Order(m, k)
    decreases |p|
  {
    var ps := Order(m, k);
    if p == [] {
      assert ps[0] == p;
    } else {
      assert ParentIn(m, p);
      var q := p[..|p| - 1];
      OrderComplete(m, k, q);
      var i :| 0 <= i < |ps| && ps[i] == q;
      KidsAre(m, q, p);
      OrderGrows(m, i, k);
      Running(m, i, k);
      KidsQueued(m, i, k, p);
    }
  }

  /** The queue was not empty before. */
  lemma Running(m: Content, i: nat, k: nat)
    requires i < k <= |Order(m, k)|
    ensures i < |Order(m, i)|
  {
    if |Order(m, i)| <= i {
      Stuck(m, i, k);
    }
  }

  lemma {:induction false} Stuck(m: Content, i: nat, k: nat)
    requires |Order(m, i)| <= i <= k
    ensures Order(m, k) == Order(m, i)
  {
    if i < k {
      Stuck(m, i, k - 1);
    }
  }

  // ---- Counting ----

  lemma OrderBounded(m: Content, k: nat)
    requires [] in m
    ensures |Order(m, k)| <= |m|
  {
    OrderDistinct(m, k);
    forall p | p in Order(m, k) ensures p in m.Keys {
      OrderKnown(m, k, p);
    }
    CountDistinct(Order(m, k), m.Keys);
  }

  /** The queue runs empty after all paths, and not before. */
  lemma {:induction false} QueueEmpties(m: Content, k: nat)
    requires Tree(m) && k <= |m|
    ensures k <= |Order(m, k)|
    ensures |Order(m, k)| == k <==> k == |m|
  {
    var n := |Order(m, k)|;
    if k > 0 {
      QueueEmpties(m, k - 1);
      Longer(m, k - 1);
    }
    OrderBounded(m, k);
    if n == k {
      AllOrdered(m, k);
    }
  }

  lemma Longer(m: Content, k: nat)
    ensures |Order(m, k)| <= |Order(m, k + 1)|
  {
    OrderGrows(m, k, k + 1);
  }

  lemma AllOrdered(m: Content, k: nat)
    requires Tree(m) && |Order(m, k)| == k
    ensures k == |m| && forall p :: p in m <==> p in Order(m, k)
  {
    forall p ensures p in m <==> p in Order(m, k) {
      if p in m {
        OrderComplete(m, k, p);
      } else if p in Order(m, k) {
        OrderKnown(m, k, p);
      }
    }
    OrderDistinct(m, k);
    CountDistinct(Order(m, k), m.Keys);
  }
}
