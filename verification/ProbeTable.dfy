/** The open-addressed hash table that both the LZW compressor and the search
    automaton keep inline: a power-of-two array of packed words, probed at
    triangular offsets, in which the zero word marks a free slot. */
module ProbeTable {
  import opened Arithmetic
  import opened Folding

  /** Width of the code stored in the low bits of a packed word. */
  const CODE_BITS: nat := 28
  const CODE_LIMIT: nat := 0x1000_0000

  /** A packed word: the key in the top bits, the code in the low 28 bits. */
  function Pack(key: nat, code: nat): (w: nat) {
    key * CODE_LIMIT + code
  }

  function KeyOf(word: nat): nat {
    word / CODE_LIMIT
  }

  function CodeOf(word: nat): nat {
    word % CODE_LIMIT
  }

  function Xor(a: nat, b: nat): nat {
    if a == 0 then b
    else if b == 0 then a
    else (a % 2 + b % 2) % 2 + 2 * Xor(a / 2, b / 2)
  }

  function Hash(key: nat): nat {
    Xor(key / 256, key)
  }

  /** Total distance covered before attempt j by a step that grows by one. */
  function Triangle(j: nat): nat {
    if j == 0 then 0 else Triangle(j - 1) + j
  }

  /** h & mask, for a table of `size` slots. */
  function Masked(h: nat, size: nat): (s: nat)
    requires size > 0
    ensures s < size
  {
    if h < size then h else Masked(h - size, size)
  }

  function Slot(hash: nat, j: nat, size: nat): (s: nat)
    requires size > 0
    ensures s < size
  {
    Masked(hash + Triangle(j), size)
  }

  lemma {:induction false} MaskedIsRemainder(h: nat, size: nat)
    requires size > 0
    ensures Masked(h, size) == h % size
  {
    if h >= size {
      MaskedIsRemainder(h - size, size);
      var q, r := (h - size) / size, (h - size) % size;
      assert h - size == size * q + r;
      assert h == size * (q + 1) + r;
      DivModUnique(h, size, q + 1, r);
    }
  }

  // ---- Triangular probing visits every slot of a power-of-two table ----

  lemma {:induction false} TriangleClosedForm(j: nat)
    ensures 2 * Triangle(j) == j * (j + 1)
  {
    if j > 0 {
      TriangleClosedForm(j - 1);
    }
  }

  lemma {:induction false} OddFactorCancels(a: nat, b: nat, n: nat, q: nat)
    requires a % 2 == 1
    requires a * b == q * Pow2(n)
    ensures b % Pow2(n) == 0
  {
    if n > 0 {
      var h := Pow2(n - 1);
      assert q * Pow2(n) == 2 * (q * h);
      EvenProduct(a, b);
      var c := b / 2;
      assert b == 2 * c;
      assert a * b == 2 * (a * c);
      assert a * c == q * h;
      OddFactorCancels(a, c, n - 1, q);
      var m := c / h;
      assert c == h * m;
      assert b == Pow2(n) * m + 0;
      DivModUnique(b, Pow2(n), m, 0);
    }
  }

  lemma EvenProduct(a: nat, b: nat)
    requires a % 2 == 1 && (a * b) % 2 == 0
    ensures b % 2 == 0
  {
    var x := a / 2;
    assert a * b == 2 * (x * b) + b;
  }

  lemma DifferenceOfProducts(i: int, j: int)
    ensures (j - i) * (j + i + 1) == j * (j + 1) - i * (i + 1)
  {
  }

  /** If two attempts share a slot, the product of their difference and their
      sum plus one is a multiple of twice the table size. */
  lemma EqualSlots(hash: nat, i: nat, j: nat, k: nat) returns (q: nat)
    requires i < j && Slot(hash, i, Pow2(k)) == Slot(hash, j, Pow2(k))
    ensures (j - i) * (j + i + 1) == q * Pow2(k + 1)
  {
    MaskedIsRemainder(hash + Triangle(i), Pow2(k));
    MaskedIsRemainder(hash + Triangle(j), Pow2(k));
    var d := EqualRemainders(hash + Triangle(i), hash + Triangle(j), Pow2(k));
    TriangleClosedForm(i);
    TriangleClosedForm(j);
    DifferenceOfProducts(i, j);
    Doubled(Pow2(k), d, (j - i) * (j + i + 1));
    MulPositive(j - i, j + i + 1);
    MulSign(Pow2(k + 1), d);
    q := d;
  }

  lemma Doubled(m: int, d: int, p: int)
    requires p == 2 * (m * d)
    ensures p == d * (2 * m) && p == (2 * m) * d
  {
  }

  lemma MulPositive(a: int, b: int)
    requires a > 0 && b > 0
    ensures a * b > 0
  {
  }

  lemma NotAMultiple(b: nat, m: nat)
    requires 0 < b < m
    ensures b % m != 0
  {
  }

  /** Factors of opposite parity, both too small, cannot multiply to a multiple of a power of two. */
  lemma NoSmallFactors(d: nat, s: nat, n: nat, q: nat)
    requires 0 < d < Pow2(n) && 0 < s < Pow2(n)
    requires d % 2 != s % 2
    ensures d * s != q * Pow2(n)
  {
    NotAMultiple(d, Pow2(n));
    NotAMultiple(s, Pow2(n));
    if d * s == q * Pow2(n) {
      if d % 2 == 1 {
        OddFactorCancels(d, s, n, q);
      } else {
        OddFactorCancels(s, d, n, q);
      }
    }
  }

  /** Two attempts below the table size never collide. */
  lemma SlotsDistinct(hash: nat, i: nat, j: nat, k: nat)
    requires i < j < Pow2(k)
    ensures Slot(hash, i, Pow2(k)) != Slot(hash, j, Pow2(k))
  {
    if Slot(hash, i, Pow2(k)) == Slot(hash, j, Pow2(k)) {
      var q := EqualSlots(hash, i, j, k);
      assert (j + i + 1) == (j - i) + 2 * i + 1;
      NoSmallFactors(j - i, j + i + 1, k + 1, q);
    }
  }

  ghost function Visited(hash: nat, n: nat, k: nat): (v: set<nat>) {
    if n == 0 then {} else Visited(hash, n - 1, k) + {Slot(hash, n - 1, Pow2(k))}
  }

  lemma {:induction false} VisitedCount(hash: nat, n: nat, k: nat)
    requires n <= Pow2(k)
    ensures |Visited(hash, n, k)| == n
    ensures forall s :: s in Visited(hash, n, k) ==> s < Pow2(k)
    ensures forall s :: s in Visited(hash, n, k) ==> exists j: nat :: j < n && Slot(hash, j, Pow2(k)) == s
  {
    if n > 0 {
      VisitedCount(hash, n - 1, k);
      var last := Slot(hash, n - 1, Pow2(k));
      NotVisitedBefore(hash, n - 1, k, last);
    }
  }

  lemma NotVisitedBefore(hash: nat, n: nat, k: nat, last: nat)
    requires n < Pow2(k) && last == Slot(hash, n, Pow2(k))
    requires forall s :: s in Visited(hash, n, k) ==> exists j: nat :: j < n && Slot(hash, j, Pow2(k)) == s
    ensures last !in Visited(hash, n, k)
  {
    if last in Visited(hash, n, k) {
      var j: nat :| j < n && Slot(hash, j, Pow2(k)) == last;
      SlotsDistinct(hash, j, n, k);
    }
  }

  ghost function Below(n: nat): (b: set<nat>)
    ensures forall s: nat :: s in b <==> s < n
    ensures |b| == n
  {
    if n == 0 then {} else Below(n - 1) + {n - 1}
  }

  lemma SubsetOfSameSizeIsAll(a: set<nat>, b: set<nat>)
    requires a <= b && |a| == |b|
    ensures a == b
  {
    if x :| x in b && x !in a {
      assert a <= b - {x};
      SubsetNotLarger(a, b - {x});
    }
  }

  lemma {:induction false} SubsetNotLarger(a: set<nat>, b: set<nat>)
    requires a <= b
    ensures |a| <= |b|
  {
    if a != {} {
      var x :| x in a;
      SubsetNotLarger(a - {x}, b - {x});
    }
  }

  /** From any hash, triangular probing reaches any chosen slot. */
  lemma ProbingReaches(hash: nat, slot: nat, k: nat)
    requires slot < Pow2(k)
    ensures exists j: nat :: j < Pow2(k) && Slot(hash, j, Pow2(k)) == slot
  {
    VisitedCount(hash, Pow2(k), k);
    SubsetOfSameSizeIsAll(Visited(hash, Pow2(k), k), Below(Pow2(k)));
    assert slot in Below(Pow2(k));
  }

  // ---- What a table stores ----

  ghost predicate PowerOfTwo(n: nat) {
    exists k: nat :: n == Pow2(k)
  }

  ghost predicate Occupied(t: seq<nat>, key: nat, j: nat)
    requires |t| > 0
  {
    t[Slot(Hash(key), j, |t|)] != 0
  }

  /** Probing for `key` passes only occupied slots before it meets the key's word at attempt j. */
  ghost predicate FoundAt(t: seq<nat>, key: nat, code: nat, j: nat)
    requires |t| > 0
  {
    t[Slot(Hash(key), j, |t|)] == Pack(key, code) && forall i: nat :: i < j ==> Occupied(t, key, i)
  }

  ghost predicate Found(t: seq<nat>, key: nat, code: nat)
    requires |t| > 0
  {
    exists j: nat :: FoundAt(t, key, code, j)
  }

  ghost function UsedSlots(t: seq<nat>): (u: set<nat>) {
    set s: nat | s < |t| && t[s] != 0
  }

  ghost predicate WordsBelong(t: seq<nat>, m: map<nat, nat>) {
    forall s :: 0 <= s < |t| && t[s] != 0 ==> KeyOf(t[s]) in m && m[KeyOf(t[s])] == CodeOf(t[s])
  }

  ghost predicate KeysUnique(t: seq<nat>) {
    forall r, s :: 0 <= r < |t| && 0 <= s < |t| && t[r] != 0 && t[s] != 0 && KeyOf(t[r]) == KeyOf(t[s]) ==> r == s
  }

  ghost predicate EntriesFound(t: seq<nat>, m: map<nat, nat>)
    requires |t| > 0
  {
    forall key {:trigger Found(t, key, m[key])} :: key in m ==> 0 < m[key] < CODE_LIMIT && Found(t, key, m[key])
  }

  /** The words of t are exactly the entries of m, one slot each, every one reachable by probing. */
  ghost predicate Stores(t: seq<nat>, m: map<nat, nat>) {
    var whole :=
      && |t| > 0 && PowerOfTwo(|t|)
      && WordsBelong(t, m) && KeysUnique(t) && EntriesFound(t, m) && |UsedSlots(t)| == |m|;
    whole
  }

  /** Stores, kept folded. */
  ghost predicate TableOf(t: seq<nat>, m: map<nat, nat>) {
    var folded := forall f: Fold {:trigger Opened(f)} :: Opened(f) && f == OfTable ==> Stores(t, m);
    folded
  }

  lemma FreeSlotExists(t: seq<nat>, m: map<nat, nat>) returns (s: nat)
    requires Stores(t, m) && |m| < |t|
    ensures s < |t| && t[s] == 0
  {
    assert UsedSlots(t) != Below(|t|);
    assert UsedSlots(t) <= Below(|t|);
    s :| s in Below(|t|) && s !in UsedSlots(t);
  }

  /** A table with room has, on every probe sequence, an attempt that meets a free slot. */
  lemma ProbingEnds(t: seq<nat>, m: map<nat, nat>, key: nat) returns (j: nat)
    requires Stores(t, m) && |m| < |t|
    ensures !Occupied(t, key, j)
  {
    var s := FreeSlotExists(t, m);
    var k: nat :| |t| == Pow2(k);
    ProbingReaches(Hash(key), s, k);
    j :| j < Pow2(k) && Slot(Hash(key), j, Pow2(k)) == s;
  }

  lemma EmptyStores(t: seq<nat>)
    requires |t| > 0 && PowerOfTwo(|t|)
    requires forall s :: 0 <= s < |t| ==> t[s] == 0
    ensures Stores(t, map[])
  {
    assert UsedSlots(t) == {};
  }

  /** Writing a new key's word into the first free slot on its probe sequence adds that entry and keeps the rest. */
  lemma AfterInsert(t: seq<nat>, m: map<nat, nat>, key: nat, code: nat, j: nat)
    requires Stores(t, m)
    requires key !in m && 0 < code < CODE_LIMIT
    requires !Occupied(t, key, j) && forall i: nat :: i < j ==> Occupied(t, key, i)
    ensures Stores(t[Slot(Hash(key), j, |t|) := Pack(key, code)], m[key := code])
  {
    var s := Slot(Hash(key), j, |t|);
    var t', m' := t[s := Pack(key, code)], m[key := code];
    PackedParts(key, code);
    InsertKeepsWords(t, m, key, code, s);
    assert UsedSlots(t') == UsedSlots(t) + {s};
    InsertKeepsFound(t, m, key, code, j);
  }

  lemma InsertKeepsWords(t: seq<nat>, m: map<nat, nat>, key: nat, code: nat, s: nat)
    requires WordsBelong(t, m) && KeysUnique(t)
    requires key !in m && code < CODE_LIMIT && s < |t| && t[s] == 0
    ensures WordsBelong(t[s := Pack(key, code)], m[key := code])
    ensures KeysUnique(t[s := Pack(key, code)])
  {
    PackedParts(key, code);
  }

  lemma InsertKeepsFound(t: seq<nat>, m: map<nat, nat>, key: nat, code: nat, j: nat)
    requires |t| > 0 && EntriesFound(t, m)
    requires key !in m && 0 < code < CODE_LIMIT
    requires !Occupied(t, key, j) && forall i: nat :: i < j ==> Occupied(t, key, i)
    ensures EntriesFound(t[Slot(Hash(key), j, |t|) := Pack(key, code)], m[key := code])
  {
    var s := Slot(Hash(key), j, |t|);
    var t', m' := t[s := Pack(key, code)], m[key := code];
    forall k | k in m' ensures 0 < m'[k] < CODE_LIMIT && Found(t', k, m'[k]) {
      if k == key {
        forall i: nat | i < j ensures Occupied(t', key, i) {
          assert Occupied(t, key, i);
        }
        assert FoundAt(t', key, code, j);
      } else {
        assert Found(t, k, m[k]);
        StillFound(t, k, m[k], s, Pack(key, code));
      }
    }
  }

  lemma StillFound(t: seq<nat>, key: nat, code: nat, s: nat, word: nat)
    requires s < |t| && t[s] == 0 && word != 0 && code > 0
    requires Found(t, key, code)
    ensures Found(t[s := word], key, code)
  {
    var j: nat :| FoundAt(t, key, code, j);
    var t' := t[s := word];
    forall i: nat | i < j ensures Occupied(t', key, i) {
      assert Occupied(t, key, i);
    }
    assert FoundAt(t', key, code, j);
  }

  ghost predicate Passed(t: seq<nat>, key: nat, j: nat)
    requires |t| > 0
  {
    Occupied(t, key, j) && KeyOf(t[Slot(Hash(key), j, |t|)]) != key
  }

  lemma StopIsRight(t: seq<nat>, m: map<nat, nat>, key: nat, j: nat)
    requires Stores(t, m)
    requires forall a: nat :: a < j ==> Passed(t, key, a)
    requires !Passed(t, key, j)
    ensures key in m ==> t[Slot(Hash(key), j, |t|)] == Pack(key, m[key]) && 0 < m[key] < CODE_LIMIT
    ensures key !in m ==> t[Slot(Hash(key), j, |t|)] == 0
  {
    if key in m {
      assert Found(t, key, m[key]);
      var a: nat :| FoundAt(t, key, m[key], a);
      PackedParts(key, m[key]);
      assert !Passed(t, key, a);
      assert j < a ==> Occupied(t, key, j);
    }
  }

  lemma PackedParts(key: nat, code: nat)
    requires code < CODE_LIMIT
    ensures KeyOf(Pack(key, code)) == key && CodeOf(Pack(key, code)) == code
  {
  }

  // ---- The loops ----

  /** The lookup loop: the first word on the probe sequence that is free or carries the key. */
  method Probe(t: array<nat>, ghost m: map<nat, nat>, key: nat) returns (word: nat)
    requires Stores(t[..], m) && |m| < t.Length
    ensures key in m ==> word == Pack(key, m[key]) && 0 < CodeOf(word) == m[key]
    ensures key !in m ==> word == 0
  {
    ghost var words := t[..];
    ghost var free := ProbingEnds(words, m, key);
    var h, i := Hash(key), 1;
    ghost var j: nat := 0;
    while true
      invariant i == j + 1 && h == Hash(key) + Triangle(j)
      invariant j <= free
      invariant forall a: nat :: a < j ==> Passed(words, key, a)
      decreases free - j
    {
      word := t[Masked(h, t.Length)];
      assert word == words[Slot(Hash(key), j, |words|)];
      if word == 0 || KeyOf(word) == key {
        StopIsRight(words, m, key, j);
        if word != 0 {
          PackedParts(key, m[key]);
        }
        return;
      }
      assert Passed(words, key, j);
      h, i := h + i, i + 1;
      j := j + 1;
    }
  }

  /** The probing part of insertion: the first free slot on the key's probe sequence. */
  method FreeSlot(t: array<nat>, ghost m: map<nat, nat>, key: nat) returns (s: nat, ghost j: nat)
    requires Stores(t[..], m) && |m| < t.Length
    ensures s == Slot(Hash(key), j, t.Length) && t[s] == 0
    ensures forall a: nat :: a < j ==> Occupied(t[..], key, a)
  {
    ghost var words := t[..];
    ghost var free := ProbingEnds(words, m, key);
    var h, i := Hash(key), 1;
    j := 0;
    while t[Masked(h, t.Length)] != 0
      invariant i == j + 1 && h == Hash(key) + Triangle(j)
      invariant j <= free
      invariant forall a: nat :: a < j ==> Occupied(words, key, a)
      decreases free - j
    {
      assert words[Slot(Hash(key), j, |words|)] != 0;
      assert Occupied(words, key, j);
      h, i := h + i, i + 1;
      j := j + 1;
    }
    s := Masked(h, t.Length);
  }

  /** The insertion loop: the word goes into the first free slot on its key's
      probe sequence. Rehashing runs it on free words too, to no effect. */
  method Place(t: array<nat>, ghost m: map<nat, nat>, word: nat)
    requires Stores(t[..], m) && |m| < t.Length
    requires word != 0 ==> KeyOf(word) !in m && CodeOf(word) > 0
    modifies t
    ensures Stores(t[..], WithWord(m, word))
  {
    ghost var words := t[..];
    var s;
    ghost var j;
    s, j := FreeSlot(t, m, KeyOf(word));
    if word != 0 {
      AfterInsert(words, m, KeyOf(word), CodeOf(word), j);
    }
    t[s] := word;
    assert t[..] == words[s := word];
    assert word == 0 ==> t[..] == words;
  }

  ghost function WithWord(m: map<nat, nat>, word: nat): map<nat, nat> {
    if word == 0 then m else m[KeyOf(word) := CodeOf(word)]
  }

  ghost function EntriesOf(words: seq<nat>): map<nat, nat> {
    if words == [] then map[] else WithWord(EntriesOf(words[..|words| - 1]), words[|words| - 1])
  }

  ghost predicate HasKey(words: seq<nat>, key: nat) {
    exists s :: 0 <= s < |words| && words[s] != 0 && KeyOf(words[s]) == key
  }

  lemma {:induction false} EntriesOfKeys(words: seq<nat>, m: map<nat, nat>)
    requires WordsBelong(words, m)
    ensures forall key :: key in EntriesOf(words) ==> key in m && EntriesOf(words)[key] == m[key]
    ensures forall key :: key in EntriesOf(words) <==> HasKey(words, key)
  {
    if words != [] {
      var front, last := words[..|words| - 1], words[|words| - 1];
      EntriesOfKeys(front, m);
      forall key ensures key in EntriesOf(words) <==> HasKey(words, key) {
        if HasKey(front, key) {
          var s :| 0 <= s < |front| && front[s] != 0 && KeyOf(front[s]) == key;
          assert words[s] == front[s];
        }
        if last != 0 && KeyOf(last) == key {
          assert words[|words| - 1] == last;
        }
        if HasKey(words, key) {
          var s :| 0 <= s < |words| && words[s] != 0 && KeyOf(words[s]) == key;
          if s < |front| {
            assert front[s] == words[s];
          }
        }
      }
    }
  }

  lemma EntriesOfAll(t: seq<nat>, m: map<nat, nat>)
    requires Stores(t, m)
    ensures EntriesOf(t) == m
  {
    EntriesOfKeys(t, m);
    forall key | key in m ensures key in EntriesOf(t) {
      assert Found(t, key, m[key]);
      var j: nat :| FoundAt(t, key, m[key], j);
      PackedParts(key, m[key]);
      assert t[Slot(Hash(key), j, |t|)] == Pack(key, m[key]);
      assert HasKey(t, key);
    }
  }

  lemma {:induction false} SubmapNotLarger(a: map<nat, nat>, b: map<nat, nat>)
    requires forall key :: key in a ==> key in b
    ensures |a| <= |b|
  {
    assert |a| == |a.Keys| && |b| == |b.Keys|;
    SubsetNotLarger(a.Keys, b.Keys);
  }

  /** The next word to move has a key that none of the words before it has. */
  lemma NextWordIsNew(t: seq<nat>, m: map<nat, nat>, n: nat)
    requires Stores(t, m) && n < |t|
    ensures t[n] != 0 ==> KeyOf(t[n]) !in EntriesOf(t[..n]) && CodeOf(t[n]) > 0
    ensures |EntriesOf(t[..n])| <= |m|
    ensures EntriesOf(t[..n + 1]) == WithWord(EntriesOf(t[..n]), t[n])
  {
    EntriesOfKeys(t[..n], m);
    SubmapNotLarger(EntriesOf(t[..n]), m);
    assert t[..n + 1][..n] == t[..n];
    if t[n] != 0 {
      assert Found(t, KeyOf(t[n]), m[KeyOf(t[n])]);
    }
  }

  /** Growing the table: every word of the old one is placed into a larger empty one. */
  method Rehash(table: array<nat>, ghost m: map<nat, nat>, size: nat) returns (t: array<nat>)
    requires Stores(table[..], m)
    requires PowerOfTwo(size) && |m| < size
    ensures fresh(t) && t.Length == size
    ensures Stores(t[..], m)
  {
    t := new nat[size](_ => 0);
    EmptyStores(t[..]);
    ghost var words := table[..];
    for n := 0 to table.Length
      invariant table[..] == words
      invariant Stores(t[..], EntriesOf(words[..n]))
    {
      NextWordIsNew(words, m, n);
      Place(t, EntriesOf(words[..n]), table[n]);
    }
    assert words[..table.Length] == words;
    EntriesOfAll(words, m);
  }
}
