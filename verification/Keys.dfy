/** Row keys and their order (backend/datamodel/key.h, backend/datamodel/key.cc). */
module Keys {

  /** A column value: NULL, or a value of the column's (totally ordered) type. */
  datatype Value = Null | Of(n: int)

  /** How one key column sorts. */
  datatype ColumnOrder = ColumnOrder(descending: bool, nullsLast: bool)

  datatype KeyData = Key(
    columns: seq<Value>,
    descending: seq<bool>,
    nullsLast: seq<bool>,
    isInfinity: bool,
    isPrefixLimit: bool)
  {
    /** Every column has its flags. `Prefix` does not shorten `nullsLast`, so that one may be longer. */
    predicate Valid() {
      |descending| == |columns| <= |nullsLast|
    }

    /** The columns sort as the leading columns of `order` do. */
    predicate Follows(order: seq<ColumnOrder>) {
      && Valid()
      && |columns| <= |order|
      && forall i :: 0 <= i < |columns| ==> ColumnOrder(descending[i], nullsLast[i]) == order[i]
    }

    /** A key a row can have: not the end of the key space and not a prefix limit. */
    predicate IsRow() {
      !isInfinity && !isPrefixLimit
    }

    function ToPrefixLimit(): KeyData {
      this.(isPrefixLimit := true)
    }

    function Prefix(n: nat): KeyData
      requires Valid() && n <= |columns|
    {
      this.(columns := columns[..n], descending := descending[..n])
    }

    predicate IsPrefixOf(other: KeyData) {
      if isInfinity then other.isInfinity
      else columns <= other.columns && isPrefixLimit == other.isPrefixLimit
    }
  }

  type Key = k: KeyData | k.Valid() witness Key([], [], [], false, false)

  const EMPTY: Key := Key([], [], [], false, false)
  const INFINITY: Key := Key([], [], [], true, false)

  /** `Key(std::vector<Value>)`: every column ascending, nulls first. */
  function FromValues(values: seq<Value>): Key {
    Key(values, seq(|values|, i => false), seq(|values|, i => false), false, false)
  }

  // ---------------------------------------------------------------------------
  // Reference order: a key is a point on a line, and keys compare as words do.
  // ---------------------------------------------------------------------------

  /** One letter of a key's position. `band` separates the kinds of letter, `n` orders within one. */
  datatype Mark = Mark(band: int, n: int)

  const END := Mark(-2, 0)      // a key ends here, before every extension of it
  const LIMIT := Mark(2, 0)     // a prefix limit ends here, after every extension of it
  const TOP := Mark(3, 0)       // the end of the key space

  function Rank(v: Value, order: ColumnOrder): Mark {
    match v
    case Null => Mark(if order.nullsLast then 1 else -1, 0)
    case Of(n) => Mark(0, if order.descending then -n else n)
  }

  function Ranks(k: Key): seq<Mark>
  {
    seq(|k.columns|, i requires 0 <= i < |k.columns| =>
        Rank(k.columns[i], ColumnOrder(k.descending[i], k.nullsLast[i])))
  }

  function Position(k: Key): seq<Mark>
  {
    if k.isInfinity then [TOP] else Ranks(k) + [if k.isPrefixLimit then LIMIT else END]
  }

  function CompareMarks(a: Mark, b: Mark): int {
    if a.band < b.band || (a.band == b.band && a.n < b.n) then -1 else if a == b then 0 else 1
  }

  function CompareWords(s: seq<Mark>, t: seq<Mark>): int {
    if s == [] && t == [] then 0
    else if s == [] then -1
    else if t == [] then 1
    else if s[0] != t[0] then CompareMarks(s[0], t[0])
    else CompareWords(s[1..], t[1..])
  }

  /** The three-way order of keys. */
  function Cmp(a: Key, b: Key): int
  {
    CompareWords(Position(a), Position(b))
  }

  // ---------------------------------------------------------------------------
  // Key::Compare computes the reference order.
  // ---------------------------------------------------------------------------

  lemma {:induction false} CompareWordsSkip(s: seq<Mark>, t: seq<Mark>, n: nat)
    requires n <= |s| && n <= |t| && s[..n] == t[..n]
    ensures CompareWords(s, t) == CompareWords(s[n..], t[n..])
  {
    if n == 0 {
      assert s[n..] == s && t[n..] == t;
    } else {
      assert s[0] == s[..n][0] == t[..n][0] == t[0];
      assert s[1..][..n-1] == s[..n][1..] == t[..n][1..] == t[1..][..n-1];
      CompareWordsSkip(s[1..], t[1..], n - 1);
      assert s[1..][n-1..] == s[n..] && t[1..][n-1..] == t[n..];
    }
  }

  /** The first letter at which two positions differ decides. */
  lemma Decided(a: Key, b: Key, i: nat)
    requires i < |Position(a)| && i < |Position(b)| && Position(a)[..i] == Position(b)[..i]
    requires Position(a)[i] != Position(b)[i]
    ensures Cmp(a, b) == CompareMarks(Position(a)[i], Position(b)[i])
  {
    CompareWordsSkip(Position(a), Position(b), i);
  }

  /** Key::Compare, column by column, reading only the flags of the left key. */
  method Compare(a: Key, b: Key, ghost order: seq<ColumnOrder>) returns (c: int)
    requires a.Follows(order) && b.Follows(order)
    ensures c == Cmp(a, b)
  {
    if a.isInfinity || b.isInfinity {
      if a.isInfinity == b.isInfinity {
        WordsAntisymmetric(Position(a), Position(b));
        return 0;
      }
      return if b.isInfinity then -1 else 1;
    }
    ghost var p, q := Position(a), Position(b);
    var i := 0;
    while i < |a.columns|
      invariant 0 <= i <= |a.columns| && i <= |b.columns|
      invariant p[..i] == q[..i]
    {
      assert p[i] == Rank(a.columns[i], order[i]);
      if i >= |b.columns| {
        Decided(a, b, i);
        return if b.isPrefixLimit then -1 else 1;
      }
      assert q[i] == Rank(b.columns[i], order[i]);
      if !(a.columns[i].Null? && b.columns[i].Null?) {
        if p[i] != q[i] {
          Decided(a, b, i);
        }
        if a.columns[i].Null? && !b.columns[i].Null? {
          return if a.nullsLast[i] then 1 else -1;
        }
        if b.columns[i].Null? {
          return if a.nullsLast[i] then -1 else 1;
        }
        if a.columns[i].n < b.columns[i].n {
          return if a.descending[i] then 1 else -1;
        }
        if a.columns[i].n != b.columns[i].n {
          return if a.descending[i] then -1 else 1;
        }
      }
      i := i + 1;
    }
    if p[i] != q[i] {
      Decided(a, b, i);
    }
    if |b.columns| > |a.columns| {
      assert q[i] == Rank(b.columns[i], order[i]);
      return if a.isPrefixLimit then 1 else -1;
    }
    if a.isPrefixLimit != b.isPrefixLimit {
      return if a.isPrefixLimit then 1 else -1;
    }
    assert p == q;
    WordsAntisymmetric(p, q);
    return 0;
  }

  // ---------------------------------------------------------------------------
  // Which way the columns sort.
  // ---------------------------------------------------------------------------

  lemma SameRanks(a: Key, b: Key, order: seq<ColumnOrder>, n: nat)
    requires a.Follows(order) && b.Follows(order) && !a.isInfinity && !b.isInfinity
    requires n <= |a.columns| && n <= |b.columns| && a.columns[..n] == b.columns[..n]
    ensures Position(a)[..n] == Position(b)[..n]
  {
    forall i | 0 <= i < n ensures Position(a)[i] == Position(b)[i] {
      assert a.columns[i] == a.columns[..n][i] == b.columns[..n][i] == b.columns[i];
      assert ColumnOrder(a.descending[i], a.nullsLast[i]) == order[i] == ColumnOrder(b.descending[i], b.nullsLast[i]);
    }
  }

  /**
   * The first column at which two keys differ decides: NULL comes before every value, or
   * after every value if nulls come last; the smaller of two values comes first, or the
   * greater one if the column is descending.
   */
  lemma FirstDifferenceDecides(a: Key, b: Key, order: seq<ColumnOrder>, i: nat)
    requires a.Follows(order) && b.Follows(order) && !a.isInfinity && !b.isInfinity
    requires i < |a.columns| && i < |b.columns| && a.columns[..i] == b.columns[..i] && a.columns[i] != b.columns[i]
    ensures Cmp(a, b) != 0
    ensures Cmp(a, b) < 0 <==>
            if a.columns[i] == Null then !a.nullsLast[i]
            else if b.columns[i] == Null then a.nullsLast[i]
            else if a.descending[i] then a.columns[i].n > b.columns[i].n
            else a.columns[i].n < b.columns[i].n
  {
    SameRanks(a, b, order, i);
    RankInjective(a.columns[i], b.columns[i], order[i]);
    assert Position(a)[i] == Rank(a.columns[i], order[i]) && Position(b)[i] == Rank(b.columns[i], order[i]);
    assert ColumnOrder(a.descending[i], a.nullsLast[i]) == order[i];
    Decided(a, b, i);
  }

  /** A key comes before its extensions, and its prefix limit after them; a key comes before its own prefix limit. */
  lemma ExtensionDecides(a: Key, b: Key, order: seq<ColumnOrder>)
    requires a.Follows(order) && b.Follows(order) && !a.isInfinity && !b.isInfinity && a.columns <= b.columns
    ensures |a.columns| < |b.columns| ==> Cmp(a, b) == if a.isPrefixLimit then 1 else -1
    ensures |a.columns| == |b.columns| ==>
              Cmp(a, b) == if a.isPrefixLimit == b.isPrefixLimit then 0 else if a.isPrefixLimit then 1 else -1
  {
    var n := |a.columns|;
    SameRanks(a, b, order, n);
    if n < |b.columns| {
      assert Position(b)[n] == Rank(b.columns[n], order[n]);
      RankInjective(b.columns[n], b.columns[n], order[n]);
      Decided(a, b, n);
    } else if a.isPrefixLimit != b.isPrefixLimit {
      Decided(a, b, n);
    } else {
      assert Position(a) == Position(b);
      WordsAntisymmetric(Position(a), Position(b));
    }
  }

  /** Keys made from values alone sort ascending, NULL first. */
  lemma PlainKeysAscend(v: seq<Value>, w: seq<Value>, i: nat)
    requires i < |v| && i < |w| && v[..i] == w[..i] && v[i] != w[i]
    ensures Cmp(FromValues(v), FromValues(w)) < 0 <==> v[i] == Null || (w[i] != Null && v[i].n < w[i].n)
  {
    var longer := if |v| < |w| then w else v;
    var order := seq(|longer|, j => ColumnOrder(false, false));
    FirstDifferenceDecides(FromValues(v), FromValues(w), order, i);
  }

  // ---------------------------------------------------------------------------
  // The order is total, with EMPTY least and INFINITY greatest.
  // ---------------------------------------------------------------------------

  lemma {:induction false} WordsAntisymmetric(s: seq<Mark>, t: seq<Mark>)
    ensures CompareWords(s, t) == -CompareWords(t, s)
    ensures CompareWords(s, t) == 0 <==> s == t
  {
    if s != [] && t != [] {
      assert s == [s[0]] + s[1..] && t == [t[0]] + t[1..];
      WordsAntisymmetric(s[1..], t[1..]);
    }
  }

  lemma {:induction false} WordsTransitive(s: seq<Mark>, t: seq<Mark>, u: seq<Mark>)
    requires CompareWords(s, t) <= 0 && CompareWords(t, u) <= 0
    ensures CompareWords(s, u) <= 0
    ensures CompareWords(s, u) == 0 ==> CompareWords(s, t) == 0 && CompareWords(t, u) == 0
  {
    if s != [] && t != [] && u != [] && s[0] == t[0] && t[0] == u[0] {
      WordsTransitive(s[1..], t[1..], u[1..]);
    } else if CompareWords(s, u) == 0 {
      WordsAntisymmetric(s, u);
      WordsAntisymmetric(s, t);
      WordsAntisymmetric(t, u);
    }
  }

  lemma Antisymmetric(a: Key, b: Key)
    ensures Cmp(a, b) == -Cmp(b, a)
    ensures -1 <= Cmp(a, b) <= 1
  {
    WordsAntisymmetric(Position(a), Position(b));
    CompareWordsRange(Position(a), Position(b));
  }

  lemma {:induction false} CompareWordsRange(s: seq<Mark>, t: seq<Mark>)
    ensures -1 <= CompareWords(s, t) <= 1
  {
    if s != [] && t != [] && s[0] == t[0] {
      CompareWordsRange(s[1..], t[1..]);
    }
  }

  lemma Reflexive(k: Key)
    ensures Cmp(k, k) == 0
  {
    WordsAntisymmetric(Position(k), Position(k));
  }

  /** Less-or-equal is transitive, and strict as soon as one of the two steps is. */
  lemma Transitive(a: Key, b: Key, c: Key)
    requires Cmp(a, b) <= 0 && Cmp(b, c) <= 0
    ensures Cmp(a, c) <= 0
    ensures Cmp(a, b) < 0 || Cmp(b, c) < 0 ==> Cmp(a, c) < 0
  {
    WordsTransitive(Position(a), Position(b), Position(c));
  }

  lemma RankInjective(v: Value, w: Value, order: ColumnOrder)
    ensures Rank(v, order) == Rank(w, order) <==> v == w
    ensures -1 <= Rank(v, order).band <= 1
  {
  }

  /** Keys of one order compare equal exactly when they are the same point of the key space. */
  lemma EqualMeansSame(a: Key, b: Key, order: seq<ColumnOrder>)
    requires a.Follows(order) && b.Follows(order)
    ensures Cmp(a, b) == 0 <==>
            (a.isInfinity && b.isInfinity) ||
            (!a.isInfinity && !b.isInfinity && a.columns == b.columns && a.isPrefixLimit == b.isPrefixLimit)
  {
    var p, q := Position(a), Position(b);
    WordsAntisymmetric(p, q);
    if p == q && !a.isInfinity && !b.isInfinity {
      assert |Ranks(a)| == |Ranks(b)|;
      forall i | 0 <= i < |a.columns| ensures a.columns[i] == b.columns[i] {
        assert p[i] == Ranks(a)[i] && q[i] == Ranks(b)[i];
        RankInjective(a.columns[i], b.columns[i], order[i]);
      }
      assert p[|a.columns|] == q[|a.columns|];
    } else if p == q {
      assert p[0] == q[0];
    } else if !a.isInfinity && !b.isInfinity && a.columns == b.columns {
      assert Ranks(a) == Ranks(b);
    }
  }

  lemma EmptyIsLeast(k: Key)
    ensures Cmp(EMPTY, k) <= 0
  {
    var p := Position(k);
    assert Position(EMPTY) == [END];
    if !k.isInfinity && |k.columns| > 0 {
      assert p[0] == Ranks(k)[0];
    }
    if p[0] == END {
      WordsAntisymmetric([END], p);
    }
  }

  lemma InfinityIsGreatest(k: Key)
    ensures Cmp(k, INFINITY) <= 0
    ensures !k.isInfinity ==> Cmp(k, INFINITY) < 0
  {
    var p := Position(k);
    assert Position(INFINITY) == [TOP];
    if k.isInfinity {
      WordsAntisymmetric(p, [TOP]);
    } else if |k.columns| > 0 {
      assert p[0] == Ranks(k)[0];
    }
  }

  // ---------------------------------------------------------------------------
  // A prefix limit closes off exactly the extensions of its key.
  // ---------------------------------------------------------------------------

  /** Words over column ranks: `r` is a prefix of `s` iff `s` lies between `r` and the limit of `r`. */
  lemma {:induction false} PrefixWords(r: seq<Mark>, s: seq<Mark>)
    requires forall m :: m in r || m in s ==> -1 <= m.band <= 1
    ensures CompareWords(r + [END], s + [END]) <= 0 && CompareWords(s + [END], r + [LIMIT]) < 0 <==> r <= s
  {
    if r == [] {
      assert r + [END] == [END] && r + [LIMIT] == [LIMIT];
      if s != [] {
        assert (s + [END])[0] == s[0] && s[0] in s;
      }
    } else if s == [] {
      assert (r + [END])[0] == r[0] && r[0] in r;
    } else {
      assert (r + [END])[0] == r[0] && (s + [END])[0] == s[0] && (r + [LIMIT])[0] == r[0];
      assert (r + [END])[1..] == r[1..] + [END] && (s + [END])[1..] == s[1..] + [END];
      assert (r + [LIMIT])[1..] == r[1..] + [LIMIT];
      if r[0] == s[0] {
        PrefixWords(r[1..], s[1..]);
        assert r == [r[0]] + r[1..] && s == [s[0]] + s[1..];
      }
    }
  }

  /** A row key `k` satisfies `p <= k < p+` exactly when `p` is a prefix of it. */
  lemma PrefixSpan(p: Key, k: Key, order: seq<ColumnOrder>)
    requires p.Follows(order) && k.Follows(order) && p.IsRow() && k.IsRow()
    ensures p.IsPrefixOf(k) <==> Cmp(p, k) <= 0 && Cmp(k, p.ToPrefixLimit()) < 0
  {
    var r, s := Ranks(p), Ranks(k);
    assert Ranks(p.ToPrefixLimit()) == r;
    forall i | 0 <= i < |r| ensures -1 <= r[i].band <= 1 {
      RankInjective(p.columns[i], p.columns[i], order[i]);
    }
    forall i | 0 <= i < |s| ensures -1 <= s[i].band <= 1 {
      RankInjective(k.columns[i], k.columns[i], order[i]);
    }
    PrefixWords(r, s);
    if r <= s {
      forall i | 0 <= i < |r| ensures p.columns[i] == k.columns[i] {
        assert r[i] == s[i];
        RankInjective(p.columns[i], k.columns[i], order[i]);
      }
    }
    if p.columns <= k.columns {
      forall i | 0 <= i < |r| ensures r[i] == s[i] {
        assert p.columns[i] == k.columns[i];
      }
    }
  }

  /** Taking a prefix keeps the column order, and the prefix is a prefix. */
  lemma PrefixFollows(k: Key, n: nat, order: seq<ColumnOrder>)
    requires k.Follows(order) && n <= |k.columns| && k.IsRow()
    ensures k.Prefix(n).Follows(order) && k.Prefix(n).IsRow() && k.Prefix(n).IsPrefixOf(k)
    ensures k.Prefix(n).columns == k.columns[..n]
    ensures Cmp(k.Prefix(n), k) <= 0 && Cmp(k, k.Prefix(n).ToPrefixLimit()) < 0
  {
    PrefixSpan(k.Prefix(n), k, order);
  }
}
