/** Key sets and their disjoint ranges (backend/datamodel/key_set.h, backend/datamodel/key_set.cc). */
module KeySets {
  import opened Keys
  import opened KeyRanges

  datatype KeySet = KeySet(keys: seq<Key>, ranges: seq<KeyRange>)
  {
    predicate Follows(order: seq<ColumnOrder>) {
      && (forall i :: 0 <= i < |keys| ==> keys[i].Follows(order) && keys[i].IsRow())
      && (forall i :: 0 <= i < |ranges| ==> ranges[i].Follows(order))
    }

    /** The rows a key set names: those extending one of its keys or inside one of its ranges. */
    ghost predicate Names(k: Key) {
      || (exists i :: 0 <= i < |keys| && keys[i].IsPrefixOf(k))
      || (exists i :: 0 <= i < |ranges| && ranges[i].Contains(k))
    }
  }

  ghost predicate Covered(rs: seq<KeyRange>, k: Key) {
    exists i :: 0 <= i < |rs| && rs[i].Spans(k)
  }

  ghost predicate SortedByStart(rs: seq<KeyRange>) {
    forall i, j :: 0 <= i < j < |rs| ==> Cmp(rs[i].start, rs[j].start) <= 0
  }

  /** Each limit lies strictly below every later start, and only the first range may be empty. */
  ghost predicate Disjoint(rs: seq<KeyRange>) {
    && (forall i, j :: 0 <= i < j < |rs| ==> Cmp(rs[i].limit, rs[j].start) < 0)
    && (forall i :: 1 <= i < |rs| ==> !rs[i].IsEmpty())
  }

  /** The closed-open range of every key and range, keys first. */
  function AsRanges(ks: KeySet): (rs: seq<KeyRange>)
    ensures |rs| == |ks.keys| + |ks.ranges|
    ensures forall i :: 0 <= i < |rs| ==> rs[i].IsClosedOpen()
  {
    seq(|ks.keys|, i requires 0 <= i < |ks.keys| => Point(ks.keys[i])) +
    seq(|ks.ranges|, i requires 0 <= i < |ks.ranges| => ks.ranges[i].ToClosedOpen())
  }

  lemma AsRangesCoversNamed(ks: KeySet, k: Key, order: seq<ColumnOrder>)
    requires ks.Follows(order) && k.Follows(order) && k.IsRow()
    ensures Covered(AsRanges(ks), k) <==> ks.Names(k)
  {
    hide Cmp, KeyRange.Spans, KeyRange.Contains, KeyData.IsPrefixOf, KeyRange.ToClosedOpen, Point;
    var rs, n := AsRanges(ks), |ks.keys|;
    forall i | 0 <= i < n ensures rs[i].Spans(k) <==> ks.keys[i].IsPrefixOf(k) {
      PointSpansExtensions(ks.keys[i], k, order);
    }
    forall i | n <= i < |rs| ensures rs[i].Spans(k) <==> ks.ranges[i - n].Contains(k) {
      ContainsIsSpans(ks.ranges[i - n], k, order);
    }
    if j :| 0 <= j < |ks.ranges| && ks.ranges[j].Contains(k) {
      assert rs[n + j].Spans(k);
    }
  }

  lemma CoveredSnoc(rs: seq<KeyRange>, r: KeyRange, k: Key)
    ensures Covered(rs + [r], k) <==> Covered(rs, k) || r.Spans(k)
  {
    assert (rs + [r])[|rs|] == r;
    if i :| 0 <= i < |rs| && rs[i].Spans(k) {
      assert (rs + [r])[i] == rs[i];
    }
  }

  lemma CoveredPermutation(rs: seq<KeyRange>, ss: seq<KeyRange>, k: Key)
    requires multiset(rs) == multiset(ss) && Covered(rs, k)
    ensures Covered(ss, k)
  {
    var i :| 0 <= i < |rs| && rs[i].Spans(k);
    assert rs[i] in multiset(ss);
    var j :| 0 <= j < |ss| && ss[j] == rs[i];
  }

  /** Overlapping or touching ranges: the union of the two is one range. */
  lemma Absorb(last: KeyRange, next: KeyRange, limit: Key, k: Key)
    requires Cmp(last.start, next.start) <= 0 && Cmp(next.start, last.limit) <= 0 && !next.IsEmpty()
    requires Cmp(last.limit, limit) <= 0 && Cmp(next.limit, limit) <= 0
    requires limit == last.limit || limit == next.limit
    ensures last.(limit := limit).Spans(k) <==> last.Spans(k) || next.Spans(k)
  {
    hide Cmp;
    Antisymmetric(k, last.limit);
    Antisymmetric(next.start, k);
    if next.Spans(k) {
      Transitive(last.start, next.start, k);
      Transitive(k, next.limit, limit);
    }
    if last.Spans(k) {
      Transitive(k, last.limit, limit);
    }
    if last.(limit := limit).Spans(k) && Cmp(k, last.limit) >= 0 {
      Transitive(next.start, last.limit, k);
    }
  }

  /** What one turn of the merging walk makes of the ranges merged so far. */
  function Turned(merged: seq<KeyRange>, r: KeyRange): seq<KeyRange>
    requires merged != []
  {
    var n := |merged| - 1;
    var limit := merged[n].limit;
    if r.IsEmpty() then merged
    else if Cmp(r.start, limit) == 1 then merged + [r]
    else if Cmp(r.start, limit) == 0 then merged[..n] + [merged[n].(limit := r.limit)]
    else merged[..n] + [merged[n].(limit := if Cmp(r.limit, limit) < 0 then limit else r.limit)]
  }

  /** `merged` stands for the ranges walked so far. */
  ghost predicate Stands(merged: seq<KeyRange>, walked: seq<KeyRange>) {
    && merged != [] && walked != []
    && Disjoint(merged) && SortedByStart(merged)
    && (forall i :: 0 <= i < |merged| ==> merged[i].IsClosedOpen())
    && Cmp(merged[|merged| - 1].start, walked[|walked| - 1].start) <= 0
    && forall k: Key :: Covered(merged, k) <==> Covered(walked, k)
  }

  lemma KeepsDisjoint(merged: seq<KeyRange>, r: KeyRange)
    requires |merged| > 0 && Disjoint(merged) && SortedByStart(merged) && !r.IsEmpty()
    requires Cmp(merged[|merged| - 1].limit, r.start) < 0 && Cmp(merged[|merged| - 1].start, r.start) <= 0
    ensures Disjoint(merged + [r]) && SortedByStart(merged + [r])
  {
    hide Cmp;
    var n := |merged| - 1;
    forall i | 0 <= i < n ensures Cmp(merged[i].limit, r.start) < 0 && Cmp(merged[i].start, r.start) <= 0 {
      Transitive(merged[i].limit, merged[n].start, r.start);
      Transitive(merged[i].start, merged[n].start, r.start);
    }
  }

  lemma ExtendKeepsDisjoint(merged: seq<KeyRange>, r: KeyRange, limit: Key)
    requires |merged| > 0 && Disjoint(merged) && SortedByStart(merged)
    requires Cmp(merged[|merged| - 1].start, limit) < 0
    ensures var extended := merged[..|merged| - 1] + [merged[|merged| - 1].(limit := limit)];
            Disjoint(extended) && SortedByStart(extended)
  {
    hide Cmp;
  }

  /** The limit the last range gets when `r` starts within it or where it ends. */
  function Reached(last: KeyRange, r: KeyRange): Key {
    if Cmp(r.start, last.limit) == 0 || Cmp(r.limit, last.limit) >= 0 then r.limit else last.limit
  }

  lemma ReachedBounds(last: KeyRange, r: KeyRange)
    requires Cmp(last.start, r.start) <= 0 && Cmp(r.start, last.limit) <= 0 && !r.IsEmpty()
    ensures var limit := Reached(last, r);
      && Cmp(last.limit, limit) <= 0 && Cmp(r.limit, limit) <= 0 && Cmp(last.start, limit) < 0
      && limit == if Cmp(r.start, last.limit) == 0 || Cmp(r.limit, last.limit) >= 0 then r.limit else last.limit
  {
    hide Cmp;
    Reflexive(r.limit);
    Reflexive(last.limit);
    Antisymmetric(r.start, last.limit);
    Antisymmetric(r.limit, last.limit);
    Antisymmetric(r.start, r.limit);
    Transitive(last.start, r.start, r.limit);
    if Cmp(r.start, last.limit) == 0 {
      Transitive(last.limit, r.start, r.limit);
    }
    Transitive(last.start, r.limit, Reached(last, r));
  }

  /** What a turn covers, and that it keeps the ranges apart. */
  lemma TurnCovers(merged: seq<KeyRange>, r: KeyRange, k: Key)
    requires merged != [] && Cmp(merged[|merged| - 1].start, r.start) <= 0
    ensures Covered(Turned(merged, r), k) <==> Covered(merged, k) || r.Spans(k)
  {
    hide Cmp, KeyRange.Spans, Covered;
    var n := |merged| - 1;
    var last := merged[n];
    Antisymmetric(r.start, last.limit);
    Antisymmetric(r.limit, last.limit);
    if r.IsEmpty() {
      EmptySpansNothing(r, k);
    } else if Cmp(r.start, last.limit) == 1 {
      CoveredSnoc(merged, r, k);
    } else {
      ReachedBounds(last, r);
      assert merged == merged[..n] + [last];
      CoveredSnoc(merged[..n], last, k);
      CoveredSnoc(merged[..n], last.(limit := Reached(last, r)), k);
      Absorb(last, r, Reached(last, r), k);
    }
  }

  lemma TurnKeepsApart(merged: seq<KeyRange>, r: KeyRange)
    requires merged != [] && Disjoint(merged) && SortedByStart(merged)
    requires Cmp(merged[|merged| - 1].start, r.start) <= 0
    ensures Disjoint(Turned(merged, r)) && SortedByStart(Turned(merged, r))
    ensures Cmp(Turned(merged, r)[|Turned(merged, r)| - 1].start, r.start) <= 0
  {
    hide Cmp, Disjoint, SortedByStart;
    var last := merged[|merged| - 1];
    Reflexive(r.start);
    Antisymmetric(r.start, last.limit);
    Antisymmetric(r.limit, last.limit);
    if !r.IsEmpty() && Cmp(r.start, last.limit) == 1 {
      KeepsDisjoint(merged, r);
    } else if !r.IsEmpty() {
      ReachedBounds(last, r);
      ExtendKeepsDisjoint(merged, r, Reached(last, r));
    }
  }

  lemma TurnKeepsStanding(merged: seq<KeyRange>, walked: seq<KeyRange>, r: KeyRange)
    requires Stands(merged, walked) && r.IsClosedOpen()
    requires Cmp(walked[|walked| - 1].start, r.start) <= 0
    ensures Stands(Turned(merged, r), walked + [r])
  {
    hide Cmp, KeyRange.Spans, Covered, Disjoint, SortedByStart;
    Transitive(merged[|merged| - 1].start, walked[|walked| - 1].start, r.start);
    TurnKeepsApart(merged, r);
    forall k: Key ensures Covered(Turned(merged, r), k) <==> Covered(walked + [r], k) {
      CoveredSnoc(walked, r, k);
      TurnCovers(merged, r, k);
    }
  }

  /** The merging walk with its `last` and `next` cursors, in place. */
  method MergeInPlace(a: array<KeyRange>) returns (n: nat)
    requires a.Length > 0
    requires SortedByStart(a[..])
    requires forall i :: 0 <= i < a.Length ==> a[i].IsClosedOpen()
    modifies a
    ensures 1 <= n <= a.Length
    ensures Stands(a[..n], old(a[..]))
  {
    hide Cmp, KeyRange.IsEmpty, Stands;
    ghost var s := a[..];
    var last, next := 0, 1;
    FirstStands(s);
    assert a[..1] == s[..1];
    while next != a.Length
      invariant 0 <= last < next <= a.Length
      invariant a[next..] == s[next..]
      invariant Stands(a[..last + 1], s[..next])
    {
      ghost var merged := a[..last + 1];
      ghost var r := a[next];
      assert r == a[next..][0] == s[next];
      assert s[..next + 1] == s[..next] + [r];
      TurnKeepsStanding(merged, s[..next], r);
      if !a[next].IsEmpty() {
        Antisymmetric(a[next].start, a[last].limit);
        var c := Cmp(a[next].start, a[last].limit);
        if c == 1 {
          last := last + 1;
          a[last] := a[next];
        } else if c == 0 {
          a[last] := a[last].(limit := a[next].limit);
        } else {
          a[last] := a[last].(limit := if Cmp(a[next].limit, a[last].limit) < 0 then a[last].limit else a[next].limit);
        }
      }
      assert a[..last + 1] == Turned(merged, r);
      next := next + 1;
    }
    assert s[..next] == s;
    n := last + 1;
  }

  lemma FirstStands(s: seq<KeyRange>)
    requires s != [] && s[0].IsClosedOpen()
    ensures Stands(s[..1], s[..1])
  {
    Reflexive(s[0].start);
  }

  /**
   * MakeDisjointKeyRanges. `sorted` is what std::sort left in the vector: any
   * permutation of the ranges that is ordered by start key.
   */
  method MakeDisjointKeyRanges(ks: KeySet, sorted: seq<KeyRange>) returns (out: seq<KeyRange>)
    requires SortedByStart(sorted) && multiset(sorted) == multiset(AsRanges(ks))
    ensures Disjoint(out) && SortedByStart(out)
    ensures forall i :: 0 <= i < |out| ==> out[i].IsClosedOpen()
    ensures forall order, k: Key :: ks.Follows(order) && k.Follows(order) && k.IsRow() ==>
              (Covered(out, k) <==> ks.Names(k))
  {
    hide Cmp, KeyRange.Spans, Covered, KeySet.Names;
    ghost var all := AsRanges(ks);
    out := [];
    for i := 0 to |ks.keys|
      invariant out == all[..i]
    {
      out := out + [Point(ks.keys[i])];
    }
    for i := 0 to |ks.ranges|
      invariant out == all[..|ks.keys| + i]
    {
      out := out + [ks.ranges[i].ToClosedOpen()];
    }
    assert out == all;
    if out != [] {
      PermutationOfClosedOpen(sorted, ks);
      var vector := new KeyRange[|sorted|](i requires 0 <= i < |sorted| => sorted[i]);
      assert vector[..] == sorted;
      var n := MergeInPlace(vector);
      out := vector[..n];
      forall k: Key ensures Covered(out, k) <==> Covered(all, k) {
        SameCover(sorted, all, k);
      }
    }
    forall order, k: Key | ks.Follows(order) && k.Follows(order) && k.IsRow()
      ensures Covered(out, k) <==> ks.Names(k)
    {
      AsRangesCoversNamed(ks, k, order);
    }
  }

  lemma SameCover(rs: seq<KeyRange>, ss: seq<KeyRange>, k: Key)
    requires multiset(rs) == multiset(ss)
    ensures Covered(rs, k) <==> Covered(ss, k)
  {
    if Covered(rs, k) { CoveredPermutation(rs, ss, k); }
    if Covered(ss, k) { CoveredPermutation(ss, rs, k); }
  }

  lemma PermutationOfClosedOpen(sorted: seq<KeyRange>, ks: KeySet)
    requires multiset(sorted) == multiset(AsRanges(ks))
    ensures |sorted| == |ks.keys| + |ks.ranges|
    ensures forall i :: 0 <= i < |sorted| ==> sorted[i].IsClosedOpen()
  {
    var all := AsRanges(ks);
    assert |sorted| == |multiset(sorted)| == |multiset(all)| == |all|;
    forall i | 0 <= i < |sorted| ensures sorted[i].IsClosedOpen() {
      assert sorted[i] in multiset(all);
      var j :| 0 <= j < |all| && all[j] == sorted[i];
    }
  }

  /** Reading disjoint ranges one after another visits each row once and in key order. */
  lemma RowsReadOnceInOrder(rs: seq<KeyRange>, i: nat, j: nat, k: Key, l: Key)
    requires Disjoint(rs) && i < |rs| && j < |rs|
    requires rs[i].Spans(k) && rs[j].Spans(l)
    ensures i < j ==> Cmp(k, l) < 0
    ensures k == l ==> i == j
  {
    hide Cmp;
    Reflexive(k);
    if i < j {
      Transitive(k, rs[i].limit, rs[j].start);
      Transitive(k, rs[j].start, l);
    } else if j < i {
      Transitive(l, rs[j].limit, rs[i].start);
      Transitive(l, rs[i].start, k);
    }
  }

  // ---------------------------------------------------------------------------
  // Every vector has a sorted permutation, so the sort can always answer.
  // ---------------------------------------------------------------------------

  function InsertByStart(rs: seq<KeyRange>, r: KeyRange): seq<KeyRange> {
    if rs == [] || Cmp(rs[|rs| - 1].start, r.start) <= 0 then rs + [r]
    else InsertByStart(rs[..|rs| - 1], r) + [rs[|rs| - 1]]
  }

  function Sorted(rs: seq<KeyRange>): seq<KeyRange> {
    if rs == [] then [] else InsertByStart(Sorted(rs[..|rs| - 1]), rs[|rs| - 1])
  }

  lemma {:induction false} InsertSorts(rs: seq<KeyRange>, r: KeyRange)
    requires SortedByStart(rs)
    ensures SortedByStart(InsertByStart(rs, r))
    ensures multiset(InsertByStart(rs, r)) == multiset(rs) + multiset{r}
  {
    hide Cmp;
    if rs == [] {
    } else if Cmp(rs[|rs| - 1].start, r.start) <= 0 {
      forall i | 0 <= i < |rs| ensures Cmp(rs[i].start, r.start) <= 0 {
        if i < |rs| - 1 { Transitive(rs[i].start, rs[|rs| - 1].start, r.start); }
      }
    } else {
      var front, last := rs[..|rs| - 1], rs[|rs| - 1];
      assert rs == front + [last];
      InsertSorts(front, r);
      var ins := InsertByStart(front, r);
      Antisymmetric(last.start, r.start);
      forall i | 0 <= i < |ins| ensures Cmp(ins[i].start, last.start) <= 0 {
        assert ins[i] in multiset(ins);
        assert ins[i] in front || ins[i] == r;
      }
    }
  }

  lemma {:induction false} SortedExists(rs: seq<KeyRange>)
    ensures SortedByStart(Sorted(rs)) && multiset(Sorted(rs)) == multiset(rs)
  {
    if rs != [] {
      assert rs == rs[..|rs| - 1] + [rs[|rs| - 1]];
      SortedExists(rs[..|rs| - 1]);
      InsertSorts(Sorted(rs[..|rs| - 1]), rs[|rs| - 1]);
    }
  }
}
