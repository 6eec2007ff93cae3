/** Key ranges (backend/datamodel/key_range.h, backend/datamodel/key_range.cc). */
module KeyRanges {
  import opened Keys

  datatype EndpointType = Open | Closed

  datatype KeyRange = KeyRange(startType: EndpointType, start: Key, limitType: EndpointType, limit: Key)
  {
    predicate Follows(order: seq<ColumnOrder>) {
      start.Follows(order) && limit.Follows(order)
    }

    predicate IsClosedOpen() {
      startType == Closed && limitType == Open
    }

    /** The emptiness test made wherever a closed-open range is used. */
    predicate IsEmpty() {
      Cmp(start, limit) >= 0
    }

    /** Membership by plain comparison, as the ordered row map of the storage sees a closed-open range. */
    predicate Spans(k: Key) {
      Cmp(start, k) <= 0 && Cmp(k, limit) < 0
    }

    predicate Contains(k: Key) {
      && (match startType
          case Open => !(Cmp(k, start) <= 0 || start.IsPrefixOf(k))
          case Closed => !(Cmp(k, start) < 0))
      && (match limitType
          case Open => !(Cmp(k, limit) >= 0)
          case Closed => !(Cmp(k, limit) > 0 && !limit.IsPrefixOf(k)))
    }

    function ToClosedOpen(): KeyRange {
      ClosedOpen(if startType == Closed then start else start.ToPrefixLimit(),
                 if limitType == Open then limit else limit.ToPrefixLimit())
    }
  }

  function ClosedOpen(start: Key, limit: Key): KeyRange {
    KeyRange(Closed, start, Open, limit)
  }

  function All(): KeyRange {
    ClosedOpen(EMPTY, INFINITY)
  }

  /** Both `KeyRange::Point` and `KeyRange::Prefix`. */
  function Point(k: Key): KeyRange {
    ClosedOpen(k, k.ToPrefixLimit())
  }

  lemma AllSpansEveryRow(k: Key)
    requires k.IsRow()
    ensures All().Spans(k)
  {
    EmptyIsLeast(k);
    InfinityIsGreatest(k);
  }

  lemma EmptySpansNothing(r: KeyRange, k: Key)
    requires r.IsEmpty()
    ensures !r.Spans(k)
  {
    if r.Spans(k) {
      Transitive(r.start, k, r.limit);
    }
  }

  /** A point range holds exactly the rows that extend its key. */
  lemma PointSpansExtensions(p: Key, k: Key, order: seq<ColumnOrder>)
    requires p.Follows(order) && k.Follows(order) && p.IsRow() && k.IsRow()
    ensures Point(p).Spans(k) <==> p.IsPrefixOf(k)
    ensures Point(p).Spans(k) <==> p.columns <= k.columns
  {
    PrefixSpan(p, k, order);
  }

  /** A prefix limit is where the rows extending its key stop, whatever kind of key it limits. */
  lemma LimitSplitsRows(p: Key, k: Key, order: seq<ColumnOrder>)
    requires p.Follows(order) && k.Follows(order) && k.IsRow()
    ensures Cmp(k, p.ToPrefixLimit()) < 0 <==> Cmp(k, p) <= 0 || p.IsPrefixOf(k)
    ensures Cmp(k, p.ToPrefixLimit()) != 0 && -1 <= Cmp(k, p.ToPrefixLimit()) <= 1
  {
    var l := p.ToPrefixLimit();
    EqualMeansSame(k, l, order);
    EqualMeansSame(k, p, order);
    Antisymmetric(k, l);
    if p.isInfinity {
      InfinityIsGreatest(k);
      assert Position(l) == Position(p) == Position(INFINITY);
    } else if p.isPrefixLimit {
      assert l == p;
    } else {
      PrefixSpan(p, k, order);
      PrefixSpan(p, p, order);
      Antisymmetric(p, k);
      if Cmp(k, p) <= 0 {
        Transitive(k, p, l);
      }
    }
  }

  /** For row keys and all four endpoint shapes, Contains is plain comparison against ToClosedOpen. */
  lemma ContainsIsSpans(r: KeyRange, k: Key, order: seq<ColumnOrder>)
    requires r.Follows(order) && k.Follows(order) && k.IsRow()
    ensures r.Contains(k) <==> r.ToClosedOpen().Spans(k)
  {
    LimitSplitsRows(r.start, k, order);
    LimitSplitsRows(r.limit, k, order);
    Antisymmetric(r.start, k);
    Antisymmetric(r.start.ToPrefixLimit(), k);
  }

  /**
   * Between row keys: an endpoint's own rows, those that extend its key, are in exactly if
   * it is closed; the other rows are in if they lie between the endpoints.
   */
  lemma EndpointsDecide(r: KeyRange, k: Key, order: seq<ColumnOrder>)
    requires r.Follows(order) && k.Follows(order) && k.IsRow() && r.start.IsRow() && r.limit.IsRow()
    ensures r.Contains(k) <==>
            && (if r.start.columns <= k.columns then r.startType == Closed else Cmp(r.start, k) < 0)
            && (if r.limit.columns <= k.columns then r.limitType == Closed else Cmp(k, r.limit) < 0)
  {
    hide Position, CompareWords;
    Antisymmetric(r.start, k);
    Antisymmetric(r.limit, k);
    EqualMeansSame(k, r.start, order);
    EqualMeansSame(k, r.limit, order);
    if r.start.columns <= k.columns {
      ExtensionDecides(r.start, k, order);
    }
    if r.limit.columns <= k.columns {
      ExtensionDecides(r.limit, k, order);
    }
  }

  /** Row keys are exactly the keys for which that holds whatever the range is. */
  lemma ContainsIsSpansOnlyForRows(k: Key, order: seq<ColumnOrder>)
    requires k.Follows(order)
    ensures k.IsRow() <==>
            forall r: KeyRange :: r.Follows(order) ==> (r.Contains(k) <==> r.ToClosedOpen().Spans(k))
  {
    if k.IsRow() {
      forall r: KeyRange | r.Follows(order) ensures r.Contains(k) <==> r.ToClosedOpen().Spans(k) {
        ContainsIsSpans(r, k, order);
      }
    } else if k.isInfinity {
      var r := KeyRange(Closed, EMPTY, Closed, INFINITY);
      EmptyIsLeast(k);
      Antisymmetric(EMPTY, k);
      WordsAntisymmetric([TOP], [TOP]);
      assert r.Follows(order) && r.Contains(k) && !r.ToClosedOpen().Spans(k);
    } else {
      var r := KeyRange(Open, k, Open, INFINITY);
      WordsAntisymmetric(Position(k), Position(k));
      InfinityIsGreatest(k);
      assert r.Follows(order) && !r.Contains(k) && r.ToClosedOpen().Spans(k);
    }
  }
}
