/** The overlap check sorts by offset with an unstable sort.  Which files it accepts however that sort
 *  breaks ties, and which only if it breaks them well.
 */
module GgufOverlap {
  import opened Wrappers
  import opened Utf8
  import opened GgufIndex

  predicate Distinct(tensors: seq<Tensor>) {
    forall i: nat, j: nat | i < j < |tensors| :: tensors[i] != tensors[j]
  }

  /** An empty tensor starts where a non-empty one starts. */
  ghost predicate Tied(tensors: seq<Tensor>) {
    exists a <- tensors, b <- tensors ::
      a.absoluteOffset == b.absoluteOffset && a.raw.byteLength == 0 < b.raw.byteLength
  }

  /** When tensors are pairwise apart, an order passes the scan exactly if it never puts a non-empty
      tensor before an empty one that starts at the same byte. */
  lemma ScanIffEmptyFirst(tensors: seq<Tensor>, ordered: seq<Tensor>)
    requires Order(tensors, ordered) && AllApart(tensors)
    requires Distinct(ordered)
    ensures Scan(ordered) <==> forall i: nat | 0 < i < |ordered| ::
      ordered[i - 1].absoluteOffset == ordered[i].absoluteOffset ==> ordered[i - 1].raw.byteLength == 0
  {
    forall i: nat | 0 < i < |ordered|
      ensures ordered[i - 1].End() <= ordered[i].absoluteOffset <==>
        (ordered[i - 1].absoluteOffset == ordered[i].absoluteOffset ==> ordered[i - 1].raw.byteLength == 0)
    {
      assert ordered[i - 1] in multiset(ordered) && ordered[i] in multiset(ordered);
      assert ordered[i - 1] != ordered[i];
      assert Apart(ordered[i - 1], ordered[i]);
    }
  }

  /** So with an empty tensor the verdict can depend on how the sort breaks a tie. */
  lemma VerdictDependsOnTies(empty: Tensor, full: Tensor)
    requires empty.raw.byteLength == 0 < full.raw.byteLength && empty.absoluteOffset == full.absoluteOffset
    ensures Order([empty, full], [empty, full]) && Scan([empty, full])
    ensures Order([empty, full], [full, empty]) && !Scan([full, empty])
  {
    assert [full, empty][1 - 1].End() > [full, empty][1].absoluteOffset;
  }

  // ---------- Two ways to break ties ----------

  /** Whether a may stand in front of b when ties put the empty tensors first, or last. */
  predicate Before(a: Tensor, b: Tensor, emptyFirst: bool) {
    || a.absoluteOffset < b.absoluteOffset
    || (a.absoluteOffset == b.absoluteOffset
        && if emptyFirst then b.raw.byteLength == 0 ==> a.raw.byteLength == 0
           else a.raw.byteLength == 0 ==> b.raw.byteLength == 0)
  }

  predicate Ordered(tensors: seq<Tensor>, emptyFirst: bool) {
    forall i: nat, j: nat | i < j < |tensors| :: Before(tensors[i], tensors[j], emptyFirst)
  }

  function Insert(ordered: seq<Tensor>, tensor: Tensor, emptyFirst: bool): (r: seq<Tensor>)
    ensures multiset(r) == multiset(ordered) + multiset{tensor}
  {
    if ordered == [] || Before(tensor, ordered[0], emptyFirst) then [tensor] + ordered
    else
      assert ordered == [ordered[0]] + ordered[1..];
      [ordered[0]] + Insert(ordered[1..], tensor, emptyFirst)
  }

  function SortBy(tensors: seq<Tensor>, emptyFirst: bool): (r: seq<Tensor>)
    ensures multiset(r) == multiset(tensors)
  {
    if tensors == [] then []
    else
      assert tensors == [tensors[0]] + tensors[1..];
      Insert(SortBy(tensors[1..], emptyFirst), tensors[0], emptyFirst)
  }

  lemma {:induction false} InsertKeepsOrder(ordered: seq<Tensor>, tensor: Tensor, emptyFirst: bool)
    requires Ordered(ordered, emptyFirst)
    ensures Ordered(Insert(ordered, tensor, emptyFirst), emptyFirst)
  {
    if ordered != [] && !Before(tensor, ordered[0], emptyFirst) {
      var rest := Insert(ordered[1..], tensor, emptyFirst);
      InsertKeepsOrder(ordered[1..], tensor, emptyFirst);
      forall j: nat | j < |rest| ensures Before(ordered[0], rest[j], emptyFirst) {
        assert rest[j] in multiset(rest);
        if rest[j] != tensor { assert rest[j] in ordered[1..]; }
      }
    }
  }

  lemma {:induction false} SortByOrders(tensors: seq<Tensor>, emptyFirst: bool)
    ensures Ordered(SortBy(tensors, emptyFirst), emptyFirst) && Order(tensors, SortBy(tensors, emptyFirst))
  {
    if tensors != [] {
      SortByOrders(tensors[1..], emptyFirst);
      InsertKeepsOrder(SortBy(tensors[1..], emptyFirst), tensors[0], emptyFirst);
    }
  }

  // ---------- The exact conditions ----------

  lemma {:induction false} DistinctIffOnce(tensors: seq<Tensor>)
    ensures Distinct(tensors) <==> forall x: Tensor :: multiset(tensors)[x] <= 1
  {
    if tensors != [] {
      var rest, last := tensors[..|tensors| - 1], tensors[|tensors| - 1];
      DistinctIffOnce(rest);
      assert tensors == rest + [last];
      assert multiset(tensors) == multiset(rest) + multiset{last};
      if Distinct(tensors) {
        assert last !in rest;
      } else if Distinct(rest) {
        var i: nat, j: nat :| i < j < |tensors| && tensors[i] == tensors[j];
        assert rest[i] == last && last in multiset(rest);
        assert multiset(tensors)[last] > 1;
      } else {
        var x :| multiset(rest)[x] > 1;
        assert multiset(tensors)[x] > 1;
      }
    }
  }

  lemma OrderIsDistinct(tensors: seq<Tensor>, ordered: seq<Tensor>)
    requires Distinct(tensors) && Order(tensors, ordered)
    ensures Distinct(ordered)
  {
    DistinctIffOnce(tensors);
    DistinctIffOnce(ordered);
  }

  /** Tensors that are apart pass in at least one order. */
  lemma SomeOrderPasses(tensors: seq<Tensor>)
    requires Distinct(tensors) && AllApart(tensors)
    ensures Order(tensors, SortBy(tensors, true)) && Scan(SortBy(tensors, true))
  {
    var ordered := SortBy(tensors, true);
    SortByOrders(tensors, true);
    OrderIsDistinct(tensors, ordered);
    forall i: nat | 0 < i < |ordered| ensures ordered[i - 1].End() <= ordered[i].absoluteOffset {
      assert ordered[i - 1] in multiset(ordered) && ordered[i] in multiset(ordered);
      assert ordered[i - 1] != ordered[i] && Before(ordered[i - 1], ordered[i], true);
      assert Apart(ordered[i - 1], ordered[i]);
    }
  }

  lemma NoTiePasses(tensors: seq<Tensor>, ordered: seq<Tensor>)
    requires Distinct(tensors) && AllApart(tensors) && !Tied(tensors) && Order(tensors, ordered)
    ensures Scan(ordered)
  {
    OrderIsDistinct(tensors, ordered);
    forall i: nat | 0 < i < |ordered| ensures ordered[i - 1].End() <= ordered[i].absoluteOffset {
      assert ordered[i - 1] in multiset(ordered) && ordered[i] in multiset(ordered);
      assert ordered[i - 1] != ordered[i];
      assert Apart(ordered[i - 1], ordered[i]);
    }
  }

  /** A tie fails in the order that puts the empty tensor last. */
  lemma TieFails(tensors: seq<Tensor>)
    requires Tied(tensors)
    ensures Order(tensors, SortBy(tensors, false)) && !Scan(SortBy(tensors, false))
  {
    var ordered := SortBy(tensors, false);
    SortByOrders(tensors, false);
    var a, b :| a in tensors && b in tensors && a.absoluteOffset == b.absoluteOffset
      && a.raw.byteLength == 0 < b.raw.byteLength;
    assert a in multiset(ordered) && b in multiset(ordered);
    var i: nat :| i < |ordered| && ordered[i] == a;
    var j: nat :| j < |ordered| && ordered[j] == b;
    assert !Before(ordered[i], ordered[j], false);
    if Scan(ordered) { ScanReaches(ordered, j, i); }
  }

  /** The overlap check passes in every order exactly if the tensors are apart and no empty tensor
      starts where a non-empty one does; it passes in some order exactly if they are apart. */
  lemma EveryOrderPassesIffNoTie(tensors: seq<Tensor>)
    requires Distinct(tensors)
    ensures (forall ordered | Order(tensors, ordered) :: Scan(ordered)) <==> AllApart(tensors) && !Tied(tensors)
    ensures (exists ordered :: Order(tensors, ordered) && Scan(ordered)) <==> AllApart(tensors)
  {
    if AllApart(tensors) {
      SomeOrderPasses(tensors);
      if Tied(tensors) { TieFails(tensors); }
      forall ordered | Order(tensors, ordered) && !Tied(tensors) ensures Scan(ordered) {
        NoTiePasses(tensors, ordered);
      }
    } else {
      SortByOrders(tensors, true);
      forall ordered | Order(tensors, ordered) ensures !Scan(ordered) {
        if Scan(ordered) { ScanProvesApart(tensors, ordered); }
      }
    }
  }

  // ---------- Files ----------

  lemma ScansIffAccepted(data: seq<byte>, captured: set<string>, sort: seq<Tensor> -> seq<Tensor>)
    requires Indexed(data, captured).Ok?
    ensures Inspected(data, captured, sort) == Indexed(data, captured)
      <==> Scan(sort(Indexed(data, captured).value.tensors))
  {
    hide Indexed;
    NoOverlapIffScan(sort(Indexed(data, captured).value.tensors), 1);
  }

  lemma AllSorted()
    ensures forall tensors: seq<Tensor> :: Order(tensors, SortBy(tensors, true))
  {
    forall tensors: seq<Tensor> ensures Order(tensors, SortBy(tensors, true)) { SortByOrders(tensors, true); }
  }

  /** A sort that leaves one list in a chosen order. */
  ghost function WithOrder(tensors: seq<Tensor>, ordered: seq<Tensor>): (sort: seq<Tensor> -> seq<Tensor>)
    requires Order(tensors, ordered)
    ensures Sorts(sort) && sort(tensors) == ordered
  {
    AllSorted();
    (all: seq<Tensor>) => if all == tensors then ordered else SortBy(all, true)
  }

  /** A parsed file is accepted whatever its sort does with ties exactly if its tensors are apart and
      no empty tensor starts where a non-empty one does. */
  lemma AcceptedByEverySort(data: seq<byte>, captured: set<string>)
    requires Indexed(data, captured).Ok?
    ensures var tensors := Indexed(data, captured).value.tensors;
      (forall sort | Sorts(sort) :: Inspected(data, captured, sort) == Indexed(data, captured))
      <==> AllApart(tensors) && !Tied(tensors)
  {
    hide Indexed, Scan, FirstOverlap, AllApart, Tied;
    var tensors := Indexed(data, captured).value.tensors;
    IndexedIsSound(data, captured);
    EveryOrderPassesIffNoTie(tensors);
    forall sort | Sorts(sort)
      ensures Inspected(data, captured, sort) == Indexed(data, captured) <==> Scan(sort(tensors))
    {
      ScansIffAccepted(data, captured, sort);
    }
    if !(AllApart(tensors) && !Tied(tensors)) {
      var ordered :| Order(tensors, ordered) && !Scan(ordered);
      var sort := WithOrder(tensors, ordered);
      assert Sorts(sort) && sort(tensors) == ordered;
    }
  }

  /** With disjoint tensors and a tie, one sort makes the parser accept a file and another refuse it. */
  lemma SortDecidesTies(data: seq<byte>, captured: set<string>)
    requires Indexed(data, captured).Ok?
    requires AllApart(Indexed(data, captured).value.tensors) && Tied(Indexed(data, captured).value.tensors)
    ensures exists sort :: Sorts(sort) && Inspected(data, captured, sort) == Indexed(data, captured)
    ensures exists sort :: Sorts(sort) && Inspected(data, captured, sort) != Indexed(data, captured)
  {
    hide Indexed, Inspected, AllApart, Tied, Scan, Order, Sorts, SortBy, Sound;
    var tensors := Indexed(data, captured).value.tensors;
    IndexedIsSound(data, captured);
    SomeOrderPasses(tensors);
    var good := WithOrder(tensors, SortBy(tensors, true));
    ScansIffAccepted(data, captured, good);
    TieFails(tensors);
    var bad := WithOrder(tensors, SortBy(tensors, false));
    ScansIffAccepted(data, captured, bad);
  }
}
