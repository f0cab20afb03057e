/** Least-recently-used residency, defined by the access trace alone, and the slot tags
 *  (expert, clock value of the last use) that both expert caches maintain to realise it.
 */
module Lru {
  import opened Wrappers

  // ---------- Residency as a function of the trace ----------

  function Without(s: seq<nat>, e: nat): (r: seq<nat>)
    ensures forall x :: x in r <==> x in s && x != e
    ensures |r| <= |s|
  {
    if s == [] then [] else if s[0] == e then Without(s[1..], e) else [s[0]] + Without(s[1..], e)
  }

  ghost predicate Distinct(s: seq<nat>) {
    forall i, j | 0 <= i < j < |s| :: s[i] != s[j]
  }

  /** Moves `e` to the front. */
  function Touch(recent: seq<nat>, e: nat): seq<nat> {
    [e] + Without(recent, e)
  }

  /** The distinct experts of a trace, most recently used first. */
  function Recent(trace: seq<nat>): seq<nat> {
    if trace == [] then [] else Touch(Recent(trace[..|trace| - 1]), trace[|trace| - 1])
  }

  function Take(s: seq<nat>, k: nat): seq<nat> {
    if k < |s| then s[..k] else s
  }

  /** What a cache of k slots holds after a trace: the last min(k, distinct) distinct experts. */
  function Resident(trace: seq<nat>, k: nat): seq<nat> {
    Take(Recent(trace), k)
  }

  lemma DistinctCons(x: nat, s: seq<nat>)
    requires Distinct(s) && x !in s
    ensures Distinct([x] + s)
  {
  }

  lemma {:induction false} WithoutDistinct(s: seq<nat>, e: nat)
    requires Distinct(s)
    ensures Distinct(Without(s, e))
  {
    if s != [] {
      WithoutDistinct(s[1..], e);
      assert s[0] !in s[1..];
      DistinctCons(s[0], Without(s[1..], e));
    }
  }

  lemma {:induction false} RecentIsTraceWithoutRepeats(trace: seq<nat>)
    ensures Distinct(Recent(trace))
    ensures forall e :: e in Recent(trace) <==> e in trace
  {
    if trace != [] {
      var before := trace[..|trace| - 1];
      RecentIsTraceWithoutRepeats(before);
      WithoutDistinct(Recent(before), trace[|trace| - 1]);
      DistinctCons(trace[|trace| - 1], Without(Recent(before), trace[|trace| - 1]));
      assert trace == before + [trace[|trace| - 1]];
    }
  }

  /** The other experts acquired since the last acquire of `e`. */
  function Since(trace: seq<nat>, e: nat): set<nat> {
    if trace == [] || trace[|trace| - 1] == e then {}
    else Since(trace[..|trace| - 1], e) + {trace[|trace| - 1]}
  }

  /** The elements in front of the first `e`. */
  ghost function Before(s: seq<nat>, e: nat): set<nat> {
    if s == [] || s[0] == e then {} else {s[0]} + Before(s[1..], e)
  }

  lemma {:induction false} BeforeIn(s: seq<nat>, e: nat)
    ensures forall x <- Before(s, e) :: x in s && x != e
  {
    if s != [] { BeforeIn(s[1..], e); }
  }

  lemma {:induction false} BeforeSize(s: seq<nat>, i: nat)
    requires Distinct(s) && i < |s|
    ensures |Before(s, s[i])| == i
  {
    if i > 0 {
      BeforeSize(s[1..], i - 1);
      BeforeIn(s[1..], s[i]);
      assert s[0] !in s[1..];
    }
  }

  lemma {:induction false} BeforeWithout(s: seq<nat>, e: nat, x: nat)
    requires x in s && x != e
    ensures Before(Without(s, e), x) == Before(s, x) - {e}
  {
    if s[0] != x { BeforeWithout(s[1..], e, x); }
  }

  lemma {:induction false} WithoutAbsent(s: seq<nat>, e: nat)
    requires e !in s
    ensures Without(s, e) == s
  {
    if s != [] { WithoutAbsent(s[1..], e); }
  }

  lemma {:induction false} SinceOmits(trace: seq<nat>, e: nat)
    ensures e !in Since(trace, e)
  {
    if trace != [] { SinceOmits(trace[..|trace| - 1], e); }
  }

  /** The experts in front of `e` in recency order are exactly those acquired since. */
  lemma {:induction false} FrontIsSince(trace: seq<nat>, e: nat)
    requires e in trace
    ensures Before(Recent(trace), e) == Since(trace, e)
  {
    var before, last := trace[..|trace| - 1], trace[|trace| - 1];
    if last != e {
      assert trace == before + [last];
      RecentIsTraceWithoutRepeats(before);
      FrontIsSince(before, e);
      BeforeWithout(Recent(before), last, e);
      assert Recent(trace)[1..] == Without(Recent(before), last);
      SinceOmits(before, e);
    }
  }

  /** A cache of k slots still holds `e` exactly when `e` was acquired and fewer than k other
      distinct experts have been acquired since. */
  lemma ResidentIffFewOthersSince(trace: seq<nat>, k: nat, e: nat)
    ensures e in Resident(trace, k) <==> e in trace && |Since(trace, e)| < k
  {
    RecentIsTraceWithoutRepeats(trace);
    var recent := Recent(trace);
    if e in trace {
      FrontIsSince(trace, e);
      var i :| 0 <= i < |recent| && recent[i] == e;
      BeforeSize(recent, i);
      if i < k { assert Resident(trace, k)[i] == e; }
    }
  }

  /** Inclusion: on one trace a larger cache holds everything a smaller one does, in the same order. */
  lemma MoreSlotsHoldMore(trace: seq<nat>, k: nat, more: nat)
    requires k <= more
    ensures Resident(trace, k) <= Resident(trace, more)
    ensures |Resident(trace, more)| == if more < |Recent(trace)| then more else |Recent(trace)|
  {
  }

  lemma TakeCons(s: seq<nat>, k: nat)
    requires s != []
    ensures Take(s, k + 1) == [s[0]] + Take(s[1..], k)
  {
  }

  lemma TakeOfCons(x: nat, s: seq<nat>, k: nat)
    ensures Take([x] + s, k + 1) == [x] + Take(s, k)
  {
    assert ([x] + s)[1..] == s;
    TakeCons([x] + s, k);
  }

  lemma TakenAbsent(s: seq<nat>, e: nat, k: nat)
    requires e !in s
    ensures Without(Take(s, k), e) == Take(s, k)
  {
    WithoutAbsent(Take(s, k), e);
  }

  /** One access on the truncated list is the same as truncating after one access on the full list. */
  lemma {:induction false} WithoutTake(s: seq<nat>, e: nat, k: nat)
    requires Distinct(s)
    ensures Take(Without(s, e), k) == Take(Without(Take(s, k + 1), e), k)
  {
    if s != [] {
      var first, rest := s[0], s[1..];
      TakeCons(s, k);
      assert ([first] + Take(rest, k))[1..] == Take(rest, k);
      hide Take, Without;
      if first == e {
        WithoutAbsent(rest, e);
        TakenAbsent(rest, e, k);
      } else if k > 0 {
        WithoutTake(rest, e, k - 1);
        TakeOfCons(first, Without(rest, e), k - 1);
        TakeOfCons(first, Without(Take(rest, k), e), k - 1);
      }
    }
  }

  lemma ResidentStep(trace: seq<nat>, k: nat, e: nat)
    requires k > 0
    ensures Resident(trace + [e], k) == [e] + Take(Without(Resident(trace, k), e), k - 1)
  {
    hide Without;
    assert (trace + [e])[..|trace|] == trace;
    RecentIsTraceWithoutRepeats(trace);
    WithoutTake(Recent(trace), e, k - 1);
  }

  // ---------- Slot tags ----------

  datatype Tag = Tag(expert: Option<nat>, lastUsed: nat)

  ghost predicate Newer(tags: seq<Tag>, i: nat, j: nat) {
    i < |tags| && j < |tags| && tags[j].lastUsed < tags[i].lastUsed
  }

  ghost predicate OrderedAt(tags: seq<Tag>, order: seq<nat>, clock: nat, resident: seq<nat>, p: nat)
    requires p < |order| == |resident|
  {
    order[p] < |tags| && tags[order[p]].expert == Some(resident[p]) && tags[order[p]].lastUsed <= clock
  }

  /** `order` lists the occupied slots, most recently used first, and shows `resident`. */
  ghost predicate Ordered(tags: seq<Tag>, order: seq<nat>, clock: nat, resident: seq<nat>) {
    && |order| == |resident| && Distinct(resident)
    && (forall p: nat | p < |order| :: OrderedAt(tags, order, clock, resident, p))
    && (forall p: nat, q: nat | p < q < |order| :: Newer(tags, order[p], order[q]))
    && (forall i: nat | i < |tags| && tags[i].expert.Some? :: i in order)
  }

  /** The slot tags show exactly what the trace says a cache of this many slots holds. */
  ghost predicate Realises(tags: seq<Tag>, clock: nat, trace: seq<nat>) {
    exists order: seq<nat> :: Ordered(tags, order, clock, Resident(trace, |tags|))
  }

  method FindSlot(tags: seq<Tag>, e: nat) returns (r: Option<nat>)
    ensures r.Some? ==> r.value < |tags| && tags[r.value].expert == Some(e)
    ensures r.None? ==> forall i | 0 <= i < |tags| :: tags[i].expert != Some(e)
  {
    for i := 0 to |tags|
      invariant forall j | 0 <= j < i :: tags[j].expert != Some(e)
    {
      if tags[i].expert == Some(e) { return Some(i); }
    }
    return None;
  }

  /** The order in which slots are given up: empty ones, then the least recently used, then the first. */
  predicate Earlier(tags: seq<Tag>, i: nat, j: nat)
    requires i < |tags| && j < |tags|
  {
    if tags[i].expert.Some? != tags[j].expert.Some? then tags[i].expert.None?
    else tags[i].lastUsed < tags[j].lastUsed || (tags[i].lastUsed == tags[j].lastUsed && i <= j)
  }

  lemma EarlierIsTransitive(tags: seq<Tag>, i: nat, j: nat, k: nat)
    requires i < |tags| && j < |tags| && k < |tags|
    requires !Earlier(tags, j, i) && Earlier(tags, j, k)
    ensures Earlier(tags, i, k)
  {
  }

  method ChooseVictim(tags: seq<Tag>) returns (victim: nat)
    requires tags != []
    ensures victim < |tags| && forall i: nat | i < |tags| :: Earlier(tags, victim, i)
  {
    victim := 0;
    for i := 1 to |tags|
      invariant victim < i && forall j: nat | j < i :: Earlier(tags, victim, j)
    {
      if !Earlier(tags, victim, i) {
        forall j: nat | j < i ensures Earlier(tags, i, j) { EarlierIsTransitive(tags, i, victim, j); }
        victim := i;
      }
    }
  }

  lemma {:induction false} DropFront(s: seq<nat>, p: nat)
    requires Distinct(s) && p < |s|
    ensures Without(s, s[p]) == s[..p] + s[p + 1..]
  {
    if p == 0 {
      WithoutAbsent(s[1..], s[0]);
    } else {
      DropFront(s[1..], p - 1);
    }
  }

  /** Moves element p to the front. */
  function Fronted<T>(s: seq<T>, p: nat): (r: seq<T>)
    requires p < |s|
    ensures |r| == |s| && r[0] == s[p]
    ensures forall q: nat | 0 < q <= p :: r[q] == s[q - 1]
    ensures forall q: nat | p < q < |s| :: r[q] == s[q]
  {
    [s[p]] + (s[..p] + s[p + 1..])
  }

  /** Where element q of the moved order came from. */
  function Origin(p: nat, q: nat): nat { if q == 0 then p else if q <= p then q - 1 else q }

  lemma {:induction false} OrderIsDistinct(tags: seq<Tag>, order: seq<nat>, clock: nat, resident: seq<nat>)
    requires Ordered(tags, order, clock, resident)
    ensures Distinct(order) && forall i <- order :: i < |tags|
  {
    forall p: nat, q: nat | p < q < |order| ensures order[p] != order[q] {
      assert OrderedAt(tags, order, clock, resident, p) && OrderedAt(tags, order, clock, resident, q);
    }
    forall i <- order ensures i < |tags| {
      var p: nat :| p < |order| && order[p] == i;
      assert OrderedAt(tags, order, clock, resident, p);
    }
  }

  lemma MovedAt(tags: seq<Tag>, order: seq<nat>, clock: nat, resident: seq<nat>, p: nat, q: nat)
    requires Ordered(tags, order, clock, resident) && p < |order| && q < |order| && order[p] < |tags|
    ensures OrderedAt(tags[order[p] := Tag(Some(resident[p]), clock + 1)], Fronted(order, p), clock + 1,
                      Fronted(resident, p), q)
  {
    OrderIsDistinct(tags, order, clock, resident);
    assert OrderedAt(tags, order, clock, resident, Origin(p, q));
  }

  lemma MovedNewer(tags: seq<Tag>, order: seq<nat>, clock: nat, resident: seq<nat>, p: nat, q: nat, r: nat)
    requires Ordered(tags, order, clock, resident) && p < |order| && q < r < |order| && order[p] < |tags|
    ensures Newer(tags[order[p] := Tag(Some(resident[p]), clock + 1)], Fronted(order, p)[q], Fronted(order, p)[r])
  {
    OrderIsDistinct(tags, order, clock, resident);
    assert OrderedAt(tags, order, clock, resident, Origin(p, r));
    if q > 0 { assert Newer(tags, order[Origin(p, q)], order[Origin(p, r)]); }
  }

  lemma MovedOrder(tags: seq<Tag>, order: seq<nat>, clock: nat, resident: seq<nat>, p: nat)
    requires Ordered(tags, order, clock, resident) && p < |order|
    requires OrderedAt(tags, order, clock, resident, p)
    ensures Ordered(tags[order[p] := Tag(Some(resident[p]), clock + 1)], Fronted(order, p), clock + 1,
      Fronted(resident, p))
  {
    assert order[p] < |tags|;
    hide OrderedAt, Newer, Distinct;
    var later := clock + 1;
    var i, tag := order[p], Tag(Some(resident[p]), clock + 1);
    var after, moved, now := tags[i := tag], Fronted(order, p), Fronted(resident, p);
    forall q: nat | q < |moved| ensures OrderedAt(after, moved, later, now, q) {
      MovedAt(tags, order, clock, resident, p, q);
    }
    forall q: nat, r: nat | q < r < |moved| ensures Newer(after, moved[q], moved[r]) {
      MovedNewer(tags, order, clock, resident, p, q, r);
    }
    forall j: nat | j < |after| && after[j].expert.Some? ensures j in moved {
      assert moved[0] == i;
    }
  }

  lemma ResidentHit(trace: seq<nat>, k: nat, p: nat)
    requires p < |Resident(trace, k)|
    ensures Resident(trace + [Resident(trace, k)[p]], k) == Fronted(Resident(trace, k), p)
  {
    hide Recent, Without;
    var resident := Resident(trace, k);
    RecentIsTraceWithoutRepeats(trace);
    ResidentStep(trace, k, resident[p]);
    DropFront(resident, p);
  }

  /** A hit moves the slot to the front of the order. */
  lemma HitRealises(tags: seq<Tag>, clock: nat, trace: seq<nat>, e: nat, i: nat)
    requires Realises(tags, clock, trace) && i < |tags| && tags[i].expert == Some(e)
    ensures e in Resident(trace, |tags|)
    ensures Realises(tags[i := Tag(Some(e), clock + 1)], clock + 1, trace + [e])
  {
    hide Recent, Without;
    var resident := Resident(trace, |tags|);
    var order :| Ordered(tags, order, clock, resident);
    var p: nat :| p < |order| && order[p] == i;
    assert OrderedAt(tags, order, clock, resident, p);
    assert e in resident;
    ResidentHit(trace, |tags|, p);
    MovedOrder(tags, order, clock, resident, p);
    assert |tags[i := Tag(Some(e), clock + 1)]| == |tags|;
  }

  ghost function Elements(s: seq<nat>): set<nat> {
    set x | x in s
  }

  lemma {:induction false} DistinctSize(s: seq<nat>)
    requires Distinct(s)
    ensures |Elements(s)| == |s|
  {
    if s != [] {
      DistinctSize(s[1..]);
      assert Elements(s) == {s[0]} + Elements(s[1..]);
    }
  }

  function Below(n: nat): (r: set<nat>)
    ensures |r| == n && forall x: nat :: x in r <==> x < n
  {
    if n == 0 then {} else Below(n - 1) + {n - 1}
  }

  lemma {:induction false} SubsetSize(a: set<nat>, b: set<nat>)
    requires a <= b
    ensures |a| <= |b|
    decreases |b|
  {
    if x :| x in a { SubsetSize(a - {x}, b - {x}); }
  }

  /** The order covers the slots that are occupied, so it is short exactly when one is empty. */
  lemma OrderLength(tags: seq<Tag>, order: seq<nat>, clock: nat, resident: seq<nat>, empty: nat)
    requires Ordered(tags, order, clock, resident) && empty < |tags|
    ensures tags[empty].expert.None? ==> |order| < |tags|
    ensures (forall i: nat | i < |tags| :: tags[i].expert.Some?) ==> |order| == |tags|
  {
    OrderIsDistinct(tags, order, clock, resident);
    DistinctSize(order);
    if tags[empty].expert.None? {
      forall i <- Elements(order) ensures i != empty {
        var p: nat :| p < |order| && order[p] == i;
        assert OrderedAt(tags, order, clock, resident, p);
      }
      SubsetSize(Elements(order), Below(|tags|) - {empty});
    } else if forall i: nat | i < |tags| :: tags[i].expert.Some? {
      assert Elements(order) == Below(|tags|);
    }
  }

  lemma NotResident(tags: seq<Tag>, order: seq<nat>, clock: nat, resident: seq<nat>, e: nat)
    requires Ordered(tags, order, clock, resident)
    requires forall i: nat | i < |tags| :: tags[i].expert != Some(e)
    ensures e !in resident
  {
    forall x <- resident ensures x != e {
      var p: nat :| p < |resident| && resident[p] == x;
      assert OrderedAt(tags, order, clock, resident, p);
    }
  }

  lemma VictimIsLast(tags: seq<Tag>, order: seq<nat>, clock: nat, resident: seq<nat>, victim: nat)
    requires Ordered(tags, order, clock, resident) && victim < |tags| && tags[victim].expert.Some?
    requires forall i: nat | i < |tags| :: Earlier(tags, victim, i)
    ensures order != [] && order[|order| - 1] == victim
  {
    var p: nat :| p < |order| && order[p] == victim;
    var last := |order| - 1;
    assert OrderedAt(tags, order, clock, resident, last);
    assert Earlier(tags, victim, order[last]);
  }

  /** An empty victim means the order is short; an occupied one is its last slot, and it is full. */
  lemma VictimOrder(tags: seq<Tag>, order: seq<nat>, clock: nat, resident: seq<nat>, victim: nat)
    requires Ordered(tags, order, clock, resident) && victim < |tags|
    requires forall i: nat | i < |tags| :: Earlier(tags, victim, i)
    ensures if tags[victim].expert.None? then |order| < |tags|
            else |order| == |tags| && order[|order| - 1] == victim
  {
    OrderLength(tags, order, clock, resident, victim);
    if tags[victim].expert.Some? {
      forall i: nat | i < |tags| ensures tags[i].expert.Some? { assert Earlier(tags, victim, i); }
      VictimIsLast(tags, order, clock, resident, victim);
    }
  }

  /** A slot that is kept is not the victim, and is no newer than the clock. */
  lemma KeptAt(tags: seq<Tag>, order: seq<nat>, clock: nat, resident: seq<nat>, victim: nat, kept: nat, q: nat)
    requires Ordered(tags, order, clock, resident) && victim < |tags| && q < kept
    requires if tags[victim].expert.None? then kept == |order| else kept + 1 == |order| && order[kept] == victim
    ensures OrderedAt(tags, order, clock, resident, q)
    ensures order[q] < |tags| && order[q] != victim && tags[order[q]].lastUsed <= clock
    ensures tags[order[q]].expert == Some(resident[q])
  {
    OrderIsDistinct(tags, order, clock, resident);
    assert OrderedAt(tags, order, clock, resident, q);
  }

  lemma FrontAt(
    tags: seq<Tag>, order: seq<nat>, clock: nat, resident: seq<nat>, e: nat, victim: nat, kept: nat, q: nat)
    requires Ordered(tags, order, clock, resident) && victim < |tags| && q <= kept
    requires if tags[victim].expert.None? then kept == |order| else kept + 1 == |order| && order[kept] == victim
    ensures OrderedAt(tags[victim := Tag(Some(e), clock + 1)], [victim] + order[..kept], clock + 1,
      [e] + resident[..kept], q)
  {
    if q > 0 { KeptAt(tags, order, clock, resident, victim, kept, q - 1); }
  }

  lemma FrontNewer(
    tags: seq<Tag>, order: seq<nat>, clock: nat, resident: seq<nat>, e: nat, victim: nat, kept: nat, q: nat, r: nat)
    requires Ordered(tags, order, clock, resident) && victim < |tags| && q < r <= kept
    requires if tags[victim].expert.None? then kept == |order| else kept + 1 == |order| && order[kept] == victim
    ensures Newer(tags[victim := Tag(Some(e), clock + 1)], ([victim] + order[..kept])[q], ([victim] + order[..kept])[r])
  {
    KeptAt(tags, order, clock, resident, victim, kept, r - 1);
    if q > 0 {
      KeptAt(tags, order, clock, resident, victim, kept, q - 1);
      assert Newer(tags, order[q - 1], order[r - 1]);
    }
  }

  /** Puts the freshly loaded slot in front of the first `kept` slots of the old order. */
  lemma FrontRealises(tags: seq<Tag>, order: seq<nat>, clock: nat, resident: seq<nat>, e: nat, victim: nat, kept: nat)
    requires Ordered(tags, order, clock, resident) && victim < |tags| && e !in resident
    requires if tags[victim].expert.None? then kept == |order| else kept + 1 == |order| && order[kept] == victim
    ensures Ordered(tags[victim := Tag(Some(e), clock + 1)], [victim] + order[..kept], clock + 1,
      [e] + resident[..kept])
  {
    assert Distinct(resident[..kept]) && e !in resident[..kept];
    DistinctCons(e, resident[..kept]);
    hide OrderedAt, Newer, Distinct;
    var after, moved, now := tags[victim := Tag(Some(e), clock + 1)], [victim] + order[..kept], [e] + resident[..kept];
    var later := clock + 1;
    forall q: nat | q < |moved| ensures OrderedAt(after, moved, later, now, q) {
      FrontAt(tags, order, clock, resident, e, victim, kept, q);
    }
    forall q: nat, r: nat | q < r < |moved| ensures Newer(after, moved[q], moved[r]) {
      FrontNewer(tags, order, clock, resident, e, victim, kept, q, r);
    }
    forall i: nat | i < |after| && after[i].expert.Some? ensures i in moved {
      if i != victim {
        var q: nat :| q < |order| && order[q] == i;
        assert moved[q + 1] == i;
      }
    }
  }

  /** A miss that loads fills the victim, and evicts the least recently used expert only when full. */
  lemma MissRealises(tags: seq<Tag>, clock: nat, trace: seq<nat>, e: nat, victim: nat)
    requires Realises(tags, clock, trace) && victim < |tags|
    requires forall i: nat | i < |tags| :: tags[i].expert != Some(e)
    requires forall i: nat | i < |tags| :: Earlier(tags, victim, i)
    ensures e !in Resident(trace, |tags|)
    ensures tags[victim].expert.Some? <==> |Resident(trace, |tags|)| == |tags|
    ensures Realises(tags[victim := Tag(Some(e), clock + 1)], clock + 1, trace + [e])
  {
    hide Recent, Without, Earlier;
    var resident := Resident(trace, |tags|);
    var order :| Ordered(tags, order, clock, resident);
    NotResident(tags, order, clock, resident, e);
    ResidentStep(trace, |tags|, e);
    WithoutAbsent(resident, e);
    var kept := if tags[victim].expert.Some? then |order| - 1 else |order|;
    VictimOrder(tags, order, clock, resident, victim);
    FrontRealises(tags, order, clock, resident, e, victim, kept);
    assert Resident(trace + [e], |tags|) == [e] + resident[..kept];
    assert |tags[victim := Tag(Some(e), clock + 1)]| == |tags|;
  }

  /** Time passing without a load changes nothing but the clock. */
  lemma ClockMayAdvance(tags: seq<Tag>, clock: nat, later: nat, trace: seq<nat>)
    requires Realises(tags, clock, trace) && clock <= later
    ensures Realises(tags, later, trace)
  {
    var resident := Resident(trace, |tags|);
    var order :| Ordered(tags, order, clock, resident);
    forall p: nat | p < |order| ensures OrderedAt(tags, order, later, resident, p) {
      assert OrderedAt(tags, order, clock, resident, p);
    }
    assert Ordered(tags, order, later, resident);
  }

  lemma EmptyRealises(tags: seq<Tag>, clock: nat)
    requires forall i: nat | i < |tags| :: tags[i].expert.None?
    ensures Realises(tags, clock, [])
  {
    assert Ordered(tags, [], clock, Resident([], |tags|));
  }

  /** No expert occupies two slots. */
  lemma NoExpertTwice(tags: seq<Tag>, clock: nat, trace: seq<nat>, i: nat, j: nat)
    requires Realises(tags, clock, trace) && i < j < |tags| && tags[i].expert.Some?
    ensures tags[i].expert != tags[j].expert
  {
    var resident := Resident(trace, |tags|);
    var order :| Ordered(tags, order, clock, resident);
    var p: nat :| p < |order| && order[p] == i;
    assert OrderedAt(tags, order, clock, resident, p);
    if tags[j].expert.Some? {
      var q: nat :| q < |order| && order[q] == j;
      assert OrderedAt(tags, order, clock, resident, q);
    }
  }

  /** An expert has a slot exactly when the trace says it is resident. */
  lemma OccupiedIffResident(tags: seq<Tag>, clock: nat, trace: seq<nat>, e: nat)
    requires Realises(tags, clock, trace)
    ensures (exists i: nat :: i < |tags| && tags[i].expert == Some(e)) <==> e in Resident(trace, |tags|)
  {
    var resident := Resident(trace, |tags|);
    var order :| Ordered(tags, order, clock, resident);
    if i: nat :| i < |tags| && tags[i].expert == Some(e) {
      HitRealises(tags, clock, trace, e, i);
    }
    if e in resident {
      var p: nat :| p < |resident| && resident[p] == e;
      assert OrderedAt(tags, order, clock, resident, p);
    }
  }
}
