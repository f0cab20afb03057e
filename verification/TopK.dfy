/** The DSA selection: the best `k` cached positions by score, returned in position order. */
module TopK {

  /** Scores are f32 values compared by `total_cmp`; ties go to the earlier position. */
  predicate Beats(scores: seq<int>, i: nat, j: nat) {
    i < |scores| && j < |scores| && (scores[i] > scores[j] || (scores[i] == scores[j] && i < j))
  }

  predicate Ascending(s: seq<nat>) {
    s == [] || ((forall x <- s[1..] :: s[0] < x) && Ascending(s[1..]))
  }

  /** Strictly increasing positions such that every chosen one beats every other one. */
  ghost predicate IsTopK(scores: seq<int>, k: nat, chosen: seq<nat>) {
    && Ascending(chosen)
    && |chosen| == (if k < |scores| then k else |scores|)
    && (forall i <- chosen :: i < |scores|)
    && (forall i: nat, j: nat | i in chosen && j < |scores| && j !in chosen :: Beats(scores, i, j))
  }

  lemma Members(s: seq<nat>)
    requires s != []
    ensures forall x: nat :: x in s <==> x == s[0] || x in s[1..]
  {
    assert s == [s[0]] + s[1..];
  }

  // ---------- The two sorts ----------

  /** Each position beats all later ones. */
  predicate RankOrder(scores: seq<int>, s: seq<nat>) {
    s == [] || ((forall x <- s[1..] :: Beats(scores, s[0], x)) && RankOrder(scores, s[1..]))
  }

  function InsertByScore(scores: seq<int>, s: seq<nat>, i: nat): (r: seq<nat>)
    requires i < |scores| && RankOrder(scores, s) && i !in s && forall x <- s :: x < |scores|
    ensures RankOrder(scores, r) && |r| == |s| + 1
    ensures forall x: nat :: x in r <==> x in s || x == i
  {
    if s == [] then [i]
    else if Beats(scores, i, s[0]) then Members(s); assert ([i] + s)[1..] == s; [i] + s
    else assert s[0] in s; [s[0]] + InsertByScore(scores, s[1..], i)
  }

  /** All positions below `n`, best first. */
  function Ranked(scores: seq<int>, n: nat): (r: seq<nat>)
    requires n <= |scores|
    ensures RankOrder(scores, r) && |r| == n
    ensures forall x: nat :: x in r <==> x < n
  {
    if n == 0 then [] else InsertByScore(scores, Ranked(scores, n - 1), n - 1)
  }

  function InsertAscending(s: seq<nat>, i: nat): (r: seq<nat>)
    requires Ascending(s) && i !in s
    ensures Ascending(r) && |r| == |s| + 1
    ensures forall x: nat :: x in r <==> x in s || x == i
  {
    if s == [] then [i]
    else if i < s[0] then Members(s); assert ([i] + s)[1..] == s; [i] + s
    else [s[0]] + InsertAscending(s[1..], i)
  }

  predicate Distinct(s: seq<nat>) {
    s == [] || (s[0] !in s[1..] && Distinct(s[1..]))
  }

  function SortAscending(s: seq<nat>): (r: seq<nat>)
    requires Distinct(s)
    ensures Ascending(r) && |r| == |s|
    ensures forall x: nat :: x in r <==> x in s
  {
    if s == [] then [] else InsertAscending(SortAscending(s[1..]), s[0])
  }

  lemma {:induction false} RankOrderSplits(scores: seq<int>, s: seq<nat>, cut: nat)
    requires RankOrder(scores, s) && cut <= |s|
    ensures Distinct(s[..cut])
    ensures forall x: nat, y: nat | x in s[..cut] && y in s[cut..] :: Beats(scores, x, y)
  {
    if cut > 0 {
      RankOrderSplits(scores, s[1..], cut - 1);
      assert s[..cut] == [s[0]] + s[1..][..cut - 1];
      assert s[..cut][1..] == s[1..][..cut - 1];
      assert s[1..] == s[1..][..cut - 1] + s[1..][cut - 1..];
      assert !Beats(scores, s[0], s[0]);
      assert s[cut..] == s[1..][cut - 1..];
    }
  }

  /** Sort by score, keep the first `k`, sort by position. */
  function Select(scores: seq<int>, k: nat): (r: seq<nat>) {
    var ranked := Ranked(scores, |scores|);
    var cut := if k < |ranked| then k else |ranked|;
    RankOrderSplits(scores, ranked, cut);
    SortAscending(ranked[..cut])
  }

  lemma SelectIsTopK(scores: seq<int>, k: nat)
    ensures IsTopK(scores, k, Select(scores, k))
  {
    var ranked := Ranked(scores, |scores|);
    var cut := if k < |ranked| then k else |ranked|;
    RankOrderSplits(scores, ranked, cut);
    assert ranked == ranked[..cut] + ranked[cut..];
    assert forall x <- ranked[..cut] :: x in ranked;
    forall y: nat | y < |scores| && y !in ranked[..cut] ensures y in ranked[cut..] {
      assert y in ranked;
    }
  }

  function Elements(s: seq<nat>): set<nat> {
    set x | x in s
  }

  lemma {:induction false} AscendingSize(s: seq<nat>)
    requires Ascending(s)
    ensures |Elements(s)| == |s|
  {
    if s != [] {
      AscendingSize(s[1..]);
      assert Elements(s) == {s[0]} + Elements(s[1..]);
    }
  }

  lemma {:induction false} SameElements(a: seq<nat>, b: seq<nat>)
    requires Ascending(a) && Ascending(b) && Elements(a) == Elements(b)
    ensures a == b
  {
    AscendingSize(a);
    AscendingSize(b);
    if a != [] {
      assert a[0] in Elements(b) && b[0] in Elements(a);
      Members(a);
      Members(b);
      assert a[0] == b[0];
      assert Elements(a[1..]) == Elements(a) - {a[0]};
      assert Elements(b[1..]) == Elements(b) - {b[0]};
      SameElements(a[1..], b[1..]);
    }
  }

  /** The best k positions are unique, so this fixes the selection completely. */
  lemma TopKIsUnique(scores: seq<int>, k: nat, a: seq<nat>, b: seq<nat>)
    requires IsTopK(scores, k, a) && IsTopK(scores, k, b)
    ensures a == b
  {
    AscendingSize(a);
    AscendingSize(b);
    var onlyA, onlyB := Elements(a) - Elements(b), Elements(b) - Elements(a);
    assert |onlyA| == |onlyB| by {
      assert Elements(a) == onlyA + Elements(a) * Elements(b);
      assert Elements(b) == onlyB + Elements(a) * Elements(b);
    }
    forall x: nat, y: nat ensures !(x in onlyA && y in onlyB) {
      assert !Beats(scores, x, y) || !Beats(scores, y, x);
    }
    assert onlyA == {} || onlyB == {};
    SameElements(a, b);
  }
}
