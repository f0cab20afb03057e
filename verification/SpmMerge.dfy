/** The SentencePiece merge engine of the Gemma tokenizer.
 *
 *  `EncodeSpm` works on a vector of doubly linked symbols and a priority queue whose
 *  entries are never removed when they go stale.  It is proved against the quadratic
 *  definition `Greedy`: merge the best adjacent pair until no pair is a token.
 */
module SpmMerge {
  import opened Wrappers
  import opened Utf8
  import opened Symbols

  /** Scores are f32 values compared only by `total_cmp`, so a score is its rank in that order. */
  datatype Vocabulary = Vocabulary(
    tokenToId: map<string, nat>,
    scores: seq<int>,
    byteTokens: seq<Option<nat>>,
    unknownId: nat)
  {
    predicate Valid() {
      && |byteTokens| == 256
      && forall token <- tokenToId :: tokenToId[token] < |scores|
    }

    function Score(text: string): Option<int>
      requires Valid()
    {
      if text in tokenToId then Some(scores[tokenToId[text]]) else None
    }
  }

  // ---------- The reference: naive greedy merging ----------

  function PairScore(v: Vocabulary, symbols: seq<string>, k: nat): Option<int>
    requires v.Valid() && k + 1 < |symbols|
  {
    v.Score(symbols[k] + symbols[k + 1])
  }

  /** Pair k is mergeable, no later pair scores higher and every earlier pair scores lower. */
  ghost predicate IsBestFrom(v: Vocabulary, symbols: seq<string>, from: nat, k: nat)
    requires v.Valid()
  {
    && from <= k && k + 1 < |symbols|
    && PairScore(v, symbols, k).Some?
    && forall j: nat | from <= j && j + 1 < |symbols| && PairScore(v, symbols, j).Some? ::
         var best, other := PairScore(v, symbols, k).value, PairScore(v, symbols, j).value;
         other < best || (other == best && k <= j)
  }

  /** The highest-scored mergeable pair at or after `from`, leftmost among equals. */
  function BestPair(v: Vocabulary, symbols: seq<string>, from: nat): (r: Option<nat>)
    requires v.Valid()
    ensures r.Some? ==> IsBestFrom(v, symbols, from, r.value)
    ensures r.None? ==> forall j: nat | from <= j && j + 1 < |symbols| :: PairScore(v, symbols, j).None?
    decreases |symbols| - from
  {
    if from + 1 >= |symbols| then None
    else
      var later := BestPair(v, symbols, from + 1);
      var here := PairScore(v, symbols, from);
      if here.None? then later
      else if later.Some? && here.value < PairScore(v, symbols, later.value).value then later
      else Some(from)
  }

  /** The pair merged next is the one whose joined text is a token of the highest score, leftmost among
      equals. */
  lemma BestPairIs(v: Vocabulary, symbols: seq<string>, k: nat)
    requires v.Valid()
    ensures BestPair(v, symbols, 0) == Some(k) <==>
      && k + 1 < |symbols| && symbols[k] + symbols[k + 1] in v.tokenToId
      && forall j: nat | j + 1 < |symbols| && symbols[j] + symbols[j + 1] in v.tokenToId ::
           var best, other := v.tokenToId[symbols[k] + symbols[k + 1]], v.tokenToId[symbols[j] + symbols[j + 1]];
           v.scores[other] < v.scores[best] || (v.scores[other] == v.scores[best] && k <= j)
  {
    assert forall j: nat | j + 1 < |symbols| ::
      PairScore(v, symbols, j).Some? <==> symbols[j] + symbols[j + 1] in v.tokenToId;
  }

  function Greedy(v: Vocabulary, symbols: seq<string>): seq<string>
    requires v.Valid()
    decreases |symbols|
  {
    match BestPair(v, symbols, 0)
    case None => symbols
    case Some(k) => Greedy(v, MergeAt(symbols, k))
  }

  /** Merging neither loses nor invents text, and stops only when no adjacent pair is a token. */
  lemma {:induction false} GreedyIsIrreducibleAndKeepsText(v: Vocabulary, symbols: seq<string>)
    requires v.Valid()
    ensures Flatten(Greedy(v, symbols)) == Flatten(symbols)
    ensures forall j: nat | j + 1 < |Greedy(v, symbols)| :: PairScore(v, Greedy(v, symbols), j).None?
    decreases |symbols|
  {
    match BestPair(v, symbols, 0)
    case None =>
    case Some(k) =>
      FlattenMergeAt(symbols, k);
      GreedyIsIrreducibleAndKeepsText(v, MergeAt(symbols, k));
  }

  function ByteIds(v: Vocabulary, bytes: seq<byte>): seq<nat>
    requires v.Valid()
  {
    if bytes == [] then []
    else [match v.byteTokens[bytes[0]] case Some(id) => id case None => v.unknownId] + ByteIds(v, bytes[1..])
  }

  function Emit(v: Vocabulary, symbol: string): seq<nat>
    requires v.Valid()
  {
    if symbol in v.tokenToId then [v.tokenToId[symbol]]
    else ByteIds(v, Encode(symbol))
  }

  lemma {:induction false} ByteIdsAre(v: Vocabulary, bytes: seq<byte>)
    requires v.Valid()
    ensures |ByteIds(v, bytes)| == |bytes|
    ensures forall i: nat | i < |bytes| ::
      ByteIds(v, bytes)[i] == if v.byteTokens[bytes[i]].Some? then v.byteTokens[bytes[i]].value else v.unknownId
  {
    if bytes != [] { ByteIdsAre(v, bytes[1..]); }
  }

  /** A symbol that is a token becomes its ID; any other becomes the token of each of its bytes in turn, or
      the unknown token where a byte has none. */
  lemma EmitIs(v: Vocabulary, symbol: string)
    requires v.Valid()
    ensures symbol in v.tokenToId ==> Emit(v, symbol) == [v.tokenToId[symbol]]
    ensures symbol !in v.tokenToId ==>
      && |Emit(v, symbol)| == |Encode(symbol)|
      && forall i: nat | i < |Encode(symbol)| ::
           var own := v.byteTokens[Encode(symbol)[i]];
           Emit(v, symbol)[i] == if own.Some? then own.value else v.unknownId
  {
    ByteIdsAre(v, Encode(symbol));
  }

  function EmitAll(v: Vocabulary, symbols: seq<string>): seq<nat>
    requires v.Valid()
  {
    if symbols == [] then [] else Emit(v, symbols[0]) + EmitAll(v, symbols[1..])
  }

  lemma {:induction false} EmitAllConcat(v: Vocabulary, left: seq<string>, right: seq<string>)
    requires v.Valid()
    ensures EmitAll(v, left + right) == EmitAll(v, left) + EmitAll(v, right)
  {
    hide Emit;
    if left == [] {
      assert left + right == right;
    } else {
      assert (left + right)[1..] == left[1..] + right;
      EmitAllConcat(v, left[1..], right);
    }
  }

  lemma EmitNothing(v: Vocabulary)
    requires v.Valid()
    ensures EmitAll(v, []) == []
  {
  }

  lemma EmitSnoc(v: Vocabulary, texts: seq<string>, k: nat)
    requires v.Valid() && k < |texts|
    ensures EmitAll(v, texts[..k + 1]) == EmitAll(v, texts[..k]) + Emit(v, texts[k])
  {
    assert texts[..k + 1] == texts[..k] + [texts[k]];
    EmitAllConcat(v, texts[..k], [texts[k]]);
    assert EmitAll(v, [texts[k]]) == Emit(v, texts[k]) + EmitAll(v, []);
  }

  // ---------- The engine's own data ----------

  datatype Symbol = Symbol(text: string, previous: Option<nat>, next: Option<nat>, active: bool)

  datatype ScoredMerge = ScoredMerge(score: int, left: nat, right: nat, byteLen: nat)

  /** The heap's order: by score, then the leftmost candidate is the greatest. */
  predicate Less(a: ScoredMerge, b: ScoredMerge) {
    a.score < b.score || (a.score == b.score && b.left < a.left)
  }

  predicate Greatest(candidate: ScoredMerge, work: multiset<ScoredMerge>) {
    candidate in work && forall other <- work :: !Less(candidate, other)
  }

  lemma OnlyIsGreatest(one: ScoredMerge)
    ensures Greatest(one, multiset{one})
  {
  }

  lemma GreatestOfMore(rest: multiset<ScoredMerge>, best: ScoredMerge, one: ScoredMerge)
    requires Greatest(best, rest)
    ensures Greatest(if Less(best, one) then one else best, rest + multiset{one})
  {
  }

  lemma {:induction false} GreatestExists(work: multiset<ScoredMerge>)
    requires work != multiset{}
    ensures exists candidate :: Greatest(candidate, work)
    decreases |work|
  {
    hide Greatest, Less;
    var one :| one in work;
    var rest := work - multiset{one};
    if rest == multiset{} {
      OnlyIsGreatest(one);
      assert work == multiset{one};
    } else {
      GreatestExists(rest);
      var best :| Greatest(best, rest);
      GreatestOfMore(rest, best, one);
      assert work == rest + multiset{one};
    }
  }

  // ---------- The invariant that relates the two ----------

  /** One past the text of the k-th live symbol. */
  ghost function SymbolEnd(text: string, order: seq<nat>, k: nat): nat {
    if k + 1 < |order| then order[k + 1] else |text|
  }

  ghost predicate Ascending(text: string, order: seq<nat>) {
    && (order == [] <==> text == [])
    && (order != [] ==> order[0] == 0)
    && (forall k | 0 <= k < |order| :: order[k] < |text|)
    && (forall j, k | 0 <= j < k < |order| :: order[j] < order[k])
  }

  /** Symbol k of the live list holds its stretch of text and both its links. */
  ghost predicate LinkedAt(text: string, symbols: seq<Symbol>, order: seq<nat>, k: nat)
    requires |symbols| == |text| && Ascending(text, order) && k < |order|
  {
    symbols[order[k]] == Symbol(
      text[order[k]..SymbolEnd(text, order, k)],
      if k > 0 then Some(order[k - 1]) else None,
      if k + 1 < |order| then Some(order[k + 1]) else None,
      true)
  }

  /** `order` lists the live symbols; symbol k covers the text up to the next live symbol. */
  ghost predicate Linked(text: string, symbols: seq<Symbol>, order: seq<nat>) {
    && |symbols| == |text|
    && Ascending(text, order)
    && (forall k: nat | k < |order| :: LinkedAt(text, symbols, order, k))
    && (forall i | 0 <= i < |symbols| && symbols[i].active :: i in order)
  }

  ghost function Texts(text: string, order: seq<nat>): (r: seq<string>)
    requires Ascending(text, order)
    ensures |r| == |order|
  {
    seq(|order|, k requires 0 <= k < |order| => text[order[k]..SymbolEnd(text, order, k)])
  }

  ghost predicate Denotes(v: Vocabulary, text: string, c: ScoredMerge, end: nat)
    requires v.Valid() && c.left < end <= |text|
  {
    c.byteLen == |Encode(text[c.left..end])| && v.Score(text[c.left..end]) == Some(c.score)
  }

  /** A candidate, stale or not, scored the text from its left symbol up to some end past its right symbol. */
  ghost predicate Plausible(v: Vocabulary, text: string, c: ScoredMerge)
    requires v.Valid()
  {
    c.left < c.right &&
    exists end: nat :: c.right < end <= |text| && Denotes(v, text, c, end)
  }

  /** The candidate that `QueueSpmMerge` makes for the k-th live pair. */
  ghost function PairCandidate(v: Vocabulary, text: string, order: seq<nat>, k: nat): Option<ScoredMerge>
    requires v.Valid() && Ascending(text, order) && k + 1 < |order|
  {
    var pair := text[order[k]..SymbolEnd(text, order, k + 1)];
    match v.Score(pair)
    case None => None
    case Some(score) => Some(ScoredMerge(score, order[k], order[k + 1], |Encode(pair)|))
  }

  ghost predicate Complete(v: Vocabulary, text: string, order: seq<nat>, work: multiset<ScoredMerge>)
    requires v.Valid() && Ascending(text, order)
  {
    forall k: nat | k + 1 < |order| ::
      var c := PairCandidate(v, text, order, k);
      c.Some? ==> c.value in work
  }

  lemma PairTexts(v: Vocabulary, text: string, order: seq<nat>, k: nat)
    requires v.Valid() && Ascending(text, order) && k + 1 < |order|
    ensures Texts(text, order)[k] + Texts(text, order)[k + 1] == text[order[k]..SymbolEnd(text, order, k + 1)]
    ensures PairScore(v, Texts(text, order), k) == v.Score(text[order[k]..SymbolEnd(text, order, k + 1)])
  {
  }

  lemma LivePairText(text: string, symbols: seq<Symbol>, order: seq<nat>, k: nat)
    requires Linked(text, symbols, order) && k + 1 < |order|
    ensures LinkedAt(text, symbols, order, k) && LinkedAt(text, symbols, order, k + 1)
    ensures order[k + 1] < SymbolEnd(text, order, k + 1) <= |text|
    ensures var pair := text[order[k]..SymbolEnd(text, order, k + 1)];
      && symbols[order[k]].text + symbols[order[k + 1]].text == pair
      && |Encode(symbols[order[k]].text)| + |Encode(symbols[order[k + 1]].text)| == |Encode(pair)|
  {
    assert LinkedAt(text, symbols, order, k) && LinkedAt(text, symbols, order, k + 1);
    var l, r := symbols[order[k]].text, symbols[order[k + 1]].text;
    assert l + r == text[order[k]..SymbolEnd(text, order, k + 1)];
    EncodeConcat(l, r);
  }

  /** The recorded byte length pins down where the candidate's text ended. */
  lemma SameLengthSameEnd(v: Vocabulary, text: string, c: ScoredMerge, end: nat)
    requires v.Valid() && Plausible(v, text, c) && c.right < end <= |text|
    requires c.byteLen == |Encode(text[c.left..end])|
    ensures Denotes(v, text, c, end)
  {
    var recorded: nat :| c.right < recorded <= |text| && Denotes(v, text, c, recorded);
    if recorded < end { ByteLengthGrows(text, c.left, recorded, end); }
    if end < recorded { ByteLengthGrows(text, c.left, end, recorded); }
  }

  /** The test made when a candidate is popped accepts it only if it is the current pair's candidate. */
  lemma AcceptedIsCurrent(v: Vocabulary, text: string, symbols: seq<Symbol>, order: seq<nat>, c: ScoredMerge)
    returns (k: nat)
    requires v.Valid() && Linked(text, symbols, order) && Plausible(v, text, c)
    requires symbols[c.left].active && symbols[c.right].active && symbols[c.left].next == Some(c.right)
    requires |Encode(symbols[c.left].text)| + |Encode(symbols[c.right].text)| == c.byteLen
    ensures k + 1 < |order| && order[k] == c.left && order[k + 1] == c.right
    ensures PairCandidate(v, text, order, k) == Some(c)
  {
    k :| 0 <= k < |order| && order[k] == c.left;
    assert LinkedAt(text, symbols, order, k);
    assert LinkedAt(text, symbols, order, k + 1);
    LivePairText(text, symbols, order, k);
    SameLengthSameEnd(v, text, c, SymbolEnd(text, order, k + 1));
  }

  /** Conversely a current pair's candidate passes the test, so rejecting one loses nothing. */
  lemma CurrentIsAccepted(v: Vocabulary, text: string, symbols: seq<Symbol>, order: seq<nat>, k: nat)
    requires v.Valid() && Linked(text, symbols, order) && k + 1 < |order|
    requires PairCandidate(v, text, order, k).Some?
    ensures var c := PairCandidate(v, text, order, k).value;
      && symbols[c.left].active && symbols[c.right].active && symbols[c.left].next == Some(c.right)
      && |Encode(symbols[c.left].text)| + |Encode(symbols[c.right].text)| == c.byteLen
  {
    LivePairText(text, symbols, order, k);
  }

  /** A greatest queue entry that is current is the pair naive merging would choose. */
  lemma GreatestIsBest(v: Vocabulary, text: string, order: seq<nat>, work: multiset<ScoredMerge>, k: nat)
    requires v.Valid() && Ascending(text, order) && Complete(v, text, order, work)
    requires k + 1 < |order| && PairCandidate(v, text, order, k).Some?
    requires Greatest(PairCandidate(v, text, order, k).value, work)
    ensures BestPair(v, Texts(text, order), 0) == Some(k)
  {
    var texts := Texts(text, order);
    var c := PairCandidate(v, text, order, k).value;
    PairTexts(v, text, order, k);
    forall j: nat | j + 1 < |texts| && PairScore(v, texts, j).Some?
      ensures PairScore(v, texts, j).value < c.score || (PairScore(v, texts, j).value == c.score && k <= j)
    {
      PairTexts(v, text, order, j);
      assert !Less(c, PairCandidate(v, text, order, j).value);
    }
    assert IsBestFrom(v, texts, 0, k);
  }

  ghost function Unlink(order: seq<nat>, k: nat): seq<nat>
    requires k + 1 < |order|
  {
    order[..k + 1] + order[k + 2..]
  }

  lemma TextsUnlink(text: string, order: seq<nat>, k: nat)
    requires Ascending(text, order) && k + 1 < |order|
    ensures Ascending(text, Unlink(order, k))
    ensures Texts(text, Unlink(order, k)) == MergeAt(Texts(text, order), k)
  {
    var shorter := Unlink(order, k);
    var left, right := Texts(text, shorter), MergeAt(Texts(text, order), k);
    forall j | 0 <= j < |shorter| ensures left[j] == right[j] {
      if j == k {
        assert left[j] == text[order[k]..SymbolEnd(text, order, k + 1)];
      }
    }
  }

  method QueueSpmMerge(v: Vocabulary, symbols: seq<Symbol>, left: nat, right: nat, work: multiset<ScoredMerge>)
    returns (queued: multiset<ScoredMerge>)
    requires v.Valid() && left < |symbols| && right < |symbols|
    ensures var combined := symbols[left].text + symbols[right].text;
      queued == match v.Score(combined)
                case None => work
                case Some(score) => work + multiset{ScoredMerge(score, left, right, |Encode(combined)|)}
  {
    var combined := symbols[left].text + symbols[right].text;
    queued := work;
    if combined in v.tokenToId {
      var id := v.tokenToId[combined];
      queued := queued + multiset{ScoredMerge(v.scores[id], left, right, |Encode(combined)|)};
    }
  }

  lemma PairCandidateIsPlausible(v: Vocabulary, text: string, order: seq<nat>, k: nat)
    requires v.Valid() && Ascending(text, order) && k + 1 < |order|
    requires PairCandidate(v, text, order, k).Some?
    ensures Plausible(v, text, PairCandidate(v, text, order, k).value)
  {
    assert Denotes(v, text, PairCandidate(v, text, order, k).value, SymbolEnd(text, order, k + 1));
  }

  // ---------- One accepted merge ----------

  function AfterMerge(symbols: seq<Symbol>, left: nat, right: nat): (r: seq<Symbol>)
    requires left < |symbols| && right < |symbols|
    requires symbols[right].next.Some? ==> symbols[right].next.value < |symbols|
    ensures |r| == |symbols|
  {
    var l, r := symbols[left], symbols[right];
    var merged := l.(text := l.text + r.text, next := r.next);
    var joined := symbols[right := r.(text := "", active := false)][left := merged];
    if r.next.Some? then joined[r.next.value := joined[r.next.value].(previous := Some(left))] else joined
  }

  /** The four field updates of an accepted merge of `left` with `right`. */
  method MergeSymbols(symbols: seq<Symbol>, left: nat, right: nat) returns (merged: seq<Symbol>)
    requires left < |symbols| && right < |symbols| && left != right
    requires symbols[right].next.Some? ==> symbols[right].next.value < |symbols|
    ensures merged == AfterMerge(symbols, left, right)
  {
    merged := symbols;
    var rightText := merged[right].text;
    merged := merged[right := merged[right].(text := "")];
    merged := merged[left := merged[left].(text := merged[left].text + rightText)];
    merged := merged[right := merged[right].(active := false)];
    var next := merged[right].next;
    merged := merged[left := merged[left].(next := next)];
    if next.Some? {
      merged := merged[next.value := merged[next.value].(previous := Some(left))];
    }
  }

  lemma AfterMergeAt(symbols: seq<Symbol>, left: nat, right: nat, i: nat)
    requires left < |symbols| && right < |symbols| && i < |symbols| && left != right && i != right
    requires symbols[right].next.Some? ==> symbols[right].next.value < |symbols| && symbols[right].next.value != left
    ensures var l, r := symbols[left], symbols[right];
            AfterMerge(symbols, left, right)[i] ==
              if i == left then l.(text := l.text + r.text, next := r.next)
              else if r.next == Some(i) then symbols[i].(previous := Some(left))
              else symbols[i]
  {
  }

  /** Where element j of the list without its element k + 1 was before. */
  ghost function Kept(k: nat, j: nat): nat { if j <= k then j else j + 1 }

  lemma UnlinkAt(order: seq<nat>, k: nat, j: nat)
    requires k + 1 < |order| && j + 1 < |order|
    ensures |Unlink(order, k)| == |order| - 1 && Unlink(order, k)[j] == order[Kept(k, j)]
  {
  }

  lemma LinkedAtAfterMerge(text: string, symbols: seq<Symbol>, order: seq<nat>, k: nat, j: nat)
    requires Linked(text, symbols, order) && k + 1 < |order| && j + 1 < |order|
    requires LinkedAt(text, symbols, order, k) && LinkedAt(text, symbols, order, k + 1)
    requires Ascending(text, Unlink(order, k))
    requires text[order[k]..SymbolEnd(text, order, k + 1)] == symbols[order[k]].text + symbols[order[k + 1]].text
    ensures LinkedAt(text, AfterMerge(symbols, order[k], order[k + 1]), Unlink(order, k), j)
  {
    hide AfterMerge, Unlink;
    var shorter, i := Unlink(order, k), Kept(k, j);
    UnlinkAt(order, k, j);
    AfterMergeAt(symbols, order[k], order[k + 1], order[i]);
    if j > 0 { UnlinkAt(order, k, j - 1); }
    if j + 1 < |shorter| { UnlinkAt(order, k, j + 1); }
    assert LinkedAt(text, symbols, order, i);
    assert i < k ==> order[i] < order[k];
    assert i > k + 1 ==> order[k + 1] < order[i];
    assert SymbolEnd(text, shorter, j) == if j == k then SymbolEnd(text, order, k + 1) else SymbolEnd(text, order, i);
  }

  lemma StillListed(symbols: seq<Symbol>, order: seq<nat>, k: nat, i: nat)
    requires k + 1 < |order| && order[k] < |symbols| && order[k + 1] < |symbols| && order[k] != order[k + 1]
    requires symbols[order[k + 1]].next.Some? ==> symbols[order[k + 1]].next.value < |symbols|
    requires forall i | 0 <= i < |symbols| && symbols[i].active :: i in order
    requires order[k] in order && symbols[order[k]].active
    requires i < |symbols| && AfterMerge(symbols, order[k], order[k + 1])[i].active
    ensures i in Unlink(order, k)
  {
    assert i != order[k + 1] && symbols[i].active;
    var j :| 0 <= j < |order| && order[j] == i;
    assert Unlink(order, k)[if j <= k then j else j - 1] == i;
  }

  lemma LinkedAfterMerge(text: string, symbols: seq<Symbol>, order: seq<nat>, k: nat)
    requires Linked(text, symbols, order) && k + 1 < |order|
    requires LinkedAt(text, symbols, order, k + 1)
    ensures Linked(text, AfterMerge(symbols, order[k], order[k + 1]), Unlink(order, k))
  {
    var merged, shorter := AfterMerge(symbols, order[k], order[k + 1]), Unlink(order, k);
    TextsUnlink(text, order, k);
    LivePairText(text, symbols, order, k);
    hide LinkedAt, SymbolEnd, Encode, Ascending, Texts, MergeAt;
    forall j: nat | j < |shorter| ensures LinkedAt(text, merged, shorter, j) {
      LinkedAtAfterMerge(text, symbols, order, k, j);
    }
    forall i | 0 <= i < |merged| && merged[i].active ensures i in shorter {
      StillListed(symbols, order, k, i);
    }
  }

  /** Pairs away from the merge keep their candidates; the two new pairs were queued. */
  lemma CompleteAfterMerge(
      v: Vocabulary, text: string, order: seq<nat>, k: nat,
      work: multiset<ScoredMerge>, c: ScoredMerge, queued: multiset<ScoredMerge>)
    requires v.Valid() && Ascending(text, order) && k + 1 < |order|
    requires Complete(v, text, order, work) && c.left == order[k]
    requires work - multiset{c} <= queued
    requires Ascending(text, Unlink(order, k))
    requires forall j: nat | k <= j + 1 <= k + 1 && j + 1 < |Unlink(order, k)| ::
      var made := PairCandidate(v, text, Unlink(order, k), j);
      made.Some? ==> made.value in queued
    ensures Complete(v, text, Unlink(order, k), queued)
  {
    var shorter := Unlink(order, k);
    forall j: nat | j + 1 < |shorter| && PairCandidate(v, text, shorter, j).Some?
      ensures PairCandidate(v, text, shorter, j).value in queued
    {
      if j + 1 < k {
        assert PairCandidate(v, text, shorter, j) == PairCandidate(v, text, order, j);
        assert PairCandidate(v, text, order, j).value in work - multiset{c};
      } else if k < j {
        assert PairCandidate(v, text, shorter, j) == PairCandidate(v, text, order, j + 1);
        assert PairCandidate(v, text, order, j + 1).value in work - multiset{c};
      }
    }
  }

  /** Queueing a live pair adds exactly that pair's candidate. */
  method QueueLivePair(v: Vocabulary, text: string, symbols: seq<Symbol>, ghost order: seq<nat>, ghost k: nat,
                       left: nat, right: nat, work: multiset<ScoredMerge>)
    returns (queued: multiset<ScoredMerge>)
    requires v.Valid() && Linked(text, symbols, order)
    requires k + 1 < |order| && left == order[k] && right == order[k + 1]
    requires forall c <- work :: Plausible(v, text, c)
    ensures work <= queued && |queued| <= |work| + 1
    ensures forall c <- queued :: Plausible(v, text, c)
    ensures var made := PairCandidate(v, text, order, k); made.Some? ==> made.value in queued
  {
    queued := QueueSpmMerge(v, symbols, left, right, work);
    LivePairText(text, symbols, order, k);
    if PairCandidate(v, text, order, k).Some? {
      PairCandidateIsPlausible(v, text, order, k);
    }
  }

  // ---------- The engine ----------

  function UnlinkedSymbol(text: string, i: nat, linked: bool): Symbol
    requires i < |text|
  {
    Symbol([text[i]], if i > 0 then Some(i - 1) else None, if linked then Some(i + 1) else None, true)
  }

  method InitialSymbols(text: string) returns (symbols: seq<Symbol>, ghost order: seq<nat>)
    ensures Linked(text, symbols, order)
    ensures order == seq(|text|, i requires 0 <= i < |text| => i)
    ensures Texts(text, order) == Characters(text)
  {
    symbols := seq(|text|, i requires 0 <= i < |text| => UnlinkedSymbol(text, i, false));
    order := seq(|text|, i requires 0 <= i < |text| => i);
    for index := 0 to |text| - (if text == [] then 0 else 1)
      invariant |symbols| == |text|
      invariant forall i | 0 <= i < |text| :: symbols[i] == UnlinkedSymbol(text, i, i < index)
    {
      symbols := symbols[index := symbols[index].(next := Some(index + 1))];
    }
    forall k: nat | k < |order| ensures LinkedAt(text, symbols, order, k) {
      assert text[k..k + 1] == [text[k]];
    }
    forall i | 0 <= i < |symbols| && symbols[i].active ensures i in order {
      assert order[i] == i;
    }
    forall k: nat | k < |order| ensures Texts(text, order)[k] == Characters(text)[k] {
      assert text[k..k + 1] == [text[k]];
    }
  }

  /** The loop invariant: links, a complete queue, and no entry that was never a real pair. */
  ghost predicate Sound(v: Vocabulary, text: string, symbols: seq<Symbol>, order: seq<nat>, work: multiset<ScoredMerge>)
    requires v.Valid()
  {
    && Linked(text, symbols, order)
    && Complete(v, text, order, work)
    && forall c <- work :: Plausible(v, text, c)
  }

  method QueueNeighbours(v: Vocabulary, text: string, symbols: seq<Symbol>, ghost order: seq<nat>, ghost k: nat,
                         left: nat, work: multiset<ScoredMerge>)
    returns (queued: multiset<ScoredMerge>)
    requires v.Valid() && Linked(text, symbols, order)
    requires k < |order| && left == order[k]
    requires forall c <- work :: Plausible(v, text, c)
    ensures work <= queued && |queued| <= |work| + 2
    ensures forall c <- queued :: Plausible(v, text, c)
    ensures forall j: nat | k <= j + 1 <= k + 1 && j + 1 < |order| ::
      var made := PairCandidate(v, text, order, j);
      made.Some? ==> made.value in queued
  {
    assert LinkedAt(text, symbols, order, k);
    queued := work;
    if symbols[left].previous.Some? {
      queued := QueueLivePair(v, text, symbols, order, k - 1, symbols[left].previous.value, left, queued);
    }
    if symbols[left].next.Some? {
      queued := QueueLivePair(v, text, symbols, order, k, left, symbols[left].next.value, queued);
    }
  }

  /** The accepted branch of the merge loop: merge, then queue the pairs on both sides. */
  method AcceptMerge(v: Vocabulary, text: string, symbols: seq<Symbol>, ghost order: seq<nat>, ghost k: nat,
                     candidate: ScoredMerge, ghost before: multiset<ScoredMerge>, work: multiset<ScoredMerge>)
    returns (merged: seq<Symbol>, queued: multiset<ScoredMerge>)
    requires v.Valid() && Sound(v, text, symbols, order, before)
    requires k + 1 < |order| && order[k] == candidate.left && order[k + 1] == candidate.right
    requires work == before - multiset{candidate}
    ensures Sound(v, text, merged, Unlink(order, k), queued)
    ensures |queued| <= |work| + 2
  {
    assert LinkedAt(text, symbols, order, k + 1);
    merged := MergeSymbols(symbols, candidate.left, candidate.right);
    LinkedAfterMerge(text, symbols, order, k);
    queued := QueueNeighbours(v, text, merged, Unlink(order, k), k, candidate.left, work);
    CompleteAfterMerge(v, text, order, k, before, candidate, queued);
  }

  method EmitLinked(v: Vocabulary, text: string, symbols: seq<Symbol>, ghost order: seq<nat>) returns (output: seq<nat>)
    requires v.Valid() && Linked(text, symbols, order)
    ensures output == EmitAll(v, Texts(text, order))
  {
    hide Emit, EmitAll;
    output := [];
    EmitNothing(v);
    var current := if symbols == [] then None else Some(0);
    ghost var k := 0;
    ghost var texts := Texts(text, order);
    while current.Some?
      invariant k <= |order|
      invariant current == if k < |order| then Some(order[k]) else None
      invariant output == EmitAll(v, texts[..k])
      decreases |order| - k
    {
      assert LinkedAt(text, symbols, order, k);
      output := output + Emit(v, symbols[current.value].text);
      EmitSnoc(v, texts, k);
      current := symbols[current.value].next;
      k := k + 1;
    }
    assert texts[..k] == texts;
  }

  /** Dropping a candidate that fails the test keeps the queue complete. */
  lemma StaleIsNotNeeded(v: Vocabulary, text: string, symbols: seq<Symbol>, order: seq<nat>,
                         c: ScoredMerge, work: multiset<ScoredMerge>)
    requires v.Valid() && Linked(text, symbols, order) && Complete(v, text, order, work)
    requires c.left < |text| && c.right < |text|
    requires !(symbols[c.left].active && symbols[c.right].active && symbols[c.left].next == Some(c.right)
               && |Encode(symbols[c.left].text)| + |Encode(symbols[c.right].text)| == c.byteLen)
    ensures Complete(v, text, order, work - multiset{c})
  {
    forall k: nat | k + 1 < |order| && PairCandidate(v, text, order, k).Some?
      ensures PairCandidate(v, text, order, k).value in work - multiset{c}
    {
      CurrentIsAccepted(v, text, symbols, order, k);
      assert PairCandidate(v, text, order, k).value in work;
    }
  }

  /** An empty complete queue means no live pair is mergeable, so naive merging stops too. */
  lemma NothingLeft(v: Vocabulary, text: string, order: seq<nat>, work: multiset<ScoredMerge>)
    requires v.Valid() && Ascending(text, order) && Complete(v, text, order, work)
    requires work == multiset{}
    ensures Greedy(v, Texts(text, order)) == Texts(text, order)
  {
    var texts := Texts(text, order);
    forall j: nat | j + 1 < |texts| ensures PairScore(v, texts, j).None? {
      PairTexts(v, text, order, j);
      assert PairCandidate(v, text, order, j).None?;
    }
    assert BestPair(v, texts, 0).None?;
  }

  method EncodeSpm(v: Vocabulary, text: string) returns (output: seq<nat>, ghost pops: nat)
    requires v.Valid()
    ensures output == EmitAll(v, Greedy(v, Characters(text)))
    ensures text != [] ==> pops <= 3 * (|text| - 1)
  {
    var symbols, order := InitialSymbols(text);
    var work: multiset<ScoredMerge> := multiset{};
    pops := 0;
    for index := 0 to |text| - (if text == [] then 0 else 1)
      invariant |work| <= index
      invariant forall c <- work :: Plausible(v, text, c)
      invariant forall k: nat | k < index ::
        var c := PairCandidate(v, text, order, k);
        c.Some? ==> c.value in work
    {
      work := QueueLivePair(v, text, symbols, order, index, index, index + 1, work);
    }
    while work != multiset{}
      invariant Sound(v, text, symbols, order, work)
      invariant Greedy(v, Texts(text, order)) == Greedy(v, Characters(text))
      invariant text != [] ==> pops + |work| + 2 * (|order| - 1) <= 3 * (|text| - 1)
      decreases |work| + 2 * |order|
    {
      GreatestExists(work);
      var candidate :| Greatest(candidate, work);
      ghost var before := work;
      work, pops := work - multiset{candidate}, pops + 1;
      assert Plausible(v, text, candidate);
      var left, right := candidate.left, candidate.right;
      if !symbols[left].active
        || !symbols[right].active
        || symbols[left].next != Some(right)
        || |Encode(symbols[left].text)| + |Encode(symbols[right].text)| != candidate.byteLen
      {
        StaleIsNotNeeded(v, text, symbols, order, candidate, before);
        continue;
      }
      ghost var k := AcceptedIsCurrent(v, text, symbols, order, candidate);
      GreatestIsBest(v, text, order, before, k);
      TextsUnlink(text, order, k);
      symbols, work := AcceptMerge(v, text, symbols, order, k, candidate, before, work);
      order := Unlink(order, k);
    }
    NothingLeft(v, text, order, work);
    output := EmitLinked(v, text, symbols, order);
  }
}
