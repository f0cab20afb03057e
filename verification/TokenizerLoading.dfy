/** Loading a byte-level BPE vocabulary: the checks of the GLM `from_raw` and of the Qwen GGUF loader,
 *  and that they establish what encoding and decoding rely on.
 */
module TokenizerLoading {
  import opened Wrappers
  import opened ByteMap
  import opened ByteBpe

  const MAX_TOKEN_ID: nat := 0x20_0000
  const MAX_IDS: nat := 0x1_0000_0000

  datatype Added = Added(id: nat, content: string)

  datatype LoadError =
    | Unsupported
    | IdTooLarge
    | DuplicateId(id: nat)
    | DuplicateAdded(text: string)
    | Missing
    | Mismatch
    | DuplicateText(text: string)
    | BadMerge(rank: nat)
    | EosOutside(id: nat)

  // ---------- Merges ----------

  /** A merge as the file lists it: a pair, a line cut at its first space, or neither. */
  datatype Merge = Pair(left: string, right: string) | Line(text: string) | Malformed

  function FirstSpace(text: string, from: nat): (r: Option<nat>)
    requires from <= |text|
    ensures r.Some? ==> from <= r.value < |text| && text[r.value] == ' ' && ' ' !in text[from..r.value]
    ensures r.None? ==> ' ' !in text[from..]
    decreases |text| - from
  {
    if from == |text| then None
    else if text[from] == ' ' then Some(from)
    else FirstSpace(text, from + 1)
  }

  /** The two sides of a merge; those of a line must not be empty. */
  function Sides(merge: Merge): Option<(string, string)> {
    match merge
    case Malformed => None
    case Pair(left, right) => Some((left, right))
    case Line(text) =>
      match FirstSpace(text, 0)
      case None => None
      case Some(at) => if at == 0 || at + 1 == |text| then None else Some((text[..at], text[at + 1..]))
  }

  /** The first space of a line is where two sides without a space in the first meet. */
  lemma FirstSpaceIs(text: string, at: nat, cut: nat)
    requires FirstSpace(text, 0) == Some(at) && cut < |text| && text[cut] == ' ' && ' ' !in text[..cut]
    ensures at == cut
  {
    forall i: nat | i < at ensures text[i] != ' ' { assert text[0..at][i] == text[i]; }
    forall i: nat | i < cut ensures text[i] != ' ' { assert text[..cut][i] == text[i]; }
  }

  lemma SidesMeet(text: string, left: string, right: string)
    requires text == left + " " + right && ' ' !in left
    ensures FirstSpace(text, 0) == Some(|left|) && text[..|left|] == left && text[|left| + 1..] == right
  {
    assert text[..|left|] == left && text[|left|] == ' ' && text[0..] == text;
    FirstSpaceIs(text, FirstSpace(text, 0).value, |left|);
  }

  /** A line gives two sides exactly when it is them around its first space and neither is empty. */
  lemma SidesAre(merge: Merge, left: string, right: string)
    ensures Sides(merge) == Some((left, right)) <==>
      match merge
      case Malformed => false
      case Pair(a, b) => a == left && b == right
      case Line(text) => left != "" && right != "" && ' ' !in left && text == left + " " + right
  {
    if merge.Line? {
      var text := merge.text;
      if text == left + " " + right && ' ' !in left { SidesMeet(text, left, right); }
      if FirstSpace(text, 0).Some? {
        var at := FirstSpace(text, 0).value;
        assert text == text[..at] + " " + text[at + 1..] && text[0..at] == text[..at];
      }
    }
  }

  predicate AllSplit(merges: seq<Merge>) {
    forall i: nat | i < |merges| :: Sides(merges[i]).Some?
  }

  ghost predicate RankedFrom(merges: seq<Merge>, i: nat, ranks: map<(string, string), nat>)
    requires i < |merges|
  {
    Sides(merges[i]).Some? && Sides(merges[i]).value in ranks && i <= ranks[Sides(merges[i]).value]
  }

  /** Every listed pair has a rank, that of its last listing. */
  ghost predicate RanksAre(merges: seq<Merge>, n: nat, ranks: map<(string, string), nat>) {
    && n <= |merges|
    && (forall pair <- ranks :: ranks[pair] < n && Sides(merges[ranks[pair]]) == Some(pair))
    && forall i: nat | i < n :: RankedFrom(merges, i, ranks)
  }

  predicate FirstBad(merges: seq<Merge>, rank: nat) {
    rank < |merges| && Sides(merges[rank]).None? && forall i: nat | i < rank :: Sides(merges[i]).Some?
  }

  method ReadMerges(merges: seq<Merge>) returns (r: Result<map<(string, string), nat>, LoadError>)
    ensures r.Ok? <==> AllSplit(merges)
    ensures r.Ok? ==> RanksAre(merges, |merges|, r.value)
    ensures r.Err? ==> r.error.BadMerge? && FirstBad(merges, r.error.rank)
  {
    hide Sides;
    var ranks: map<(string, string), nat> := map[];
    for rank := 0 to |merges|
      invariant RanksAre(merges, rank, ranks) && forall i: nat | i < rank :: Sides(merges[i]).Some?
    {
      var sides := Sides(merges[rank]);
      if sides.None? { return Err(BadMerge(rank)); }
      ghost var before := ranks;
      ranks := ranks[sides.value := rank];
      forall i: nat | i < rank + 1 ensures RankedFrom(merges, i, ranks) {
        if i < rank { assert RankedFrom(merges, i, before); }
      }
    }
    return Ok(ranks);
  }

  // ---------- GLM ----------

  ghost predicate DistinctIds(vocabulary: map<string, nat>) {
    forall s <- vocabulary, t <- vocabulary :: vocabulary[s] == vocabulary[t] ==> s == t
  }

  /** Added token i either renames nothing (its ID is the one its text has in the vocabulary) or takes
      an ID that neither the vocabulary nor an earlier added token has. */
  ghost predicate AddedFits(vocabulary: map<string, nat>, added: seq<Added>, i: nat)
    requires i < |added|
  {
    || (added[i].content in vocabulary && vocabulary[added[i].content] == added[i].id)
    || (added[i].id !in vocabulary.Values && forall j: nat | j < i :: added[j].id != added[i].id)
  }

  ghost predicate NewName(added: seq<Added>, i: nat)
    requires i < |added|
  {
    forall j: nat | j < i :: added[j].content != added[i].content
  }

  ghost predicate IdsSmall(vocabulary: map<string, nat>, added: seq<Added>) {
    && (forall s <- vocabulary :: vocabulary[s] <= MAX_TOKEN_ID)
    && forall i: nat | i < |added| :: added[i].id <= MAX_TOKEN_ID
  }

  ghost predicate AllFit(vocabulary: map<string, nat>, added: seq<Added>, n: nat) {
    n <= |added| && forall i: nat | i < n :: NewName(added, i) && AddedFits(vocabulary, added, i)
  }

  /** Exactly the vocabularies the loader accepts. */
  ghost predicate WellFormed(vocabulary: map<string, nat>, added: seq<Added>) {
    IdsSmall(vocabulary, added) && DistinctIds(vocabulary) && AllFit(vocabulary, added, |added|)
  }

  type Table = seq<Option<Entry>>

  /** What slot `id` holds once the texts in `placed` are in the table. */
  ghost predicate SlotPlaced(vocabulary: map<string, nat>, placed: set<string>, table: Table, id: nat)
    requires id < |table| && placed <= vocabulary.Keys
  {
    match table[id]
    case None => forall s <- placed :: vocabulary[s] != id
    case Some(entry) => !entry.raw && entry.text in placed && vocabulary[entry.text] == id
  }

  ghost predicate Placed(vocabulary: map<string, nat>, placed: set<string>, table: Table)
    requires placed <= vocabulary.Keys
  {
    && (forall s <- placed, t <- placed :: vocabulary[s] == vocabulary[t] ==> s == t)
    && forall id: nat | id < |table| :: SlotPlaced(vocabulary, placed, table, id)
  }

  lemma PlaceOne(vocabulary: map<string, nat>, placed: set<string>, table: Table, text: string)
    requires placed <= vocabulary.Keys && Placed(vocabulary, placed, table)
    requires text in vocabulary && text !in placed && vocabulary[text] < |table| && table[vocabulary[text]].None?
    ensures Placed(vocabulary, placed + {text}, table[vocabulary[text] := Some(Entry(text, false))])
  {
    var id := vocabulary[text];
    var filled := table[id := Some(Entry(text, false))];
    assert SlotPlaced(vocabulary, placed, table, id);
    forall other: nat | other < |filled| ensures SlotPlaced(vocabulary, placed + {text}, filled, other) {
      assert SlotPlaced(vocabulary, placed, table, other);
    }
  }

  lemma Clash(vocabulary: map<string, nat>, placed: set<string>, table: Table, text: string)
    requires placed <= vocabulary.Keys && Placed(vocabulary, placed, table)
    requires text in vocabulary && text !in placed && vocabulary[text] < |table| && table[vocabulary[text]].Some?
    ensures !DistinctIds(vocabulary)
  {
    var id := vocabulary[text];
    assert SlotPlaced(vocabulary, placed, table, id);
    assert vocabulary[table[id].value.text] == vocabulary[text];
  }

  method PlaceVocabulary(vocabulary: map<string, nat>, size: nat) returns (r: Result<Table, LoadError>)
    requires forall s <- vocabulary :: vocabulary[s] < size
    ensures r.Ok? <==> DistinctIds(vocabulary)
    ensures r.Ok? ==> |r.value| == size && Placed(vocabulary, vocabulary.Keys, r.value)
  {
    var table: Table := seq(size, _ => None);
    var placed: set<string>, left := {}, vocabulary.Keys;
    while left != {}
      invariant placed + left == vocabulary.Keys && placed !! left
      invariant |table| == size && Placed(vocabulary, placed, table)
      decreases |left|
    {
      var text :| text in left;
      var id := vocabulary[text];
      if table[id].Some? {
        Clash(vocabulary, placed, table, text);
        return Err(DuplicateId(id));
      }
      PlaceOne(vocabulary, placed, table, text);
      table := table[id := Some(Entry(text, false))];
      placed, left := placed + {text}, left - {text};
    }
    assert placed == vocabulary.Keys;
    return Ok(table);
  }

  /** What slot `id` holds once the first n added tokens are in the table too. */
  ghost predicate SlotAdded(vocabulary: map<string, nat>, added: seq<Added>, n: nat, table: Table, id: nat)
    requires id < |table| && n <= |added|
  {
    match table[id]
    case None => id !in vocabulary.Values && forall j: nat | j < n :: added[j].id != id
    case Some(entry) =>
      && (id in vocabulary.Values ==> entry.text in vocabulary && vocabulary[entry.text] == id)
      && (!entry.raw ==> id in vocabulary.Values && forall j: nat | j < n :: added[j].id != id)
      && (entry.raw ==> exists j: nat :: j < n && added[j] == Added(id, entry.text))
  }

  ghost predicate TableAdded(vocabulary: map<string, nat>, added: seq<Added>, n: nat, table: Table)
    requires n <= |added|
  {
    forall id: nat | id < |table| :: SlotAdded(vocabulary, added, n, table, id)
  }

  lemma SlotAfterAdding(vocabulary: map<string, nat>, added: seq<Added>, n: nat, table: Table, id: nat)
    requires n < |added| && added[n].id < |table| && id < |table|
    requires DistinctIds(vocabulary) && AddedFits(vocabulary, added, n) && SlotAdded(vocabulary, added, n, table, id)
    ensures SlotAdded(vocabulary, added, n + 1, table[added[n].id := Some(Entry(added[n].content, true))], id)
  {
    if id == added[n].id {
      assert added[n] == Added(id, added[n].content);
    } else {
      if table[id].Some? && table[id].value.raw {
        var j: nat :| j < n && added[j] == Added(id, table[id].value.text);
        assert j < n + 1;
      }
    }
  }

  lemma TableAfterAdding(vocabulary: map<string, nat>, added: seq<Added>, n: nat, table: Table)
    requires n < |added| && added[n].id < |table|
    requires DistinctIds(vocabulary) && AddedFits(vocabulary, added, n) && TableAdded(vocabulary, added, n, table)
    ensures TableAdded(vocabulary, added, n + 1, table[added[n].id := Some(Entry(added[n].content, true))])
  {
    var filled, next := table[added[n].id := Some(Entry(added[n].content, true))], n + 1;
    forall id: nat | id < |filled| ensures SlotAdded(vocabulary, added, next, filled, id) {
      SlotAfterAdding(vocabulary, added, n, table, id);
    }
  }

  lemma PlacedIsAdded(vocabulary: map<string, nat>, added: seq<Added>, table: Table)
    requires Placed(vocabulary, vocabulary.Keys, table)
    ensures TableAdded(vocabulary, added, 0, table)
  {
    forall id: nat | id < |table| ensures SlotAdded(vocabulary, added, 0, table, id) {
      assert SlotPlaced(vocabulary, vocabulary.Keys, table, id);
    }
  }

  method PlaceAdded(vocabulary: map<string, nat>, added: seq<Added>, start: Table) returns (r: Result<Table, LoadError>)
    requires DistinctIds(vocabulary) && TableAdded(vocabulary, added, 0, start)
    requires forall i: nat | i < |added| :: added[i].id < |start|
    ensures r.Ok? <==> AllFit(vocabulary, added, |added|)
    ensures r.Ok? ==> |r.value| == |start| && TableAdded(vocabulary, added, |added|, r.value)
  {
    var table := start;
    var names: set<string> := {};
    for i := 0 to |added|
      invariant |table| == |start| && TableAdded(vocabulary, added, i, table)
      invariant forall s :: s in names <==> exists j: nat :: j < i && added[j].content == s
      invariant AllFit(vocabulary, added, i)
    {
      var token := added[i];
      if token.content in names {
        assert !NewName(added, i);
        return Err(DuplicateAdded(token.content));
      }
      names := names + {token.content};
      assert SlotAdded(vocabulary, added, i, table, token.id);
      if table[token.id].Some? && (token.content !in vocabulary || vocabulary[token.content] != token.id) {
        assert !AddedFits(vocabulary, added, i);
        return Err(DuplicateId(token.id));
      }
      TableAfterAdding(vocabulary, added, i, table);
      table := table[token.id := Some(Entry(token.content, true))];
    }
    return Ok(table);
  }

  function SpecialsOf(added: seq<Added>): (r: seq<Special>)
    ensures |r| == |added|
  {
    seq(|added|, i requires 0 <= i < |added| => Special(added[i].id, added[i].content))
  }

  /** Some token before the n-th added one has this ID, or there is none and it is zero. */
  ghost predicate Reached(vocabulary: map<string, nat>, added: seq<Added>, n: nat, id: nat)
    requires n <= |added|
  {
    id == 0 || id in vocabulary.Values || exists i: nat :: i < n && added[i].id == id
  }

  method LargestId(vocabulary: map<string, nat>, added: seq<Added>) returns (r: Result<nat, LoadError>)
    ensures r.Ok? <==> IdsSmall(vocabulary, added)
    ensures r.Ok? ==> forall s <- vocabulary :: vocabulary[s] <= r.value
    ensures r.Ok? ==> forall i: nat | i < |added| :: added[i].id <= r.value
    ensures r.Ok? ==> Reached(vocabulary, added, |added|, r.value)
  {
    var maximum: nat := 0;
    var left := vocabulary.Keys;
    while left != {}
      invariant left <= vocabulary.Keys
      invariant maximum <= MAX_TOKEN_ID && (maximum == 0 || maximum in vocabulary.Values)
      invariant forall s <- vocabulary :: s in left || vocabulary[s] <= maximum
      decreases |left|
    {
      var text :| text in left;
      var id := vocabulary[text];
      if id > MAX_TOKEN_ID { return Err(IdTooLarge); }
      assert id in vocabulary.Values;
      maximum := if id > maximum then id else maximum;
      left := left - {text};
    }
    for i := 0 to |added|
      invariant forall s <- vocabulary :: vocabulary[s] <= maximum
      invariant forall s <- vocabulary :: vocabulary[s] <= MAX_TOKEN_ID
      invariant forall j: nat | j < i :: added[j].id <= maximum && added[j].id <= MAX_TOKEN_ID
      invariant Reached(vocabulary, added, i, maximum)
    {
      if added[i].id > MAX_TOKEN_ID { return Err(IdTooLarge); }
      maximum := if added[i].id > maximum then added[i].id else maximum;
    }
    return Ok(maximum);
  }

  /** A parsed tokenizer file. */
  datatype RawFile = RawFile(
    kind: string, ignoreMerges: bool, byteFallback: bool,
    vocabulary: map<string, nat>, added: seq<Added>, merges: seq<Merge>)
  {
    predicate Supported() { kind == "BPE" && ignoreMerges && !byteFallback }
  }

  /** Without merges pairs are ranked by the ID of their joined text. */
  ghost predicate RankingIs(merges: seq<Merge>, ranking: Ranking) {
    if merges == [] then ranking == RankById
    else ranking.MergeTable? && RanksAre(merges, |merges|, ranking.ranks)
  }

  /** Two added tokens never share an ID. */
  lemma SameIdSameText(vocabulary: map<string, nat>, added: seq<Added>, i: nat, j: nat)
    requires WellFormed(vocabulary, added) && i < |added| && j < |added| && added[i].id == added[j].id
    ensures i == j
  {
    assert AddedFits(vocabulary, added, i) && AddedFits(vocabulary, added, j);
    assert NewName(added, i) && NewName(added, j);
  }

  lemma GlmIsValid(vocabulary: map<string, nat>, added: seq<Added>, t: Tokenizer)
    requires WellFormed(vocabulary, added) && TableAdded(vocabulary, added, |added|, t.decoded)
    requires t.vocabulary == vocabulary && t.specials == SpecialsOf(added)
    requires forall s <- vocabulary :: vocabulary[s] < |t.decoded|
    requires forall i: nat | i < |added| :: added[i].id < |t.decoded|
    requires forall i: nat | i < |added| :: added[i].content != "" && Ascii(added[i].content)
    ensures t.Valid()
  {
    forall s <- vocabulary
      ensures t.EntryOf(vocabulary[s]).Some? && t.EntryOf(vocabulary[s]).value.text == s
      ensures t.EntryOf(vocabulary[s]).value.raw ==> t.IsSpecialText(s)
    {
      assert SlotAdded(vocabulary, added, |added|, t.decoded, vocabulary[s]);
      if t.EntryOf(vocabulary[s]).value.raw {
        var j: nat :| j < |added| && added[j] == Added(vocabulary[s], s);
        assert t.specials[j].text == s;
      }
    }
    forall i: nat | i < |t.specials| ensures t.SpecialValid(t.specials[i]) {
      var id := added[i].id;
      assert SlotAdded(vocabulary, added, |added|, t.decoded, id);
      assert AddedFits(vocabulary, added, i);
      var entry := t.decoded[id].value;
      assert entry.raw;
      var j: nat :| j < |added| && added[j] == Added(id, entry.text);
      SameIdSameText(vocabulary, added, i, j);
    }
  }

  /** The GLM loader accepts exactly the supported files with well-formed vocabularies and merges, and
      when the added texts are non-empty ASCII the tokenizer it builds is one that round-trips. */
  method FromRaw(raw: RawFile) returns (r: Result<Tokenizer, LoadError>)
    ensures r.Ok? <==>
      && raw.kind == "BPE" && raw.ignoreMerges && !raw.byteFallback
      && WellFormed(raw.vocabulary, raw.added) && AllSplit(raw.merges)
    ensures r.Ok? ==> r.value.vocabulary == raw.vocabulary && RankingIs(raw.merges, r.value.ranking)
    ensures r.Ok? ==> r.value.specials == SpecialsOf(raw.added)
    ensures r.Ok? ==> var size := |r.value.decoded|;
      && size > 0 && Reached(raw.vocabulary, raw.added, |raw.added|, size - 1)
      && (forall s <- raw.vocabulary :: raw.vocabulary[s] < size)
      && forall i: nat | i < |raw.added| :: raw.added[i].id < size
    ensures r.Ok? && (forall i: nat | i < |raw.added| :: raw.added[i].content != "" && Ascii(raw.added[i].content))
      ==> r.value.Valid()
  {
    if !raw.Supported() { return Err(Unsupported); }
    var vocabulary, added := raw.vocabulary, raw.added;
    var largest := LargestId(vocabulary, added);
    if largest.Err? { return Err(largest.error); }
    var placed := PlaceVocabulary(vocabulary, largest.value + 1);
    if placed.Err? { return Err(placed.error); }
    PlacedIsAdded(vocabulary, added, placed.value);
    var table := PlaceAdded(vocabulary, added, placed.value);
    if table.Err? { return Err(table.error); }
    var ranks := ReadMerges(raw.merges);
    if ranks.Err? { return Err(ranks.error); }
    var ranking := if raw.merges == [] then RankById else MergeTable(ranks.value);
    var t := Tokenizer(vocabulary, ranking, SpecialsOf(added), table.value);
    if forall i: nat | i < |added| :: added[i].content != "" && Ascii(added[i].content) {
      GlmIsValid(vocabulary, added, t);
    }
    return Ok(t);
  }

  // ---------- Qwen ----------

  /** Kinds 3 and 4 are matched whole; only kind 3 is emitted as its own bytes. */
  function Atoms(texts: seq<string>, kinds: seq<int>, n: nat): seq<Special>
    requires n <= |texts| == |kinds|
  {
    if n == 0 then []
    else
      Atoms(texts, kinds, n - 1)
      + (if kinds[n - 1] == 3 || kinds[n - 1] == 4 then [Special(n - 1, texts[n - 1])] else [])
  }

  ghost predicate DistinctTexts(texts: seq<string>, n: nat) {
    n <= |texts| && forall i: nat, j: nat | i < j < n :: texts[i] != texts[j]
  }

  /** A special text is not empty; one that is emitted raw is ASCII, one that goes through the byte
      table is made of visible characters. */
  predicate AtomText(text: string, kind: int) {
    (kind == 3 ==> text != "" && Ascii(text)) && (kind == 4 ==> text != "" && Visible(text))
  }

  ghost predicate AtomTexts(texts: seq<string>, kinds: seq<int>) {
    |kinds| == |texts| && forall i: nat | i < |texts| :: AtomText(texts[i], kinds[i])
  }

  ghost predicate IdsOf(texts: seq<string>, n: nat, vocabulary: map<string, nat>) {
    && n <= |texts|
    && (forall s <- vocabulary :: vocabulary[s] < n && texts[vocabulary[s]] == s)
    && forall i: nat | i < n :: texts[i] in vocabulary && vocabulary[texts[i]] == i
  }

  /** The metadata of a GGUF vocabulary; a key that is missing or has another type is None. */
  datatype GgufVocabulary = GgufVocabulary(
    model: Option<string>, pre: Option<string>, texts: Option<seq<string>>, kinds: Option<seq<int>>,
    merges: Option<seq<string>>, eos: Option<nat>)
  {
    predicate Present() {
      && model == Some("gpt2") && pre == Some("qwen35")
      && texts.Some? && kinds.Some? && merges.Some? && eos.Some?
    }
  }

  function Lines(merges: seq<string>): (r: seq<Merge>)
    ensures |r| == |merges| && forall i: nat | i < |r| :: r[i].Line? && r[i].text == merges[i]
  {
    seq(|merges|, i requires 0 <= i < |merges| => Line(merges[i]))
  }

  /** The IDs, the token table and the texts to match whole. */
  method ReadTexts(texts: seq<string>, kinds: seq<int>)
    returns (r: Result<(map<string, nat>, Table, seq<Special>), LoadError>)
    ensures r.Ok? <==> |texts| == |kinds| && |texts| <= MAX_IDS && DistinctTexts(texts, |texts|)
    ensures r.Ok? ==> var (vocabulary, tokens, atoms) := r.value;
      && IdsOf(texts, |texts|, vocabulary) && atoms == Atoms(texts, kinds, |texts|)
      && |tokens| == |texts| && forall i: nat | i < |texts| :: tokens[i] == Some(Entry(texts[i], kinds[i] == 3))
  {
    if |texts| != |kinds| { return Err(Mismatch); }
    var vocabulary: map<string, nat> := map[];
    var tokens: Table, atoms := [], [];
    for id := 0 to |texts|
      invariant id <= MAX_IDS && IdsOf(texts, id, vocabulary) && DistinctTexts(texts, id)
      invariant |tokens| == id && forall i: nat | i < id :: tokens[i] == Some(Entry(texts[i], kinds[i] == 3))
      invariant atoms == Atoms(texts, kinds, id)
    {
      if id >= MAX_IDS { return Err(IdTooLarge); }
      if texts[id] in vocabulary {
        assert texts[vocabulary[texts[id]]] == texts[id];
        return Err(DuplicateText(texts[id]));
      }
      vocabulary := vocabulary[texts[id] := id];
      if kinds[id] == 3 || kinds[id] == 4 { atoms := atoms + [Special(id, texts[id])]; }
      tokens := tokens + [Some(Entry(texts[id], kinds[id] == 3))];
    }
    return Ok((vocabulary, tokens, atoms));
  }

  lemma {:induction false} AtomsAreTokens(texts: seq<string>, kinds: seq<int>, n: nat)
    requires n <= |texts| == |kinds|
    ensures forall a <- Atoms(texts, kinds, n) ::
      a.id < n && a.text == texts[a.id] && (kinds[a.id] == 3 || kinds[a.id] == 4)
    ensures forall i: nat | i < n && kinds[i] == 3 :: Special(i, texts[i]) in Atoms(texts, kinds, n)
  {
    if n > 0 { AtomsAreTokens(texts, kinds, n - 1); }
  }

  lemma QwenIsValid(texts: seq<string>, kinds: seq<int>, t: Tokenizer)
    requires AtomTexts(texts, kinds) && IdsOf(texts, |texts|, t.vocabulary)
    requires t.specials == Atoms(texts, kinds, |texts|) && |t.decoded| == |texts|
    requires forall i: nat | i < |texts| :: t.decoded[i] == Some(Entry(texts[i], kinds[i] == 3))
    ensures t.Valid()
  {
    AtomsAreTokens(texts, kinds, |texts|);
    forall s <- t.vocabulary ensures t.EntryOf(t.vocabulary[s]).value.raw ==> t.IsSpecialText(s) {
      var id := t.vocabulary[s];
      if kinds[id] == 3 {
        assert Special(id, s) in t.specials;
        var i: nat :| i < |t.specials| && t.specials[i] == Special(id, s);
        assert t.specials[i].text == s;
      }
    }
    forall i: nat | i < |t.specials| ensures t.SpecialValid(t.specials[i]) {
      var a := t.specials[i];
      assert a in Atoms(texts, kinds, |texts|);
      assert AtomText(texts[a.id], kinds[a.id]);
    }
  }

  /** The Qwen loader accepts exactly the GGUF vocabularies with all keys, as many kinds as texts, fewer
      texts than IDs, distinct texts, merges that split, and an end token inside the vocabulary. */
  method FromGguf(file: GgufVocabulary) returns (r: Result<Tokenizer, LoadError>)
    ensures r.Ok? <==>
      && file.model == Some("gpt2") && file.pre == Some("qwen35")
      && file.texts.Some? && file.kinds.Some? && file.merges.Some? && file.eos.Some?
      && var texts := file.texts.value;
      && |texts| == |file.kinds.value| && |texts| <= MAX_IDS && DistinctTexts(texts, |texts|)
      && AllSplit(Lines(file.merges.value)) && file.eos.value < |texts|
    ensures r.Ok? ==> var texts, kinds, merges := file.texts.value, file.kinds.value, Lines(file.merges.value);
      && r.value.ranking.MergeTable? && RanksAre(merges, |merges|, r.value.ranking.ranks)
      && r.value.specials == Atoms(texts, kinds, |texts|) && IdsOf(texts, |texts|, r.value.vocabulary)
      && (AtomTexts(texts, kinds) ==> r.value.Valid())
  {
    if !file.Present() { return Err(Missing); }
    var texts, kinds := file.texts.value, file.kinds.value;
    var table := ReadTexts(texts, kinds);
    if table.Err? { return Err(table.error); }
    var (vocabulary, tokens, atoms) := table.value;
    hide AllSplit, RanksAre, DistinctTexts, IdsOf;
    var ranks := ReadMerges(Lines(file.merges.value));
    if ranks.Err? { return Err(ranks.error); }
    if file.eos.value >= |texts| { return Err(EosOutside(file.eos.value)); }
    var t := Tokenizer(vocabulary, MergeTable(ranks.value), atoms, tokens);
    if forall i: nat | i < |texts| :: AtomText(texts[i], kinds[i]) { QwenIsValid(texts, kinds, t); }
    return Ok(t);
  }

  // ---------- Sampling ----------

  datatype Logit = NegativeInfinity | Finite(rank: int)

  /** Masking rejects a model with fewer rows than the tokenizer has IDs; otherwise exactly the IDs
      without a token are ruled out. */
  method MaskUndefinedLogits(t: Tokenizer, logits: array<Logit>) returns (ok: bool)
    modifies logits
    ensures ok <==> |t.decoded| <= logits.Length
    ensures !ok ==> logits[..] == old(logits[..])
    ensures ok ==> forall id: nat | id < logits.Length ::
      logits[id] == (if t.EntryOf(id).None? then NegativeInfinity else old(logits[id]))
  {
    if |t.decoded| > logits.Length { return false; }
    for id := 0 to logits.Length
      invariant forall j: nat | j < id :: logits[j] == (if t.EntryOf(j).None? then NegativeInfinity else old(logits[j]))
      invariant forall j: nat | id <= j < logits.Length :: logits[j] == old(logits[j])
    {
      if t.EntryOf(id).None? { logits[id] := NegativeInfinity; }
    }
    return true;
  }
}
