/** One GLM forward pass as a fold over layers, with DSA selection, and the session state it builds. */
module GlmForward {
  import opened Wrappers
  import opened Utf8
  import opened Generation
  import TopK

  datatype IndexerKind = Full | Shared

  /** The numeric kernels are deterministic functions that may fail. */
  datatype GlmModel = GlmModel(
    kinds: seq<IndexerKind>,
    dsaEnabled: bool, topk: nat,
    vocabulary: nat, maxContext: nat,
    embed: Token -> Result<Vector, nat>,
    project: (nat, Vector, nat) -> Result<(Vector, Vector), nat>,
    indexKey: (nat, Vector, nat) -> Result<Vector, nat>,
    indexScore: (nat, Vector, nat, Vector) -> int,
    attend: (nat, Vector, nat, seq<(Vector, Vector)>) -> Result<Vector, nat>,
    feedForward: (nat, Vector) -> Result<Vector, nat>,
    output: Vector -> Result<Vector, nat>,
    mask: Vector -> Result<Vector, nat>,
    stops: Token -> bool,
    tokenBytes: Token -> Option<seq<byte>>)
  {
    predicate Valid() { kinds != [] && topk > 0 }

    /** Layers that carry an indexer: the full ones, and only when the snapshot has the sidecar. */
    predicate Indexed(l: nat)
      requires l < |kinds|
    {
      kinds[l].Full? && dsaEnabled
    }
  }

  type Selection = Option<seq<nat>>

  datatype LayerCache = LayerCache(latent: seq<Vector>, rope: seq<Vector>, indexKeys: seq<Vector>)

  datatype State = State(layers: seq<LayerCache>, selection: Selection, history: seq<Selection>)

  function NewState(m: GlmModel): State {
    State(seq(|m.kinds|, l => LayerCache([], [], [])), None, [])
  }

  // ---------- One layer ----------

  function IndexScores(m: GlmModel, l: nat, hidden: Vector, position: nat, keys: seq<Vector>): (r: seq<int>)
    ensures |r| == |keys|
  {
    seq(|keys|, i requires 0 <= i < |keys| => m.indexScore(l, hidden, position, keys[i]))
  }

  function IndexSelection(m: GlmModel, l: nat, hidden: Vector, position: nat, keys: seq<Vector>): Selection {
    if position < m.topk then None
    else Some(TopK.Select(IndexScores(m, l, hidden, position, keys), m.topk))
  }

  /** Appends the layer's rows and settles which positions it may attend to. */
  function AppendRows(m: GlmModel, l: nat, hidden: Vector, position: nat, cache: LayerCache, entering: Selection)
    : Result<(LayerCache, Selection), Error>
    requires l < |m.kinds|
  {
    match m.project(l, hidden, position)
    case Err(code) => Err(Kernel(code))
    case Ok((latent, rope)) =>
      var pushed := cache.(latent := cache.latent + [latent], rope := cache.rope + [rope]);
      if m.Indexed(l) then
        match m.indexKey(l, hidden, position)
        case Err(code) => Err(Kernel(code))
        case Ok(key) =>
          var keyed := pushed.(indexKeys := cache.indexKeys + [key]);
          Ok((keyed, IndexSelection(m, l, hidden, position, keyed.indexKeys)))
      else if m.kinds[l].Full? then Ok((pushed, None))
      else if m.dsaEnabled && position + 1 > m.topk && entering.None? then Err(MissingDsaSelection(l))
      else Ok((pushed, entering))
  }

  /** The positions attention reads: the selection, or everything so far. */
  function Positions(selection: Selection, position: nat): seq<nat> {
    match selection
    case Some(chosen) => chosen
    case None => seq(position + 1, i => i)
  }

  function Rows(cache: LayerCache, positions: seq<nat>): seq<(Vector, Vector)> {
    seq(|positions|, i requires 0 <= i < |positions| =>
      if positions[i] < |cache.latent| && positions[i] < |cache.rope|
      then (cache.latent[positions[i]], cache.rope[positions[i]]) else ([], []))
  }

  /** The rows attention must be given at `position`: of the selected positions, in their order, or
      without a selection of every position so far, the newest included. */
  ghost predicate ReadsSelected(cache: LayerCache, selection: Selection, position: nat, rows: seq<(Vector, Vector)>) {
    match selection
    case Some(chosen) =>
      && |rows| == |chosen|
      && forall j: nat | j < |chosen| ::
           chosen[j] < |cache.latent| && chosen[j] < |cache.rope|
           && rows[j] == (cache.latent[chosen[j]], cache.rope[chosen[j]])
    case None =>
      && |rows| == position + 1 == |cache.latent| == |cache.rope|
      && forall j: nat | j <= position :: rows[j] == (cache.latent[j], cache.rope[j])
  }

  function Attention(m: GlmModel, l: nat, hidden: Vector, position: nat, cache: LayerCache, entering: Selection)
    : Result<(Vector, LayerCache, Selection), Error>
    requires l < |m.kinds|
  {
    match AppendRows(m, l, hidden, position, cache, entering)
    case Err(e) => Err(e)
    case Ok((grown, selection)) =>
      match m.attend(l, hidden, position, Rows(grown, Positions(selection, position)))
      case Err(code) => Err(Kernel(code))
      case Ok(attended) => Ok((attended, grown, selection))
  }

  // ---------- All layers, one token, many tokens ----------

  function Layers(m: GlmModel, l: nat, hidden: Vector, position: nat, layers: seq<LayerCache>, entering: Selection)
    : Result<(Vector, seq<LayerCache>, Selection), Error>
    requires |layers| == |m.kinds|
    decreases |m.kinds| - l
  {
    if l >= |m.kinds| then Ok((hidden, layers, entering))
    else
      match Attention(m, l, hidden, position, layers[l], entering)
      case Err(e) => Err(e)
      case Ok((attended, grown, selection)) =>
        match m.feedForward(l, attended)
        case Err(code) => Err(Kernel(code))
        case Ok(next) => Layers(m, l + 1, next, position, layers[l := grown], selection)
  }

  function Position(state: State): nat {
    if state.layers == [] then 0 else |state.layers[0].latent|
  }

  function Forward(m: GlmModel, state: State, token: Token): Result<(State, Vector), Error>
    requires |state.layers| == |m.kinds|
  {
    var position := Position(state);
    if token >= m.vocabulary then Err(InvalidToken)
    else if position >= m.maxContext then Err(ContextLimit)
    else
      match m.embed(token)
      case Err(code) => Err(Kernel(code))
      case Ok(hidden) =>
        match Layers(m, 0, hidden, position, state.layers, state.selection)
        case Err(e) => Err(e)
        case Ok((last, layers, selection)) =>
          match m.output(last)
          case Err(code) => Err(Kernel(code))
          case Ok(logits) => Ok((State(layers, selection, state.history + [selection]), logits))
  }

  lemma {:induction false} LayersCount(m: GlmModel, l: nat, hidden: Vector, position: nat, layers: seq<LayerCache>,
      entering: Selection)
    requires |layers| == |m.kinds| && Layers(m, l, hidden, position, layers, entering).Ok?
    ensures |Layers(m, l, hidden, position, layers, entering).value.1| == |m.kinds|
    decreases |m.kinds| - l
  {
    if l < |m.kinds| {
      var (attended, grown, selection) := Attention(m, l, hidden, position, layers[l], entering).value;
      LayersCount(m, l + 1, m.feedForward(l, attended).value, position, layers[l := grown], selection);
    }
  }

  lemma LayersKeepCount(m: GlmModel, state: State, token: Token)
    requires |state.layers| == |m.kinds| && Forward(m, state, token).Ok?
    ensures |Forward(m, state, token).value.0.layers| == |m.kinds|
  {
    LayersCount(m, 0, m.embed(token).value, Position(state), state.layers, state.selection);
  }

  /** The state a new session reaches by forwarding `tokens` one by one. */
  function Replay(m: GlmModel, tokens: seq<Token>): (r: Result<State, Error>)
    ensures r.Ok? ==> |r.value.layers| == |m.kinds|
    decreases |tokens|
  {
    if tokens == [] then Ok(NewState(m))
    else
      match Replay(m, tokens[..|tokens| - 1])
      case Err(e) => Err(e)
      case Ok(before) =>
        match Forward(m, before, tokens[|tokens| - 1])
        case Err(e) => Err(e)
        case Ok((state, _)) => LayersKeepCount(m, before, tokens[|tokens| - 1]); Ok(state)
  }

  /** The logits of the last token. */
  function LogitsOf(m: GlmModel, tokens: seq<Token>): Result<Vector, Error>
    requires tokens != []
  {
    match Replay(m, tokens[..|tokens| - 1])
    case Err(e) => Err(e)
    case Ok(before) =>
      match Forward(m, before, tokens[|tokens| - 1])
      case Err(e) => Err(e)
      case Ok((_, logits)) => Ok(logits)
  }

  // ---------- Truncation and causality ----------

  function CutLayer(cache: LayerCache, n: nat): LayerCache {
    LayerCache(Cut(cache.latent, n), Cut(cache.rope, n), Cut(cache.indexKeys, n))
  }

  function CutLayers(layers: seq<LayerCache>, n: nat): seq<LayerCache> {
    seq(|layers|, l requires 0 <= l < |layers| => CutLayer(layers[l], n))
  }

  function LastSelection(history: seq<Selection>): Selection {
    if history == [] then None else history[|history| - 1]
  }

  function Truncate(state: State, n: nat): State {
    var history := Cut(state.history, n);
    State(CutLayers(state.layers, n), LastSelection(history), history)
  }

  /** Layer l holds n rows, and n index keys exactly when it is indexed. */
  predicate LayerShape(m: GlmModel, l: nat, cache: LayerCache, n: nat)
    requires l < |m.kinds|
  {
    |cache.latent| == |cache.rope| == n && |cache.indexKeys| == (if m.Indexed(l) then n else 0)
  }

  predicate Fits(selection: Selection, n: nat) {
    selection.Some? ==> forall p <- selection.value :: p < n
  }

  ghost predicate Shape(m: GlmModel, state: State, n: nat) {
    && |state.layers| == |m.kinds|
    && (forall l: nat | l < |m.kinds| :: LayerShape(m, l, state.layers[l], n))
    && |state.history| == n
    && state.selection == LastSelection(state.history)
    && Fits(state.selection, n)
  }

  /** After some layers of one pass: those hold one row more, the rest are untouched. */
  ghost predicate Growing(m: GlmModel, l: nat, before: seq<LayerCache>, layers: seq<LayerCache>, position: nat) {
    && |before| == |layers| == |m.kinds|
    && (forall k: nat | k < |m.kinds| :: LayerShape(m, k, layers[k], if k < l then position + 1 else position))
    && (forall k: nat | k < |m.kinds| :: CutLayer(layers[k], position) == before[k])
  }

  lemma RowsAreSelected(m: GlmModel, l: nat, cache: LayerCache, selection: Selection, position: nat)
    requires l < |m.kinds| && LayerShape(m, l, cache, position + 1) && Fits(selection, position + 1)
    ensures ReadsSelected(cache, selection, position, Rows(cache, Positions(selection, position)))
  {
    if selection.Some? {
      forall j: nat | j < |selection.value| ensures selection.value[j] < position + 1 {
        assert selection.value[j] in selection.value;
      }
    }
  }

  lemma AppendedFits(m: GlmModel, l: nat, hidden: Vector, position: nat, cache: LayerCache, entering: Selection)
    requires l < |m.kinds| && LayerShape(m, l, cache, position) && Fits(entering, position + 1)
    requires AppendRows(m, l, hidden, position, cache, entering).Ok?
    ensures var (grown, selection) := AppendRows(m, l, hidden, position, cache, entering).value;
      && LayerShape(m, l, grown, position + 1)
      && CutLayer(grown, position) == cache
      && Fits(selection, position + 1)
  {
    if m.Indexed(l) && position >= m.topk {
      var keys := AppendRows(m, l, hidden, position, cache, entering).value.0.indexKeys;
      TopK.SelectIsTopK(IndexScores(m, l, hidden, position, keys), m.topk);
    }
  }

  lemma AttentionGrows(m: GlmModel, l: nat, hidden: Vector, position: nat, cache: LayerCache, entering: Selection)
    requires l < |m.kinds| && LayerShape(m, l, cache, position) && Fits(entering, position + 1)
    requires Attention(m, l, hidden, position, cache, entering).Ok?
    ensures var (_, grown, selection) := Attention(m, l, hidden, position, cache, entering).value;
      && LayerShape(m, l, grown, position + 1)
      && CutLayer(grown, position) == cache
      && Fits(selection, position + 1)
  {
    AppendedFits(m, l, hidden, position, cache, entering);
  }

  /** What a layer attends with is computed from exactly the rows of the positions it settled on. */
  lemma AttendsToSelected(m: GlmModel, l: nat, hidden: Vector, position: nat, cache: LayerCache, entering: Selection)
    requires l < |m.kinds| && LayerShape(m, l, cache, position) && Fits(entering, position + 1)
    ensures Attention(m, l, hidden, position, cache, entering).Ok? ==>
      var (attended, grown, selection) := Attention(m, l, hidden, position, cache, entering).value;
      exists rows :: ReadsSelected(grown, selection, position, rows)
                     && m.attend(l, hidden, position, rows) == Ok(attended)
  {
    if Attention(m, l, hidden, position, cache, entering).Ok? {
      var (grown, selection) := AppendRows(m, l, hidden, position, cache, entering).value;
      AppendedFits(m, l, hidden, position, cache, entering);
      RowsAreSelected(m, l, grown, selection, position);
    }
  }

  lemma {:induction false} LayersGrow(m: GlmModel, l: nat, hidden: Vector, position: nat,
                                      before: seq<LayerCache>, layers: seq<LayerCache>, entering: Selection)
    requires l <= |m.kinds| && Growing(m, l, before, layers, position) && Fits(entering, position + 1)
    requires Layers(m, l, hidden, position, layers, entering).Ok?
    ensures var (_, after, selection) := Layers(m, l, hidden, position, layers, entering).value;
      Growing(m, |m.kinds|, before, after, position) && Fits(selection, position + 1)
    decreases |m.kinds| - l
  {
    if l < |m.kinds| {
      AttentionGrows(m, l, hidden, position, layers[l], entering);
      var (attended, grown, selection) := Attention(m, l, hidden, position, layers[l], entering).value;
      LayersGrow(m, l + 1, m.feedForward(l, attended).value, position, before, layers[l := grown], selection);
    }
  }

  /** A forwarded token only appends: cutting it off gives the old state back. */
  lemma ForwardAppends(m: GlmModel, state: State, token: Token)
    requires m.Valid() && Shape(m, state, |state.history|) && Forward(m, state, token).Ok?
    ensures var after := Forward(m, state, token).value.0;
      && Shape(m, after, |state.history| + 1)
      && Truncate(after, |state.history|) == state
  {
    var n := |state.history|;
    var hidden := m.embed(token).value;
    assert LayerShape(m, 0, state.layers[0], n);
    forall l: nat | l < |m.kinds| ensures CutLayer(state.layers[l], n) == state.layers[l] {
      assert LayerShape(m, l, state.layers[l], n);
    }
    LayersGrow(m, 0, hidden, n, state.layers, state.layers, state.selection);
    var after := Forward(m, state, token).value.0;
    assert CutLayers(after.layers, n) == state.layers;
  }

  lemma CutTwice<T>(s: seq<T>, n: nat, k: nat)
    requires k <= n
    ensures Cut(Cut(s, n), k) == Cut(s, k)
  {
    if k < |s| && n < |s| { assert s[..n][..k] == s[..k]; }
  }

  lemma TruncateTwice(state: State, n: nat, k: nat)
    requires k <= n
    ensures Truncate(Truncate(state, n), k) == Truncate(state, k)
  {
    var twice, once := CutLayers(CutLayers(state.layers, n), k), CutLayers(state.layers, k);
    forall l | 0 <= l < |once| ensures twice[l] == once[l] {
      CutTwice(state.layers[l].latent, n, k);
      CutTwice(state.layers[l].rope, n, k);
      CutTwice(state.layers[l].indexKeys, n, k);
    }
    CutTwice(state.history, n, k);
  }

  lemma TruncateWhole(m: GlmModel, state: State, n: nat)
    requires Shape(m, state, n)
    ensures Truncate(state, n) == state
  {
    forall l: nat | l < |m.kinds| ensures CutLayer(state.layers[l], n) == state.layers[l] {
      assert LayerShape(m, l, state.layers[l], n);
    }
    assert CutLayers(state.layers, n) == state.layers;
  }

  lemma {:induction false} ReplayShape(m: GlmModel, tokens: seq<Token>)
    requires m.Valid() && Replay(m, tokens).Ok?
    ensures Shape(m, Replay(m, tokens).value, |tokens|)
    decreases |tokens|
  {
    if tokens != [] {
      ReplayShape(m, tokens[..|tokens| - 1]);
      ForwardAppends(m, Replay(m, tokens[..|tokens| - 1]).value, tokens[|tokens| - 1]);
    }
  }

  /** Causality: what a session holds for its first n tokens depends on those tokens alone. */
  lemma {:induction false} TruncateReplay(m: GlmModel, tokens: seq<Token>, n: nat)
    requires m.Valid() && Replay(m, tokens).Ok? && n <= |tokens|
    ensures Replay(m, tokens[..n]) == Ok(Truncate(Replay(m, tokens).value, n))
    decreases |tokens|
  {
    ReplayShape(m, tokens);
    var state := Replay(m, tokens).value;
    if n == |tokens| {
      assert tokens[..n] == tokens;
      TruncateWhole(m, state, n);
    } else {
      var shorter := tokens[..|tokens| - 1];
      var before := Replay(m, shorter).value;
      ReplayShape(m, shorter);
      ForwardAppends(m, before, tokens[|tokens| - 1]);
      TruncateReplay(m, shorter, n);
      assert shorter[..n] == tokens[..n];
      TruncateTwice(state, |shorter|, n);
    }
  }
}
