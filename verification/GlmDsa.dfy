/** Which positions each GLM layer attends to, over every run. */
module GlmDsa {
  import opened Wrappers
  import opened Generation
  import opened GlmForward
  import TopK

  /** What one layer saw and chose in one pass, as far as the pass got: its input, its cache with the
      newest rows, the positions selected, and the rows attention is computed from. */
  datatype View = View(hidden: Vector, cache: LayerCache, selection: Selection, rows: seq<(Vector, Vector)>)

  ghost function Views(m: GlmModel, l: nat, hidden: Vector, position: nat, layers: seq<LayerCache>, entering: Selection)
    : (r: seq<View>)
    requires |layers| == |m.kinds|
    ensures |r| <= (if l < |m.kinds| then |m.kinds| - l else 0)
    decreases |m.kinds| - l
  {
    if l >= |m.kinds| then []
    else
      match AppendRows(m, l, hidden, position, layers[l], entering)
      case Err(_) => []
      case Ok((grown, selection)) =>
        var rows := Rows(grown, Positions(selection, position));
        [View(hidden, grown, selection, rows)]
        + match m.attend(l, hidden, position, rows)
          case Err(_) => []
          case Ok(attended) =>
            match m.feedForward(l, attended)
            case Err(_) => []
            case Ok(next) => Views(m, l + 1, next, position, layers[l := grown], selection)
  }

  /** The selection a layer must use: its own best topk when full, the previous layer's when shared. */
  ghost predicate ProperView(m: GlmModel, l: nat, position: nat, previous: Selection, view: View)
    requires l < |m.kinds|
  {
    match m.kinds[l]
    case Shared => view.selection == previous
    case Full =>
      && |view.cache.indexKeys| == position + 1
      && (position < m.topk ==> view.selection.None?)
      && (position >= m.topk ==>
            && view.selection.Some?
            && TopK.IsTopK(IndexScores(m, l, view.hidden, position, view.cache.indexKeys), m.topk,
              view.selection.value))
  }

  /** Attending to everything below topk, to exactly topk ascending cached positions from there on. */
  predicate ProperCount(m: GlmModel, position: nat, selection: Selection) {
    if position < m.topk then selection.None?
    else
      && selection.Some? && |selection.value| == m.topk
      && TopK.Ascending(selection.value) && forall p <- selection.value :: p <= position
  }

  lemma OneView(m: GlmModel, l: nat, hidden: Vector, position: nat, cache: LayerCache, entering: Selection)
    requires l < |m.kinds| && m.dsaEnabled && LayerShape(m, l, cache, position)
    requires m.kinds[l].Shared? ==> ProperCount(m, position, entering)
    requires Fits(entering, position + 1)
    ensures AppendRows(m, l, hidden, position, cache, entering) != Err(MissingDsaSelection(l))
    ensures AppendRows(m, l, hidden, position, cache, entering).Ok? ==>
      var (grown, selection) := AppendRows(m, l, hidden, position, cache, entering).value;
      var view := View(hidden, grown, selection, Rows(grown, Positions(selection, position)));
      && ProperView(m, l, position, entering, view) && ProperCount(m, position, selection)
      && ReadsSelected(grown, selection, position, view.rows)
  {
    if AppendRows(m, l, hidden, position, cache, entering).Ok? {
      var (grown, selection) := AppendRows(m, l, hidden, position, cache, entering).value;
      AppendedFits(m, l, hidden, position, cache, entering);
      RowsAreSelected(m, l, grown, selection, position);
    }
    if m.kinds[l].Full? && AppendRows(m, l, hidden, position, cache, entering).Ok? {
      var keys := AppendRows(m, l, hidden, position, cache, entering).value.0.indexKeys;
      TopK.SelectIsTopK(IndexScores(m, l, hidden, position, keys), m.topk);
    }
  }

  ghost predicate ProperViews(m: GlmModel, l: nat, position: nat, previous: Selection, views: seq<View>)
    requires l + |views| <= |m.kinds|
    decreases |views|
  {
    views == [] ||
    (&& ProperView(m, l, position, previous, views[0])
     && ReadsSelected(views[0].cache, views[0].selection, position, views[0].rows)
     && ProperCount(m, position, views[0].selection)
     && ProperViews(m, l + 1, position, views[0].selection, views[1..]))
  }

  lemma {:induction false} ViewsAreProper(m: GlmModel, l: nat, hidden: Vector, position: nat,
                                          before: seq<LayerCache>, layers: seq<LayerCache>, entering: Selection)
    requires m.dsaEnabled && l <= |m.kinds| && Growing(m, l, before, layers, position)
    requires Fits(entering, position + 1)
    requires l < |m.kinds| && m.kinds[l].Shared? ==> ProperCount(m, position, entering)
    ensures ProperViews(m, l, position, entering, Views(m, l, hidden, position, layers, entering))
    ensures forall k :: Layers(m, l, hidden, position, layers, entering) != Err(MissingDsaSelection(k))
    decreases |m.kinds| - l
  {
    if l < |m.kinds| {
      OneView(m, l, hidden, position, layers[l], entering);
      if Attention(m, l, hidden, position, layers[l], entering).Ok? {
        var (attended, grown, selection) := Attention(m, l, hidden, position, layers[l], entering).value;
        AttentionGrows(m, l, hidden, position, layers[l], entering);
        if m.feedForward(l, attended).Ok? {
          ViewsAreProper(m, l + 1, m.feedForward(l, attended).value, position, before, layers[l := grown], selection);
        }
      }
    }
  }

  lemma {:induction false} ProperViewsAt(m: GlmModel, l: nat, position: nat, previous: Selection, views: seq<View>,
      i: nat)
    requires l + |views| <= |m.kinds| && i < |views| && ProperViews(m, l, position, previous, views)
    ensures ProperView(m, l + i, position, if i == 0 then previous else views[i - 1].selection, views[i])
    ensures ReadsSelected(views[i].cache, views[i].selection, position, views[i].rows)
    ensures ProperCount(m, position, views[i].selection)
    decreases i
  {
    if i > 0 {
      ProperViewsAt(m, l + 1, position, views[0].selection, views[1..], i - 1);
      assert l + i == l + 1 + (i - 1);
    }
  }

  /** The full layer at or before l. */
  function NearestFull(kinds: seq<IndexerKind>, l: nat): nat
    requires l < |kinds|
  {
    if l == 0 || kinds[l].Full? then l else NearestFull(kinds, l - 1)
  }

  /** What layer i attends to: the right number of positions, and exactly the cached rows of those; its
      own best topk if it is full; and the set of the nearest full layer at or before it. */
  ghost predicate Selects(m: GlmModel, position: nat, views: seq<View>, i: nat)
    requires i < |views| <= |m.kinds|
  {
    var full := NearestFull(m.kinds, i);
    && ProperCount(m, position, views[i].selection)
    && ReadsSelected(views[i].cache, views[i].selection, position, views[i].rows)
    && full <= i && m.kinds[full].Full? && views[i].selection == views[full].selection
    && (m.kinds[i].Full? ==> ProperView(m, i, position, None, views[i]))
  }

  lemma {:induction false} SharedFollowsFull(m: GlmModel, position: nat, entering: Selection, views: seq<View>, i: nat)
    requires m.Valid() && m.kinds[0].Full? && i < |views| <= |m.kinds|
    requires ProperViews(m, 0, position, entering, views)
    ensures NearestFull(m.kinds, i) <= i && m.kinds[NearestFull(m.kinds, i)].Full?
    ensures views[i].selection == views[NearestFull(m.kinds, i)].selection
  {
    if i > 0 && m.kinds[i].Shared? {
      ProperViewsAt(m, 0, position, entering, views, i);
      SharedFollowsFull(m, position, entering, views, i - 1);
    }
  }

  lemma ViewSelects(m: GlmModel, position: nat, entering: Selection, views: seq<View>, i: nat)
    requires m.Valid() && m.kinds[0].Full? && i < |views| <= |m.kinds|
    requires ProperViews(m, 0, position, entering, views)
    ensures Selects(m, position, views, i)
  {
    hide ProperViews;
    ProperViewsAt(m, 0, position, entering, views, i);
    SharedFollowsFull(m, position, entering, views, i);
  }

  /** With the sidecar present and layer 0 full, no run meets a missing selection; every layer
      attends to the right number of positions, reading exactly their rows; a full layer's set is its best topk;
        a shared
      layer uses the set of the nearest preceding full layer. */
  lemma DsaSelection(m: GlmModel, tokens: seq<Token>, token: Token)
    requires m.Valid() && m.dsaEnabled && m.kinds[0].Full?
    requires Replay(m, tokens).Ok?
    ensures forall k :: Forward(m, Replay(m, tokens).value, token) != Err(MissingDsaSelection(k))
    ensures m.embed(token).Ok? ==>
      var state, position := Replay(m, tokens).value, |tokens|;
      |state.layers| == |m.kinds| &&
      var views := Views(m, 0, m.embed(token).value, position, state.layers, state.selection);
      forall i: nat | i < |views| :: Selects(m, position, views, i)
  {
    hide Replay, Views, Layers, ProperViews, Selects;
    ReplayShape(m, tokens);
    var state, position := Replay(m, tokens).value, |tokens|;
    hide Shape, Growing;
    if m.embed(token).Ok? {
      var hidden := m.embed(token).value;
      ViewsAreProper(m, 0, hidden, position, state.layers, state.layers, state.selection);
      var views := Views(m, 0, hidden, position, state.layers, state.selection);
      forall i: nat | i < |views| ensures Selects(m, position, views, i) {
        ViewSelects(m, position, state.selection, views, i);
      }
    }
  }

  // ---------- Without the sidecar ----------

  /** The layer selects nothing and reads every row so far. */
  ghost predicate ReadsEverything(position: nat, view: View) {
    view.selection.None? && ReadsSelected(view.cache, None, position, view.rows)
  }

  ghost predicate AllReadEverything(position: nat, views: seq<View>) {
    forall i: nat | i < |views| :: ReadsEverything(position, views[i])
  }

  lemma OneReadsEverything(m: GlmModel, l: nat, hidden: Vector, position: nat, cache: LayerCache)
    requires l < |m.kinds| && !m.dsaEnabled && LayerShape(m, l, cache, position)
    ensures AppendRows(m, l, hidden, position, cache, None) != Err(MissingDsaSelection(l))
    ensures AppendRows(m, l, hidden, position, cache, None).Ok? ==>
      var (grown, selection) := AppendRows(m, l, hidden, position, cache, None).value;
      grown.indexKeys == []
        && ReadsEverything(position, View(hidden, grown, selection, Rows(grown, Positions(selection, position))))
  {
    if AppendRows(m, l, hidden, position, cache, None).Ok? {
      var (grown, selection) := AppendRows(m, l, hidden, position, cache, None).value;
      AppendedFits(m, l, hidden, position, cache, None);
      RowsAreSelected(m, l, grown, selection, position);
    }
  }

  lemma SelectsNothing(m: GlmModel, l: nat, hidden: Vector, position: nat, cache: LayerCache)
    requires l < |m.kinds| && !m.dsaEnabled && Attention(m, l, hidden, position, cache, None).Ok?
    ensures Attention(m, l, hidden, position, cache, None).value.2.None?
  {
  }

  lemma AllReadCons(position: nat, first: View, rest: seq<View>)
    requires ReadsEverything(position, first) && AllReadEverything(position, rest)
    ensures AllReadEverything(position, [first] + rest)
  {
  }

  lemma {:induction false} LayersReadEverything(m: GlmModel, l: nat, hidden: Vector, position: nat,
      before: seq<LayerCache>, layers: seq<LayerCache>)
    requires !m.dsaEnabled && l <= |m.kinds| && Growing(m, l, before, layers, position)
    ensures AllReadEverything(position, Views(m, l, hidden, position, layers, None))
    ensures forall k :: Layers(m, l, hidden, position, layers, None) != Err(MissingDsaSelection(k))
    ensures Layers(m, l, hidden, position, layers, None).Ok? ==>
      Layers(m, l, hidden, position, layers, None).value.2.None?
    decreases |m.kinds| - l
  {
    hide ReadsEverything;
    if l < |m.kinds| {
      OneReadsEverything(m, l, hidden, position, layers[l]);
      if Attention(m, l, hidden, position, layers[l], None).Ok? {
        var (attended, grown, selection) := Attention(m, l, hidden, position, layers[l], None).value;
        AttentionGrows(m, l, hidden, position, layers[l], None);
        assert selection.None? by { SelectsNothing(m, l, hidden, position, layers[l]); }
        if m.feedForward(l, attended).Ok? {
          var next := m.feedForward(l, attended).value;
          LayersReadEverything(m, l + 1, next, position, before, layers[l := grown]);
          AllReadCons(position, View(hidden, grown, selection, Rows(grown, Positions(selection, position))),
                      Views(m, l + 1, next, position, layers[l := grown], None));
        }
      }
    }
  }

  /** A snapshot without the sidecar never selects: over every run each layer attends to every row, and no
      selection is ever missing. */
  lemma {:induction false} WithoutSidecar(m: GlmModel, tokens: seq<Token>, token: Token)
    requires m.Valid() && !m.dsaEnabled && Replay(m, tokens).Ok?
    ensures forall k :: Forward(m, Replay(m, tokens).value, token) != Err(MissingDsaSelection(k))
    ensures Replay(m, tokens).value.selection.None?
    ensures m.embed(token).Ok? ==>
      var state, position := Replay(m, tokens).value, |tokens|;
      |state.layers| == |m.kinds|
      && AllReadEverything(position, Views(m, 0, m.embed(token).value, position, state.layers, None))
    decreases |tokens|
  {
    hide Views, Layers, AllReadEverything;
    ReplayShape(m, tokens);
    if tokens != [] {
      var shorter, last := tokens[..|tokens| - 1], tokens[|tokens| - 1];
      WithoutSidecar(m, shorter, last);
      ReplayShape(m, shorter);
      var before := Replay(m, shorter).value;
      LayersReadEverything(m, 0, m.embed(last).value, |shorter|, before.layers, before.layers);
    }
    if m.embed(token).Ok? {
      var state := Replay(m, tokens).value;
      LayersReadEverything(m, 0, m.embed(token).value, |tokens|, state.layers, state.layers);
    }
  }

  // ---------- The condition on layer 0 is necessary ----------

  lemma {:induction false} NoSelectionBelowTopk(m: GlmModel, l: nat, hidden: Vector, position: nat,
      layers: seq<LayerCache>)
    requires |layers| == |m.kinds| && position < m.topk
    requires Layers(m, l, hidden, position, layers, None).Ok?
    ensures Layers(m, l, hidden, position, layers, None).value.2.None?
    decreases |m.kinds| - l
  {
    if l < |m.kinds| {
      var (attended, grown, selection) := Attention(m, l, hidden, position, layers[l], None).value;
      NoSelectionBelowTopk(m, l + 1, m.feedForward(l, attended).value, position, layers[l := grown]);
    }
  }

  lemma {:induction false} EarlyStatesHaveNoSelection(m: GlmModel, tokens: seq<Token>)
    requires m.Valid() && Replay(m, tokens).Ok? && |tokens| <= m.topk
    ensures Replay(m, tokens).value.selection.None?
    decreases |tokens|
  {
    if tokens != [] {
      var shorter, token := tokens[..|tokens| - 1], tokens[|tokens| - 1];
      EarlyStatesHaveNoSelection(m, shorter);
      ReplayShape(m, shorter);
      var before := Replay(m, shorter).value;
      assert LayerShape(m, 0, before.layers[0], |shorter|);
      NoSelectionBelowTopk(m, 0, m.embed(token).value, |shorter|, before.layers);
    }
  }

  /** With the sidecar present and layer 0 shared, no session ever holds more than topk tokens. */
  lemma {:induction false} SharedFirstLayerStopsAtTopk(m: GlmModel, tokens: seq<Token>)
    requires m.Valid() && m.dsaEnabled && m.kinds[0].Shared? && |tokens| > m.topk
    ensures Replay(m, tokens).Err?
    decreases |tokens|
  {
    var shorter, token := tokens[..|tokens| - 1], tokens[|tokens| - 1];
    if |shorter| > m.topk {
      SharedFirstLayerStopsAtTopk(m, shorter);
    } else if Replay(m, shorter).Ok? {
      EarlyStatesHaveNoSelection(m, shorter);
      ReplayShape(m, shorter);
      var before := Replay(m, shorter).value;
      assert LayerShape(m, 0, before.layers[0], |shorter|);
    }
  }
}
