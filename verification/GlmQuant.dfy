/** Detection of GLM's integer matrix layouts: strict resolution from a logical shape, inference
 *  from the column count alone, and the Metal backend's own classifier.
 */
module GlmQuant {
  import opened Wrappers
  import opened FlatRows

  const WORD := 0x1_0000_0000_0000_0000

  /** 64-bit multiplication that reports overflow. */
  function CheckedMul(a: nat, b: nat): Option<nat> {
    if a * b < WORD then Some(a * b) else None
  }

  function DivCeil(a: nat, b: nat): nat
    requires b > 0
  {
    (a + b - 1) / b
  }

  const GROUP_SIZES: seq<nat> := [16, 32, 48, 64, 96, 128, 192, 256]

  datatype Layout = Int8Row | Int4Grouped(groupSize: nat)

  /** The first group size from index i on whose scale count fits. */
  function FirstGroup(rows: nat, columns: nat, scaleCount: nat, i: nat): (r: Option<nat>)
    requires i <= |GROUP_SIZES|
    ensures r.Some? ==> r.value in GROUP_SIZES && rows * DivCeil(columns, r.value) == scaleCount
    decreases |GROUP_SIZES| - i
  {
    if i == |GROUP_SIZES| then None
    else if CheckedMul(rows, DivCeil(columns, GROUP_SIZES[i])) == Some(scaleCount) then Some(GROUP_SIZES[i])
    else FirstGroup(rows, columns, scaleCount, i + 1)
  }

  function Matching(byteLen: nat, rows: nat, columns: nat, scaleCount: nat): (r: seq<Layout>)
    ensures |r| <= 2
  {
    (if CheckedMul(rows, columns) == Some(byteLen) && scaleCount == rows then [Int8Row] else [])
    + (if CheckedMul(rows, DivCeil(columns, 2)) == Some(byteLen) then
         match FirstGroup(rows, columns, scaleCount, 0)
         case Some(g) => [Int4Grouped(g)]
         case None => []
       else [])
  }

  /** Strict resolution: the first layout that fits the declared shape. */
  function Resolve(byteLen: nat, rows: nat, columns: nat, scaleCount: nat): Option<Layout> {
    var matches := Matching(byteLen, rows, columns, scaleCount);
    if matches == [] then None else Some(matches[0])
  }

  function Pairs(rows: nat, layouts: seq<Layout>): (r: seq<(nat, Layout)>)
    ensures |r| == |layouts|
  {
    seq(|layouts|, i requires 0 <= i < |layouts| => (rows, layouts[i]))
  }

  /** Appends the pairs that are not listed yet. */
  function AddNew(known: seq<(nat, Layout)>, more: seq<(nat, Layout)>): (r: seq<(nat, Layout)>)
    ensures forall p :: p in r <==> p in known || p in more
    ensures known <= r
    decreases |more|
  {
    if more == [] then known
    else AddNew(if more[0] in known then known else known + [more[0]], more[1..])
  }

  /** Every (rows, layout) consistent with the column count. */
  function Candidates(byteLen: nat, scaleCount: nat, columns: nat): seq<(nat, Layout)> {
    if columns == 0 then []
    else
      var wide := if byteLen % columns == 0
                  then Pairs(byteLen / columns, Matching(byteLen, byteLen / columns, columns, scaleCount)) else [];
      var packed := DivCeil(columns, 2);
      if byteLen % packed == 0
      then AddNew(wide, Pairs(byteLen / packed, Matching(byteLen, byteLen / packed, columns, scaleCount))) else wide
  }

  /** Inference accepts only an unambiguous geometry. */
  function Infer(byteLen: nat, scaleCount: nat, columns: nat): Option<(nat, Layout)> {
    var candidates := Candidates(byteLen, scaleCount, columns);
    if |candidates| == 1 then Some(candidates[0]) else None
  }

  lemma ExactQuotient(rows: nat, width: nat, total: nat)
    requires width > 0 && rows * width == total
    ensures total % width == 0 && total / width == rows
  {
    RowCount(rows, width);
    assert total == width * (total / width) + total % width;
  }

  lemma {:induction false} PairsMembers(rows: nat, layouts: seq<Layout>, pair: (nat, Layout))
    ensures pair in Pairs(rows, layouts) <==> pair.0 == rows && pair.1 in layouts
  {
    if pair.0 == rows && pair.1 in layouts {
      var i :| 0 <= i < |layouts| && layouts[i] == pair.1;
      assert Pairs(rows, layouts)[i] == pair;
    }
  }

  /** The two row counts inference considers. */
  predicate Considered(byteLen: nat, columns: nat, rows: nat)
    requires columns > 0
  {
    (byteLen % columns == 0 && byteLen / columns == rows)
    || (byteLen % DivCeil(columns, 2) == 0 && byteLen / DivCeil(columns, 2) == rows)
  }

  lemma MatchFixesRows(byteLen: nat, rows: nat, columns: nat, scaleCount: nat)
    requires columns > 0 && Matching(byteLen, rows, columns, scaleCount) != []
    ensures Considered(byteLen, columns, rows)
  {
    if rows * columns == byteLen {
      ExactQuotient(rows, columns, byteLen);
    } else {
      ExactQuotient(rows, DivCeil(columns, 2), byteLen);
    }
  }

  lemma CandidatesMembers(byteLen: nat, scaleCount: nat, columns: nat, rows: nat, layout: Layout)
    requires columns > 0
    ensures (rows, layout) in Candidates(byteLen, scaleCount, columns)
      <==> Considered(byteLen, columns, rows) && layout in Matching(byteLen, rows, columns, scaleCount)
  {
    hide Matching, Pairs;
    var packed := DivCeil(columns, 2);
    var wideMatches := Matching(byteLen, byteLen / columns, columns, scaleCount);
    var packedMatches := Matching(byteLen, byteLen / packed, columns, scaleCount);
    PairsMembers(byteLen / columns, wideMatches, (rows, layout));
    PairsMembers(byteLen / packed, packedMatches, (rows, layout));
    var wide := if byteLen % columns == 0 then Pairs(byteLen / columns, wideMatches) else [];
    var all := if byteLen % packed == 0 then AddNew(wide, Pairs(byteLen / packed, packedMatches)) else wide;
    assert Candidates(byteLen, scaleCount, columns) == all;
  }

  /** Candidates are exactly the shapes some layout matches. */
  lemma CandidatesAreMatches(byteLen: nat, scaleCount: nat, columns: nat, rows: nat, layout: Layout)
    requires columns > 0
    ensures (rows, layout) in Candidates(byteLen, scaleCount, columns)
      <==> layout in Matching(byteLen, rows, columns, scaleCount)
  {
    CandidatesMembers(byteLen, scaleCount, columns, rows, layout);
    if Matching(byteLen, rows, columns, scaleCount) != [] {
      MatchFixesRows(byteLen, rows, columns, scaleCount);
    }
  }

  /** When inference succeeds, strict resolution accepts its shape with its layout, and no other shape. */
  lemma InferredIsTheOnlyResolution(byteLen: nat, scaleCount: nat, columns: nat, rows: nat)
    requires Infer(byteLen, scaleCount, columns).Some?
    ensures var (inferred, layout) := Infer(byteLen, scaleCount, columns).value;
      Resolve(byteLen, rows, columns, scaleCount) == if rows == inferred then Some(layout) else None
  {
    var (inferred, layout) := Infer(byteLen, scaleCount, columns).value;
    var candidates := Candidates(byteLen, scaleCount, columns);
    assert candidates == [(inferred, layout)];
    CandidatesAreMatches(byteLen, scaleCount, columns, inferred, layout);
    var matches := Matching(byteLen, rows, columns, scaleCount);
    if matches != [] {
      CandidatesAreMatches(byteLen, scaleCount, columns, rows, matches[0]);
    }
  }

  // ---------- What resolution and inference accept ----------

  /** One scale for every started group of `size` columns of a row. */
  predicate ScaledBy(rows: nat, columns: nat, scaleCount: nat, size: nat)
    requires size > 0
  {
    rows * ((columns + size - 1) / size) == scaleCount
  }

  predicate IsGroupSize(size: nat) { size in {16, 32, 48, 64, 96, 128, 192, 256} }

  /** The sizes and counts a layout stands for: a byte for every element and a scale for every row, or half a
      byte, rounded up in each row, and the smallest group size that explains the scales. */
  ghost predicate Fits(byteLen: nat, rows: nat, columns: nat, scaleCount: nat, layout: Layout) {
    && byteLen < 0x1_0000_0000_0000_0000
    && match layout
       case Int8Row => rows * columns == byteLen && rows == scaleCount
       case Int4Grouped(size) =>
         && rows * ((columns + 1) / 2) == byteLen && scaleCount < 0x1_0000_0000_0000_0000
         && IsGroupSize(size) && ScaledBy(rows, columns, scaleCount, size)
         && forall other: nat | IsGroupSize(other) && ScaledBy(rows, columns, scaleCount, other) :: size <= other
  }

  lemma GroupSizesAscend(i: nat, j: nat)
    requires i < j < |GROUP_SIZES|
    ensures 0 < GROUP_SIZES[i] < GROUP_SIZES[j]
  {
  }

  lemma {:induction false} FirstGroupIs(rows: nat, columns: nat, scaleCount: nat, i: nat)
    requires i <= |GROUP_SIZES| && scaleCount < WORD
    ensures match FirstGroup(rows, columns, scaleCount, i)
      case None => forall k: nat | i <= k < |GROUP_SIZES| :: !ScaledBy(rows, columns, scaleCount, GROUP_SIZES[k])
      case Some(size) =>
        exists k: nat :: i <= k < |GROUP_SIZES| && size == GROUP_SIZES[k] && ScaledBy(rows, columns, scaleCount, size)
          && forall j: nat | i <= j < k :: !ScaledBy(rows, columns, scaleCount, GROUP_SIZES[j])
    decreases |GROUP_SIZES| - i
  {
    if i < |GROUP_SIZES| { FirstGroupIs(rows, columns, scaleCount, i + 1); }
  }

  lemma ListedSizes(size: nat)
    ensures IsGroupSize(size) <==> exists k: nat :: k < |GROUP_SIZES| && GROUP_SIZES[k] == size
  {
    assert GROUP_SIZES[0] == 16 && GROUP_SIZES[1] == 32 && GROUP_SIZES[2] == 48 && GROUP_SIZES[3] == 64;
    assert GROUP_SIZES[4] == 96 && GROUP_SIZES[5] == 128 && GROUP_SIZES[6] == 192 && GROUP_SIZES[7] == 256;
  }

  lemma {:induction false} NoGroupBeyondWord(rows: nat, columns: nat, scaleCount: nat, i: nat)
    requires i <= |GROUP_SIZES| && scaleCount >= WORD
    ensures FirstGroup(rows, columns, scaleCount, i).None?
    decreases |GROUP_SIZES| - i
  {
    if i < |GROUP_SIZES| { NoGroupBeyondWord(rows, columns, scaleCount, i + 1); }
  }

  /** The group size found is the smallest listed one that explains the scales. */
  lemma GroupIsSmallest(rows: nat, columns: nat, scaleCount: nat, size: nat)
    ensures FirstGroup(rows, columns, scaleCount, 0) == Some(size) <==>
      && scaleCount < 0x1_0000_0000_0000_0000
      && IsGroupSize(size) && ScaledBy(rows, columns, scaleCount, size)
      && forall other: nat | IsGroupSize(other) && ScaledBy(rows, columns, scaleCount, other) :: size <= other
  {
    if scaleCount >= WORD {
      NoGroupBeyondWord(rows, columns, scaleCount, 0);
    } else {
      hide ScaledBy, FirstGroup, IsGroupSize;
      FirstGroupIs(rows, columns, scaleCount, 0);
      ListedSizes(size);
      forall other: nat | IsGroupSize(other)
        ensures exists k: nat :: k < |GROUP_SIZES| && GROUP_SIZES[k] == other
      {
        ListedSizes(other);
      }
      forall i: nat, j: nat | i < j < |GROUP_SIZES| { GroupSizesAscend(i, j); }
    }
  }

  /** A layout matches exactly the shapes it fits. */
  lemma MatchesFit(byteLen: nat, rows: nat, columns: nat, scaleCount: nat, layout: Layout)
    ensures layout in Matching(byteLen, rows, columns, scaleCount) <==> Fits(byteLen, rows, columns, scaleCount, layout)
  {
    hide FirstGroup, ScaledBy;
    if layout.Int4Grouped? { GroupIsSmallest(rows, columns, scaleCount, layout.groupSize); }
  }

  /** Strict resolution takes the layout that fits, a byte for every element before half a byte. */
  lemma ResolutionFits(byteLen: nat, rows: nat, columns: nat, scaleCount: nat, layout: Layout)
    ensures Resolve(byteLen, rows, columns, scaleCount) == Some(layout) <==>
      && Fits(byteLen, rows, columns, scaleCount, layout)
      && (layout.Int4Grouped? ==> !Fits(byteLen, rows, columns, scaleCount, Int8Row))
  {
    hide FirstGroup, Fits;
    MatchesFit(byteLen, rows, columns, scaleCount, layout);
    MatchesFit(byteLen, rows, columns, scaleCount, Int8Row);
  }

  ghost predicate Distinct(pairs: seq<(nat, Layout)>) {
    forall i: nat, j: nat | i < j < |pairs| :: pairs[i] != pairs[j]
  }

  lemma NothingDistinct()
    ensures Distinct([])
  {
  }

  lemma {:induction false} AddNewDistinct(known: seq<(nat, Layout)>, more: seq<(nat, Layout)>)
    requires Distinct(known)
    ensures Distinct(AddNew(known, more))
    decreases |more|
  {
    if more != [] { AddNewDistinct(if more[0] in known then known else known + [more[0]], more[1..]); }
  }

  lemma PairsDistinct(byteLen: nat, rows: nat, columns: nat, scaleCount: nat)
    ensures Distinct(Pairs(rows, Matching(byteLen, rows, columns, scaleCount)))
  {
    hide FirstGroup, CheckedMul, DivCeil;
  }

  lemma CandidatesDistinct(byteLen: nat, scaleCount: nat, columns: nat)
    ensures Distinct(Candidates(byteLen, scaleCount, columns))
  {
    hide Distinct, Matching, Pairs, AddNew;
    if columns == 0 {
      NothingDistinct();
    } else {
      var wide := if byteLen % columns == 0
                  then Pairs(byteLen / columns, Matching(byteLen, byteLen / columns, columns, scaleCount)) else [];
      PairsDistinct(byteLen, byteLen / columns, columns, scaleCount);
      NothingDistinct();
      var packed := DivCeil(columns, 2);
      AddNewDistinct(wide, Pairs(byteLen / packed, Matching(byteLen, byteLen / packed, columns, scaleCount)));
    }
  }

  lemma OnlyMember(pairs: seq<(nat, Layout)>, pair: (nat, Layout))
    requires Distinct(pairs)
    ensures pairs == [pair] <==> pair in pairs && forall other <- pairs :: other == pair
  {
    if |pairs| > 1 { assert pairs[0] != pairs[1] && pairs[0] in pairs && pairs[1] in pairs; }
    if |pairs| == 1 { assert pairs[0] in pairs; }
  }

  /** Inference from the column count succeeds exactly when one row count and one layout fit. */
  lemma InferenceFits(byteLen: nat, scaleCount: nat, columns: nat, rows: nat, layout: Layout)
    ensures Infer(byteLen, scaleCount, columns) == Some((rows, layout)) <==>
      && columns > 0 && Fits(byteLen, rows, columns, scaleCount, layout)
      && forall rows': nat, layout' | Fits(byteLen, rows', columns, scaleCount, layout') ::
           rows' == rows && layout' == layout
  {
    hide Matching, Fits, Distinct;
    if columns > 0 {
      hide Candidates;
      var candidates := Candidates(byteLen, scaleCount, columns);
      CandidatesDistinct(byteLen, scaleCount, columns);
      OnlyMember(candidates, (rows, layout));
      forall rows': nat, layout'
        ensures (rows', layout') in candidates <==> Fits(byteLen, rows', columns, scaleCount, layout')
      {
        CandidatesAreMatches(byteLen, scaleCount, columns, rows', layout');
        MatchesFit(byteLen, rows', columns, scaleCount, layout');
      }
      if Infer(byteLen, scaleCount, columns) == Some((rows, layout)) {
        assert candidates == [(rows, layout)];
        forall rows': nat, layout' | Fits(byteLen, rows', columns, scaleCount, layout')
          ensures rows' == rows && layout' == layout
        {
          assert (rows', layout') in candidates;
        }
      }
    }
  }

  // ---------- The Metal classifier ----------

  datatype Encoding = MetalInt8Row | MetalInt4(groupSize: nat, scaleColumns: nat)

  /** The search over group sizes stops at the first one wider than the matrix; `Err` is overflow or no match. */
  function MetalGroup(rows: nat, columns: nat, scaleBytes: nat, i: nat): Option<Encoding>
    requires i <= |GROUP_SIZES|
    decreases |GROUP_SIZES| - i
  {
    if i == |GROUP_SIZES| || GROUP_SIZES[i] > columns then None
    else
      var scaleColumns := DivCeil(columns, GROUP_SIZES[i]);
      if rows * scaleColumns * 4 >= WORD then None
      else if scaleBytes == rows * scaleColumns * 4 then Some(MetalInt4(GROUP_SIZES[i], scaleColumns))
      else MetalGroup(rows, columns, scaleBytes, i + 1)
  }

  function MetalEncoding(rows: nat, columns: nat, encodedBytes: nat, scaleBytes: nat): Option<Encoding> {
    if rows * columns >= WORD || rows * 4 >= WORD then None
    else if encodedBytes == rows * columns && scaleBytes == rows * 4 then Some(MetalInt8Row)
    else if rows * DivCeil(columns, 2) >= WORD || encodedBytes != rows * DivCeil(columns, 2) then None
    else if scaleBytes == rows * 4 then Some(MetalInt4(if columns > 1 then columns else 1, 1))
    else MetalGroup(rows, columns, scaleBytes, 0)
  }

  function ScaleIndex(layout: Layout, columns: nat, row: nat, column: nat): nat
    requires layout.Int4Grouped? ==> layout.groupSize > 0
  {
    match layout
    case Int8Row => row
    case Int4Grouped(g) => row * DivCeil(columns, g) + column / g
  }

  function MetalScaleIndex(encoding: Encoding, row: nat, column: nat): nat
    requires encoding.MetalInt4? ==> encoding.groupSize > 0
  {
    match encoding
    case MetalInt8Row => row
    case MetalInt4(g, scaleColumns) => row * scaleColumns + column / g
  }

  lemma PackedBound(rows: nat, columns: nat)
    ensures rows * columns <= rows * DivCeil(columns, 2) * 2
  {
    MulMonotone(rows, columns, DivCeil(columns, 2) * 2);
    assert rows * (DivCeil(columns, 2) * 2) == rows * DivCeil(columns, 2) * 2;
  }

  lemma ScalesFit(rows: nat, columns: nat, g: nat)
    requires 16 <= g <= columns
    ensures rows * DivCeil(columns, g) * 4 <= rows * DivCeil(columns, 2)
  {
    var groups := DivCeil(columns, g);
    assert groups * 4 <= DivCeil(columns, 2) by {
      assert g * groups <= columns + g - 1;
      MulMonotone(groups, 16, g);
      assert groups * 16 <= columns + g - 1;
    }
    MulMonotone(rows, groups * 4, DivCeil(columns, 2));
    assert rows * (groups * 4) == rows * groups * 4;
  }

  lemma {:induction false} WideGroupMeansOneScale(rows: nat, columns: nat, scaleCount: nat, i: nat)
    requires i < |GROUP_SIZES| && 0 < columns < GROUP_SIZES[i]
    requires FirstGroup(rows, columns, scaleCount, i).Some?
    ensures scaleCount == rows
    decreases |GROUP_SIZES| - i
  {
    assert DivCeil(columns, GROUP_SIZES[i]) == 1;
    if CheckedMul(rows, DivCeil(columns, GROUP_SIZES[i])) != Some(scaleCount) {
      WideGroupMeansOneScale(rows, columns, scaleCount, i + 1);
    }
  }

  /** Past the point where the row count alone would do, both searches find the same group size. */
  lemma {:induction false} GroupsAgree(rows: nat, columns: nat, scaleCount: nat, i: nat)
    requires i <= |GROUP_SIZES| && rows > 0 && scaleCount != rows && columns > 0
    requires rows * DivCeil(columns, 2) < WORD && 4 * scaleCount < WORD
    requires FirstGroup(rows, columns, scaleCount, i).Some?
    ensures var g := FirstGroup(rows, columns, scaleCount, i).value;
      MetalGroup(rows, columns, 4 * scaleCount, i) == Some(MetalInt4(g, DivCeil(columns, g)))
    decreases |GROUP_SIZES| - i
  {
    var g := GROUP_SIZES[i];
    if columns < g {
      WideGroupMeansOneScale(rows, columns, scaleCount, i);
    } else {
      ScalesFit(rows, columns, g);
      if CheckedMul(rows, DivCeil(columns, g)) != Some(scaleCount) {
        GroupsAgree(rows, columns, scaleCount, i + 1);
      }
    }
  }

  predicate FitsInt8(byteLen: nat, rows: nat, columns: nat, scaleCount: nat) {
    rows * columns == byteLen && scaleCount == rows
  }

  lemma ResolveCases(byteLen: nat, rows: nat, columns: nat, scaleCount: nat)
    requires byteLen < WORD && Resolve(byteLen, rows, columns, scaleCount).Some?
    ensures FitsInt8(byteLen, rows, columns, scaleCount) ==>
      Resolve(byteLen, rows, columns, scaleCount) == Some(Int8Row)
    ensures !FitsInt8(byteLen, rows, columns, scaleCount) ==>
      && rows * DivCeil(columns, 2) == byteLen && FirstGroup(rows, columns, scaleCount, 0).Some?
      && Resolve(byteLen, rows, columns, scaleCount)
        == Some(Int4Grouped(FirstGroup(rows, columns, scaleCount, 0).value))
  {
  }

  lemma {:induction false} ScaleCountCoversRows(rows: nat, columns: nat, scaleCount: nat, i: nat)
    requires i <= |GROUP_SIZES| && columns > 0 && FirstGroup(rows, columns, scaleCount, i).Some?
    ensures rows <= scaleCount
    decreases |GROUP_SIZES| - i
  {
    var g := FirstGroup(rows, columns, scaleCount, i).value;
    MulMonotone(rows, 1, DivCeil(columns, g));
  }

  /** The encoding the classifier finds for a shape that resolves to packed nibbles. */
  lemma MetalInt4Cases(byteLen: nat, rows: nat, columns: nat, scaleCount: nat)
    requires byteLen < WORD / 2 && 4 * scaleCount < WORD / 2
    requires !FitsInt8(byteLen, rows, columns, scaleCount)
    requires rows * DivCeil(columns, 2) == byteLen && FirstGroup(rows, columns, scaleCount, 0).Some?
    ensures rows > 0
    ensures MetalEncoding(rows, columns, byteLen, 4 * scaleCount) ==
      if columns == 0 then None
      else if scaleCount == rows then Some(MetalInt4(columns, 1))
      else
        var g := FirstGroup(rows, columns, scaleCount, 0).value;
        Some(MetalInt4(g, DivCeil(columns, g)))
  {
    PackedBound(rows, columns);
    if rows == 0 {
    } else if columns > 0 {
      MulMonotone(rows, 1, DivCeil(columns, 2));
      ScaleCountCoversRows(rows, columns, scaleCount, 0);
      if scaleCount != rows { GroupsAgree(rows, columns, scaleCount, 0); }
    }
  }

  /** For buffers of addressable size, the classifier accepts every shape that resolution accepts,
      except rows of no columns stored without scales. */
  lemma MetalAcceptsWhatResolves(byteLen: nat, rows: nat, columns: nat, scaleCount: nat)
    requires byteLen < WORD / 2 && 4 * scaleCount < WORD / 2
    requires Resolve(byteLen, rows, columns, scaleCount).Some?
    ensures MetalEncoding(rows, columns, byteLen, 4 * scaleCount).None?
      <==> columns == 0 && scaleCount == 0 && rows > 0
  {
    ResolveCases(byteLen, rows, columns, scaleCount);
    if !FitsInt8(byteLen, rows, columns, scaleCount) {
      MetalInt4Cases(byteLen, rows, columns, scaleCount);
    }
  }

  /** The smallest such shape: three rows of nothing. */
  lemma MetalRejectsEmptyRows()
    ensures Resolve(0, 3, 0, 0) == Some(Int4Grouped(16)) && MetalEncoding(3, 0, 0, 0).None?
  {
    assert FirstGroup(3, 0, 0, 0) == Some(16) by { assert GROUP_SIZES[0] == 16 && DivCeil(0, 16) == 0; }
    assert Matching(0, 3, 0, 0) == [Int4Grouped(16)];
    MetalAcceptsWhatResolves(0, 3, 0, 0);
  }

  lemma {:induction false} MetalGroupSizes(rows: nat, columns: nat, scaleBytes: nat, i: nat) returns (k: nat)
    requires i <= |GROUP_SIZES| && MetalGroup(rows, columns, scaleBytes, i).Some?
    ensures i <= k < |GROUP_SIZES| && GROUP_SIZES[k] <= columns
    ensures var scaleColumns := (columns + GROUP_SIZES[k] - 1) / GROUP_SIZES[k];
      && MetalGroup(rows, columns, scaleBytes, i) == Some(MetalInt4(GROUP_SIZES[k], scaleColumns))
      && scaleBytes == rows * scaleColumns * 4 < WORD
    decreases |GROUP_SIZES| - i
  {
    var scaleColumns := DivCeil(columns, GROUP_SIZES[i]);
    if scaleBytes == rows * scaleColumns * 4 { k := i; } else { k := MetalGroupSizes(rows, columns, scaleBytes, i + 1);
      }
  }

  lemma OneGroup(columns: nat)
    requires columns > 0
    ensures (columns + columns - 1) / columns == 1
  {
    assert columns + columns - 1 == columns * 1 + (columns - 1);
    RowCount(1, columns);
  }

  /** What the classifier accepts has the sizes of its encoding, in machine words: a byte or half a byte for
      every element, and four bytes for every group of columns of every row. */
  lemma MetalSizes(rows: nat, columns: nat, encodedBytes: nat, scaleBytes: nat)
    requires MetalEncoding(rows, columns, encodedBytes, scaleBytes).Some?
    ensures encodedBytes < 0x1_0000_0000_0000_0000 && scaleBytes < 0x1_0000_0000_0000_0000
    ensures match MetalEncoding(rows, columns, encodedBytes, scaleBytes).value
      case MetalInt8Row => encodedBytes == rows * columns && scaleBytes == rows * 4
      case MetalInt4(size, scaleColumns) =>
        && encodedBytes == rows * ((columns + 1) / 2) && scaleBytes == rows * scaleColumns * 4
        && 0 < size && (columns > 0 ==> scaleColumns == (columns + size - 1) / size)
        && (if scaleBytes == rows * 4 then scaleColumns == 1 && size == (if columns > 1 then columns else 1)
            else IsGroupSize(size) && size <= columns)
  {
    if MetalGroup(rows, columns, scaleBytes, 0).Some? {
      var k := MetalGroupSizes(rows, columns, scaleBytes, 0);
      ListedSizes(GROUP_SIZES[k]);
    }
    if columns > 0 { OneGroup(columns); }
  }

  /** More than 256 columns make more than one group of every listed size. */
  lemma {:induction false} WideRowsNeedMore(rows: nat, columns: nat, i: nat)
    requires rows > 0 && columns > 256 && i <= |GROUP_SIZES|
    ensures FirstGroup(rows, columns, rows, i).None?
    decreases |GROUP_SIZES| - i
  {
    if i < |GROUP_SIZES| {
      assert GROUP_SIZES[i] <= 256;
      assert DivCeil(columns, GROUP_SIZES[i]) >= 2;
      MulMonotone(rows, 2, DivCeil(columns, GROUP_SIZES[i]));
      WideRowsNeedMore(rows, columns, i + 1);
    }
  }

  lemma {:induction false} ScaledMeansFound(rows: nat, columns: nat, scaleCount: nat, i: nat, k: nat)
    requires i <= k < |GROUP_SIZES| && scaleCount < WORD && rows * DivCeil(columns, GROUP_SIZES[k]) == scaleCount
    ensures FirstGroup(rows, columns, scaleCount, i).Some?
    decreases k - i
  {
    if i < k { ScaledMeansFound(rows, columns, scaleCount, i + 1, k); }
  }

  lemma HalfIsLess(rows: nat, columns: nat)
    requires rows > 0 && columns > 1
    ensures rows * ((columns + 1) / 2) < rows * columns
  {
    MulMonotone(rows, (columns + 1) / 2 + 1, columns);
  }

  /** The other way round: what the classifier accepts resolves, except packed rows of more than 256 columns with
      one scale each. */
  lemma ResolvesWhatMetalAccepts(byteLen: nat, rows: nat, columns: nat, scaleCount: nat)
    requires byteLen < WORD / 2 && 4 * scaleCount < WORD / 2
    requires MetalEncoding(rows, columns, byteLen, 4 * scaleCount).Some?
    ensures Resolve(byteLen, rows, columns, scaleCount).None?
      <==> rows > 0 && columns > 256 && scaleCount == rows && byteLen == rows * ((columns + 1) / 2)
  {
    hide FirstGroup, MetalGroup;
    if FitsInt8(byteLen, rows, columns, scaleCount) {
      if rows > 0 && columns > 256 { HalfIsLess(rows, columns); }
    } else if scaleCount == rows {
      if columns > 256 {
        WideRowsNeedMore(rows, columns, 0);
      } else {
        assert GROUP_SIZES[7] == 256 && DivCeil(columns, 256) == 1;
        ScaledMeansFound(rows, columns, scaleCount, 0, 7);
      }
    } else {
      var k := MetalGroupSizes(rows, columns, 4 * scaleCount, 0);
      ScaledMeansFound(rows, columns, scaleCount, 0, k);
    }
  }

  /** One row of 258 columns in 129 bytes with one scale. */
  lemma MetalAcceptsWideRow()
    ensures MetalEncoding(1, 258, 129, 4) == Some(MetalInt4(258, 1)) && Resolve(129, 1, 258, 1).None?
  {
    assert DivCeil(258, 2) == 129;
    ResolvesWhatMetalAccepts(129, 1, 258, 1);
  }

  lemma OneGroupPerRow(rows: nat, columns: nat, g: nat)
    requires rows > 0 && columns > 0 && g > 0 && rows * DivCeil(columns, g) == rows
    ensures DivCeil(columns, g) == 1
  {
    var groups := DivCeil(columns, g);
    if groups >= 2 { MulMonotone(rows, 2, groups); }
  }

  lemma ColumnGroup(columns: nat, g: nat, column: nat)
    requires g > 0 && column < columns
    ensures column / g < DivCeil(columns, g)
  {
    var groups := DivCeil(columns, g);
    assert g * groups >= columns by {
      assert columns + g - 1 == g * groups + (columns + g - 1) % g;
    }
    if column / g >= groups { MulMonotone(g, groups, column / g); }
  }

  lemma SameGroup(rows: nat, columns: nat, scaleCount: nat, g: nat, row: nat, column: nat)
    requires row < rows && column < columns && g > 0 && rows * DivCeil(columns, g) == scaleCount
    ensures row * DivCeil(columns, g) + column / g < scaleCount
    ensures scaleCount == rows ==> row * DivCeil(columns, g) + column / g == row * 1 + column / columns
  {
    ColumnGroup(columns, g, column);
    RowFits(DivCeil(columns, g), row, rows);
    if scaleCount == rows { OneGroupPerRow(rows, columns, g); }
  }

  /** And whatever it accepts, it reads the same scale for every element. */
  lemma MetalReadsTheSameScales(byteLen: nat, rows: nat, columns: nat, scaleCount: nat, row: nat, column: nat)
    requires byteLen < WORD / 2 && 4 * scaleCount < WORD / 2
    requires Resolve(byteLen, rows, columns, scaleCount).Some? && row < rows && column < columns
    ensures MetalEncoding(rows, columns, byteLen, 4 * scaleCount).Some?
    ensures var layout := Resolve(byteLen, rows, columns, scaleCount).value;
      var encoding := MetalEncoding(rows, columns, byteLen, 4 * scaleCount).value;
      && (layout.Int4Grouped? ==> layout.groupSize > 0) && (encoding.MetalInt4? ==> encoding.groupSize > 0)
      && (layout.Int8Row? <==> encoding.MetalInt8Row?)
      && MetalScaleIndex(encoding, row, column) == ScaleIndex(layout, columns, row, column) < scaleCount
  {
    MetalAcceptsWhatResolves(byteLen, rows, columns, scaleCount);
    ResolveCases(byteLen, rows, columns, scaleCount);
    if FitsInt8(byteLen, rows, columns, scaleCount) {
      PackedBound(rows, columns);
    } else {
      MetalInt4Cases(byteLen, rows, columns, scaleCount);
      SameGroup(rows, columns, scaleCount, FirstGroup(rows, columns, scaleCount, 0).value, row, column);
    }
  }
}
