/** The obstacle layout: the name is spelt out in letter patterns, centred
    horizontally at a fixed height, and then a tenth of its cells are
    removed to leave gaps. */
module Layout {
  import opened Grid
  import opened Letters

  /** Extra horizontal space between two letter slots, in pixels. */
  const LetterSpacing: int := 2 * GridSize

  /** The y coordinate of every glyph's top row. */
  const StartY: int := 5 * GridSize

  /** The step from one slot to the next for advance width w. */
  function Advance(w: int): int {
    w * GridSize + LetterSpacing
  }

  /** Glyph rows lie in [0, GlyphRows). */
  const GlyphRows: int := 4

  /** The width a character contributes to the advance width: the width of
      its entry over both styles, or nothing when it has no entry. */
  function WidthOf(c: char): nat {
    match Lookup(c)
    case None => 0
    case Some(g) =>
      TableWidths(ToUpper(c));
      GlyphWidth(g)
  }

  /** Every offset of a character's entry, in either style, lies within its
      width and within the glyph rows. */
  lemma WidthOfFits(c: char, s: Style)
    requires Lookup(c).Some?
    ensures forall j :: 0 <= j < |Lookup(c).value.Pattern(s)| ==>
              Lookup(c).value.Pattern(s)[j].col < WidthOf(c) && Lookup(c).value.Pattern(s)[j].row < GlyphRows
  {
    TableWidths(ToUpper(c));
    GlyphWidthFits(Lookup(c).value);
  }

  /** Only the entries A, B and J are reachable, and each is three columns
      wide. */
  lemma WidthOfValue(c: char)
    ensures WidthOf(c) == if Lookup(c).Some? then 3 else 0
  {
    if Lookup(c).Some? {
      LowerCaseEntriesUnreachable(c);
      TableWidths(ToUpper(c));
    }
  }

  /** `maxLetterWidth`: the running maximum over the characters of the name
      of the widths of their entries; it starts at 0. */
  function AdvanceWidth(name: string): nat {
    if |name| == 0 then 0
    else
      var rest := AdvanceWidth(name[1..]);
      if WidthOf(name[0]) > rest then WidthOf(name[0]) else rest
  }

  /** The advance width is the largest width of any character of the name,
      and 0 when no character has an entry. */
  lemma {:induction false} AdvanceWidthIsMax(name: string)
    ensures forall k :: 0 <= k < |name| ==> WidthOf(name[k]) <= AdvanceWidth(name)
    ensures AdvanceWidth(name) == 0 || exists k :: 0 <= k < |name| && WidthOf(name[k]) == AdvanceWidth(name)
  {
    if |name| > 0 {
      var rest := name[1..];
      AdvanceWidthIsMax(rest);
      var a := AdvanceWidth(name);
      var r := AdvanceWidth(rest);
      assert a == if WidthOf(name[0]) > r then WidthOf(name[0]) else r;
      forall k | 0 <= k < |name|
        ensures WidthOf(name[k]) <= a
      {
        if k > 0 {
          assert name[k] == rest[k - 1];
        }
      }
      if a != 0 && a != WidthOf(name[0]) {
        var k :| 0 <= k < |rest| && WidthOf(rest[k]) == r;
        assert name[k + 1] == rest[k];
      }
    }
  }

  /** With the table as it stands the advance width is 3 exactly when some
      character of the name has an entry. */
  lemma AdvanceWidthValue(name: string)
    ensures AdvanceWidth(name) == if exists k :: 0 <= k < |name| && Lookup(name[k]).Some? then 3 else 0
  {
    AdvanceWidthIsMax(name);
    forall k | 0 <= k < |name|
      ensures WidthOf(name[k]) == if Lookup(name[k]).Some? then 3 else 0
    {
      WidthOfValue(name[k]);
    }
  }

  /** JavaScript's `length` of the name: characters outside the Basic
      Multilingual Plane count as two UTF-16 code units. */
  function Utf16Length(name: string): (n: nat)
    ensures n >= |name|
    ensures (forall k :: 0 <= k < |name| ==> name[k] as int <= 0xFFFF) ==> n == |name|
  {
    if |name| == 0 then 0
    else
      assert forall k :: 1 <= k < |name| ==> name[k] == name[1..][k - 1];
      (if name[0] as int > 0xFFFF then 2 else 1) + Utf16Length(name[1..])
  }

  /** `totalWidth`: the slots of all characters plus the spacing between
      them. It is -LetterSpacing for the empty name. */
  function TotalWidth(name: string): (t: int)
    // a whole number of cells, and one spacing short of nothing for no name
    ensures t % GridSize == 0
    ensures |name| == 0 ==> t == -LetterSpacing
  {
    BlockWidthCells(Utf16Length(name), AdvanceWidth(name));
    BlockWidth(Utf16Length(name), AdvanceWidth(name))
  }

  /** The width of n slots of w cells each with the spacing between them. */
  function BlockWidth(n: int, w: int): int {
    n * w * GridSize + (n - 1) * LetterSpacing
  }

  /** Every block is a whole number of cells wide. */
  lemma BlockWidthCells(n: int, w: int)
    ensures BlockWidth(n, w) % GridSize == 0
  {
    assert BlockWidth(n, w) == GridSize * (n * w + 2 * (n - 1));
  }

  /** The left edge of a block of width t centred on a canvas of the given
      width. */
  function CentredStart(width: int, t: int): int {
    (width - t) / 2
  }

  /** A block of n slots of w cells on a canvas a whole number of cells
      wide leaves a margin that halves exactly. */
  lemma CentreExact(width: int, n: int, w: int)
    requires width % GridSize == 0
    ensures 2 * CentredStart(width, BlockWidth(n, w)) + BlockWidth(n, w) == width
  {
    var a := width / GridSize;
    var m := n * w + 2 * (n - 1);
    var half := GridSize / 2;
    assert BlockWidth(n, w) == GridSize * m;
    assert width == GridSize * a;
    assert width - BlockWidth(n, w) == 2 * (half * (a - m));
  }

  /** `currentX` before the first slot: the block of width TotalWidth is
      centred on the canvas. */
  function StartX(canvas: Canvas, name: string): (x: int)
    requires canvas.Valid()
    // the division is exact for every name, because both the canvas and the
    // block are whole numbers of cells wide: the two margins are equal
    ensures 2 * x + TotalWidth(name) == canvas.width
  {
    CentreExact(canvas.width, Utf16Length(name), AdvanceWidth(name));
    CentredStart(canvas.width, TotalWidth(name))
  }

  /** `generateLetterObstacles` for an already chosen pattern: one cell per
      offset, scaled by the cell size, in pattern order. */
  function LetterCells(p: seq<Offset>, x: int, y: int): (r: seq<Cell>)
    ensures |r| == |p|
  {
    seq(|p|, j requires 0 <= j < |p| => Cell(x + p[j].col * GridSize, y + p[j].row * GridSize))
  }

  /** One cell per offset, in pattern order, and each offset is recovered
      from its cell: the cell lies a whole number of cells right of and
      below the corner, that number being the offset. */
  lemma LetterCellsOffsets(p: seq<Offset>, x: int, y: int)
    ensures forall j :: 0 <= j < |p| ==>
              var c := LetterCells(p, x, y)[j];
              && (c.x - x) % GridSize == 0 && (c.y - y) % GridSize == 0
              && (c.x - x) / GridSize == p[j].col && (c.y - y) / GridSize == p[j].row
  {
    forall j | 0 <= j < |p|
      ensures var c := LetterCells(p, x, y)[j];
              (c.x - x) / GridSize == p[j].col && (c.y - y) / GridSize == p[j].row
    {
      var c := LetterCells(p, x, y)[j];
      assert c.x - x == p[j].col * GridSize && c.y - y == p[j].row * GridSize;
    }
  }

  /** The pattern drawn for one character: its entry's pattern in the
      chosen style, or nothing when the character has no entry. */
  function PatternFor(c: char, s: Style): Option<seq<Offset>> {
    match Lookup(c)
    case None => None
    case Some(g) => Some(g.Pattern(s))
  }

  /** The pattern drawn for each character of the name. `styles[k]` is the
      style drawn for the k-th character; a character without an entry
      draws no style, and its oracle entry is not used. */
  function ChosenPatterns(name: string, styles: seq<Style>): seq<Option<seq<Offset>>>
    requires |styles| == |name|
  {
    seq(|name|, k requires 0 <= k < |name| => PatternFor(name[k], styles[k]))
  }

  /** The cells one slot at x contributes. */
  function SlotCells(p: Option<seq<Offset>>, x: int): seq<Cell> {
    match p
    case None => []
    case Some(q) => LetterCells(q, x, StartY)
  }

  /** The number of offsets in the filled slots. */
  function PatternTotal(pats: seq<Option<seq<Offset>>>): nat {
    if |pats| == 0 then 0
    else (match pats[0] case None => 0 case Some(q) => |q|) + PatternTotal(pats[1..])
  }

  /** The placing loop of `generateNameObstacles`: every slot, filled or
      empty, moves the next slot on by `adv`. */
  function PlaceCells(pats: seq<Option<seq<Offset>>>, x: int, adv: int): seq<Cell> {
    if |pats| == 0 then []
    else SlotCells(pats[0], x) + PlaceCells(pats[1..], x + adv, adv)
  }

  /** Placing emits one cell per offset of every filled slot, and nothing
      for an empty slot, whatever the position and advance. */
  lemma {:induction false} PlaceCellsCount(pats: seq<Option<seq<Offset>>>, x: int, adv: int)
    ensures |PlaceCells(pats, x, adv)| == PatternTotal(pats)
  {
    if |pats| > 0 {
      PlaceCellsCount(pats[1..], x + adv, adv);
    }
  }

  /** Placing a concatenation places the second part |a| slots further on. */
  lemma {:induction false} PlaceCellsAppend(a: seq<Option<seq<Offset>>>, b: seq<Option<seq<Offset>>>, x: int, adv: int)
    ensures PlaceCells(a + b, x, adv) == PlaceCells(a, x, adv) + PlaceCells(b, x + |a| * adv, adv)
  {
    if |a| == 0 {
      assert a + b == b;
    } else {
      assert (a + b)[0] == a[0];
      assert (a + b)[1..] == a[1..] + b;
      PlaceCellsAppend(a[1..], b, x + adv, adv);
      SlotsStep(|a|, |a[1..]|, adv);
    }
  }

  /** The k-th slot's cells sit at x + k * adv, between the cells of the
      slots before it and those after it. */
  lemma PlaceCellsSlot(pats: seq<Option<seq<Offset>>>, x: int, adv: int, k: nat)
    requires k < |pats|
    ensures PlaceCells(pats, x, adv)
            == PlaceCells(pats[..k], x, adv)
               + (SlotCells(pats[k], x + k * adv)
                  + PlaceCells(pats[k + 1..], x + (k + 1) * adv, adv))
  {
    var y := x + k * adv;
    assert y + adv == x + (k + 1) * adv;
    PlaceCellsSplit(pats, x, adv, k);
    PlaceCellsFirst(pats[k..], y, adv);
    assert pats[k..][0] == pats[k] && pats[k..][1..] == pats[k + 1..];
  }

  /** Placing the first k slots, then the rest k advances further on. */
  lemma PlaceCellsSplit(pats: seq<Option<seq<Offset>>>, x: int, adv: int, k: nat)
    requires k <= |pats|
    ensures PlaceCells(pats, x, adv) == PlaceCells(pats[..k], x, adv) + PlaceCells(pats[k..], x + k * adv, adv)
  {
    assert pats[..k] + pats[k..] == pats;
    PlaceCellsAppend(pats[..k], pats[k..], x, adv);
  }

  /** Placing a non-empty list: the first slot, then the rest one advance
      further on. */
  lemma PlaceCellsFirst(pats: seq<Option<seq<Offset>>>, x: int, adv: int)
    requires |pats| > 0
    ensures PlaceCells(pats, x, adv) == SlotCells(pats[0], x) + PlaceCells(pats[1..], x + adv, adv)
  {
  }

  /** Every offset of every filled slot is inside a box of w columns and
      GlyphRows rows. */
  predicate FitBox(pats: seq<Option<seq<Offset>>>, w: nat) {
    forall k, j :: 0 <= k < |pats| && pats[k].Some? && 0 <= j < |pats[k].value| ==>
      pats[k].value[j].col < w && pats[k].value[j].row < GlyphRows
  }

  /** A slot's cells lie within the slot: w columns wide from x, and
      GlyphRows rows tall from StartY. */
  lemma SlotCellsBounds(p: Option<seq<Offset>>, x: int, w: nat)
    requires FitBox([p], w)
    ensures forall cell :: cell in SlotCells(p, x) ==>
              && x <= cell.x && cell.x + GridSize <= x + w * GridSize
              && StartY <= cell.y && cell.y + GridSize <= StartY + GlyphRows * GridSize
  {
    match p
    case None =>
    case Some(q) =>
      forall cell | cell in SlotCells(p, x)
        ensures x <= cell.x && cell.x + GridSize <= x + w * GridSize
        ensures StartY <= cell.y && cell.y + GridSize <= StartY + GlyphRows * GridSize
      {
        var j :| 0 <= j < |q| && LetterCells(q, x, StartY)[j] == cell;
        assert [p][0] == p;
        assert q[j].col < w && q[j].row < GlyphRows;
        assert q[j].col * GridSize + GridSize <= w * GridSize;
      }
  }

  /** Every placed cell lies in the block spanned by the slots: from x to
      the right edge of the last slot, and within the glyph rows. */
  lemma {:induction false} PlaceCellsBounds(pats: seq<Option<seq<Offset>>>, x: int, w: nat)
    requires FitBox(pats, w)
    ensures forall cell :: cell in PlaceCells(pats, x, Advance(w)) ==>
              && x <= cell.x
              && cell.x + GridSize <= x + |pats| * Advance(w) - LetterSpacing
              && StartY <= cell.y && cell.y + GridSize <= StartY + GlyphRows * GridSize
  {
    var adv := Advance(w);
    if |pats| > 0 {
      var n := |pats|;
      assert forall k :: 1 <= k < n ==> pats[k] == pats[1..][k - 1];
      assert [pats[0]][0] == pats[0];
      SlotCellsBounds(pats[0], x, w);
      PlaceCellsBounds(pats[1..], x + adv, w);
      SlotsStep(n, |pats[1..]|, adv);
      var here := SlotCells(pats[0], x);
      var rest := PlaceCells(pats[1..], x + adv, adv);
      assert PlaceCells(pats, x, adv) == here + rest;
      forall cell: Cell | cell in here + rest
        ensures x <= cell.x && cell.x + GridSize <= x + n * adv - LetterSpacing
      {
        if cell in here {
          assert cell.x + GridSize <= x + adv - LetterSpacing;
        } else {
          assert cell in rest;
          assert cell.x + GridSize <= x + adv + |pats[1..]| * adv - LetterSpacing;
        }
      }
    }
  }

  /** Splitting off the first of n slots. */
  lemma SlotsStep(n: nat, m: nat, adv: int)
    requires n >= 1 && m == n - 1
    ensures m * adv == n * adv - adv && (adv >= 0 ==> adv <= n * adv)
  {
  }

  /** The patterns drawn for a name fit the box of its advance width. */
  lemma ChosenPatternsFit(name: string, styles: seq<Style>)
    requires |styles| == |name|
    ensures FitBox(ChosenPatterns(name, styles), AdvanceWidth(name))
  {
    var pats := ChosenPatterns(name, styles);
    AdvanceWidthIsMax(name);
    forall k, j | 0 <= k < |pats| && pats[k].Some? && 0 <= j < |pats[k].value|
      ensures pats[k].value[j].col < AdvanceWidth(name) && pats[k].value[j].row < GlyphRows
    {
      WidthOfFits(name[k], styles[k]);
    }
  }

  /** n slots span no more than the total width of a name whose length in
      code units is at least n. */
  lemma SlotsWithinTotal(n: nat, len: nat, w: nat)
    requires n <= len
    ensures n * Advance(w) - LetterSpacing
            <= len * w * GridSize + (len - 1) * LetterSpacing
  {
    var adv := Advance(w);
    assert n * adv <= len * adv;
    assert len * adv == len * w * GridSize + len * LetterSpacing;
  }

  /** The cells of `generateNameObstacles` before any gap is removed. */
  function PlacedCells(canvas: Canvas, name: string, styles: seq<Style>): seq<Cell>
    requires canvas.Valid() && |styles| == |name|
  {
    PlaceCells(ChosenPatterns(name, styles), StartX(canvas, name), Advance(AdvanceWidth(name)))
  }

  /** `Math.floor(count * 0.1)`. The double 0.1 lies slightly above 1/10,
      so the product never rounds below the integer n / 10. */
  function GapCount(n: nat): nat {
    n / 10
  }

  /** Removal indices as `Math.random` draws them: the i-th removal picks
      an index of the list that i earlier removals have shortened. */
  predicate ValidRemovals(n: nat, idxs: seq<nat>) {
    forall i :: 0 <= i < |idxs| ==> idxs[i] < n - i
  }

  /** The gap loop: each index in turn is spliced out of the current list. */
  function RemoveGaps(cells: seq<Cell>, idxs: seq<nat>): (r: seq<Cell>)
    requires ValidRemovals(|cells|, idxs)
    ensures |r| == |cells| - |idxs|
    ensures multiset(r) <= multiset(cells)
    decreases |idxs|
  {
    if |idxs| == 0 then cells
    else
      var i := idxs[0];
      assert cells == cells[..i] + [cells[i]] + cells[i + 1..];
      RemoveGaps(cells[..i] + cells[i + 1..], idxs[1..])
  }

  /** The oracle supplies exactly one valid index per gap. */
  predicate RemovalsFit(canvas: Canvas, name: string, styles: seq<Style>, removals: seq<nat>)
    requires canvas.Valid() && |styles| == |name|
  {
    var n := |PlacedCells(canvas, name, styles)|;
    |removals| == GapCount(n) && ValidRemovals(n, removals)
  }

  /** The cell lies in the centred block: it keeps the left margin from
      both edges of the canvas, and lies within the glyph rows. */
  predicate InCentredBlock(canvas: Canvas, name: string, c: Cell)
    requires canvas.Valid()
  {
    && StartX(canvas, name) <= c.x && c.x + GridSize <= canvas.width - StartX(canvas, name)
    && StartY <= c.y && c.y + GridSize <= StartY + GlyphRows * GridSize
  }

  /** Slots of any patterns fitting the box lie inside a block of total
      width len * w cells plus spacing, with margin x on both sides. */
  lemma PlaceCellsCentred(pats: seq<Option<seq<Offset>>>, x: int, w: nat, len: nat, width: int)
    requires FitBox(pats, w) && |pats| <= len
    requires 2 * x + BlockWidth(len, w) == width
    ensures forall c :: c in PlaceCells(pats, x, Advance(w)) ==>
              && x <= c.x && c.x + GridSize <= width - x
              && StartY <= c.y && c.y + GridSize <= StartY + GlyphRows * GridSize
  {
    PlaceCellsBounds(pats, x, w);
    SlotsWithinTotal(|pats|, len, w);
  }

  /** Every placed cell lies in the centred block. */
  lemma PlacedCellsCentred(canvas: Canvas, name: string, styles: seq<Style>)
    requires canvas.Valid() && |styles| == |name|
    ensures forall c :: c in PlacedCells(canvas, name, styles) ==> InCentredBlock(canvas, name, c)
  {
    var pats := ChosenPatterns(name, styles);
    var w := AdvanceWidth(name);
    var len := Utf16Length(name);
    var x := StartX(canvas, name);
    ChosenPatternsFit(name, styles);
    PlaceCellsCentred(pats, x, w, len, canvas.width);
  }

  /** `generateNameObstacles`, with the style draws and the removal draws
      supplied as oracles. */
  function GenerateNameObstacles(canvas: Canvas, name: string, styles: seq<Style>, removals: seq<nat>): (r: seq<Cell>)
    requires canvas.Valid()
    requires |styles| == |name|
    requires RemovalsFit(canvas, name, styles, removals)
    ensures |name| == 0 ==> r == []
    ensures var n := |PlacedCells(canvas, name, styles)|; |r| == n - n / 10
    ensures multiset(r) <= multiset(PlacedCells(canvas, name, styles))
    ensures forall c :: c in r ==> InCentredBlock(canvas, name, c)
  {
    var placed := PlacedCells(canvas, name, styles);
    PlacedCellsCentred(canvas, name, styles);
    var r := RemoveGaps(placed, removals);
    assert forall c :: c in r ==> c in multiset(placed);
    r
  }

  /** Every placed cell shares the first slot's offset from the grid when
      the advance is a whole number of cells: its x is congruent to x and
      its y to StartY modulo the cell size. */
  lemma {:induction false} PlaceCellsPhase(pats: seq<Option<seq<Offset>>>, x: int, adv: int)
    requires adv % GridSize == 0
    ensures forall c :: c in PlaceCells(pats, x, adv) ==> c.x % GridSize == x % GridSize && c.y % GridSize == 0
  {
    if |pats| > 0 {
      PlaceCellsPhase(pats[1..], x + adv, adv);
      assert (x + adv) % GridSize == x % GridSize;
      match pats[0]
      case None =>
      case Some(q) =>
        forall c | c in SlotCells(pats[0], x)
          ensures c.x % GridSize == x % GridSize && c.y % GridSize == 0
        {
          var j :| 0 <= j < |q| && LetterCells(q, x, StartY)[j] == c;
          assert c.x == x + q[j].col * GridSize;
        }
    }
  }

  /** The advance between slots is a whole number of cells. */
  lemma AdvanceAligned(w: nat)
    ensures Advance(w) % GridSize == 0
  {
  }

  /** A sub-multiset keeps any property every element of the whole has;
      here, the offset from the grid. */
  lemma SubMultisetPhase(r: seq<Cell>, cells: seq<Cell>, x: int)
    requires multiset(r) <= multiset(cells)
    requires forall c :: c in cells ==> c.x % GridSize == x % GridSize && c.y % GridSize == 0
    ensures forall c :: c in r ==> c.x % GridSize == x % GridSize && c.y % GridSize == 0
  {
    assert forall c :: c in r ==> c in multiset(cells);
  }

  /** The obstacles are on the grid lines exactly when the start x is: all
      of them sit the same distance right of a grid line, and every one is
      on a grid row. */
  lemma NameObstaclesPhase(canvas: Canvas, name: string, styles: seq<Style>, removals: seq<nat>)
    requires canvas.Valid() && |styles| == |name|
    requires RemovalsFit(canvas, name, styles, removals)
    ensures forall c :: c in GenerateNameObstacles(canvas, name, styles, removals) ==>
              c.x % GridSize == StartX(canvas, name) % GridSize && c.y % GridSize == 0
  {
    var x := StartX(canvas, name);
    AdvanceAligned(AdvanceWidth(name));
    PlaceCellsPhase(ChosenPatterns(name, styles), x, Advance(AdvanceWidth(name)));
    SubMultisetPhase(GenerateNameObstacles(canvas, name, styles, removals), PlacedCells(canvas, name, styles), x);
  }

  /** The start x of a name of `len` code units and advance width `w`. */
  lemma StartXIs(canvas: Canvas, name: string, len: nat, w: nat, x: int)
    requires canvas.Valid()
    requires Utf16Length(name) == len && AdvanceWidth(name) == w
    requires 2 * x + BlockWidth(len, w) == canvas.width
    ensures StartX(canvas, name) == x
  {
  }

  /** The placed cells, once the patterns and the advance width are
      known. */
  lemma PlacedCellsAre(canvas: Canvas, name: string, styles: seq<Style>, pats: seq<Option<seq<Offset>>>, w: nat)
    requires canvas.Valid() && |styles| == |name|
    requires ChosenPatterns(name, styles) == pats && AdvanceWidth(name) == w
    ensures PlacedCells(canvas, name, styles) == PlaceCells(pats, StartX(canvas, name), Advance(w))
  {
  }

  /** A single filled slot places exactly its letter's cells. */
  lemma PlaceOneSlot(p: seq<Offset>, x: int, adv: int)
    ensures PlaceCells([Some(p)], x, adv) == LetterCells(p, x, StartY)
  {
    assert [Some(p)][1..] == [];
  }
}
