/** The letter-pattern table: for each key, two layouts ("standard" and
    "bold") of small (column, row) offsets inside a glyph box. */
module Letters {
  import opened Grid

  /** A glyph cell, in grid units from the glyph's top-left corner. */
  datatype Offset = Offset(col: nat, row: nat)

  /** The table's style names, in the order `Object.keys` lists them. */
  datatype Style = Standard | Bold

  /** The two layouts of one table entry. */
  datatype Glyph = Glyph(standard: seq<Offset>, bold: seq<Offset>) {
    function Pattern(s: Style): seq<Offset> {
      match s
      case Standard => standard
      case Bold => bold
    }
  }

  /** The entries of `LETTER_PATTERNS`, one constant per key. */
  const GlyphA: Glyph := Glyph(
    [Offset(1,0),
     Offset(0,1), Offset(2,1),
     Offset(0,2), Offset(1,2), Offset(2,2),
     Offset(0,3), Offset(2,3)],
    [Offset(0,0), Offset(1,0), Offset(2,0),
     Offset(0,1), Offset(2,1),
     Offset(0,2), Offset(1,2), Offset(2,2),
     Offset(0,3), Offset(2,3)])

  const GlyphB: Glyph := Glyph(
    [Offset(0,0), Offset(0,1), Offset(0,2), Offset(0,3),
     Offset(1,0), Offset(1,2),
     Offset(2,1), Offset(2,3)],
    [Offset(0,0), Offset(1,0), Offset(2,0),
     Offset(0,1), Offset(2,1),
     Offset(0,2), Offset(1,2), Offset(2,2),
     Offset(0,3), Offset(2,3)])

  const GlyphJ: Glyph := Glyph(
    [Offset(0,0), Offset(1,0), Offset(2,0),
     Offset(2,1), Offset(2,2), Offset(1,2), Offset(0,2)],
    [Offset(0,0), Offset(1,0), Offset(2,0),
     Offset(0,1), Offset(2,1),
     Offset(0,2), Offset(1,2), Offset(2,2)])

  const GlyphLowerI: Glyph := Glyph(
    [Offset(0,0),
     Offset(0,1),
     Offset(0,2)],
    [Offset(0,0), Offset(0,1), Offset(0,2), Offset(0,3)])

  const GlyphLowerM: Glyph := Glyph(
    [Offset(0,0), Offset(0,1), Offset(0,2),
     Offset(1,1),
     Offset(2,0), Offset(2,1), Offset(2,2)],
    [Offset(0,0), Offset(0,1), Offset(0,2), Offset(0,3),
     Offset(1,1), Offset(1,2),
     Offset(2,0), Offset(2,1), Offset(2,2), Offset(2,3)])

  const GlyphLowerE: Glyph := Glyph(
    [Offset(0,0), Offset(1,0), Offset(2,0),
     Offset(0,1), Offset(0,2), Offset(1,1), Offset(2,1)],
    [Offset(0,0), Offset(1,0), Offset(2,0),
     Offset(0,1), Offset(0,2), Offset(1,1), Offset(2,1),
     Offset(0,3), Offset(1,3), Offset(2,3)])

  /** `LETTER_PATTERNS[key]`, for exactly the keys the table defines. The
      keys A, B and J are upper case; i, m and e are lower case. */
  function TableEntry(key: char): (r: Option<Glyph>)
    ensures r.Some? <==> key in {'A', 'B', 'J', 'i', 'm', 'e'}
  {
    if key == 'A' then Some(GlyphA)
    else if key == 'B' then Some(GlyphB)
    else if key == 'J' then Some(GlyphJ)
    else if key == 'i' then Some(GlyphLowerI)
    else if key == 'm' then Some(GlyphLowerM)
    else if key == 'e' then Some(GlyphLowerE)
    else None
  }

  /** `toUpperCase` on the ASCII letters; every other character is left as
      it is (no other character upper-cases to a table key). */
  function ToUpper(c: char): (u: char)
    ensures 'a' <= c <= 'z' ==> u as int == c as int - 32
    ensures !('a' <= c <= 'z') ==> u == c
    ensures !('a' <= u <= 'z')
  {
    if 'a' <= c <= 'z' then (c as int - 32) as char else c
  }

  /** The entry the layout code finds for a character of the name: it looks
      the character up after upper-casing it. */
  function Lookup(c: char): (r: Option<Glyph>)
    // exactly the letters a, b and j, in either case, have a pattern
    ensures r.Some? <==> c in {'A', 'a', 'B', 'b', 'J', 'j'}
  {
    TableEntry(ToUpper(c))
  }

  /** The lower-case entries i, m and e exist but no character reaches them:
      "i", "m" and "e" are looked up as "I", "M" and "E", which are absent. */
  lemma LowerCaseEntriesUnreachable(c: char)
    ensures TableEntry('i').Some? && TableEntry('m').Some? && TableEntry('e').Some?
    ensures ToUpper(c) != 'i' && ToUpper(c) != 'm' && ToUpper(c) != 'e'
    ensures c in {'i', 'm', 'e'} ==> Lookup(c).None?
  {
  }

  /** `Math.max` of the column offsets of a non-empty pattern. */
  function MaxCol(p: seq<Offset>): nat
    requires |p| > 0
  {
    if |p| == 1 then p[0].col
    else
      var rest := MaxCol(p[1..]);
      if p[0].col > rest then p[0].col else rest
  }

  /** MaxCol bounds every column of the pattern and is one of them. */
  lemma {:induction false} MaxColBounds(p: seq<Offset>)
    requires |p| > 0
    ensures forall j :: 0 <= j < |p| ==> p[j].col <= MaxCol(p)
    ensures exists j :: 0 <= j < |p| && p[j].col == MaxCol(p)
  {
    if |p| == 1 {
      assert p[0].col == MaxCol(p);
    } else {
      var rest := p[1..];
      MaxColBounds(rest);
      forall j | 1 <= j < |p|
        ensures p[j].col <= MaxCol(p)
      {
        assert p[j] == rest[j - 1];
      }
      if MaxCol(p) == p[0].col {
        assert p[0].col == MaxCol(p);
      } else {
        var j :| 0 <= j < |rest| && rest[j].col == MaxCol(rest);
        assert p[j + 1] == rest[j];
      }
    }
  }

  /** Every table pattern is non-empty and at most four rows tall. */
  predicate WellFormed(g: Glyph) {
    && |g.standard| > 0 && |g.bold| > 0
    && (forall j :: 0 <= j < |g.standard| ==> g.standard[j].row < 4)
    && (forall j :: 0 <= j < |g.bold| ==> g.bold[j].row < 4)
  }

  /** The width of an entry: `max(x) + 1` taken over both of its styles. */
  function GlyphWidth(g: Glyph): nat
    requires WellFormed(g)
  {
    var ws := MaxCol(g.standard) + 1;
    var wb := MaxCol(g.bold) + 1;
    if ws > wb then ws else wb
  }

  /** Every column of either style lies left of the width, which is at least
      one column. */
  lemma GlyphWidthFits(g: Glyph)
    requires WellFormed(g)
    ensures forall s: Style, j :: 0 <= j < |g.Pattern(s)| ==> g.Pattern(s)[j].col < GlyphWidth(g)
    ensures GlyphWidth(g) > 0
  {
    MaxColBounds(g.standard);
    MaxColBounds(g.bold);
  }

  /** The maximum is pinned down by a bound reached at index k. */
  lemma MaxColIs(p: seq<Offset>, m: nat, k: nat)
    requires k < |p| && p[k].col == m
    requires forall j :: 0 <= j < |p| ==> p[j].col <= m
    ensures MaxCol(p) == m
  {
    MaxColBounds(p);
  }

  /** The shape of one entry: both patterns non-empty and at most four
      rows tall, the widest column `m`, reached at index ks of the standard
      pattern and kb of the bold one. */
  lemma GlyphShape(g: Glyph, m: nat, ks: nat, kb: nat)
    requires ks < |g.standard| && g.standard[ks].col == m
    requires kb < |g.bold| && g.bold[kb].col == m
    requires forall j :: 0 <= j < |g.standard| ==> g.standard[j].col <= m && g.standard[j].row < 4
    requires forall j :: 0 <= j < |g.bold| ==> g.bold[j].col <= m && g.bold[j].row < 4
    ensures WellFormed(g) && GlyphWidth(g) == m + 1
  {
    MaxColIs(g.standard, m, ks);
    MaxColIs(g.bold, m, kb);
  }

  /** Every entry is well formed; i is one column wide and every other entry
      three, so any name with a supported letter has advance width 3. */
  lemma TableWidths(key: char)
    requires TableEntry(key).Some?
    ensures WellFormed(TableEntry(key).value)
    ensures GlyphWidth(TableEntry(key).value) == if key == 'i' then 1 else 3
  {
    if key == 'A' {
      GlyphShape(GlyphA, 2, 2, 2);
    } else if key == 'B' {
      GlyphShape(GlyphB, 2, 6, 2);
    } else if key == 'J' {
      GlyphShape(GlyphJ, 2, 2, 2);
    } else if key == 'i' {
      GlyphShape(GlyphLowerI, 0, 0, 0);
    } else if key == 'm' {
      GlyphShape(GlyphLowerM, 2, 4, 6);
    } else {
      GlyphShape(GlyphLowerE, 2, 2, 2);
    }
  }
}
