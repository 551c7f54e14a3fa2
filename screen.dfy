/**
 * The screen buffer: a row-major grid of `w * h` cells, a cell accessor by
 * linear index, and an iterator that yields every cell with its coordinates.
 * All coordinate arithmetic is `u16`.
 */
module Screen {
  import opened Ints
  import opened Wrappers

  /** The display attribute of a cell; only the placeholder variant exists. */
  datatype Attr = None

  /** A displayable text unit, stored as the string it was made from. */
  datatype Grapheme = Grapheme(character: string) {
    static function New(ch: string): (g: Grapheme)
      ensures g.Character() == ch
    {
      Grapheme(ch)
    }

    function Character(): string {
      character
    }
  }

  /** `new` and `character` are inverse: a grapheme is determined by its character. */
  lemma GraphemeRoundTrip(ch: string, g: Grapheme)
    ensures Grapheme.New(ch).Character() == ch
    ensures Grapheme.New(g.Character()) == g
  {
  }

  datatype Cell = Cell(attr: Attr, grapheme: Option<Grapheme>) {
    /** The empty cell: no attribute and no grapheme. */
    static function New(): (c: Cell)
      ensures c.attr == Attr.None && c.grapheme == Option.None
    {
      Cell(Attr.None, Option.None)
    }
  }

  /** One item of a pass over the grid: `(x, y, cell)`. */
  datatype Item = Item(x: u16, y: u16, cell: Cell)

  /** The linear index `y * w + x` of a coordinate. */
  function LinearIndex(x: nat, y: nat, w: nat): nat {
    y * w + x
  }

  /** The items a pass over `cells` yields: index `i` at `(i % w, i / w)`. */
  function Enumerate(cells: seq<Cell>, w: u16): (items: seq<Item>)
    requires |cells| <= U16_MAX && (|cells| > 0 ==> w > 0)
    ensures |items| == |cells|
    ensures forall i :: 0 <= i < |items| ==>
      items[i].cell == cells[i] && items[i].x < w && LinearIndex(items[i].x as nat, items[i].y as nat, w as nat) == i
  {
    CoordinatesOfAll(|cells|, w as nat);
    seq(|cells|, i requires 0 <= i < |cells| => Item((i % w as int) as u16, (i / w as int) as u16, cells[i]))
  }

  /** Index `i` sits at column `i % w` of row `i / w`. */
  lemma CoordinatesOf(i: nat, w: nat)
    requires w > 0
    ensures i % w < w && i / w <= i && LinearIndex(i % w, i / w, w) == i
  {
    var q, r := i / w, i % w;
    assert i == q * w + r;
    MulMonotone(1, w, q);
  }

  lemma CoordinatesOfAll(n: nat, w: nat)
    requires n > 0 ==> w > 0
    ensures forall i: nat :: i < n ==> i % w < w && i / w <= i && LinearIndex(i % w, i / w, w) == i
  {
    forall i: nat | i < n
      ensures i % w < w && i / w <= i && LinearIndex(i % w, i / w, w) == i
    {
      CoordinatesOf(i, w);
    }
  }

  /** Quotient and remainder are unique: `y * w + x` with `x < w` splits back into `(x, y)`. */
  lemma SplitIndex(x: nat, y: nat, x': nat, y': nat, w: nat)
    requires w > 0 && x < w && x' < w
    requires LinearIndex(x, y, w) == LinearIndex(x', y', w)
    ensures x == x' && y == y'
  {
    if y < y' {
      RowsApart(x, y, x', y', w);
    } else if y' < y {
      RowsApart(x', y', x, y, w);
    }
  }

  /** An index in a lower row is smaller than any index in a higher row. */
  lemma RowsApart(x: nat, y: nat, x': nat, y': nat, w: nat)
    requires w > 0 && x < w && y < y'
    ensures LinearIndex(x, y, w) < LinearIndex(x', y', w)
  {
    MulMonotone(y + 1, y', w);
    assert (y + 1) * w == y * w + w;
  }

  lemma MulMonotone(a: int, b: int, w: int)
    requires 0 <= a <= b && 0 <= w
    ensures a * w <= b * w
  {
    assert b * w == a * w + (b - a) * w;
  }

  /** Inside the grid, a coordinate's index is in range. */
  lemma IndexInGrid(x: nat, y: nat, w: nat, h: nat)
    requires x < w && y < h
    ensures LinearIndex(x, y, w) < w * h
  {
    assert y * w + x < y * w + w == (y + 1) * w;
    assert (y + 1) * w <= h * w;
  }

  /**
   * Every coordinate of a `w`-by-`h` grid is yielded exactly once, at index
   * `y * w + x`, together with the cell stored there.
   */
  lemma EachCoordinateOnce(cells: seq<Cell>, w: u16, h: u16, x: u16, y: u16)
    requires |cells| == w as int * h as int <= U16_MAX
    requires x < w && y < h
    ensures LinearIndex(x as nat, y as nat, w as nat) < |cells|
    ensures Enumerate(cells, w)[LinearIndex(x as nat, y as nat, w as nat)]
         == Item(x, y, cells[LinearIndex(x as nat, y as nat, w as nat)])
    ensures forall i :: 0 <= i < |cells| && Enumerate(cells, w)[i].x == x && Enumerate(cells, w)[i].y == y ==>
      i == LinearIndex(x as nat, y as nat, w as nat)
  {
    var k := LinearIndex(x as nat, y as nat, w as nat);
    IndexInGrid(x as nat, y as nat, w as nat, h as nat);
    var items := Enumerate(cells, w);
    SplitIndex(items[k].x as nat, items[k].y as nat, x as nat, y as nat, w as nat);
  }

  /** Every yielded coordinate lies inside the grid. */
  lemma ItemsInGrid(cells: seq<Cell>, w: u16, h: u16, i: int)
    requires |cells| == w as int * h as int <= U16_MAX
    requires 0 <= i < |cells|
    ensures Enumerate(cells, w)[i].x < w && Enumerate(cells, w)[i].y < h
  {
    var it := Enumerate(cells, w)[i];
    if it.y >= h {
      MulMonotone(h as int, it.y as int, w as int);
    }
  }

  /** The accessor does not check `x < w`: a column past the edge lands in the next row. */
  lemma ColumnOverflowAliasesNextRow(x: nat, y: nat, w: nat)
    requires w <= x
    ensures LinearIndex(x, y, w) == LinearIndex(x - w, y + 1, w)
  {
  }

  /**
   * A cell written at an in-grid `(x, y)` is what a later pass yields at that
   * coordinate, and every other item of the pass is as before.
   */
  lemma WriteSeenByPass(cells: seq<Cell>, w: u16, h: u16, x: u16, y: u16, c: Cell)
    requires |cells| == w as int * h as int <= U16_MAX
    requires x < w && y < h
    ensures LinearIndex(x as nat, y as nat, w as nat) < |cells|
    ensures var k := LinearIndex(x as nat, y as nat, w as nat);
      Enumerate(cells[k := c], w)[k] == Item(x, y, c) &&
      forall i :: 0 <= i < |cells| && i != k ==> Enumerate(cells[k := c], w)[i] == Enumerate(cells, w)[i]
  {
    var k := LinearIndex(x as nat, y as nat, w as nat);
    IndexInGrid(x as nat, y as nat, w as nat, h as nat);
    EachCoordinateOnce(cells[k := c], w, h, x, y);
    forall i | 0 <= i < |cells| && i != k
      ensures Enumerate(cells[k := c], w)[i] == Enumerate(cells, w)[i]
    {
      var a, b := Enumerate(cells[k := c], w)[i], Enumerate(cells, w)[i];
      SplitIndex(a.x as nat, a.y as nat, b.x as nat, b.y as nat, w as nat);
    }
  }

  class Screen {
    const w: u16
    const h: u16
    const cells: array<Cell>

    /** The grid holds exactly `w * h` cells, a number that fits in `u16`. */
    ghost predicate Valid() {
      cells.Length == w as int * h as int <= U16_MAX
    }

    /** `w * h` is computed in `u16`, so it must not overflow. */
    constructor (w: u16, h: u16)
      requires w as int * h as int <= U16_MAX
      ensures Valid() && this.w == w && this.h == h && fresh(cells)
      ensures forall i :: 0 <= i < cells.Length ==> cells[i] == Cell.New()
    {
      this.w := w;
      this.h := h;
      cells := new Cell[w as int * h as int](_ => Cell.New());
    }

    /**
     * The cell at linear index `y * w + x`, as a position in `cells` that the
     * caller may write through; absent when that index is past the end.
     */
    method CellAtMut(x: u16, y: u16) returns (r: Option<nat>)
      requires Valid()
      requires LinearIndex(x as nat, y as nat, w as nat) <= U16_MAX
      ensures r.Some? <==> LinearIndex(x as nat, y as nat, w as nat) < cells.Length
      ensures r.Some? ==> r.value == LinearIndex(x as nat, y as nat, w as nat)
    {
      var index := y * w + x;
      if index as int < cells.Length {
        r := Some(index as nat);
      } else {
        r := Option.None;
      }
    }

    /** Replaces the cell at `(x, y)` through the accessor, if it exists. */
    method WriteCell(x: u16, y: u16, c: Cell) returns (written: bool)
      requires Valid()
      requires LinearIndex(x as nat, y as nat, w as nat) <= U16_MAX
      modifies cells
      ensures var k := LinearIndex(x as nat, y as nat, w as nat);
        && (written <==> k < cells.Length)
        && cells[..] == if written then old(cells[..])[k := c] else old(cells[..])
    {
      ghost var k := LinearIndex(x as nat, y as nat, w as nat);
      var r := CellAtMut(x, y);
      written := r.Some?;
      if r.Some? {
        assert r.value == k;
        cells[r.value] := c;
      }
    }

    /** A fresh pass over the grid, starting at index 0. */
    method Cells() returns (it: CellIter)
      ensures fresh(it) && it.screen == this && it.index == 0
    {
      it := new CellIter(this);
    }
  }

  class CellIter {
    const screen: Screen
    var index: u16

    constructor (screen: Screen)
      ensures this.screen == screen && index == 0
    {
      this.screen := screen;
      index := 0;
    }

    /** Yields the item at `index` and advances, or stays put once the grid is exhausted. */
    method Next() returns (r: Option<Item>)
      requires screen.Valid()
      modifies this`index
      ensures old(index) as int < screen.cells.Length ==>
        index as int == old(index) as int + 1 &&
        r == Some(Enumerate(screen.cells[..], screen.w)[old(index)])
      ensures old(index) as int >= screen.cells.Length ==> index == old(index) && r == Option.None
    {
      if index as int < screen.cells.Length {
        var cell := screen.cells[index];
        var x := index % screen.w;
        var y := index / screen.w;
        index := index + 1;
        r := Some(Item(x, y, cell));
      } else {
        r := Option.None;
      }
    }
  }

  /** Running a pass to the end yields the whole enumeration, in index (row-major) order. */
  method CollectCells(s: Screen) returns (items: seq<Item>)
    requires s.Valid()
    ensures items == Enumerate(s.cells[..], s.w)
  {
    var it := s.Cells();
    items := [];
    var r := it.Next();
    while r.Some?
      invariant it.screen == s
      invariant |items| < s.cells.Length ==> r.Some? && it.index as int == |items| + 1
      invariant |items| >= s.cells.Length ==> r.None?
      invariant |items| <= s.cells.Length
      invariant r.Some? ==> r.value == Enumerate(s.cells[..], s.w)[|items|]
      invariant items == Enumerate(s.cells[..], s.w)[..|items|]
      decreases s.cells.Length - |items|
    {
      items := items + [r.value];
      r := it.Next();
    }
  }
}
