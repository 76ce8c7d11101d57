/**
 The masonry columns of the result page (search/app/src/components/results.rs:
 `place_post`, `place_image`, the relayout effect).

 The pixel height of an image in a column of some width is a parameter: the code rounds
 floats there.
 */
module Masonry {
  const COLUMN_PAD := 2

  datatype Image = Image(id: int, width: int, height: int)

  datatype PostItem = PostItem(id: int, images: seq<Image>)

  datatype Item = Post(post: PostItem) | Picture(image: Image)

  datatype Placed = Placed(item: Item, w: nat, h: nat)

  datatype Column = Column(items: seq<Placed>, width: nat, height: nat)

  /** Rendered height of an image scaled to a column width. */
  type Scale = (Image, nat) -> nat

  /** Posts without a cover, their first image, are never shown. */
  predicate Shown(item: Item) {
    item.Picture? || item.post.images != []
  }

  function Cover(item: Item): Image
    requires Shown(item)
  {
    if item.Picture? then item.image else item.post.images[0]
  }

  // ---- placing -------------------------------------------------------------

  /** `m` is the first of the shortest columns. */
  ghost predicate FirstShortest(cols: seq<Column>, m: nat) {
    && m < |cols|
    && (forall i :: 0 <= i < |cols| ==> cols[m].height <= cols[i].height)
    && (forall i :: 0 <= i < m ==> cols[m].height < cols[i].height)
  }

  function Shortest(cols: seq<Column>): (m: nat)
    requires cols != []
    ensures FirstShortest(cols, m)
  {
    if |cols| == 1 then 0
    else
      var m := Shortest(cols[..|cols| - 1]);
      if cols[|cols| - 1].height < cols[m].height then |cols| - 1 else m
  }

  function Grow(scale: Scale, c: Column, item: Item): Column
    requires Shown(item)
  {
    var h := scale(Cover(item), c.width);
    Column(c.items + [Placed(item, c.width, h)], c.width, c.height + h + COLUMN_PAD)
  }

  /** Nothing is placed while there are no columns, or for a post without a cover. */
  function Place(scale: Scale, cols: seq<Column>, item: Item): (r: seq<Column>)
    ensures |r| == |cols|
  {
    if !Shown(item) || cols == [] then cols else
    var m := Shortest(cols);
    cols[m := Grow(scale, cols[m], item)]
  }

  function PlaceAll(scale: Scale, cols: seq<Column>, items: seq<Item>): (r: seq<Column>)
    ensures |r| == |cols|
  {
    if items == [] then cols
    else Place(scale, PlaceAll(scale, cols, items[..|items| - 1]), items[|items| - 1])
  }

  function EmptyColumns(count: nat, width: nat): (cols: seq<Column>)
    ensures |cols| == count && forall i :: 0 <= i < count ==> cols[i] == Column([], width, 0)
  {
    seq(count, i => Column([], width, 0))
  }

  // ---- what placement keeps ------------------------------------------------

  /** The pixels a column's boxes take. */
  function BoxSum(items: seq<Placed>): nat {
    if items == [] then 0 else BoxSum(items[..|items| - 1]) + items[|items| - 1].h + COLUMN_PAD
  }

  /** Each column's height is the sum of its boxes, drawn at its width, of shown items only. */
  ghost predicate ColumnOk(scale: Scale, c: Column) {
    && c.height == BoxSum(c.items)
    && forall i :: 0 <= i < |c.items| ==>
         Shown(c.items[i].item) && c.items[i].w == c.width && c.items[i].h == scale(Cover(c.items[i].item), c.width)
  }

  /** No placed item is taller than `tallest`. */
  ghost predicate Tallest(cols: seq<Column>, tallest: nat) {
    forall i, j :: 0 <= i < |cols| && 0 <= j < |cols[i].items| ==> cols[i].items[j].h <= tallest
  }

  /** Any two columns differ by at most the tallest item placed, plus the padding. */
  ghost predicate Balanced(cols: seq<Column>) {
    forall tallest: nat | Tallest(cols, tallest) ::
      forall i, j :: 0 <= i < |cols| && 0 <= j < |cols| ==> cols[i].height <= cols[j].height + tallest + COLUMN_PAD
  }

  ghost predicate LayoutOk(scale: Scale, cols: seq<Column>) {
    && cols != [] && Balanced(cols)
    && forall i :: 0 <= i < |cols| ==> ColumnOk(scale, cols[i])
  }

  /** How often `x` is on the page. */
  ghost function OnPage(x: Item, cols: seq<Column>): nat {
    if cols == [] then 0 else OnPage(x, cols[..|cols| - 1]) + Inside(x, cols[|cols| - 1].items)
  }

  ghost function Inside(x: Item, items: seq<Placed>): nat {
    if items == [] then 0 else Inside(x, items[..|items| - 1]) + One(x == items[|items| - 1].item)
  }

  /** How often `x` is in a list; a post without a cover does not count. */
  ghost function Times(x: Item, items: seq<Item>): nat {
    if items == [] then 0 else Times(x, items[..|items| - 1]) + One(Shown(x) && x == items[|items| - 1])
  }

  function One(b: bool): nat {
    if b then 1 else 0
  }

  /** Two pages hold the same items, each equally often. */
  ghost predicate SameItems(a: seq<Column>, b: seq<Column>) {
    forall x :: OnPage(x, a) == OnPage(x, b)
  }

  lemma {:induction false} TimesAppend(x: Item, a: seq<Item>, b: seq<Item>)
    ensures Times(x, a + b) == Times(x, a) + Times(x, b)
  {
    if b == [] {
      assert a + b == a;
    } else {
      var n := |b| - 1;
      TimesAppend(x, a, b[..n]);
      assert (a + b)[..|a| + n] == a + b[..n];
    }
  }

  lemma GrowOk(scale: Scale, c: Column, item: Item)
    requires ColumnOk(scale, c) && Shown(item)
    ensures ColumnOk(scale, Grow(scale, c, item))
    ensures forall x :: Inside(x, Grow(scale, c, item).items) == Inside(x, c.items) + One(x == item)
  {
    var g := Grow(scale, c, item);
    assert g.items[..|c.items|] == c.items;
  }

  lemma GrowBalanced(scale: Scale, cols: seq<Column>, m: nat, item: Item)
    requires Balanced(cols) && FirstShortest(cols, m) && Shown(item)
    ensures Balanced(cols[m := Grow(scale, cols[m], item)])
  {
    var g := Grow(scale, cols[m], item);
    var cols' := cols[m := g];
    forall tallest: nat | Tallest(cols', tallest)
      ensures forall i, j :: 0 <= i < |cols'| && 0 <= j < |cols'| ==> cols'[i].height <= cols'[j].height + tallest + COLUMN_PAD
    {
      assert cols'[m].items[|cols[m].items|].h <= tallest;
      assert Tallest(cols, tallest) by {
        forall i, j | 0 <= i < |cols| && 0 <= j < |cols[i].items| ensures cols[i].items[j].h <= tallest {
          assert cols'[i].items[j] == cols[i].items[j];
        }
      }
    }
  }

  lemma {:induction false} PageUpdated(x: Item, cols: seq<Column>, m: nat, c: Column, added: nat)
    requires m < |cols| && Inside(x, c.items) == Inside(x, cols[m].items) + added
    ensures OnPage(x, cols[m := c]) == OnPage(x, cols) + added
  {
    var n := |cols| - 1;
    if m < n {
      PageUpdated(x, cols[..n], m, c, added);
      assert cols[m := c][..n] == cols[..n][m := c];
    } else {
      assert cols[m := c][..n] == cols[..n];
    }
  }

  lemma PlaceOk(scale: Scale, cols: seq<Column>, item: Item)
    requires LayoutOk(scale, cols)
    ensures LayoutOk(scale, Place(scale, cols, item))
    ensures forall x :: OnPage(x, Place(scale, cols, item)) == OnPage(x, cols) + One(Shown(x) && x == item)
  {
    if Shown(item) {
      var m := Shortest(cols);
      GrowOk(scale, cols[m], item);
      GrowBalanced(scale, cols, m, item);
      forall x ensures OnPage(x, Place(scale, cols, item)) == OnPage(x, cols) + One(Shown(x) && x == item) {
        PageUpdated(x, cols, m, Grow(scale, cols[m], item), One(x == item));
      }
    }
  }

  lemma {:induction false} PlaceAllOk(scale: Scale, cols: seq<Column>, items: seq<Item>)
    requires LayoutOk(scale, cols)
    ensures LayoutOk(scale, PlaceAll(scale, cols, items))
    ensures forall x :: OnPage(x, PlaceAll(scale, cols, items)) == OnPage(x, cols) + Times(x, items)
  {
    if items != [] {
      PlaceAllOk(scale, cols, items[..|items| - 1]);
      PlaceOk(scale, PlaceAll(scale, cols, items[..|items| - 1]), items[|items| - 1]);
    }
  }

  lemma {:induction false} NothingOnPage(x: Item, cols: seq<Column>)
    requires forall i :: 0 <= i < |cols| ==> cols[i].items == []
    ensures OnPage(x, cols) == 0
  {
    if cols != [] {
      NothingOnPage(x, cols[..|cols| - 1]);
    }
  }

  lemma EmptyOk(scale: Scale, cols: seq<Column>)
    requires cols != [] && forall i :: 0 <= i < |cols| ==> cols[i].items == [] && cols[i].height == 0
    ensures LayoutOk(scale, cols) && forall x :: OnPage(x, cols) == 0
  {
    forall x ensures OnPage(x, cols) == 0 {
      NothingOnPage(x, cols);
    }
  }

  // ---- relayout ------------------------------------------------------------

  /** The items of row `row`, left to right. */
  function Row(cols: seq<Column>, row: nat): seq<Item> {
    if cols == [] then []
    else Row(cols[..|cols| - 1], row) + RowOf(cols[|cols| - 1], row)
  }

  function RowOf(c: Column, row: nat): seq<Item> {
    if row < |c.items| then [c.items[row].item] else []
  }

  /** Rows `0..rows`, top to bottom: the order the relayout places items in. */
  function Rows(cols: seq<Column>, rows: nat): seq<Item> {
    if rows == 0 then [] else Rows(cols, rows - 1) + Row(cols, rows - 1)
  }

  function MaxRow(cols: seq<Column>): (m: nat)
    ensures forall i :: 0 <= i < |cols| ==> |cols[i].items| <= m
  {
    if cols == [] then 0
    else
      var m, n := MaxRow(cols[..|cols| - 1]), |cols[|cols| - 1].items|;
      if m < n then n else m
  }

  /** How many columns have a row `row`. */
  function Reaching(cols: seq<Column>, row: nat): nat {
    if cols == [] then 0 else Reaching(cols[..|cols| - 1], row) + if row < |cols[|cols| - 1].items| then 1 else 0
  }

  /** Items in the rows above `row`. */
  function Above(cols: seq<Column>, row: nat): nat {
    if row == 0 then 0 else Above(cols, row - 1) + Reaching(cols, row - 1)
  }

  lemma {:induction false} RowAt(cols: seq<Column>, row: nat, c: nat)
    requires c < |cols| && row < |cols[c].items|
    ensures |Row(cols, row)| == Reaching(cols, row)
    ensures Reaching(cols[..c], row) < |Row(cols, row)| && Row(cols, row)[Reaching(cols[..c], row)] == cols[c].items[row].item
  {
    var n := |cols| - 1;
    RowLength(cols[..n], row);
    if c < n {
      RowAt(cols[..n], row, c);
      assert cols[..n][..c] == cols[..c];
    }
  }

  lemma {:induction false} RowLength(cols: seq<Column>, row: nat)
    ensures |Row(cols, row)| == Reaching(cols, row)
  {
    if cols != [] {
      RowLength(cols[..|cols| - 1], row);
    }
  }

  lemma {:induction false} RowsLength(cols: seq<Column>, rows: nat)
    ensures |Rows(cols, rows)| == Above(cols, rows)
  {
    if rows > 0 {
      RowsLength(cols, rows - 1);
      RowLength(cols, rows - 1);
    }
  }

  lemma LastRowAt(cols: seq<Column>, row: nat, c: nat)
    requires c < |cols| && row < |cols[c].items|
    ensures PlaceOf(cols, row, c) < |Rows(cols, row + 1)|
    ensures Rows(cols, row + 1)[PlaceOf(cols, row, c)] == cols[c].items[row].item
  {
    RowsLength(cols, row);
    RowAt(cols, row, c);
    Behind(Rows(cols, row), Row(cols, row), Reaching(cols[..c], row));
    assert Rows(cols, row + 1) == Rows(cols, row) + Row(cols, row);
  }

  lemma {:induction false} KeepsPlace(cols: seq<Column>, few: nat, rows: nat, k: nat)
    requires few <= rows && k < |Rows(cols, few)|
    ensures k < |Rows(cols, rows)| && Rows(cols, rows)[k] == Rows(cols, few)[k]
  {
    if few < rows {
      KeepsPlace(cols, few, rows - 1, k);
      InFront(Rows(cols, rows - 1), Row(cols, rows - 1), k);
    }
  }

  /** Item `row` of column `c` comes after all items of the rows above it, and after those left of it. */
  function PlaceOf(cols: seq<Column>, row: nat, c: nat): nat
    requires c <= |cols|
  {
    Above(cols, row) + Reaching(cols[..c], row)
  }

  /** The page is read top to bottom and left to right. */
  lemma RowOrder(cols: seq<Column>, rows: nat, row: nat, c: nat)
    requires row < rows && c < |cols| && row < |cols[c].items|
    ensures PlaceOf(cols, row, c) < |Rows(cols, rows)|
    ensures Rows(cols, rows)[PlaceOf(cols, row, c)] == cols[c].items[row].item
  {
    LastRowAt(cols, row, c);
    KeepsPlace(cols, row + 1, rows, PlaceOf(cols, row, c));
  }

  lemma InFront(a: seq<Item>, b: seq<Item>, k: nat)
    requires k < |a|
    ensures k < |a + b| && (a + b)[k] == a[k]
  {
  }

  lemma Behind(a: seq<Item>, b: seq<Item>, k: nat)
    requires k < |b|
    ensures |a| + k < |a + b| && (a + b)[|a| + k] == b[k]
  {
  }

  function CutColumn(c: Column, rows: nat): Column {
    if rows < |c.items| then c.(items := c.items[..rows]) else c
  }

  /** The columns cut off after `rows` rows. */
  function Cut(cols: seq<Column>, rows: nat): (r: seq<Column>)
    ensures |r| == |cols|
  {
    seq(|cols|, i requires 0 <= i < |cols| => CutColumn(cols[i], rows))
  }

  lemma CutLast(x: Item, cols: seq<Column>, rows: nat)
    requires cols != []
    ensures OnPage(x, Cut(cols, rows))
         == OnPage(x, Cut(cols[..|cols| - 1], rows)) + Inside(x, CutColumn(cols[|cols| - 1], rows).items)
  {
    assert Cut(cols, rows)[..|cols| - 1] == Cut(cols[..|cols| - 1], rows);
  }

  lemma CutColumnRow(x: Item, c: Column, row: nat)
    requires Shown(x)
    ensures Inside(x, CutColumn(c, row + 1).items) == Inside(x, CutColumn(c, row).items) + Times(x, RowOf(c, row))
  {
    if row < |c.items| {
      assert c.items[..row + 1][..row] == c.items[..row];
      assert CutColumn(c, row + 1).items == c.items[..row + 1];
      assert CutColumn(c, row).items == c.items[..row];
      TimesAppend(x, [], [c.items[row].item]);
    }
  }

  lemma {:induction false} CutRow(x: Item, cols: seq<Column>, row: nat)
    requires Shown(x)
    ensures OnPage(x, Cut(cols, row + 1)) == OnPage(x, Cut(cols, row)) + Times(x, Row(cols, row))
  {
    if cols != [] {
      var n := |cols| - 1;
      CutRow(x, cols[..n], row);
      CutLast(x, cols, row + 1);
      CutLast(x, cols, row);
      CutColumnRow(x, cols[n], row);
      TimesAppend(x, Row(cols[..n], row), RowOf(cols[n], row));
    }
  }

  lemma CutNothing(cols: seq<Column>)
    ensures forall i :: 0 <= i < |cols| ==> Cut(cols, 0)[i].items == []
  {
  }

  lemma OneMoreRow(x: Item, cols: seq<Column>, row: nat)
    ensures Times(x, Rows(cols, row + 1)) == Times(x, Rows(cols, row)) + Times(x, Row(cols, row))
  {
    TimesAppend(x, Rows(cols, row), Row(cols, row));
  }

  lemma {:induction false} RowsAreCut(x: Item, cols: seq<Column>, rows: nat)
    requires Shown(x)
    ensures Times(x, Rows(cols, rows)) == OnPage(x, Cut(cols, rows))
  {
    if rows == 0 {
      CutNothing(cols);
      NothingOnPage(x, Cut(cols, 0));
    } else {
      var row := rows - 1;
      RowsAreCut(x, cols, row);
      CutRow(x, cols, row);
      OneMoreRow(x, cols, row);
      assert row + 1 == rows;
    }
  }

  lemma {:induction false} OnlyShownInside(scale: Scale, x: Item, c: Column, n: nat)
    requires ColumnOk(scale, c) && !Shown(x) && n <= |c.items|
    ensures Inside(x, c.items[..n]) == 0
  {
    if n > 0 {
      OnlyShownInside(scale, x, c, n - 1);
      assert c.items[..n][..n - 1] == c.items[..n - 1];
    }
  }

  lemma {:induction false} OnlyShown(scale: Scale, x: Item, cols: seq<Column>)
    requires !Shown(x) && forall i :: 0 <= i < |cols| ==> ColumnOk(scale, cols[i])
    ensures OnPage(x, cols) == 0
  {
    if cols != [] {
      var c := cols[|cols| - 1];
      OnlyShown(scale, x, cols[..|cols| - 1]);
      OnlyShownInside(scale, x, c, |c.items|);
      assert c.items[..|c.items|] == c.items;
    }
  }

  lemma {:induction false} HiddenNever(x: Item, items: seq<Item>)
    requires !Shown(x)
    ensures Times(x, items) == 0
  {
    if items != [] {
      HiddenNever(x, items[..|items| - 1]);
    }
  }

  /** Reading the columns row by row loses and repeats nothing. */
  lemma RowsHoldEverything(scale: Scale, cols: seq<Column>, x: Item)
    requires LayoutOk(scale, cols)
    ensures Times(x, Rows(cols, MaxRow(cols))) == OnPage(x, cols)
  {
    if Shown(x) {
      RowsAreCut(x, cols, MaxRow(cols));
      assert Cut(cols, MaxRow(cols)) == cols;
    } else {
      HiddenNever(x, Rows(cols, MaxRow(cols)));
      OnlyShown(scale, x, cols);
    }
  }

  function Relayout(scale: Scale, cols: seq<Column>, count: nat, width: nat): (r: seq<Column>)
    requires count > 0
    ensures r != []
  {
    PlaceAll(scale, EmptyColumns(count, width), Rows(cols, MaxRow(cols)))
  }

  /** Relayout to any number of columns keeps the items, each as often as before, and is balanced again. */
  lemma RelayoutOk(scale: Scale, cols: seq<Column>, count: nat, width: nat)
    requires LayoutOk(scale, cols) && count > 0
    ensures LayoutOk(scale, Relayout(scale, cols, count, width))
    ensures SameItems(Relayout(scale, cols, count, width), cols)
  {
    var items := Rows(cols, MaxRow(cols));
    EmptyOk(scale, EmptyColumns(count, width));
    PlaceAllOk(scale, EmptyColumns(count, width), items);
    forall x ensures OnPage(x, Relayout(scale, cols, count, width)) == OnPage(x, cols) {
      RowsHoldEverything(scale, cols, x);
    }
  }
}
