/**
 The result page (search/app/src/components/results.rs): one search at a time, loaded page by
 page, with responses that arrive in any order, late or never.

 A change of the parameters and the effect that reacts to it are one step. `outstanding` and
 `merged` are ghost: the requests still in flight, and the pages put on the page since the
 last change.
 */
module Results {
  import opened Wrappers
  import opened Masonry

  const COLUMN_WIDTH := 360.0

  datatype Params = Params(mode: string, query: string, limit: int, seed: int)

  datatype Request = Request(id: nat, params: Params, offset: int)

  /** `NoImage` is an image search whose picture was lost with a reload. */
  datatype Reply =
    | Page(posts: seq<PostItem>, images: seq<Image>, hasMore: bool)
    | Failed(message: string)
    | NoImage

  datatype Merge = Merge(request: Request, posts: seq<PostItem>, images: seq<Image>)

  function PostItems(posts: seq<PostItem>): (r: seq<Item>)
    ensures |r| == |posts| && forall i :: 0 <= i < |posts| ==> r[i] == Post(posts[i])
  {
    if posts == [] then [] else PostItems(posts[..|posts| - 1]) + [Post(posts[|posts| - 1])]
  }

  function Pictures(images: seq<Image>): (r: seq<Item>)
    ensures |r| == |images| && forall i :: 0 <= i < |images| ==> r[i] == Picture(images[i])
  {
    if images == [] then [] else Pictures(images[..|images| - 1]) + [Picture(images[|images| - 1])]
  }

  function MergeItems(m: Merge): seq<Item> {
    PostItems(m.posts) + Pictures(m.images)
  }

  function AllItems(merged: seq<Merge>): seq<Item> {
    if merged == [] then [] else AllItems(merged[..|merged| - 1]) + MergeItems(merged[|merged| - 1])
  }

  function AllImages(merged: seq<Merge>): seq<Image> {
    if merged == [] then [] else AllImages(merged[..|merged| - 1]) + merged[|merged| - 1].images
  }

  /** Where page `n` starts, counted one page at a time. */
  function StartOf(n: nat, limit: int): int {
    if n == 0 then 0 else StartOf(n - 1, limit) + limit
  }

  lemma {:induction false} StartIsProduct(n: nat, limit: int)
    ensures StartOf(n, limit) == n * limit
  {
    if n > 0 {
      StartIsProduct(n - 1, limit);
    }
  }

  /** Page `i` came from the current search, at offset `i * limit`. */
  ghost predicate InOrder(params: Params, merged: seq<Merge>) {
    forall i :: 0 <= i < |merged| ==>
      merged[i].request.params == params && merged[i].request.offset == StartOf(i, params.limit)
  }

  /** How often `x` was in the merged pages. */
  ghost function Tally(x: Item, merged: seq<Merge>): nat {
    if merged == [] then 0 else Tally(x, merged[..|merged| - 1]) + Times(x, MergeItems(merged[|merged| - 1]))
  }

  lemma {:induction false} TallyOfAll(x: Item, merged: seq<Merge>)
    ensures Tally(x, merged) == Times(x, AllItems(merged))
  {
    if merged != [] {
      TallyOfAll(x, merged[..|merged| - 1]);
      TimesAppend(x, AllItems(merged[..|merged| - 1]), MergeItems(merged[|merged| - 1]));
    }
  }

  /** What is on screen is exactly what was merged. */
  ghost predicate ShowsMerged(columns: seq<Column>, images: seq<Image>, merged: seq<Merge>) {
    && (forall x :: OnPage(x, columns) == Tally(x, merged))
    && images == AllImages(merged)
  }

  /** The screen shows the merged pages of the current search, laid out. */
  ghost predicate ScreenOk(scale: Scale, params: Params, columns: seq<Column>, images: seq<Image>, merged: seq<Merge>) {
    LayoutOk(scale, columns) && InOrder(params, merged) && ShowsMerged(columns, images, merged)
  }

  lemma {:induction false} PlaceAllAppend(scale: Scale, cols: seq<Column>, a: seq<Item>, b: seq<Item>)
    ensures PlaceAll(scale, cols, a + b) == PlaceAll(scale, PlaceAll(scale, cols, a), b)
  {
    if b == [] {
      assert a + b == a;
    } else {
      PlaceAllAppend(scale, cols, a, b[..|b| - 1]);
      assert (a + b)[..|a + b| - 1] == a + b[..|b| - 1];
    }
  }

  lemma PlaceOneMore(scale: Scale, cols: seq<Column>, items: seq<Item>, k: nat)
    requires k < |items|
    ensures PlaceAll(scale, cols, items[..k + 1]) == Place(scale, PlaceAll(scale, cols, items[..k]), items[k])
  {
    assert items[..k + 1][..k] == items[..k];
  }

  /** Placing the next page keeps the screen in step with the pages. */
  lemma MergeShown(scale: Scale, params: Params, columns: seq<Column>, images: seq<Image>, merged: seq<Merge>, m: Merge)
    requires ScreenOk(scale, params, columns, images, merged)
    requires m.request.params == params && m.request.offset == StartOf(|merged|, params.limit)
    ensures ScreenOk(scale, params, PlaceAll(scale, columns, MergeItems(m)), images + m.images, merged + [m])
  {
    PlaceAllOk(scale, columns, MergeItems(m));
    assert (merged + [m])[..|merged|] == merged;
  }

  function Cleared(cols: seq<Column>): (r: seq<Column>)
    ensures |r| == |cols| && forall i :: 0 <= i < |cols| ==> r[i].items == [] && r[i].width == cols[i].width && r[i].height == 0
  {
    seq(|cols|, i requires 0 <= i < |cols| => Column([], cols[i].width, 0))
  }

  // ---- what the order of the pages buys --------------------------------------

  /** Page of a result list that does not change between requests. */
  function Slice(list: seq<Item>, offset: nat, limit: nat): seq<Item> {
    if |list| <= offset then []
    else if |list| <= offset + limit then list[offset..]
    else list[offset..offset + limit]
  }

  lemma PrefixGrows(list: seq<Item>, n: nat, limit: nat)
    ensures Slice(list, 0, n * limit) + Slice(list, n * limit, limit) == Slice(list, 0, (n + 1) * limit)
  {
    assert (n + 1) * limit == n * limit + limit;
  }

  /**
   When the server answers each request from one fixed list per search, the merged pages are
   a prefix of the list: nothing skipped, nothing twice.
   */
  lemma {:induction false} PagesArePrefix(list: Params -> seq<Item>, params: Params, merged: seq<Merge>)
    requires params.limit >= 1 && InOrder(params, merged)
    requires forall i :: 0 <= i < |merged| ==> AnsweredFrom(list, merged[i])
    ensures AllItems(merged) == Slice(list(params), 0, |merged| * params.limit)
  {
    if merged != [] {
      var n := |merged| - 1;
      PagesArePrefix(list, params, merged[..n]);
      assert AnsweredFrom(list, merged[n]);
      StartIsProduct(n, params.limit);
      PrefixGrows(list(params), n, params.limit);
    }
  }

  ghost predicate AnsweredFrom(list: Params -> seq<Item>, m: Merge) {
    && m.request.offset >= 0 && m.request.params.limit >= 1
    && MergeItems(m) == Slice(list(m.request.params), m.request.offset, m.request.params.limit)
  }

  /** So the screen shows exactly that prefix, each item as often as it is in it. */
  lemma ShownIsPrefix(list: Params -> seq<Item>, params: Params, columns: seq<Column>, images: seq<Image>, merged: seq<Merge>)
    requires params.limit >= 1 && InOrder(params, merged) && ShowsMerged(columns, images, merged)
    requires forall i :: 0 <= i < |merged| ==> AnsweredFrom(list, merged[i])
    ensures forall x :: OnPage(x, columns) == Times(x, Slice(list(params), 0, |merged| * params.limit))
  {
    PagesArePrefix(list, params, merged);
    forall x ensures OnPage(x, columns) == Times(x, AllItems(merged)) {
      TallyOfAll(x, merged);
    }
  }

  // ---- the page --------------------------------------------------------------

  function Round(x: real): int {
    (x + 0.5).Floor
  }

  /** Columns that fit a width: at least one. */
  function ColumnCount(width: real): (n: nat)
    requires width >= 0.0
    ensures n >= 1
  {
    var n := Round(width / COLUMN_WIDTH);
    if n < 1 then 1 else n
  }

  function ColumnWidth(width: real): nat
    requires width >= 0.0
  {
    var x := width / ColumnCount(width) as real;
    assert x >= 0.0;
    Round(x)
  }

  /** One column up to one and a half column widths; beyond, as many as bring the width of a column nearest to 360
      pixels, and together they are as wide as the page up to half a pixel each. */
  lemma LayoutFits(width: real)
    requires width >= 0.0
    ensures ColumnCount(width) == 1 <==> width < 540.0
    ensures var n := ColumnCount(width); n > 1 ==> 360.0 * n as real - 180.0 <= width < 360.0 * n as real + 180.0
    ensures var share := width / ColumnCount(width) as real;
            share - 0.5 < ColumnWidth(width) as real <= share + 0.5
  {
    var x := width / COLUMN_WIDTH + 0.5;
    assert x.Floor as real <= x < x.Floor as real + 1.0;
  }

  class ResultsPage {
    const scale: Scale
    var params: Params
    var columns: seq<Column>
    var images: seq<Image>
    var offset: int
    var hasMore: bool
    var loading: bool
    var error: Option<string>
    var reqId: nat
    ghost var outstanding: set<Request>
    ghost var merged: seq<Merge>

    function Current(): Request
      reads this
    {
      Request(reqId, params, offset)
    }

    /** Only the newest request can still be merged; it is in flight exactly while loading. */
    ghost predicate RequestsOk()
      reads this
    {
      && (forall r <- outstanding :: r.id <= reqId && (r.id == reqId ==> r == Current()))
      && (loading <==> Current() in outstanding)
    }

    /** The next page to ask for is the one after the last merged. */
    ghost predicate OffsetOk()
      reads this
    {
      && (loading ==> offset == StartOf(|merged|, params.limit))
      && (!loading && hasMore ==> merged != [] && offset == StartOf(|merged| - 1, params.limit))
    }

    ghost predicate Valid()
      reads this
    {
      && params.limit >= 1
      && ScreenOk(scale, params, columns, images, merged)
      && RequestsOk()
      && OffsetOk()
    }

    /** The first layout, and the first run of the parameter effect. */
    constructor (scale: Scale, width: real, params: Params)
      requires width >= 0.0 && params.limit >= 1
      ensures Valid() && fresh(this)
      ensures this.scale == scale && this.params == params && merged == [] && columns == EmptyColumns(ColumnCount(width), ColumnWidth(width))
      ensures loading && outstanding == {Request(1, params, 0)}
    {
      this.scale := scale;
      this.params := params;
      columns := EmptyColumns(ColumnCount(width), ColumnWidth(width));
      images, offset, hasMore, loading, error, reqId := [], 0, true, true, None, 1;
      outstanding, merged := {Request(1, params, 0)}, [];
      new;
      EmptyOk(scale, columns);
    }

    method LoadPage(offsetVal: int)
      requires forall r <- outstanding :: r.id <= reqId
      modifies this`reqId, this`loading, this`error, this`outstanding
      ensures reqId == old(reqId) + 1 && loading && error == None
      ensures outstanding == old(outstanding) + {Request(reqId, params, offsetVal)}
    {
      reqId := reqId + 1;
      loading := true;
      error := None;
      outstanding := outstanding + {Request(reqId, params, offsetVal)};
    }

    /** A new search: the page is emptied and every request in flight becomes stale. */
    method OnParams(next: Params)
      requires Valid() && next.limit >= 1
      modifies this
      ensures Valid()
      ensures params == next && merged == [] && images == [] && columns == Cleared(old(columns))
      ensures hasMore && error == None
      ensures outstanding == old(outstanding) + {Request(old(reqId) + 1, next, 0)}
      ensures forall r <- old(outstanding) :: r.id != reqId
    {
      params := next;
      columns := Cleared(columns);
      images := [];
      offset := 0;
      hasMore := true;
      error := None;
      merged := [];
      EmptyOk(scale, columns);
      LoadPage(0);
    }

    /** The end of the page came into view: the next page is requested, once. */
    method OnSentinel(intersecting: bool)
      requires Valid()
      modifies this
      ensures Valid()
      ensures params == old(params) && columns == old(columns) && images == old(images) && merged == old(merged)
      ensures hasMore == old(hasMore)
      ensures if intersecting && !old(loading) && hasMore
              then outstanding == old(outstanding) + {Request(old(reqId) + 1, params, StartOf(|merged|, params.limit))}
              else outstanding == old(outstanding) && reqId == old(reqId) && loading == old(loading)
    {
      if intersecting && !loading && hasMore {
        offset := offset + params.limit;
        LoadPage(offset);
      }
    }

    method PlacePost(p: PostItem)
      modifies this`columns
      ensures columns == Place(scale, old(columns), Post(p))
    {
      if p.images == [] || columns == [] {
        return;
      }
      var m := Shortest(columns);
      var column := columns[m];
      var height := scale(p.images[0], column.width);
      columns := columns[m := Column(column.items + [Placed(Post(p), column.width, height)],
                                     column.width, column.height + height + COLUMN_PAD)];
    }

    method PlaceImage(im: Image)
      modifies this`columns, this`images
      ensures columns == Place(scale, old(columns), Picture(im))
      ensures images == old(images) + [im]
    {
      images := images + [im];
      if columns == [] {
        return;
      }
      var m := Shortest(columns);
      var column := columns[m];
      var height := scale(im, column.width);
      columns := columns[m := Column(column.items + [Placed(Picture(im), column.width, height)],
                                     column.width, column.height + height + COLUMN_PAD)];
    }

    method PlacePosts(posts: seq<PostItem>)
      modifies this`columns
      ensures columns == PlaceAll(scale, old(columns), PostItems(posts))
    {
      var items := PostItems(posts);
      for k := 0 to |posts|
        invariant columns == PlaceAll(scale, old(columns), items[..k])
      {
        PlaceOneMore(scale, old(columns), items, k);
        PlacePost(posts[k]);
      }
      assert items[..|posts|] == items;
    }

    method PlaceImages(pictures: seq<Image>)
      modifies this`columns, this`images
      ensures columns == PlaceAll(scale, old(columns), Pictures(pictures))
      ensures images == old(images) + pictures
    {
      var items := Pictures(pictures);
      for k := 0 to |pictures|
        invariant images == old(images) + pictures[..k]
        invariant columns == PlaceAll(scale, old(columns), items[..k])
      {
        PlaceOneMore(scale, old(columns), items, k);
        PlaceImage(pictures[k]);
      }
      assert items[..|pictures|] == items;
    }

    /** The posts of a page are placed, then its images. */
    method PlacePage(posts: seq<PostItem>, pictures: seq<Image>)
      modifies this`columns, this`images
      ensures columns == PlaceAll(scale, old(columns), PostItems(posts) + Pictures(pictures))
      ensures images == old(images) + pictures
    {
      PlacePosts(posts);
      PlaceImages(pictures);
      PlaceAllAppend(scale, old(columns), PostItems(posts), Pictures(pictures));
    }

    /** The response being waited for has been placed. */
    method FinishPage(ghost m: Merge, more: bool)
      requires params.limit >= 1 && ScreenOk(scale, params, columns, images, merged + [m])
      requires RequestsOk() && loading && offset == StartOf(|merged|, params.limit)
      modifies this`hasMore, this`loading, this`outstanding, this`merged
      ensures Valid() && !loading && hasMore == more
      ensures outstanding == old(outstanding) - {Current()} && merged == old(merged) + [m]
    {
      hasMore := more;
      loading := false;
      outstanding := outstanding - {Current()};
      merged := merged + [m];
    }

    /** A response arrives, in any order. One that was superseded changes nothing. */
    method OnResponse(r: Request, reply: Reply)
      requires Valid() && r in outstanding
      modifies this
      ensures Valid()
      ensures outstanding == old(outstanding) - {r}
      ensures params == old(params) && reqId == old(reqId) && offset == old(offset)
      ensures r.id != reqId ==>
        && columns == old(columns) && images == old(images) && merged == old(merged)
        && hasMore == old(hasMore) && loading == old(loading) && error == old(error)
      ensures r.id == reqId ==> !loading
      ensures r.id == reqId && reply.Page? ==>
        && merged == old(merged) + [Merge(r, reply.posts, reply.images)]
        && columns == PlaceAll(scale, old(columns), PostItems(reply.posts) + Pictures(reply.images))
        && hasMore == reply.hasMore && error == old(error)
      ensures r.id == reqId && !reply.Page? ==>
        && columns == old(columns) && images == old(images) && merged == old(merged) && !hasMore
        && error == if reply.Failed? then Some(reply.message) else old(error)
    {
      if r.id != reqId {
        outstanding := outstanding - {r};
        return;
      }
      match reply
      case Page(posts, pictures, more) =>
        ghost var m := Merge(r, posts, pictures);
        MergeShown(scale, params, columns, images, merged, m);
        PlacePage(posts, pictures);
        FinishPage(m, more);
      case Failed(message) =>
        error := Some(message);
        StopLoading();
      case NoImage =>
        StopLoading();
    }

    method StopLoading()
      requires Valid() && loading
      modifies this`hasMore, this`loading, this`outstanding
      ensures Valid() && !loading && !hasMore
      ensures outstanding == old(outstanding) - {Current()}
    {
      hasMore := false;
      loading := false;
      outstanding := outstanding - {Current()};
    }

    /** A new width: everything is placed again, row by row, into fresh columns. */
    method OnWidth(width: real)
      requires Valid() && width >= 0.0
      modifies this`columns
      ensures Valid()
      ensures columns == Relayout(scale, old(columns), ColumnCount(width), ColumnWidth(width))
      ensures SameItems(columns, old(columns))
    {
      var wider := EmptyColumns(ColumnCount(width), ColumnWidth(width));
      ghost var blank := wider;
      RelayoutOk(scale, columns, ColumnCount(width), ColumnWidth(width));
      var items := Rows(columns, MaxRow(columns));
      for k := 0 to |items|
        invariant wider == PlaceAll(scale, blank, items[..k])
      {
        PlaceOneMore(scale, blank, items, k);
        wider := Place(scale, wider, items[k]);
      }
      assert items[..|items|] == items;
      columns := wider;
    }
  }
}
