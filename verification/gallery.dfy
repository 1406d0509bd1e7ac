/**
 The gallery page (frontend-app/app.py): the configuration guard, the fixed query
 over the results table, and the three-column grid.

 The warehouse is not queried: its table is supplied as a value, and the query's
 WHERE / ORDER BY / LIMIT clauses are evaluated over it here. The `processed_at`
 column is modelled by an integer key that orders rows as the warehouse does.
 */
module Gallery {
  import opened Optional
  import opened Strings

  /** The `LIKE` pattern prefix that marks a failed image URL. */
  const ErrorPrefix := "Error"
  /** The query's `LIMIT`. */
  const Limit := 20
  /** The number of grid columns. */
  const ColumnCount := 3
  const ConfigMessage := "Missing environment variables. Please check your deployment."
  const QueryMessagePrefix := "Error connecting to BigQuery: "

  /** A row of the results table, as far as the page reads it. */
  datatype TableRow = TableRow(
    productName: string,
    keywords: string,
    generatedContent: string,
    generatedImageUrl: Option<string>,
    processedAt: int)

  /** A row of the query's result: the four selected columns. */
  datatype Card = Card(productName: string, keywords: string, generatedContent: string, generatedImageUrl: Option<string>)

  /** The WHERE clause: a non-null URL that does not match `'Error%'`. */
  predicate Displayable(r: TableRow) {
    r.generatedImageUrl.Some? && !StartsWith(r.generatedImageUrl.value, ErrorPrefix)
  }

  /** The rows that pass the WHERE clause, in table order. */
  function Displayables(rows: seq<TableRow>): (f: seq<TableRow>)
    ensures forall i :: 0 <= i < |f| ==> Displayable(f[i])
    ensures forall r :: Displayable(r) ==> multiset(f)[r] == multiset(rows)[r]
    ensures forall r :: !Displayable(r) ==> multiset(f)[r] == 0
  {
    if rows == [] then []
    else
      var rest := Displayables(rows[1..]);
      assert rows == [rows[0]] + rows[1..];
      assert multiset(rows) == multiset{rows[0]} + multiset(rows[1..]);
      if Displayable(rows[0]) then [rows[0]] + rest else rest
  }

  /** No row of `s` is newer than `t`. */
  predicate NoNewerThan(s: seq<TableRow>, t: int) {
    forall k :: 0 <= k < |s| ==> s[k].processedAt <= t
  }

  /** A sequence holding the rows of `b` and one more row `x`, none newer than `t`, is no newer than `t`. */
  lemma SameRowsNoNewer(a: seq<TableRow>, b: seq<TableRow>, x: TableRow, t: int)
    requires multiset(a) == multiset(b) + multiset{x} && NoNewerThan(b, t) && x.processedAt <= t
    ensures NoNewerThan(a, t)
  {
    forall k | 0 <= k < |a| ensures a[k].processedAt <= t {
      assert a[k] in multiset(a);
      if a[k] != x {
        assert a[k] in multiset(b);
        var m :| 0 <= m < |b| && b[m] == a[k];
      }
    }
  }

  /** Newest first: `processed_at` never increases along the sequence. */
  predicate NewestFirst(s: seq<TableRow>) {
    forall i, j :: 0 <= i < j < |s| ==> s[i].processedAt >= s[j].processedAt
  }

  /** A row no older than everything in a newest-first sequence can go in front of it. */
  lemma NewerInFront(y: TableRow, s: seq<TableRow>)
    requires NewestFirst(s) && NoNewerThan(s, y.processedAt)
    ensures NewestFirst([y] + s)
  {
    var t := [y] + s;
    forall i, j | 0 <= i < j < |t| ensures t[i].processedAt >= t[j].processedAt {
      assert t[j] == s[j - 1];
      if i > 0 {
        assert t[i] == s[i - 1];
      }
    }
  }

  /** In a newest-first sequence no row is newer than the first, nor than anything at least as new. */
  lemma HeadIsNewest(s: seq<TableRow>, t: int)
    requires NewestFirst(s) && s != [] && s[0].processedAt <= t
    ensures NoNewerThan(s, t) && NoNewerThan(s[1..], t) && NewestFirst(s[1..])
  {
    assert forall k :: 0 < k < |s| ==> s[0].processedAt >= s[k].processedAt;
    assert forall k :: 0 <= k < |s| - 1 ==> s[1..][k] == s[k + 1];
  }

  /** Places `x` into the newest-first sequence `s` after every row at least as new. */
  function InsertByRecency(x: TableRow, s: seq<TableRow>): (r: seq<TableRow>)
    requires NewestFirst(s)
    ensures NewestFirst(r)
    ensures multiset(r) == multiset(s) + multiset{x}
    ensures |r| == |s| + 1
  {
    if s == [] then [x]
    else if x.processedAt > s[0].processedAt then
      HeadIsNewest(s, x.processedAt);
      NewerInFront(x, s);
      [x] + s
    else
      var tail := s[1..];
      HeadIsNewest(s, s[0].processedAt);
      var rest := InsertByRecency(x, tail);
      SameRowsNoNewer(rest, tail, x, s[0].processedAt);
      NewerInFront(s[0], rest);
      assert s == [s[0]] + tail;
      assert multiset([s[0]] + rest) == multiset{s[0]} + multiset(rest);
      [s[0]] + rest
  }

  /** The ORDER BY clause: the same rows, newest first. */
  function SortByRecency(rows: seq<TableRow>): (s: seq<TableRow>)
    ensures NewestFirst(s)
    ensures multiset(s) == multiset(rows)
    ensures |s| == |rows|
  {
    if rows == [] then []
    else
      assert rows == [rows[0]] + rows[1..];
      InsertByRecency(rows[0], SortByRecency(rows[1..]))
  }

  /** The rows the query returns: WHERE, then ORDER BY `processed_at` DESC, then LIMIT 20. */
  function Selected(rows: seq<TableRow>): (sel: seq<TableRow>)
    ensures |sel| == Min(Limit, |Displayables(rows)|)
    ensures forall i :: 0 <= i < |sel| ==> Displayable(sel[i])
    ensures NewestFirst(sel)
    ensures multiset(sel) <= multiset(Displayables(rows))
  {
    var sorted := SortByRecency(Displayables(rows));
    var n := Min(Limit, |sorted|);
    PrefixKeepsOrder(sorted, n);
    sorted[..n]
  }

  /** A prefix of a newest-first sequence is newest first and holds some of its rows. */
  lemma PrefixKeepsOrder(s: seq<TableRow>, n: nat)
    requires NewestFirst(s) && n <= |s|
    ensures NewestFirst(s[..n]) && multiset(s[..n]) <= multiset(s)
  {
    assert s == s[..n] + s[n..];
    assert multiset(s) == multiset(s[..n]) + multiset(s[n..]);
  }

  /**
   The selection is the newest displayable rows: every displayable row left out is no
   newer than any row selected, and a row is left out only once 20 rows are selected.
   */
  lemma {:induction false} SelectedAreNewest(rows: seq<TableRow>, x: TableRow)
    ensures Displayable(x) && multiset(Selected(rows))[x] < multiset(rows)[x] ==>
      && |Selected(rows)| == Limit
      && forall i :: 0 <= i < |Selected(rows)| ==> x.processedAt <= Selected(rows)[i].processedAt
  {
    if !(Displayable(x) && multiset(Selected(rows))[x] < multiset(rows)[x]) {
      return;
    }
    var sorted := SortByRecency(Displayables(rows));
    var n := Min(Limit, |sorted|);
    var sel := Selected(rows);
    assert sel == sorted[..n];
    assert multiset(sorted)[x] == multiset(rows)[x];
    var k := LeftOutIsInTail(sorted, n, x);
    forall i | 0 <= i < |sel|
      ensures x.processedAt <= sel[i].processedAt
    {
      assert sel[i] == sorted[i];
    }
  }

  /** A row occurring more often in a sequence than in its first n elements occurs past them. */
  lemma LeftOutIsInTail(s: seq<TableRow>, n: nat, x: TableRow) returns (k: nat)
    requires n <= |s| && multiset(s[..n])[x] < multiset(s)[x]
    ensures n <= k < |s| && s[k] == x
  {
    assert s == s[..n] + s[n..];
    assert multiset(s) == multiset(s[..n]) + multiset(s[n..]);
    assert x in multiset(s[n..]);
    var j :| 0 <= j < |s[n..]| && s[n..][j] == x;
    k := n + j;
  }

  function CardOf(r: TableRow): Card {
    Card(r.productName, r.keywords, r.generatedContent, r.generatedImageUrl)
  }

  /** The query's result set: the selected rows, projected onto the four selected columns. */
  function QueryResult(rows: seq<TableRow>): seq<Card> {
    CardsOf(Selected(rows))
  }

  /** The selected rows projected, one card per row and in the same order, onto the selected columns. */
  function CardsOf(sel: seq<TableRow>): seq<Card> {
    seq(|sel|, i requires 0 <= i < |sel| => CardOf(sel[i]))
  }

  /** A card whose image URL is non-null and does not start with "Error". */
  predicate ShowsImage(c: Card) {
    c.generatedImageUrl.Some? && !StartsWith(c.generatedImageUrl.value, ErrorPrefix)
  }

  /** Every card of the result set carries a usable image URL. */
  lemma QueryResultShowsImages(rows: seq<TableRow>, i: nat)
    requires i < |QueryResult(rows)|
    ensures ShowsImage(QueryResult(rows)[i])
  {
    var sel := Selected(rows);
    assert Displayable(sel[i]);
  }

  /** What one result shows: a subheader, the picture when its URL is non-empty, a keywords line, the copy. */
  datatype Tile = Tile(title: string, picture: Option<string>, keywordsLine: string, copy: string)

  const KeywordsLabel := "**Keywords:** "

  function TileOf(c: Card): Tile {
    Tile(c.productName,
         if Present(c.generatedImageUrl) then c.generatedImageUrl else None,
         KeywordsLabel + c.keywords,
         c.generatedContent)
  }

  function Tiles(cards: seq<Card>): seq<Tile> {
    seq(|cards|, i requires 0 <= i < |cards| => TileOf(cards[i]))
  }

  /**
   A result whose URL passes the WHERE clause shows a picture exactly when the URL is
   non-empty: an empty URL is selected but draws no image.
   */
  lemma PictureIffNonEmptyUrl(c: Card)
    requires ShowsImage(c)
    ensures TileOf(c).picture.Some? <==> c.generatedImageUrl.value != ""
    ensures TileOf(c).picture.Some? ==> TileOf(c).picture == c.generatedImageUrl
  {
  }

  /** The grid column of the i-th result. */
  function ColumnOf(i: nat): (c: nat)
    ensures c < ColumnCount
  {
    i % ColumnCount
  }

  /** The grid: each result, in order, is appended to column `i % ColumnCount`. */
  function Layout<T>(cards: seq<T>): (g: seq<seq<T>>)
    ensures |g| == ColumnCount
  {
    if cards == [] then [[], [], []]
    else
      var i := |cards| - 1;
      var g := Layout(cards[..i]);
      g[ColumnOf(i) := g[ColumnOf(i)] + [cards[i]]]
  }

  /** How many of n results land in column c. */
  function ColumnLength(n: nat, c: nat): nat
    requires c < ColumnCount
  {
    (n + ColumnCount - 1 - c) / ColumnCount
  }

  /** Column c holds results c, c + 3, c + 6, ... in that order, and nothing else. */
  lemma {:induction false} LayoutColumns<T>(cards: seq<T>)
    ensures var g := Layout(cards);
      forall c :: 0 <= c < ColumnCount ==>
        |g[c]| == ColumnLength(|cards|, c) &&
        forall j :: 0 <= j < |g[c]| ==> ColumnCount * j + c < |cards| && g[c][j] == cards[ColumnCount * j + c]
    decreases |cards|
  {
    if cards != [] {
      var i := |cards| - 1;
      var prefix := cards[..i];
      LayoutColumns(prefix);
      var g0 := Layout(prefix);
      var g := Layout(cards);
      forall c | 0 <= c < ColumnCount
        ensures |g[c]| == ColumnLength(|cards|, c)
        ensures forall j :: 0 <= j < |g[c]| ==> ColumnCount * j + c < |cards| && g[c][j] == cards[ColumnCount * j + c]
      {
        assert |g0[c]| == ColumnLength(i, c);
        assert forall j :: 0 <= j < |g0[c]| ==> ColumnCount * j + c < i && g0[c][j] == prefix[ColumnCount * j + c];
        if c == i % ColumnCount {
          assert g[c] == g0[c] + [cards[i]];
          assert |g0[c]| == i / ColumnCount;
          forall j | 0 <= j < |g[c]| ensures ColumnCount * j + c < |cards| && g[c][j] == cards[ColumnCount * j + c] {
            if j < |g0[c]| {
              assert g[c][j] == g0[c][j] == prefix[ColumnCount * j + c];
            } else {
              assert ColumnCount * j + c == i;
            }
          }
        } else {
          assert g[c] == g0[c];
          forall j | 0 <= j < |g[c]| ensures ColumnCount * j + c < |cards| && g[c][j] == cards[ColumnCount * j + c] {
            assert g0[c][j] == prefix[ColumnCount * j + c];
          }
        }
      }
    }
  }

  /** The columns partition the results: their lengths add up to the number of results. */
  lemma LayoutPartitions<T>(cards: seq<T>)
    ensures var g := Layout(cards);
      |g[0]| + |g[1]| + |g[2]| == |cards|
  {
    LayoutColumns(cards);
  }

  /** Result i sits in column i % ColumnCount, at row i / ColumnCount. */
  lemma LayoutPlacesEachCard<T>(cards: seq<T>, i: nat)
    requires i < |cards|
    ensures var g := Layout(cards);
      i / ColumnCount < |g[ColumnOf(i)]| && g[ColumnOf(i)][i / ColumnCount] == cards[i]
  {
    LayoutColumns(cards);
  }

  /** The three configuration values that name the table. */
  datatype GalleryConfig = GalleryConfig(projectId: Option<string>, dataset: Option<string>, table: Option<string>)

  /**
   What the warehouse does with the query: hands over the table, or raises. A client
   that cannot be constructed raises the same way, before any query is issued.
   */
  datatype QueryReply = TableContents(rows: seq<TableRow>) | QueryFails(message: string)

  datatype Page =
    | ConfigError(message: string)
    | QueryError(message: string)
    | Grid(columns: seq<seq<Tile>>)

  /**
   The page: the caption naming the table (shown on every render, even when a value is
   missing), the table the page would query once configured, and the body.
   */
  datatype View = View(caption: string, queried: Option<string>, page: Page)

  predicate Configured(cfg: GalleryConfig) {
    Present(cfg.projectId) && Present(cfg.dataset) && Present(cfg.table)
  }

  /** The table reference as the page formats it; a missing value prints as None. */
  function TableRef(cfg: GalleryConfig): string {
    Show(cfg.projectId) + "." + Show(cfg.dataset) + "." + Show(cfg.table)
  }

  const CaptionOpening := "Displaying results from BigQuery table: `"

  function Caption(cfg: GalleryConfig): string {
    CaptionOpening + TableRef(cfg) + "`"
  }

  /** One render of the page, given what the warehouse does with the query. */
  function Render(cfg: GalleryConfig, reply: QueryReply): (v: View)
    ensures v.caption == Caption(cfg)
    ensures !Configured(cfg) <==> v.page.ConfigError?
    ensures v.queried.None? <==> !Configured(cfg)
    ensures Configured(cfg) ==> v.queried == Some(TableRef(cfg))
    ensures v.page.QueryError? <==> Configured(cfg) && reply.QueryFails?
    ensures v.page.Grid? ==> |v.page.columns| == ColumnCount
  {
    if !Configured(cfg) then View(Caption(cfg), None, ConfigError(ConfigMessage))
    else
      match reply
      case QueryFails(e) => View(Caption(cfg), Some(TableRef(cfg)), QueryError(QueryMessagePrefix + e))
      case TableContents(rows) => View(Caption(cfg), Some(TableRef(cfg)), Grid(Layout(Tiles(QueryResult(rows)))))
  }

  /** When the configuration is incomplete, what the warehouse would answer makes no difference. */
  lemma NoQueryWithoutConfig(cfg: GalleryConfig, reply1: QueryReply, reply2: QueryReply)
    requires !Configured(cfg)
    ensures Render(cfg, reply1) == Render(cfg, reply2) == View(Caption(cfg), None, ConfigError(ConfigMessage))
  {
  }

  /** A failing query shows one error message carrying the exception text, and no grid. */
  lemma QueryFailureShowsOneMessage(cfg: GalleryConfig, e: string)
    requires Configured(cfg)
    ensures Render(cfg, QueryFails(e)).page == QueryError(QueryMessagePrefix + e)
  {
  }

  /**
   A successful render shows the query's results, at most 20, over three columns:
   result i in column i % ColumnCount at row i / ColumnCount, each with a non-null URL not starting with "Error".
   */
  lemma GridShowsQueryResult(cfg: GalleryConfig, rows: seq<TableRow>, i: nat)
    requires Configured(cfg) && i < |QueryResult(rows)|
    ensures var cols := Render(cfg, TableContents(rows)).page.columns;
      var cards := QueryResult(rows);
      && |cols[0]| + |cols[1]| + |cols[2]| == |cards| <= Limit
      && |cards| == |Selected(rows)|
      && i / ColumnCount < |cols[ColumnOf(i)]|
      && cols[ColumnOf(i)][i / ColumnCount] == TileOf(cards[i])
      && cards[i] == CardOf(Selected(rows)[i])
      && ShowsImage(cards[i])
  {
    var cards := QueryResult(rows);
    var tiles := Tiles(cards);
    var cols := Layout(tiles);
    assert Render(cfg, TableContents(rows)).page == Grid(cols);
    LayoutPartitions(tiles);
    LayoutPlacesEachCard(tiles, i);
    QueryResultShowsImages(rows, i);
  }
}
