/**
 * The page-merging core of the PDF parser: the layout-analysis result of a
 * document (its full text, its pages and its tables) becomes one Page per
 * analysed page, whose text is the page's characters with every table
 * replaced, where it first appears, by its HTML rendering.
 *
 * The analysis service itself is outside the model: its answer is the
 * AnalyzeResult value handed to ParseAsync, and the HTML entity encoder is
 * the parameter htmlEncode.
 */
module PdfParser {
  import opened Wrappers
  import opened Text
  import opened TableHtml

  /** A run of the document's text: start position and length. */
  datatype Span = Span(index: int, length: int)

  datatype AnalyzedPage = AnalyzedPage(spans: seq<Span>)

  datatype BoundingRegion = BoundingRegion(pageNumber: int)

  datatype Table = Table(boundingRegions: seq<BoundingRegion>, spans: seq<Span>, cells: seq<Cell>)

  /** What the layout model returns; a result may carry no table list at all. */
  datatype AnalyzeResult = AnalyzeResult(content: string, pages: seq<AnalyzedPage>, tables: Option<seq<Table>>)

  /** One page of output: its 1-based number, where its text starts, and its text. */
  datatype Page = Page(pageNum: int, offset: int, text: string)

  /** Where the page loop throws: no first span, a negative page length, text index out of range. */
  datatype ParseError = MissingPageSpan | NegativePageLength | ContentOutOfRange

  // ---------------------------------------------------------------------
  // Tables on a page
  // ---------------------------------------------------------------------

  predicate OnPage(t: Table, pageNumber: int)
  {
    exists k :: 0 <= k < |t.boundingRegions| && t.boundingRegions[k].pageNumber == pageNumber
  }

  /** The Where of the page loop: the tables on the page, in input order. */
  function Filter(tables: seq<Table>, pageNumber: int): (r: seq<Table>)
    ensures |r| <= |tables|
    ensures forall k :: 0 <= k < |r| ==> OnPage(r[k], pageNumber)
  {
    if tables == [] then []
    else Filter(tables[..|tables| - 1], pageNumber)
         + (if OnPage(tables[|tables| - 1], pageNumber) then [tables[|tables| - 1]] else [])
  }

  /** Filtering keeps exactly the tables on the page. */
  lemma {:induction false} FilterMembers(tables: seq<Table>, pageNumber: int)
    ensures forall t :: t in Filter(tables, pageNumber) <==> t in tables && OnPage(t, pageNumber)
  {
    if tables != [] {
      var init, last := tables[..|tables| - 1], tables[|tables| - 1];
      FilterMembers(init, pageNumber);
      assert tables == init + [last];
    }
  }

  /** Filtering keeps each table on the page as often as it occurs, and no other table. */
  lemma {:induction false} FilterCounts(tables: seq<Table>, pageNumber: int, t: Table)
    ensures multiset(Filter(tables, pageNumber))[t] == if OnPage(t, pageNumber) then multiset(tables)[t] else 0
  {
    if tables != [] {
      var init, last := tables[..|tables| - 1], tables[|tables| - 1];
      FilterCounts(init, pageNumber, t);
      assert tables == init + [last];
      assert multiset(tables) == multiset(init) + multiset{last};
    }
  }

  /** The tables with a bounding region on the given page, in document order; none when the list is absent. */
  function TablesOnPage(tables: Option<seq<Table>>, pageNumber: int): (r: seq<Table>)
    ensures tables.None? ==> r == []
    ensures tables.Some? ==> forall t :: t in r <==> t in tables.value && OnPage(t, pageNumber)
  {
    if tables.None? then [] else FilterMembers(tables.value, pageNumber); Filter(tables.value, pageNumber)
  }

  /** Filtering keeps the relative order of the tables it keeps. */
  lemma {:induction false} FilterKeepsOrder(tables: seq<Table>, pageNumber: int, i: int, j: int)
    requires 0 <= i < j < |Filter(tables, pageNumber)|
    ensures exists a, b :: 0 <= a < b < |tables| && tables[a] == Filter(tables, pageNumber)[i]
                                                && tables[b] == Filter(tables, pageNumber)[j]
  {
    var n := |tables|;
    var init := Filter(tables[..n - 1], pageNumber);
    var r := Filter(tables, pageNumber);
    assert r == init + (if OnPage(tables[n - 1], pageNumber) then [tables[n - 1]] else []);
    if j < |init| {
      FilterKeepsOrder(tables[..n - 1], pageNumber, i, j);
      var a, b :| 0 <= a < b < n - 1 && tables[..n - 1][a] == init[i] && tables[..n - 1][b] == init[j];
      assert tables[a] == r[i] && tables[b] == r[j];
    } else {
      assert r[j] == tables[n - 1] && r[i] == init[i];
      FilterMembers(tables[..n - 1], pageNumber);
      assert init[i] in tables[..n - 1];
      var a :| 0 <= a < n - 1 && tables[..n - 1][a] == init[i];
      assert tables[a] == r[i] && tables[n - 1] == r[j];
    }
  }

  /** When every table is on the page, all of them are kept, in order. */
  lemma {:induction false} FilterAllOnPage(tables: seq<Table>, pageNumber: int)
    requires forall k :: 0 <= k < |tables| ==> OnPage(tables[k], pageNumber)
    ensures Filter(tables, pageNumber) == tables
  {
    if tables != [] {
      var n := |tables|;
      var init := tables[..n - 1];
      assert forall k :: 0 <= k < |init| ==> init[k] == tables[k];
      FilterAllOnPage(init, pageNumber);
      assert OnPage(tables[n - 1], pageNumber);
      assert init + [tables[n - 1]] == tables;
    }
  }

  // ---------------------------------------------------------------------
  // Which table owns each character of the page
  // ---------------------------------------------------------------------

  /** Page-relative position p lies inside span s of a page starting at pageOffset. */
  predicate InSpan(s: Span, pageOffset: int, p: int)
  {
    s.index - pageOffset <= p < s.index - pageOffset + s.length
  }

  predicate CoveredBy(spans: seq<Span>, pageOffset: int, p: int)
  {
    exists k :: 0 <= k < |spans| && InSpan(spans[k], pageOffset, p)
  }

  lemma CoveredBySnoc(spans: seq<Span>, s: nat, pageOffset: int, p: int)
    requires s < |spans|
    ensures CoveredBy(spans[..s + 1], pageOffset, p)
            <==> CoveredBy(spans[..s], pageOffset, p) || InSpan(spans[s], pageOffset, p)
  {
    if CoveredBy(spans[..s + 1], pageOffset, p) {
      var k :| 0 <= k < s + 1 && InSpan(spans[..s + 1][k], pageOffset, p);
      if k < s {
        assert spans[..s][k] == spans[k];
      }
    }
    if CoveredBy(spans[..s], pageOffset, p) {
      var k :| 0 <= k < s && InSpan(spans[..s][k], pageOffset, p);
      assert spans[..s + 1][k] == spans[k];
    }
    if InSpan(spans[s], pageOffset, p) {
      assert spans[..s + 1][s] == spans[s];
    }
  }

  /**
   * The table that claims position p: the LAST table in the list one of whose
   * spans covers p (later tables overwrite earlier ones), or -1 for none.
   */
  function Owner(tables: seq<Table>, pageOffset: int, p: int): (r: int)
    ensures -1 <= r < |tables|
    ensures r == -1 <==> forall u :: 0 <= u < |tables| ==> !CoveredBy(tables[u].spans, pageOffset, p)
    ensures r >= 0 ==> CoveredBy(tables[r].spans, pageOffset, p)
    ensures r >= 0 ==> forall u :: r < u < |tables| ==> !CoveredBy(tables[u].spans, pageOffset, p)
  {
    if tables == [] then -1
    else if CoveredBy(tables[|tables| - 1].spans, pageOffset, p) then |tables| - 1
    else Owner(tables[..|tables| - 1], pageOffset, p)
  }

  function Owners(tables: seq<Table>, pageOffset: int, pageLength: nat): seq<int>
  {
    seq(pageLength, p requires 0 <= p < pageLength => Owner(tables, pageOffset, p))
  }

  /**
   * The first loop of a page: a fresh array of pageLength entries, all -1,
   * then for every table in turn, every span, every position of the span
   * inside the page is set to the table's index.
   */
  method MarkOwners(tables: seq<Table>, pageOffset: int, pageLength: nat) returns (tableChars: array<int>)
    ensures fresh(tableChars)
    ensures tableChars[..] == Owners(tables, pageOffset, pageLength)
  {
    tableChars := new int[pageLength](_ => -1);
    for tableId := 0 to |tables|
      invariant forall q :: 0 <= q < pageLength ==> tableChars[q] == Owner(tables[..tableId], pageOffset, q)
    {
      var spans := tables[tableId].spans;
      for s := 0 to |spans|
        invariant forall q :: 0 <= q < pageLength ==>
          tableChars[q] == if CoveredBy(spans[..s], pageOffset, q) then tableId else Owner(tables[..tableId], pageOffset, q)
      {
        var span := spans[s];
        var i := 0;
        while i < span.length
          invariant 0 <= i && (span.length >= 0 ==> i <= span.length) && (span.length < 0 ==> i == 0)
          invariant forall q :: 0 <= q < pageLength ==>
            tableChars[q] == if CoveredBy(spans[..s], pageOffset, q) || span.index - pageOffset <= q < span.index - pageOffset + i
                             then tableId else Owner(tables[..tableId], pageOffset, q)
        {
          var idx := span.index - pageOffset + i;
          if idx >= 0 && idx < pageLength {
            tableChars[idx] := tableId;
          }
          i := i + 1;
        }
        forall q | 0 <= q < pageLength
          ensures CoveredBy(spans[..s + 1], pageOffset, q)
                  <==> CoveredBy(spans[..s], pageOffset, q) || span.index - pageOffset <= q < span.index - pageOffset + i
        {
          CoveredBySnoc(spans, s, pageOffset, q);
        }
      }
      assert spans[..|spans|] == spans;
      assert tables[..tableId + 1][..tableId] == tables[..tableId];
    }
    assert tables[..|tables|] == tables;
  }

  // ---------------------------------------------------------------------
  // What the walk over the owners emits
  // ---------------------------------------------------------------------

  /** A piece of page text: the character at a page position, or a whole table. */
  datatype Piece = Raw(position: int) | TablePiece(tableId: int)

  /** The piece emitted at the last of the positions: a character, a table met for the first time, or nothing. */
  function NextPiece(prefix: seq<int>, owner: int): seq<Piece>
  {
    if owner == -1 then [Raw(|prefix|)]
    else if owner in prefix then []
    else [TablePiece(owner)]
  }

  /** The pieces the walk emits for the owners, in order. */
  function Pieces(owners: seq<int>): seq<Piece>
  {
    if owners == [] then []
    else Pieces(owners[..|owners| - 1]) + NextPiece(owners[..|owners| - 1], owners[|owners| - 1])
  }

  /** The HTML of each table, by index. */
  function TableHtmls(tables: seq<Table>, htmlEncode: string -> string): seq<string>
  {
    seq(|tables|, t requires 0 <= t < |tables| => TableHtmlOf(tables[t].cells, htmlEncode))
  }

  function PieceText(piece: Piece, content: string, pageOffset: int, tableHtmls: seq<string>): string
  {
    match piece
    case Raw(p) => if 0 <= pageOffset + p < |content| then [content[pageOffset + p]] else ""
    case TablePiece(t) => if 0 <= t < |tableHtmls| then tableHtmls[t] else ""
  }

  function Render(pieces: seq<Piece>, content: string, pageOffset: int, tableHtmls: seq<string>): string
  {
    if pieces == [] then ""
    else Render(pieces[..|pieces| - 1], content, pageOffset, tableHtmls)
         + PieceText(pieces[|pieces| - 1], content, pageOffset, tableHtmls)
  }

  /** Some position that no table owns lies outside the document's text. */
  predicate RawOutOfRange(owners: seq<int>, content: string, pageOffset: int)
  {
    exists p :: 0 <= p < |owners| && owners[p] == -1 && !(0 <= pageOffset + p < |content|)
  }

  /** The text of one page, or the error the page loop throws for it. */
  function PageTextOf(content: string, page: AnalyzedPage, tablesOnPage: seq<Table>, htmlEncode: string -> string): (r: Result<string, ParseError>)
    ensures r == Err(MissingPageSpan) <==> page.spans == []
    ensures r == Err(NegativePageLength) <==> page.spans != [] && page.spans[0].length < 0
    ensures r == Err(ContentOutOfRange) <==>
      page.spans != [] && page.spans[0].length >= 0 &&
      RawOutOfRange(Owners(tablesOnPage, page.spans[0].index, page.spans[0].length), content, page.spans[0].index)
  {
    if page.spans == [] then Err(MissingPageSpan)
    else if page.spans[0].length < 0 then Err(NegativePageLength)
    else
      var owners := Owners(tablesOnPage, page.spans[0].index, page.spans[0].length);
      if RawOutOfRange(owners, content, page.spans[0].index) then Err(ContentOutOfRange)
      else Ok(Render(Pieces(owners), content, page.spans[0].index, TableHtmls(tablesOnPage, htmlEncode)))
  }

  /** The text of the i-th analysed page, with the tables whose regions name page i + 1. */
  function PageTextAt(result: AnalyzeResult, i: nat, htmlEncode: string -> string): Result<string, ParseError>
    requires i < |result.pages|
  {
    PageTextOf(result.content, result.pages[i], TablesOnPage(result.tables, i + 1), htmlEncode)
  }

  // ---------------------------------------------------------------------
  // Properties of the pieces
  // ---------------------------------------------------------------------

  lemma PiecesSnoc(owners: seq<int>, k: nat)
    requires k < |owners|
    ensures Pieces(owners[..k + 1]) == Pieces(owners[..k]) + NextPiece(owners[..k], owners[k])
  {
    assert owners[..k + 1][..k] == owners[..k];
  }

  /** A table is emitted exactly when it owns at least one position. */
  lemma {:induction false} PiecesTables(owners: seq<int>, t: int)
    ensures TablePiece(t) in Pieces(owners) <==> t != -1 && t in owners
  {
    if owners != [] {
      var n := |owners|;
      var init := owners[..n - 1];
      PiecesTables(init, t);
      assert owners == init + [owners[n - 1]];
    }
  }

  /** A character is emitted exactly for each position no table owns. */
  lemma {:induction false} PiecesRaw(owners: seq<int>, p: int)
    ensures Raw(p) in Pieces(owners) <==> 0 <= p < |owners| && owners[p] == -1
  {
    if owners != [] {
      var n := |owners|;
      var init := owners[..n - 1];
      PiecesRaw(init, p);
      assert owners == init + [owners[n - 1]];
      if 0 <= p < n - 1 {
        assert owners[p] == init[p];
      }
    }
  }

  /** The first position a table owns. */
  function FirstIndex(owners: seq<int>, t: int): (i: nat)
    requires t in owners
    ensures i < |owners| && owners[i] == t && t !in owners[..i]
  {
    if owners[0] == t then 0
    else
      var i := 1 + FirstIndex(owners[1..], t);
      assert owners[..i] == [owners[0]] + owners[1..][..i - 1];
      i
  }

  /** Where a piece sits: its own position, or the first position of its table. */
  function Position(owners: seq<int>, piece: Piece): int
  {
    match piece
    case Raw(p) => p
    case TablePiece(t) => if t in owners then FirstIndex(owners, t) else -1
  }

  lemma FirstIndexSnoc(owners: seq<int>, x: int, t: int)
    requires t in owners
    ensures t in owners + [x] && FirstIndex(owners + [x], t) == FirstIndex(owners, t)
  {
    var i := FirstIndex(owners, t);
    assert (owners + [x])[i] == t;
  }

  /**
   * The pieces come in page order: strictly increasing positions, a table
   * placed at the first position it owns. In particular no piece, and so no
   * table, is emitted twice.
   */
  lemma {:induction false} PiecesInPageOrder(owners: seq<int>)
    ensures forall i :: 0 <= i < |Pieces(owners)| ==> 0 <= Position(owners, Pieces(owners)[i]) < |owners|
    ensures forall i, j :: 0 <= i < j < |Pieces(owners)| ==>
      Position(owners, Pieces(owners)[i]) < Position(owners, Pieces(owners)[j])
  {
    if owners != [] {
      var n := |owners|;
      var init := owners[..n - 1];
      var x := owners[n - 1];
      assert owners == init + [x];
      PiecesInPageOrder(init);
      var ps := Pieces(init);
      var all := Pieces(owners);
      assert all == ps + NextPiece(init, x);
      forall i | 0 <= i < |ps|
        ensures Position(owners, all[i]) == Position(init, ps[i])
      {
        assert all[i] == ps[i];
        if ps[i].TablePiece? {
          PiecesTables(init, ps[i].tableId);
          FirstIndexSnoc(init, x, ps[i].tableId);
        }
      }
      if x != -1 && x !in init {
        assert x in owners && owners[n - 1] == x && x !in owners[..n - 1];
        assert FirstIndex(owners, x) == n - 1;
      }
    }
  }

  lemma RenderSnoc(pieces: seq<Piece>, more: seq<Piece>, content: string, pageOffset: int, tableHtmls: seq<string>)
    requires |more| <= 1
    ensures Render(pieces + more, content, pageOffset, tableHtmls)
            == Render(pieces, content, pageOffset, tableHtmls)
               + (if more == [] then "" else PieceText(more[0], content, pageOffset, tableHtmls))
  {
    if more == [] {
      assert pieces + more == pieces;
    } else {
      assert (pieces + more)[..|pieces|] == pieces;
    }
  }

  /** A page no table touches is exactly its own stretch of the document's text. */
  lemma {:induction false} PageWithoutTables(owners: seq<int>, content: string, pageOffset: int, tableHtmls: seq<string>)
    requires forall p :: 0 <= p < |owners| ==> owners[p] == -1
    requires 0 <= pageOffset && pageOffset + |owners| <= |content|
    ensures Render(Pieces(owners), content, pageOffset, tableHtmls) == content[pageOffset..pageOffset + |owners|]
  {
    if owners != [] {
      var init := owners[..|owners| - 1];
      assert forall p :: 0 <= p < |init| ==> init[p] == owners[p];
      PageWithoutTables(init, content, pageOffset, tableHtmls);
      RawStep(owners, content, pageOffset, tableHtmls);
    } else {
      assert Render(Pieces(owners), content, pageOffset, tableHtmls) == [];
      assert content[pageOffset..pageOffset + |owners|] == [];
    }
  }

  /** A last position no table owns extends the rendered text by its own character. */
  lemma RawStep(owners: seq<int>, content: string, pageOffset: int, tableHtmls: seq<string>)
    requires owners != [] && owners[|owners| - 1] == -1
    requires 0 <= pageOffset && pageOffset + |owners| <= |content|
    requires Render(Pieces(owners[..|owners| - 1]), content, pageOffset, tableHtmls)
             == content[pageOffset..pageOffset + |owners| - 1]
    ensures Render(Pieces(owners), content, pageOffset, tableHtmls) == content[pageOffset..pageOffset + |owners|]
  {
    var n := |owners|;
    var pieces := Pieces(owners[..n - 1]);
    PiecesSnocRaw(owners);
    assert Render(pieces, content, pageOffset, tableHtmls) == content[pageOffset..pageOffset + n - 1];
    RenderRawSnoc(pieces, Pieces(owners), n, content, pageOffset, tableHtmls);
  }

  /** Rendering one more raw piece, for the next position, extends the text by that position's character. */
  lemma RenderRawSnoc(pieces: seq<Piece>, all: seq<Piece>, n: int, content: string, pageOffset: int, tableHtmls: seq<string>)
    requires 1 <= n && 0 <= pageOffset && pageOffset + n <= |content|
    requires all == pieces + [Raw(n - 1)]
    requires Render(pieces, content, pageOffset, tableHtmls) == content[pageOffset..pageOffset + n - 1]
    ensures Render(all, content, pageOffset, tableHtmls) == content[pageOffset..pageOffset + n]
  {
    RenderSnoc(pieces, [Raw(n - 1)], content, pageOffset, tableHtmls);
    assert PieceText(Raw(n - 1), content, pageOffset, tableHtmls) == [content[pageOffset + n - 1]];
    SliceSnoc(Render(all, content, pageOffset, tableHtmls), Render(pieces, content, pageOffset, tableHtmls), content, pageOffset, pageOffset + n);
  }

  /** A last position no table owns adds one raw character. */
  lemma PiecesSnocRaw(owners: seq<int>)
    requires owners != [] && owners[|owners| - 1] == -1
    ensures Pieces(owners) == Pieces(owners[..|owners| - 1]) + [Raw(|owners| - 1)]
  {
  }

  /** A string made of s[lo..hi - 1] and then s[hi - 1] is s[lo..hi]. */
  lemma SliceSnoc(r: string, before: string, s: string, lo: int, hi: int)
    requires 0 <= lo < hi <= |s|
    requires before == s[lo..hi - 1] && r == before + [s[hi - 1]]
    ensures r == s[lo..hi]
  {
    assert s[lo..hi] == s[lo..hi - 1] + [s[hi - 1]];
  }

  /** A single table piece renders as that table's HTML. */
  lemma RenderOneTable(t: nat, content: string, pageOffset: int, tableHtmls: seq<string>)
    requires t < |tableHtmls|
    ensures Render([] + [TablePiece(t)], content, pageOffset, tableHtmls) == tableHtmls[t]
  {
    RenderSnoc([], [TablePiece(t)], content, pageOffset, tableHtmls);
    assert "" + tableHtmls[t] == tableHtmls[t];
  }

  /** A page one table covers entirely is exactly that table's HTML. */
  lemma {:induction false} PageOfOneTable(owners: seq<int>, t: nat, content: string, pageOffset: int, tableHtmls: seq<string>)
    requires owners != [] && t < |tableHtmls|
    requires forall p :: 0 <= p < |owners| ==> owners[p] == t
    ensures Render(Pieces(owners), content, pageOffset, tableHtmls) == tableHtmls[t]
  {
    var n := |owners|;
    var init := owners[..n - 1];
    assert owners[n - 1] == t;
    if n == 1 {
      assert init == [] && Pieces(owners) == [] + [TablePiece(t)];
      RenderOneTable(t, content, pageOffset, tableHtmls);
    } else {
      PageOfOneTable(init, t, content, pageOffset, tableHtmls);
      assert init[0] == t;
      assert NextPiece(init, owners[n - 1]) == [];
      assert Pieces(owners) == Pieces(init) + [] == Pieces(init);
    }
  }

  // ---------------------------------------------------------------------
  // The walk and the page loop
  // ---------------------------------------------------------------------

  lemma WalkStep(owners: seq<int>, idx: nat, content: string, pageOffset: int, tableHtmls: seq<string>,
                 text: string, piece: string)
    requires idx < |owners|
    requires text == Render(Pieces(owners[..idx]), content, pageOffset, tableHtmls)
    requires piece == if owners[idx] == -1 then PieceText(Raw(idx), content, pageOffset, tableHtmls)
                      else if owners[idx] in owners[..idx] then ""
                      else PieceText(TablePiece(owners[idx]), content, pageOffset, tableHtmls)
    ensures text + piece == Render(Pieces(owners[..idx + 1]), content, pageOffset, tableHtmls)
  {
    PiecesSnoc(owners, idx);
    RenderSnoc(Pieces(owners[..idx]), NextPiece(owners[..idx], owners[idx]), content, pageOffset, tableHtmls);
  }

  /** The tables that own some of the positions. */
  function OwnedTables(owners: seq<int>): set<int>
  {
    set t | t in owners && t != -1
  }

  /** The set of tables already emitted, one position further on. */
  lemma OwnedTablesSnoc(owners: seq<int>, idx: nat)
    requires idx < |owners|
    ensures owners[idx] in OwnedTables(owners[..idx]) <==> owners[idx] != -1 && owners[idx] in owners[..idx]
    ensures OwnedTables(owners[..idx + 1])
            == if owners[idx] == -1 || owners[idx] in owners[..idx] then OwnedTables(owners[..idx])
               else OwnedTables(owners[..idx]) + {owners[idx]}
  {
    assert owners[..idx + 1] == owners[..idx] + [owners[idx]];
  }

  // ---------------------------------------------------------------------
  // Length of the merged text
  // ---------------------------------------------------------------------

  /** The positions of the page that no table owns. */
  function FreePositions(owners: seq<int>): set<int>
  {
    set p | 0 <= p < |owners| && owners[p] == -1
  }

  /** The total length of the HTML of the given tables. */
  ghost function HtmlLength(tables: set<int>, tableHtmls: seq<string>): nat
    decreases tables
  {
    if tables == {} then 0
    else
      NonEmptyHasMember(tables);
      var t :| t in tables;
      (if 0 <= t < |tableHtmls| then |tableHtmls[t]| else 0) + HtmlLength(tables - {t}, tableHtmls)
  }

  lemma NonEmptyHasMember(tables: set<int>)
    requires tables != {}
    ensures exists t :: t in tables
  {
    assert (forall t :: t !in tables) ==> tables == {};
  }

  /** The total may be taken apart at any of its tables. */
  lemma {:induction false} HtmlLengthRemove(tables: set<int>, t: int, tableHtmls: seq<string>)
    requires t in tables
    ensures HtmlLength(tables, tableHtmls)
            == (if 0 <= t < |tableHtmls| then |tableHtmls[t]| else 0) + HtmlLength(tables - {t}, tableHtmls)
    decreases tables
  {
    var u :| u in tables && HtmlLength(tables, tableHtmls)
      == (if 0 <= u < |tableHtmls| then |tableHtmls[u]| else 0) + HtmlLength(tables - {u}, tableHtmls);
    if u != t {
      HtmlLengthRemove(tables - {u}, t, tableHtmls);
      HtmlLengthRemove(tables - {t}, u, tableHtmls);
      assert tables - {u} - {t} == tables - {t} - {u};
    }
  }

  /**
   * The merged text of a page is one character per position no table owns
   * plus the whole HTML of each table that owns at least one position.
   */
  lemma {:induction false} MergedLength(owners: seq<int>, content: string, pageOffset: int, tableHtmls: seq<string>)
    requires !RawOutOfRange(owners, content, pageOffset)
    requires forall p :: 0 <= p < |owners| ==> -1 <= owners[p] < |tableHtmls|
    ensures |Render(Pieces(owners), content, pageOffset, tableHtmls)|
            == |FreePositions(owners)| + HtmlLength(OwnedTables(owners), tableHtmls)
  {
    if owners != [] {
      var n := |owners|;
      var init := owners[..n - 1];
      assert forall p :: 0 <= p < |init| ==> init[p] == owners[p];
      MergedLength(init, content, pageOffset, tableHtmls);
      assert owners[..n] == owners;
      MergedLengthStep(owners, n - 1, content, pageOffset, tableHtmls);
    } else {
      assert FreePositions(owners) == {};
      assert OwnedTables(owners) == {};
    }
  }

  /** One more position adds its character, the HTML of a table met for the first time, or nothing. */
  lemma MergedLengthStep(owners: seq<int>, idx: nat, content: string, pageOffset: int, tableHtmls: seq<string>)
    requires idx < |owners|
    requires owners[idx] == -1 ==> 0 <= pageOffset + idx < |content|
    requires -1 <= owners[idx] < |tableHtmls|
    requires |Render(Pieces(owners[..idx]), content, pageOffset, tableHtmls)|
             == |FreePositions(owners[..idx])| + HtmlLength(OwnedTables(owners[..idx]), tableHtmls)
    ensures |Render(Pieces(owners[..idx + 1]), content, pageOffset, tableHtmls)|
            == |FreePositions(owners[..idx + 1])| + HtmlLength(OwnedTables(owners[..idx + 1]), tableHtmls)
  {
    var init, t := owners[..idx], owners[idx];
    var piece := if t == -1 then PieceText(Raw(idx), content, pageOffset, tableHtmls)
                 else if t in init then ""
                 else PieceText(TablePiece(t), content, pageOffset, tableHtmls);
    WalkStep(owners, idx, content, pageOffset, tableHtmls, Render(Pieces(init), content, pageOffset, tableHtmls), piece);
    OwnedTablesSnoc(owners, idx);
    FreePositionsSnoc(owners, idx);
    if t != -1 && t !in init {
      HtmlLengthRemove(OwnedTables(owners[..idx + 1]), t, tableHtmls);
      assert OwnedTables(owners[..idx + 1]) - {t} == OwnedTables(init);
    }
  }

  /** One more position adds itself to the free positions exactly when no table owns it. */
  lemma FreePositionsSnoc(owners: seq<int>, idx: nat)
    requires idx < |owners|
    ensures |FreePositions(owners[..idx + 1])| == |FreePositions(owners[..idx])| + (if owners[idx] == -1 then 1 else 0)
  {
    var before, after := owners[..idx], owners[..idx + 1];
    var extra: set<int> := if owners[idx] == -1 then {idx} else {};
    forall p
      ensures p in FreePositions(after) <==> p in FreePositions(before) + extra
    {
      if 0 <= p < idx {
        assert after[p] == before[p];
      }
    }
    assert FreePositions(after) == FreePositions(before) + extra;
    assert idx !in FreePositions(before);
    assert FreePositions(before) * extra == {};
  }

  /** Every free position among the first k lies inside the document's text. */
  predicate RawInRange(owners: seq<int>, k: nat, content: string, pageOffset: int)
    requires k <= |owners|
  {
    k == 0 || (RawInRange(owners, k - 1, content, pageOffset)
               && (owners[k - 1] == -1 ==> 0 <= pageOffset + k - 1 < |content|))
  }

  lemma {:induction false} RawInRangeIff(owners: seq<int>, k: nat, content: string, pageOffset: int)
    requires k <= |owners|
    ensures RawInRange(owners, k, content, pageOffset) <==> !RawOutOfRange(owners[..k], content, pageOffset)
  {
    if k > 0 {
      RawInRangeIff(owners, k - 1, content, pageOffset);
      if RawOutOfRange(owners[..k], content, pageOffset) {
        var p :| 0 <= p < k && owners[..k][p] == -1 && !(0 <= pageOffset + p < |content|);
        if p < k - 1 {
          assert owners[..k - 1][p] == -1;
        }
      }
      if RawOutOfRange(owners[..k - 1], content, pageOffset) {
        var p :| 0 <= p < k - 1 && owners[..k - 1][p] == -1 && !(0 <= pageOffset + p < |content|);
        assert owners[..k][p] == -1;
      }
      if owners[k - 1] == -1 && !(0 <= pageOffset + k - 1 < |content|) {
        assert owners[..k][k - 1] == -1;
      }
    }
  }

  /** A free position outside the text makes every longer prefix fail too. */
  lemma {:induction false} RawInRangeFails(owners: seq<int>, idx: nat, k: nat, content: string, pageOffset: int)
    requires idx < k <= |owners| && owners[idx] == -1 && !(0 <= pageOffset + idx < |content|)
    ensures !RawInRange(owners, k, content, pageOffset)
  {
    if k > idx + 1 {
      RawInRangeFails(owners, idx, k - 1, content, pageOffset);
    }
  }

  /**
   * The second loop of a page: walk the owners; a free position appends the
   * document's character there, a table's first position appends the table's
   * HTML and records the table as added, later positions of it append nothing.
   */
  method MergePage(content: string, pageOffset: int, tableChars: array<int>, tablesOnPage: seq<Table>, htmlEncode: string -> string)
    returns (r: Result<string, ParseError>)
    requires forall q :: 0 <= q < tableChars.Length ==> -1 <= tableChars[q] < |tablesOnPage|
    ensures r.Err? <==> RawOutOfRange(tableChars[..], content, pageOffset)
    ensures r.Err? ==> r.error == ContentOutOfRange
    ensures r.Ok? ==> r.value == Render(Pieces(tableChars[..]), content, pageOffset, TableHtmls(tablesOnPage, htmlEncode))
  {
    ghost var owners := tableChars[..];
    ghost var tableHtmls := TableHtmls(tablesOnPage, htmlEncode);
    var pageText := "";
    var addedTables: set<int> := {};
    for idx := 0 to tableChars.Length
      invariant pageText == Render(Pieces(owners[..idx]), content, pageOffset, tableHtmls)
      invariant addedTables == OwnedTables(owners[..idx])
      invariant RawInRange(owners, idx, content, pageOffset)
    {
      var tableId := tableChars[idx];
      if tableId == -1 && !(0 <= pageOffset + idx < |content|) {
        RawInRangeIff(owners, tableChars.Length, content, pageOffset);
        RawInRangeFails(owners, idx, tableChars.Length, content, pageOffset);
        return Err(ContentOutOfRange);
      }
      pageText, addedTables := WalkPosition(content, pageOffset, owners, idx, tableId, tablesOnPage, htmlEncode, pageText, addedTables);
    }
    assert owners[..tableChars.Length] == owners;
    RawInRangeIff(owners, tableChars.Length, content, pageOffset);
    return Ok(pageText);
  }

  /**
   * One position of the walk: a position no table owns adds its character,
   * the first position of a table adds the table's HTML, any later position
   * of the same table adds nothing.
   */
  method WalkPosition(content: string, pageOffset: int, ghost owners: seq<int>, idx: nat, tableId: int,
                      tablesOnPage: seq<Table>, htmlEncode: string -> string, pageText: string, addedTables: set<int>)
    returns (pageText': string, addedTables': set<int>)
    requires idx < |owners| && owners[idx] == tableId && -1 <= tableId < |tablesOnPage|
    requires tableId == -1 ==> 0 <= pageOffset + idx < |content|
    requires pageText == Render(Pieces(owners[..idx]), content, pageOffset, TableHtmls(tablesOnPage, htmlEncode))
    requires addedTables == OwnedTables(owners[..idx])
    ensures pageText' == Render(Pieces(owners[..idx + 1]), content, pageOffset, TableHtmls(tablesOnPage, htmlEncode))
    ensures addedTables' == OwnedTables(owners[..idx + 1])
  {
    ghost var tableHtmls := TableHtmls(tablesOnPage, htmlEncode);
    OwnedTablesSnoc(owners, idx);
    addedTables' := addedTables;
    if tableId == -1 {
      var c := [content[pageOffset + idx]];
      WalkStep(owners, idx, content, pageOffset, tableHtmls, pageText, c);
      pageText' := pageText + c;
    } else if tableId !in addedTables {
      var html := TableToHtml(tablesOnPage[tableId].cells, htmlEncode);
      WalkStep(owners, idx, content, pageOffset, tableHtmls, pageText, html);
      pageText' := pageText + html;
      addedTables' := addedTables + {tableId};
    } else {
      WalkStep(owners, idx, content, pageOffset, tableHtmls, pageText, "");
      assert pageText + "" == pageText;
      pageText' := pageText;
    }
  }

  /** One iteration of the page loop: the page's tables, owners and text. */
  method ParsePage(result: AnalyzeResult, page: nat, htmlEncode: string -> string) returns (r: Result<string, ParseError>)
    requires page < |result.pages|
    ensures r == PageTextAt(result, page, htmlEncode)
  {
    var tablesOnPage := TablesOnPage(result.tables, page + 1);
    var pageContent := result.pages[page];
    if pageContent.spans == [] {
      return Err(MissingPageSpan);
    }
    var pageOffset := pageContent.spans[0].index;
    var pageLength := pageContent.spans[0].length;
    if pageLength < 0 {
      return Err(NegativePageLength);
    }
    var tableChars := MarkOwners(tablesOnPage, pageOffset, pageLength);
    r := MergePage(result.content, pageOffset, tableChars, tablesOnPage, htmlEncode);
  }

  /** The outcome of every analysed page, in order. */
  ghost function PageTexts(result: AnalyzeResult, htmlEncode: string -> string): (texts: seq<Result<string, ParseError>>)
    ensures |texts| == |result.pages|
    ensures forall i :: 0 <= i < |texts| ==> texts[i] == PageTextAt(result, i, htmlEncode)
  {
    seq(|result.pages|, i requires 0 <= i < |result.pages| => PageTextAt(result, i, htmlEncode))
  }

  /**
   * The pages delivered so far: numbered from 1, each holding the text of
   * its page, the first at offset 0 and each next one where the previous
   * one's text ended.
   */
  ghost predicate Delivered(texts: seq<Result<string, ParseError>>, pages: seq<Page>)
  {
    |pages| <= |texts| &&
    (forall i :: 0 <= i < |pages| ==> pages[i].pageNum == i + 1 && texts[i] == Ok(pages[i].text)) &&
    (|pages| > 0 ==> pages[0].offset == 0) &&
    (forall i :: 0 < i < |pages| ==> pages[i].offset == pages[i - 1].offset + |pages[i - 1].text|)
  }

  /** Where the text of the next page starts. */
  function NextOffset(pages: seq<Page>): int
  {
    if pages == [] then 0 else pages[|pages| - 1].offset + |pages[|pages| - 1].text|
  }

  /** Delivering the next page keeps the pages delivered so far as they were. */
  lemma DeliverNext(texts: seq<Result<string, ParseError>>, pages: seq<Page>, text: string)
    requires Delivered(texts, pages)
    requires |pages| < |texts| && texts[|pages|] == Ok(text)
    ensures Delivered(texts, pages + [Page(|pages| + 1, NextOffset(pages), text)])
    ensures NextOffset(pages + [Page(|pages| + 1, NextOffset(pages), text)]) == NextOffset(pages) + |text|
  {
    var next := pages + [Page(|pages| + 1, NextOffset(pages), text)];
    forall i | 0 <= i < |next|
      ensures next[i].pageNum == i + 1 && texts[i] == Ok(next[i].text)
    {
      if i < |pages| {
        assert next[i] == pages[i];
      }
    }
    forall i | 0 < i < |next|
      ensures next[i].offset == next[i - 1].offset + |next[i - 1].text|
    {
      if i < |pages| {
        assert next[i] == pages[i] && next[i - 1] == pages[i - 1];
      }
    }
  }

  /**
   * ParseAsync: the pages in order, numbered from 1, each starting where the
   * previous one's text ended. The source yields pages one by one and throws
   * at the first page that fails; the pages before it have been delivered,
   * so the model returns them together with the error.
   */
  method ParseAsync(result: AnalyzeResult, htmlEncode: string -> string) returns (pages: seq<Page>, error: Option<ParseError>)
    ensures error.None? ==> |pages| == |result.pages|
    ensures error.Some? ==> |pages| < |result.pages| && PageTextAt(result, |pages|, htmlEncode) == Err(error.value)
    ensures forall i :: 0 <= i < |pages| ==>
      pages[i].pageNum == i + 1 && PageTextAt(result, i, htmlEncode) == Ok(pages[i].text)
    ensures |pages| > 0 ==> pages[0].offset == 0
    ensures forall i :: 0 < i < |pages| ==> pages[i].offset == pages[i - 1].offset + |pages[i - 1].text|
  {
    ghost var texts := PageTexts(result, htmlEncode);
    pages := [];
    var offset := 0;
    for page := 0 to |result.pages|
      invariant |pages| == page
      invariant Delivered(texts, pages)
      invariant offset == NextOffset(pages)
    {
      var text := ParsePage(result, page, htmlEncode);
      if text.Err? {
        return pages, Some(text.error);
      }
      DeliverNext(texts, pages, text.value);
      pages := pages + [Page(page + 1, offset, text.value)];
      offset := offset + |text.value|;
    }
    error := None;
  }

  /** A page with no table on it and within the text is its stretch of the document's text. */
  lemma PageTextWithoutTables(result: AnalyzeResult, i: nat, htmlEncode: string -> string)
    requires i < |result.pages| && result.pages[i].spans != []
    requires TablesOnPage(result.tables, i + 1) == []
    requires var s := result.pages[i].spans[0]; 0 <= s.index && 0 <= s.length && s.index + s.length <= |result.content|
    ensures var s := result.pages[i].spans[0];
      PageTextAt(result, i, htmlEncode) == Ok(result.content[s.index..s.index + s.length])
  {
    var s := result.pages[i].spans[0];
    var owners := Owners([], s.index, s.length);
    assert forall p :: 0 <= p < |owners| ==> owners[p] == -1;
    assert !RawOutOfRange(owners, result.content, s.index);
    assert TableHtmls([], htmlEncode) == [];
    PageWithoutTables(owners, result.content, s.index, []);
    assert PageTextOf(result.content, result.pages[i], [], htmlEncode)
        == Ok(Render(Pieces(owners), result.content, s.index, []));
  }
}
