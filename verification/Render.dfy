/**
  The page tree of a publication (server/documentation/confluence_render.py): the root, one page per
  chapter, and one child page per block of rows of every large table. Pages are created parent first.
 */
module Render {
  import opened Basics
  import opened Text
  import PublicationJournal
  import PublicationLease

  const TABLE_PAGE_ROWS: nat := 100
  const MAX_PAGES: nat := 200
  const MAX_TITLE: nat := 255

  datatype Chapter = Chapter(id: string, caption: string)
  datatype Table = Table(id: string, title: string, chapter: string, rows: nat)
  datatype Page = Page(key: string, title: string, parentKey: Option<string>)
  datatype RenderError = NoChapters | TitleTooLong | TooManyPages | NotStorable

  predicate ParentsFirst(pages: seq<Page>) {
    forall i :: 0 <= i < |pages| && pages[i].parentKey.Some? ==>
      exists j :: 0 <= j < i && pages[j].key == pages[i].parentKey.value
  }

  lemma ChildAppended(pages: seq<Page>, child: Page, j: nat)
    requires ParentsFirst(pages) && j < |pages| && child.parentKey == Some(pages[j].key)
    ensures ParentsFirst(pages + [child])
  {
    var longer := pages + [child];
    forall i | 0 <= i < |longer| && longer[i].parentKey.Some?
      ensures exists q :: 0 <= q < i && longer[q].key == longer[i].parentKey.value
    {
      if i < |pages| {
        var q :| 0 <= q < i && pages[q].key == pages[i].parentKey.value;
        assert longer[q].key == longer[i].parentKey.value;
      } else {
        assert longer[j].key == longer[i].parentKey.value;
      }
    }
  }

  /** Child pages of a table: none when it fits its chapter, else one per started block of rows. */
  function Blocks(rows: nat): nat {
    if rows <= TABLE_PAGE_ROWS then 0 else (rows + TABLE_PAGE_ROWS - 1) / TABLE_PAGE_ROWS
  }

  lemma BlockCount(rows: nat, count: nat)
    requires TABLE_PAGE_ROWS < rows
    ensures count * TABLE_PAGE_ROWS < rows ==> count + 1 <= Blocks(rows) && count * TABLE_PAGE_ROWS / TABLE_PAGE_ROWS == count
    ensures rows <= count * TABLE_PAGE_ROWS < rows + TABLE_PAGE_ROWS ==> count == Blocks(rows)
  {
  }

  function AllBlocks(tables: seq<Table>): nat {
    if tables == [] then 0 else AllBlocks(tables[..|tables| - 1]) + Blocks(tables[|tables| - 1].rows)
  }

  lemma AllBlocksStep(tables: seq<Table>, i: nat)
    requires i < |tables|
    ensures AllBlocks(tables[..i + 1]) == AllBlocks(tables[..i]) + Blocks(tables[i].rows)
  {
    assert tables[..i + 1][..i] == tables[..i];
  }

  function ChapterPage(title: string, chapter: Chapter): Page {
    Page("chapter-" + chapter.id, title + " \U{2014} " + chapter.caption, Some("root"))
  }

  function ChildTitle(title: string, table: Table, n: nat): string {
    title + " \U{2014} " + table.title + " \U{B7} " + Numeral(n)
  }

  /** The n-th child page of a large table. */
  function ChildPage(title: string, table: Table, parentKey: string, n: nat): Page {
    Page("table-" + table.id + "-" + Numeral(n), ChildTitle(title, table, n), Some(parentKey))
  }

  function TargetKey(chapters: seq<Chapter>, chapterMap: map<string, string>, chapter: string): string
    requires chapters != []
  {
    var mapped := if chapter in chapterMap then chapterMap[chapter] else chapter;
    "chapter-" + if exists i :: 0 <= i < |chapters| && chapters[i].id == mapped then mapped else chapters[0].id
  }

  predicate ChaptersFit(title: string, chapters: seq<Chapter>) {
    |title| <= MAX_TITLE && forall i :: 0 <= i < |chapters| ==> |ChapterPage(title, chapters[i]).title| <= MAX_TITLE
  }

  predicate TitlesFit(title: string, table: Table, count: nat) {
    forall n :: 1 <= n <= count ==> |ChildTitle(title, table, n)| <= MAX_TITLE
  }

  predicate TableFits(title: string, table: Table) {
    TitlesFit(title, table, Blocks(table.rows))
  }

  /** The chapter page a table belongs to: its mapped chapter, or the first chapter. */
  method Target(chapters: seq<Chapter>, chapterMap: map<string, string>, chapter: string) returns (k: nat)
    requires chapters != []
    ensures k < |chapters| && "chapter-" + chapters[k].id == TargetKey(chapters, chapterMap, chapter)
  {
    var mapped := if chapter in chapterMap then chapterMap[chapter] else chapter;
    for i := 0 to |chapters|
      invariant forall j :: 0 <= j < i ==> chapters[j].id != mapped
    {
      if chapters[i].id == mapped { return i; }
    }
    return 0;
  }

  /** What every prefix of the page list satisfies. */
  predicate Growing(pages: seq<Page>, title: string, chapters: seq<Chapter>) {
    && 0 < |pages| && pages[0] == Page("root", title, None)
    && (forall i :: 0 < i < |pages| ==> pages[i].parentKey.Some?)
    && (forall i :: 0 < i < |pages| && i <= |chapters| ==> pages[i] == ChapterPage(title, chapters[i - 1]))
    && (forall i :: 0 <= i < |pages| ==> |pages[i].title| <= MAX_TITLE)
    && ParentsFirst(pages)
  }

  /** Pages with the first count children of the table appended. */
  predicate WithChildren(pages: seq<Page>, longer: seq<Page>, title: string, table: Table, parentKey: string, count: nat) {
    && pages <= longer && |longer| == |pages| + count
    && forall n :: 1 <= n <= count ==> longer[|pages| + n - 1] == ChildPage(title, table, parentKey, n)
  }

  /** The first count children are there, with titles that fit. */
  predicate Rendered(pages: seq<Page>, longer: seq<Page>, title: string, chapters: seq<Chapter>, table: Table,
                     parentKey: string, count: nat)
  {
    && Growing(longer, title, chapters)
    && WithChildren(pages, longer, title, table, parentKey, count)
    && TitlesFit(title, table, count)
  }

  lemma GrowsByChild(pages: seq<Page>, title: string, chapters: seq<Chapter>, child: Page, parent: nat)
    requires Growing(pages, title, chapters) && |chapters| < |pages| && parent < |pages|
    requires child.parentKey == Some(pages[parent].key) && |child.title| <= MAX_TITLE
    ensures Growing(pages + [child], title, chapters)
  {
    ChildAppended(pages, child, parent);
  }

  lemma PlacesChild(pages: seq<Page>, longer: seq<Page>, title: string, table: Table, parentKey: string, count: nat)
    requires WithChildren(pages, longer, title, table, parentKey, count)
    ensures WithChildren(pages, longer + [ChildPage(title, table, parentKey, count + 1)], title, table, parentKey, count + 1)
  {
  }

  lemma OneMoreChild(pages: seq<Page>, longer: seq<Page>, title: string, chapters: seq<Chapter>, table: Table, parent: nat,
                     count: nat)
    requires |chapters| < |pages| && parent < |pages|
    requires Rendered(pages, longer, title, chapters, table, pages[parent].key, count)
    requires |ChildTitle(title, table, count + 1)| <= MAX_TITLE
    ensures Rendered(pages, longer + [ChildPage(title, table, pages[parent].key, count + 1)], title, chapters, table,
                     pages[parent].key, count + 1)
  {
    var child := ChildPage(title, table, pages[parent].key, count + 1);
    GrowsByChild(longer, title, chapters, child, parent);
    PlacesChild(pages, longer, title, table, pages[parent].key, count);
  }

  /** The child pages of one large table, below the page at index parent. */
  method RenderTable(pages: seq<Page>, title: string, chapters: seq<Chapter>, table: Table, parent: nat)
    returns (r: Result<seq<Page>, RenderError>)
    requires Growing(pages, title, chapters) && |chapters| < |pages| && parent < |pages|
    ensures r.Ok? <==> TableFits(title, table)
    ensures r.Ok? ==> Growing(r.value, title, chapters)
    ensures r.Ok? ==> WithChildren(pages, r.value, title, table, pages[parent].key, Blocks(table.rows))
    ensures r.Err? ==> r.error == TitleTooLong
  {
    if table.rows <= TABLE_PAGE_ROWS { return Ok(pages); }
    var grown, offset := pages, 0;
    ghost var count := 0;
    while offset < table.rows
      invariant offset == count * TABLE_PAGE_ROWS && offset < table.rows + TABLE_PAGE_ROWS
      invariant Rendered(pages, grown, title, chapters, table, pages[parent].key, count)
    {
      BlockCount(table.rows, count);
      var child := ChildPage(title, table, pages[parent].key, offset / TABLE_PAGE_ROWS + 1);
      if |child.title| > MAX_TITLE { return Err(TitleTooLong); }
      OneMoreChild(pages, grown, title, chapters, table, parent, count);
      grown, offset, count := grown + [child], offset + TABLE_PAGE_ROWS, count + 1;
    }
    BlockCount(table.rows, count);
    return Ok(grown);
  }

  method RenderChapters(title: string, chapters: seq<Chapter>) returns (r: Result<seq<Page>, RenderError>)
    ensures r.Ok? <==> ChaptersFit(title, chapters)
    ensures r.Ok? ==> |r.value| == 1 + |chapters| && Growing(r.value, title, chapters)
    ensures r.Err? ==> r.error == TitleTooLong
  {
    if |title| > MAX_TITLE { return Err(TitleTooLong); }
    var pages := [Page("root", title, None)];
    for i := 0 to |chapters|
      invariant |pages| == 1 + i && Growing(pages, title, chapters)
      invariant forall j :: 0 <= j < i ==> |ChapterPage(title, chapters[j]).title| <= MAX_TITLE
    {
      var child := ChapterPage(title, chapters[i]);
      if |child.title| > MAX_TITLE { return Err(TitleTooLong); }
      ChildAppended(pages, child, 0);
      pages := pages + [child];
    }
    return Ok(pages);
  }

  /** The page that holds block n of table t stands after the pages of the earlier tables, below its chapter. */
  predicate HoldsBlock(pages: seq<Page>, title: string, chapters: seq<Chapter>, tables: seq<Table>,
                       chapterMap: map<string, string>, t: nat, n: nat)
    requires chapters != [] && t < |tables|
  {
    && |chapters| + AllBlocks(tables[..t]) + n < |pages|
    && pages[|chapters| + AllBlocks(tables[..t]) + n]
       == ChildPage(title, tables[t], TargetKey(chapters, chapterMap, tables[t].chapter), n)
  }

  method RenderTree(title: string, chapters: seq<Chapter>, tables: seq<Table>, chapterMap: map<string, string>)
    returns (r: Result<seq<Page>, RenderError>)
    ensures r.Ok? <==>
              && chapters != [] && ChaptersFit(title, chapters) && (forall t :: 0 <= t < |tables| ==> TableFits(title, tables[t]))
              && 1 + |chapters| + AllBlocks(tables) <= MAX_PAGES
    ensures r.Ok? ==> Growing(r.value, title, chapters) && |r.value| == 1 + |chapters| + AllBlocks(tables)
    ensures r.Ok? && chapters != [] ==> forall t, n :: 0 <= t < |tables| && 1 <= n <= Blocks(tables[t].rows) ==>
              HoldsBlock(r.value, title, chapters, tables, chapterMap, t, n)
    ensures r.Err? && r.error == NoChapters <==> chapters == []
    ensures r.Err? ==> r.error != NotStorable
  {
    if chapters == [] { return Err(NoChapters); }
    r := RenderChapters(title, chapters);
    if r.Err? { return; }
    for t := 0 to |tables|
      invariant r.Ok? && |r.value| == 1 + |chapters| + AllBlocks(tables[..t])
      invariant Growing(r.value, title, chapters)
      invariant forall u :: 0 <= u < t ==> TableFits(title, tables[u])
      invariant forall u, n :: 0 <= u < t && 1 <= n <= Blocks(tables[u].rows) ==>
                  HoldsBlock(r.value, title, chapters, tables, chapterMap, u, n)
    {
      AllBlocksStep(tables, t);
      var k := Target(chapters, chapterMap, tables[t].chapter);
      ghost var before := r.value;
      assert before[1 + k] == ChapterPage(title, chapters[k]);
      r := RenderTable(r.value, title, chapters, tables[t], 1 + k);
      if r.Err? { return; }
      KeepsBlocks(before, r.value, title, chapters, tables, chapterMap, t);
    }
    assert tables[..|tables|] == tables;
    if |r.value| > MAX_PAGES { return Err(TooManyPages); }
  }

  lemma KeepsBlocks(pages: seq<Page>, longer: seq<Page>, title: string, chapters: seq<Chapter>, tables: seq<Table>,
                    chapterMap: map<string, string>, t: nat)
    requires chapters != [] && t < |tables|
    requires |pages| == 1 + |chapters| + AllBlocks(tables[..t])
    requires forall u, n :: 0 <= u < t && 1 <= n <= Blocks(tables[u].rows) ==>
               HoldsBlock(pages, title, chapters, tables, chapterMap, u, n)
    requires WithChildren(pages, longer, title, tables[t], TargetKey(chapters, chapterMap, tables[t].chapter), Blocks(tables[t].rows))
    ensures forall u, n :: 0 <= u <= t && 1 <= n <= Blocks(tables[u].rows) ==>
              HoldsBlock(longer, title, chapters, tables, chapterMap, u, n)
  {
    forall u, n | 0 <= u <= t && 1 <= n <= Blocks(tables[u].rows)
      ensures HoldsBlock(longer, title, chapters, tables, chapterMap, u, n)
    {
      if u < t {
        assert HoldsBlock(pages, title, chapters, tables, chapterMap, u, n);
      } else {
        assert |chapters| + AllBlocks(tables[..t]) + n == |pages| + n - 1;
      }
    }
  }

  function BlockKey(table: Table, n: nat): string {
    ChildPage("", table, "", n).key
  }

  /** No page of the tree is among those whose markup does not parse. */
  predicate Storable(chapters: seq<Chapter>, tables: seq<Table>, unreadable: set<string>) {
    && "root" !in unreadable
    && (forall i :: 0 <= i < |chapters| ==> "chapter-" + chapters[i].id !in unreadable)
    && (forall t, n :: 0 <= t < |tables| && 1 <= n <= Blocks(tables[t].rows) ==> BlockKey(tables[t], n) !in unreadable)
  }

  /** The table and the block of the j-th table page. */
  lemma {:induction false} BlockAt(tables: seq<Table>, j: nat) returns (t: nat, n: nat)
    requires 1 <= j <= AllBlocks(tables)
    ensures t < |tables| && 1 <= n <= Blocks(tables[t].rows) && j == AllBlocks(tables[..t]) + n
    decreases |tables|
  {
    var last := |tables| - 1;
    if j <= AllBlocks(tables[..last]) {
      t, n := BlockAt(tables[..last], j);
      assert tables[..last][..t] == tables[..t];
    } else {
      t, n := last, j - AllBlocks(tables[..last]);
    }
  }

  lemma {:induction false} PagesStorableIff(pages: seq<Page>, title: string, chapters: seq<Chapter>, tables: seq<Table>,
                         chapterMap: map<string, string>, unreadable: set<string>)
    requires chapters != [] && Growing(pages, title, chapters) && |pages| == 1 + |chapters| + AllBlocks(tables)
    requires forall t, n :: 0 <= t < |tables| && 1 <= n <= Blocks(tables[t].rows) ==>
               HoldsBlock(pages, title, chapters, tables, chapterMap, t, n)
    ensures (forall i :: 0 <= i < |pages| ==> pages[i].key !in unreadable) <==> Storable(chapters, tables, unreadable)
  {
    if forall i :: 0 <= i < |pages| ==> pages[i].key !in unreadable {
      forall i | 0 <= i < |chapters| ensures "chapter-" + chapters[i].id !in unreadable {
        assert pages[i + 1] == ChapterPage(title, chapters[i]);
      }
      forall t, n | 0 <= t < |tables| && 1 <= n <= Blocks(tables[t].rows) ensures BlockKey(tables[t], n) !in unreadable {
        assert HoldsBlock(pages, title, chapters, tables, chapterMap, t, n);
      }
    }
    if Storable(chapters, tables, unreadable) {
      forall i | 0 <= i < |pages| ensures pages[i].key !in unreadable {
        if 0 < i <= |chapters| {
          assert pages[i] == ChapterPage(title, chapters[i - 1]);
        } else if |chapters| < i {
          var t, n := BlockAt(tables, i - |chapters|);
          assert HoldsBlock(pages, title, chapters, tables, chapterMap, t, n);
          assert BlockKey(tables[t], n) !in unreadable;
        }
      }
    }
  }

  /**
    Rendering succeeds exactly when there is a chapter, no title is too long, the tree is small enough
    and every page parses; unreadable names the pages whose markup does not. Every page then comes after
    its parent, and every block of a table is below its chapter.
   */
  method RenderPages(title: string, chapters: seq<Chapter>, tables: seq<Table>, chapterMap: map<string, string>,
                     unreadable: set<string>)
    returns (r: Result<seq<Page>, RenderError>)
    ensures r.Ok? <==>
              && chapters != [] && ChaptersFit(title, chapters) && (forall t :: 0 <= t < |tables| ==> TableFits(title, tables[t]))
              && 1 + |chapters| + AllBlocks(tables) <= MAX_PAGES && Storable(chapters, tables, unreadable)
    ensures r.Ok? ==> Growing(r.value, title, chapters) && |r.value| == 1 + |chapters| + AllBlocks(tables)
    ensures r.Ok? && chapters != [] ==> forall t, n :: 0 <= t < |tables| && 1 <= n <= Blocks(tables[t].rows) ==>
              HoldsBlock(r.value, title, chapters, tables, chapterMap, t, n)
    ensures r.Err? && r.error == NoChapters <==> chapters == []
  {
    r := RenderTree(title, chapters, tables, chapterMap);
    if r.Err? { return; }
    PagesStorableIff(r.value, title, chapters, tables, chapterMap, unreadable);
    for i := 0 to |r.value|
      invariant forall j :: 0 <= j < i ==> r.value[j].key !in unreadable
    {
      if r.value[i].key in unreadable { return Err(NotStorable); }
    }
  }

  // ------------------------------------------------------------------ keys

  /** Chapter ids are distinct, and so are table ids. */
  predicate IdsDistinct(chapters: seq<Chapter>, tables: seq<Table>) {
    && (forall i, j :: 0 <= i < j < |chapters| ==> chapters[i].id != chapters[j].id)
    && (forall s, t :: 0 <= s < t < |tables| ==> tables[s].id != tables[t].id)
  }

  /** The numeral after the last hyphen is the number of the block. */
  lemma SplitsAtHyphen(a: string, m: nat, b: string, n: nat)
    requires a + "-" + Numeral(m) == b + "-" + Numeral(n)
    ensures a == b && m == n
  {
    var x, y := Numeral(m), Numeral(n);
    var whole := a + "-" + x;
    assert whole[|a|] == '-' && whole[|b|] == '-';
    assert forall i :: |a| < i < |whole| ==> whole[i] == x[i - |a| - 1] && whole[i] != '-';
    assert forall i :: |b| < i < |whole| ==> whole[i] == y[i - |b| - 1] && whole[i] != '-';
    assert |a| == |b|;
    assert whole[..|a|] == a && whole[..|b|] == b && whole[|a| + 1..] == x && whole[|b| + 1..] == y;
    NumeralValue(m);
    NumeralValue(n);
  }

  lemma BlockKeysDiffer(s: Table, m: nat, t: Table, n: nat)
    requires ChildPage("", s, "", m).key == ChildPage("", t, "", n).key
    ensures s.id == t.id && m == n
  {
    var a, b := "table-" + s.id, "table-" + t.id;
    assert a + "-" + Numeral(m) == ChildPage("", s, "", m).key && b + "-" + Numeral(n) == ChildPage("", t, "", n).key;
    SplitsAtHyphen(a, m, b, n);
    assert a[6..] == s.id && b[6..] == t.id;
  }

  /** Which page stands at an index. */
  predicate KeyAt(chapters: seq<Chapter>, tables: seq<Table>, i: nat, key: string) {
    if i == 0 then key == "root"
    else if i <= |chapters| then key == "chapter-" + chapters[i - 1].id
    else exists t, n :: 0 <= t < |tables| && 1 <= n <= Blocks(tables[t].rows) && i == |chapters| + AllBlocks(tables[..t]) + n
                        && key == BlockKey(tables[t], n)
  }

  lemma {:induction false} KeyIs(pages: seq<Page>, title: string, chapters: seq<Chapter>, tables: seq<Table>, chapterMap: map<string, string>, i: nat)
    requires chapters != [] && Growing(pages, title, chapters) && |pages| == 1 + |chapters| + AllBlocks(tables) && i < |pages|
    requires forall t, n :: 0 <= t < |tables| && 1 <= n <= Blocks(tables[t].rows) ==>
               HoldsBlock(pages, title, chapters, tables, chapterMap, t, n)
    ensures KeyAt(chapters, tables, i, pages[i].key)
  {
    if |chapters| < i {
      var t, n := BlockAt(tables, i - |chapters|);
      assert HoldsBlock(pages, title, chapters, tables, chapterMap, t, n);
      assert pages[i].key == BlockKey(tables[t], n);
    }
  }

  lemma {:induction false} KeysDiffer(chapters: seq<Chapter>, tables: seq<Table>, i: nat, j: nat, a: string, b: string)
    requires IdsDistinct(chapters, tables) && i < j && KeyAt(chapters, tables, i, a) && KeyAt(chapters, tables, j, b)
    ensures a != b
  {
    if i == 0 {
      assert a[0] == 'r' && b[0] != 'r';
    } else if j <= |chapters| {
      assert a[8..] == chapters[i - 1].id && b[8..] == chapters[j - 1].id;
    } else if i <= |chapters| {
      assert a[0] == 'c' && b[0] == 't';
    } else {
      var s, m :| 0 <= s < |tables| && 1 <= m <= Blocks(tables[s].rows) && i == |chapters| + AllBlocks(tables[..s]) + m
                  && a == BlockKey(tables[s], m);
      var t, n :| 0 <= t < |tables| && 1 <= n <= Blocks(tables[t].rows) && j == |chapters| + AllBlocks(tables[..t]) + n
                  && b == BlockKey(tables[t], n);
      if a == b { BlockKeysDiffer(tables[s], m, tables[t], n); }
    }
  }

  /** No two pages of a tree have the same key, so a journal step finds its page by key. */
  lemma {:induction false} PageKeysDistinct(pages: seq<Page>, title: string, chapters: seq<Chapter>, tables: seq<Table>, chapterMap: map<string, string>,
                         i: nat, j: nat)
    requires IdsDistinct(chapters, tables) && chapters != [] && Growing(pages, title, chapters)
    requires |pages| == 1 + |chapters| + AllBlocks(tables)
    requires forall t, n :: 0 <= t < |tables| && 1 <= n <= Blocks(tables[t].rows) ==>
               HoldsBlock(pages, title, chapters, tables, chapterMap, t, n)
    requires i < j < |pages|
    ensures pages[i].key != pages[j].key
  {
    KeyIs(pages, title, chapters, tables, chapterMap, i);
    KeyIs(pages, title, chapters, tables, chapterMap, j);
    KeysDiffer(chapters, tables, i, j, pages[i].key, pages[j].key);
  }

  /** A plan over rendered pages satisfies what the publication protocol relies on. */
  lemma RenderedPlan(plan: PublicationJournal.Plan, pages: seq<Page>)
    requires ParentsFirst(pages) && |plan.pages| == |pages|
    requires forall i :: 0 <= i < |pages| ==>
               plan.pages[i].key == pages[i].key && plan.pages[i].parentKey == pages[i].parentKey
    ensures PublicationLease.ParentFirst(plan)
  {
    forall p | 0 <= p < |plan.pages| && plan.pages[p].parentKey.Some?
      ensures exists q :: 0 <= q < p && plan.pages[q].key == plan.pages[p].parentKey.value
    {
      var j :| 0 <= j < p && pages[j].key == pages[p].parentKey.value;
      assert plan.pages[j].key == plan.pages[p].parentKey.value;
    }
  }
}
