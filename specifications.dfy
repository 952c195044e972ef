/** The `specifications` block (blocks/specifications/specifications.js): the first
    authored row describes the container, every further row becomes a tab and an
    article, and clicking a tab moves the `active` class. */
module Specifications {
  import opened Outcome
  import opened Text

  // ---------------------------------------------------------------------------
  // Authored content

  /** A paragraph: its text, and whether it holds a `picture`. */
  datatype Paragraph = Paragraph(text: string, hasPicture: bool)

  /** A column of an authored row (a child element of the row); `paragraphs` are
      its `p` descendants in document order. */
  datatype Column = Column(paragraphs: seq<Paragraph>)

  /** An authored row: its columns. */
  type Row = seq<Column>

  /** The `TypeError`s the block throws when a part it dereferences is missing. */
  datatype Error =
    | NoContainerRow                      // the block has no row at all
    | NoContainerColumn                   // the first row has no column
    | MissingContainerParagraph(index: nat) // paragraph 0 (the heading) or 2 (the banner holder) is missing
    | NoTitleColumn(tab: nat)             // a tab's row has no column
    | MissingTitleParagraph(tab: nat)     // a tab's first column has fewer than two paragraphs

  // ---------------------------------------------------------------------------
  // Rendered structure

  /** A `div` wrapping one content column of a tab's row, with its class if it has one. */
  datatype ContentDiv = ContentDiv(cls: Option<string>, child: Column)

  /** A tab: its link's `href`, the icon class taken from the first paragraph and the title. */
  datatype TabItem = TabItem(active: bool, href: string, icon: string, title: string)

  /** An article: its `id`, whether it holds the brochure wrapper, the content
      divs and whether a copy of the bike banner follows them. */
  datatype Article = Article(active: bool, id: string, brochure: bool, content: seq<ContentDiv>, banner: bool)

  datatype Layout = Layout(heading: string, items: seq<TabItem>, articles: seq<Article>)

  // ---------------------------------------------------------------------------
  // Building

  /** The container row is dereferenced safely: it exists, has a column, and that
      column has at least three paragraphs. */
  predicate ContainerOk(rows: seq<Row>)
  {
    |rows| > 0 && |rows[0]| > 0 && |rows[0][0].paragraphs| >= 3
  }

  /** The error the container row raises, if any. */
  function ContainerError(rows: seq<Row>): (e: Option<Error>)
    ensures e.None? <==> ContainerOk(rows)
  {
    if |rows| == 0 then Some(NoContainerRow)
    else if |rows[0]| == 0 then Some(NoContainerColumn)
    else if |rows[0][0].paragraphs| == 0 then Some(MissingContainerParagraph(0))
    else if |rows[0][0].paragraphs| < 3 then Some(MissingContainerParagraph(2))
    else None
  }

  /** A tab row is dereferenced safely: it has a column with at least two paragraphs. */
  predicate TabOk(row: Row)
  {
    |row| > 0 && |row[0].paragraphs| >= 2
  }

  /** The text of the second paragraph of a tab row: the tab's title. */
  function TabTitle(row: Row): string
    requires TabOk(row)
  {
    row[0].paragraphs[1].text
  }

  /** The class of the content column at `index`: "specs-image", then "specs-text", then none. */
  function ContentClass(index: nat): (c: Option<string>)
    ensures index == 0 ==> c == Some("specs-image")
    ensures index == 1 ==> c == Some("specs-text")
    ensures index >= 2 ==> c.None?
  {
    if index == 0 then Some("specs-image") else if index == 1 then Some("specs-text") else None
  }

  /** `content` wraps every column of `row` after the first, in order, classed by position. */
  predicate ContentFor(row: Row, content: seq<ContentDiv>)
    requires |row| > 0
  {
    |content| == |row| - 1 && forall j :: 0 <= j < |content| ==> content[j] == ContentDiv(ContentClass(j), row[j + 1])
  }

  /** Wraps each column after the first in a `div`, in order. */
  method BuildContent(row: Row) returns (content: seq<ContentDiv>)
    requires |row| > 0
    ensures ContentFor(row, content)
  {
    content := [];
    var classes := [Some("specs-image"), Some("specs-text")];
    for index := 0 to |row| - 1
      invariant ContentFor(row[..index + 1], content)
    {
      var cls := if index < |classes| then classes[index] else None;
      content := content + [ContentDiv(cls, row[index + 1])];
    }
    assert row[..|row|] == row;
  }

  /** Tab `k` and its article as built from row `k + 1`: the item and the article
      share the lower-cased title as href and id, only index 0 is active, and every
      article carries the brochure wrapper iff the container has a fourth paragraph. */
  predicate TabBuilt(rows: seq<Row>, k: nat, item: TabItem, article: Article)
    requires ContainerOk(rows) && k + 1 < |rows|
  {
    var ps := rows[0][0].paragraphs;
    var row := rows[k + 1];
    && TabOk(row)
    && item == TabItem(k == 0, ToLower(TabTitle(row)), row[0].paragraphs[0].text, TabTitle(row))
    && article.active == (k == 0)
    && article.id == ToLower(TabTitle(row))
    && article.brochure == (|ps| >= 4)
    && ContentFor(row, article.content)
    && article.banner == ps[2].hasPicture
  }

  /** The first `n` tabs and articles of the layout are built from rows 1 to `n`. */
  predicate BuiltUpTo(rows: seq<Row>, layout: Layout, n: nat)
    requires ContainerOk(rows) && n < |rows|
  {
    && layout.heading == rows[0][0].paragraphs[0].text
    && |layout.items| == |layout.articles| == n
    && forall k :: 0 <= k < n ==> TabBuilt(rows, k, layout.items[k], layout.articles[k])
  }

  /** The layout of a well-formed block: one tab and one article per row after the first. */
  predicate Built(rows: seq<Row>, layout: Layout)
    requires ContainerOk(rows)
  {
    BuiltUpTo(rows, layout, |rows| - 1)
  }

  /** Builds the heading, one tab and one article per row after the first, in
      authoring order, and throws at the first part it cannot dereference. */
  method Decorate(rows: seq<Row>) returns (r: Result<Layout, Error>)
    ensures ContainerError(rows).Some? ==> r == Err(ContainerError(rows).value)
    ensures ContainerOk(rows) && r.Ok? ==> Built(rows, r.value)
    ensures ContainerOk(rows) ==> (r.Ok? <==> forall k :: 1 <= k < |rows| ==> TabOk(rows[k]))
    ensures ContainerOk(rows) && r.Err? ==>
      && (r.error.NoTitleColumn? || r.error.MissingTitleParagraph?)
      && 1 + r.error.tab < |rows|
      && r.error == (if |rows[1 + r.error.tab]| == 0 then NoTitleColumn(r.error.tab) else MissingTitleParagraph(r.error.tab))
      && !TabOk(rows[1 + r.error.tab])
      && forall k :: 1 <= k <= r.error.tab ==> TabOk(rows[k])
  {
    if |rows| == 0 { return Err(NoContainerRow); }
    if |rows[0]| == 0 { return Err(NoContainerColumn); }
    var details := rows[0][0].paragraphs;
    if |details| == 0 { return Err(MissingContainerParagraph(0)); }
    var heading := details[0].text;
    if |details| < 3 { return Err(MissingContainerParagraph(2)); }
    var banner := details[2].hasPicture;
    var items: seq<TabItem> := [];
    var articles: seq<Article> := [];
    for idx := 0 to |rows| - 1
      invariant |items| == |articles| == idx
      invariant BuiltUpTo(rows, Layout(heading, items, articles), idx)
      invariant forall k :: 1 <= k <= idx ==> TabOk(rows[k])
    {
      var prop := rows[idx + 1];
      if |prop| == 0 { return Err(NoTitleColumn(idx)); }
      var paragraphs := prop[0].paragraphs;
      if |paragraphs| < 2 { return Err(MissingTitleParagraph(idx)); }
      var firstP, secondP := paragraphs[0], paragraphs[1];
      var active := idx == 0;
      var id := ToLower(secondP.text);
      var item := TabItem(active, ToLower(secondP.text), firstP.text, secondP.text);
      var content := BuildContent(prop);
      var article := Article(active, id, |details| >= 4, content, banner);
      items := items + [item];
      articles := articles + [article];
    }
    return Ok(Layout(heading, items, articles));
  }

  // ---------------------------------------------------------------------------
  // Tab state

  /** `n` flags, of which only the one at `sel` (if any) is set. */
  function Flags(n: nat, sel: Option<nat>): (f: seq<bool>)
    ensures |f| == n
    ensures forall k :: 0 <= k < n ==> f[k] == (sel == Some(k))
  {
    seq(n, k => sel == Some(k))
  }

  /** Number of set flags. */
  function CountTrue(f: seq<bool>): nat
  {
    if f == [] then 0 else CountTrue(f[..|f| - 1]) + (if f[|f| - 1] then 1 else 0)
  }

  /** Flags with one selected index have exactly one flag set; with none, none. */
  lemma {:induction false} FlagsCount(n: nat, sel: Option<nat>)
    ensures CountTrue(Flags(n, sel)) == if sel.Some? && sel.value < n then 1 else 0
  {
    if n > 0 {
      assert Flags(n, sel)[..n - 1] == Flags(n - 1, sel);
      FlagsCount(n - 1, sel);
    }
  }

  /** `querySelector('.specs-article#' + target)`: the first article whose id is `target`. */
  function FirstWithId(ids: seq<string>, target: string): (r: Option<nat>)
    ensures r.None? <==> target !in ids
    ensures r.Some? ==> r.value < |ids| && ids[r.value] == target
    ensures r.Some? ==> forall j :: 0 <= j < r.value ==> ids[j] != target
  {
    if ids == [] then None
    else if ids[0] == target then Some(0)
    else
      match FirstWithId(ids[1..], target)
      case Some(k) => Some(k + 1)
      case None => None
  }

  /** A tab's own href always finds an article, at the tab's position or before it;
      with a duplicate title, a later tab finds the earlier article. */
  lemma OwnHrefMatches(ids: seq<string>, i: nat)
    requires i < |ids|
    ensures FirstWithId(ids, ids[i]).Some? && FirstWithId(ids, ids[i]).value <= i
    ensures forall j :: 0 <= j < i && ids[j] == ids[i] ==> FirstWithId(ids, ids[i]).value < i
  {
  }

  /** Index of the first article whose id is `target`, found by a scan. */
  method FindId(ids: seq<string>, target: string) returns (k: nat)
    requires target in ids
    ensures FirstWithId(ids, target) == Some(k)
  {
    k := 0;
    while ids[k] != target
      invariant k < |ids| && target in ids[k..]
      invariant forall j :: 0 <= j < k ==> ids[j] != target
      decreases |ids| - k
    {
      assert ids[k..] == [ids[k]] + ids[k + 1..];
      k := k + 1;
    }
  }

  /** Removes `active` from every element of a group. */
  method ClearFlags(flags: array<bool>)
    modifies flags
    ensures flags[..] == Flags(flags.Length, None)
  {
    for k := 0 to flags.Length
      invariant forall j :: 0 <= j < k ==> !flags[j]
    {
      flags[k] := false;
    }
  }

  /** The live `active` classes of the tab items and the articles. */
  class Tabs {
    /** The article ids, which are also the tab hrefs, in order. */
    const ids: seq<string>
    const itemActive: array<bool>
    const articleActive: array<bool>
    /** The tab clicked last (the first tab before any click). */
    ghost var selected: nat

    ghost predicate Valid()
      reads this, itemActive, articleActive
    {
      && itemActive.Length == |ids| && articleActive.Length == |ids|
      && itemActive != articleActive
      && (|ids| > 0 ==>
            && selected < |ids|
            && itemActive[..] == Flags(|ids|, Some(selected))
            && articleActive[..] == Flags(|ids|, FirstWithId(ids, ids[selected])))
    }

    /** Takes over the flags and ids of a freshly built layout: only the first tab
        and the first article are active. */
    constructor (rows: seq<Row>, layout: Layout)
      requires ContainerOk(rows) && Built(rows, layout)
      ensures Valid() && fresh(itemActive) && fresh(articleActive)
      ensures |ids| == |layout.articles|
      ensures forall k :: 0 <= k < |ids| ==> ids[k] == layout.articles[k].id == layout.items[k].href
      ensures itemActive[..] == Flags(|ids|, if |ids| > 0 then Some(0) else None)
      ensures articleActive[..] == Flags(|ids|, if |ids| > 0 then Some(0) else None)
    {
      var n := |layout.articles|;
      ids := seq(n, k requires 0 <= k < n => layout.articles[k].id);
      itemActive := new bool[n](k requires 0 <= k < n => layout.items[k].active);
      articleActive := new bool[n](k requires 0 <= k < n => layout.articles[k].active);
      selected := 0;
      new;
      if n > 0 {
        assert FirstWithId(ids, ids[0]) == Some(0);
      }
    }

    /** A click on tab `i`: every item and article loses `active`, then tab `i` and
        the first article whose id equals the tab's href gain it. */
    method Click(i: nat)
      requires Valid() && i < |ids|
      modifies this, itemActive, articleActive
      ensures Valid() && selected == i
      ensures itemActive[..] == Flags(|ids|, Some(i))
      ensures articleActive[..] == Flags(|ids|, FirstWithId(ids, ids[i]))
      ensures CountTrue(itemActive[..]) == 1 && CountTrue(articleActive[..]) == 1
      ensures old(itemActive[i]) ==> itemActive[..] == old(itemActive[..]) && articleActive[..] == old(articleActive[..])
    {
      ghost var wasActive := itemActive[i];
      ghost var wasSelected := selected;
      assert wasActive ==> wasSelected == i by {
        assert itemActive[..][i] == itemActive[i];
      }
      ClearFlags(itemActive);
      ClearFlags(articleActive);
      itemActive[i] := true;
      var k := FindId(ids, ids[i]);
      articleActive[k] := true;
      selected := i;
      assert itemActive[..] == Flags(|ids|, Some(i));
      assert articleActive[..] == Flags(|ids|, Some(k));
      FlagsCount(|ids|, Some(i));
      FlagsCount(|ids|, Some(k));
    }
  }
}
