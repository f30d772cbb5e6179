/**
 * The part of the page database that slug validation reads: the page table
 * (each page's parent, default-language slug and sites) and the content table.
 * Query sets are sequences in database order; a query that filters a table is
 * `Filter` with the query's condition.
 */
module PageTree {
  import opened Wrappers

  type PageId = int
  type SiteId = int

  /** A page row: `parent` is None for a root page, `slug` is what `page.slug()` returns. */
  datatype Page = Page(id: PageId, parent: Option<PageId>, slug: string, sites: set<SiteId>)

  /** A content row: the value `body` of attribute `kind` of `page` in `language`. */
  datatype Content = Content(page: PageId, language: string, kind: string, body: string)

  /** The two tables the validator queries. */
  datatype Database = Database(pages: seq<Page>, contents: seq<Content>)

  /** The content type under which slugs are stored. */
  const SlugKind: string := "slug"

  /** The rows of `s` that satisfy `keep`, in their original order (a filtered query set). */
  function Filter<T>(s: seq<T>, keep: T -> bool): seq<T>
  {
    if s == [] then []
    else (if keep(s[0]) then [s[0]] else []) + Filter(s[1..], keep)
  }

  /** A filtered query set holds exactly the rows that satisfy the filter. */
  lemma {:induction false} FilterMembership<T>(s: seq<T>, keep: T -> bool)
    ensures forall x :: x in Filter(s, keep) <==> x in s && keep(x)
  {
    if s != [] {
      FilterMembership(s[1..], keep);
      assert s == [s[0]] + s[1..];
    }
  }

  /** `.count()` of a filtered query set is non-zero exactly when some row passes the filter. */
  lemma FilterCount<T>(s: seq<T>, keep: T -> bool)
    ensures |Filter(s, keep)| > 0 <==> exists x :: x in s && keep(x)
  {
  }

  /** `[p.slug() for p in pages]`. */
  function Slugs(pages: seq<Page>): seq<string>
  {
    if pages == [] then [] else [pages[0].slug] + Slugs(pages[1..])
  }

  /** A slug is in the list comprehension exactly when one of the pages carries it. */
  lemma {:induction false} SlugsMembership(pages: seq<Page>)
    ensures forall name :: name in Slugs(pages) <==> exists p :: p in pages && p.slug == name
  {
    if pages != [] {
      SlugsMembership(pages[1..]);
      assert pages == [pages[0]] + pages[1..];
      forall name | name in Slugs(pages)
        ensures exists p :: p in pages && p.slug == name
      {
        if name != pages[0].slug {
          assert name in Slugs(pages[1..]);
          var p :| p in pages[1..] && p.slug == name;
          assert p in pages;
        }
      }
    }
  }

  /** `Page.objects.get(pk=id)`: the page with primary key `id`, None when there is none. */
  function Get(pages: seq<Page>, id: PageId): (r: Option<Page>)
    ensures r.Some? ==> r.value in pages && r.value.id == id
    ensures r.None? ==> forall p :: p in pages ==> p.id != id
  {
    if pages == [] then None
    else if pages[0].id == id then Some(pages[0])
    else Get(pages[1..], id)
  }

  /** A page whose key differs from `id` does not change which page `get(pk=id)` finds. */
  lemma {:induction false} GetSkipsOtherPage(front: seq<Page>, p: Page, back: seq<Page>, id: PageId)
    requires p.id != id
    ensures Get(front + [p] + back, id) == Get(front + back, id)
  {
    if front == [] {
      assert front + [p] + back == [p] + back;
      assert front + back == back;
      assert ([p] + back)[1..] == back;
    } else {
      GetSkipsOtherPage(front[1..], p, back, id);
      assert (front + [p] + back)[1..] == front[1..] + [p] + back;
      assert (front + back)[1..] == front[1..] + back;
    }
  }

  /** `page.get_siblings()`: the other pages with the same parent (other roots for a root). */
  function Siblings(pages: seq<Page>, page: Page): (r: seq<Page>)
    ensures forall p :: p in r <==> p in pages && p.parent == page.parent && p.id != page.id
  {
    var keep := (p: Page) => p.parent == page.parent && p.id != page.id;
    FilterMembership(pages, keep);
    Filter(pages, keep)
  }

  /** `page.get_children()`. */
  function Children(pages: seq<Page>, parent: PageId): (r: seq<Page>)
    ensures forall p :: p in r <==> p in pages && p.parent == Some(parent)
  {
    var keep := (p: Page) => p.parent == Some(parent);
    FilterMembership(pages, keep);
    Filter(pages, keep)
  }

  /** `Page.objects.root()`: the pages without a parent. */
  function Roots(pages: seq<Page>): (r: seq<Page>)
    ensures forall p :: p in r <==> p in pages && p.parent.None?
  {
    var keep := (p: Page) => p.parent.None?;
    FilterMembership(pages, keep);
    Filter(pages, keep)
  }

  /**
   * `Content.objects.filter(page=owner, type="slug")`. An unsaved page (`owner`
   * None) owns no row, since every content row refers to a stored page.
   */
  function SlugRowsOf(contents: seq<Content>, owner: Option<PageId>): (r: seq<Content>)
    ensures forall c :: c in r <==> c in contents && c.kind == SlugKind && owner == Some(c.page)
  {
    var keep := (c: Content) => c.kind == SlugKind && Some(c.page) == owner;
    FilterMembership(contents, keep);
    Filter(contents, keep)
  }

  /** `Content.objects.exclude(page=owner)`. */
  function RowsNotOf(contents: seq<Content>, owner: PageId): (r: seq<Content>)
    ensures forall c :: c in r <==> c in contents && c.page != owner
  {
    var keep := (c: Content) => c.page != owner;
    FilterMembership(contents, keep);
    Filter(contents, keep)
  }

  /** `.filter(body=slug, type="slug")`. */
  function SlugRowsWithBody(contents: seq<Content>, slug: string): (r: seq<Content>)
    ensures forall c :: c in r <==> c in contents && c.body == slug && c.kind == SlugKind
  {
    var keep := (c: Content) => c.body == slug && c.kind == SlugKind;
    FilterMembership(contents, keep);
    Filter(contents, keep)
  }
}
