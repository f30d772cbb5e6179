/**
 * The slug validation of the page creation/edition form: the raw slug is
 * normalised, then checked against the language rules, the global uniqueness
 * rule or the tree-position rules, and either returned or rejected with the
 * first error that applies.
 */
module SlugForm {
  import opened Wrappers
  import opened PageTree

  /** The six validation errors the form can raise for the slug field. */
  datatype SlugError =
    | DefaultSlugRequired    // the default language needs a slug first
    | AnotherPageError       // unique-slug mode: another page has this slug
    | SiblingPositionError   // a sibling at the targeted position has it
    | ChildError             // a child of the targeted parent has it
    | SiblingError           // a sibling of the edited page has it
    | SiblingRootError       // a root page has it

  /** The configuration values the validator consults. */
  datatype Settings = Settings(
    defaultLanguage: string,
    uniqueSlugRequired: bool,   // no two pages anywhere may share a slug
    useSiteId: bool,            // sibling checks are scoped to sites
    hideSites: bool,            // the site selector is hidden: only `siteId` is selected
    siteId: SiteId)             // the current site

  /** What the form knows when the slug field is cleaned. */
  datatype Request = Request(
    rawSlug: string,            // the submitted slug, before normalisation
    language: string,           // the language being edited
    instance: Option<Page>,     // the page being edited, None for one never stored
    target: Option<PageId>,     // the posted target page, None when missing or empty
    position: string,           // the posted position, "" when missing
    postedSites: seq<SiteId>)   // the posted site ids

  /** The primary key of the edited page, None while it is unsaved. */
  function InstanceId(req: Request): Option<PageId>
  {
    if req.instance.Some? then Some(req.instance.value.id) else None
  }

  /**
   * `self.instance.id` is truthy: the edited page is stored under a non-zero
   * key. A page under key 0 goes through the branches for new pages.
   */
  predicate Saved(req: Request)
  {
    req.instance.Some? && req.instance.value.id != 0
  }

  /** Both a target and a non-empty position were posted. */
  predicate Positioned(req: Request)
  {
    req.target.Some? && req.position != ""
  }

  /** The position check is about to look the target page up. */
  predicate LooksUpTarget(settings: Settings, req: Request)
  {
    !settings.uniqueSlugRequired && Positioned(req)
  }

  /** The target lookup succeeds if the tree-position check performs it. */
  predicate TargetResolves(settings: Settings, db: Database, req: Request)
  {
    LooksUpTarget(settings, req) ==> Get(db.pages, req.target.value).Some?
  }

  /** The site ids a candidate page must share one of. */
  function SelectedSites(settings: Settings, req: Request): seq<SiteId>
  {
    if settings.hideSites then [settings.siteId] else req.postedSites
  }

  /** Whether a candidate page takes part in the sibling and child checks. */
  predicate IntersectsSites(settings: Settings, req: Request, p: Page)
    ensures !settings.useSiteId ==> IntersectsSites(settings, req, p)
    ensures settings.useSiteId && settings.hideSites
      ==> (IntersectsSites(settings, req, p) <==> settings.siteId in p.sites)
    ensures settings.useSiteId && !settings.hideSites
      ==> (IntersectsSites(settings, req, p) <==> exists s :: s in req.postedSites && s in p.sites)
  {
    var selected := SelectedSites(settings, req);
    !settings.useSiteId || exists s :: s in selected && s in p.sites
  }

  /** `[p.slug() for p in candidates if intersects_sites(p)]`. */
  function VisibleSlugs(settings: Settings, req: Request, candidates: seq<Page>): seq<string>
  {
    Slugs(Filter(candidates, (p: Page) => IntersectsSites(settings, req, p)))
  }

  /** The language checks. */
  function LanguageCheck(settings: Settings, db: Database, req: Request, slug: string): (r: Option<SlugError>)
    ensures r.Some? ==> r.value == DefaultSlugRequired
    ensures req.language == settings.defaultLanguage ==> (r.Some? <==> slug == [])
  {
    if req.language == settings.defaultLanguage then
      if |slug| == 0 then Some(DefaultSlugRequired) else None
    else if |SlugRowsOf(db.contents, InstanceId(req))| == 0 then Some(DefaultSlugRequired)
    else None
  }

  /**
   * The target lookup succeeds whenever the language checks let the slug
   * through to it: a slug they reject never reaches the lookup.
   */
  predicate LookupSafe(settings: Settings, db: Database, req: Request, slug: string)
  {
    LanguageCheck(settings, db, req, slug).None? ==> TargetResolves(settings, db, req)
  }

  /** The global uniqueness check of unique-slug mode. */
  function UniqueCheck(settings: Settings, db: Database, req: Request, slug: string): (r: Option<SlugError>)
    ensures r.Some? ==> settings.uniqueSlugRequired && r.value == AnotherPageError
    ensures r.Some? ==> exists c :: c in db.contents && c.kind == SlugKind && c.body == slug
  {
    if !settings.uniqueSlugRequired then None
    else if Saved(req) then
      var rows := SlugRowsWithBody(RowsNotOf(db.contents, req.instance.value.id), slug);
      if |rows| > 0 then assert rows[0] in rows; Some(AnotherPageError) else None
    else
      var rows := SlugRowsWithBody(db.contents, slug);
      if |rows| > 0 then assert rows[0] in rows; Some(AnotherPageError) else None
  }

  /** The tree-position checks, skipped in unique-slug mode. */
  function PositionCheck(settings: Settings, db: Database, req: Request, slug: string): (r: Option<SlugError>)
    requires TargetResolves(settings, db, req)
    ensures r.Some? ==> !settings.uniqueSlugRequired
    ensures r == Some(SiblingPositionError) ==> Positioned(req) && req.position in ["right", "left"]
    ensures r == Some(ChildError) ==> Positioned(req) && req.position == "first-child"
    ensures r == Some(SiblingError) ==> !Positioned(req) && Saved(req)
    ensures r == Some(SiblingRootError) ==> !Positioned(req) && !Saved(req)
    ensures r != Some(DefaultSlugRequired) && r != Some(AnotherPageError)
  {
    if settings.uniqueSlugRequired then None
    else if Positioned(req) then
      var target := Get(db.pages, req.target.value).value;
      if req.position in ["right", "left"]
        && slug in VisibleSlugs(settings, req, Siblings(db.pages, target)) + [target.slug]
      then Some(SiblingPositionError)
      else if req.position == "first-child"
        && slug in VisibleSlugs(settings, req, Children(db.pages, target.id))
      then Some(ChildError)
      else None
    else if Saved(req) then
      // `get_siblings()` already leaves the edited page out; `clean_slug`'s
      // extra `exclude(id=...)` removes nothing more
      if slug in VisibleSlugs(settings, req, Siblings(db.pages, req.instance.value))
      then Some(SiblingError) else None
    else if slug in VisibleSlugs(settings, req, Roots(db.pages)) then Some(SiblingRootError)
    else None
  }

  /**
   * `clean_slug`: normalise the raw slug with `slugify` (the framework's
   * strip-and-slugify, left uninterpreted) and run the checks in order.
   */
  function CleanSlug(slugify: string -> string, settings: Settings, db: Database, req: Request)
    : (r: Result<string, SlugError>)
    requires LookupSafe(settings, db, req, slugify(req.rawSlug))
    ensures r.Success? ==> r.value == slugify(req.rawSlug)
    ensures req.language == settings.defaultLanguage && slugify(req.rawSlug) == []
      ==> r == Failure(DefaultSlugRequired)
  {
    var slug := slugify(req.rawSlug);
    var failure :=
      if LanguageCheck(settings, db, req, slug).Some? then LanguageCheck(settings, db, req, slug)
      else if UniqueCheck(settings, db, req, slug).Some? then UniqueCheck(settings, db, req, slug)
      else PositionCheck(settings, db, req, slug);
    if failure.Some? then Failure(failure.value) else Success(slug)
  }

  // ---------------------------------------------------------------------------
  // Reference definition: the same decision stated over the tables directly.

  /** The edited page already has a slug in some language. */
  ghost predicate HasSlugContent(db: Database, req: Request)
  {
    exists c :: c in db.contents && c.kind == SlugKind && req.instance.Some?
      && c.page == req.instance.value.id
  }

  /** Some page other than the edited one has a slug row equal to `slug`. */
  ghost predicate SlugUsedElsewhere(db: Database, req: Request, slug: string)
  {
    exists c :: c in db.contents && c.kind == SlugKind && c.body == slug
      && (!Saved(req) || c.page != req.instance.value.id)
  }

  /** Page `p` is in scope and carries `slug`. */
  ghost predicate Blocks(settings: Settings, req: Request, p: Page, slug: string)
  {
    IntersectsSites(settings, req, p) && p.slug == slug
  }

  /** Another page with the parent of `page` blocks `slug`. */
  ghost predicate SiblingBlocks(settings: Settings, db: Database, req: Request, page: Page, slug: string)
  {
    exists p :: p in db.pages && p.parent == page.parent && p.id != page.id
      && Blocks(settings, req, p, slug)
  }

  /** A child of `parent` blocks `slug`. */
  ghost predicate ChildBlocks(settings: Settings, db: Database, req: Request, parent: PageId, slug: string)
  {
    exists p :: p in db.pages && p.parent == Some(parent) && Blocks(settings, req, p, slug)
  }

  /** A root page blocks `slug`. */
  ghost predicate RootBlocks(settings: Settings, db: Database, req: Request, slug: string)
  {
    exists p :: p in db.pages && p.parent.None? && Blocks(settings, req, p, slug)
  }

  /** The first rule that rejects `slug`, if any. */
  ghost function ExpectedError(settings: Settings, db: Database, req: Request, slug: string): Option<SlugError>
    requires LookupSafe(settings, db, req, slug)
  {
    LanguageCheckMeaning(settings, db, req, slug);
    if req.language == settings.defaultLanguage && slug == [] then Some(DefaultSlugRequired)
    else if req.language != settings.defaultLanguage && !HasSlugContent(db, req) then Some(DefaultSlugRequired)
    else if settings.uniqueSlugRequired then
      if SlugUsedElsewhere(db, req, slug) then Some(AnotherPageError) else None
    else if Positioned(req) then
      var target := Get(db.pages, req.target.value).value;
      if (req.position == "left" || req.position == "right")
        && (slug == target.slug || SiblingBlocks(settings, db, req, target, slug))
      then Some(SiblingPositionError)
      else if req.position == "first-child" && ChildBlocks(settings, db, req, target.id, slug)
      then Some(ChildError)
      else None
    else if Saved(req) then
      if SiblingBlocks(settings, db, req, req.instance.value, slug) then Some(SiblingError) else None
    else if RootBlocks(settings, db, req, slug) then Some(SiblingRootError)
    else None
  }

  /** The outcome the reference definition prescribes. */
  ghost function Expected(slugify: string -> string, settings: Settings, db: Database, req: Request)
    : Result<string, SlugError>
    requires LookupSafe(settings, db, req, slugify(req.rawSlug))
  {
    var slug := slugify(req.rawSlug);
    var e := ExpectedError(settings, db, req, slug);
    if e.Some? then Failure(e.value) else Success(slug)
  }

  // ---------------------------------------------------------------------------
  // The validator agrees with the reference definition.

  /** The slugs a candidate list contributes are those of its in-scope pages. */
  lemma VisibleSlugsMembership(settings: Settings, req: Request, candidates: seq<Page>, slug: string)
    ensures slug in VisibleSlugs(settings, req, candidates)
      <==> exists p :: p in candidates && Blocks(settings, req, p, slug)
  {
    var kept := Filter(candidates, (p: Page) => IntersectsSites(settings, req, p));
    FilterMembership(candidates, (p: Page) => IntersectsSites(settings, req, p));
    SlugsMembership(kept);
    if slug in VisibleSlugs(settings, req, candidates) {
      var p :| p in kept && p.slug == slug;
      assert p in candidates && Blocks(settings, req, p, slug);
    }
    if exists p :: p in candidates && Blocks(settings, req, p, slug) {
      var p :| p in candidates && Blocks(settings, req, p, slug);
      assert p in kept;
    }
  }

  /** The language checks reject exactly as the reference definition says. */
  lemma LanguageCheckMeaning(settings: Settings, db: Database, req: Request, slug: string)
    ensures LanguageCheck(settings, db, req, slug) ==
      (if req.language == settings.defaultLanguage && slug == [] then Some(DefaultSlugRequired)
       else if req.language != settings.defaultLanguage && !HasSlugContent(db, req) then Some(DefaultSlugRequired)
       else None)
  {
    var owner := InstanceId(req);
    FilterCount(db.contents, (c: Content) => c.kind == SlugKind && Some(c.page) == owner);
  }

  /** The uniqueness check rejects exactly when the slug is used by another page. */
  lemma UniqueCheckMeaning(settings: Settings, db: Database, req: Request, slug: string)
    ensures UniqueCheck(settings, db, req, slug) ==
      (if settings.uniqueSlugRequired && SlugUsedElsewhere(db, req, slug) then Some(AnotherPageError) else None)
  {
    var withBody := (c: Content) => c.body == slug && c.kind == SlugKind;
    if Saved(req) {
      var id := req.instance.value.id;
      var others := RowsNotOf(db.contents, id);
      FilterCount(others, withBody);
    } else {
      FilterCount(db.contents, withBody);
    }
  }

  /** The position checks reject exactly as the reference definition says. */
  lemma PositionCheckMeaning(settings: Settings, db: Database, req: Request, slug: string)
    requires TargetResolves(settings, db, req)
    requires !settings.uniqueSlugRequired
    ensures PositionCheck(settings, db, req, slug) ==
      (if Positioned(req) then
         var target := Get(db.pages, req.target.value).value;
         if (req.position == "left" || req.position == "right")
           && (slug == target.slug || SiblingBlocks(settings, db, req, target, slug))
         then Some(SiblingPositionError)
         else if req.position == "first-child" && ChildBlocks(settings, db, req, target.id, slug)
         then Some(ChildError)
         else None
       else if Saved(req) then
         if SiblingBlocks(settings, db, req, req.instance.value, slug) then Some(SiblingError) else None
       else if RootBlocks(settings, db, req, slug) then Some(SiblingRootError)
       else None)
  {
    if Positioned(req) {
      var target := Get(db.pages, req.target.value).value;
      var siblings := Siblings(db.pages, target);
      VisibleSlugsMembership(settings, req, siblings, slug);
      var children := Children(db.pages, target.id);
      VisibleSlugsMembership(settings, req, children, slug);
    } else if Saved(req) {
      var page := req.instance.value;
      VisibleSlugsMembership(settings, req, Siblings(db.pages, page), slug);
    } else {
      VisibleSlugsMembership(settings, req, Roots(db.pages), slug);
    }
  }

  /** `clean_slug` returns what the reference definition prescribes, on every input. */
  lemma CleanSlugMatchesExpected(slugify: string -> string, settings: Settings, db: Database, req: Request)
    requires LookupSafe(settings, db, req, slugify(req.rawSlug))
    ensures CleanSlug(slugify, settings, db, req) == Expected(slugify, settings, db, req)
  {
    var slug := slugify(req.rawSlug);
    LanguageCheckMeaning(settings, db, req, slug);
    UniqueCheckMeaning(settings, db, req, slug);
    if !settings.uniqueSlugRequired && LanguageCheck(settings, db, req, slug).None? {
      PositionCheckMeaning(settings, db, req, slug);
    }
  }
}
