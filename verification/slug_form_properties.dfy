/**
 * What `clean_slug` promises: which error fires under which condition, what a
 * successful validation implies about uniqueness, and which inputs the outcome
 * does not depend on.
 */
module SlugFormProperties {
  import opened Wrappers
  import opened PageTree
  import opened SlugForm

  /** The language checks let `slug` through. */
  ghost predicate LanguagePasses(settings: Settings, db: Database, req: Request, slug: string)
  {
    if req.language == settings.defaultLanguage then slug != [] else HasSlugContent(db, req)
  }

  // ---------------------------------------------------------------------------
  // Language checks

  /**
   * Outside the default language, the default-slug error fires exactly when the
   * edited page has no slug row in any language, whatever the slug and whatever
   * the later checks would say.
   */
  lemma TranslationNeedsExistingSlug(slugify: string -> string, settings: Settings, db: Database, req: Request)
    requires LookupSafe(settings, db, req, slugify(req.rawSlug))
    requires req.language != settings.defaultLanguage
    ensures CleanSlug(slugify, settings, db, req) == Failure(DefaultSlugRequired)
      <==> !exists c :: c in db.contents && c.kind == SlugKind && req.instance.Some?
                        && c.page == req.instance.value.id
  {
    CleanSlugMatchesExpected(slugify, settings, db, req);
  }

  /** A page that was never saved cannot be created in a language other than the default. */
  lemma NewPageStartsInDefaultLanguage(slugify: string -> string, settings: Settings, db: Database, req: Request)
    requires LookupSafe(settings, db, req, slugify(req.rawSlug))
    requires req.language != settings.defaultLanguage && req.instance.None?
    ensures CleanSlug(slugify, settings, db, req) == Failure(DefaultSlugRequired)
  {
    CleanSlugMatchesExpected(slugify, settings, db, req);
  }

  /** A rejection for a missing default slug comes from the language checks only. */
  lemma DefaultSlugErrorOnlyFromLanguage(slugify: string -> string, settings: Settings, db: Database, req: Request)
    requires LookupSafe(settings, db, req, slugify(req.rawSlug))
    requires LanguagePasses(settings, db, req, slugify(req.rawSlug))
    ensures CleanSlug(slugify, settings, db, req) != Failure(DefaultSlugRequired)
  {
  }

  // ---------------------------------------------------------------------------
  // Unique-slug mode

  /**
   * In unique-slug mode, once the language checks pass, the slug is rejected
   * exactly when a slug row of another page (of any page, for a new page) has
   * it as body, and accepted otherwise.
   */
  lemma UniqueModeRejectsReusedSlug(slugify: string -> string, settings: Settings, db: Database, req: Request)
    requires LookupSafe(settings, db, req, slugify(req.rawSlug))
    requires settings.uniqueSlugRequired
    requires LanguagePasses(settings, db, req, slugify(req.rawSlug))
    ensures var slug := slugify(req.rawSlug);
      var reused := exists c :: c in db.contents && c.kind == SlugKind && c.body == slug
                               && (!Saved(req) || c.page != req.instance.value.id);
      && (CleanSlug(slugify, settings, db, req) == Failure(AnotherPageError) <==> reused)
      && (CleanSlug(slugify, settings, db, req) == Success(slug) <==> !reused)
  {
    CleanSlugMatchesExpected(slugify, settings, db, req);
  }

  /** In unique-slug mode a validated slug is the body of no other page's slug row. */
  lemma UniqueModeSuccessIsGloballyUnique(slugify: string -> string, settings: Settings, db: Database, req: Request)
    requires LookupSafe(settings, db, req, slugify(req.rawSlug))
    requires settings.uniqueSlugRequired
    requires CleanSlug(slugify, settings, db, req).Success?
    ensures forall c ::
      (c in db.contents && c.kind == SlugKind && c.body == CleanSlug(slugify, settings, db, req).value)
      ==> Saved(req) && c.page == req.instance.value.id
  {
  }

  /** A new page is refused in unique-slug mode as soon as any slug row carries its slug. */
  lemma UniqueModeNewPageRejectedByAnyRow(slugify: string -> string, settings: Settings, db: Database, req: Request, c: Content)
    requires LookupSafe(settings, db, req, slugify(req.rawSlug))
    requires settings.uniqueSlugRequired && !Saved(req)
    requires req.language == settings.defaultLanguage && slugify(req.rawSlug) != []
    requires c in db.contents && c.kind == SlugKind && c.body == slugify(req.rawSlug)
    ensures CleanSlug(slugify, settings, db, req) == Failure(AnotherPageError)
  {
  }

  /**
   * In unique-slug mode the edited page's own slug rows never cause a rejection:
   * adding more of them, with any body, leaves the outcome unchanged once the
   * page has a slug row.
   */
  lemma UniqueModeOwnRowsNeverReject(slugify: string -> string, settings: Settings, db: Database, req: Request, own: seq<Content>)
    requires LookupSafe(settings, db, req, slugify(req.rawSlug))
    requires settings.uniqueSlugRequired && Saved(req)
    requires req.language == settings.defaultLanguage || HasSlugContent(db, req)
    requires forall c :: c in own ==> c.page == req.instance.value.id
    ensures CleanSlug(slugify, settings, db.(contents := db.contents + own), req)
         == CleanSlug(slugify, settings, db, req)
  {
    var db' := db.(contents := db.contents + own);
    CleanSlugMatchesExpected(slugify, settings, db, req);
    CleanSlugMatchesExpected(slugify, settings, db', req);
    var slug := slugify(req.rawSlug);
    if HasSlugContent(db, req) {
      var c :| c in db.contents && c.kind == SlugKind && req.instance.Some? && c.page == req.instance.value.id;
      assert c in db'.contents;
    }
    if SlugUsedElsewhere(db', req, slug) {
      var c :| c in db'.contents && c.kind == SlugKind && c.body == slug
        && (!Saved(req) || c.page != req.instance.value.id);
      assert c in db.contents;
    }
  }

  /**
   * In unique-slug mode the page tree, the target, the position and every site
   * setting are irrelevant: only the language and the slug rows decide.
   */
  lemma UniqueModeIgnoresTreeAndSites(
    slugify: string -> string,
    s1: Settings, db1: Database, r1: Request,
    s2: Settings, db2: Database, r2: Request)
    requires s1.uniqueSlugRequired && s2.uniqueSlugRequired
    requires s1.defaultLanguage == s2.defaultLanguage
    requires db1.contents == db2.contents
    requires r1.rawSlug == r2.rawSlug && r1.language == r2.language
    requires InstanceId(r1) == InstanceId(r2)
    ensures CleanSlug(slugify, s1, db1, r1) == CleanSlug(slugify, s2, db2, r2)
  {
  }

  // ---------------------------------------------------------------------------
  // Pages stored under key 0

  /**
   * A page stored under key 0 fails `if self.instance.id:` and is checked as a
   * new page: in the default language its outcome is that of a page never stored.
   */
  lemma KeyZeroCheckedAsNewPage(slugify: string -> string, settings: Settings, db: Database, req: Request)
    requires LookupSafe(settings, db, req, slugify(req.rawSlug))
    requires req.instance.Some? && req.instance.value.id == 0
    requires req.language == settings.defaultLanguage
    ensures LookupSafe(settings, db, req.(instance := None), slugify(req.rawSlug))
    ensures CleanSlug(slugify, settings, db, req.(instance := None)) == CleanSlug(slugify, settings, db, req)
  {
    var req' := req.(instance := None);
    CleanSlugMatchesExpected(slugify, settings, db, req);
    CleanSlugMatchesExpected(slugify, settings, db, req');
    assert SelectedSites(settings, req') == SelectedSites(settings, req);
    forall p ensures IntersectsSites(settings, req, p) == IntersectsSites(settings, req', p) {
    }
  }

  // ---------------------------------------------------------------------------
  // Site scoping

  /** Two page tables that differ at most in the site sets of their pages. */
  ghost predicate SameUpToSites(a: seq<Page>, b: seq<Page>)
  {
    |a| == |b| && forall i :: 0 <= i < |a| ==> b[i] == a[i].(sites := b[i].sites)
  }

  /** The target lookup finds the same page, up to its sites, in both tables. */
  lemma {:induction false} GetUpToSites(a: seq<Page>, b: seq<Page>, id: PageId)
    requires SameUpToSites(a, b)
    ensures Get(a, id).None? <==> Get(b, id).None?
    ensures Get(a, id).Some? ==> Get(b, id).value == Get(a, id).value.(sites := Get(b, id).value.sites)
  {
    if a != [] && a[0].id != id {
      assert SameUpToSites(a[1..], b[1..]) by {
        forall i | 0 <= i < |a[1..]| ensures b[1..][i] == a[1..][i].(sites := b[1..][i].sites) {
          assert b[1..][i] == b[i + 1] && a[1..][i] == a[i + 1];
        }
      }
      GetUpToSites(a[1..], b[1..], id);
    }
  }

  /** With scoping off, the sibling, child and root checks find a blocker in both tables or in neither. */
  lemma UnscopedBlockersAgree(
    s1: Settings, db1: Database, r1: Request, s2: Settings, db2: Database, r2: Request,
    slug: string, page1: Page, page2: Page)
    requires !s1.useSiteId && !s2.useSiteId
    requires SameUpToSites(db1.pages, db2.pages)
    requires page2 == page1.(sites := page2.sites)
    ensures SiblingBlocks(s1, db1, r1, page1, slug) == SiblingBlocks(s2, db2, r2, page2, slug)
    ensures ChildBlocks(s1, db1, r1, page1.id, slug) == ChildBlocks(s2, db2, r2, page2.id, slug)
    ensures RootBlocks(s1, db1, r1, slug) == RootBlocks(s2, db2, r2, slug)
  {
  }

  /** With scoping off, the reference definition prescribes the same error for both inputs. */
  lemma UnscopedErrorsAgree(
    s1: Settings, db1: Database, r1: Request,
    s2: Settings, db2: Database, r2: Request, slug: string)
    requires !s1.useSiteId && !s2.useSiteId
    requires s1.(hideSites := s2.hideSites, siteId := s2.siteId) == s2
    requires db1.contents == db2.contents && SameUpToSites(db1.pages, db2.pages)
    requires r1.(postedSites := r2.postedSites) == r2
    requires LookupSafe(s1, db1, r1, slug) && LookupSafe(s2, db2, r2, slug)
    ensures ExpectedError(s1, db1, r1, slug) == ExpectedError(s2, db2, r2, slug)
  {
    LanguageCheckMeaning(s1, db1, r1, slug);
    if LooksUpTarget(s1, r1) && LanguageCheck(s1, db1, r1, slug).None? {
      GetUpToSites(db1.pages, db2.pages, r1.target.value);
      var t1 := Get(db1.pages, r1.target.value).value;
      var t2 := Get(db2.pages, r2.target.value).value;
      UnscopedBlockersAgree(s1, db1, r1, s2, db2, r2, slug, t1, t2);
    } else if Saved(r1) {
      UnscopedBlockersAgree(s1, db1, r1, s2, db2, r2, slug, r1.instance.value, r2.instance.value);
    } else {
      UnscopedBlockersAgree(s1, db1, r1, s2, db2, r2, slug, Page(0, None, "", {}), Page(0, None, "", {}));
    }
  }

  /**
   * With site scoping off, neither the pages' sites, nor the posted site ids,
   * nor the hidden-sites setting and site id change the outcome: every
   * candidate takes part in the sibling and child checks.
   */
  lemma UnscopedIgnoresSites(
    slugify: string -> string,
    s1: Settings, db1: Database, r1: Request,
    s2: Settings, db2: Database, r2: Request)
    requires !s1.useSiteId && !s2.useSiteId
    requires s1.(hideSites := s2.hideSites, siteId := s2.siteId) == s2
    requires db1.contents == db2.contents && SameUpToSites(db1.pages, db2.pages)
    requires r1.(postedSites := r2.postedSites) == r2
    requires LookupSafe(s1, db1, r1, slugify(r1.rawSlug))
    ensures LookupSafe(s2, db2, r2, slugify(r2.rawSlug))
    ensures CleanSlug(slugify, s1, db1, r1) == CleanSlug(slugify, s2, db2, r2)
  {
    var slug := slugify(r1.rawSlug);
    assert LanguageCheck(s1, db1, r1, slug) == LanguageCheck(s2, db2, r2, slug);
    if r1.target.Some? {
      GetUpToSites(db1.pages, db2.pages, r1.target.value);
    }
    UnscopedErrorsAgree(s1, db1, r1, s2, db2, r2, slug);
    CleanSlugMatchesExpected(slugify, s1, db1, r1);
    CleanSlugMatchesExpected(slugify, s2, db2, r2);
  }

  /** With hidden sites, the posted site ids are ignored: the current site alone is selected. */
  lemma HiddenSitesIgnorePostedSites(slugify: string -> string, settings: Settings, db: Database, req: Request, posted: seq<SiteId>)
    requires settings.useSiteId && settings.hideSites
    requires LookupSafe(settings, db, req, slugify(req.rawSlug))
    ensures SelectedSites(settings, req) == [settings.siteId]
    ensures CleanSlug(slugify, settings, db, req.(postedSites := posted)) == CleanSlug(slugify, settings, db, req)
  {
    var req' := req.(postedSites := posted);
    CleanSlugMatchesExpected(slugify, settings, db, req);
    CleanSlugMatchesExpected(slugify, settings, db, req');
    assert SelectedSites(settings, req') == SelectedSites(settings, req);
    forall p ensures IntersectsSites(settings, req, p) == IntersectsSites(settings, req', p) {
    }
  }

  /**
   * With site scoping on, a page that shares no site with the selected ids never
   * blocks a slug: inserting it anywhere in the page table (as any page's sibling
   * or child) leaves the outcome unchanged, unless it is the target itself.
   */
  lemma DisjointPageNeverBlocks(slugify: string -> string, settings: Settings, db: Database, req: Request,
                                front: seq<Page>, p: Page, back: seq<Page>)
    requires settings.useSiteId
    requires forall i :: 0 <= i < |SelectedSites(settings, req)| ==> SelectedSites(settings, req)[i] !in p.sites
    requires db.pages == front + back
    requires req.target.Some? ==> p.id != req.target.value
    requires LookupSafe(settings, db, req, slugify(req.rawSlug))
    ensures LookupSafe(settings, db.(pages := front + [p] + back), req, slugify(req.rawSlug))
    ensures CleanSlug(slugify, settings, db.(pages := front + [p] + back), req) == CleanSlug(slugify, settings, db, req)
  {
    var db' := db.(pages := front + [p] + back);
    if req.target.Some? {
      GetSkipsOtherPage(front, p, back, req.target.value);
    }
    CleanSlugMatchesExpected(slugify, settings, db, req);
    CleanSlugMatchesExpected(slugify, settings, db', req);
    assert !IntersectsSites(settings, req, p);
    assert forall q :: q in db'.pages <==> q in db.pages || q == p;
  }

  // ---------------------------------------------------------------------------
  // Tree-position checks (unique-slug mode off)

  /**
   * Placing the page left or right of a target: the slug is rejected exactly
   * when it is the target's own slug (whatever the target's sites) or the slug
   * of an in-scope sibling of the target.
   */
  lemma BesideTargetRejection(slugify: string -> string, settings: Settings, db: Database, req: Request)
    requires LookupSafe(settings, db, req, slugify(req.rawSlug))
    requires !settings.uniqueSlugRequired && Positioned(req)
    requires req.position == "left" || req.position == "right"
    requires LanguagePasses(settings, db, req, slugify(req.rawSlug))
    ensures var slug := slugify(req.rawSlug);
      var target := Get(db.pages, req.target.value).value;
      var taken := slug == target.slug
        || exists p :: p in db.pages && p.parent == target.parent && p.id != target.id
                       && IntersectsSites(settings, req, p) && p.slug == slug;
      && (CleanSlug(slugify, settings, db, req) == Failure(SiblingPositionError) <==> taken)
      && (CleanSlug(slugify, settings, db, req) == Success(slug) <==> !taken)
  {
    CleanSlugMatchesExpected(slugify, settings, db, req);
  }

  /** Placing the page as first child: rejected exactly when an in-scope child of the target has the slug. */
  lemma FirstChildRejection(slugify: string -> string, settings: Settings, db: Database, req: Request)
    requires LookupSafe(settings, db, req, slugify(req.rawSlug))
    requires !settings.uniqueSlugRequired && Positioned(req) && req.position == "first-child"
    requires LanguagePasses(settings, db, req, slugify(req.rawSlug))
    ensures var slug := slugify(req.rawSlug);
      var target := Get(db.pages, req.target.value).value;
      var taken := exists p :: p in db.pages && p.parent == Some(target.id)
                               && IntersectsSites(settings, req, p) && p.slug == slug;
      && (CleanSlug(slugify, settings, db, req) == Failure(ChildError) <==> taken)
      && (CleanSlug(slugify, settings, db, req) == Success(slug) <==> !taken)
  {
    CleanSlugMatchesExpected(slugify, settings, db, req);
  }

  /** A target with any other position string is not checked at all. */
  lemma OtherPositionUnchecked(slugify: string -> string, settings: Settings, db: Database, req: Request)
    requires LookupSafe(settings, db, req, slugify(req.rawSlug))
    requires !settings.uniqueSlugRequired && Positioned(req)
    requires req.position != "left" && req.position != "right" && req.position != "first-child"
    requires LanguagePasses(settings, db, req, slugify(req.rawSlug))
    ensures CleanSlug(slugify, settings, db, req) == Success(slugify(req.rawSlug))
  {
  }

  /**
   * Editing a page without a target: rejected exactly when another in-scope
   * page with the same parent has the slug; the page's own slug never counts.
   */
  lemma EditedPageSiblingRejection(slugify: string -> string, settings: Settings, db: Database, req: Request)
    requires LookupSafe(settings, db, req, slugify(req.rawSlug))
    requires !settings.uniqueSlugRequired && !Positioned(req) && Saved(req)
    requires LanguagePasses(settings, db, req, slugify(req.rawSlug))
    ensures var slug := slugify(req.rawSlug);
      var page := req.instance.value;
      var taken := exists p :: p in db.pages && p.parent == page.parent && p.id != page.id
                               && IntersectsSites(settings, req, p) && p.slug == slug;
      && (CleanSlug(slugify, settings, db, req) == Failure(SiblingError) <==> taken)
      && (CleanSlug(slugify, settings, db, req) == Success(slug) <==> !taken)
  {
    CleanSlugMatchesExpected(slugify, settings, db, req);
  }

  /** Creating a page without a target: rejected exactly when an in-scope root page has the slug. */
  lemma NewPageRootRejection(slugify: string -> string, settings: Settings, db: Database, req: Request)
    requires LookupSafe(settings, db, req, slugify(req.rawSlug))
    requires !settings.uniqueSlugRequired && !Positioned(req) && !Saved(req)
    requires LanguagePasses(settings, db, req, slugify(req.rawSlug))
    ensures var slug := slugify(req.rawSlug);
      var taken := exists p :: p in db.pages && p.parent.None?
                               && IntersectsSites(settings, req, p) && p.slug == slug;
      && (CleanSlug(slugify, settings, db, req) == Failure(SiblingRootError) <==> taken)
      && (CleanSlug(slugify, settings, db, req) == Success(slug) <==> !taken)
  {
    CleanSlugMatchesExpected(slugify, settings, db, req);
  }

  /**
   * The targeted checks do not leave the edited page out: moving a stored page
   * beside one of its current siblings, keeping its slug, is rejected.
   */
  lemma TargetedEditSeesOwnSlug(slugify: string -> string, settings: Settings, db: Database, req: Request)
    requires !settings.uniqueSlugRequired && Positioned(req)
    requires req.position == "left" || req.position == "right"
    requires req.language == settings.defaultLanguage
    requires req.instance.Some? && req.instance.value in db.pages
    requires IntersectsSites(settings, req, req.instance.value)
    requires req.target.value != req.instance.value.id
    requires Get(db.pages, req.target.value).Some?
    requires Get(db.pages, req.target.value).value.parent == req.instance.value.parent
    requires slugify(req.rawSlug) == req.instance.value.slug != []
    ensures CleanSlug(slugify, settings, db, req) == Failure(SiblingPositionError)
  {
    CleanSlugMatchesExpected(slugify, settings, db, req);
    var target := Get(db.pages, req.target.value).value;
    assert SiblingBlocks(settings, db, req, target, slugify(req.rawSlug));
  }

  // ---------------------------------------------------------------------------
  // Worked example: a root page "my-page" exists and a new page is submitted
  // with a raw slug that the normaliser turns into "my-page".

  /** The example's tables: root page 1 "my-page", and page 2, a root without children. */
  function ExampleDb(): Database
  {
    Database(
      [Page(1, None, "my-page", {}), Page(2, None, "other", {})],
      [Content(1, "en", SlugKind, "my-page"), Content(2, "en", SlugKind, "other")])
  }

  /** In unique-slug mode the new page is refused as a duplicate. */
  lemma ExampleUniqueModeRejects(slugify: string -> string, settings: Settings, req: Request)
    requires slugify(req.rawSlug) == "my-page"
    requires settings.uniqueSlugRequired && req.language == settings.defaultLanguage
    requires req.instance.None?
    ensures CleanSlug(slugify, settings, ExampleDb(), req) == Failure(AnotherPageError)
  {
  }

  /** Without unique-slug mode, placing it as first child of page 2 succeeds. */
  lemma ExampleFirstChildOfOtherParentAccepts(slugify: string -> string, settings: Settings, req: Request)
    requires slugify(req.rawSlug) == "my-page"
    requires !settings.uniqueSlugRequired && req.language == settings.defaultLanguage
    requires req.instance.None? && req.target == Some(2) && req.position == "first-child"
    ensures CleanSlug(slugify, settings, ExampleDb(), req) == Success("my-page")
  {
  }
}
