# Slug validation of the gerbi page form

This project models `PageForm.clean_slug`, the slug validator of the page
creation and edition form of the gerbi page CMS. The validator normalises the
submitted slug. It then checks it, in this order:

1. the language rules: the default language needs a non-empty slug, and any
   other language needs a page that already has a slug row;
2. in unique-slug mode, global uniqueness across every page's slug rows;
3. otherwise, uniqueness among the pages at the tree position the page will
   occupy, filtered by site when site scoping is on. That position is beside a
   target, the first child of a target, the edited page's current siblings, or
   the root level for a new page.

The validator either returns the normalised slug or raises the first of six
validation errors that applies.

Files:

- `wrappers.dfy` (`Wrappers`): `Option` and `Result`.
- `page_tree.dfy` (`PageTree`): the page and content tables. A query set is a
  sequence in database order, and a filtered query set is `Filter`. The file
  also holds `get(pk=…)`, `get_siblings`, `get_children`, `root()` and the
  content filters the validator runs, with lemmas that say what each query
  returns.
- `slug_form.dfy` (`SlugForm`): the error enum, the settings, the request,
  the site filter and `CleanSlug`. `CleanSlug` follows the code: list
  comprehensions over query sets, `.count()`, and `slug in [...]`. Next to it,
  `Expected` is a declarative reference definition stated with quantifiers
  over the tables. `CleanSlugMatchesExpected` proves that the two agree on
  every input.
- `slug_form_properties.dfy` (`SlugFormProperties`): one lemma per rule. Each
  says which error fires under which condition, in both directions. Others
  say what success implies, and which inputs cannot change the outcome. The
  worked example (a root page "my-page" and a new page whose input
  normalises to "my-page") is also here.

Modelling choices:

- `slugify(raw.strip())` is a parameter `slugify: string -> string` and is left
  uninterpreted.
- `page.slug()` is the `slug` field of a page row.
- Content rows carry page, language, type and body. Only rows of type `"slug"`
  are consulted, in any language, as in the source.
- The edited page is `Option<Page>`, and None means a page that was never
  saved. Every content row refers to a stored page, so the rows of an unsaved
  page form an empty set. As a result, a new page in a non-default language
  always fails with the default-slug error.
- The code decides between the existing-page and new-page branches with the
  truthiness of the page's key (`if self.instance.id:`). The model tests the
  same thing with `Saved`: a page is there and its key is non-zero. A page
  stored under key 0 is therefore checked as a new page. Its own slug rows
  then count against it in unique-slug mode, and it is compared against every
  root page, itself included. The language check still finds its slug rows
  through the page key. `KeyZeroCheckedAsNewPage` states this.
- `target` is `Option<PageId>`, and None means missing or empty. `position` is
  a string, and `""` means missing. A target and position are "given" when
  both are truthy, as in `if target and position`.
- The settings are parameters: `GERBI_DEFAULT_LANGUAGE`,
  `GERBI_UNIQUE_SLUG_REQUIRED`, `GERBI_USE_SITE_ID`, `GERBI_HIDE_SITES` and
  `SITE_ID`.

Two behaviours of the code worth stating:

- When the page is placed left or right of a target, the target's own slug
  is compared without the site filter. Only the target's siblings are
  filtered by site.
- The targeted checks do not leave the edited page out. A stored page moved
  beside one of its current siblings, and keeping its slug, is therefore
  rejected by its own slug. The untargeted sibling check does exclude the
  edited page. `TargetedEditSeesOwnSlug` states this behaviour.

## Model

| member | source | states |
|---|---|---|
| PageTree.FilterMembership | gerbi/admin/forms.py:158-160 | a filtered query set or list comprehension holds exactly the rows of the source set that pass the filter |
| PageTree.FilterCount | gerbi/admin/forms.py:137-140 | `.count()` of a filtered query set is non-zero exactly when some row passes the filter |
| PageTree.SlugsMembership | gerbi/admin/forms.py:158-162 | a slug is in `[p.slug() for p in pages]` exactly when some page of the list carries it |
| PageTree.Get | gerbi/admin/forms.py:156 | `Page.objects.get(pk=id)` yields a page of the table with that key, and fails only when no page has it |
| PageTree.Siblings | gerbi/admin/forms.py:159 | `get_siblings()` holds exactly the other pages of the table with the same parent (the other roots, for a root page) |
| PageTree.Children | gerbi/admin/forms.py:166 | `get_children()` holds exactly the pages of the table whose parent is the target |
| PageTree.Roots | gerbi/admin/forms.py:178 | `Page.objects.root()` holds exactly the pages of the table without a parent |
| PageTree.SlugRowsOf | gerbi/admin/forms.py:129 | the slug rows of the edited page are exactly the content rows of type slug whose page is its key; an unsaved page has none |
| PageTree.RowsNotOf | gerbi/admin/forms.py:137 | `exclude(page=…)` holds exactly the content rows of other pages |
| PageTree.SlugRowsWithBody | gerbi/admin/forms.py:138 | `filter(body=slug, type="slug")` holds exactly the slug rows whose body is the slug |
| PageTree.GetSkipsOtherPage | gerbi/admin/forms.py:156 | a page with a different key, inserted anywhere, does not change which page the lookup finds |
| SlugForm.CleanSlug | gerbi/admin/forms.py:120-181 | every success returns the normalised slug; in the default language an empty normalised slug fails with the default-slug error, whatever the tree and settings |
| SlugForm.IntersectsSites | gerbi/admin/forms.py:143-152 | with scoping off every candidate passes; with hidden sites a candidate passes exactly when it belongs to `SITE_ID`; otherwise exactly when it shares a posted site id |
| SlugForm.SelectedSites | gerbi/admin/forms.py:144-147 | the selected site ids are `[SITE_ID]` when sites are hidden, and the posted ids otherwise |
| SlugForm.LanguageCheck | gerbi/admin/forms.py:125-130 | the language checks can only raise the default-slug error, and in the default language they raise it exactly for an empty slug |
| SlugForm.UniqueCheck | gerbi/admin/forms.py:135-141 | the uniqueness check raises only the duplicate error, only in unique-slug mode, and only when some slug row carries the slug |
| SlugForm.PositionCheck | gerbi/admin/forms.py:154-180 | the position checks run only outside unique-slug mode; each of the four position errors comes only from its own branch (left/right, first-child, stored page, new page), and they never raise the language or duplicate error |
| SlugForm.VisibleSlugsMembership | gerbi/admin/forms.py:148-160 | the slug list of a candidate set contains a slug exactly when an in-scope candidate carries it |
| SlugForm.LanguageCheckMeaning | gerbi/admin/forms.py:125-130 | the language checks reject exactly an empty slug in the default language, or a page with no slug row in another language |
| SlugForm.UniqueCheckMeaning | gerbi/admin/forms.py:135-141 | the uniqueness check rejects exactly when unique-slug mode is on and a slug row of another page (of any page, when the page is not stored under a non-zero key) has the slug as body |
| SlugForm.PositionCheckMeaning | gerbi/admin/forms.py:154-180 | the position checks reject with the error of the branch taken exactly when a sibling, child or root page blocks the slug |
| SlugForm.CleanSlugMatchesExpected | gerbi/admin/forms.py:120-181 | on every input the validator returns what the declarative rule table prescribes |
| SlugFormProperties.TranslationNeedsExistingSlug | gerbi/admin/forms.py:128-130 | outside the default language the default-slug error fires exactly when the page has no slug row in any language, whatever the slug |
| SlugFormProperties.NewPageStartsInDefaultLanguage | gerbi/admin/forms.py:128-130 | an unsaved page is always refused in a non-default language |
| SlugFormProperties.DefaultSlugErrorOnlyFromLanguage | gerbi/admin/forms.py:123-130 | once the language checks pass, no later check raises the default-slug error, so they run before the uniqueness checks |
| SlugFormProperties.UniqueModeRejectsReusedSlug | gerbi/admin/forms.py:135-141 | in unique-slug mode, after the language checks, the slug is rejected as a duplicate exactly when another page's slug row has it, and is returned otherwise |
| SlugFormProperties.UniqueModeSuccessIsGloballyUnique | gerbi/admin/forms.py:135-141 | in unique-slug mode a validated slug is the body of no slug row of any other page |
| SlugFormProperties.UniqueModeNewPageRejectedByAnyRow | gerbi/admin/forms.py:140-141 | a page not stored under a non-zero key is refused in unique-slug mode as soon as any slug row carries its slug |
| SlugFormProperties.UniqueModeOwnRowsNeverReject | gerbi/admin/forms.py:136-139 | in unique-slug mode, once the language check does not depend on them (default language, or the page already has a slug row), adding slug rows of the edited page, with any body, never changes the outcome |
| SlugFormProperties.UniqueModeIgnoresTreeAndSites | gerbi/admin/forms.py:154 | in unique-slug mode the page tree, target, position, posted sites and site settings cannot change the outcome |
| SlugFormProperties.KeyZeroCheckedAsNewPage | gerbi/admin/forms.py:136-177 | a page stored under key 0 fails the `self.instance.id` test, so in the default language its outcome is that of a page never stored |
| SlugFormProperties.GetUpToSites | gerbi/admin/forms.py:156 | the target lookup finds corresponding pages in two tables that differ only in site sets |
| SlugFormProperties.UnscopedBlockersAgree | gerbi/admin/forms.py:150-152 | with scoping off, the sibling, child and root checks find a blocker in both of two tables that differ only in site sets, or in neither |
| SlugFormProperties.UnscopedErrorsAgree | gerbi/admin/forms.py:150-180 | with scoping off, the reference definition prescribes the same error for two inputs that differ only in site sets, posted sites, hidden-sites flag and site id |
| SlugFormProperties.UnscopedIgnoresSites | gerbi/admin/forms.py:150-152 | with scoping off, every candidate passes the site filter, so page sites, posted sites, hidden-sites flag and site id cannot change the outcome |
| SlugFormProperties.HiddenSitesIgnorePostedSites | gerbi/admin/forms.py:144-147 | with hidden sites the selected ids are exactly `[SITE_ID]`, and the posted site ids cannot change the outcome |
| SlugFormProperties.DisjointPageNeverBlocks | gerbi/admin/forms.py:143-149 | with scoping on, inserting a page that shares no selected site, anywhere in the tree, never changes the outcome unless it is the target |
| SlugFormProperties.BesideTargetRejection | gerbi/admin/forms.py:157-163 | left/right of a target: rejected with the sibling-position error exactly when the slug is the target's own slug (no site filter) or an in-scope sibling's; returned otherwise |
| SlugFormProperties.FirstChildRejection | gerbi/admin/forms.py:164-168 | first child of a target: rejected with the child error exactly when an in-scope child of the target has the slug; returned otherwise |
| SlugFormProperties.OtherPositionUnchecked | gerbi/admin/forms.py:155-168 | a target with any other non-empty position string performs no position check and the slug is returned |
| SlugFormProperties.EditedPageSiblingRejection | gerbi/admin/forms.py:170-175 | an edited page stored under a non-zero key, without target, is rejected with the sibling error exactly when another in-scope sibling has the slug; its own slug never blocks it |
| SlugFormProperties.NewPageRootRejection | gerbi/admin/forms.py:176-180 | a page not stored under a non-zero key, without target, is rejected with the root-sibling error exactly when an in-scope root page has the slug |
| SlugFormProperties.TargetedEditSeesOwnSlug | gerbi/admin/forms.py:157-163 | a stored page moved beside one of its current siblings, keeping its slug, is rejected: the targeted checks do not exclude the edited page |
| SlugFormProperties.ExampleUniqueModeRejects | gerbi/admin/forms.py:135-141 | with a root page "my-page" and unique-slug mode, a new page whose input normalises to "my-page" is refused as a duplicate |
| SlugFormProperties.ExampleFirstChildOfOtherParentAccepts | gerbi/admin/forms.py:164-168 | without unique-slug mode, the same new page placed as first child of another, childless parent is accepted |

## Left out

- Form field declarations, `__init__` widget, initial-value and template-choice wiring (forms.py:27-118): framework configuration, not logic.
- Placeholder fields built by `get_placeholders` and `placeholder.get_field`: calls into code that is not part of this model.
- `slugify` and `strip`: framework string transforms. They are one uninterpreted function parameter, and nothing is assumed about its output.
- How `page.slug()` picks a page's slug among its content rows (language fallback, latest row): the result is a field of the page row.
- Parsing of the posted form data (`data.get`, `getlist`, `int(x)`): target, position and site ids arrive already typed.
- A target id that names no page, which makes `Page.objects.get` raise: it is a precondition (`LookupSafe`). It is required only when the language checks let the slug through and the position check then looks the target up.
- The page manager and tree queries (`Page.objects.root()`, `get`, `get_siblings`, `get_children`) are not part of this model. The model assumes that `root()` returns every page without a parent, and that none of these queries restricts pages by site on its own.
- Translated error messages: errors are the enum `SlugError`.
- Database consistency between the edited page passed to the form and its stored row: the edited page is taken as given.
