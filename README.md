# Comparison blocks: a verified model

This project models the decision logic of three content blocks of a product
comparison site, with the DOM building taken out:

- **comparison** (`blocks/comparison/comparison.js`): an optional JSON model,
  whose parse failure counts as absent, and the authored DOM (first heading,
  first paragraph, images, a table or a list) are resolved into a title, a
  description, a left and a right image, two vehicle titles and an ordered list
  of spec rows. The scalar fields are JavaScript `||` fallback chains
  (`Comparison.FirstTruthy`). Spec rows come from the table, or from the list
  items when there is no table. List items are split on the pattern
  `\s*[-–—:]\s*`. The model's `comparisonItems` are then appended after them.
  The collection loops are methods proved against `Comparison.SpecRows`. That
  function is built from `Collect.FilterMap`, whose entries are characterised
  index by index (`Collect.FilterMapKept`).
- **compare** (`blocks/compare/compare.js`): `getField` looks a field up under
  candidate keys (hyphenated, then snake_case, then camelCase). It returns the
  first own property whose value is not `undefined`, `null` or `''`, else a
  fallback. The block resolves a title and two bikes, then builds one row per
  child spec. A falsy `children` gives no rows. A non-array `children`, or a
  `null`/`undefined` child, makes the block throw a `TypeError`, which is
  modelled as an `Err`.
- **specifications** (`blocks/specifications/specifications.js`): the first
  authored row describes the container. Every later row becomes a tab item and
  an article. Both use the lower-cased title as href and id, and only index 0
  starts active. Missing rows, columns or paragraphs make the block throw; these
  are modelled as `Err`. The live `active` classes are the class
  `Specifications.Tabs`: two `bool` arrays and the `ids` sequence. Its
  `Click(i)` method clears every flag, then activates item `i` and the first
  article whose id equals the tab's href.

Modules: `Outcome` (Option and Result), `Text` (JavaScript white space, `trim`
and ASCII lower-casing), `Collect` (filter-and-map in source order), and
`Comparison`, `Compare` and `Specifications`, one per block.

## Behaviour taken from the code

- The comment at comparison.js:58 says the model's `comparisonItems` are
  "preferred". The code appends them after the table or list rows, and so does
  the model.
- A table row of two or more cells always yields a spec row, even when all its
  cells are empty. Only `comparisonItems` entries are filtered for a non-empty
  field.
- Ids are the lower-cased title text, with no slug normalisation and no
  suffixes for duplicates. With a duplicate title, clicking the later tab
  activates the earlier article (`Specifications.OwnHrefMatches`).
- A click can only target an existing tab, so there is no "unknown id" path.
  The model looks an article up by exact equality of ids, and a tab's href
  equals its article's id, so that lookup always finds an article. This holds
  only under the exact-match lookup: the code uses the CSS selector
  `.specs-article#<href>`, and a title that is not a valid CSS identifier (a
  multi-word one such as "Engine Specs" gives `#engine specs`) selects nothing,
  in which case the guard at specifications.js:122 leaves every article
  inactive. `Specifications.Tabs.Click`'s promise that exactly one article is
  active therefore depends on that lookup (see "Left out").

## Model

| member | source | states |
|---|---|---|
| `Comparison.FirstTruthy` | blocks/comparison/comparison.js:18-31 | an or-else chain of candidates ending in a fallback yields the fallback or one of the candidates, and then a non-empty one |
| `Comparison.FirstTruthyPicks` | blocks/comparison/comparison.js:18-31 | the chain yields the first truthy candidate; later candidates are ignored |
| `Comparison.FirstTruthyFallback` | blocks/comparison/comparison.js:18-31 | with no truthy candidate the chain yields the fallback |
| `Comparison.FirstTruthySingle` | blocks/comparison/comparison.js:62 | `v` or-else `fallback` is `v` when `v` is a non-empty string, else the fallback |
| `Comparison.ModelOf` | blocks/comparison/comparison.js:5-14 | a parsed script gives its model; a missing or unparseable one gives a model with no fields |
| `Comparison.UnparseableIsAbsent` | blocks/comparison/comparison.js:8-13 | an unparseable script resolves the title, description, images and spec rows exactly as no script does, and contributes no items |
| `Comparison.Title` | blocks/comparison/comparison.js:17-18 | the title is never empty |
| `Comparison.TitleChain` | blocks/comparison/comparison.js:17-18 | title = model title if non-empty, else the trimmed first heading if non-empty, else "Compare models" |
| `Comparison.DescriptionChain` | blocks/comparison/comparison.js:20-22 | description = model description if non-empty, else the trimmed first paragraph HTML, else "" |
| `Comparison.ImageChains` | blocks/comparison/comparison.js:24-31 | left = `leftImage`, else image 0, else ""; right = `rightImage`, else image 1 if non-empty, else image 0, else "" |
| `Comparison.OneImageServesBoth` | blocks/comparison/comparison.js:26-31 | with no model images and one authored image, both sides show that image |
| `Comparison.LeftImage` | blocks/comparison/comparison.js:80-88 | the left `img` exists iff its source is non-empty; its alt is `leftAlt` or "Left image" |
| `Comparison.RightImage` | blocks/comparison/comparison.js:157-165 | the right `img` exists iff its source is non-empty; its alt is `rightAlt` or "Right image" |
| `Comparison.VehicleTitleDefaults` | blocks/comparison/comparison.js:95-104 | vehicle titles are the model's `leftTitle`/`rightTitle`, or "" |
| `Comparison.SpaceRun` | blocks/comparison/comparison.js:50 | the `\s*` of the split pattern: a maximal run of JavaScript white space |
| `Comparison.MatchEnd` | blocks/comparison/comparison.js:50 | a match of the split pattern is non-empty and ends inside the string |
| `Comparison.SplitCount` | blocks/comparison/comparison.js:50 | the split yields one more part than the item has separator characters |
| `Comparison.SplitShape` | blocks/comparison/comparison.js:50 | no part holds a separator; the white space around each separator is absorbed; empty parts are kept |
| `Comparison.SplitSegments` | blocks/comparison/comparison.js:50 | the split's parts are the plain segments between consecutive separator characters, up to trimming: as many parts as segments, and each part trims to its segment's trim |
| `Comparison.InnerPartsTrimmed` | blocks/comparison/comparison.js:50 | a part strictly between two others equals its segment with the surrounding white space removed |
| `Comparison.SegmentsCount` | blocks/comparison/comparison.js:50 | there is one segment more than there are separator characters |
| `Comparison.InnerTrimNoOp` | blocks/comparison/comparison.js:52 | the `.trim()` calls change no part strictly between two others; only the first part's start and the last part's end can change |
| `Comparison.TableRowCases` | blocks/comparison/comparison.js:37-44 | a row yields a spec iff it has at least 2 cells: (label, left, right) = (cell 1, cell 0, cell 2) for 3 or more cells, (cell 0, cell 1, "") for 2 |
| `Comparison.ListRowIff` | blocks/comparison/comparison.js:49-54 | a list item yields a spec iff it holds at least two separator characters, i.e. splits into at least 3 parts |
| `Comparison.ListRowSegments` | blocks/comparison/comparison.js:49-54 | a list item yields a spec iff it has at least three segments, and then (label, left, right) are its first three segments, trimmed |
| `Comparison.ItemRowCases` | blocks/comparison/comparison.js:59-64 | an item is kept iff present with a non-empty label, left or right value; missing fields become "" |
| `Comparison.TableShadowsList` | blocks/comparison/comparison.js:35-56 | list items are not consulted when a table exists |
| `Comparison.SpecRows` | blocks/comparison/comparison.js:34-65 | the spec rows are the DOM rows followed by the model's items |
| `Comparison.SpecCount` | blocks/comparison/comparison.js:34-65 | the spec count is the kept table rows (2+ cells) or kept list items (2+ separators), plus the kept `comparisonItems` entries: none without the array, else exactly the entries that are present with a non-empty label, left or right value |
| `Collect.FilterMapKept` | blocks/comparison/comparison.js:34-65 | collected entries are exactly the images of the accepted source elements, in source order |
| `Comparison.TableSpecs` | blocks/comparison/comparison.js:36-44 | the loop over table rows pushes exactly the rows' specs, in order |
| `Comparison.ListSpecs` | blocks/comparison/comparison.js:45-56 | the loop over list items pushes exactly the items' specs, in order |
| `Comparison.AppendItems` | blocks/comparison/comparison.js:58-65 | the loop over `comparisonItems` appends the kept items after the existing rows |
| `Comparison.Decorate` | blocks/comparison/comparison.js:1-169 | the rebuilt block has the resolved title, images, vehicle titles and spec rows, and a description only when it is non-empty |
| `Text.Trim` | blocks/comparison/comparison.js:38 | `trim()` removes exactly the leading and trailing white space: the result is empty iff the input is all white space, has no white space at either end, and is a slice with only white space around it |
| `Text.TrimIdempotent` | blocks/comparison/comparison.js:52 | trimming twice is trimming once, which makes the `.trim()` of an inner part a no-op (`Comparison.InnerTrimNoOp`) |
| `Text.TrimKeepsTrimmed` | blocks/comparison/comparison.js:52 | a string with no white space at either end is its own trim |
| `Text.TrimIs` | blocks/comparison/comparison.js:38 | the trim is the unique slice that starts and ends with non-space characters and has only white space around it |
| `Text.TrimPadded` | blocks/comparison/comparison.js:52 | removing white space from either end of a string does not change its trim |
| `Text.ToLower` | blocks/specifications/specifications.js:42 | lower-casing keeps the length, maps each character, and leaves no upper-case ASCII letter |
| `Compare.GetField` | blocks/compare/compare.js:5-16 | the result is the fallback, or the present value of one of the candidate keys that is an own property |
| `Compare.GetFieldFirst` | blocks/compare/compare.js:6-13 | the first qualifying key wins, even when later keys are also set |
| `Compare.GetFieldFallback` | blocks/compare/compare.js:5-15 | with no qualifying key the fallback is returned |
| `Compare.GetFieldKeepsZeroAndFalse` | blocks/compare/compare.js:10-12 | `0` and `false` are returned, not skipped |
| `Compare.TitlePrecedence` | blocks/compare/compare.js:20-24 | title = `compare-title`, else `compare_title`, else `compareTitle`, else "Compare Bikes" |
| `Compare.BikeOf` | blocks/compare/compare.js:33-75 | a bike's image alt and displayed name are the same value |
| `Compare.Children` | blocks/compare/compare.js:83 | a falsy `children` gives no child specs |
| `Compare.OwnFields` | blocks/compare/compare.js:9 | `hasOwnProperty.call` throws exactly on `null` and `undefined` |
| `Compare.BuildRows` | blocks/compare/compare.js:84-110 | one row per child, in order, with cells label, left, right and no filtering; otherwise the first `null`/`undefined` child is reported |
| `Compare.Decorate` | blocks/compare/compare.js:1-114 | throws iff `children` is truthy and not an array, or a child is `null`/`undefined`; otherwise gives the title, both bikes and one row per child |
| `Specifications.ContainerError` | blocks/specifications/specifications.js:10-23 | the container row fails iff it is missing, has no column, or has fewer than three paragraphs |
| `Specifications.ContentClass` | blocks/specifications/specifications.js:77-82 | content column 0 gets `specs-image`, column 1 gets `specs-text`, later ones no class |
| `Specifications.BuildContent` | blocks/specifications/specifications.js:77-82 | every column after the first is wrapped, in order, classed by position |
| `Specifications.Decorate` | blocks/specifications/specifications.js:9-92 | one tab and one article per row after the first, in order. Href = id = lower-cased title. Only index 0 is active. Brochure iff a fourth paragraph exists. The first bad row is reported |
| `Specifications.FindId` | blocks/specifications/specifications.js:120 | the scan stops at the first article whose id is the target, the index the lookup names |
| `Specifications.ClearFlags` | blocks/specifications/specifications.js:107-112 | after `classList.remove('active')` over a group no element of it is active |
| `Specifications.FirstWithId` | blocks/specifications/specifications.js:118-120 | the lookup gives the least index holding the id, or none iff no article has it |
| `Specifications.OwnHrefMatches` | blocks/specifications/specifications.js:119-124 | a tab's href always finds an article at or before its own position; a duplicate title finds the earlier one |
| `Specifications.FlagsCount` | blocks/specifications/specifications.js:107-124 | one selected index leaves exactly one flag set, none leaves none |
| `Specifications.Tabs.constructor` | blocks/specifications/specifications.js:33-56 | initially only item 0 and article 0 are active, and the ids are the articles' ids, equal to the hrefs |
| `Specifications.Tabs.Click` | blocks/specifications/specifications.js:102-125 | after a click exactly the clicked item is active and only the first article with its href; clicking the active tab changes nothing |

## Left out

- DOM creation, class names, `innerHTML` assignment and CSS structure: the
  model produces the values the DOM is built from. Description HTML is an
  opaque string.
- `JSON.parse` is not modelled. Its outcome is the input `Comparison.Script`:
  no script, unparseable, or a parsed model.
- Comparison JSON fields that hold something other than a string (number,
  boolean, object) are not modelled. A field is absent or a string.
- `window.getBlockData` is a runtime call. Its result is the input map of
  `Compare.Decorate`.
- Compare.Decorate: the cells and names hold the value assigned to
  `textContent`, not its string conversion (`String(0)` is "0" and so on).
  Numbers are integers; fractions and `NaN` are not modelled.
- Text.ToLower: only ASCII letters are lower-cased; JavaScript's full Unicode
  case mapping is not modelled.
- Event-listener registration and `preventDefault`: a click is a call of
  `Tabs.Click`.
- Specifications.Tabs.Click: promises exactly one active article, which
  holds for the exact-match lookup the model uses. The code's CSS selector
  selects nothing for a title that is not a valid CSS identifier, and then no
  article is active; that case is not modelled.
- The CSS selector `.specs-article#<href>` is modelled as an exact match on the
  first equal id. Selector parsing is not modelled, including ids that are not
  valid CSS identifiers (which would throw or select nothing).
- After a `TypeError` part-way through the specifications block, the partly
  rebuilt DOM is not modelled; only the error is.
- The brochure link's `href` and the bike-banner clone are not modelled: the
  model records only whether each article gets the brochure wrapper and the
  banner.
- The regular-expression engine: only the pattern `\s*[-–—:]\s*` is modelled,
  as a leftmost, greedy separator split.
- blocks/teaser/teaser.js (class decoration and hover listeners) and
  blocks/poster/poster.js (DOM lookups and a two-step alt fallback) are not
  part of this model.
