# La Laguna page editor — a Dafny model of its rules

`origscript.js` turns a published page into an editable one inside an
embedding frame. An Edit button replaces the page body with a GrapesJS
editor; a Save button rebuilds a complete HTML document from a snapshot of
the original page and the edited body, and posts it to the parent frame.
This project models the rules inside that script and proves what they
guarantee:

- **Head sanitizer** (`cleanHeadToWhitelist`, module `HeadSanitizer`): the
  snapshot's head markup, after `<base…>` removal and parsing, is reduced to
  allow-listed elements (`META`, `TITLE`, `LINK`, `STYLE`, `SCRIPT`) whose
  `src`+`href` hold none of `grapesjs`, `min.css`, `beautify` (ignoring
  case), de-duplicated by outer HTML with the first occurrence kept, plus
  non-blank text nodes trimmed; the pieces are joined by newlines. The loop
  is a method proved against a specification on the node list.
- **Global rewrites** (module `Rewrites`): `/<base[^>]*>/gi` removal and
  `/\n{2,}/g → "\n\n"` (`collapseBlankLines`), each written as a
  left-to-right scan over `seq<char>`.
- **Parent origin and save target** (module `ParentOrigin`):
  `getParentOrigin` against `ALLOWED_PARENTS`, and `origin || "*"`.
- **Snapshot, attributes, preserved scripts and the saved document**
  (module `Reconstruction`): `attrs`, `takeSnapshot`, the
  `ORIGINAL_BODY_SCRIPTS` filter, and the template literal of the Save
  handler followed by base-tag removal, beautification and blank-line
  collapse.
- **Footer lock** (module `FooterLock`): the first `#ninja-badge` component
  in document order and its whole subtree get the eleven interaction flags
  switched off.
- **Edit/save session** (module `EditSession`): a class holding the closure
  state (`editor`, `originalHtml`, the two buttons' `disabled` flags), the
  module state (`SNAPSHOT`, `ORIGINAL_BODY_SCRIPTS`), the body markup and the
  list of posted messages, with the Edit and Save handlers as methods.

Browser and library behaviour the script calls into is passed in as
functions (`EditSession.Host`): parsing the head markup into nodes, listing
the body's `<script>` elements, loading the body into the editor's
component tree, the editor's export with its artifacts removed,
`html_beautify` (absent when the library did not load, in which case the
identity is used, as the script does), and `new URL(ref).origin` (absent
when it throws). The live document the handlers read is a value
(`Reconstruction.Document`), as is the frame `getParentOrigin` inspects
(`ParentOrigin.Frame`).

Two consequences of the code that are easy to miss:

- The denylist contains `min.css`, so every `*.min.css` head stylesheet is
  dropped, such as `theme.min.css`, not just the editor's own stylesheet
  (`HeadSanitizer.MinCssStylesheetDropped`).
- The start-up code writes `window.SNAPSHOT` (origscript.js:316), which is
  not the script's `let SNAPSHOT` binding (origscript.js:110). The snapshot
  used on save is therefore the one the first Edit click takes, and every
  later save reuses it (`EditSession.TwoCycles`).

Text matching follows JavaScript: `\s` and `trim` use the ECMAScript white
space and line terminator set (`Strings.IsSpace`); the case-insensitive
regular expressions only have ASCII patterns, so lowering ASCII letters
(`Strings.Lower`) decides them exactly.

## Model

| member | source | states |
|---|---|---|
| Strings.Trim | origscript.js:99-100 | `trim()` gives `""` exactly for an all-white-space string; otherwise the result neither starts nor ends with white space; it is a slice of the input, and everything cut away at either end is white space |
| HeadSanitizer.KeptIndices | origscript.js:90-101 | the nodes that contribute a piece are exactly the admissible first occurrences and the non-blank texts, listed in strictly increasing input order |
| HeadSanitizer.CleanHeadToWhitelist | origscript.js:83-104 | the loop with `cleaned` and `seen` returns the kept pieces of the parsed, base-stripped markup, in input order, joined by `"\n"` |
| HeadSanitizer.KeptNodesPassFilters | origscript.js:91-99 | every kept element has an allow-listed tag and a `src`+`href` clear of the denylist (a missing attribute reads as `""`); every kept text is not blank; nothing else is kept |
| HeadSanitizer.KeptElementsDistinct | origscript.js:97-98 | kept elements are pairwise distinct by outer HTML |
| HeadSanitizer.FirstOccurrenceKept | origscript.js:89-98 | every admissible element is represented by the first earlier-or-equal admissible element with the same outer HTML, which is kept |
| HeadSanitizer.KeptTextTrimmed | origscript.js:99-100 | a kept text contributes its trimmed value, non-empty and with no white space at either end |
| HeadSanitizer.TextNotDeduplicated | origscript.js:99-100 | two equal non-blank text nodes are both kept |
| HeadSanitizer.MinCssStylesheetDropped | origscript.js:86-98 | of a meta tag, the editor's script and a `theme.min.css` stylesheet only the meta tag survives |
| Rewrites.StripBaseTagsFixedIff | origscript.js:85 | the base-tag pass leaves its input unchanged exactly when no position starts a `<base[^>]*>` match (ignoring case) |
| Rewrites.StripBaseTagsShortens | origscript.js:85 | a match anywhere makes the output shorter |
| Rewrites.StripBaseTagsNoMatch | origscript.js:287 | without a match the output is the input |
| Rewrites.StripBaseTagsPrefix | origscript.js:85 | text without `<` in front of the rest is copied and the scan continues in the rest |
| Rewrites.SplicedBaseTagSurvives | origscript.js:85 | the pass is single: removing `<base>` from `<ba<base>se…` joins a new `<base` opening in the output |
| Rewrites.CollapseBlankLines | origscript.js:106-108 | the collapse never makes a string longer |
| Rewrites.CollapseNoTriple | origscript.js:106-108 | the output never holds three consecutive newlines |
| Rewrites.CollapseFixedIffNoTriple | origscript.js:106-108 | the output equals the input exactly when the input has no run of three or more newlines |
| Rewrites.CollapseIdempotent | origscript.js:106-108 | collapsing twice equals collapsing once |
| Rewrites.CollapseRun | origscript.js:107 | a maximal run of `n` newlines, followed by another character or by the end of the text, becomes `"\n\n"` when `n >= 2` and stays as it is otherwise, and the rest is collapsed on its own |
| Rewrites.CollapseKeepsText | origscript.js:107 | the characters other than newlines are kept, in order |
| ParentOrigin.GetParentOrigin | origscript.js:1-15 | the result is absent or a member of `ALLOWED_PARENTS` equal to the referrer's origin; it is absent for a top-level frame, an empty referrer or a failing URL parse, and present when none of these holds and the origin is allowed |
| ParentOrigin.ResolveSaveTarget | origscript.js:296-297 | the target is an allowed origin or `"*"`, and `"*"` exactly when no allowed parent origin was resolved |
| ParentOrigin.TrustedReferrerIsTarget | origscript.js:1-11 | a frame embedded from the trusted origin posts to that origin |
| ParentOrigin.UntrustedReferrerIsWildcard | origscript.js:5-11 | a frame whose referrer parses to any origin outside `ALLOWED_PARENTS` posts to `"*"` |
| ParentOrigin.EvilReferrerIsWildcard | origscript.js:5-11 | an embedded frame whose referrer is on `https://evil.example` posts to `"*"` |
| Reconstruction.RenderAttr | origscript.js:69 | `name="value"` is three characters longer than name and value together, has `=` right after the name, and is not blank |
| Reconstruction.Attrs | origscript.js:68-69 | a missing element or one without attributes gives exactly `""`, and the result is blank only then; one attribute renders as `name="value"` |
| Reconstruction.AttrsSnoc | origscript.js:69 | attributes are joined by exactly one space, in order |
| Reconstruction.TakeSnapshot | origscript.js:71-81 | the doctype is the document's or `<!DOCTYPE html>`, the head markup the head's or `""`; the root and body attribute strings are the rendered attributes of those elements, blank exactly when there are none |
| Reconstruction.PageScripts | origscript.js:173-175 | the preserved scripts are exactly those whose `src` (or `""`) names neither `grapesjs` nor `beautify`, ignoring case |
| Reconstruction.PageScriptsAppend | origscript.js:174-177 | the filter keeps the relative order of the scripts |
| Reconstruction.EditorScriptsNotPreserved | origscript.js:173-177 | when every body script is the editor's, nothing is preserved |
| Reconstruction.BodyOpenBare | origscript.js:276 | the body opens as bare `<body>` exactly when the original body had no attributes |
| Reconstruction.Reconstruct | origscript.js:277-288 | the saved document never holds three consecutive newlines |
| Reconstruction.ReconstructPlain | origscript.js:277-288 | without a beautifier, a template with no base tag and no triple newline is saved exactly as written, and one with a base tag is changed |
| FooterLock.FindFrom | origscript.js:225 | a found path leads to a component with id `ninja-badge` |
| FooterLock.FindFromNoneComplete | origscript.js:225-226 | a search that finds nothing passed no badge |
| FooterLock.FindFromFirst | origscript.js:225-227 | no component before the found one in document order is a badge |
| FooterLock.LockAtSpec | origscript.js:229-246 | locking a subtree switches every flag off at and below it, keeps every other component's flags, and keeps the shape and ids |
| FooterLock.LockAtShape | origscript.js:229-246 | locking neither adds nor removes components |
| FooterLock.NoBadgeNoChange | origscript.js:225-226 | without a badge the tree is unchanged |
| FooterLock.LockFooterSpec | origscript.js:224-247 | `lockFooter` locks exactly the subtree of the first badge in document order, leaves all else untouched, and changes nothing without a badge |
| EditSession.BuildSaveMessage | origscript.js:274-304 | the posted message carries the rebuilt document of the sanitized snapshot head, the fragment and the preserved scripts, to an allowed origin or `"*"` (the latter exactly when none resolved), and holds no triple newline |
| EditSession.Session.constructor | origscript.js:158-167 | Edit enabled, Save disabled, no editor, no snapshot, nothing sent |
| EditSession.Session.Edit | origscript.js:169-257 | a no-op while an editor exists; otherwise the snapshot is taken only if none exists, the page's own body scripts are preserved, the body is kept as `originalHtml` and replaced by the editor's mount point, the editor holds the footer-locked components, Edit is disabled and Save enabled |
| EditSession.Session.Save | origscript.js:259-305 | a no-op without an editor; otherwise the body becomes the edited fragment, one message with the document rebuilt from the stored snapshot is sent, the editor is gone, Edit is enabled and Save disabled; the snapshot and preserved scripts do not change |
| EditSession.Session.Close | origscript.js:271-304 | the state changes of a save, keeping every message's target allowed or `"*"` |
| EditSession.TwoCycles | origscript.js:110-274 | two edit/save cycles with extra disabled clicks send two messages, both rebuilt from the snapshot of the first Edit, the second with the scripts of the first session's fragment |

## Left out

- `initDomainSpecificContent` (origscript.js:17-66): host-name checks, `fetch`, timers and DOM insertion; network and I/O with no rule to state.
- `loadScript` and `addCDNs` (origscript.js:113-136): asynchronous loading of the editor's scripts and styles.
- `startWhenReady` (origscript.js:308-326): document readiness, the content-type and top-level checks and event wiring; its `window.SNAPSHOT` write does not reach the `SNAPSHOT` the handlers use, so leaving it out changes nothing they read.
- The `gjs-controls` guard of `makeBodyEditable` (origscript.js:139), button styling, the style sheet hiding the editor's panels and `console.log` (origscript.js:141-164, 202-220, 303): presentation only.
- Browser parsing and serialization (`innerHTML`, `outerHTML`, `childNodes`, `XMLSerializer`, `querySelectorAll`): passed in as functions and values.
- GrapesJS (`grapesjs.init` with its configuration, `setComponents`, `getHtml`, `find`, `destroy`; origscript.js:184-200, 222, 225, 262, 290): the component tree after loading, the export and the search are functions or values; the editor's own behaviour and the user's edits are not modelled.
- The three fragment-stripping regular expressions (origscript.js:262-265) and `html_beautify` with its options (origscript.js:267-269): uninterpreted functions.
- The controls element removed and re-appended around body rewrites (origscript.js:179-182, 272): the modelled body markup is the body without the controls.
- `window.top.postMessage` (origscript.js:304): modelled as appending the message with its target to a list.
- FooterLock.LockFooter: the lock is modelled on a value tree addressed by paths, not as in-place updates of shared component objects; aliasing between components is not captured.
- Changes other page code makes to the live document between clicks are not modelled; each handler takes the document it reads as a parameter.
