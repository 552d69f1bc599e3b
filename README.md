# Comment list component: a Dafny model

This project models `CommentListComponent`, the browser component in
`js/components/comment-list.js` of an archive viewer for social-media comments.
The component renders top-level comments and their direct replies as cards. It
keeps the list it last rendered, throttles scroll notifications to one per
animation frame, and routes clicks on a card's export button to an optional
handler.

The model has these parts:

- `JsValues` (`js_values.dfy`): JavaScript strings as sequences of UTF-16 code
  units, `ToInt32` (the signed 32-bit wrap of the bitwise operators), `Math.abs`,
  and an ASCII `toUpperCase`.
- `Hashing` (`hashing.dfy`): `hashString` as a method with the source's loop and
  its shift-and-subtract step. It is proved equal to the fold
  `h := ToInt32(31*h + c)` and to the int32 reduction of the classic polynomial
  hash. `generateAvatarColor` picks from the fixed 12-colour palette.
- `NumberFormat` (`number_format.dfy`): `formatNumber`, built from `toFixed(1)`
  and the first-occurrence `replace('.0', '')` as the code writes them. It is
  proved to print small counts in full, end in `K`/`M`, never contain `.0`, and
  read back as the count rounded to the nearest tenth of the unit.
- `Escaping` (`escaping.dfy`): `escapeRegex`, proved to give a literal pattern
  whose text is the input. `escapeHTML` is the HTML standard's text
  serialization, which escapes `&`, no-break space, `<` and `>`. Both it and
  the attribute escaping are proved to read back as the input.
- `Highlight` (`highlight.dfy`): `highlightText` as leftmost, non-overlapping,
  case-insensitive marking of a literal term. The text is a sequence of plain
  units and marked runs.
- `Cards` (`cards.dfy`): `createSingleComment`, `createCommentCard` and the
  rendering of a list, as card records. A card holds its reply flag, class,
  avatar size, avatar variant, escaped author, text, likes label, heart, and
  comment id.
- `ScrollThrottle` (`scroll_throttle.dfy`): the `isScrolling` flag as a state
  machine over `Scroll`, `Frame` and handler-change events.
- `ClickRouting` (`click_routing.dfy`): the container's click listener as a
  function over the target's ancestor chain.
- `CommentListComponent` (`comment_list.dfy`): the component as a class. It holds
  the stored comments, `isLoading`, the search term, the handlers, the throttle
  flag, and the container's content as a sequence of card, skeleton and
  empty-state nodes.

The component is built from the cards as the code computes them
(`Cards.Variant.AsWritten`). Where the code throws, the as-written functions return
`None` and `CommentList.Render` reports the throw. A corrected card
(`Cards.Variant.Corrected`) is defined alongside for each defect listed under
Findings, with the intended properties proved. `Cards.AsWrittenIsCorrectedWithoutTerm`
shows that the two cards agree wherever the defects do not show.

Notable behaviour of the code:

- This file has no export-format menu. Its click listener calls
  `onCommentExport(commentId)` with one argument.
- The date is `toLocaleDateString()` (line 93). It is not a relative-time label.
- The likes label is always `"<formatNumber> likes"` (line 157). It is shown
  even for zero likes, and there is no singular `like`.
- `setSearchTerm` re-renders the list, but the search term never reaches the
  text. This is the first row under Findings.
- A comment with `like_count` 0 and no `reactionsCount` makes `render` throw
  before the container changes, leaving `isLoading` set. This is the second row
  under Findings.

## Model

| member | source | states |
|---|---|---|
| `JsValues.ToInt32` | js/components/comment-list.js:256-257 | the wrap lies in the signed 32-bit range and differs from its argument by a multiple of 2^32 |
| `JsValues.ToInt32Affine` | js/components/comment-list.js:256-257 | wrapping an operand before `a*x + b` doesn't change the wrapped result |
| `Hashing.SourceStep` | js/components/comment-list.js:256-257 | one step as the code writes it, `((h << 5) - h + c) & …`, always yields an int32 |
| `Hashing.SourceStepIsTimes31` | js/components/comment-list.js:256-257 | `((h << 5) - h + c) & …` equals `ToInt32(31*h + c)` for every int32 `h` |
| `Hashing.HashFold` | js/components/comment-list.js:253-258 | the folded hash is always an int32 |
| `Hashing.HashFoldIsPolynomial` | js/components/comment-list.js:252-258 | the fold equals the sum of `s[i]*31^(n-1-i)` reduced to int32 |
| `Hashing.HashValue` | js/components/comment-list.js:259 | `Math.abs` of the fold lies in `[0, 2^31]` |
| `Hashing.HashString` | js/components/comment-list.js:252-260 | the loop returns `abs(fold)` over the code units, in `[0, 2^31]`, and 0 for the empty string |
| `Hashing.AvatarColorIndex` | js/components/comment-list.js:245-246 | the index is below 12 and congruent to the hash modulo 12 |
| `Hashing.AvatarColor` | js/components/comment-list.js:239-247 | the colour is an entry of the fixed palette, a 7-unit `#RRGGBB` |
| `Hashing.AvatarColorOfEmptyName` | js/components/comment-list.js:246 | the empty name gets the first palette entry |
| `NumberFormat.Decimal` | js/components/comment-list.js:272 | `toString()` yields digits only, with no leading zero except for 0 |
| `NumberFormat.ParseDecimalOfDecimal` | js/components/comment-list.js:272 | reading the digits back gives the number |
| `NumberFormat.ToFixed1` | js/components/comment-list.js:267 | `toFixed(1)` prints an integer part, a dot and one digit that together read back as the number of tenths |
| `NumberFormat.ReplaceFirstAbsent` | js/components/comment-list.js:267 | `replace` with a string pattern leaves a string that holds no occurrence unchanged |
| `NumberFormat.ReplaceFirstOccurrence` | js/components/comment-list.js:267 | `replace` with a string pattern substitutes the first occurrence and keeps everything before and after it |
| `NumberFormat.ReplaceDotZeroAfterDigits` | js/components/comment-list.js:267 | `replace('.0', '')` on `toFixed(1)` output removes `.0` exactly when the decimal is 0 |
| `NumberFormat.RoundToStep` | js/components/comment-list.js:267 | the rounded tenths are the nearest to the count (halves rounded up) |
| `NumberFormat.AbbreviateShape` | js/components/comment-list.js:266-271 | an abbreviated label is digits, then `.d` with `d` nonzero or nothing, then the suffix |
| `NumberFormat.FormatNumber` | js/components/comment-list.js:265-273 | the label is non-empty; below 1000 it is digits that read back as the count; 1000 to 999999 ends in `K`, from 1000000 it ends in `M` |
| `NumberFormat.FormatNumberSmall` | js/components/comment-list.js:272 | below 1000 the label is the canonical decimal numeral of the count, with no leading zero |
| `NumberFormat.FormatNumberNoDotZero` | js/components/comment-list.js:265-273 | no label contains `.0` |
| `NumberFormat.FormatNumberRounds` | js/components/comment-list.js:266-271 | reading an abbreviated label back gives the count to the nearest tenth of its unit |
| `NumberFormat.FormatNumberOf999` | js/components/comment-list.js:272 | 999 gives `999` |
| `NumberFormat.FormatNumberOf1000` | js/components/comment-list.js:269-270 | 1000 gives `1K` |
| `NumberFormat.FormatNumberOf1500` | js/components/comment-list.js:269-270 | 1500 gives `1.5K` |
| `NumberFormat.FormatNumberOf2000000` | js/components/comment-list.js:266-267 | 2000000 gives `2M` |
| `NumberFormat.FormatNumberJustBelowMillion` | js/components/comment-list.js:269-270 | counts between 999951 and 999999 are labelled `1000K` |
| `Escaping.EscapeRegex` | js/components/comment-list.js:232-234 | output length is input length plus the number of metacharacters; every metacharacter comes out escaped; an input without one is unchanged |
| `Escaping.EscapeRegexRoundTrip` | js/components/comment-list.js:232-234 | dropping the added backslashes gives back the input |
| `Escaping.EscapeHtml` | js/components/comment-list.js:278-282 | the escaped text contains no `<` or `>` |
| `Escaping.EscapeHtmlRoundTrip` | js/components/comment-list.js:278-282 | decoding the character references gives back the text |
| `Escaping.EscapeHtmlKeepsQuote` | js/components/comment-list.js:278-282 | text escaping leaves `"` unchanged |
| `Escaping.EscapeAttribute` | js/components/comment-list.js:105 | the attribute-escaped value contains no `"`, `<` or `>` |
| `Escaping.EscapeAttributeRoundTrip` | js/components/comment-list.js:105 | the attribute-escaped value decodes back to the input |
| `Escaping.EscapeAttributeWithoutQuote` | js/components/comment-list.js:105 | for a value without `"`, attribute escaping and text escaping agree |
| `Highlight.MarkMatches` | js/components/comment-list.js:225-226 | with the marks removed the text is unchanged; every marked run equals the term up to case; no plain unit starts an occurrence of the term; a match at the start is marked |
| `Highlight.MarkMatchesUnique` | js/components/comment-list.js:225-226 | any marking with those three properties is the one the leftmost scan yields |
| `Highlight.NoMatchNoMark` | js/components/comment-list.js:225-226 | a text with no occurrence of the term has nothing marked |
| `Highlight.HighlightText` | js/components/comment-list.js:222-227 | an empty term leaves the text plain; any term keeps the characters and marks only runs equal to the term up to case; a non-empty term leaves no occurrence unmarked |
| `Cards.InitialLetter` | js/components/comment-list.js:92 | the uppercased 2nd unit if there is one, else the uppercased 1st, else `U`; the result is never a lowercase letter |
| `Cards.InitialLetterExamples` | js/components/comment-list.js:92 | `bob` gives `O`, `b` gives `B`, the empty name gives `U` |
| `Cards.LikesOperand` | js/components/comment-list.js:94 | a nonzero `like_count` wins; otherwise `reactionsCount`; undefined exactly when `like_count` is 0 or absent and `reactionsCount` is absent |
| `Cards.LikesLabelAsWritten` | js/components/comment-list.js:94 | the code throws exactly when `like_count \|\| reactionsCount` is undefined |
| `Cards.LikeCount` | js/components/comment-list.js:94 | a nonzero `like_count` wins; otherwise `reactionsCount` is used when present; where the code throws it is 0 |
| `Cards.LikesLabel` | js/components/comment-list.js:157 | the label ends in ` likes` after a non-empty figure, agrees with the code wherever the code doesn't throw, and reads `0 likes` where it throws |
| `Cards.ZeroLikesThrowsAsWritten` | js/components/comment-list.js:94 | `{like_count: 0}` without `reactionsCount` throws as written; corrected, it reads `0 likes` |
| `Cards.ResolvedText` | js/components/comment-list.js:153 | `text` when it is a non-empty string, else `content`, else the empty string |
| `Cards.RenderedTextAsWritten` | js/components/comment-list.js:153 | as written the card text is `escapeHTML(text \|\| content)` with nothing marked, and decodes back to it |
| `Cards.RenderedText` | js/components/comment-list.js:153 | with the term passed, the card text spells `escapeHTML(text \|\| content)`, decodes back to it, has no tag delimiters, marks only runs equal to the term up to case, leaves no occurrence unmarked, and equals the as-written text when the term is empty |
| `Cards.SearchTermMarksText` | js/components/comment-list.js:287-291 | text `a` searched for `a` is marked once the term is passed, and not as written |
| `Cards.AvatarUrl` | js/components/comment-list.js:102 | `medicalmedium` gets the local image; every other author gets its own avatar URL |
| `Cards.AvatarAltAsWritten` | js/components/comment-list.js:105 | as written the `alt` value has no `<` or `>` and decodes to the author |
| `Cards.AvatarAlt` | js/components/comment-list.js:105 | the corrected `alt` value has no `"`, `<` or `>`, decodes to the author, and equals the as-written value when the author has no `"` |
| `Cards.QuoteInAltAsWritten` | js/components/comment-list.js:105 | an author `"` leaves a bare `"` in the `alt` value as written; the corrected value has none |
| `Cards.AvatarFor` | js/components/comment-list.js:102-143 | `medicalmedium` gets the local image whatever its avatar URL; otherwise a non-empty URL gives an image with a hidden initial fallback; otherwise only the initial. The colour comes from the palette, the initial follows line 92, and an image carries the given `alt` |
| `Cards.CreateSingleComment` | js/components/comment-list.js:90-172 | the card is missing exactly when the as-written likes throw; otherwise a reply card has class `reply-card comment-card` and size 28, a top-level card `comment-card` and 32; the author is escaped and decodes back; the avatar, text and likes are the variant's; the heart shows iff the owner liked |
| `Cards.AsWrittenIsCorrectedWithoutTerm` | js/components/comment-list.js:90-172 | where the likes don't throw and the author has no `"`, the as-written card equals the corrected card with an empty term |
| `Cards.AnyThrowsExists` | js/components/comment-list.js:78-80 | a list of replies throws exactly when one of its replies throws |
| `Cards.ListThrowsExists` | js/components/comment-list.js:56 | a list throws exactly when a comment or one of its direct replies throws |
| `Cards.ReplyCards` | js/components/comment-list.js:78-80 | missing exactly when a reply throws as written; otherwise one reply card per reply, in order |
| `Cards.CreateCommentCard` | js/components/comment-list.js:73-85 | missing exactly when the comment or a direct reply throws as written; otherwise `1 + #replies` cards: the parent first (not a reply), then the replies' cards in order (all replies) |
| `Cards.RenderCards` | js/components/comment-list.js:56 | missing exactly when some comment of the list or a direct reply throws as written |
| `Cards.RenderCardsCount` | js/components/comment-list.js:56 | a list yields `Σ (1 + #replies)` cards |
| `Cards.RenderCardsAppend` | js/components/comment-list.js:56-60 | rendering `a ++ b` yields the cards of `a` followed by those of `b`, and throws iff one of them does |
| `Cards.SearchTermIgnoredAsWritten` | js/components/comment-list.js:153 | as written no rendered card has anything marked, whatever the search term |
| `Cards.SingleIgnoresReplies` | js/components/comment-list.js:90-172 | a card doesn't depend on its comment's replies |
| `Cards.ReplyCardsIgnoreNested` | js/components/comment-list.js:78-80 | the reply cards don't depend on the replies' own replies |
| `Cards.NestedRepliesIgnored` | js/components/comment-list.js:77-81 | a reply's own replies are never visited |
| `ScrollThrottle.Step` | js/components/comment-list.js:39-46 | the invariant is preserved. A scroll while idle sets the flag and requests one frame; a scroll while a frame is pending changes nothing. A frame with nothing pending changes nothing; one that runs clears the flag, takes the pending callback, and calls `onScroll` once if set, changing nothing else (the handler stays set). A handler change only sets the handler |
| `ScrollThrottle.RunBounds` | js/components/comment-list.js:35-47 | along any event sequence, at most one callback is pending, exactly when the flag is set. Frames run never exceed the scrolls, and `onScroll` calls never exceed the frames run |
| `ScrollThrottle.ThrottleFromStart` | js/components/comment-list.js:35-47 | from the start, `onScroll` calls ≤ frames run ≤ frame events, and frames run ≤ scroll events |
| `ScrollThrottle.ScrollsWhilePending` | js/components/comment-list.js:40 | while a frame is pending, any number of scrolls changes nothing |
| `ScrollThrottle.ScrollBurstNotifiesOnce` | js/components/comment-list.js:39-46 | from idle with a handler set, a burst of scrolls then one frame calls `onScroll` exactly once and ends idle with the handler still set |
| `ScrollThrottle.TwoBurstsNotifyTwice` | js/components/comment-list.js:39-46 | two bursts, each followed by a frame, call `onScroll` twice |
| `ClickRouting.Closest` | js/components/comment-list.js:20-22 | the index found is the nearest `.export-btn` in the chain, or none if there is none |
| `ClickRouting.RouteClick` | js/components/comment-list.js:19-26 | the default is prevented iff some element of the chain is an export button. The handler gets at most one call, exactly when it is set and a button is found, with the nearest button's `data-comment-id` |
| `ClickRouting.ClickOnExportButton` | js/components/comment-list.js:163-168 | a click on a card's export button or on its icon exports that card's comment id |
| `CommentListComponent.Skeletons` | js/components/comment-list.js:178 | `count` placeholder nodes |
| `CommentListComponent.CommentList.constructor` | js/components/comment-list.js:6-13 | no stored comments, not loading, throttle idle |
| `CommentListComponent.CommentList.Render` | js/components/comment-list.js:53-68 | `threw` holds exactly when some comment or direct reply throws; then `isLoading` stays set and the stored comments and container are unchanged. Otherwise replace stores `xs` and shows its cards, append stores `old ++ xs` and adds its cards after the old content; `isLoading` is false and the container stays in sync with the stored list |
| `CommentListComponent.CommentList.RenderSkeleton` | js/components/comment-list.js:177-196 | the container shows `count` placeholders; stored comments unchanged |
| `CommentListComponent.CommentList.ShowEmptyState` | js/components/comment-list.js:325-332 | the container shows one message; stored comments unchanged |
| `CommentListComponent.CommentList.Clear` | js/components/comment-list.js:317-320 | container and stored comments empty |
| `CommentListComponent.CommentList.SetSearchTerm` | js/components/comment-list.js:287-291 | term stored, stored comments unchanged, container re-rendered from them with cards that don't depend on the term |
| `CommentListComponent.CommentList.SetCommentExportHandler` | js/components/comment-list.js:296-298 | only the export handler changes |
| `CommentListComponent.CommentList.SetScrollHandler` | js/components/comment-list.js:303-305 | only the scroll handler changes |
| `CommentListComponent.CommentList.GetComments` | js/components/comment-list.js:310-312 | returns a sequence equal to the stored one |
| `CommentListComponent.CommentList.HandleClick` | js/components/comment-list.js:19-26 | the click listener follows `RouteClick`; no handler means no call |
| `CommentListComponent.CommentList.HandleScroll` | js/components/comment-list.js:39-47 | the scroll listener takes one `Scroll` step of the throttle |
| `CommentListComponent.CommentList.HandleAnimationFrame` | js/components/comment-list.js:41-44 | the frame callback takes one `Frame` step and calls `onScroll` iff a callback was pending and a handler is set |
| `CommentListComponent.RenderTwice` | js/components/comment-list.js:62-63 | rendering the same list twice without append shows the same cards both times and leaves the search term alone |
| `CommentListComponent.RenderThenAppend` | js/components/comment-list.js:58-63 | `render(a)` then `render(b, true)` stores `a ++ b` and shows `a`'s cards, then `b`'s |
| `CommentListComponent.SearchTermKeepsView` | js/components/comment-list.js:287-291 | setting one search term and then another shows the same container both times |
| `CommentListComponent.ZeroLikesRenderThrows` | js/components/comment-list.js:53-56 | rendering a comment with `like_count` 0 and no `reactionsCount` leaves `isLoading` set and the stored comments and container unchanged |

## Left out

- The date (line 93): `toLocaleDateString` depends on the locale, so cards carry no date.
- `updateInteractiveElements` (lines 201-217): tooltips and per-card hover listeners are DOM work. A replacing render builds fresh cards, each with one pair of listeners. Only an appending render adds a further pair to the cards already shown.
- Markup strings, inline styles and the avatar font size: these are presentation only. The card record keeps what the markup shows.
- The image `onerror` swap: the card records both the image and its hidden initial. The runtime visibility toggle is not modelled.
- `exportService`: the constructor stores it and nothing uses it.
- The container's content before construction: the model starts from an empty container.
- Handler identities: a handler is modelled only as set or unset. A throwing `onScroll` would leave `isScrolling` set for good, and that is not modelled.
- `requestAnimationFrame` timing: a frame is an explicit event.
- Default arguments (`append = false`, `count = 5`, `message = 'No comments found'`) are explicit parameters. A negative or fractional skeleton count, which makes `Array(count)` throw, is excluded by typing the count as `nat`.
- `src`, `data-comment-id` and the empty-state message go into the markup unescaped. The model keeps their raw values. An absent `comment_id` is interpolated as the string `undefined`, so the comment id is a string in the model.
- The stack limit of `push(...comments)` on very long lists.
- FormatNumber: like counts are exact non-negative integers. At a tie (`n % 100 == 50` for `K`, `n % 100000 == 50000` for `M`) the model rounds up, while `toFixed(1)` on the binary double may round either way. Counts too large for a double to hold `n / 1000000` exactly are not claimed to match.
- InitialLetter: uppercases ASCII letters only. Full Unicode `toUpperCase` can map other units, and sometimes to more than one unit.
- Authors are strings. An absent author makes `hashString` throw (line 254); that throw is not modelled, so the `'U'` initial only happens for the empty string.
- CommentListComponent.CommentList.SetSearchTerm: stored comments are values. The code stores the caller's comment objects (lines 60 and 63) and hands them out again (line 311). A later change to one of those objects shows at the re-render of line 290, and can make it throw and leave `isLoading` set. Such changes are not modelled: the stored comments always render again without throwing.
- Cards.RenderedText: the decoding property is stated for the text with the marks removed. The `<mark>` tags can split a character reference: the term `amp` on the text `&` gives `&<mark>amp</mark>;`, which does not decode back to `&`.
- CommentListComponent.CommentList.Render: a throw is reported as `threw`. The exception itself and what its caller does with it are not modelled.
- HighlightText: case-insensitive matching folds ASCII letters only, where the `i` flag also folds other letters.

## Findings

The component class renders the as-written cards. The corrected members are the
`Cards.Variant.Corrected` cards, with the intended properties proved about them.

| source | as written | input that shows it | evidently intended | confidence | as-written member | corrected member |
|---|---|---|---|---|---|---|
| js/components/comment-list.js:153 | `highlightText` gets one argument, so its default `''` applies. `this.searchTerm`, set at line 288, is never read and nothing is ever highlighted | `setSearchTerm("a")` on a comment whose text is `a` | pass the stored search term so that matches are wrapped in `<mark>` | high; not executed | `Cards.SearchTermIgnoredAsWritten` (with `Cards.SearchTermMarksText` and `CommentListComponent.SearchTermKeepsView`) | `Cards.RenderedText` |
| js/components/comment-list.js:94 | `like_count \|\| reactionsCount` is `undefined` when `like_count` is 0 and `reactionsCount` is absent. `formatNumber(undefined)` then throws at `num.toString()` (line 272) | a comment `{like_count: 0}` with no `reactionsCount` | read a missing count as 0 and show `0 likes` | high; not executed | `Cards.ZeroLikesThrowsAsWritten` (with `CommentListComponent.ZeroLikesRenderThrows`) | `Cards.LikesLabel` |
| js/components/comment-list.js:105 | the `alt` attribute uses `escapeHTML`, the text-node escaping, which leaves `"` unescaped. An author containing `"` ends the attribute and can add new attributes | author `x" onerror="…` on a comment with an avatar URL | escape `"` in attribute values | high; not executed | `Cards.QuoteInAltAsWritten` | `Cards.AvatarAlt` |
