# Discord Reaction Checker — a verified model of its search engine

`discord-reaction-checker.user.js` is a userscript that adds a search panel to
Discord's "Reactions" dialog. Discord renders the dialog's user list as a
virtualised list: only the rows near the viewport exist at any time. To answer
"did this user react?", the script therefore scrolls the list round by round.
Each round it:

- classifies the rendered nodes into user rows and the emoji/count rows of the
  left column;
- parses each user row into an entry (id, lines, normalised lines, match
  tokens), memoised per DOM node;
- stores new entries in an insertion-ordered map keyed by a signature;
- matches them against the query with a graduated rule.

The same machinery loads the whole list, numbers it for display, and caches it
per reaction tab.

This project models that engine in Dafny and proves what each piece promises.

| module (file) | what it models |
|---|---|
| `Wrappers` (`wrappers.dfy`) | `Option` |
| `Arith` (`arith.dfy`) | `Math.max`, `Math.min`, `Math.abs` |
| `Seqs` (`seqs.dfy`) | `Array.prototype.find` |
| `Text` (`text.dfy`) | `normalize`, `normalizeForMatch`, `compactIdentityToken`, `trim`, `\s`, `split`/`join`, UTF-16 `length`, decimal rendering |
| `UserIds` (`user_ids.dfy`) | `extractUserIdFromText` (the regular expression `(?:^\|\D)(\d{16,21})(?:\D\|$)`), `extractUserId` |
| `RowClassifier` (`row_classifier.dfy`) | `getRowLines`, the counter/word/identity predicates, `looksLikeUserRow`, `looksLikeUserRowRelaxed`, the tier order of `getRows` |
| `EntryExtractor` (`entry_extractor.dfy`) | `parseRowEntry` and its `rowEntryCache` memo (a class) |
| `UserMaps` (`user_maps.dfy`) | the insertion-ordered JavaScript `Map` the scan fills (a class) |
| `MatchEngine` (`match_engine.dfy`) | `rowMatchesEntry`, `findEntryInMap`, `formatUserList` |
| `ScanLoop` (`scan_loop.dfy`) | `collectRows`, the offset arithmetic of `triggerScroll`, `isNearBottom`, the round loop of `scanReactionUsers` |
| `ViewportLocator` (`viewport_locator.dfy`) | `getScrollableContainer`: ancestor scoring, the first-maximum election, the fallback |
| `ReactionCache` (`reaction_cache.dfy`) | `getActiveReactionFingerprint`, `findUser`, the panel's cache with `syncCacheWithActiveReaction`, `runFind` and `runLoadAll` (a class) |

## How the model is built

- **Pure code stays pure.** The pure parts of the script (expressions and
  `some`/`every`/`filter`/`map`) are Dafny functions and predicates. The lemmas
  beside them state what the code promises: characterisations, round trips,
  idempotence, precedence.
- **Code that mutates becomes classes and methods.**
  - `RowEntryCache` stands for the memo WeakMap.
  - `UserMap` stands for the scan's `Map`.
  - `Scroller` stands for the scroll element.
  - `ReactionPanel` stands for the panel's closure variables.
  - Each loop of the script is a `while` loop. `CollectMatchTokens`,
    `CollectRows`, `ScoreAncestors` and `ElectFirstMax` are proved against a
    reference function.
  - The round loop of `scanReactionUsers` (`ScanLoop.ScanRounds`) returns a
    ghost history of the scan: the rows and entries of each round, and
    each round's progress flag. It is proved against the host: each round's
    rows are what the host showed, each flag says whether the map grew or the
    scroller moved, no break rule fired before the last round, and the scan
    ended by a match, by a break rule or at the round limit.
- **The DOM becomes plain data.**
  - A row is a `RowView` record. It holds the node identity (the memo key),
    whether it is laid out, whether it sits in the script's controls, its
    height and width, its `innerText`/`textContent`, its child count, its two
    identity attributes, the nine attribute values `extractUserId` tries, and
    an avatar flag.
  - The browser supplies what each scan round shows through a host function
    from round number to rows and post-wait list height.
- **JavaScript semantics are written out.**
  - `\s` is the ECMAScript WhiteSpace and LineTerminator set.
  - `\d` is the ASCII digits.
  - `length` counts UTF-16 code units.
  - `Math.floor(clientHeight * 0.95)` is `(19 * clientHeight) / 20` on naturals.
  - `dialogRect.width * 0.18` is exact real arithmetic.

The numeric-id rule of `rowMatchesEntry` (line 266) applies whenever the
`@`-stripped query holds a run of 16 to 21 digits bounded by non-digits, even
inside other text, and not only when the query is a bare digit run
(`MatchEngine.IdQueryDecidesById`).

## Model

| member | source | states |
|---|---|---|
| Seqs.FindFirstNone | discord-reaction-checker.user.js:245 | `find` returns nothing exactly when no element satisfies the test |
| Seqs.FindFirstAt | discord-reaction-checker.user.js:245 | `find` returns the element at the first index where the test holds |
| Seqs.FindFirstIsAnElement | discord-reaction-checker.user.js:245 | what `find` returns is an element satisfying the test |
| Seqs.FindFirstIsFirst | discord-reaction-checker.user.js:245 | what `find` returns sits at an index where the test holds and fails everywhere before |
| Seqs.FindFirstAgree | discord-reaction-checker.user.js:245 | two tests that agree on every element find the same element |
| Text.LowerChar | discord-reaction-checker.user.js:24 | lower-casing maps ASCII capitals to small letters and leaves every other character alone |
| Text.LowerCharKeepsClasses | discord-reaction-checker.user.js:24-29 | lower-casing neither creates nor removes white space or zero-width characters |
| Text.WithoutKeepsAt | discord-reaction-checker.user.js:30 | a character outside the deleted class stays in place between the survivors before and after it |
| Text.WithoutNothingDropped | discord-reaction-checker.user.js:141 | deleting a class that occurs nowhere returns the string unchanged |
| Text.WithoutKeeps | discord-reaction-checker.user.js:141 | what survives a deletion is outside the deleted class and keeps every class the input's characters share |
| Text.TrimStart | discord-reaction-checker.user.js:24 | `trimStart` returns a suffix of its input that does not start with white space |
| Text.TrimStartDropsSpaces | discord-reaction-checker.user.js:24 | everything `trimStart` removes is white space |
| Text.TrimEnd | discord-reaction-checker.user.js:24 | `trimEnd` returns a prefix of its input that does not end with white space |
| Text.TrimEndDropsSpaces | discord-reaction-checker.user.js:24 | everything `trimEnd` removes is white space |
| Text.Trim | discord-reaction-checker.user.js:24 | `trim` returns a string no longer than its input with no white space at either end |
| Text.TrimEmptyIffBlank | discord-reaction-checker.user.js:139-140 | `trim` gives the empty string exactly for a string of white space only |
| Text.TrimIdempotent | discord-reaction-checker.user.js:66 | trimming twice is trimming once |
| Text.TrimOfSolid | discord-reaction-checker.user.js:66 | a string that neither starts nor ends with white space is its own trim |
| Text.TrimKeepsShape | discord-reaction-checker.user.js:24 | trimming a string whose spaces are single and plain keeps them single and plain |
| Text.CollapseSpaces | discord-reaction-checker.user.js:24 | `replace(/\s+/g, ' ')` is empty exactly when its input is, and never longer |
| Text.CollapseSpacesShape | discord-reaction-checker.user.js:24 | after the collapse the only white space left is single plain spaces |
| Text.CollapseKeepsBlankness | discord-reaction-checker.user.js:24 | the collapse output is blank exactly when its input is |
| Text.CollapseCommutesWithLower | discord-reaction-checker.user.js:24 | collapsing white space and lower-casing commute |
| Text.Normalize | discord-reaction-checker.user.js:24 | `normalize` never lengthens its input |
| Text.NormalizeIsNormalized | discord-reaction-checker.user.js:24 | `normalize` output is trimmed, has single plain spaces only between words and no ASCII capital |
| Text.NormalizeEmptyIffBlank | discord-reaction-checker.user.js:24 | `normalize` gives the empty string exactly for blank input |
| Text.NormalizeIdempotent | discord-reaction-checker.user.js:24 | normalising twice is normalising once |
| Text.NormalizedIsFixpoint | discord-reaction-checker.user.js:24 | a string already in normal form is left unchanged |
| Text.NormalizeIgnoresCase | discord-reaction-checker.user.js:24 | strings with the same lower-case form normalise alike |
| Text.NormalizeViaLower | discord-reaction-checker.user.js:24 | `normalize` equals lower-casing first, then collapsing and trimming |
| Text.NormalizeForMatch | discord-reaction-checker.user.js:25-29 | `normalizeForMatch` never lengthens its input |
| Text.NormalizeForMatchShape | discord-reaction-checker.user.js:25-29 | `normalizeForMatch` output has no zero-width character, no ASCII capital and only plain spaces |
| Text.NormalizeForMatchOfBlank | discord-reaction-checker.user.js:25-29 | blank input gives the empty string |
| Text.NormalizeForMatchIgnoresCase | discord-reaction-checker.user.js:25-29 | upper-casing the input does not change `normalizeForMatch` |
| Text.StripLeadingAts | discord-reaction-checker.user.js:30 | `replace(/^@+/, '')` never lengthens its input |
| Text.StripLeadingAtsShape | discord-reaction-checker.user.js:30 | what is left is a suffix not starting with `@`, and everything cut is `@` |
| Text.CompactIdentityToken | discord-reaction-checker.user.js:30 | `compactIdentityToken` never lengthens its input |
| Text.CompactIdentityTokenHasNoSeparator | discord-reaction-checker.user.js:30 | the compact token holds no `.`, `_`, `-` or white space |
| Text.DigitsAreFixed | discord-reaction-checker.user.js:25-30 | a string of ASCII digits is its own normalised, `@`-stripped and compact form |
| Text.WithoutIgnoresTrim | discord-reaction-checker.user.js:139-141 | deleting a class containing all white space gives the same result with or without trimming first |
| Text.Split | discord-reaction-checker.user.js:65 | `split` always yields at least one piece |
| Text.SplitWithout | discord-reaction-checker.user.js:65 | a string without the delimiter splits into itself alone |
| Text.SplitAtFirst | discord-reaction-checker.user.js:65 | splitting at the first delimiter gives the piece before it, then the split of the rest |
| Text.JoinSplit | discord-reaction-checker.user.js:65 | joining the pieces of a split with the delimiter gives the string back |
| Text.JoinStartsWithHead | discord-reaction-checker.user.js:247 | a joined string starts with its first part |
| Text.Utf16Length | discord-reaction-checker.user.js:161 | the UTF-16 length lies between the character count and twice it |
| Text.Utf16LengthConcat | discord-reaction-checker.user.js:160-161 | UTF-16 length adds over concatenation |
| Text.Decimal | discord-reaction-checker.user.js:539 | `${n}` is a non-empty string of decimal digits |
| Text.DecimalRoundTrip | discord-reaction-checker.user.js:539 | reading back the digits of `${n}` gives `n` |
| UserIds.RunEnd | discord-reaction-checker.user.js:72 | the end of a digit run: everything before it from the start is a digit, and it is the end or a non-digit |
| UserIds.RunEndIsUnique | discord-reaction-checker.user.js:72 | a maximal digit run from a start has only one possible end |
| UserIds.FindIdRun | discord-reaction-checker.user.js:72 | the regular-expression search reports a start inside the searched suffix |
| UserIds.FindIdRunIsLeftmost | discord-reaction-checker.user.js:72 | the search finds a whole run of 16–21 digits, none starts further left, and it reports none only when none exists |
| UserIds.ExtractUserIdFromText | discord-reaction-checker.user.js:71-74 | the id is empty or 16 to 21 characters long |
| UserIds.ExtractUserIdFromTextIsLeftmostRun | discord-reaction-checker.user.js:71-74 | the id is the leftmost whole digit run of 16–21 digits bounded by non-digits or the ends; empty exactly when none exists |
| UserIds.OverlongDigitRunHasNoId | discord-reaction-checker.user.js:72 | a string of more than 21 digits yields no id |
| UserIds.LeadingIdRunIsFound | discord-reaction-checker.user.js:72 | a whole 16–21 digit run at the start is the id found |
| UserIds.ExtractUserId | discord-reaction-checker.user.js:76-96 | a row's id is empty or 16 to 21 characters long |
| UserIds.ExtractUserIdIsFirstFound | discord-reaction-checker.user.js:79-95 | the row's id comes from the first candidate attribute that holds one; empty exactly when none does |
| RowClassifier.TrimmedNonEmpty | discord-reaction-checker.user.js:66-67 | `.map(trim).filter(Boolean)` yields no more lines than pieces |
| RowClassifier.TrimmedNonEmptyAreTrimmed | discord-reaction-checker.user.js:66-67 | every line kept is non-empty and trimmed |
| RowClassifier.TrimmedNonEmptyKeepsSolidLines | discord-reaction-checker.user.js:66-67 | pieces that are already trimmed and non-empty all pass unchanged |
| RowClassifier.RowLines | discord-reaction-checker.user.js:63-69 | a row has at most six lines, fewer than the 8- and 10-line caps, so those checks never fire |
| RowClassifier.RowLinesAreTrimmed | discord-reaction-checker.user.js:63-69 | every line of a row is non-empty and trimmed |
| RowClassifier.SingleLineText | discord-reaction-checker.user.js:63-69 | a text without line breaks gives its trim as its only line, or no line when blank |
| RowClassifier.TwoLineText | discord-reaction-checker.user.js:63-69 | a text of two trimmed non-empty lines gives exactly those two lines |
| RowClassifier.CountMeaningful | discord-reaction-checker.user.js:134 | the meaningful-line count never exceeds the line count |
| RowClassifier.CounterLineCharacterisation | discord-reaction-checker.user.js:138-143 | a line is a counter exactly when it is blank, or deleting white space, `,`, `.`, `，` leaves 1 to 8 ASCII digits |
| RowClassifier.CounterLineIgnoresTrim | discord-reaction-checker.user.js:139 | trimming a line does not change whether it is a counter |
| RowClassifier.GroupedCountIsCounterLine | discord-reaction-checker.user.js:138-143 | a count with a thousands comma such as `1,204` is a counter line |
| RowClassifier.ShortNumberIsCounterLine | discord-reaction-checker.user.js:138-143 | a run of 1 to 8 digits such as `42` is a counter line |
| RowClassifier.LongNumberIsNotCounterLine | discord-reaction-checker.user.js:138-143 | a run of more than 8 digits, such as a user id, is not a counter line |
| RowClassifier.LineWithLetterIsNotCounterLine | discord-reaction-checker.user.js:138-143 | a line holding any character other than a digit or a separator is not a counter line |
| RowClassifier.SymbolAndCountAreCounterLines | discord-reaction-checker.user.js:114-126 | a symbol line without word-like characters above a counter line is a reaction-counter pair |
| RowClassifier.NameAndHandleAreNotCounters | discord-reaction-checker.user.js:114-126 | a non-counter line with a word-like character keeps a two-line text from being all counters or a reaction-counter pair |
| RowClassifier.HandleIsIdentity | discord-reaction-checker.user.js:128-136 | an `@handle` line of two or more characters makes the lines identity-like |
| RowClassifier.CounterLinesAreRejected | discord-reaction-checker.user.js:157 | lines that are all counters fail the text checks, whatever the caps |
| RowClassifier.CounterOnlyRowIsRejected | discord-reaction-checker.user.js:145-187 | a row whose whole text is one counter line is rejected by both tiers |
| RowClassifier.EmojiCountRowIsRejected | discord-reaction-checker.user.js:145-187 | an emoji-above-count row of the left column is rejected by both tiers |
| RowClassifier.NameAndHandleLookLikeUser | discord-reaction-checker.user.js:155-163 | a display name above an `@handle`, under 180 UTF-16 units, passes the strict text checks |
| RowClassifier.NameAndHandleRowIsUserRow | discord-reaction-checker.user.js:145-166 | a laid-out row of ordinary size and width showing a name above an `@handle` passes the strict tier |
| RowClassifier.StrictRowPassesRelaxedTier | discord-reaction-checker.user.js:145-187 | every row the strict tier accepts, the relaxed tier accepts too, unless it is inside the script's controls |
| RowClassifier.LooserCapsAcceptMore | discord-reaction-checker.user.js:155-184 | raising the line and length caps never turns an accepted line set into a rejected one |
| RowClassifier.Keep | discord-reaction-checker.user.js:193-195 | `filter` keeps only accepted rows of the list, and is empty exactly when no row is accepted |
| RowClassifier.KeepConcat | discord-reaction-checker.user.js:193-195 | filtering a joined list is joining the filtered parts |
| RowClassifier.KeepPlacesEachAccepted | discord-reaction-checker.user.js:193-195 | every accepted row is kept, at the position given by the accepted rows before it |
| RowClassifier.KeepKeepsOrder | discord-reaction-checker.user.js:193-195 | an accepted row is kept before every row that follows it in the list |
| RowClassifier.StrictRows | discord-reaction-checker.user.js:193-208 | a strict scope keeps only strict-tier rows of its list, and is empty exactly when none passes |
| RowClassifier.StrictRowsKeepEveryPassingRow | discord-reaction-checker.user.js:193-208 | every strict-tier row of the list is kept, and two of them keep their relative order |
| RowClassifier.RelaxedRows | discord-reaction-checker.user.js:210-213 | the relaxed scope keeps only relaxed-tier rows of its list, and is empty exactly when none passes |
| RowClassifier.RelaxedRowsKeepEveryPassingRow | discord-reaction-checker.user.js:210-213 | every relaxed-tier row of the list is kept, and two of them keep their relative order |
| RowClassifier.GetRows | discord-reaction-checker.user.js:189-215 | given that the combined selector finds exactly the elements of the three scopes, the tiers are tried in order: the first of list items, secondary items and divs with a strict-tier row gives its strict rows; only when none has one, the relaxed rows of the combined selector; every returned row belongs to one of the scopes |
| RowClassifier.RelaxedTierCoversEveryScope | discord-reaction-checker.user.js:210-214 | in the relaxed tier, every row of any scope that passes the relaxed test is returned |
| RowClassifier.RelaxedRowsHoldEveryPassingRow | discord-reaction-checker.user.js:210-213 | every row passing the relaxed test is among the relaxed rows |
| EntryExtractor.MapNonEmpty | discord-reaction-checker.user.js:229 | `map(f).filter(Boolean)` yields no more lines than it is given |
| EntryExtractor.MapNonEmptyAreNonEmpty | discord-reaction-checker.user.js:229 | what `.filter(Boolean)` keeps is never empty |
| EntryExtractor.TokenForms | discord-reaction-checker.user.js:233-238 | the tokens one round adds always include the line itself |
| EntryExtractor.LineTokens | discord-reaction-checker.user.js:232-239 | a normalised line is always among its own tokens |
| EntryExtractor.AddRoundAddsForms | discord-reaction-checker.user.js:233-238 | the three `add` calls of a round add exactly the line, its non-empty `@`-stripped form and its non-empty compact form |
| EntryExtractor.UnionOfCharacterisation | discord-reaction-checker.user.js:232-239 | a token is collected exactly when some line contributes it |
| EntryExtractor.TokensOfCharacterisation | discord-reaction-checker.user.js:232-239 | the loop's token set is exactly the union of the lines' tokens |
| EntryExtractor.TokensOfPrefix | discord-reaction-checker.user.js:232-239 | one more line adds exactly that line's tokens |
| EntryExtractor.AddLineTokens | discord-reaction-checker.user.js:233-238 | the body of the token loop adds one line's tokens |
| EntryExtractor.CollectMatchTokens | discord-reaction-checker.user.js:230-243 | the token loop and the id addition compute the entry's full token set |
| EntryExtractor.BuildRowEntry | discord-reaction-checker.user.js:227-254 | the record built for a row is the entry of that row's id and lines |
| EntryExtractor.EntryTokens | discord-reaction-checker.user.js:230-243 | every normalised line and its non-empty stripped and compact forms are tokens; a non-empty id is a token; nothing else is |
| EntryExtractor.EntrySignature | discord-reaction-checker.user.js:247 | the signature is the id when there is one, else starts with the first normalised line; empty exactly when there is neither |
| EntryExtractor.EntryDisplayName | discord-reaction-checker.user.js:248 | the display name is the first line, and empty exactly when there is no line |
| EntryExtractor.EntryUsername | discord-reaction-checker.user.js:245 | the username is the first line starting with `@`, else the second line, else empty |
| EntryExtractor.UsernameOfSolidLines | discord-reaction-checker.user.js:245 | the username rule on trimmed, non-empty lines |
| EntryExtractor.HandleLineOfSolidLines | discord-reaction-checker.user.js:245 | on trimmed lines, testing the trimmed line for `@` is testing the line itself |
| EntryExtractor.EntryOfRow | discord-reaction-checker.user.js:227-228 | an entry's lines are its row's lines, all trimmed and non-empty, and its id is the row's id |
| EntryExtractor.EntryNormalizedLines | discord-reaction-checker.user.js:229 | normalised lines are non-empty and no more numerous than lines |
| EntryExtractor.RowEntryCache.constructor | discord-reaction-checker.user.js:61 | the memo starts empty and consistent |
| EntryExtractor.RowEntryCache.SlotIsBuiltFromItsNode | discord-reaction-checker.user.js:218-256 | each memo slot holds the fingerprint and entry of some past state of its own node |
| EntryExtractor.RowEntryCache.ParseRowEntry | discord-reaction-checker.user.js:218-258 | on a fingerprint hit the cached entry comes back and the memo is unchanged; otherwise the row's entry is built and stored under the new fingerprint |
| UserMaps.InOrder | discord-reaction-checker.user.js:536 | the listing has one entry per key |
| UserMaps.ValuesOf | discord-reaction-checker.user.js:536 | `Array.from(map.values())` has one entry per key |
| UserMaps.InOrderAt | discord-reaction-checker.user.js:536 | the i-th listed entry is the one stored under the i-th inserted key |
| UserMaps.PutKeepsWellFormed | discord-reaction-checker.user.js:415 | `set` keeps every key listed exactly once |
| UserMaps.PutSemantics | discord-reaction-checker.user.js:415 | after `set` the key holds the new entry, other keys are untouched, order is extended, and size grows by one exactly for a new key |
| UserMaps.SizeIsEntryCount | discord-reaction-checker.user.js:544 | `map.size` is both the number of listed keys and of stored entries |
| UserMaps.UserMap.constructor | discord-reaction-checker.user.js:483 | `new Map()` is empty |
| UserMaps.UserMap.Set | discord-reaction-checker.user.js:415 | the map's contents after `set` are those `Put` describes |
| UserMaps.UserMap.Values | discord-reaction-checker.user.js:536 | the values listing has `size` entries |
| MatchEngine.SomeLineHitsMeans | discord-reaction-checker.user.js:284-292 | `some` holds exactly when one normalised line passes the callback |
| MatchEngine.BlankQueryNeverMatches | discord-reaction-checker.user.js:260-262 | a query whose normal form is empty matches nothing |
| MatchEngine.WhiteSpaceQueryNeverMatches | discord-reaction-checker.user.js:260-262 | a query of white space alone matches nothing |
| MatchEngine.IdQueryDecidesById | discord-reaction-checker.user.js:264-270 | a query holding an id matches exactly when the entry's id or one of its tokens is that id |
| MatchEngine.BareIdQuery | discord-reaction-checker.user.js:264-270 | a query of 16–21 digits is its own id and matches only by id or token, never by substring |
| MatchEngine.ExactHitMatches | discord-reaction-checker.user.js:272-278 | without an id, any exact token hit on a query form is a match |
| MatchEngine.ShortQueryIsRefused | discord-reaction-checker.user.js:280-282 | without an exact hit, a query whose stripped and compact forms are under 3 UTF-16 units matches nothing |
| MatchEngine.FallbackIsSubstringSearch | discord-reaction-checker.user.js:284-292 | past the earlier stages, the answer is whether some normalised line contains a query form |
| MatchEngine.MatchIgnoresCase | discord-reaction-checker.user.js:260-293 | matching ignores the case of the query's ASCII letters |
| MatchEngine.EntryIsFoundByItsId | discord-reaction-checker.user.js:260-270 | an entry with an id is matched by a search for that id |
| MatchEngine.RowEntryIsFoundByItsId | discord-reaction-checker.user.js:295-297 | a row whose entry has an id is matched by a search for that id |
| MatchEngine.FirstMatchIsFirst | discord-reaction-checker.user.js:545-547 | the search returns the matching entry at the smallest position, and none exactly when nothing matches |
| MatchEngine.FirstMatchStep | discord-reaction-checker.user.js:545-547 | the search from a position takes the entry there when it matches, else searches on from the next position |
| MatchEngine.FindEntryInMap | discord-reaction-checker.user.js:543-549 | no map gives none; otherwise the first matching entry in insertion order |
| MatchEngine.FormatUserListNumbersFromOne | discord-reaction-checker.user.js:535-541 | one line per entry, line i numbered `i + 1.` and showing a non-empty name |
| MatchEngine.FormatLineIsNumbered | discord-reaction-checker.user.js:539 | a listing line is the number, `". "`, then a non-empty label |
| MatchEngine.FormatLineShowsOneAt | discord-reaction-checker.user.js:538 | a username with or without one leading `@` is shown with exactly one `@` |
| ScanLoop.CollectRows | discord-reaction-checker.user.js:401-421 | each row is parsed through the memo; entries are absorbed in order; `newSeen` counts exactly the keys added; `matched` is the first matching row |
| ScanLoop.ParseThroughMemo | discord-reaction-checker.user.js:408 | parsing a row fills its own slot and leaves every other node's slot alone |
| ScanLoop.InsertIfNew | discord-reaction-checker.user.js:414-417 | an entry is stored only under a non-empty new signature, and the size grows by one exactly then |
| ScanLoop.HoldsSnoc | discord-reaction-checker.user.js:407-408 | with distinct nodes, parsing the next row keeps the slots of earlier rows |
| ScanLoop.AbsorbAllSnoc | discord-reaction-checker.user.js:407-418 | absorbing one more entry is one more insertion step |
| ScanLoop.FirstHitSnoc | discord-reaction-checker.user.js:410-412 | the first-match variable is set at the first matching row and never changed after |
| ScanLoop.AbsorbAllWellFormed | discord-reaction-checker.user.js:407-418 | the insertion loop keeps the map well-formed |
| ScanLoop.AbsorbAllKeepsOld | discord-reaction-checker.user.js:414-417 | existing keys keep their place and their entry: nothing is overwritten |
| ScanLoop.AbsorbAllKeys | discord-reaction-checker.user.js:414-417 | the keys afterwards are the old ones plus exactly the non-empty signatures seen |
| ScanLoop.AbsorbAllFirstWins | discord-reaction-checker.user.js:414-417 | among entries sharing a new signature, the first one seen is stored |
| ScanLoop.AbsorbAllConcat | discord-reaction-checker.user.js:492-499 | absorbing two rounds one after the other is absorbing their concatenation |
| ScanLoop.FirstHitIsFirst | discord-reaction-checker.user.js:410-412 | the row reported is the first whose entry matches; none exactly when none does |
| ScanLoop.FirstHitIndex | discord-reaction-checker.user.js:410-412 | a reported row sits at an index whose entry matches |
| ScanLoop.FoundRowMatches | discord-reaction-checker.user.js:410-412 | a reported row's memo slot holds an entry matching the non-empty target |
| ScanLoop.Scroller.constructor | discord-reaction-checker.user.js:423-472 | a scroller starts at the given offset, height and viewport |
| ScanLoop.Scroller.WriteScrollTop | discord-reaction-checker.user.js:436 | a `scrollTop` write lands only on a scroller that takes writes; height and viewport are unchanged |
| ScanLoop.ScrollStepBounds | discord-reaction-checker.user.js:435 | the step is at least 180 and, when larger, the floor of 95% of the viewport |
| ScanLoop.NextScrollTopIsClamped | discord-reaction-checker.user.js:434-436 | the new offset lies in `[0, maxScrollTop]`, is a full step or the bottom, and never moves back |
| ScanLoop.ClampedStepIsNearBottom | discord-reaction-checker.user.js:434-436 | a step that reaches the bottom leaves the scroller near the bottom |
| ScanLoop.UnmovedScrollerIsNearBottom | discord-reaction-checker.user.js:439 | the offset moves by at most one pixel only at the bottom |
| ScanLoop.TriggerScroll | discord-reaction-checker.user.js:433-436 | reports the offset and height before, and writes one clamped step down to the offset, which lands only on a scroller that takes writes |
| ScanLoop.ScrollAndWait | discord-reaction-checker.user.js:512-518 | `moved` is exactly "offset changed by more than a pixel or height changed", false without a scroller; on a scroller that takes writes, not moved means near the bottom |
| ScanLoop.IdleRun | discord-reaction-checker.user.js:521-525 | the idle run is no longer than the history |
| ScanLoop.NextStagnationCountsIdleRounds | discord-reaction-checker.user.js:521-525 | the stagnation counter is the length of the current run of rounds without progress |
| ScanLoop.IdleRunMeans | discord-reaction-checker.user.js:521-525 | the idle run is at least k exactly when the last k rounds made no progress |
| ScanLoop.BlindScanStopsAfterSixIdleRounds | discord-reaction-checker.user.js:527 | without a scroller, six idle rounds in a row stop the scan |
| ScanLoop.BottomScanStopsAfterTwelveIdleRounds | discord-reaction-checker.user.js:529 | near the bottom, twelve idle rounds in a row stop the scan |
| ScanLoop.ProgressNeverStops | discord-reaction-checker.user.js:521-529 | a round with a new user or movement never stops the scan |
| ScanLoop.ScanReactionUsers | discord-reaction-checker.user.js:474-533 | with the query normalised: the map is the absorption of every entry of every round; each round's rows are those the host showed; each progress flag says whether the map grew or the scroller moved; no break rule fired before the last round; without a match the scan ran 700 rounds or a break rule fired after the last; a found row needs `stopWhenFound` and is the first hit of the last round, no earlier round having one |
| ScanLoop.ScanRounds | discord-reaction-checker.user.js:483-532 | the round loop: the scroller is reset to the top, and the returned history satisfies everything `ScanReactionUsers` states |
| ScanLoop.PlayRound | discord-reaction-checker.user.js:493-529 | one round extends the history by the host's rows and their entries; it ends the scan on a wanted match, or else records progress and decides the break rules |
| ScanLoop.CollectRound | discord-reaction-checker.user.js:493-499 | the round's rows are the host's, parsed in order; the map absorbs them; `newSeen` is positive exactly when the map grew; `matched` is the round's first hit |
| ScanLoop.ScrollRound | discord-reaction-checker.user.js:512-518 | the scroller moves to where the history puts it after one more round, and `moved` and near-bottom are those of that round |
| ScanLoop.FinishRound | discord-reaction-checker.user.js:512-529 | after the scroll, the stagnation counter is the idle run, the stop decision is the break rules, and the history either continues or has ended |
| ScanLoop.RecordRound | discord-reaction-checker.user.js:493-499 | one collected round extends the rows, entries and map history |
| ScanLoop.RecordRows | discord-reaction-checker.user.js:493-499 | the rows and entries of one more round extend the host and parse history |
| ScanLoop.EntriesBuiltFor | discord-reaction-checker.user.js:407-408 | each entry the memo holds for a row was parsed from a state of that element with the same fingerprint |
| ScanLoop.FlattenSnoc | discord-reaction-checker.user.js:483-499 | one more round appends its entries to the flattened history and leaves the sizes of earlier rounds alone |
| ScanLoop.SizeAfterExtends | discord-reaction-checker.user.js:483-499 | extending the history never changes the map sizes already recorded |
| ScanLoop.ProgressRecordedExtends | discord-reaction-checker.user.js:516-525 | recorded progress flags stay valid when the history grows |
| ScanLoop.ProgressRecordedMeans | discord-reaction-checker.user.js:516-525 | each recorded flag is the progress of its round |
| ScanLoop.RecordScroll | discord-reaction-checker.user.js:516-525 | the flag `newSeen > 0 \|\| moved` is the progress of the round just played |
| ScanLoop.KeptGoingExtends | discord-reaction-checker.user.js:492-529 | rounds that did not stop the scan stay so when the history grows |
| ScanLoop.KeptGoingMeans | discord-reaction-checker.user.js:492-529 | no break rule fired after any of the rounds that went on, and none of them had a wanted match |
| ScanLoop.EndOnMatch | discord-reaction-checker.user.js:501-503 | a wanted match in the last round ends the scan with a found row and no earlier hit |
| ScanLoop.EndOnBreak | discord-reaction-checker.user.js:527-529 | a break rule after the last round ends the scan without a match |
| ScanLoop.EndAtLimit | discord-reaction-checker.user.js:492 | after 700 rounds the scan ends without a match |
| ViewportLocator.EligibleMeans | discord-reaction-checker.user.js:299-315 | an element qualifies exactly when it has over 32 pixels to scroll and takes `scrollTop` writes or is already scrolled |
| ViewportLocator.HitScore | discord-reaction-checker.user.js:334 | a hit scores between 1 and 30, and `30 - depth` for depths under 30 |
| ViewportLocator.HitScoreFalls | discord-reaction-checker.user.js:334 | nearer ancestors never score less than farther ones |
| ViewportLocator.SetScoreKeepsWellFormed | discord-reaction-checker.user.js:335 | `scoreMap.set` keeps every element listed once |
| ViewportLocator.ChainHitsPositive | discord-reaction-checker.user.js:329-340 | an element's hit sum over one row's ancestors is positive exactly when it is among them |
| ViewportLocator.RowHitsPositive | discord-reaction-checker.user.js:329-340 | an element's hit sum over all rows is positive exactly when it is an ancestor of some row |
| ViewportLocator.CreditChainAdds | discord-reaction-checker.user.js:330-339 | crediting one row's ancestors adds a qualifying element's hit sum to its score and touches nothing else |
| ViewportLocator.CreditRowsAdds | discord-reaction-checker.user.js:329-340 | crediting all rows adds a qualifying element's hit sum over all rows |
| ViewportLocator.ScoresAreHitSums | discord-reaction-checker.user.js:325-340 | the score map holds exactly the qualifying row ancestors, each scored by its hit sum |
| ViewportLocator.CreditChainWellFormed | discord-reaction-checker.user.js:330-339 | crediting one row keeps the score map well-formed |
| ViewportLocator.CreditRowsWellFormed | discord-reaction-checker.user.js:329-340 | crediting all rows keeps the score map well-formed |
| ViewportLocator.CreditChainExtends | discord-reaction-checker.user.js:335 | crediting never reorders or drops a key |
| ViewportLocator.ScoreAncestors | discord-reaction-checker.user.js:325-340 | the nested loops compute the fold of credits over the rows, a well-formed map |
| ViewportLocator.FirstMaxIsUnique | discord-reaction-checker.user.js:343-353 | the election's winner is determined: only one position is the first maximum |
| ViewportLocator.ElectFirstMax | discord-reaction-checker.user.js:343-353 | the first item with the largest total wins; none only when every total is negative |
| ViewportLocator.HitsOutweighScroll | discord-reaction-checker.user.js:347-348 | a higher hit score wins whatever the scroll distances below one million; equal scores are decided by scroll distance |
| ViewportLocator.ContainedRows | discord-reaction-checker.user.js:370 | the contained-row count never exceeds the row count |
| ViewportLocator.RowsAt | discord-reaction-checker.user.js:370 | the count of rows that are the element itself never exceeds the row count |
| ViewportLocator.EligibleOnly | discord-reaction-checker.user.js:362-364 | the candidates are exactly the qualifying descendants |
| ViewportLocator.FallbackCountsOnlyRowsThemselves | discord-reaction-checker.user.js:361-372 | in the fallback a candidate contains only rows that are itself, since any qualifying ancestor would have been scored |
| ViewportLocator.LocateScroller | discord-reaction-checker.user.js:325-380 | with scored ancestors, the first with the largest ancestor total; otherwise the first qualifying descendant with the largest fallback total, none only without candidates |
| ReactionCache.FingerprintIsNormalized | discord-reaction-checker.user.js:50-59 | a fingerprint is in normal form, and empty exactly when no tab is selected or its label is blank |
| ReactionCache.FingerprintIgnoresCase | discord-reaction-checker.user.js:50-59 | tab labels that differ only in case give the same fingerprint |
| ReactionCache.FindUser | discord-reaction-checker.user.js:578-630 | `findUser` returns a well-formed map |
| ReactionCache.FindUserListsItsMap | discord-reaction-checker.user.js:578-630 | fails only when it must scan and the scan throws; the list is the numbered listing of the returned map; a complete map is the cache or the scan's |
| ReactionCache.ReactionPanel.constructor | discord-reaction-checker.user.js:780-783 | the panel starts idle with empty list, map and fingerprint, and a hidden list area |
| ReactionCache.ReactionPanel.SyncCacheWithActiveReaction | discord-reaction-checker.user.js:785-799 | list, map and list area are cleared exactly when both fingerprints are known and differ; the cached fingerprint is kept |
| ReactionCache.ReactionPanel.ClearIfStale | discord-reaction-checker.user.js:788-797 | the reset rule; afterwards the cached map is usable for the current reaction |
| ReactionCache.ReactionPanel.RunFind | discord-reaction-checker.user.js:812-832 | ignored while running; otherwise sync, keep the list, keep a complete non-empty map, record a known fingerprint when a map is cached |
| ReactionCache.ReactionPanel.FindAfterSync | discord-reaction-checker.user.js:817-825 | `findUser` on the synced cache, then the adoption rules of `runFind` |
| ReactionCache.ReactionPanel.AdoptFindResult | discord-reaction-checker.user.js:818-825 | list kept, map kept when complete and non-empty, fingerprint set when a map is cached and the fingerprint known |
| ReactionCache.ReactionPanel.RunLoadAll | discord-reaction-checker.user.js:834-851 | ignored while running; otherwise the full scan's listing and map are cached, the fingerprint recorded when known, and the list shown one user per line |
| ReactionCache.ReactionPanel.StoreLoadedUsers | discord-reaction-checker.user.js:840-844 | caches the listing and map, records a known fingerprint, and shows the list |

## Left out

- **Unicode.**
  - `normalize('NFKC')` is taken as the identity, which is exact for text already in NFKC form.
  - `toLowerCase` is modelled on ASCII letters only, so Unicode tables are not part of this model.
- **Floating point.** `clientHeight * 0.95` and `dialogRect.width * 0.18` are computed exactly. Rounding differences of IEEE doubles are not modelled.
- **DOM querying and geometry become record fields.**
  - `offsetParent`, `offsetHeight`/`getBoundingClientRect`, `closest` and `querySelectorAll` are fields of `RowView`, as are the avatar selectors of `hasAvatarLike`.
  - `getRows`' three selector scopes, and the combined selector of its last tier, are given as sequences of rows. The combined selector's result is required to hold exactly the elements of the three scopes, as its selector list is their union.
  - Each `querySelectorAll` result is assumed to list distinct nodes.
- **Host effects during a scan.**
  - `sleep`/`await` and the choice of wait time are left out.
  - The reset of the scroller to the top is modelled, but the host does not act during the wait that follows it.
  - During the wait the host may change only the list height, not the offset.
- ScanLoop.ScrollAndWait: the `WheelEvent` fallback on the scroller (lines 438–451), the `scrollIntoView` of the last row (lines 429–431) and the wheel on the last row without a scroller (lines 452–464) have no modelled effect. A scroller that ignores `scrollTop` writes is modelled (`takesScrollWrites`), and "not moved means near the bottom" is stated only for one that takes them.
- ScanLoop.ScanReactionUsers: the scroller is a parameter. `getScrollableContainer` is `ViewportLocator.LocateScroller`, whose `Element` values are not linked to the scan's `Scroller` object.
- ScanLoop.ScanReactionUsers: the status text of each round (its `mode` argument) is left out.
- ViewportLocator.LocateScroller: the `dialogScanCache` WeakMap (lines 317, 320–323, 356, 379) is not part of this model. Neither are its `dialog.contains`/`document.contains` checks; every call computes afresh.
- ViewportLocator.LocateScroller: the `instanceof HTMLElement` test is assumed to hold for every ancestor.
- ViewportLocator.LocateScroller: elements are compared by value, not by object identity.
- ViewportLocator.LocateScroller: `canScrollByCode`'s probe is an element flag (`takesScrollWrites`), and the probe is assumed to restore `scrollTop`.
- ReactionCache.FindUser: takes the outcome of its scan as a parameter. `None` stands for a scan that threw.
- ReactionCache.FindUser: `clearHighlight`, the `markFound` highlight of a visible matching row, the status text and the `found` flag (used only for the status) are left out.
- ReactionCache.ReactionPanel.RunFind: the `running` guard is modelled sequentially. Concurrent clicks during the `await` are not part of this model.
- ReactionCache.ReactionPanel.RunFind: the active tab is assumed not to change while a scan is in progress.
- ReactionCache.ReactionPanel.RunFind: `setBusy`'s disabled and opacity styling and the error status text are left out.
- ReactionCache.ReactionPanel.RunLoadAll: `loadAllUsers` always returns a map, so the `|| new Map()` branch is unreachable and not modelled.
- **UI and bootstrap.** `mountUI` construction and styling, `runCopy`/`copyText` (the clipboard), the `MutationObserver` bootstrap, and `isReactionDialog`/`getReactionDialog` heading detection are presentation or browser plumbing with no logic of their own.
