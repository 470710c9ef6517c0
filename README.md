# Reed, modelled in Dafny

Reed is an RSS reader for iOS. This project models the sequential logic
around its feed parser, with contracts and proofs. That logic covers:

- the string and URL rules that decide what is fetched and how;
- the counters, caches and queues that track a refresh;
- the identifiers the app stores;
- the sidebar tree and the tables built from it;
- the article list and the timeline's navigation;
- the feed and folder containers of a data store;
- the share extension's choice of a default container.

Each core Swift file has one Dafny module. Where the Swift mutates an
object, the module holds a `class` whose methods carry `modifies` clauses.
Where the Swift loops, the model is a method with a loop, proved against a
specification function. Pure Swift becomes functions and lemmas.

- **Strings and URLs.**
  - `StringReed` covers `String+Reed.swift` (feed-URL normalisation, prefix and suffix stripping, XML escaping, `mayBeURL`).
  - `UrlReed` covers `URL+Reed.swift`.
  - `MacroProcessor` covers the `[[key]]` template expansion.
  - `Text` holds the sequence helpers these share: find, split, trim and ASCII lowercasing.
- **Fetch policy.**
  - `FeedSpecifier` scores feed candidates and picks the best.
  - `CacheControl` parses `max-age` in the sense of section 14.9 of RFC 2616.
  - `ConditionalGet` builds the conditional-GET headers.
  - `SpecialCases` filters special hosts.
  - `RedirectChain` follows cached redirects, with cycle detection.
  - `DownloadSession` covers the session's redirect and 4xx caches, its pending queue and its progress.
  - `LocalAccountRefresher` holds the skip rules, the 8-day drop of conditional-GET data and the content-hash short-circuit.
- **Counters, caches and queues.**
  - `DownloadProgressModel` models a tree of task counters, kept as an arena of counters by id.
  - `CombinedProgress` aggregates progress and clamps it.
  - `TtlCache` is a cache with expiry.
  - `CoalescingQueueModel` is a queue of calls without duplicates.
  - `BatchUpdateModel` is a nesting counter.
- **Identifiers.** `ContainerId` and `SidebarId` cover the userInfo dictionaries, including legacy keys, and their round-trips.
- **Sidebar tree.**
  - `NodeTree` models `Node` as an arena of nodes by id.
  - `TreeControllerModel` rebuilds the tree and normalises selections.
  - `SidebarDelegateModel` computes the children and applies the read filter.
  - `ShadowTable` covers the row-change records.
  - `SceneTables` holds the shadow-table functions: index paths, previous and next feed, article search, the id dictionary and the merge rule.
  - `SceneCoordinatorModel` is the coordinator's state: the shadow table, expanded containers, the timeline's articles and selection, and the unread navigation.
- **Articles and commands.**
  - `ArticleModel`, `ArticleStatusModel`, `SyncStatusModel`, `AuthorModel`, `ArticleUtilities` and `ArticleArrayModel` cover articles, their statuses and authors.
  - `MarkStatusCommandModel` and `DeleteCommandModel` cover the two commands.
  - `RefreshIntervalModel` covers the refresh intervals.
- **Containers.**
  - `FeedModel`, `FolderModel` and `ContainerModel` cover feeds, folders and the `Container` protocol's default methods.
  - `DataStoreModel` covers the data store's tree, caches and look-ups.
  - `UnreadValidation` covers the unread-count validation.
  - `ExtensionContainersModel` and `ShareDefaultContainerModel` cover the share extension's containers.
  - `ParsedFeedTransformerModel` covers the conversion of parser output.
- `Wrappers` holds `Option` and `Result`.

Several things become parameters:

- foreign functions (URL parsing, MD5, Markdown rendering, localised sorting, `databaseIDWithString`);
- the clock (`now`) and randomness (a nondeterministic choice);
- the delegate's answers.

Notifications and undo registrations are kept as logs of events.

## Model

| member | source | states |
|---|---|---|
| StringReed.StrippingPrefix | src/Reed/Classes/Extensions/String+Reed.swift:147-155 | when the prefix matches at the start (case-insensitively unless asked otherwise) the result is the text after it; otherwise the text is unchanged |
| StringReed.StrippingSuffix | src/Reed/Classes/Extensions/String+Reed.swift:162-174 | when the suffix matches at the end (case-insensitively unless asked otherwise) the result is the text before it; otherwise the text is unchanged |
| StringReed.StripPrependedPrefix | src/Reed/Classes/Extensions/String+Reed.swift:147-155 | stripping a prefix from text that starts with it gives back the rest |
| StringReed.StripAppendedSuffix | src/Reed/Classes/Extensions/String+Reed.swift:162-174 | stripping a suffix from text that ends with it gives back the rest |
| StringReed.StripPrefixIgnoresCase | src/Reed/Classes/Extensions/String+Reed.swift:148-151 | the default case-insensitive strip removes a prefix written in any case, exactly its length |
| StringReed.StripPrefixCaseSensitiveExact | src/Reed/Classes/Extensions/String+Reed.swift:148-154 | a case-sensitive strip leaves text that does not start with the exact prefix alone |
| StringReed.LowerPrefixIsCI | src/Reed/Classes/Extensions/String+Reed.swift:110-115 | testing a lower-cased copy for a lower-case prefix is a case-insensitive prefix test |
| StringReed.AfterFeedPrefix | src/Reed/Classes/Extensions/String+Reed.swift:112-117 | what remains after a `feeds:`/`feed:` prefix is a suffix of the text |
| StringReed.AfterSlashes | src/Reed/Classes/Extensions/String+Reed.swift:119-121 | what remains after a leading `//` is a suffix of the text |
| StringReed.WithScheme | src/Reed/Classes/Extensions/String+Reed.swift:123-126 | the result starts with `http` in some case; text that did is unchanged, other text gets `https://` or `http://` in front |
| StringReed.WithTopLevelSlash | src/Reed/Classes/Extensions/String+Reed.swift:134-137 | a `/` is appended exactly when the text splits on `/` into three components, and the result never splits into three |
| StringReed.TopLevelSlashKeepsPrefix | src/Reed/Classes/Extensions/String+Reed.swift:134-137 | appending the slash keeps any prefix of the text |
| StringReed.NormalizedURL | src/Reed/Classes/Extensions/String+Reed.swift:97-140 | every normalised URL starts with `http` in some case and is never a bare top-level URL without its slash |
| StringReed.NormalizedSteps | src/Reed/Classes/Extensions/String+Reed.swift:107-139 | `normalizedURL` is trimming, dropping the pseudo-scheme and `//`, adding the scheme (secure after `feeds:`), then the slash |
| StringReed.SchemeThenSlash | src/Reed/Classes/Extensions/String+Reed.swift:124-137 | text without a scheme becomes the scheme, then the text, then possibly `/` |
| StringReed.NormalizedFeedsIsHttps | src/Reed/Classes/Extensions/String+Reed.swift:112-125 | a `feeds:` URL whose remainder has no scheme becomes an `https://` URL of that remainder |
| StringReed.FeedIsNotFeeds | src/Reed/Classes/Extensions/String+Reed.swift:112-116 | the `feed:` branch is reached only for text that does not start with `feeds:` |
| StringReed.NormalizedFeedIsHttp | src/Reed/Classes/Extensions/String+Reed.swift:115-125 | a `feed:` URL whose remainder has no scheme becomes an `http://` URL of that remainder |
| StringReed.HttpHasNoFeedPrefix | src/Reed/Classes/Extensions/String+Reed.swift:112-121 | text starting with `http` has neither pseudo-scheme nor `//` to strip |
| StringReed.NormalizedKeepsScheme | src/Reed/Classes/Extensions/String+Reed.swift:107-139 | text that starts with `http` in any case is only trimmed and perhaps given a trailing slash |
| StringReed.BareHostPrefixes | src/Reed/Classes/Extensions/String+Reed.swift:112-121 | a bare host name has no prefix to strip |
| StringReed.BareHostSplits | src/Reed/Classes/Extensions/String+Reed.swift:134-135 | `http://` and a host without `/` split into exactly three components |
| StringReed.NormalizedBareHost | src/Reed/Classes/Extensions/String+Reed.swift:128-137 | a bare host such as `ranchero.com` becomes `http://ranchero.com/` |
| StringReed.HttpStartsWithLetter | src/Reed/Classes/Extensions/String+Reed.swift:124 | text starting with `http` starts with a letter |
| StringReed.SuffixLastNotWhitespace | src/Reed/Classes/Extensions/String+Reed.swift:107 | a non-empty suffix of trimmed text does not end in whitespace |
| StringReed.SchemeLastNotWhitespace | src/Reed/Classes/Extensions/String+Reed.swift:123-126 | adding the scheme to such a suffix keeps a non-whitespace last character |
| StringReed.SlashLastNotWhitespace | src/Reed/Classes/Extensions/String+Reed.swift:134-137 | the added slash is not whitespace either |
| StringReed.NormalizeStepsKeepTrimmed | src/Reed/Classes/Extensions/String+Reed.swift:107-139 | the steps after trimming keep the text trimmed |
| StringReed.NormalizedIsTrimmed | src/Reed/Classes/Extensions/String+Reed.swift:97-140 | a normalised URL has no whitespace at either end |
| StringReed.NormalizedIdempotent | src/Reed/Classes/Extensions/String+Reed.swift:97-140 | normalising a normalised URL changes nothing |
| StringReed.EscapedAppend | src/Reed/Classes/Extensions/String+Reed.swift:219-238 | `Escaped`, `EscapedChar`: escaping is done character by character: escaping a concatenation concatenates the escapes |
| StringReed.EscapingSpecialXMLCharacters | src/Reed/Classes/Extensions/String+Reed.swift:219-238 | the loop builds the escape of the whole string: `&`, `<`, `>`, `"` become entities, every other character (`'` included) is copied |
| StringReed.EscapedPlain | src/Reed/Classes/Extensions/String+Reed.swift:222-234 | `IsSpecialXMLChar`: a string with none of the four special characters is escaped to itself |
| StringReed.EscapedHasNoRawMarkup | src/Reed/Classes/Extensions/String+Reed.swift:222-234 | escaped text contains no raw `<`, `>` or `"` |
| StringReed.UnescapeAmp | src/Reed/Classes/Extensions/String+Reed.swift:224-225 | decoding `&amp;` gives back `&` |
| StringReed.UnescapeLt | src/Reed/Classes/Extensions/String+Reed.swift:226-227 | decoding `&lt;` gives back `<` |
| StringReed.UnescapeGt | src/Reed/Classes/Extensions/String+Reed.swift:228-229 | decoding `&gt;` gives back `>` |
| StringReed.UnescapeQuot | src/Reed/Classes/Extensions/String+Reed.swift:230-231 | decoding `&quot;` gives back `"` |
| StringReed.NoEntityPrefix | src/Reed/Classes/Extensions/String+Reed.swift:232-233 | text not starting with `&` starts with no entity |
| StringReed.UnescapePlain | src/Reed/Classes/Extensions/String+Reed.swift:232-233 | a copied character decodes to itself |
| StringReed.UnescapeEscaped | src/Reed/Classes/Extensions/String+Reed.swift:219-238 | `Unescaped`: escaping loses nothing: decoding the escaped text gives the original |
| StringReed.PrependingTabs | src/Reed/Classes/Extensions/String+Reed.swift:245-248 | the result is `tabCount` tabs followed by the string |
| StringReed.StrippingHTTPSScheme | src/Reed/Classes/Extensions/String+Reed.swift:251-253 | `StrippingHTTPOrHTTPSScheme`: an `https://` URL loses its scheme |
| StringReed.StrippingHTTPScheme | src/Reed/Classes/Extensions/String+Reed.swift:251-253 | an `http://` URL loses its scheme, and only that when the rest does not itself start with `https://` |
| StringReed.StrippingNoScheme | src/Reed/Classes/Extensions/String+Reed.swift:251-253 | text with neither scheme is left alone |
| StringReed.MayBeURLRejectsBlank | src/Reed/Classes/Extensions/String+Reed.swift:71-76 | empty and whitespace-only text is never a URL |
| StringReed.MayBeURLNeedsDot | src/Reed/Classes/Extensions/String+Reed.swift:74-76 | `MayBeURL`, `MayBeIPv6URL`, `IsHexOrColon`: a possible URL has a `.`, is an IPv6 bracket literal, or has a localhost host |
| StringReed.MayBeURLRejectsBanned | src/Reed/Classes/Extensions/String+Reed.swift:78-82 | `IsControl`: whitespace, control or illegal characters in the trimmed text rule a URL out |
| StringReed.MayBeURLAcceptsDotted | src/Reed/Classes/Extensions/String+Reed.swift:71-85 | trimmed, dotted text of ordinary characters may be a URL |
| UrlReed.EncodeSpacesIfNeeded | src/Reed/Classes/Extensions/URL+Reed.swift:36-41 | no URL for a missing or empty link; otherwise the URL parsed from the link with every space replaced by `%20` |
| UrlReed.EncodedLinkHasNoSpace | src/Reed/Classes/Extensions/URL+Reed.swift:40 | the text handed to the URL parser holds no space |
| UrlReed.SchemeTestsExclusive | src/Reed/Classes/Extensions/URL+Reed.swift:45-55 | `IsHTTPSURL`, `IsHTTPURL`, `IsHTTPOrHTTPSURL`: no URL is both an `http` and an `https` URL, and a URL without a scheme is neither |
| UrlReed.SchemeTestIgnoresCase | src/Reed/Classes/Extensions/URL+Reed.swift:45-51 | the scheme tests compare the lower-cased scheme, so schemes differing only in case test alike |
| UrlReed.RemovingCaseInsensitivePrefixAsWritten | src/Reed/Classes/Extensions/URL+Reed.swift:100-115 | as written: text equal to the prefix (ignoring case) gives `""`, text without it is unchanged, and other text gives its first `prefix.count` characters, the prefix itself |
| UrlReed.RemovingCaseInsensitivePrefix | src/Reed/Classes/Extensions/URL+Reed.swift:100-115 | corrected: text with the prefix (ignoring case) is that many characters followed by the result; other text is unchanged |
| UrlReed.RemovingPrefixRoundTrip | src/Reed/Classes/Extensions/URL+Reed.swift:100-115 | removing a prefix from the prefix followed by a rest gives the rest |
| UrlReed.AsWrittenKeepsPrefix | src/Reed/Classes/Extensions/URL+Reed.swift:113-114 | for `http://` followed by a non-empty rest the code as written returns `http://`, where the rest was meant |
| UrlReed.AbsoluteStringWithSchemeRemovedAsWritten | src/Reed/Classes/Extensions/URL+Reed.swift:57-67 | as written, with the original prefix removal: no result exactly for URLs that are neither `http` nor `https` |
| UrlReed.AbsoluteStringWithHTTPOrHTTPSPrefixRemoved | src/Reed/Classes/Extensions/URL+Reed.swift:57-67 | corrected version (see Findings), built on `RemovingCaseInsensitivePrefix`: no result exactly for URLs that are neither `http` nor `https` |
| UrlReed.SchemeRemovedFromHttpUrl | src/Reed/Classes/Extensions/URL+Reed.swift:58-63 | corrected version (see Findings): `http://example.com/foo` gives `example.com/foo`, where the code as written gives `http://` (`SchemeRemovedAsWrittenFromHttpUrl`) |
| UrlReed.SchemeRemovedFromHttpsUrl | src/Reed/Classes/Extensions/URL+Reed.swift:58-61 | corrected version (see Findings): `https://example.com/foo` gives `example.com/foo`, where the code as written gives `https://` (`SchemeRemovedAsWrittenFromHttpsUrl`) |
| UrlReed.AsWrittenKeepsHttpsPrefix | src/Reed/Classes/Extensions/URL+Reed.swift:100-115 | as written, removing `https://` from `https://` followed by more text gives `https://` |
| UrlReed.SchemeRemovedAsWrittenFromHttpUrl | src/Reed/Classes/Extensions/URL+Reed.swift:57-67 | as written, `http://example.com/foo` gives `http://` |
| UrlReed.SchemeRemovedAsWrittenFromHttpsUrl | src/Reed/Classes/Extensions/URL+Reed.swift:57-67 | as written, `https://example.com/foo` gives `https://` |
| UrlReed.WithAppendedQueryItems | src/Reed/Classes/Extensions/URL+Reed.swift:80-82 | the new query items are the old ones (none if absent) followed by the added ones, with the rest of the components unchanged |
| UrlReed.AppendingQueryItems | src/Reed/Classes/Extensions/URL+Reed.swift:71-85 | no URL when the components cannot be made; otherwise the URL built from components with the items appended |
| UrlReed.PreparedHasNoSpaceOrCaret | src/Reed/Classes/Extensions/URL+Reed.swift:89-96 | `PreparedURLString`, `PreparedForOpeningInBrowser`: the string prepared for the browser has no space and no `^` |
| UrlReed.PreparedPlain | src/Reed/Classes/Extensions/URL+Reed.swift:89-96 | a string with none of the replaced sequences is prepared unchanged |
| MacroProcessor.Create | src/Reed/Classes/RSCore/MacroProcessor.swift:55-64 | creation fails exactly when a delimiter is empty; otherwise the processor keeps template, substitutions and delimiters |
| MacroProcessor.RenderFromNoStart | src/Reed/Classes/RSCore/MacroProcessor.swift:74-93 | with no macro start left, the rest of the template is copied |
| MacroProcessor.RenderFromStart | src/Reed/Classes/RSCore/MacroProcessor.swift:74-78 | `RenderMacroAt`: at a macro start, rendering continues at that start |
| MacroProcessor.RenderMacroAtNoEnd | src/Reed/Classes/RSCore/MacroProcessor.swift:80-93 | an unterminated macro start copies the rest of the template, start delimiter included |
| MacroProcessor.RenderMacroAtEnd | src/Reed/Classes/RSCore/MacroProcessor.swift:78-90 | a terminated macro is the text before it, its replacement, then the rendering after the end delimiter |
| MacroProcessor.MacroExpansion | src/Reed/Classes/RSCore/MacroProcessor.swift:74-90 | `Replacement`, `RenderFrom`: one loop round: text before the macro, the macro's replacement, then the rest rendered |
| MacroProcessor.UnterminatedExpansion | src/Reed/Classes/RSCore/MacroProcessor.swift:80-93 | when the first macro start has no end, the rest of the template is copied as is |
| MacroProcessor.ProcessMacros | src/Reed/Classes/RSCore/MacroProcessor.swift:68-96 | the loop's result is the rendering of the template: defined keys replaced, undefined macros left as written |
| MacroProcessor.RenderedText | src/Reed/Classes/RSCore/MacroProcessor.swift:21-23 | `Render`: `renderedText` is `processMacros()`'s rendering |
| MacroProcessor.RenderedTextWithTemplate | src/Reed/Classes/RSCore/MacroProcessor.swift:38-53 | fails exactly when a delimiter is empty; otherwise gives the rendering of the template |
| MacroProcessor.RenderWithoutMacroStart | src/Reed/Classes/RSCore/MacroProcessor.swift:74-93 | a template without the start delimiter is rendered to itself |
| MacroProcessor.RenderUnterminated | src/Reed/Classes/RSCore/MacroProcessor.swift:80-93 | a template whose first macro start has no end is rendered to itself |
| MacroProcessor.RenderWithoutSubstitutions | src/Reed/Classes/RSCore/MacroProcessor.swift:86 | with no substitutions every macro is left as written, so the template is rendered to itself |
| MacroProcessor.UndefinedMacroIsCopied | src/Reed/Classes/RSCore/MacroProcessor.swift:86 | writing an undefined macro back puts back exactly the text it was read from |
| MacroProcessor.DefinedMacroStart | src/Reed/Classes/RSCore/MacroProcessor.swift:74 | the first start delimiter of `pre + start + key + end + post` is found right after `pre` when `pre` holds none |
| MacroProcessor.DefinedMacroEnd | src/Reed/Classes/RSCore/MacroProcessor.swift:80 | the end delimiter is found right after the key when the key holds none |
| MacroProcessor.FirstMacroDefined | src/Reed/Classes/RSCore/MacroProcessor.swift:85-88 | a first macro whose key is defined is replaced by its value |
| MacroProcessor.FirstMacroUndefined | src/Reed/Classes/RSCore/MacroProcessor.swift:86-88 | a first macro whose key is undefined is copied as written |
| FeedSpecifier.SourceOrder | src/Reed/Classes/FeedFinder/FeedSpecifier.swift:13-19 | `RawValue`, `EqualToOrBetterThan`: source ranking is a total order with a user-entered URL best of all |
| FeedSpecifier.KnownFeedSpecifier | src/Reed/Classes/FeedFinder/FeedSpecifier.swift:37-49 | only a rachelbythebay.com URL has a known feed, the user-entered `https://rachelbythebay.com/w/atom.xml` |
| FeedSpecifier.Merge | src/Reed/Classes/FeedFinder/FeedSpecifier.swift:51-64 | `SameSpecifier`: the merged specifier keeps this URL (so it is equal to it), this title if any else the other's, the better of the two sources and the earlier order found |
| FeedSpecifier.MergeIdempotent | src/Reed/Classes/FeedFinder/FeedSpecifier.swift:51-64 | merging a specifier with itself gives it back |
| FeedSpecifier.MergeSymmetricRanking | src/Reed/Classes/FeedFinder/FeedSpecifier.swift:54-56 | the merged source and order found do not depend on which specifier is merged into which |
| FeedSpecifier.CalculatedScore | src/Reed/Classes/FeedFinder/FeedSpecifier.swift:102-142 | `Score`, `SourceBonus`, `TitleAdjustment`: the imperative score is the score function: 1000 for a user-entered URL, else source, order and URL/title adjustments |
| FeedSpecifier.AddUrlAdjustments | src/Reed/Classes/FeedFinder/FeedSpecifier.swift:113-133 | the URL tests add their adjustments to the running score |
| FeedSpecifier.SuffixesExclusive | src/Reed/Classes/FeedFinder/FeedSpecifier.swift:122-130 | a URL ends in at most one of `/index.xml`, `/feed/` and `/feed` |
| FeedSpecifier.UrlAdjustmentBounds | src/Reed/Classes/FeedFinder/FeedSpecifier.swift:113-133 | `UrlAdjustment`: the URL tests move the score by between -20 and +13 |
| FeedSpecifier.LaterFoundScoresLower | src/Reed/Classes/FeedFinder/FeedSpecifier.swift:111 | each later position found costs 5 points |
| FeedSpecifier.HeadLinkBonus | src/Reed/Classes/FeedFinder/FeedSpecifier.swift:107-109 | a feed from the HTML head scores 50 more than the same feed from a link |
| FeedSpecifier.UserEnteredWins | src/Reed/Classes/FeedFinder/FeedSpecifier.swift:105-106 | a user-entered feed outscores any feed found in the page |
| FeedSpecifier.FirstBestUnique | src/Reed/Classes/FeedFinder/FeedSpecifier.swift:77-83 | `IsFirstBest`: there is only one first specifier of highest score |
| FeedSpecifier.BestFeed | src/Reed/Classes/FeedFinder/FeedSpecifier.swift:66-86 | nothing for no specifiers, the only one for one, else the first of strictly highest score above `Int.min` (none when every score is `Int.min`) |
| CacheControl.TrimmedComponents | src/Reed/Classes/Model/Network/CacheControlInfo.swift:49-50 | one trimmed component per comma-separated part |
| CacheControl.FirstMaxAge | src/Reed/Classes/Model/Network/CacheControlInfo.swift:52-61 | a max-age found is positive |
| CacheControl.FirstMaxAgeIsFirst | src/Reed/Classes/Model/Network/CacheControlInfo.swift:52-61 | `Qualifies`: a max-age is found exactly when some component is `max-age=` with a positive number, and it is the first such one |
| CacheControl.ParseMaxAge | src/Reed/Classes/Model/Network/CacheControlInfo.swift:48-62 | the loop returns the first positive `max-age=` value of the trimmed components |
| CacheControl.SkipsUnqualified | src/Reed/Classes/Model/Network/CacheControlInfo.swift:53-57 | a component that is not a positive max-age is passed over |
| CacheControl.FromValue | src/Reed/Classes/Model/Network/CacheControlInfo.swift:33-41 | no info without a positive max-age; otherwise created now with that max-age |
| CacheControl.FromResponse | src/Reed/Classes/Model/Network/CacheControlInfo.swift:25-30 | no info without a `Cache-Control` header; otherwise the info of its value |
| CacheControl.ResumeAfterMaxAge | src/Reed/Classes/Model/Network/CacheControlInfo.swift:17-23 | `ResumeDate`, `CanResume`: a fresh response cannot be resumed at once, and later can exactly when its max-age has passed |
| CacheControl.CanResumeMonotone | src/Reed/Classes/Model/Network/CacheControlInfo.swift:21-23 | once resumable, always resumable |
| ConditionalGet.Create | src/Reed/Classes/Web/HTTPConditionalGetInfo.swift:15-21 | no info exactly when neither `Last-Modified` nor `ETag` is given; otherwise both are kept |
| ConditionalGet.FromResponse | src/Reed/Classes/Web/HTTPConditionalGetInfo.swift:23-27 | the info from a response is made from its two header values and is valid |
| ConditionalGet.StringAt | src/Reed/Classes/Web/HTTPConditionalGetInfo.swift:30-31 | a header is read only when present and a string |
| ConditionalGet.FromHeaders | src/Reed/Classes/Web/HTTPConditionalGetInfo.swift:29-33 | no info exactly when neither header is present as a string |
| ConditionalGet.FromHeadersRoundTrip | src/Reed/Classes/Web/HTTPConditionalGetInfo.swift:29-33 | writing the info's values into a header dictionary and reading it back gives the same info |
| ConditionalGet.AddedHeaders | src/Reed/Classes/Web/HTTPConditionalGetInfo.swift:35-44 | `If-Modified-Since` is added exactly when there is a last-modified date without `2038`, `If-None-Match` exactly when there is an etag, each with that value, and nothing else |
| ConditionalGet.AddRequestHeaders | src/Reed/Classes/Web/HTTPConditionalGetInfo.swift:35-44 | the request keeps its headers and gains those added headers |
| SpecialCases.SpecialCaseExists | src/Reed/Classes/Model/Network/SpecialCases.swift:16-24 | `UrlStringContainSpecialCase`: true exactly when the lower-cased URL string contains one of the special cases |
| SpecialCases.OpenRSSOrgHost | src/Reed/Classes/Model/Network/SpecialCases.swift:28-33 | `IsOpenRSSOrgURL`, `HostContains`: an openrss.org URL is one whose lower-cased host contains `openrss.org` |
| SpecialCases.ByRemovingOpenRSSOrgURLs | src/Reed/Classes/Model/Network/SpecialCases.swift:44-46 | exactly the URLs that are not openrss.org URLs |
| SpecialCases.OpenRSSOrgURLs | src/Reed/Classes/Model/Network/SpecialCases.swift:48-50 | exactly the openrss.org URLs |
| SpecialCases.FiltersPartition | src/Reed/Classes/Model/Network/SpecialCases.swift:44-50 | the two filters split the set into two disjoint parts |
| SpecialCases.ByRemovingAllButOneRandomOpenRSSOrgURL | src/Reed/Classes/Model/Network/SpecialCases.swift:52-69 | the set is unchanged when small or with at most one openrss.org URL; otherwise all other URLs are kept and exactly one openrss.org URL |
| SpecialCases.AddSpecialCaseUserAgentIfNeeded | src/Reed/Classes/Model/Network/SpecialCases.swift:73-81 | `IsRachelByTheBayURL`: the extended user agent is set exactly for openrss.org and rachelbythebay.com URLs; other headers are unchanged |
| DownloadSession.Fresh4xxResponses | src/Reed/Classes/RSWeb/DownloadSession.swift:463-474 | exactly the 4xx records at most 53 hours old are kept, unchanged |
| DownloadSession.CleanUpIdempotent | src/Reed/Classes/RSWeb/DownloadSession.swift:463-474 | cleaning up twice at the same moment removes nothing more |
| DownloadSession.Active429 | src/Reed/Classes/RSWeb/DownloadSession.swift:444-458 | a request is dropped exactly when its host has a 429 resume date not yet passed; an expired date is forgotten, nothing else changes |
| DownloadSession.WithNewTask | src/Reed/Classes/RSWeb/DownloadSession.swift:288-294 | a new task is recorded under the next identifier, pending, for the URL asked for |
| DownloadSession.FilteredKeepsOthers | src/Reed/Classes/RSWeb/DownloadSession.swift:504-515 | filtering keeps every URL of another host, at most one openrss.org URL, and none when openrss.org may not be read yet |
| DownloadSession.QueuePushesFront | src/Reed/Classes/RSWeb/DownloadSession.swift:246-248 | with 500 tasks pending, URLs wait at the front of the queue and nothing else changes |
| DownloadSession.RefillTakesOldest | src/Reed/Classes/RSWeb/DownloadSession.swift:298-301 | a refill takes the URL that has waited longest, so the queue is first in, first out |
| DownloadSession.RefillTakesOne | src/Reed/Classes/RSWeb/DownloadSession.swift:298-301 | a refill with fewer than 500 pending tasks takes exactly one URL off the queue |
| DownloadSession.ProgressSignalsOnce | src/Reed/Classes/RSWeb/DownloadSession.swift:381-388 | `NumberRemaining`: completion is signalled exactly when the session has URLs and nothing remains, and a second update changes nothing |
| DownloadSession.Dropped4xxGetsNoTask | src/Reed/Classes/RSWeb/DownloadSession.swift:258-261 | a URL whose resolved target has a 4xx record gets no task and no delegate call |
| DownloadSession.AddCreatesAtMostOneTask | src/Reed/Classes/RSWeb/DownloadSession.swift:245-295 | adding a URL creates no task or exactly one new pending task under the next identifier |
| DownloadSession.StartTaskCreatesAtMostOne | src/Reed/Classes/RSWeb/DownloadSession.swift:258-295 | after the 429 check, at most one task is created |
| DownloadSession.WithNewTaskPreservesValid | src/Reed/Classes/RSWeb/DownloadSession.swift:288-294 | a new task keeps the session valid: pending and in-progress disjoint, every pending task with its info |
| DownloadSession.StartTaskPreservesValid | src/Reed/Classes/RSWeb/DownloadSession.swift:258-295 | starting a task keeps the session valid and issues at most the next identifier |
| DownloadSession.AddPreservesValid | src/Reed/Classes/RSWeb/DownloadSession.swift:245-295 | `addDataTask` keeps the session valid |
| DownloadSession.AddFromQueuePreservesValid | src/Reed/Classes/RSWeb/DownloadSession.swift:298-301 | a refill keeps the session valid |
| DownloadSession.UpdateProgressKeepsTasks | src/Reed/Classes/RSWeb/DownloadSession.swift:381-388 | the progress update leaves tasks, the queue and the 4xx records alone |
| DownloadSession.RemoveTaskRemoves | src/Reed/Classes/RSWeb/DownloadSession.swift:308-316 | a removed task is neither pending nor in progress nor has info, and the session stays valid |
| DownloadSession.DidReceiveResponsePreservesValid | src/Reed/Classes/RSWeb/DownloadSession.swift:176-221 | handling a response keeps the session valid |
| DownloadSession.ErrorResponsePreservesValid | src/Reed/Classes/RSWeb/DownloadSession.swift:196-215 | the error path of the response handler keeps the session valid |
| DownloadSession.UpdateProgressPreservesValid | src/Reed/Classes/RSWeb/DownloadSession.swift:381-388 | the progress update keeps the session valid |
| DownloadSession.ClientErrorIsRecorded | src/Reed/Classes/RSWeb/DownloadSession.swift:211-213 | a 4xx response other than 429 is recorded for its URL with the time, so that URL is dropped from then on |
| DownloadSession.EnumeratesStep | src/Reed/Classes/RSWeb/DownloadSession.swift:103-105 | each URL added extends the enumeration of the filtered set |
| DownloadSession.AddAllStep | src/Reed/Classes/RSWeb/DownloadSession.swift:103-105 | adding one more URL is one more `addDataTask` |
| DownloadSession.AddAllPreservesValid | src/Reed/Classes/RSWeb/DownloadSession.swift:103-105 | adding any sequence of URLs keeps the session valid |
| DownloadSession.TasksToRemoveAsWritten | src/Reed/Classes/RSWeb/DownloadSession.swift:426-434 | as written, the filter selects every task whose host does NOT contain the 429 host |
| DownloadSession.TasksToRemoveAsWrittenSparesTheHost | src/Reed/Classes/RSWeb/DownloadSession.swift:426-434 | with tasks on `openrss.org` and `b.com`, a 429 from `openrss.org` cancels only the `b.com` task |
| DownloadSession.TasksToRemove | src/Reed/Classes/RSWeb/DownloadSession.swift:426-434 | corrected: a task is selected exactly when its lower-cased host contains the 429 host |
| DownloadSession.AsWrittenIsComplement | src/Reed/Classes/RSWeb/DownloadSession.swift:429-434 | the filter as written selects exactly the complement of the intended one |
| DownloadSession.Session.constructor | src/Reed/Classes/RSWeb/DownloadSession.swift:40-82 | a new session has no tasks, caches, queue or records, and is valid |
| DownloadSession.Session.CacheRedirect | src/Reed/Classes/RSWeb/DownloadSession.swift:342-347 | the redirect is recorded unless its target is blacklisted; nothing else changes |
| DownloadSession.Session.RequestShouldBeDroppedDueToPrevious400 | src/Reed/Classes/RSWeb/DownloadSession.swift:476-485 | true exactly when the URL or its resolved redirect has a 4xx record |
| DownloadSession.Session.RequestShouldBeDroppedDueToActive429 | src/Reed/Classes/RSWeb/DownloadSession.swift:444-458 | the answer and the forgotten expired date are those of `Active429` |
| DownloadSession.Session.CleanUp4xxResponsesCache | src/Reed/Classes/RSWeb/DownloadSession.swift:463-474 | the key-by-key loop leaves exactly the fresh records |
| DownloadSession.Session.AddDataTask | src/Reed/Classes/RSWeb/DownloadSession.swift:245-295 | queues the URL when 500 tasks are pending, else drops it for a 429 or 4xx, answers it from the cache, or starts a task |
| DownloadSession.Session.StartTask | src/Reed/Classes/RSWeb/DownloadSession.swift:258-295 | `UrlToUse`: the part of `addDataTask` after the 429 check |
| DownloadSession.Session.AddDataTaskFromQueueIfNecessary | src/Reed/Classes/RSWeb/DownloadSession.swift:298-301 | the last queued URL is added when fewer than 500 tasks are pending |
| DownloadSession.Session.UpdateDownloadProgress | src/Reed/Classes/RSWeb/DownloadSession.swift:381-388 | when the session has URLs and nothing is pending, in progress or queued, the URLs are cleared and the delegate told once |
| DownloadSession.Session.RemoveTask | src/Reed/Classes/RSWeb/DownloadSession.swift:308-316 | that task is forgotten, one queued URL may start, then progress is updated |
| DownloadSession.Session.DidReceiveResponse | src/Reed/Classes/RSWeb/DownloadSession.swift:176-221 | that task moves to in progress; a 400+ response other than 429 is stored in the returned download cache, then that data task is removed (a queued URL may start with that cache) and a 4xx is recorded; a 429 with a `Retry-After` message is handled as `handle429Response` does; below 400 a queued URL may start; progress is updated last; the session stays valid |
| DownloadSession.Session.DidComplete | src/Reed/Classes/RSWeb/DownloadSession.swift:115-143 | a known task that completed without an error has its response stored under its request URL in the returned download cache; the delegate hears of the URL; then that data task is removed and the queue refilled with the updated cache; the session stays valid |
| DownloadSession.CachedAfterCompletion | src/Reed/Classes/RSWeb/DownloadSession.swift:130-133 | the cache only grows, gains the request URL of a known task that completed without an error, gains nothing else, and is unchanged for an unknown task or an error |
| DownloadSession.CompletedRequestIsServedFromCache | src/Reed/Classes/RSWeb/DownloadSession.swift:130-133 | a later request for a URL that completed without an error, when not dropped, is answered from the cache: the delegate hears of it and no task is created |
| DownloadSession.Session.RemoveTasks | src/Reed/Classes/RSWeb/DownloadSession.swift:436-441 | every given task is gone; the other in-progress tasks are exactly those left, every other pending task and task info stays, only new tasks become pending, and no resume date still to come is forgotten |
| DownloadSession.Session.CancelAndRemoveTasksWithHost | src/Reed/Classes/RSWeb/DownloadSession.swift:420-442 | (corrected filter) every task of the host, pending or in progress, is removed, and every task of another host stays where it was; no resume date still to come is forgotten; the session stays valid |
| DownloadSession.Session.Handle429Response | src/Reed/Classes/RSWeb/DownloadSession.swift:393-400 | the resume date is recorded for the host, kept with every other date still to come, and the host's tasks are removed while the other hosts' stay |
| DownloadSession.Session.HandleErrorResponse | src/Reed/Classes/RSWeb/DownloadSession.swift:196-215 | a 400+ response: that data task is removed and the queue refilled; a 429 with a message goes to the 429 handler, anything else in 400-499 with a URL is recorded as a 4xx response; the cache gains exactly the URL of a non-429 response |
| DownloadSession.Session.RemoveErroredTask | src/Reed/Classes/RSWeb/DownloadSession.swift:196-207 | the response is written to the download cache unless it is a 429, then that data task is removed as `removeTask` removes it |
| DownloadSession.Session.RemoveOneOf | src/Reed/Classes/RSWeb/DownloadSession.swift:439-441 | one turn of the removal loop: that data task is removed and the removal progress now counts it as done |
| DownloadSession.Session.DidReceiveData | src/Reed/Classes/RSWeb/DownloadSession.swift:223-237 | nothing happens for a task without info; a task whose data the delegate rejects is removed as `removeTask` removes it; otherwise the session is unchanged |
| DownloadSession.CachedAfterResponse | src/Reed/Classes/RSWeb/DownloadSession.swift:196-203 | the cache gains the response URL exactly for a status of 400 or more other than 429 with a URL; otherwise it is unchanged |
| DownloadSession.AddKeepsOthers | src/Reed/Classes/RSWeb/DownloadSession.swift:245-296 | adding a URL keeps every pending task, every task info, exactly the tasks in progress and every resume date not yet passed |
| DownloadSession.RemoveTaskKeepsOthers | src/Reed/Classes/RSWeb/DownloadSession.swift:308-316 | removing a task keeps every other pending task and task info, takes exactly that task out of progress, and keeps every resume date not yet passed |
| DownloadSession.KeepsUnexpiredTrans | src/Reed/Classes/RSWeb/DownloadSession.swift:444-461 | keeping the resume dates not yet passed is transitive over a run of steps |
| DownloadSession.RemovalStep | src/Reed/Classes/RSWeb/DownloadSession.swift:439-441 | removing one more task of the set extends the removal progress by that task |
| DownloadSession.Handled429Records | src/Reed/Classes/RSWeb/DownloadSession.swift:393-400 | after the 429 handler, a resume date that has not passed is on record for its host |
| DownloadSession.Session.FilteredURLs | src/Reed/Classes/RSWeb/DownloadSession.swift:499-515 | more than ten hours after the last openrss.org read, one openrss.org URL is let through and the read time stamped; otherwise none |
| DownloadSession.Session.Download | src/Reed/Classes/RSWeb/DownloadSession.swift:99-109 | the 4xx cache is cleaned, every filtered URL is added once, the session's URLs are the filtered ones, and progress is updated |
| DownloadSession.Session.AddDataTasks | src/Reed/Classes/RSWeb/DownloadSession.swift:103-105 | one `addDataTask` per URL, each exactly once |
| RedirectChain.UrlStringIsBlackListedRedirect | src/Reed/Classes/RSWeb/DownloadSession.swift:318-340 | `IsBlackListedRedirect`: true exactly when the lower-cased URL contains one of the eight hotel/login words |
| RedirectChain.WithRedirect | src/Reed/Classes/RSWeb/DownloadSession.swift:342-347 | a blacklisted target leaves the cache alone; otherwise the old URL maps to the new one |
| RedirectChain.NewRedirectResolves | src/Reed/Classes/RSWeb/DownloadSession.swift:342-376 | a fresh redirect to a URL not itself redirected resolves to that URL |
| RedirectChain.UnvisitedShrinks | src/Reed/Classes/RSWeb/DownloadSession.swift:357-370 | each step of the redirect walk visits a new URL, so the walk ends |
| RedirectChain.Follow | src/Reed/Classes/RSWeb/DownloadSession.swift:357-370 | the walk ends at a URL with no redirect, or fails on a cycle |
| RedirectChain.CachedRedirectOf | src/Reed/Classes/RSWeb/DownloadSession.swift:349-376 | nothing for a URL without a redirect; a result is another URL with no redirect of its own |
| RedirectChain.FollowEnds | src/Reed/Classes/RSWeb/DownloadSession.swift:357-370 | a result is the end of a repetition-free chain of redirects from the URL |
| RedirectChain.FollowCycles | src/Reed/Classes/RSWeb/DownloadSession.swift:359-362 | no result means the chain of redirects from the URL repeats |
| RedirectChain.WalksArePrefixes | src/Reed/Classes/RSWeb/DownloadSession.swift:357-370 | the chain of redirects from a URL is unique: shorter walks are prefixes of longer ones |
| RedirectChain.WalkStopsAtEnd | src/Reed/Classes/RSWeb/DownloadSession.swift:366-369 | no walk goes past a URL without a redirect |
| RedirectChain.CachedRedirectNoneIffCycle | src/Reed/Classes/RSWeb/DownloadSession.swift:349-376 | for a redirected URL, no result exactly when its chain has a cycle |
| RedirectChain.CachedRedirectIsEndOfChain | src/Reed/Classes/RSWeb/DownloadSession.swift:349-376 | a result is the end of the URL's repetition-free chain, and is not redirected further |
| RedirectChain.CachedRedirect | src/Reed/Classes/RSWeb/DownloadSession.swift:349-376 | the loop with its visited set computes `CachedRedirectOf` |
| LocalAccountRefresher.DisallowedHosts | src/Reed/Classes/DataStore/LocalAccount/LocalAccountRefresher.swift:207-232 | `IsDisallowed`: a feed is disallowed exactly when its URL does not parse, has no host, or its lower-cased host is one of the four Twitter/X hosts |
| LocalAccountRefresher.HostComparedWhole | src/Reed/Classes/DataStore/LocalAccount/LocalAccountRefresher.swift:222-223 | hosts are compared whole: `mobile.twitter.com` is allowed, `X.com` is not |
| LocalAccountRefresher.NeverCheckedNotTimed | src/Reed/Classes/DataStore/LocalAccount/LocalAccountRefresher.swift:241-243 | a feed never checked is never skipped for timing |
| LocalAccountRefresher.TimingSkipOnlyForSpecialHosts | src/Reed/Classes/DataStore/LocalAccount/LocalAccountRefresher.swift:240-258 | `SkippedForTimingReasons`: a timing skip happens exactly for rachelbythebay.com and openrss.org feeds checked within the last 25 hours |
| LocalAccountRefresher.CacheControlSkipOnlyForOpenRSSOrg | src/Reed/Classes/DataStore/LocalAccount/LocalAccountRefresher.swift:260-275 | `SkippedForCacheControlReasons`: a Cache-Control skip happens exactly for openrss.org feeds whose max-age has not passed |
| LocalAccountRefresher.OrdinaryFeedIsFetched | src/Reed/Classes/DataStore/LocalAccount/LocalAccountRefresher.swift:234-238 | an allowed, never-checked feed not on openrss.org is fetched |
| LocalAccountRefresher.ConditionalGetInfoToSend | src/Reed/Classes/DataStore/LocalAccount/LocalAccountRefresher.swift:84-116 | `DropsConditionalGetInfo`: the stored info is sent unless there is none or it is more than 8 days old on an ordinary host |
| LocalAccountRefresher.SpecialCasesKeepConditionalGetInfo | src/Reed/Classes/DataStore/LocalAccount/LocalAccountRefresher.swift:99-113 | openrss.org and rachelbythebay.com feeds, and undated info, always keep their info |
| LocalAccountRefresher.RecentConditionalGetInfoKept | src/Reed/Classes/DataStore/LocalAccount/LocalAccountRefresher.swift:99-101 | info at most 8 days old is always sent |
| LocalAccountRefresher.WithResponse | src/Reed/Classes/DataStore/LocalAccount/LocalAccountRefresher.swift:143-159 | `HeaderOf`, `StatusIsOK`: validators come from the response; Cache-Control info changes only for a 2xx openrss.org response with the header |
| LocalAccountRefresher.AfterDownload | src/Reed/Classes/DataStore/LocalAccount/LocalAccountRefresher.swift:125-187 | `UpdatesValidators`, `ReadsContent`: the check date is always stamped; errors and other statuses change nothing else; 2xx/304 update the validators; the content hash changes only when new content was parsed and stored |
| LocalAccountRefresher.SameHashIsNotParsed | src/Reed/Classes/DataStore/LocalAccount/LocalAccountRefresher.swift:161-164 | content with the stored hash is not parsed again and the hash is kept |
| LocalAccountRefresher.NotModifiedKeepsContent | src/Reed/Classes/DataStore/LocalAccount/LocalAccountRefresher.swift:137-151 | a 304 updates the validators but keeps the Cache-Control info and hash, and parses nothing |
| LocalAccountRefresher.CacheControlOnlyForOpenRSSOrg | src/Reed/Classes/DataStore/LocalAccount/LocalAccountRefresher.swift:153-159 | no other host ever changes the Cache-Control info |
| LocalAccountRefresher.FeedsToRefresh | src/Reed/Classes/DataStore/LocalAccount/LocalAccountRefresher.swift:47-48 | `FeedShouldBeSkipped`: exactly the feeds not skipped |
| LocalAccountRefresher.UrlStringsStep | src/Reed/Classes/DataStore/LocalAccount/LocalAccountRefresher.swift:58-60 | filing one more feed adds its URL string |
| LocalAccountRefresher.UrlsOfStep | src/Reed/Classes/DataStore/LocalAccount/LocalAccountRefresher.swift:62 | one more feed adds its URL when that parses |
| LocalAccountRefresher.DownloadedURLs | src/Reed/Classes/DataStore/LocalAccount/LocalAccountRefresher.swift:62 | `UrlsOf`, `UrlStrings`: a URL is downloaded exactly when some filtered feed's URL string parses to it |
| LocalAccountRefresher.Refresher.constructor | src/Reed/Classes/DataStore/LocalAccount/LocalAccountRefresher.swift:20-32 | a new refresher is not suspended, knows no feeds and has no completion |
| LocalAccountRefresher.Refresher.UrlFor | src/Reed/Classes/DataStore/LocalAccount/LocalAccountRefresher.swift:277-293 | the feed's parsed URL, remembered in the cache when it parses; nothing else changes |
| LocalAccountRefresher.Refresher.Suspend | src/Reed/Classes/DataStore/LocalAccount/LocalAccountRefresher.swift:68-72 | `ShouldContinueAfterReceivingData`: once suspended, no data is continued with |
| LocalAccountRefresher.Refresher.Resume | src/Reed/Classes/DataStore/LocalAccount/LocalAccountRefresher.swift:74-77 | once resumed, data is continued with exactly when it is not an image |
| LocalAccountRefresher.Refresher.FileFeeds | src/Reed/Classes/DataStore/LocalAccount/LocalAccountRefresher.swift:57-60 | the dictionary is rebuilt to hold exactly the filtered feeds' URL strings, each mapped to a filtered feed |
| LocalAccountRefresher.Refresher.URLsFor | src/Reed/Classes/DataStore/LocalAccount/LocalAccountRefresher.swift:62 | the URLs of the filtered feeds that parse |
| LocalAccountRefresher.Refresher.RefreshFeeds | src/Reed/Classes/DataStore/LocalAccount/LocalAccountRefresher.swift:46-66 | completes at once exactly when nothing is left after filtering, changing no feeds; otherwise files the filtered feeds and downloads their URLs |
| LocalAccountRefresher.Refresher.DownloadSessionDidComplete | src/Reed/Classes/DataStore/LocalAccount/LocalAccountRefresher.swift:196-201 | the completion is called once, if there is one, and then forgotten |
| LocalAccountRefresher.Refresher.ConditionalGetInfoFor | src/Reed/Classes/DataStore/LocalAccount/LocalAccountRefresher.swift:84-116 | nothing for an unknown URL; otherwise the info to send, and stale info is dropped from the feed |
| LocalAccountRefresher.Refresher.DownloadDidComplete | src/Reed/Classes/DataStore/LocalAccount/LocalAccountRefresher.swift:118-187 | an unknown URL is ignored; otherwise the feed's metadata becomes `AfterDownload` and parsing happens exactly when `Parses` holds |
| DownloadProgressModel.Desc | src/Reed/Classes/RSWeb/DownloadProgress.swift:61-66 | the progress and all its descendants, itself included |
| DownloadProgressModel.DescFirstContains | src/Reed/Classes/RSWeb/DownloadProgress.swift:61-66 | the descendants of each child are among those of the first children |
| DownloadProgressModel.InfoUnfold | src/Reed/Classes/RSWeb/DownloadProgress.swift:51-74 | a progress's info is its own counts plus its children's infos |
| DownloadProgressModel.InfoConsistent | src/Reed/Classes/RSWeb/DownloadProgress.swift:30-74 | remaining is always tasks minus completed, and never negative when counts are valid |
| DownloadProgressModel.InfoFirstConsistent | src/Reed/Classes/RSWeb/DownloadProgress.swift:61-66 | the same for the sum over the first children |
| DownloadProgressModel.CompleteOnKeepsCounts | src/Reed/Classes/RSWeb/DownloadProgress.swift:114-121 | completing keeps every counter valid and the children unchanged |
| DownloadProgressModel.ResetOnKeepsCounts | src/Reed/Classes/RSWeb/DownloadProgress.swift:124-146 | resetting keeps every counter valid and the children unchanged |
| DownloadProgressModel.CompleteOnTwice | src/Reed/Classes/RSWeb/DownloadProgress.swift:114-121 | completing two sets one after the other completes their union |
| DownloadProgressModel.CompleteOnOne | src/Reed/Classes/RSWeb/DownloadProgress.swift:116 | completing one progress sets its completed count to its task count |
| DownloadProgressModel.ResetOnOne | src/Reed/Classes/RSWeb/DownloadProgress.swift:128-135 | resetting one progress zeroes its counts, a change exactly when one was non-zero |
| DownloadProgressModel.ResetOnTwice | src/Reed/Classes/RSWeb/DownloadProgress.swift:124-146 | resetting two sets one after the other resets their union |
| DownloadProgressModel.ResetChangesIffCounts | src/Reed/Classes/RSWeb/DownloadProgress.swift:124-146 | a reset changes the counters exactly when some count in the set is non-zero |
| DownloadProgressModel.CompletedHasNothingRemaining | src/Reed/Classes/RSWeb/DownloadProgress.swift:114-121 | after `completeAll` nothing remains in the whole tree, and the numbers of tasks are unchanged |
| DownloadProgressModel.ResetCountsNothing | src/Reed/Classes/RSWeb/DownloadProgress.swift:124-146 | after `reset` the whole tree counts nothing |
| DownloadProgressModel.ResetFlagAsWrittenMissesOwnChange | src/Reed/Classes/RSWeb/DownloadProgress.swift:137-139 | as written the flag is the last child's answer: a parent with 5 tasks and an unchanged child reports no change |
| DownloadProgressModel.PostedWithinTrans | src/Reed/Classes/RSWeb/DownloadProgress.swift:98-143 | notifications posted by successive calls stay among the progresses involved |
| DownloadProgressModel.DownloadProgressStore.constructor | src/Reed/Classes/RSWeb/DownloadProgress.swift:24 | a new store has no progresses and has posted nothing |
| DownloadProgressModel.DownloadProgressStore.Create | src/Reed/Classes/RSWeb/DownloadProgress.swift:45-49 | a new progress with the given tasks, no completions, no children, under the next id |
| DownloadProgressModel.DownloadProgressStore.AddChild | src/Reed/Classes/RSWeb/DownloadProgress.swift:82-87 | the child is added to the parent's children once; no counts change |
| DownloadProgressModel.DownloadProgressStore.AddTasks | src/Reed/Classes/RSWeb/DownloadProgress.swift:93-99 | the number of tasks grows by `n` and a change is posted |
| DownloadProgressModel.DownloadProgressStore.AddTask | src/Reed/Classes/RSWeb/DownloadProgress.swift:89-91 | the number of tasks grows by one and a change is posted |
| DownloadProgressModel.DownloadProgressStore.CompleteTasks | src/Reed/Classes/RSWeb/DownloadProgress.swift:105-112 | the completed count grows by `tasks`, within the number of tasks, and a change is posted |
| DownloadProgressModel.DownloadProgressStore.CompleteTask | src/Reed/Classes/RSWeb/DownloadProgress.swift:101-103 | the completed count grows by one and a change is posted |
| DownloadProgressModel.DownloadProgressStore.GetProgressInfo | src/Reed/Classes/RSWeb/DownloadProgress.swift:51-74 | the recursive sum equals `Info` |
| DownloadProgressModel.DownloadProgressStore.CompleteAll | src/Reed/Classes/RSWeb/DownloadProgress.swift:114-121 | `IsComplete`: every progress of the subtree is completed, so the progress is complete; nothing else changes and nothing is posted |
| DownloadProgressModel.DownloadProgressStore.Reset | src/Reed/Classes/RSWeb/DownloadProgress.swift:124-146 | (corrected flag) every progress of the subtree is zeroed, so the progress is complete; the answer is true exactly when some count was non-zero, and then this progress posts last |
| DownloadProgressModel.DownloadProgressStore.ResetOwn | src/Reed/Classes/RSWeb/DownloadProgress.swift:128-135 | own counts zeroed, a change exactly when one was non-zero |
| DownloadProgressModel.DownloadProgressStore.CompleteChildren | src/Reed/Classes/RSWeb/DownloadProgress.swift:117-119 | the loop over the children completes every progress below the counter, and posts nothing |
| DownloadProgressModel.DownloadProgressStore.ResetChildren | src/Reed/Classes/RSWeb/DownloadProgress.swift:137-139 | the loop over the children zeroes every progress below the counter; the flag says whether any had counts |
| DownloadProgressModel.DownloadProgressStore.ResetChild | src/Reed/Classes/RSWeb/DownloadProgress.swift:137-139 | one turn of that loop zeroes one child's subtree and folds in whether it had counts |
| CombinedProgress.SumInfosConsistent | src/Reed/Classes/DataStore/CombinedRefreshProgress.swift:61-66 | `SumInfos`: summing consistent progress infos gives a consistent info |
| CombinedProgress.Clamp | src/Reed/Classes/DataStore/CombinedRefreshProgress.swift:74-83 | the updated count is raised to the current one and capped by the number of tasks: within range it is taken as is |
| CombinedProgress.Combined | src/Reed/Classes/DataStore/CombinedRefreshProgress.swift:68-87 | `InRange`: the number of tasks only grows; remaining and completed never fall and never exceed the number of tasks, and take the new sums when these lie in range |
| CombinedProgress.CombinedIdempotent | src/Reed/Classes/DataStore/CombinedRefreshProgress.swift:68-87 | the same sums a second time change nothing, so no second notification |
| CombinedProgress.CombinedWithSelf | src/Reed/Classes/DataStore/CombinedRefreshProgress.swift:68-87 | sums equal to the current counts change nothing |
| CombinedProgress.SumProgress | src/Reed/Classes/DataStore/CombinedRefreshProgress.swift:54-66 | the loop's three sums are the summed progress info |
| CombinedProgress.CombinedRefreshProgress.constructor | src/Reed/Classes/DataStore/CombinedRefreshProgress.swift:19-36 | new progress counts nothing, is not started and has posted nothing |
| CombinedProgress.CombinedRefreshProgress.Reset | src/Reed/Classes/DataStore/CombinedRefreshProgress.swift:96-106 | counts are zeroed, with one notification exactly when one was non-zero |
| CombinedProgress.CombinedRefreshProgress.Start | src/Reed/Classes/DataStore/CombinedRefreshProgress.swift:38-41 | reset, then started |
| CombinedProgress.CombinedRefreshProgress.Stop | src/Reed/Classes/DataStore/CombinedRefreshProgress.swift:43-46 | reset, then stopped, hence complete |
| CombinedProgress.CombinedRefreshProgress.RefreshProgressDidChange | src/Reed/Classes/DataStore/CombinedRefreshProgress.swift:48-92 | ignored unless started; otherwise the counts become `Combined` of the old counts and the sums, with one notification exactly when they changed |
| TtlCache.Unexpired | src/Reed/Classes/Utilities/Cache.swift:68-77 | `Expired`: exactly the unexpired records are kept, unchanged |
| TtlCache.UnexpiredIdempotent | src/Reed/Classes/Utilities/Cache.swift:62-80 | a second cleanup at the same moment removes nothing |
| TtlCache.UnexpiredShrinksOverTime | src/Reed/Classes/Utilities/Cache.swift:70 | a record expired at one time is expired at every later time |
| TtlCache.Cache.constructor | src/Reed/Classes/Utilities/Cache.swift:16-29 | the cache is empty, with the given lifetimes, last cleaned now |
| TtlCache.Cache.CleanupIfNeeded | src/Reed/Classes/Utilities/Cache.swift:62-80 | `CleanupDue`: when a cleanup is due the expired records go and the cleanup date is now; otherwise nothing changes |
| TtlCache.Cache.Cleanup | src/Reed/Classes/Utilities/Cache.swift:54-58 | the same as `cleanupIfNeeded` |
| TtlCache.Cache.Get | src/Reed/Classes/Utilities/Cache.swift:32-46 | after a due cleanup, which dates the cleanup now (else the date is kept): nothing for a missing key, nothing for an expired record (which is removed), else the record |
| TtlCache.Cache.Set | src/Reed/Classes/Utilities/Cache.swift:47-51 | a value is stored under the key, nil removes it; the cleanup date is unchanged |
| TtlCache.ExpiredKeys | src/Reed/Classes/Utilities/Cache.swift:68-73 | the loop collects exactly the keys of expired records |
| TtlCache.SetThenGet | src/Reed/Classes/Utilities/Cache.swift:31-51 | a fresh record just stored is found again |
| CoalescingQueueModel.WithCall | src/Reed/Classes/Core/CoalescingQueue.swift:72-78 | `NoDuplicates`: the call is appended unless an equal call is queued; calls stay unique and in order |
| CoalescingQueueModel.WithCallTwice | src/Reed/Classes/Core/CoalescingQueue.swift:75-77 | adding the same call twice is adding it once |
| CoalescingQueueModel.Performed | src/Reed/Classes/Core/CoalescingQueue.swift:21-61 | exactly the queued calls whose target still exists are performed, in order |
| CoalescingQueueModel.PerformedAppend | src/Reed/Classes/Core/CoalescingQueue.swift:59-61 | performing two runs of calls is performing each in turn |
| CoalescingQueueModel.Released | src/Reed/Classes/Core/CoalescingQueue.swift:18 | a released target is nil in every queued call; selectors stay |
| CoalescingQueueModel.ReleasedNotPerformed | src/Reed/Classes/Core/CoalescingQueue.swift:13-23 | no call is performed on a released target |
| CoalescingQueueModel.CoalescingQueue.constructor | src/Reed/Classes/Core/CoalescingQueue.swift:41-45 | a new queue is not paused and holds no calls |
| CoalescingQueueModel.CoalescingQueue.PerformCallsImmediately | src/Reed/Classes/Core/CoalescingQueue.swift:55-62 | when paused nothing happens; otherwise the queue is emptied and its live calls performed in order |
| CoalescingQueueModel.CoalescingQueue.TimerDidFire | src/Reed/Classes/Core/CoalescingQueue.swift:64-68 | the call time is stamped, then the calls are performed unless paused |
| CoalescingQueueModel.CoalescingQueue.Add | src/Reed/Classes/Core/CoalescingQueue.swift:47-78 | the timer is pushed off; the call is added once; when more than `maxInterval` has passed since the last call the queue fires at once |
| CoalescingQueueModel.CoalescingQueue.Release | src/Reed/Classes/Core/CoalescingQueue.swift:13-18 | a target going away leaves its calls queued with no target |
| BatchUpdateModel.Decremented | src/Reed/Classes/RSCore/BatchUpdate.swift:60-67 | the count drops by one, to 0 with a notification when it falls below 1 |
| BatchUpdateModel.StartsAndEndsRestore | src/Reed/Classes/RSCore/BatchUpdate.swift:43-52 | `AfterStartsAndEnds`: `n` starts followed by `n` ends give the count back |
| BatchUpdateModel.BatchUpdate.constructor | src/Reed/Classes/RSCore/BatchUpdate.swift:24-26 | a new batch update count is 0 |
| BatchUpdateModel.BatchUpdate.Start | src/Reed/Classes/RSCore/BatchUpdate.swift:43-46 | the count grows by one and updating is in progress |
| BatchUpdateModel.BatchUpdate.End | src/Reed/Classes/RSCore/BatchUpdate.swift:49-67 | the count is decremented; updating stops, with one notification, exactly when the count was at most 1 |
| BatchUpdateModel.BatchUpdate.Perform | src/Reed/Classes/RSCore/BatchUpdate.swift:35-40 | the count is unchanged, and a notification is posted exactly when no other batch was open |
| ContainerId.StringFor | src/Reed/Classes/DataStore/ContainerIdentifier.swift:42-48 | a key is read only when present with a string value |
| ContainerId.FromUserInfo | src/Reed/Classes/DataStore/ContainerIdentifier.swift:41-58 | `DataStoreIDIn`: an identifier is only made from a string `type`, and a folder only with a string `folderName` |
| ContainerId.UserInfoRoundTrip | src/Reed/Classes/DataStore/ContainerIdentifier.swift:21-58 | `UserInfo`: reading back an identifier's user info gives the identifier |
| ContainerId.LegacyUserInfoAccepted | src/Reed/Classes/DataStore/ContainerIdentifier.swift:47-54 | `account` is read as `dataStore`, and `accountID` stands in for `dataStoreID` |
| ContainerId.FromUserInfoRejects | src/Reed/Classes/DataStore/ContainerIdentifier.swift:42-56 | no identifier without a `type`, for an unknown type, or for a folder without a name |
| ContainerId.Decode | src/Reed/Classes/DataStore/ContainerIdentifier.swift:85-87 | decoding fails on a missing `type` key |
| ContainerId.DecodeEncode | src/Reed/Classes/DataStore/ContainerIdentifier.swift:68-114 | `Encode`, `DecodeKey`: decoding an encoded identifier gives it back |
| ContainerId.DecodeUnknownTypeAsFolder | src/Reed/Classes/DataStore/ContainerIdentifier.swift:103-113 | the decoder reads any unknown type as a folder, where the user-info reader rejects it |
| ContainerId.DecodeLegacyAccountID | src/Reed/Classes/DataStore/ContainerIdentifier.swift:92-118 | the decoder falls back to the legacy `accountID` key for data stores and folders |
| SidebarId.UserInfo | src/Reed/Classes/DataStore/SidebarItemIdentifier.swift:64-81 | the user info always carries the kind under `type` |
| SidebarId.FromUserInfo | src/Reed/Classes/DataStore/SidebarItemIdentifier.swift:83-116 | `TypeName`, `Lookup`: an identifier is only read from a dictionary whose `type` names its kind |
| SidebarId.UserInfoRoundTrip | src/Reed/Classes/DataStore/SidebarItemIdentifier.swift:64-116 | reading back an identifier's user info gives the identifier |
| SidebarId.LegacyFeedIDAccepted | src/Reed/Classes/DataStore/SidebarItemIdentifier.swift:100-106 | a feed is read from the legacy `webFeedID` key when `feedID` is absent, and `feedID` wins when both are present |
| SidebarId.FromUserInfoRejects | src/Reed/Classes/DataStore/SidebarItemIdentifier.swift:84-115 | no identifier without a type, for an unknown type, or without the kind's keys |
| SidebarId.DescriptionAsWrittenConfusesKinds | src/Reed/Classes/DataStore/SidebarItemIdentifier.swift:51-62 | as written the description starts with the literal text `(typeName)`, so `smartFeed("a")` and `script("a")` look alike |
| SidebarId.Description | src/Reed/Classes/DataStore/SidebarItemIdentifier.swift:51-62 | corrected: the description is the kind's type name, `": "`, then the ids |
| SidebarId.DescriptionTellsKindsApart | src/Reed/Classes/DataStore/SidebarItemIdentifier.swift:51-62 | identifiers of different kinds have different descriptions |
| SidebarId.DescriptionWithinKind | src/Reed/Classes/DataStore/SidebarItemIdentifier.swift:51-62 | `DescribedIDs`: within a kind, equal descriptions mean equal described ids |
| NodeTree.Ancestors | src/Reed/Classes/Tree/Node.swift:118-133 | every ancestor is a node created before this one |
| NodeTree.LevelCountsAncestors | src/Reed/Classes/Tree/Node.swift:23-50 | `IsRoot`, `Level`: the level is the number of ancestors, and 0 exactly for a root |
| NodeTree.AncestorOfAncestor | src/Reed/Classes/Tree/Node.swift:118-133 | an ancestor of an ancestor is an ancestor |
| NodeTree.ChildAtIndex | src/Reed/Classes/Tree/Node.swift:84-89 | a child exactly for an index in range, the child at that index |
| NodeTree.FirstIndex | src/Reed/Classes/Tree/Node.swift:91-95 | the first position holding the node, or none when it is not a child |
| NodeTree.IndexPath | src/Reed/Classes/Tree/Node.swift:34-43 | `IndexOfChild`: an index path starts with 0 and has one entry per level |
| NodeTree.RootOf | src/Reed/Classes/Tree/Node.swift:34-43 | the walk up ends at a root |
| NodeTree.IndexPathLeadsBack | src/Reed/Classes/Tree/Node.swift:34-43 | `NodeAt`: following an index path down from the root leads back to the node |
| NodeTree.IndexPathIffListed | src/Reed/Classes/Tree/Node.swift:37-40 | an index path exists exactly when every node on the way up is listed among its parent's children |
| NodeTree.Preorder | src/Reed/Classes/Tree/Node.swift:182-206 | the search order starts at the node itself |
| NodeTree.PreorderDescends | src/Reed/Classes/Tree/Node.swift:182-206 | the search visits only the node and its descendants |
| NodeTree.FindFirst | src/Reed/Classes/Tree/Node.swift:195-206 | a found node is in the list and passes the test; nothing is found exactly when no node passes |
| NodeTree.FindFirstAppend | src/Reed/Classes/Tree/Node.swift:196-203 | searching two runs is searching the first, then the second |
| NodeTree.FindStep | src/Reed/Classes/Tree/Node.swift:196-203 | each child is tested before its descendants, and those before the next child |
| NodeTree.NodeArena.constructor | src/Reed/Classes/Tree/Node.swift:21 | no nodes, ids start at 0 |
| NodeTree.NodeArena.CreateNode | src/Reed/Classes/Tree/Node.swift:56-64 | a node with the given object and parent, no children and the next unique id |
| NodeTree.NodeArena.GenericRootNode | src/Reed/Classes/Tree/Node.swift:66-70 | a new root that can have children |
| NodeTree.NodeArena.CreateChildNode | src/Reed/Classes/Tree/Node.swift:79-82 | a new node whose parent is this node, not added to its children |
| NodeTree.NodeArena.ExistingOrNewChildNode | src/Reed/Classes/Tree/Node.swift:72-77 | the first child representing the object, else a new child node for it |
| NodeTree.NodeArena.SetChildNodes | src/Reed/Classes/Tree/Node.swift:19 | the node's children are replaced; nothing else changes |
| NodeTree.NodeArena.SetFlags | src/Reed/Classes/Tree/Node.swift:17-18 | the node's two flags are set; nothing else changes |
| NodeTree.NodeArena.IsLeaf | src/Reed/Classes/Tree/Node.swift:52-54 | a leaf is a node with nothing below it |
| NodeTree.IsAncestor | src/Reed/Classes/Tree/Node.swift:118-133 | the walk up answers exactly whether the node is an ancestor; a node is never its own ancestor |
| NodeTree.HasAncestor | src/Reed/Classes/Tree/Node.swift:109-116 | `HasAncestorIn`: true exactly when some node of the list is an ancestor |
| NodeTree.FindNode | src/Reed/Classes/Tree/Node.swift:195-206 | the first child passing the test, or, recursively, the first node passing it in preorder |
| NodeTree.FindAtChild | src/Reed/Classes/Tree/Node.swift:196-202 | one round of the loop: the child, else its descendants when recursive |
| NodeTree.ChildNodeRepresentingObject | src/Reed/Classes/Tree/Node.swift:97-99 | `Represents`: the first child representing the object |
| NodeTree.DescendantNodeRepresentingObject | src/Reed/Classes/Tree/Node.swift:101-103 | the first descendant in preorder representing the object |
| NodeTree.DescendantNode | src/Reed/Classes/Tree/Node.swift:105-107 | the first descendant in preorder passing the test, which is a true descendant |
| TreeControllerModel.AnswersLinkedShaped | src/Reed/Classes/Tree/TreeController.swift:113 | in a well-formed tree, answers listing only nodes created after the asking node fit the tree's shape |
| TreeControllerModel.ReplacedKeepsShape | src/Reed/Classes/Tree/TreeController.swift:115-118 | replacing child lists keeps every node and the shape the rebuild walks |
| TreeControllerModel.ReplacedTwice | src/Reed/Classes/Tree/TreeController.swift:106-127 | replacing children on two sets one after the other is replacing on their union |
| TreeControllerModel.ChangesAfterReplaced | src/Reed/Classes/Tree/TreeController.swift:115-124 | the change flag accumulates: a change in the first part or in the second after it is exactly a change in the whole |
| TreeControllerModel.ReplacedOne | src/Reed/Classes/Tree/TreeController.swift:113-118 | a node's children become the delegate's answer, a change exactly when they differ |
| TreeControllerModel.ReplacedKeepsWellFormed | src/Reed/Classes/Tree/TreeController.swift:115-118 | the tree stays well formed when child lists are replaced |
| TreeControllerModel.ReplacedNothing | src/Reed/Classes/Tree/TreeController.swift:106-127 | replacing no node changes nothing and reports no change |
| TreeControllerModel.RebuildStep | src/Reed/Classes/Tree/TreeController.swift:120-124 | each listed child was created after its parent, and the part still to rebuild is that child's part and the rest of the list |
| TreeControllerModel.RebuildAgainChangesNothing | src/Reed/Classes/Tree/TreeController.swift:33-38 | a second rebuild with the same answers changes nothing and reports no change |
| TreeControllerModel.NoChildNodesNoRebuild | src/Reed/Classes/Tree/TreeController.swift:107-109 | a node that cannot have children is left alone and reports no change |
| TreeControllerModel.TreeController.constructor | src/Reed/Classes/Tree/TreeController.swift:23-27 | creating the controller rebuilds the tree from the root |
| TreeControllerModel.TreeController.Rebuild | src/Reed/Classes/Tree/TreeController.swift:33-38 | the children of every node reached from the root become the delegate's answers; true exactly when some list changed |
| TreeControllerModel.TreeController.RebuildChildNodes | src/Reed/Classes/Tree/TreeController.swift:106-127 | one node's rebuild: its children replaced, then each new child rebuilt, the flag set by any change |
| TreeControllerModel.TreeController.RebuildChildren | src/Reed/Classes/Tree/TreeController.swift:120-124 | the loop over the new children does the rest of the rebuild |
| TreeControllerModel.NodeInArrayRepresentingObject | src/Reed/Classes/Tree/TreeController.swift:44-63 | the first node representing the object, in the list or, with `recurse`, depth-first through nodes that can have children |
| TreeControllerModel.NodeInArrayAt | src/Reed/Classes/Tree/TreeController.swift:45-60 | one round of that loop |
| TreeControllerModel.SearchStep | src/Reed/Classes/Tree/TreeController.swift:45-60 | a node is tested before its children, which come before the next node |
| TreeControllerModel.NodeInTreeRepresentingObject | src/Reed/Classes/Tree/TreeController.swift:65-67 | the first node in the tree, root included, representing the object |
| TreeControllerModel.VisitNodes | src/Reed/Classes/Tree/TreeController.swift:40-90 | nodes are visited in preorder from the root |
| TreeControllerModel.VisitNode | src/Reed/Classes/Tree/TreeController.swift:85-90 | a node is visited, then each child's subtree in order |
| TreeControllerModel.KeepTopmostHas | src/Reed/Classes/Tree/TreeController.swift:69-81 | a node is kept exactly when it was selected and none of the selected nodes is its ancestor |
| TreeControllerModel.NormalizedSelectedNodes | src/Reed/Classes/Tree/TreeController.swift:69-81 | the loop keeps, in order, the selected nodes with no selected ancestor |
| TreeControllerModel.NormalizedHasNoNesting | src/Reed/Classes/Tree/TreeController.swift:70 | no kept node is below another kept node |
| TreeControllerModel.NormalizedCovers | src/Reed/Classes/Tree/TreeController.swift:70 | every selected node is kept or lies below a kept node |
| TreeControllerModel.NormalizedIdempotent | src/Reed/Classes/Tree/TreeController.swift:69-81 | normalising a normalised selection changes nothing |
| TreeControllerModel.KeepAll | src/Reed/Classes/Tree/TreeController.swift:74-78 | nodes with no ancestor in the list are all kept, in order |
| SidebarDelegateModel.ShownItems | src/Reed/Classes/Tree/SidebarTreeControllerDelegate.swift:74-92 | no more items are shown than listed |
| SidebarDelegateModel.ShownItemsHas | src/Reed/Classes/Tree/SidebarTreeControllerDelegate.swift:74-92 | `Shown`, `Filtered`: an item is shown exactly when it has a sidebar id and is an exception, or reading is not filtered, or it has unread articles |
| SidebarDelegateModel.ReadFilterOffShowsIdentified | src/Reed/Classes/Tree/SidebarTreeControllerDelegate.swift:76-77 | with the read filter off every item with a sidebar id is shown |
| SidebarDelegateModel.ExceptionShown | src/Reed/Classes/Tree/SidebarTreeControllerDelegate.swift:77 | a filter exception is always shown |
| SidebarDelegateModel.ReadItemHidden | src/Reed/Classes/Tree/SidebarTreeControllerDelegate.swift:77-87 | with the read filter on, a read item that is no exception is hidden |
| SidebarDelegateModel.DistinctObjectsReuse | src/Reed/Classes/Tree/SidebarTreeControllerDelegate.swift:96-102 | with distinct children, each one that had a node gets that same node back |
| SidebarDelegateModel.SidebarDelegate.constructor | src/Reed/Classes/Tree/SidebarTreeControllerDelegate.swift:14-15 | no exceptions; reading not filtered |
| SidebarDelegateModel.SidebarDelegate.AddFilterException | src/Reed/Classes/Tree/SidebarTreeControllerDelegate.swift:17-19 | the id joins the exceptions |
| SidebarDelegateModel.SidebarDelegate.ResetFilterExceptions | src/Reed/Classes/Tree/SidebarTreeControllerDelegate.swift:21-23 | the exceptions are cleared |
| SidebarDelegateModel.SidebarDelegate.ChildObjects | src/Reed/Classes/Tree/SidebarTreeControllerDelegate.swift:72-92 | the loops compute the shown top-level feeds, then the shown folders |
| SidebarDelegateModel.ChildNodesForRootNode | src/Reed/Classes/Tree/SidebarTreeControllerDelegate.swift:41-60 | the smart-feeds group node, then the data store's group node when it is active |
| SidebarDelegateModel.GroupChildNode | src/Reed/Classes/Tree/SidebarTreeControllerDelegate.swift:45-56 | `GroupChild`: an existing or new child for the object, marked as a group that can have children; nothing else changes |
| SidebarDelegateModel.ChildNodesForSmartFeeds | src/Reed/Classes/Tree/SidebarTreeControllerDelegate.swift:62-67 | one child node per smart feed, in order, each representing its feed; a smart feed that already has a child node gets that node back, and every node already in the arena is kept unchanged |
| SidebarDelegateModel.ReuseOrCreate | src/Reed/Classes/Tree/SidebarTreeControllerDelegate.swift:96-106 | `MadeFor`: an existing child node of the container representing the item and not already listed, else a new one; no other node changes |
| SidebarDelegateModel.ReuseOrCreateChild | src/Reed/Classes/Tree/SidebarTreeControllerDelegate.swift:64 | `existingOrNewChildNode(with:)`: the existing child node representing the smart feed when there is one, else a new child node of the parent; nodes already in the arena are kept |
| SidebarDelegateModel.UpdatedChildNodes | src/Reed/Classes/Tree/SidebarTreeControllerDelegate.swift:94-107 | one node per child object, in order, each a child of the container representing that object, reusing existing ones |
| SidebarDelegateModel.ChildNodesForContainerNode | src/Reed/Classes/Tree/SidebarTreeControllerDelegate.swift:69-110 | `ContainerChildren`, `Reconciled`: one node per shown feed and folder of the container, reconciled the same way |
| SidebarDelegateModel.ChildNodesFor | src/Reed/Classes/Tree/SidebarTreeControllerDelegate.swift:25-37 | nil exactly for a node that is neither the root, a container nor the smart feeds, and then nothing changes; otherwise child nodes of the node, tried in the source's order: for the root, the list `ChildNodesForRootNode` makes (smart-feeds node, then the active data store's, group items); for a container, the list `ChildNodesForContainerNode` makes from its shown children, as the reuse loop makes it; for the smart-feeds node, the list `ChildNodesForSmartFeeds` makes, one reused-or-new node per smart feed |
| ShadowTable.IsEmptyIff | src/Reed/Classes/MainFeed/ShadowTableChanges.swift:29-31 | `IsEmpty`, `NoneOrEmpty`: empty exactly when deletes, inserts and moves are each absent or empty; reloads do not count |
| ShadowTable.PathsInCount | src/Reed/Classes/MainFeed/ShadowTableChanges.swift:35 | `PathsIn`: one index path per row |
| ShadowTable.RowPaths | src/Reed/Classes/MainFeed/ShadowTableChanges.swift:33-46 | `DeleteIndexPaths`, `InsertIndexPaths`, `ReloadIndexPaths`: nil for nil; otherwise exactly the rows of the set, in the section |
| ShadowTable.PathPairsCount | src/Reed/Classes/MainFeed/ShadowTableChanges.swift:50-53 | `PathPairs`: one pair per move |
| ShadowTable.MoveIndexPaths | src/Reed/Classes/MainFeed/ShadowTableChanges.swift:48-54 | nil for nil; otherwise exactly the moves' from and to rows, in the section |
| RefreshIntervalModel.FromRawValue | src/Reed/Classes/Timer/RefreshInterval.swift:11-18 | `RawValue`: a case read from a raw value has that raw value |
| RefreshIntervalModel.RawValues | src/Reed/Classes/Timer/RefreshInterval.swift:11-18 | raw values 1 to 7, in declaration order, and back |
| RefreshIntervalModel.InSeconds | src/Reed/Classes/Timer/RefreshInterval.swift:20-37 | zero seconds exactly for Manually |
| RefreshIntervalModel.InSecondsIncreasing | src/Reed/Classes/Timer/RefreshInterval.swift:20-37 | a larger raw value means a longer interval |
| RefreshIntervalModel.IdsDistinct | src/Reed/Classes/Timer/RefreshInterval.swift:39-58 | `Id`, `Description`: every interval has its own id |
| TreeControllerModel.KeepTopmost | src/Reed/Classes/Tree/TreeController.swift:69-81 | the kept nodes are those of the selection, in order, with no selected ancestor |
| ArticleStatusModel.Other | src/Reed/Classes/Articles/ArticleStatus.swift:13-16 | the two keys differ |
| ArticleStatusModel.ArticleStatus.constructor | src/Reed/Classes/Articles/ArticleStatus.swift:46-50 | the status holds the given id, date and flags |
| ArticleStatusModel.ArticleStatus.Unstarred | src/Reed/Classes/Articles/ArticleStatus.swift:52-54 | the convenience initialiser is not starred |
| ArticleStatusModel.ArticleStatus.BoolStatus | src/Reed/Classes/Articles/ArticleStatus.swift:56-63 | the read flag for `read`, the starred flag for `starred` |
| ArticleStatusModel.ArticleStatus.SetBoolStatus | src/Reed/Classes/Articles/ArticleStatus.swift:65-72 | the key's flag takes the value and the other flag is kept |
| ArticleStatusModel.ArticleIDs | src/Reed/Classes/Articles/ArticleStatus.swift:88-92 | exactly the ids of the statuses |
| ArticleStatusModel.StatusHashConsistent | src/Reed/Classes/Articles/ArticleStatus.swift:77-85 | `StatusEquals`: equal statuses have the same id, so the hash agrees with equality; statuses with different flags differ |
| ArticleStatusModel.RawValuesDistinct | src/Reed/Classes/Articles/ArticleStatus.swift:13-16 | `RawValue`: the two keys have different raw values |
| SyncStatusModel.FromStatusKey | src/Reed/Classes/SyncDatabase/SyncStatus.swift:25-32 | an article-status key becomes the sync key with the same raw value, never `deleted` or `new` |
| SyncStatusModel.RawValuesDistinct | src/Reed/Classes/SyncDatabase/SyncStatus.swift:19-24 | `RawValue`: two keys share a raw value exactly when they are the same key |
| SyncStatusModel.MakeSyncStatus | src/Reed/Classes/SyncDatabase/SyncStatus.swift:40-45 | the given id, key and flag, not selected by default |
| SyncStatusModel.Insert | src/Reed/Classes/SyncDatabase/SyncStatus.swift:59-67 | `SameEntry`, `IsStatusSet`: a set stays free of two entries with the same article and key; a status whose article and key are present leaves the set as it is, any other is added |
| SyncStatusModel.DatabaseDictionary | src/Reed/Classes/SyncDatabase/SyncStatus.swift:47-54 | exactly the four columns, holding the id, the key's raw value, the flag and the selection |
| SyncStatusModel.KeyOf | src/Reed/Classes/SyncDatabase/SyncStatus.swift:19-24 | a raw value read back names the key with that raw value |
| SyncStatusModel.DictionaryRoundTrip | src/Reed/Classes/SyncDatabase/SyncStatus.swift:47-54 | `FromDictionary`: reading back a status's dictionary gives the status |
| AuthorModel.FromParsedAuthorCopies | src/Reed/Classes/ArticlesDatabase/Author+Database.swift:24-32 | `FromParsedAuthor`: an author made from a parsed author has its name, url, avatar and e-mail |
| AuthorModel.AuthorsWithParsedAuthors | src/Reed/Classes/ArticlesDatabase/Author+Database.swift:34-41 | nil for nil; never an empty set; exactly the authors the parsed authors make |
| AuthorModel.NoAuthorsIsNil | src/Reed/Classes/ArticlesDatabase/Author+Database.swift:39-40 | nil exactly when no parsed author makes an author |
| AuthorModel.DatabaseDictionary | src/Reed/Classes/ArticlesDatabase/Author+Database.swift:49-64 | always the id; each optional column present exactly when the field is set, holding its value |
| ArticleModel.MakeArticle | src/Reed/Classes/Model/Article/Article.swift:34-73 | `CalculatedArticleID`: the given fields, with the given article id or else the one calculated from feed and unique id |
| ArticleModel.ArticleEqualityLaws | src/Reed/Classes/Model/Article/Article.swift:82-94 | `ArticleEquals`: equality is reflexive, symmetric and transitive, implies the same id that is hashed, and ignores status and markdown |
| ArticleModel.ArticleIDsOf | src/Reed/Classes/Model/Article/Article.swift:97-99 | exactly the ids of the articles |
| ArticleModel.UnreadArticlesOf | src/Reed/Classes/Model/Article/Article.swift:101-104 | exactly the articles whose status is unread |
| ArticleModel.ContainsArticleLaws | src/Reed/Classes/Model/Article/Article.swift:106-108 | `ContainsArticle`: an article of the set is found by its own account and article ids; a union holds the ids exactly when one of its parts does |
| ArticleModel.ArticleIDsList | src/Reed/Classes/Model/Article/Article.swift:111-115 | the ids of the articles, position by position |
| ArticleModel.UpTo | src/Reed/Classes/Model/Article/Article.swift:154-160 | scanning to a character stops at its next occurrence or at the end |
| ArticleModel.Step | src/Reed/Classes/Model/Article/Article.swift:153-169 | each pass of the loop moves the scanner forward |
| ArticleModel.ScanUpTo | src/Reed/Classes/Model/Article/Article.swift:154-160 | the scanning loop finds the same position |
| ArticleModel.ScanOnce | src/Reed/Classes/Model/Article/Article.swift:154-168 | the loop body computes one pass |
| ArticleModel.SanitizeText | src/Reed/Classes/Model/Article/Article.swift:148-172 | `Sanitize`, `PieceFor`: the loop over the title computes the sanitised text |
| ArticleModel.SanitizedTitle | src/Reed/Classes/Model/Article/Article.swift:143-173 | nil without a title, else the sanitised title |
| ArticleModel.UpToShift | src/Reed/Classes/Model/Article/Article.swift:154-160 | scanning a suffix does not depend on what precedes it |
| ArticleModel.StepShift | src/Reed/Classes/Model/Article/Article.swift:153-169 | one pass over a suffix does not depend on what precedes it |
| ArticleModel.StepShiftText | src/Reed/Classes/Model/Article/Article.swift:154-156 | the pass with no `<` left takes the rest of the text |
| ArticleModel.StepShiftTag | src/Reed/Classes/Model/Article/Article.swift:158-168 | the pass through a found `<` does not depend on what precedes it |
| ArticleModel.StepOfSuffix | src/Reed/Classes/Model/Article/Article.swift:153-169 | the pass from a position is the first pass over the text from there |
| ArticleModel.SanitizedStep | src/Reed/Classes/Model/Article/Article.swift:153-170 | `Rendered`, `Sanitized`: sanitising is one pass, then sanitising from where it stopped |
| ArticleModel.UpToSkips | src/Reed/Classes/Model/Article/Article.swift:154 | scanning over text without the character goes on to the same place |
| ArticleModel.SanitizeNoMarkup | src/Reed/Classes/Model/Article/Article.swift:153-156 | a title without `<` is returned unchanged |
| ArticleModel.StepSkipText | src/Reed/Classes/Model/Article/Article.swift:154-156 | text before the first `<` is copied and the pass goes on from there |
| ArticleModel.StepLeadingText | src/Reed/Classes/Model/Article/Article.swift:154-156 | a pass over text without `<` followed by more is the pass over the rest with the text ahead |
| ArticleModel.SanitizeLeadingText | src/Reed/Classes/Model/Article/Article.swift:154-156 | text before the first `<` is copied as it is, ahead of the rest |
| ArticleModel.SanitizeTagOnce | src/Reed/Classes/Model/Article/Article.swift:158-168 | `TagPiece`: a tag closed by `>` becomes its piece and the scan resumes after the `>` |
| ArticleModel.SanitizeTag | src/Reed/Classes/Model/Article/Article.swift:118-165 | an allowed tag (ignoring `/`) is kept for HTML and dropped otherwise; any other is escaped for HTML and kept as it is otherwise |
| ArticleModel.SanitizeEmptyTag | src/Reed/Classes/Model/Article/Article.swift:158-168 | `<>` drops the `<` and reads the `>` as text |
| ArticleUtilities.MarkArticles | src/Reed/Classes/Articles/ArticleUtilities.swift:12-21 | every article's flag for the key takes the value; the other flag of every status is kept |
| ArticleUtilities.RepairedLink | src/Reed/Classes/Articles/ArticleUtilities.swift:37-53 | `Link`, `ExternalLink`, `ImageLink`: nil exactly for a nil raw link; the raw link itself when it is empty or no URL can be made from it |
| ArticleUtilities.PreferredLink | src/Reed/Classes/Articles/ArticleUtilities.swift:55-63 | `NonEmpty`: never empty: the link when it is non-empty, else the external link when that is non-empty, else nil |
| ArticleUtilities.NoPreferredLinkWithoutLinks | src/Reed/Classes/Articles/ArticleUtilities.swift:55-63 | with both raw links absent or empty there is no preferred link |
| ArticleUtilities.PreferredURL | src/Reed/Classes/Articles/ArticleUtilities.swift:65-67 | the repaired URL or the repaired external URL; nil exactly when neither can be made |
| ArticleUtilities.FirstPresent | src/Reed/Classes/Articles/ArticleUtilities.swift:70-74 | the first present value of a list of optionals, nil only when none is present |
| ArticleUtilities.FirstPresentOfThree | src/Reed/Classes/Articles/ArticleUtilities.swift:70-74 | a chain of two `??` is the first present of the three |
| ArticleUtilities.BodyIsFirstContent | src/Reed/Classes/Articles/ArticleUtilities.swift:69-71 | `Body`: the body is the first of HTML, text and summary present, nil only without any |
| ArticleUtilities.LogicalDateIsFirstDate | src/Reed/Classes/Articles/ArticleUtilities.swift:73-75 | `LogicalDatePublished`: the first of publication, modification and arrival date present, the arrival date at the latest |
| ArticleUtilities.IsAvailableToMarkUnread | src/Reed/Classes/Articles/ArticleUtilities.swift:77-79 | every article can be marked unread |
| ArticleUtilities.UsableEmail | src/Reed/Classes/Articles/ArticleUtilities.swift:121-127 | the author's own address, never one holding "noreply@" or "no-reply@" |
| ArticleUtilities.Pieces | src/Reed/Classes/Articles/ArticleUtilities.swift:115-140 | one piece per author, in order |
| ArticleUtilities.BylinePiece | src/Reed/Classes/Articles/ArticleUtilities.swift:121-139 | `AuthorPiece`: the loop body appends the author's piece |
| ArticleUtilities.Byline | src/Reed/Classes/Articles/ArticleUtilities.swift:98-143 | `BylineAuthors`, `BylineOf`: the byline of the article's authors, else the feed's |
| ArticleUtilities.JoinedPieces | src/Reed/Classes/Articles/ArticleUtilities.swift:112-142 | `Joined`: the loop joins each author's piece after ", " except the first |
| ArticleUtilities.JoinedSnoc | src/Reed/Classes/Articles/ArticleUtilities.swift:116-119 | one more piece adds ", " and the piece, except to an empty byline |
| ArticleUtilities.JoinedAppend | src/Reed/Classes/Articles/ArticleUtilities.swift:112-140 | joining two non-empty lists puts ", " between their joins |
| ArticleUtilities.BylineOfSeveral | src/Reed/Classes/Articles/ArticleUtilities.swift:106-140 | several authors give the first piece, ", ", then the others' joined pieces, whatever the feed's name |
| ArticleUtilities.BylineWithoutAuthors | src/Reed/Classes/Articles/ArticleUtilities.swift:99-101 | no authors on the article or its feed, or an empty set on the article, give "" |
| ArticleUtilities.SoleFeedNamedAuthorHidden | src/Reed/Classes/Articles/ArticleUtilities.swift:106-110 | a sole author is left out exactly when named as the feed is displayed, a nameless one too when there is no feed |
| ArticleUtilities.NoReplyAddressIgnored | src/Reed/Classes/Articles/ArticleUtilities.swift:122-127 | a no-reply address makes the same piece as no address |
| ArticleUtilities.UsableAddressShown | src/Reed/Classes/Articles/ArticleUtilities.swift:129-136 | a usable address always appears in the piece, after "name <" when there is a name and no space in the address |
| ArticleUtilities.PieceFallsBackToURL | src/Reed/Classes/Articles/ArticleUtilities.swift:137-139 | without a name or usable address the piece is the url, or nothing |
| ArticleArrayModel.ArticleAtRow | src/Reed/Classes/Timeline/ArticleArray.swift:15-20 | an article exactly for a row inside the array, the one at that row |
| ArticleArrayModel.ArticleMatching | src/Reed/Classes/Timeline/ArticleArray.swift:22-24 | the first article the specifier matches; nil exactly when none does |
| ArticleArrayModel.Range | src/Reed/Classes/Timeline/ArticleArray.swift:29-32 | the integers from the lower bound up to the upper one |
| ArticleArrayModel.OrderedRowIndexes | src/Reed/Classes/Timeline/ArticleArray.swift:26-34 | every index given is a row of the array |
| ArticleArrayModel.OrderedRowIndexesCover | src/Reed/Classes/Timeline/ArticleArray.swift:26-34 | wrapping, every row exactly once; without wrapping, the rows from the start on, none for a start past the end |
| ArticleArrayModel.EveryRowOrdered | src/Reed/Classes/Timeline/ArticleArray.swift:26-34 | wrapping, every row is in the order |
| ArticleArrayModel.AllRowsRead | src/Reed/Classes/Timeline/ArticleArray.swift:36-49 | every row in the wrapping order being read means every article is |
| ArticleArrayModel.RowOfNextUnreadArticle | src/Reed/Classes/Timeline/ArticleArray.swift:36-49 | nil for an empty array; else the first unread row in the order after the selection, nil only when every row in it is read; wrapping, some unread article means some row |
| ArticleArrayModel.ArticlesForIndexes | src/Reed/Classes/Timeline/ArticleArray.swift:51-55 | the articles at the rows given, rows outside the array skipped: all of them when all are inside, none when none is |
| ArticleArrayModel.AnyArticlePassesTest | src/Reed/Classes/Timeline/ArticleArray.swift:65-72 | `Passes`: true exactly when some article passes |
| ArticleArrayModel.AnyArticleIsReadAndCanMarkUnread | src/Reed/Classes/Timeline/ArticleArray.swift:74-76 | true exactly when some article is read |
| ArticleArrayModel.AnyArticleIsUnread | src/Reed/Classes/Timeline/ArticleArray.swift:78-80 | true exactly when some article is unread |
| ArticleArrayModel.AnyArticleIsStarred | src/Reed/Classes/Timeline/ArticleArray.swift:82-84 | true exactly when some article is starred |
| ArticleArrayModel.AnyArticleIsUnstarred | src/Reed/Classes/Timeline/ArticleArray.swift:86-88 | true exactly when some article is not starred |
| ArticleArrayModel.CanMarkAllAsRead | src/Reed/Classes/Timeline/ArticleArray.swift:61-63 | true exactly when some article is unread, that is when there are unread articles |
| ArticleArrayModel.UnreadIn | src/Reed/Classes/Timeline/ArticleArray.swift:91 | `StatusesIn`: exactly the unread articles |
| ArticleArrayModel.UnreadArticles | src/Reed/Classes/Timeline/ArticleArray.swift:90-93 | the unread articles, never an empty list |
| ArticleArrayModel.UnreadArticlesNone | src/Reed/Classes/Timeline/ArticleArray.swift:90-93 | nil exactly when every article is read |
| ArticleArrayModel.RepresentSameArticlesInSameOrder | src/Reed/Classes/Timeline/ArticleArray.swift:95-108 | true exactly when both have as many articles, pairwise from the same data store with the same id |
| ArticleArrayModel.FirstIndexOf | src/Reed/Classes/Timeline/ArticleArray.swift:111-122 | the first position holding an equal article; nil exactly when there is none |
| ArticleArrayModel.ArticlesAbovePosition | src/Reed/Classes/Timeline/ArticleArray.swift:115-119 | the articles before the position, none for a position past the end |
| ArticleArrayModel.ArticlesBelowPosition | src/Reed/Classes/Timeline/ArticleArray.swift:126-134 | the articles after the position, none for a position past the end |
| ArticleArrayModel.AboveAndBelowSplit | src/Reed/Classes/Timeline/ArticleArray.swift:115-134 | the articles above a position, the one there and those below make up the array |
| ArticleArrayModel.AboveAndBelowArticle | src/Reed/Classes/Timeline/ArticleArray.swift:110-124 | `ArticlesAbove`, `ArticlesBelow`: around an article the split is at its first equal; an article not in the array has nothing around it |
| MarkStatusCommandModel.ActionNamesDistinct | src/Reed/Classes/Commands/MarkStatusCommand.swift:97-109 | `ActionName`: each key and flag has its own action name |
| MarkStatusCommandModel.ToMarkIff | src/Reed/Classes/Commands/MarkStatusCommand.swift:118-123 | `ToMark`: an article is to be marked exactly when its flag for the key differs, since every article is available to mark unread |
| MarkStatusCommandModel.FilteredArticles | src/Reed/Classes/Commands/MarkStatusCommand.swift:111-124 | exactly the articles to mark, taken from the list |
| MarkStatusCommandModel.NothingToMark | src/Reed/Classes/Commands/MarkStatusCommand.swift:111-124 | nothing is left to mark exactly when every article already holds the flag |
| MarkStatusCommandModel.MarkStatusCommand.constructor | src/Reed/Classes/Commands/MarkStatusCommand.swift:37-46 | the command holds the articles, key, flag and completion, nothing registered, both action names the key's and flag's |
| MarkStatusCommandModel.MarkStatusCommand.Mark | src/Reed/Classes/Commands/MarkStatusCommand.swift:92-95 | every article's flag for the key takes the value, the other flag is kept, and a held completion is called once and dropped |
| MarkStatusCommandModel.MarkStatusCommand.Perform | src/Reed/Classes/Commands/MarkStatusCommand.swift:79-82 | marks with the flag, then registers the undo |
| MarkStatusCommandModel.MarkStatusCommand.Undo | src/Reed/Classes/Commands/MarkStatusCommand.swift:84-87 | marks with the opposite flag, then registers the redo |
| MarkStatusCommandModel.NewMarkStatusCommand | src/Reed/Classes/Commands/MarkStatusCommand.swift:24-47 | nil, after calling the completion, exactly when nothing needs marking; else a new command over exactly the articles to mark |
| MarkStatusCommandModel.NewMarkingRead | src/Reed/Classes/Commands/MarkStatusCommand.swift:49-62 | nil exactly when every article's read flag already matches; else a command marking read with that flag |
| MarkStatusCommandModel.NewMarkingStarred | src/Reed/Classes/Commands/MarkStatusCommand.swift:64-77 | nil exactly when every article's starred flag already matches; else a command marking starred with that flag |
| MarkStatusCommandModel.PerformThenUndo | src/Reed/Classes/Commands/MarkStatusCommand.swift:79-87 | performing then undoing puts back every flag, calls the completion at most once, and registers undo then redo |
| FeedModel.WithConditionalGetInfo | src/Reed/Classes/DataStore/FeedMetadata.swift:108-119 | the info is set; a changed value also sets its date to now, or to nil for nil; an unchanged one leaves the record as it was |
| FeedModel.ConditionalGetInfoDated | src/Reed/Classes/DataStore/FeedMetadata.swift:108-119 | the info and its date stay present or absent together |
| FeedModel.StoredName | src/Reed/Classes/DataStore/Feed.swift:97-106 | `NonEmpty`: the setter stores a non-empty value as it is and nil otherwise |
| FeedModel.StoredHomePageURL | src/Reed/Classes/DataStore/Feed.swift:26-37 | the setter stores the normalised URL of a non-empty value, which starts with "http", and nil otherwise |
| FeedModel.StoredHomePageURLIdempotent | src/Reed/Classes/DataStore/Feed.swift:26-37 | storing a stored home page again changes nothing |
| FeedModel.DisplayName | src/Reed/Classes/DataStore/Feed.swift:195-203 | never empty: the edited name if non-empty, else the name if non-empty, else "Untitled" |
| FeedModel.OPMLLineShape | src/Reed/Classes/DataStore/Feed.swift:299-308 | `OPMLOpening`, `OPMLAttributes`, `OPMLOutline`: the line is the indentation's tabs, then an outline whose text is the escaped name, which holds no raw quote |
| FeedModel.Feed.constructor | src/Reed/Classes/DataStore/Feed.swift:252-262 | the feed keeps its data store's id, its metadata's feed id, its url and metadata |
| FeedModel.Feed.EditedName | src/Reed/Classes/DataStore/Feed.swift:89-96 | never the empty string; the stored edited name when non-empty, nil otherwise |
| FeedModel.Feed.SetEditedName | src/Reed/Classes/DataStore/Feed.swift:97-106 | a value equal to the current one changes nothing; any other is stored as read back and posts a display-name change |
| FeedModel.Feed.SetName | src/Reed/Classes/DataStore/Feed.swift:65-71 | the name is set, and a change posts a display-name change |
| FeedModel.Feed.SetHomePageURL | src/Reed/Classes/DataStore/Feed.swift:26-37 | the metadata holds the stored home page; nothing else changes |
| FeedModel.Feed.NameForDisplay | src/Reed/Classes/DataStore/Feed.swift:195-203 | the display name of the feed's edited name and name |
| FeedModel.Feed.SetUnreadCount | src/Reed/Classes/DataStore/Feed.swift:223-234 | the count is set; a change posts an unread-count change, setting the current value posts nothing |
| FeedModel.Feed.SetConditionalGetInfo | src/Reed/Classes/DataStore/Feed.swift:109-116 | the metadata takes the info as its `didSet` dates it; nothing else changes |
| FeedModel.Feed.DropConditionalGetInfo | src/Reed/Classes/DataStore/Feed.swift:266-269 | conditional-GET info and content hash are dropped |
| FeedModel.Feed.OPMLString | src/Reed/Classes/DataStore/Feed.swift:288-311 | `HomePageURL`: the outline named by the edited name, else the name, else "", indented by the level's tabs |
| FeedModel.SameFeedIffSameKey | src/Reed/Classes/DataStore/Feed.swift:273-282 | `SameFeed`, `FeedKey`: equal feeds hash alike, and the hash key (feed id and data store id) determines equality |
| FeedModel.UnnamedFeedOPML | src/Reed/Classes/DataStore/Feed.swift:289-298 | a feed without names is written to OPML with an empty name although its display name is "Untitled" |
| DeleteCommandModel.CanDelete | src/Reed/Classes/Commands/DeleteCommand.swift:73-93 | `FeedOrFolder`, `AllNodes`: true exactly for a non-empty list of nodes that all represent feeds or folders |
| DeleteCommandModel.CountKind | src/Reed/Classes/Commands/DeleteCommand.swift:252-263 | no more nodes of a kind than nodes |
| DeleteCommandModel.ActionName | src/Reed/Classes/Commands/DeleteCommand.swift:250-273 | the counting loop gives the action name for the nodes |
| DeleteCommandModel.CountsAddUp | src/Reed/Classes/Commands/DeleteCommand.swift:255-263 | with only feeds and folders, their counts add up to the number of nodes |
| DeleteCommandModel.NameOfDeletable | src/Reed/Classes/Commands/DeleteCommand.swift:243-273 | `NameFor`: deletable nodes always have a name: "Delete Feed" or "Delete Folder" for one, "Delete Feeds and Folders" for a mix, else the plural of the one kind |
| DeleteCommandModel.NoNameForOthers | src/Reed/Classes/Commands/DeleteCommand.swift:260-262 | any node that is neither feed nor folder leaves no name |
| DeleteCommandModel.ParentFolder | src/Reed/Classes/Commands/DeleteCommand.swift:213-224 | the parent's folder exactly when there is a parent, it is not the root and it represents a folder |
| DeleteCommandModel.FolderRun | src/Reed/Classes/Commands/DeleteCommand.swift:230-237 | the folders met going up, until the first node that is not a folder |
| DeleteCommandModel.Reversed | src/Reed/Classes/Commands/DeleteCommand.swift:239 | the list back to front |
| DeleteCommandModel.Chain | src/Reed/Classes/Commands/DeleteCommand.swift:227-237 | the ancestors from a node up are all nodes of the tree |
| DeleteCommandModel.ContainingFolders | src/Reed/Classes/Commands/DeleteCommand.swift:226-240 | `ContainingFoldersOf`: the folders above the node, outermost first, stopping at the first non-folder |
| DeleteCommandModel.FoldersUpFrom | src/Reed/Classes/Commands/DeleteCommand.swift:227-237 | the loop collects the folder run up from the parent |
| DeleteCommandModel.FolderRunStep | src/Reed/Classes/Commands/DeleteCommand.swift:231-236 | a folder node adds its folder ahead of its parent's run |
| DeleteCommandModel.ParentFolderInnermost | src/Reed/Classes/Commands/DeleteCommand.swift:213-240 | with a parent folder, it is the last, innermost, of the containing folders, which are all folders |
| DeleteCommandModel.NoContainingFolders | src/Reed/Classes/Commands/DeleteCommand.swift:227-237 | a node whose parent is no folder has no containing folders |
| DeleteCommandModel.SpecifierFor | src/Reed/Classes/Commands/DeleteCommand.swift:118-143 | a specifier exactly for a feed or folder with a data store, recording the object, its data store, its parent folder and its path of containing folders |
| DeleteCommandModel.Specifiers | src/Reed/Classes/Commands/DeleteCommand.swift:44 | at most one per node, none exactly when no node gives one |
| DeleteCommandModel.NewDeleteCommand | src/Reed/Classes/Commands/DeleteCommand.swift:25-49 | nil exactly for no nodes, a node that is neither feed nor folder, or no node with a data store; else the action name and the nodes' specifiers |
| FolderModel.FolderCounter.constructor | src/Reed/Classes/DataStore/Folder.swift:40 | the folder counter starts at 0 |
| FolderModel.UnreadSumRemove | src/Reed/Classes/DataStore/Folder.swift:172-178 | the sum counts each feed once, whichever is taken first |
| FolderModel.UnreadSumOfAllRead | src/Reed/Classes/DataStore/Folder.swift:172-178 | feeds without unread articles sum to 0 |
| FolderModel.ExternalIDAttribute | src/Reed/Classes/DataStore/Folder.swift:189-193 | the attribute is written exactly when custom attributes are allowed and there is an external id |
| FolderModel.FeedLines | src/Reed/Classes/DataStore/Folder.swift:201-204 | each feed's own OPML line one level deeper, in the order given |
| FolderModel.SumOfUnreadCounts | src/Reed/Classes/DataStore/Folder.swift:172-178 | `UnreadSum`: the loop computes the sum of the feeds' unread counts |
| FolderModel.AppendLines | src/Reed/Classes/DataStore/Folder.swift:199-204 | the loop appends every line and notes whether there was one |
| FolderModel.OutlineString | src/Reed/Classes/DataStore/Folder.swift:195-214 | `FolderOutline`: the folder's outline once title, attribute and lines are known |
| FolderModel.Folder.constructor | src/Reed/Classes/DataStore/Folder.swift:76-97 | the folder takes the counter's next id and the counter advances; no feeds, no external id, unread count 0 |
| FolderModel.Folder.NameForDisplay | src/Reed/Classes/DataStore/Folder.swift:44-46 | the name, or "Untitled ƒ" without one |
| FolderModel.Folder.SetName | src/Reed/Classes/DataStore/Folder.swift:31-35 | the name is set and every assignment posts a display-name change |
| FolderModel.Folder.FlattenedFeeds | src/Reed/Classes/DataStore/Folder.swift:117-120 | exactly the top-level feeds |
| FolderModel.Folder.ObjectIsChild | src/Reed/Classes/DataStore/Folder.swift:122-128 | a child exactly when it is a feed among the top-level feeds |
| FolderModel.Folder.SetUnreadCount | src/Reed/Classes/DataStore/Folder.swift:50-56 | the count is set; a change posts an unread-count change |
| FolderModel.Folder.UpdateUnreadCount | src/Reed/Classes/DataStore/Folder.swift:172-178 | the count becomes the sum of the top-level feeds' counts, posting only on a change |
| FolderModel.Folder.UnreadCountDidChangeIn | src/Reed/Classes/DataStore/Folder.swift:101-108 | a change in a child feed sums the counts again; any other object changes nothing |
| FolderModel.Folder.PostChildrenDidChange | src/Reed/Classes/DataStore/Folder.swift:110-113 | posts a children change, which the folder answers by summing again |
| FolderModel.Folder.AddFeedToTreeAtTopLevel | src/Reed/Classes/DataStore/Folder.swift:130-133 | the feed joins the top-level feeds and the count is summed again |
| FolderModel.Folder.AddFeeds | src/Reed/Classes/DataStore/Folder.swift:135-141 | the feeds join the top-level feeds; an empty set changes nothing and posts nothing |
| FolderModel.Folder.RemoveFeedFromTreeAtTopLevel | src/Reed/Classes/DataStore/Folder.swift:143-146 | the feed leaves the top-level feeds and the count is summed again |
| FolderModel.Folder.RemoveFeedsFromTreeAtTopLevel | src/Reed/Classes/DataStore/Folder.swift:148-154 | the feeds leave the top-level feeds; an empty set changes nothing and posts nothing |
| FolderModel.Folder.OPMLString | src/Reed/Classes/DataStore/Folder.swift:188-215 | the folder's outline with its feeds in the order given |
| FolderModel.EmptyFolderOPML | src/Reed/Classes/DataStore/Folder.swift:206-210 | a folder without feeds is one self-closing outline line at its indentation |
| FolderModel.FolderWithFeedsOPML | src/Reed/Classes/DataStore/Folder.swift:195-214 | `OutlineTag`, `Concat`, `OPML`: a folder with feeds opens its outline, lists each feed one level deeper, and closes at its own indentation |
| ContainerModel.FlattenedFeedsOf | src/Reed/Classes/DataStore/Container.swift:83-92 | `FoldersIn`, `FeedsOfFolders`: the top-level feeds and every folder's feeds are all included |
| ContainerModel.FlattenedMember | src/Reed/Classes/DataStore/Container.swift:83-92 | a feed is flattened exactly when it is at the top level or in one of the folders |
| ContainerModel.FlattenedFeeds | src/Reed/Classes/DataStore/Container.swift:83-92 | the loop computes the flattened feeds |
| ContainerModel.HasAtLeastOneFeed | src/Reed/Classes/DataStore/Container.swift:51-53 | true exactly when there is a top-level feed |
| ContainerModel.FeedsInFoldersOnlyDoNotCount | src/Reed/Classes/DataStore/Container.swift:51-92 | a container whose feeds are all in folders has feeds yet no "at least one feed" |
| ContainerModel.ObjectIsChild | src/Reed/Classes/DataStore/Container.swift:73-81 | a child exactly when it is a top-level feed or one of the folders |
| ContainerModel.ChildFolder | src/Reed/Classes/DataStore/Container.swift:60-71 | a folder named so when there is one, nil exactly when there is none |
| ContainerModel.HasChildFolder | src/Reed/Classes/DataStore/Container.swift:55-58 | true exactly when some folder has the name |
| ContainerModel.ExistingFolder | src/Reed/Classes/DataStore/Container.swift:133-148 | a folder named so, searching subfolders too, nil exactly when there is none |
| ContainerModel.ExistingFolderWithID | src/Reed/Classes/DataStore/Container.swift:150-164 | a folder with the id, searching subfolders too, nil exactly when there is none |
| ContainerModel.FirstFeedWith | src/Reed/Classes/DataStore/Container.swift:106-131 | `FeedHas`: the loop finds a feed with the field's value, nil exactly when there is none |
| ContainerModel.ExistingFeed | src/Reed/Classes/DataStore/Container.swift:106-131 | a flattened feed with the id, url or external id, nil exactly when there is none |
| ContainerModel.HasFeed | src/Reed/Classes/DataStore/Container.swift:94-100 | true exactly when some flattened feed has the value |
| ContainerModel.Has | src/Reed/Classes/DataStore/Container.swift:102-104 | true exactly when the feed is at the top level or in a folder |
| DataStoreModel.FeedDictionaries | src/Reed/Classes/Model/DataStore/DataStore+ContainerTree.swift:99-107 | `IdDictionaryFor`, `ExternalIDDictionaryFor`: every flattened feed's id keys a feed with that id; the external-id keys are exactly the feeds' external ids, each naming a feed with it |
| DataStoreModel.Dirty | src/Reed/Classes/DataStore/DataStore.swift:735-741 | both cache flags are set |
| DataStoreModel.DataStore.constructor | src/Reed/Classes/DataStore/DataStore.swift:227-233 | no feeds, an empty set of folders, both caches dirty, no feed metadata, nothing posted |
| DataStoreModel.DataStore.StructureDidChange | src/Reed/Classes/DataStore/DataStore.swift:735-741 | the OPML file and both caches are marked dirty; the tree is kept |
| DataStoreModel.DataStore.PostChildrenDidChange | src/Reed/Classes/DataStore/DataStore.swift:735-741 | one children change is posted, and the data store's answer (`structureDidChange()`, then `updateUnreadCount()`, whose count is not modelled) marks file and caches dirty |
| DataStoreModel.DataStore.FolderChildrenDidChange | src/Reed/Classes/Model/DataStore/DataStore+Notifications.swift:37-49 | a children change of a folder that belongs to the data store (its `dataStoreID` is the store's), whether or not it is still in the folder tree, marks the OPML file and both caches dirty, so the caches are fresh again; a folder of another data store changes nothing; the feeds and folders are unchanged |
| DataStoreModel.DataStore.UpdateFlattenedFeeds | src/Reed/Classes/Model/DataStore/DataStore+ContainerTree.swift:85-96 | the cache holds the top-level feeds and every folder's feeds, marked clean |
| DataStoreModel.DataStore.FlattenedFeeds | src/Reed/Classes/Model/DataStore/DataStore+ContainerTree.swift:13-19 | the cache, recomputed first only when dirty; a clean cache holds the flattened feeds |
| DataStoreModel.DataStore.RebuildFeedDictionaries | src/Reed/Classes/Model/DataStore/DataStore+ContainerTree.swift:98-112 | both dictionaries of the flattened feeds, clean, with the flattened cache refreshed on the way |
| DataStoreModel.DataStore.ExistingFeed | src/Reed/Classes/Model/DataStore/DataStore+ContainerTree.swift:72-78 | with fresh caches (the dictionaries are rebuilt as in `DataStore.swift` 124-137), a flattened feed with the id or external id, nil exactly when there is none; the caches stay fresh |
| DataStoreModel.DataStore.AddFeedToTreeAtTopLevel | src/Reed/Classes/Model/DataStore/DataStore+ContainerTree.swift:49-53 | the feed joins the top level; file and caches dirty; a children change posted |
| DataStoreModel.DataStore.RemoveFeedFromTreeAtTopLevel | src/Reed/Classes/Model/DataStore/DataStore+ContainerTree.swift:21-25 | the feed leaves the top level; file and caches dirty; a children change posted |
| DataStoreModel.DataStore.RemoveFeedsFromTreeAtTopLevel | src/Reed/Classes/Model/DataStore/DataStore+ContainerTree.swift:40-47 | the feeds leave the top level; an empty set changes nothing at all |
| DataStoreModel.DataStore.AddFeedIfNotInAnyFolder | src/Reed/Classes/Model/DataStore/DataStore+ContainerTree.swift:55-59 | the feed is added at the top level exactly when the flattened feeds lack it, and is then flattened |
| DataStoreModel.DataStore.RemoveFolderFromTree | src/Reed/Classes/Model/DataStore/DataStore+ContainerTree.swift:61-66 | the folder leaves the folders; file and caches dirty; a children change posted |
| DataStoreModel.DataStore.RemoveAllInstancesOfFeedFromTreeAtAllLevels | src/Reed/Classes/Model/DataStore/DataStore+ContainerTree.swift:27-38 | the feed leaves the top level and every folder, so is no longer flattened |
| DataStoreModel.DataStore.ClearFeedMetadata | src/Reed/Classes/DataStore/DataStore+FeedFolderOperations.swift:128-130 | the feed's URL entry is dropped and nothing else changes |
| DataStoreModel.DataStore.AddFolderToTree | src/Reed/Classes/DataStore/DataStore+FeedFolderOperations.swift:228-232 | the folder joins the folders; file and caches dirty; a children change posted |
| DataStoreModel.DataStore.EnsureFolder | src/Reed/Classes/DataStore/DataStore+FeedFolderOperations.swift:166-185 | nil and no change for an empty name; an existing folder with the name, changing nothing; else a new empty folder with the next id added to the folders |
| DataStoreModel.DataStore.EnsureFolderWithFolderNames | src/Reed/Classes/DataStore/DataStore+FeedFolderOperations.swift:187-196 | nil without names; else a folder named by the last name, nil when it is empty |
| DataStoreModel.DataStore.ExistingFolderWithExternalID | src/Reed/Classes/DataStore/DataStore+FeedFolderOperations.swift:203-205 | a folder with the external id, nil exactly when there is none |
| DataStoreModel.DataStore.ExistingContainer | src/Reed/Classes/DataStore/DataStore+FeedFolderOperations.swift:207-213 | the data store itself for its own external id, else a folder with it, nil exactly when there is none |
| DataStoreModel.DataStore.ExistingContainers | src/Reed/Classes/DataStore/DataStore+FeedFolderOperations.swift:215-226 | the data store first exactly when the feed is at its top level, then every folder holding the feed, each once |
| DataStoreModel.AddedFeedIsFlattened | src/Reed/Classes/Model/DataStore/DataStore+ContainerTree.swift:49-96 | after a top-level add the flattened feeds are the old ones and the new feed |
| UnreadValidation.Unread | src/Reed/Classes/DataStore/DataStore+ArticleFetching.swift:241 | the unread articles are among the articles |
| UnreadValidation.WithFeedID | src/Reed/Classes/DataStore/DataStore+ArticleFetching.swift:241-245 | exactly the articles with the feed's id |
| UnreadValidation.OfFeed | src/Reed/Classes/DataStore/DataStore+ArticleFetching.swift:255 | `ArticleOfFeed`: exactly the articles whose feed is the feed |
| UnreadValidation.WithFeedIDStep | src/Reed/Classes/DataStore/DataStore+ArticleFetching.swift:241-243 | one more article adds one to its own feed's count only |
| UnreadValidation.OfFeedStep | src/Reed/Classes/DataStore/DataStore+ArticleFetching.swift:254-258 | one more article adds one to the feed's count exactly when it belongs to the feed |
| UnreadValidation.ReadArticlesDoNotCount | src/Reed/Classes/DataStore/DataStore+ArticleFetching.swift:241 | an article that stops being unread takes one off its feed's count |
| UnreadValidation.ValidationsAgreeWithinDataStore | src/Reed/Classes/DataStore/DataStore+ArticleFetching.swift:234-260 | within one data store, counting by feed id and counting by feed agree |
| UnreadValidation.StoreStep | src/Reed/Classes/DataStore/DataStore+ArticleFetching.swift:242 | one increment keeps the storage counting the unread articles seen so far, per feed id |
| UnreadValidation.UnreadCountStorage | src/Reed/Classes/DataStore/DataStore+ArticleFetching.swift:240-243 | `Tally`: the storage holds, for every feed id, the number of unread articles with it, and no zero entry |
| UnreadValidation.SetUnreadCountsFrom | src/Reed/Classes/DataStore/DataStore+ArticleFetching.swift:244-247 | every feed's count is its stored count, 0 when absent; names and metadata are kept |
| UnreadValidation.ValidateUnreadCountsAfterFetchingUnreadArticles | src/Reed/Classes/DataStore/DataStore+ArticleFetching.swift:234-248 | every feed's count becomes the number of unread fetched articles with its id |
| UnreadValidation.UnreadCountOfFeed | src/Reed/Classes/DataStore/DataStore+ArticleFetching.swift:253-258 | the loop counts the unread articles of the feed |
| UnreadValidation.ValidateUnreadCount | src/Reed/Classes/DataStore/DataStore+ArticleFetching.swift:250-260 | the feed's count becomes the number of its unread articles |
| UnreadValidation.AfterFetchingUnreadArticles | src/Reed/Classes/DataStore/DataStore+ArticleFetching.swift:145-156 | a limited fetch leaves every count alone; an unlimited one validates every feed's count |
| SceneTables.NodeAt | src/Reed/Classes/SceneCoordinator+SidebarState.swift:27-37 | the row's node exactly for a position inside the table, nil outside it |
| SceneTables.RowOf | src/Reed/Classes/SceneCoordinator+SidebarState.swift:41 | the first row of the section holding the node, nil exactly when none does |
| SceneTables.IndexPathFrom | src/Reed/Classes/SceneCoordinator+SidebarState.swift:39-46 | the first section holding the node, at its first row there; nil exactly when no section holds it |
| SceneTables.IndexPathOfNodeAt | src/Reed/Classes/SceneCoordinator+SidebarState.swift:27-46 | the index path found for a row's node leads back to that node, at or before the row |
| SceneTables.LastNonEmptyBelow | src/Reed/Classes/ViewControllers/Coordinator/SceneCoordinator.swift:191-196 | the nearest earlier section with rows, nil exactly when every earlier one is empty |
| SceneTables.FirstNonEmptyFrom | src/Reed/Classes/ViewControllers/Coordinator/SceneCoordinator.swift:212-217 | the nearest later section with rows, nil exactly when every later one is empty |
| SceneTables.PrevFeedPath | src/Reed/Classes/ViewControllers/Coordinator/SceneCoordinator.swift:184-203 | nil without a current row; the row above; else the last row of the nearest earlier non-empty section, nil exactly when there is none |
| SceneTables.NextFeedPath | src/Reed/Classes/ViewControllers/Coordinator/SceneCoordinator.swift:205-224 | nil without a current row; the row below; else row 0 of the nearest later non-empty section, nil exactly when there is none |
| SceneTables.NextOfPrevFeedPath | src/Reed/Classes/ViewControllers/Coordinator/SceneCoordinator.swift:184-224 | going down from the row found by going up returns to the row one started from |
| SceneTables.PrevOfNextFeedPath | src/Reed/Classes/ViewControllers/Coordinator/SceneCoordinator.swift:184-224 | going up from the row found by going down returns to the row one started from |
| SceneTables.FirstNonEmptyAfterEmpties | src/Reed/Classes/ViewControllers/Coordinator/SceneCoordinator.swift:212-217 | past only empty sections the first non-empty one is found |
| SceneTables.LastNonEmptyBeforeEmpties | src/Reed/Classes/ViewControllers/Coordinator/SceneCoordinator.swift:191-196 | past only empty sections the last non-empty one is found |
| SceneTables.FirstEqualIndex | src/Reed/Classes/ViewControllers/Coordinator/SceneCoordinator+Timeline.swift:39-46 | the first position holding an equal article, nil exactly when there is none |
| SceneTables.FindPrevArticle | src/Reed/Classes/ViewControllers/Coordinator/SceneCoordinator+Timeline.swift:38-43 | the article before the first equal one; nil when there is none or it is first |
| SceneTables.FindNextArticle | src/Reed/Classes/ViewControllers/Coordinator/SceneCoordinator+Timeline.swift:45-50 | the article after the first equal one; nil when there is none or it is last |
| SceneTables.FindNextOfFindPrev | src/Reed/Classes/ViewControllers/Coordinator/SceneCoordinator+Timeline.swift:38-50 | without repeated articles, the next of the previous article is the one started from |
| SceneTables.IDDictionary | src/Reed/Classes/ViewControllers/Coordinator/SceneCoordinator.swift:523-532 | every article is found by its id, every key is an article's id, and each entry has its key as id |
| SceneTables.IDDictionaryLastWins | src/Reed/Classes/ViewControllers/Coordinator/SceneCoordinator.swift:526-528 | an id maps to the last article with that id |
| SceneTables.CountUnread | src/Reed/Classes/ViewControllers/Coordinator/SceneCoordinator.swift:486-494 | `StatusesIn`: no more unread articles than articles |
| SceneTables.CountUnreadPositive | src/Reed/Classes/ViewControllers/Coordinator/SceneCoordinator.swift:486-494 | the count is positive exactly when some article is unread |
| SceneTables.MergedArticles | src/Reed/Classes/ViewControllers/Coordinator/SceneCoordinator+Timeline.swift:381-390 | the loop gives the fetched articles plus the current ones whose id was not fetched, less the current ones whose feed is gone |
| SceneTables.MergeKeepsFetched | src/Reed/Classes/ViewControllers/Coordinator/SceneCoordinator+Timeline.swift:382-389 | a fetched article is kept unless it is a current article whose feed is gone |
| SceneTables.MergeKeepsUnfetchedCurrent | src/Reed/Classes/ViewControllers/Coordinator/SceneCoordinator+Timeline.swift:384-386 | a current article whose id was not fetched and whose feed exists survives |
| SceneTables.MergeDropsOrphans | src/Reed/Classes/ViewControllers/Coordinator/SceneCoordinator+Timeline.swift:387-389 | a current article whose feed is gone is dropped, even when fetched |
| SceneTables.MergeAddsNothingNew | src/Reed/Classes/ViewControllers/Coordinator/SceneCoordinator+Timeline.swift:382-390 | everything merged was fetched or already in the timeline |
| SceneCoordinatorModel.NextUnreadFeedStart | src/Reed/Classes/ViewControllers/Coordinator/SceneCoordinator+Timeline.swift:283-298 | the search starts at the row below the current one, else at row 0 of the next section, wrapping to (0, 0) after the last section, and from (-1, 0) when nothing is selected; the start's section is in the table and its row is at most that section's row count (it equals the count only for an empty section) |
| SceneCoordinatorModel.NextUnreadFeedStartAgreesWithinSection | src/Reed/Classes/ViewControllers/Coordinator/SceneCoordinator+Timeline.swift:290-298 | inside a section that start is the row the next-feed path gives |
| SceneCoordinatorModel.NextUnreadFeedStartSkipsNothing | src/Reed/Classes/ViewControllers/Coordinator/SceneCoordinator+Timeline.swift:283-298 | before the last section, no row after the current one comes before the start |
| SceneCoordinatorModel.ResetFeedPathAsWrittenIsStale | src/Reed/Classes/SceneCoordinator+SidebarState.swift:180-183 | as written, the path looked up in the old table can name a row of the new table that is not the timeline feed's |
| SceneCoordinatorModel.ResetFeedPathFindsNode | src/Reed/Classes/SceneCoordinator+SidebarState.swift:180-183 | `ResetFeedPath`: looked up in the new table, the reset path names a row holding the timeline feed, is nil only when no section holds it, and nil when nothing was selected |
| SceneCoordinatorModel.IndexPathIn | src/Reed/Classes/SceneCoordinator+SidebarState.swift:39-46 | the nested search returns the first section holding the node, at its first row there, or nil |
| SceneCoordinatorModel.ResetFeedPathIn | src/Reed/Classes/SceneCoordinator+SidebarState.swift:180-183 | the reset computes the corrected path |
| SceneCoordinatorModel.FirstUnreadFrom | src/Reed/Classes/ViewControllers/Coordinator/SceneCoordinator+Timeline.swift:266-280 | the first unread article at or after the row; nil exactly when every later article is read |
| SceneCoordinatorModel.LastUnreadAtOrBelow | src/Reed/Classes/ViewControllers/Coordinator/SceneCoordinator+Timeline.swift:165-179 | the last unread article at or above the row; nil exactly when every earlier article is read, or when the row is negative |
| SceneCoordinatorModel.FirstUnreadExactlyWhenCounted | src/Reed/Classes/ViewControllers/Coordinator/SceneCoordinator+Timeline.swift:251-280 | a first or last unread article is found exactly when the unread count is positive |
| SceneCoordinatorModel.AfterSelect | src/Reed/Classes/ViewControllers/Coordinator/SceneCoordinator+Timeline.swift:9-36 | `SameArticle`: selecting the current article changes nothing; otherwise the article becomes current, and one that is not nil is marked read |
| SceneCoordinatorModel.AfterSelectSelectsAndIsIdempotent | src/Reed/Classes/ViewControllers/Coordinator/SceneCoordinator+Timeline.swift:15-29 | afterwards the article asked for is current; selecting it again changes nothing; one read mark at most is added |
| SceneCoordinatorModel.ArticleRow | src/Reed/Classes/ViewControllers/Coordinator/SceneCoordinator.swift:289-292 | the first row equal to the current article, nil without one |
| SceneCoordinatorModel.NextUnreadStart | src/Reed/Classes/ViewControllers/Coordinator/SceneCoordinator+Timeline.swift:256-264 | the forward scan starts after the current row, or at row 0 without one |
| SceneCoordinatorModel.PrevUnreadStart | src/Reed/Classes/ViewControllers/Coordinator/SceneCoordinator+Timeline.swift:155-163 | the backward scan starts at the current row, or at the last row without one |
| SceneCoordinatorModel.CountUnreadArticles | src/Reed/Classes/ViewControllers/Coordinator/SceneCoordinator.swift:486-494 | the loop counts the unread articles |
| SceneCoordinatorModel.BuildIDDictionary | src/Reed/Classes/ViewControllers/Coordinator/SceneCoordinator.swift:523-532 | the loop builds the id dictionary in which later articles win |
| SceneCoordinatorModel.SceneCoordinator.constructor | src/Reed/Classes/ViewControllers/Coordinator/SceneCoordinator.swift:310-344 | every section node is marked expanded and gets an empty section; no feed path, article or unread count yet |
| SceneCoordinatorModel.SceneCoordinator.PrevFeedIndexPath | src/Reed/Classes/ViewControllers/Coordinator/SceneCoordinator.swift:184-203 | the loop returns the previous-feed path |
| SceneCoordinatorModel.SceneCoordinator.NextFeedIndexPath | src/Reed/Classes/ViewControllers/Coordinator/SceneCoordinator.swift:205-224 | the loop returns the next-feed path |
| SceneCoordinatorModel.SceneCoordinator.CappedIndexPath | src/Reed/Classes/ViewControllers/Coordinator/SceneCoordinator.swift:442-453 | a path inside the table is kept; any other becomes the last row of the last section |
| SceneCoordinatorModel.SceneCoordinator.CappedIndexPathInTable | src/Reed/Classes/ViewControllers/Coordinator/SceneCoordinator.swift:442-453 | capping keeps positions in the table fixed and, when the last section has rows, always lands in the table |
| SceneCoordinatorModel.SceneCoordinator.IndexPathFor | src/Reed/Classes/SceneCoordinator+SidebarState.swift:39-46 | the first section holding the node, at its first row there, or nil |
| SceneCoordinatorModel.SceneCoordinator.ShadowTableContains | src/Reed/Classes/SceneCoordinator+SidebarState.swift:268-280 | `IsItem`: true exactly when some row's node is a sidebar item with the given id |
| SceneCoordinatorModel.SceneCoordinator.MarkExpanded | src/Reed/Classes/SceneCoordinator+SidebarState.swift:297-299 | the container is added to the expanded set; nothing else changes |
| SceneCoordinatorModel.SceneCoordinator.UnmarkExpanded | src/Reed/Classes/SceneCoordinator+SidebarState.swift:313-315 | the container is removed from the expanded set; nothing else changes |
| SceneCoordinatorModel.SceneCoordinator.MarkExpandedNode | src/Reed/Classes/SceneCoordinator+SidebarState.swift:301-311 | `IsExpandedNode`: a node with a container id becomes expanded; a node without one is left alone |
| SceneCoordinatorModel.SceneCoordinator.UnmarkExpandedNode | src/Reed/Classes/SceneCoordinator+SidebarState.swift:317-327 | afterwards the node is not expanded; only its container id leaves the set |
| SceneCoordinatorModel.SceneCoordinator.RowsOf | src/Reed/Classes/SceneCoordinator+SidebarState.swift:166-172 | a top-level node's rows: itself, then its children in order when it is expanded |
| SceneCoordinatorModel.SceneCoordinator.SectionRowsHas | src/Reed/Classes/SceneCoordinator+SidebarState.swift:165-174 | a node is among a section's rows exactly when it is a top-level node there or a child of an expanded one |
| SceneCoordinatorModel.SceneCoordinator.FlattenedTable | src/Reed/Classes/SceneCoordinator+SidebarState.swift:159-178 | one section per child of the root |
| SceneCoordinatorModel.SceneCoordinator.FlattenedTableSection | src/Reed/Classes/SceneCoordinator+SidebarState.swift:161-177 | section s of the table is root child s's data store id, or "", with that child's rows |
| SceneCoordinatorModel.SceneCoordinator.FlattenedSectionHas | src/Reed/Classes/SceneCoordinator+SidebarState.swift:165-174 | a collapsed section has no rows; an expanded one holds exactly its children and the children of its expanded children |
| SceneCoordinatorModel.SceneCoordinator.FlattenSection | src/Reed/Classes/SceneCoordinator+SidebarState.swift:162-174 | the loop builds the section's rows |
| SceneCoordinatorModel.SceneCoordinator.BuildShadowTable | src/Reed/Classes/SceneCoordinator+SidebarState.swift:159-178 | the loop builds the flattened table |
| SceneCoordinatorModel.SceneCoordinator.ReloadsFor | src/Reed/Classes/SceneCoordinator+SidebarState.swift:217-225 | a row is reloaded exactly when its node is a container whose expansion changed |
| SceneCoordinatorModel.SceneCoordinator.AllReloads | src/Reed/Classes/SceneCoordinator+SidebarState.swift:189-234 | one reload set per section of the new table, each as for one section |
| SceneCoordinatorModel.SceneCoordinator.RebuildPlan | src/Reed/Classes/SceneCoordinator+SidebarState.swift:158-236 | the new table, its reloads for the symmetric difference of the expanded sets, and the corrected feed path |
| SceneCoordinatorModel.SceneCoordinator.RebuildShadowTable | src/Reed/Classes/SceneCoordinator+SidebarState.swift:158-266 | the table becomes the flattened tree; reloads follow the changed containers; the last expanded set catches up; the feed path is reset by the corrected rule (see Findings); articles are untouched |
| SceneCoordinatorModel.SceneCoordinator.CurrentArticleRow | src/Reed/Classes/ViewControllers/Coordinator/SceneCoordinator.swift:289-292 | a row holding an article equal to the current one, nil exactly when there is no current article or none is equal |
| SceneCoordinatorModel.SceneCoordinator.PrevArticle | src/Reed/Classes/ViewControllers/Coordinator/SceneCoordinator.swift:226-245 | `IsPrevArticleAvailable`: the article above the current row, present exactly when the previous article is available |
| SceneCoordinatorModel.SceneCoordinator.NextArticle | src/Reed/Classes/ViewControllers/Coordinator/SceneCoordinator.swift:233-252 | `IsNextArticleAvailable`: the article below the current row, present exactly when the next article is available |
| SceneCoordinatorModel.SceneCoordinator.NeighboursAgreeWithFind | src/Reed/Classes/ViewControllers/Coordinator/SceneCoordinator.swift:240-252 | the previous and next articles are the ones findPrevArticle and findNextArticle give |
| SceneCoordinatorModel.SceneCoordinator.FirstUnreadArticleIndexPath | src/Reed/Classes/ViewControllers/Coordinator/SceneCoordinator.swift:254-261 | section 0 at the first unread row; nil exactly when all are read |
| SceneCoordinatorModel.SceneCoordinator.UpdateUnreadCount | src/Reed/Classes/ViewControllers/Coordinator/SceneCoordinator.swift:486-494 | `IsTimelineUnreadAvailable`: the count is the number of unread articles, and unread is available exactly when some article is unread; nothing else changes |
| SceneCoordinatorModel.SceneCoordinator.RebuildArticleDictionaries | src/Reed/Classes/ViewControllers/Coordinator/SceneCoordinator.swift:523-532 | the dictionary becomes the id dictionary of the articles and is no longer stale |
| SceneCoordinatorModel.SceneCoordinator.ArticleFor | src/Reed/Classes/ViewControllers/Coordinator/SceneCoordinator.swift:434-440 | the current article when its id matches, else the dictionary's entry, which always bears that id |
| SceneCoordinatorModel.SceneCoordinator.SetArticles | src/Reed/Classes/ViewControllers/Coordinator/SceneCoordinator.swift:273-278 | new articles flag the dictionary as stale |
| SceneCoordinatorModel.SceneCoordinator.SelectArticle | src/Reed/Classes/ViewControllers/Coordinator/SceneCoordinator+Timeline.swift:9-36 | the selection and the read marks move as the selection step says |
| SceneCoordinatorModel.SceneCoordinator.SelectPrevArticleInTimeline | src/Reed/Classes/ViewControllers/Coordinator/SceneCoordinator+Timeline.swift:165-179 | selects the last unread article at or above the row, reporting whether there was one |
| SceneCoordinatorModel.SceneCoordinator.SelectNextArticleInTimeline | src/Reed/Classes/ViewControllers/Coordinator/SceneCoordinator+Timeline.swift:266-280 | selects the first unread article at or after the row, reporting whether there was one; a row past the end finds nothing |
| SceneCoordinatorModel.SceneCoordinator.SelectPrevUnreadArticleInTimeline | src/Reed/Classes/ViewControllers/Coordinator/SceneCoordinator+Timeline.swift:155-163 | the backward search from the current row, or from the last row |
| SceneCoordinatorModel.SceneCoordinator.SelectNextUnreadArticleInTimeline | src/Reed/Classes/ViewControllers/Coordinator/SceneCoordinator+Timeline.swift:256-264 | the forward search after the current row, or from row 0 |
| SceneCoordinatorModel.SceneCoordinator.SelectFirstUnreadArticleInTimeline | src/Reed/Classes/ViewControllers/Coordinator/SceneCoordinator+Timeline.swift:251-253 | selects the first unread article, found exactly when some article is unread |
| SceneCoordinatorModel.SceneCoordinator.NextUnreadFeedFrom | src/Reed/Classes/ViewControllers/Coordinator/SceneCoordinator+Timeline.swift:311-349 | the first collapsed row with unread articles from the start, unless a row without an unread count comes first |
| SceneCoordinatorModel.SceneCoordinator.SelectNextUnreadFeedStartingWith | src/Reed/Classes/ViewControllers/Coordinator/SceneCoordinator+Timeline.swift:311-349 | `FirstEligibleFrom`, `NoneEligibleFrom`, `TimelineReplaced`: selects the first eligible row from the start and leaves no current article; moving to a new row replaces the timeline with the row's fetched articles (recounted, dictionary flagged stale) unless they are the same; the row already current keeps the timeline; when the search fails nothing changes |
| SceneCoordinatorModel.SceneCoordinator.SelectNextUnreadFeed | src/Reed/Classes/ViewControllers/Coordinator/SceneCoordinator+Timeline.swift:282-309 | the row selected is the first eligible one searching from `NextUnreadFeedStart`; only when that search finds none, the first searching from (0, 0); a new row's fetched articles replace the timeline as `TimelineReplaced` says; nothing changes when neither search finds one; it finds a row whenever there is one and no blocking row |
| SceneCoordinatorModel.SceneCoordinator.ReplaceArticles | src/Reed/Classes/ViewControllers/Coordinator/SceneCoordinator.swift:501-519 | `TimelineReplaced`, `CurrentAfterReplace`: equal articles change nothing; others replace the articles, recount the unread ones, flag the id dictionary stale, and clear a current article whose article and account ids are gone |
| SceneCoordinatorModel.SceneCoordinator.SelectFeed | src/Reed/Classes/ViewControllers/Coordinator/SceneCoordinator+FeedNavigation.swift:38-77 | `TimelineFetch`: the current row changes nothing at all; another row (or none) becomes current, the article is deselected when asked, and the timeline is replaced by the fetch for the row's sidebar item, or emptied when it holds none |
| ExtensionContainersModel.RawValue | src/ShareExtension/Classes/SharedTypes.swift:13-16 | the on-disk raw values are 1 and 2 |
| ExtensionContainersModel.AccountTypeFrom | src/ShareExtension/Classes/SharedTypes.swift:13-16 | a raw value decodes exactly when it is 1 or 2, to the case with that raw value |
| ExtensionContainersModel.AccountTypeRawValueRoundTrip | src/ShareExtension/Classes/SharedTypes.swift:13-16 | every account type decodes back from its raw value |
| ExtensionContainersModel.FolderContainers | src/Shared/ExtensionContainers.swift:28 | one folder container per folder, in order |
| ExtensionContainersModel.FlattenedAppend | src/Shared/ExtensionContainers.swift:24-31 | flattening distributes over concatenation of account lists |
| ExtensionContainersModel.FlattenedCons | src/Shared/ExtensionContainers.swift:25-30 | an account contributes itself and then its folders, ahead of the rest |
| ExtensionContainersModel.FlattenedLength | src/Shared/ExtensionContainers.swift:24-31 | `Flattened`, `FolderCount`: the flattened list has one entry per account and one per folder |
| ExtensionContainersModel.FolderContainersHas | src/Shared/ExtensionContainers.swift:28 | a folder container is listed exactly when its folder is |
| ExtensionContainersModel.FlattenedLastHas | src/Shared/ExtensionContainers.swift:24-31 | a container is listed exactly when it is listed for the earlier accounts or belongs to the last one |
| ExtensionContainersModel.FlattenedOnlyAccounts | src/Shared/ExtensionContainers.swift:24-31 | every listed container is an account or one of its folders |
| ExtensionContainersModel.FlattenedHasAccounts | src/Shared/ExtensionContainers.swift:24-31 | every account and every folder belonging to one is listed |
| ExtensionContainersModel.FlattenedMembers | src/Shared/ExtensionContainers.swift:24-31 | `OfAccount`: a container is listed exactly when it is an account or a folder of one |
| ExtensionContainersModel.FindAccount | src/Shared/ExtensionContainers.swift:33-35 | the first account with the name; nil exactly when none has it |
| ExtensionContainersModel.FindFolder | src/Shared/ExtensionContainers.swift:75-77 | the first folder with the name; nil exactly when none has it |
| ExtensionContainersModel.Encode | src/Shared/ExtensionContainers.swift:65-73 | the container id key is written exactly when there is a container id |
| ExtensionContainersModel.DecodeContainerIDIfPresent | src/Shared/ExtensionContainers.swift:61 | an absent key decodes to nil |
| ExtensionContainersModel.Decode | src/Shared/ExtensionContainers.swift:55-63 | a missing name fails with key-not-found; success needs every required key |
| ExtensionContainersModel.DecodeEncode | src/Shared/ExtensionContainers.swift:55-73 | `DecodeString`, `DecodeBool`, `DecodeAccountType`, `DecodeFolders`: decoding an encoded account gives it back |
| ExtensionContainersModel.DecodeOptionalAndCorrupted | src/Shared/ExtensionContainers.swift:59-61 | an account without a container id round-trips; a type with no case fails as corrupted data |
| ShareDefaultContainerModel.FirstWithAccountID | src/ShareExtension/Classes/ShareDefaultContainer.swift:16 | the first account with the id; nil exactly when none has it |
| ShareDefaultContainerModel.SubstituteContainerIfNeeded | src/ShareExtension/Classes/ShareDefaultContainer.swift:42-52 | the account when feeds may sit at its root, else its first folder, else nil |
| ShareDefaultContainerModel.SubstituteIsOfAccount | src/ShareExtension/Classes/ShareDefaultContainer.swift:42-52 | the substitute is the account or one of its folders |
| ShareDefaultContainerModel.FirstWithUniqueAccountID | src/ShareExtension/Classes/ShareDefaultContainer.swift:16 | with unique ids, looking an account's id up finds that account |
| ShareDefaultContainerModel.FindUniqueFolder | src/ShareExtension/Classes/ShareDefaultContainer.swift:20 | with unique names, looking a folder's name up finds that folder |
| ShareDefaultContainerModel.ShareAppDefaults.constructor | src/ShareExtension/Classes/ShareDefaultContainer.swift:15-19 | nothing is saved at first |
| ShareDefaultContainerModel.ShareAppDefaults.DefaultContainer | src/ShareExtension/Classes/ShareDefaultContainer.swift:13-31 | the saved folder of the saved account; else that account substituted; else the first account substituted; else nil |
| ShareDefaultContainerModel.ShareAppDefaults.DefaultContainerIsListed | src/ShareExtension/Classes/ShareDefaultContainer.swift:13-31 | what is offered is an entry of the flattened list, and nothing is offered without accounts |
| ShareDefaultContainerModel.ShareAppDefaults.SaveDefaultContainer | src/ShareExtension/Classes/ShareDefaultContainer.swift:33-40 | `AccountID`, `Name`: saves the container's account id, and its name exactly when it is a folder |
| ShareDefaultContainerModel.ShareAppDefaults.SavedContainerIsOfferedAgain | src/ShareExtension/Classes/ShareDefaultContainer.swift:13-40 | in well-formed containers a saved folder is offered again, and a saved account as substituted |
| ParsedFeedTransformerModel.ParsedAuthors | src/Reed/Classes/Model/Parser/Feeds/XML/ParsedFeedTransformer.swift:82-92 | `ParsedAuthorFrom`: nil for nil or no authors; no converted author has an avatar |
| ParsedFeedTransformerModel.ParsedAuthorsKeepEveryAuthor | src/Reed/Classes/Model/Parser/Feeds/XML/ParsedFeedTransformer.swift:82-92 | a non-empty set is never dropped; every author is kept with its name, url and e-mail, and nothing else is added |
| ParsedFeedTransformerModel.SizeInBytes | src/Reed/Classes/Model/Parser/Feeds/XML/ParsedFeedTransformer.swift:100 | a size exactly for a positive length, and then the length |
| ParsedFeedTransformerModel.ParsedAttachments | src/Reed/Classes/Model/Parser/Feeds/XML/ParsedFeedTransformer.swift:94-111 | `ParsedAttachmentFrom`: nil for nil or no enclosures; no attachment has a title or duration; every size is positive |
| ParsedFeedTransformerModel.ParsedAttachmentsKeepEveryEnclosure | src/Reed/Classes/Model/Parser/Feeds/XML/ParsedFeedTransformer.swift:94-111 | a non-empty set is never dropped; every enclosure becomes an attachment with its url and type, and every attachment comes from an enclosure |
| ParsedFeedTransformerModel.ParsedItemFields | src/Reed/Classes/Model/Parser/Feeds/XML/ParsedFeedTransformer.swift:47-80 | `ParsedItemFrom`, `ContentHTML`: each item takes its ids, links, title, language, Markdown and dates from the article, its content from the rendered Markdown or else the body (src/Reed/Classes/Model/Parser/Feeds/ParsedItem.swift:70-75), and no text, summary, image or tags |
| ParsedFeedTransformerModel.ParsedItems | src/Reed/Classes/Model/Parser/Feeds/XML/ParsedFeedTransformer.swift:41-45 | every article's item is in the set |
| ParsedFeedTransformerModel.ParsedFeedFrom | src/Reed/Classes/Model/Parser/Feeds/XML/ParsedFeedTransformer.swift:20-37 | an RSS feed with the parser's title, home page, url and language, and no description, next url, icons, authors, hubs or expiry |
| ParsedFeedTransformerModel.ParsedFeedItemIDs | src/Reed/Classes/Model/Parser/Feeds/XML/ParsedFeedTransformer.swift:20-45 | the items' ids are exactly the articles' ids, and there are no more items than articles |
| ParsedFeedTransformerModel.ImageSize | src/Reed/Classes/Model/Parser/Feeds/XML/ParsedFeedTransformer.swift:44 | converting a set never enlarges it |

## Left out

- The feed parsers (SAX scanning, HTML metadata) are not part of this model. Only their output types appear, in `ParsedFeedTransformerModel`.
- Views, view controllers, CloudKit sync, the SQLite layers, dispatch queues, timers and the run loop are left out. They are presentation, I/O or concurrency.
- Notifications are logs or counters of posted events, not delivery to observers.
- Undo registration is a log of registered actions.
- `UserDefaults`, `AppDefaults` and the share extension's defaults are fields.
- Foreign helpers are parameters:
  - URL parsing is `parse`;
  - MD5 is `hash`, and the database id behind `calculatedArticleID` is the parameter `databaseID`;
  - Markdown rendering is `render`;
  - `databaseIDWithString` is a parameter;
  - `matchesArticle` is a parameter;
  - the extended user agent is a parameter;
  - the tree controller delegate's answers are a function from node to child list.
- Localised sorting is left out: `Set<Feed>.sorted`, `Set<Folder>.sorted` and `sortedAlphabeticallyWithFoldersAtEnd`. Where the order matters, `Folder.OPMLString` takes it as a parameter.
- `Collection.difference(from:).inferringMoves()` and the row and section diffs of `rebuildShadowTable` are left out. Only the reload sets are modelled.
- `ShadowTable` keeps row-change arrays as sets of row numbers.
- Dates are numbers of seconds: `real` where the source uses `TimeInterval`, `int` elsewhere. The clock is the `now` parameter.
- Case-insensitive comparison is ASCII lowercasing. There is no Unicode case folding or normalisation.
- The random pick in `byRemovingAllButOneRandomOpenRSSOrgURL` is a nondeterministic choice.
- `Set<Article>` is a Dafny set, so articles are told apart by all their fields, not by the source's id hash.
- `Set<Feed>` is a Dafny set of object references, so feeds are told apart by identity. Swift compares feeds by `feedID` and `dataStoreID` (`Feed.swift` 272-281); `FeedModel.SameFeedIffSameKey` states that equality, but no set operation uses it. Two distinct feed objects with the same ids count as two feeds in `FolderModel.Folder.AddFeedToTreeAtTopLevel`, `FolderModel.Folder.RemoveFeedFromTreeAtTopLevel`, `FolderModel.Folder.RemoveFeedsFromTreeAtTopLevel`, `DataStoreModel.DataStore.AddFeedIfNotInAnyFolder`, `DataStoreModel.DataStore.RemoveAllInstancesOfFeedFromTreeAtAllLevels`, `DataStoreModel.DataStore.ExistingContainers`, `ContainerModel.ObjectIsChild` and `ContainerModel.Has`.
- Swift `Character`, a grapheme cluster, is a Dafny `char`, so a string's length counts code points and not user-perceived characters.
- Author order is kept as a sequence.
- `anyArticlePassesTest`'s closure is the four tests the source passes it, as a datatype.
- `Node`'s weak parent reference and deallocation are left out. Nodes live in an arena keyed by id.
- `Node.nodesOrganizedByParent` and `indexSetsGroupedByParent` (`Node.swift` 135-159) are not modelled.
- `DownloadProgressModel.DownloadProgressStore.CompleteTasks`: requires the completed count to stay within the number of tasks. The source checks this with a debug-only `assert` (`DownloadProgress.swift` 108), and a release build would go past it.
- `DownloadProgressModel.DownloadProgressStore.AddChild`: requires the child to have been created after its parent, which keeps the tree acyclic; the source only demands that the child is not the parent itself.
- `DownloadSession`:
  - `URLSession` and its delegate callbacks are outside the model; the calls the session would make are an `events` log;
  - the download cache is the parameter `cached` as a set of URL strings, and what a 400+ response or an error-free completion adds to it is returned as `cachedAfter`; the stored responses and data are not modelled;
  - the URL of a task's original request is not tracked by the session: `DidComplete` takes it as the parameter `requestURL`, with `failed` for the error;
  - `createHTTPResponse429`, which reads the `Retry-After` header, is not part of this model: its result is the parameter `message`, and each task's host is the function `hostOf`;
  - `DidReceiveData` leaves out the accumulation of the received bytes; only the delegate's answer (`shouldContinue`) matters to the session.
- The openrss.org interval follows the code, ten hours (`60 * 60 * 10` seconds), although a comment there says ten minutes.
- `LocalAccountRefresher.StatusIsOK` takes "OK" to be a 2xx status, because the definition is not among the files modelled.
- The conditional-GET header names are the standard HTTP names, because their constants are not among the files modelled.
- `CoalescingQueueModel`: `Date.distantFuture` as the last call time is `None`.
- `MacroProcessor`: "scanning resumes after the closing delimiter" is stated through the first macro at each template position, not as a rendering-shift lemma.
- `ExtensionContainersModel`:
  - the keyed coding containers are maps of JSON-like values;
  - a folder is coded whole;
  - JSON `null` counts as absent for `decodeIfPresent`;
  - account types are decoded from raw values 1 and 2.
- Author's `init?(row:)`, the database read in `Author+Database.swift` 14-22, is not modelled.
- `[ArticleStatus].articleIDs()` (`ArticleStatus.swift` 94-98) is not modelled.
- `ArticleUtilities` leaves out:
  - `iconImage` and `iconImageUrl`, which read the file system;
  - `pathUserInfo` (146-165);
  - the `SortableArticle` accessors (167-186).
- `ArticleArray.sortedByDate` is not modelled. It is a library sort.
- `Feed` leaves out:
  - the pass-through metadata accessors (icon and favicon URLs, authors, cache-control info and the like);
  - the asynchronous `rename`;
  - `notificationDisplayName` and `defaultReadFilterType`;
  - `Set<Feed>.feedIDs`.
- `Folder` leaves out:
  - `containerID` and `sidebarItemID`, which `ContainerId` and `SidebarId` cover;
  - the asynchronous `rename`.
- The data store leaves out:
  - the asynchronous sync-provider operations, which are foreign calls: adding, creating, removing, moving, renaming and restoring feeds and folders;
  - `newFeed`, `createFeed(with:)`, `existingFolder(withDisplayName:)`.
- `DataStoreModel.DataStore.ExistingFeed`: requires a look-up by feed id or external id, the two the data store overrides; a look-up by URL uses the container's default, `ContainerModel.ExistingFeed`.
- `DataStoreModel.DataStore.EnsureFolder`, `DataStoreModel.DataStore.EnsureFolderWithFolderNames` and `DataStoreModel.DataStore.AddFolderToTree`: require the folder set to exist, where the source force-unwraps `folders!` and would trap.
- `ArticleArrayModel.ArticlesAbovePosition` and `ArticleArrayModel.ArticlesBelowPosition`: require a non-negative position. Swift's `self[..<position]` and `self[position...]` would trap on a negative one; the callers pass an index found by `firstIndex(of:)`.
- `DataStoreModel.DataStore.FolderChildrenDidChange`: the source tests `folder.dataStore === self`, object identity; the model compares the folder's `dataStoreID` with the data store's, which agree as long as no two data stores share an id.
- The unread fetch with a limit is modelled by `UnreadValidation.AfterFetchingUnreadArticles`. The fetch itself is a database read.
- `DeleteCommand`'s `perform` and `undo` are asynchronous and are not modelled. Its classification and names are.
- `SceneCoordinatorModel` leaves out:
  - the previous-unread feed fetcher (`SceneCoordinator+Timeline.swift` 181-250), which works through the unseen fetcher types;
  - `unreadCountFor`;
  - `clearTimelineIfNoLongerAvailable`;
  - `updateShowNamesAndIcons`;
  - `replaceArticles(with:)` for a set, which sorts first;
  - `timelineMiddleIndexPath`;
  - `expandAllSectionsAndFolders` and `collapseAllFolders` (`SceneCoordinator+SidebarState.swift` 80-91 and 108-118), which test whether a node's object is a `Folder`; the modelled node objects carry no such test;
  - the `AppDefaults` persistence of the selection.
- The timeline's feed (`timelineFeed`) is a parameter naming its node.
- `SceneCoordinatorModel.SceneCoordinator.SelectNextUnreadFeed`: requires a non-empty table and a current path whose section is in the table. The source indexes `shadowTable[indexPath.section]` at once and would trap otherwise.
- `SceneCoordinatorModel.SceneCoordinator.SelectNextUnreadFeedStartingWith`: requires a start section no greater than the section count and, inside the table, a start row no greater than the row count. Swift's `a..<b` traps otherwise.
- `SceneCoordinatorModel.SceneCoordinator.SelectNextUnreadFeedStartingWith`: returns whether a feed was found, where the source passes that to a completion handler.
- `SceneCoordinatorModel.SceneCoordinator.SelectPrevArticleInTimeline`: requires the starting row to be below the article count. The source reads `articles[startingRow]` and would trap otherwise.
- `SceneCoordinatorModel.SceneCoordinator.CappedIndexPath`: requires a non-negative section, and a non-empty table when the path is outside it, where the source would trap.
- `SceneTables.PrevFeedPath`, `SceneTables.NextFeedPath`:
  - their preconditions are the cases where the source's range or index would trap: a negative section or one past the table;
  - `SceneCoordinatorModel.SceneCoordinator.PrevFeedIndexPath` and `NextFeedIndexPath` carry the same preconditions.
- `SceneCoordinatorModel.SceneCoordinator.SelectFeed`: the timeline fetch that `setTimelineFeed` starts (`fetchAndReplaceArticlesAsync`, `fetchUnsortedArticlesAsync`) is asynchronous. The model takes its sorted articles per node as the parameter `fetched` and replaces the timeline before the completion runs. Fetch cancellation, the `exceptionArticleFetcher`, `rebuildBackingStores` when read feeds are filtered, the split view, the navigation bar and the `AppDefaults` selection are not modelled.
- `SceneCoordinatorModel.SceneCoordinator.SelectNextUnreadFeedStartingWith`, `SelectNextUnreadFeed`: the found row's articles come through `SelectFeed`, with the same parameter `fetched`.
- `selectFeed(_:animations:deselectArticle:completion:)` for a sidebar item (`SceneCoordinator+FeedNavigation.swift` 18-36) is not modelled. It looks the item's index path up and then does what `SelectFeed` does.
- `DataStoreModel.DataStore.PostChildrenDidChange`: the data store's own `updateUnreadCount()` after `structureDidChange()` is not modelled. The data store's unread count is not part of this model.
- `ArticleArrayModel.RowOfNextUnreadArticle`: requires a selected row of at least -1. Below that the first row of the order is negative, and `articleAtRow(_:)!` traps on it.
- `CombinedProgress.Combined`, `CombinedProgress.Clamp`, `BatchUpdateModel.Decremented`: the debug-only `assert`s are dropped (`CombinedRefreshProgress.swift` 73 and 81, `BatchUpdate.swift` 63). Release builds skip them, and the model follows the clamping that comes after them.
- `RefreshIntervalModel.Description`: English strings stand in for `NSLocalizedString`. `RefreshIntervalModel.IdsDistinct` holds for these strings only; a translation that gives two intervals one string would break it.

## Findings

| source | as written | input that shows it | evidently intended | confidence | as-written member | corrected member |
|---|---|---|---|---|---|---|
| src/Reed/Classes/Extensions/URL+Reed.swift:100-115 | when the prefix matches and the string is longer, `stringByRemovingCaseInsensitivePrefix` returns the first `prefix.count` characters, which is the prefix itself, not what follows it | `"http://"` followed by any non-empty rest | removing a prefix, matched without regard to case, leaves exactly the text after the prefix | medium, not executed | UrlReed.RemovingCaseInsensitivePrefixAsWritten, UrlReed.AsWrittenKeepsPrefix, UrlReed.SchemeRemovedAsWrittenFromHttpUrl, UrlReed.SchemeRemovedAsWrittenFromHttpsUrl | UrlReed.RemovingCaseInsensitivePrefix, UrlReed.RemovingPrefixRoundTrip, UrlReed.SchemeRemovedFromHttpUrl, UrlReed.SchemeRemovedFromHttpsUrl |
| src/Reed/Classes/RSWeb/DownloadSession.swift:426-434 | after a 429 from a host, it keeps that host's tasks and cancels every other host's | queued tasks for openrss.org and b.com, and a 429 from openrss.org | cancel every queued task for the host that answered 429 and keep the others | medium, not executed | DownloadSession.TasksToRemoveAsWritten, DownloadSession.TasksToRemoveAsWrittenSparesTheHost | DownloadSession.TasksToRemove |
| src/Reed/Classes/RSWeb/DownloadProgress.swift:137-139 | `reset()` sets its change flag from its own counters and then overwrites it with the last child's flag | a parent with 5 remaining tasks and one child whose counters are already zero | report a change when the node's own counters or any child's changed | medium, not executed | DownloadProgressModel.ResetFlagAsWritten, DownloadProgressModel.ResetFlagAsWrittenMissesOwnChange | DownloadProgressModel.DownloadProgressStore.Reset |
| src/Reed/Classes/DataStore/SidebarItemIdentifier.swift:51-62 | `description` writes the literal text `(typeName)` because the interpolation lacks its backslash | a smart feed and a script, both with id "a" | every kind of identifier has its own description | high, not executed | SidebarId.DescriptionAsWritten, SidebarId.DescriptionAsWrittenConfusesKinds | SidebarId.Description, SidebarId.DescriptionTellsKindsApart |
| src/Reed/Classes/SceneCoordinator+SidebarState.swift:180-183 | `resetFeedPath` looks the current node up in the shadow table before the rebuilt table replaces it (line 263) | old table [a: [1, 2]], new table [a: [2]], current path (1, 0), current node 2 | the path of the current node in the rebuilt table | low, not executed | SceneCoordinatorModel.ResetFeedPathAsWritten, SceneCoordinatorModel.ResetFeedPathAsWrittenIsStale | SceneCoordinatorModel.ResetFeedPath, SceneCoordinatorModel.ResetFeedPathFindsNode |
