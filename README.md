# ANiStrm in Dafny

ANiStrm is a MoviePilot plugin that builds a media library of the current anime season
without downloading anything. For each episode it writes a small `.strm` file
whose content is the URL the media server streams from. The episodes come from two
places:

- the ANi RSS feed, in incremental mode;
- a walk over the season's folder listing on the configured mirror domain, in full-add mode.

Each title passes through a cleaner on the way. The cleaner folds full-width punctuation
and tidies spaces and hyphens around CJK characters. It can also convert traditional
characters to simplified ones. Source URLs are brought into the `.mp4?d=true` shape
before they are written. Both listings are wrapped in a retry decorator that falls back
to an empty list.

The model is split into modules:

| module | file | what it holds |
|---|---|---|
| `Outcomes` | outcomes.dfy | `Option`, and `Outcome` (a value or a raised Python exception) |
| `Text` | text.dfy | character classes (CJK block U+4E00..U+9FFF, `[a-zA-Z0-9]`, Python's `\s`), `in`, `endswith` |
| `Decimal` | decimal.dfy | `f'{n}'` and a plain decimal `int()` |
| `ReSub` | resub.dfy | one engine for `re.sub` and `str.replace`: leftmost, non-overlapping matches, scanning on after each match |
| `CleanRules` | cleanrules.dfy | the 17-entry full-width table, the eight `re.sub` rules of both cleaners, and what one pass guarantees |
| `TitleCleaner` | titlecleaner.dfy | `_clean_filename` of the plugin |
| `ScratchCleaner` | scratchcleaner.dfy | the stand-alone `_clean_filename` variant with the three-group CJK/word/CJK join |
| `UrlFormat` | urlformat.dfy | `_is_url_format_valid` and `_convert_url_format` |
| `Quoting` | quote.dfy | `urllib.parse.quote(name, safe='')`: UTF-8, then percent-encoding with upper-case hex |
| `Season` | season.dfy | `str.split`, `__validate_custom_season` and the season choice of `__get_ani_season` |
| `Retry` | retry.dfy | the `retry` decorator as a loop over the outcomes of successive calls |
| `Listing` | listing.dfy | the season folder walk `_get_files` over a listing tree |
| `Strm` | strm.dfy | one `__touch_strm_file` call, and the counting loop of `__task`, as functions over a filesystem map |
| `AniStrm` | anistrm.dfy | title conversion, the feed mapping, the retried listings, and the `Plugin` class whose methods change the filesystem and the chosen season |

The filesystem is a `map<string, string>` from path to content. A write that fails is a
path in the `unwritable` set. The clock is a parameter: the year and month are passed in.
The HTTP fetches are also parameters, given as the outcome of the k-th fetch. The OpenCC
converter is a parameter `opencc: string -> string`.

## Model

| member | source | states |
|---|---|---|
| CleanRules.FullwidthTableFacts | plugins/anistrm/__init__.py:137-156 | the table has 17 entries; every value is at most one character; no value is a key; a space is not a key |
| CleanRules.FoldFullwidth | plugins/anistrm/__init__.py:158-160 | after the replacement loop no table character is left, no new character except a table value appears, the title is no longer, and a title without table characters is unchanged |
| CleanRules.FoldRemovesKeys | plugins/anistrm/__init__.py:158-160 | when no value contains a key, folding the table removes every key |
| CleanRules.FoldLength | plugins/anistrm/__init__.py:158-160 | one-character keys with values of at most one character never lengthen the string |
| CleanRules.FoldUnchanged | plugins/anistrm/__init__.py:158-160 | a string holding no key passes through the fold unchanged |
| CleanRules.Pass | plugins/anistrm/__init__.py:163-170 | one `re.sub` pass never lengthens the string, adds only template characters, keeps a string free of table characters free of them, and leaves a string without CJK unchanged |
| CleanRules.NoCjkUnchanged | plugins/anistrm/__init__.py:163-170 | every rule needs a CJK character at one end of its match, so a string without CJK is left alone |
| CleanRules.SpaceFreeUnchanged | plugins/anistrm/__init__.py:163-166 | the whitespace-removing rules leave a string without whitespace alone |
| CleanRules.DashFreeUnchanged | plugins/anistrm/__init__.py:168-170 | the hyphen rules leave a string without `-` alone |
| CleanRules.MixedFirstPass | plugins/anistrm/__init__.py:163 | `(CJK)\s+(CJK)` finds nothing in CJK + space + word + space + CJK |
| CleanRules.HyphenBetweenCjk | plugins/anistrm/__init__.py:168 | a hyphen between CJK characters, with any whitespace before it, becomes one space |
| CleanRules.HyphenAfterCjk | plugins/anistrm/__init__.py:168-170 | a trailing hyphen after CJK survives the between-rule and is removed by the after-rule |
| CleanRules.OnlyFirstHyphenDropped | plugins/anistrm/__init__.py:170 | matches do not overlap, so of two hyphens after a CJK character only the first goes |
| ReSub.MatchAt | plugins/anistrm/__init__.py:163-170 | a match of a rule's pattern at `i` ends within the string, has one group per pattern group, and every group character occurs in the matched text, whose length bounds the groups' total; a literal pattern matches exactly where the needle starts. Completeness, that each pattern is found wherever it occurs, is stated by ReSub.PairMatch, ReSub.DashBetweenMatch, ReSub.RunsMatch and ReSub.TripleMatch |
| ReSub.SubUnchanged | plugins/anistrm/__init__.py:163 | `re.sub` with no match anywhere returns the subject unchanged |
| ReSub.SubOneMatch | plugins/anistrm/__init__.py:163 | with a single match, `re.sub` splices the expanded template between the untouched prefix and suffix |
| ReSub.SubFromLength | plugins/anistrm/__init__.py:163-170 | a rule whose template is shorter than any match never lengthens the subject |
| ReSub.SubFromChars | plugins/anistrm/__init__.py:163-170 | the output holds only subject characters and template text |
| ReSub.ReplaceAbsent | plugins/anistrm/__init__.py:160 | `s.replace(old, new)` is `s` when `old` does not occur |
| ReSub.ReplaceOnce | plugins/anistrm/__init__.py:258 | an occurrence of the needle, with no other occurrence starting before it or lying after it, is replaced in place and the rest is kept |
| ReSub.ReplaceCharRemoves | plugins/anistrm/__init__.py:160 | replacing a character by text that lacks it removes every occurrence |
| ReSub.PairMatch | plugins/anistrm/__init__.py:163-166 | `(X)\s+(Y)` occurring at `i` is found there, ending after its whitespace run, with the two characters as groups |
| ReSub.DashBetweenMatch | plugins/anistrm/__init__.py:168 | `(CJK)\s*-(CJK)` occurring at `i` is found there, with the two CJK characters as groups |
| ReSub.RunsMatch | plugins/test.py:37-40 | `(X+)\s+(Y+)` occurring at `i` is found with the maximal runs as groups |
| ReSub.TripleMatch | plugins/test.py:35 | `(CJK+)\s+([a-zA-Z0-9]+)\s*(CJK+)` matches maximal runs and groups exactly the three runs |
| TitleCleaner.CleanFilename | plugins/anistrm/__init__.py:135-172 | the fold and then the five passes in source order; its properties are stated by TitleCleaner.CleanRemovesFullwidth, CleanNeverLonger, CleanKeepsPlainTitle and the worked examples below |
| TitleCleaner.CleanRemovesFullwidth | plugins/anistrm/__init__.py:137-172 | no character of the full-width table survives cleaning |
| TitleCleaner.CleanNeverLonger | plugins/anistrm/__init__.py:158-172 | a cleaned title is never longer than the title |
| TitleCleaner.CleanKeepsPlainTitle | plugins/anistrm/__init__.py:158-172 | a title with no table character and no CJK character comes back unchanged |
| TitleCleaner.SpacesAroundWordRemoved | plugins/anistrm/__init__.py:162-166 | CJK + space + ASCII word + space + CJK becomes CJK + word + CJK, as "测试 test 剧集" becomes "测试test剧集" |
| TitleCleaner.MixedSecondPass | plugins/anistrm/__init__.py:165 | `(CJK)\s+([a-zA-Z0-9])` joins the word to the CJK before it |
| TitleCleaner.MixedThirdPass | plugins/anistrm/__init__.py:166 | `([a-zA-Z0-9])\s+(CJK)` joins the word to the CJK after it |
| TitleCleaner.HyphenBetweenBecomesSpace | plugins/anistrm/__init__.py:167-170 | a hyphen between CJK characters, any whitespace before it included, becomes one space, because the between-rule runs before the deletion (an ideographic space is folded to a plain one first) |
| TitleCleaner.TrailingHyphenDropped | plugins/anistrm/__init__.py:169-170 | a hyphen after a CJK character is deleted, as "霸道-" becomes "霸道" |
| TitleCleaner.NotIdempotent | plugins/anistrm/__init__.py:162-163 | each match consumes both CJK neighbours, so "中 文 字" becomes "中文 字", and cleaning that again gives "中文字" |
| ScratchCleaner.CleanFilename | plugins/test.py:3-47 | the fold and then the six passes in source order; its properties are stated by ScratchCleaner.CleanRemovesFullwidth, CleanNeverLonger, CleanKeepsPlainTitle and the worked examples below |
| ScratchCleaner.CleanRemovesFullwidth | plugins/test.py:28-45 | no character of the full-width table survives cleaning |
| ScratchCleaner.CleanNeverLonger | plugins/test.py:28-47 | a cleaned title is never longer than the title |
| ScratchCleaner.CleanKeepsPlainTitle | plugins/test.py:28-47 | a title with no table character and no CJK character comes back unchanged |
| ScratchCleaner.JoinAroundWord | plugins/test.py:35-36 | the three-group rule joins CJK + space + word + space + CJK in one match |
| ScratchCleaner.SpacesAroundWordRemoved | plugins/test.py:34-40 | "测试 test 剧集" becomes "测试test剧集" through the three-group join |
| ScratchCleaner.HyphenBetweenBecomesSpace | plugins/test.py:43-45 | a hyphen between CJK characters, any whitespace before it included, becomes one space (an ideographic space is folded to a plain one first) |
| ScratchCleaner.TrailingHyphenDropped | plugins/test.py:45 | a hyphen after a CJK character is deleted |
| ScratchCleaner.OneHyphenPerCjk | plugins/test.py:45 | matches do not overlap, so only one of two hyphens after a CJK character is deleted |
| ScratchCleaner.SpaceBetweenCjkRemoved | plugins/test.py:32 | whitespace between two CJK characters is removed, as "中 文" becomes "中文" |
| UrlFormat.ConvertUrlFormat | plugins/anistrm/__init__.py:296-306 | the three branches in order: with a `?d=mp4`, every one is replaced by `.mp4?d=true`; otherwise a URL ending in `.mp4` gets `?d=true` and any other gets `.mp4?d=true`, so the URL is extended, never changed, and ends in `.mp4?d=true` |
| UrlFormat.ShapeUrl | plugins/anistrm/__init__.py:273-276 | a URL in the playable shape is kept, any other is converted, and one without `?d=mp4` always ends in the playable shape |
| UrlFormat.IsUrlFormatValid | plugins/anistrm/__init__.py:292-294 | `endswith('.mp4?d=true')`; its properties are stated by UrlFormat.ConvertUrlFormat, UrlFormat.ShapeUrl, UrlFormat.QueryRewritten and UrlFormat.RewrittenValid |
| UrlFormat.ShapeSettles | plugins/anistrm/__init__.py:273-276 | shaping a URL without `?d=mp4` twice gives what shaping it once gives |
| UrlFormat.QueryRewritten | plugins/anistrm/__init__.py:298-300 | `base?d=mp4tail` becomes `base.mp4?d=truetail`, which is in the playable shape exactly when the tail is empty |
| Quoting.Quote | plugins/anistrm/__init__.py:227 | UTF-8 encoding followed by percent-encoding of every byte outside the unreserved set; its properties are stated by Quoting.QuoteAlphabet, QuoteKeepsUnreserved, UnquoteQuoteBytes and QuoteInjective |
| Quoting.Utf8RoundTrip | plugins/anistrm/__init__.py:227 | the UTF-8 encoding that `quote` works on decodes back to the name |
| Quoting.QuoteAlphabet | plugins/anistrm/__init__.py:227-228 | a quoted name holds only unreserved characters and `%XX` escapes, never `/` or `?`, so a folder URL gains exactly one path segment |
| Quoting.QuoteKeepsUnreserved | plugins/anistrm/__init__.py:227 | a name of letters, digits and `_.-~` is quoted as itself |
| Quoting.UnquoteQuoteBytes | plugins/anistrm/__init__.py:266 | percent-decoding recovers the bytes that were quoted |
| Quoting.QuoteInjective | plugins/anistrm/__init__.py:266-268 | distinct names give distinct quoted names, hence distinct source URLs |
| Decimal.ParseInt | plugins/anistrm/__init__.py:190-191 | parsing succeeds exactly on non-empty ASCII digit strings and gives a non-negative value |
| Decimal.ParseRendered | plugins/anistrm/__init__.py:210 | parsing `f'{n}'` gives back `n` |
| Season.Split | plugins/anistrm/__init__.py:186 | `split('-')` gives at least one part and no part holds the separator |
| Season.JoinSplit | plugins/anistrm/__init__.py:186 | joining the parts of a split with the separator gives back the string |
| Season.SplitJoin | plugins/anistrm/__init__.py:186 | splitting a join of separator-free parts gives back the parts |
| Season.ValidateCustomSeason | plugins/anistrm/__init__.py:180-196 | the override check, any failure of `split` or `int` counting as rejection; its meaning is stated by Season.ValidateMeaning and Season.ValidateSeasonId |
| Season.ValidateMeaning | plugins/anistrm/__init__.py:180-196 | a season is accepted exactly when it is `year-month` in plain digits with a month in {1, 4, 7, 10} and a year above 2000 |
| Season.ValidateSeasonId | plugins/anistrm/__init__.py:190-210 | `f'{year}-{month}'` is accepted exactly when the month starts a quarter and the year is above 2000 |
| Season.LatestQuarterStart | plugins/anistrm/__init__.py:207-211 | the scan's answer is the largest quarter-start month not above the month, and there is none below month 1 |
| Season.SeasonFor | plugins/anistrm/__init__.py:198-211 | a valid override when overrides are on, otherwise the quarter holding the given or current month; stated by Season.OverrideUsed, Season.OverrideIgnored, Season.LatestQuarterStart, Season.ComputedSeasonValid and AniStrm.Plugin.GetAniSeason |
| Season.OverrideUsed | plugins/anistrm/__init__.py:200-203 | with overrides switched on, a valid override is returned verbatim, whatever the month |
| Season.OverrideIgnored | plugins/anistrm/__init__.py:200-211 | an override that is switched off, missing or invalid (such as `2025-2`) is ignored, and the season holds month `3*((m-1)/3)+1` of the current year |
| Season.ComputedSeasonValid | plugins/anistrm/__init__.py:198-211 | for a month 1..12 a season is always chosen and, after 2000, it would itself pass as an override |
| Retry.DelayIsPower | plugins/anistrm/__init__.py:44-46 | the j-th sleep lasts `delay * backoff^j` |
| Retry.RetryFrom | plugins/anistrm/__init__.py:21-53 | the retried call as a function of the outcomes of successive calls; stated by Retry.AttemptsBound, FirstSuccessWins, AllFailReturnsDefault, ResultComesFromACall and the loop Retry.RetryCall |
| Retry.RetryCall | plugins/anistrm/__init__.py:21-53 | the loop returns what the retry function prescribes, calls at most `tries` times and never when `tries <= 0`, and sleeps once per failed call with the growing delay |
| Retry.AttemptsBound | plugins/anistrm/__init__.py:35-45 | at most `tries` calls are made, none when `tries <= 0` |
| Retry.FirstSuccessWins | plugins/anistrm/__init__.py:36-37 | the first call that returns supplies the result, after exactly that many calls |
| Retry.AllFailReturnsDefault | plugins/anistrm/__init__.py:47-49 | when every call raises, `ret` is returned after `tries` calls |
| Retry.ResultComesFromACall | plugins/anistrm/__init__.py:33-49 | the result is `ret` or the value of one of the first `tries` calls |
| Listing.Collect | plugins/anistrm/__init__.py:215-235 | the depth-first walk as a function; stated by Listing.CollectAppend, CollectConverts, CollectRaising and the loop Listing.GetFiles |
| Listing.GetFiles | plugins/anistrm/__init__.py:215-235 | the loop builds the depth-first list of converted video names (or the first conversion error) and requests each folder's quoted child URL |
| Listing.CollectAppend | plugins/anistrm/__init__.py:231 | the names of a concatenated listing are the names of its parts, spliced in order |
| Listing.CollectConverts | plugins/anistrm/__init__.py:222-235 | with a total conversion, the walk gives the converted names of exactly the `video/mp4` entries, depth first |
| Listing.CollectRaising | plugins/anistrm/__init__.py:234 | with a conversion that always raises, the walk returns only when there is no video, and then returns `[]` |
| Listing.FolderUrlsBelow | plugins/anistrm/__init__.py:224-231 | every requested folder URL extends the parent URL and ends in `/` |
| Strm.SourceUrl | plugins/anistrm/__init__.py:263-276 | a given link is shaped; an empty link raises AttributeError exactly when no season was chosen, and otherwise gives the shaped `https://<domain>/<season>/<quoted name>` |
| Strm.TouchOne | plugins/anistrm/__init__.py:262-290 | a file is created exactly when the URL can be worked out and the path neither exists nor fails to open; then that path maps to the URL and nothing else changes |
| Strm.TouchEach | plugins/anistrm/__init__.py:308-325 | the counting loop as a function; stated by Strm.TouchEachGrows, TouchEachPaths, DistinctNamesBound, TouchEachCovers, SecondRunCreatesNothing, TouchEachStops, TouchEachNoError and the loop AniStrm.Plugin.TouchAll |
| Strm.TouchEachGrows | plugins/anistrm/__init__.py:308-325 | no file is lost or rewritten; the count equals the number of new files, so it is at most the number of items |
| Strm.TouchEachCovers | plugins/anistrm/__init__.py:314-324 | after a run without error, each item's path exists or cannot be written |
| Strm.SecondRunCreatesNothing | plugins/anistrm/__init__.py:308-325 | a second run over the same items creates nothing |
| Strm.DuplicateCreatesOnce | plugins/anistrm/__init__.py:279-282 | two items with the same name appended one after the other to a run add at most one file to its count; the bound for repeated names anywhere in the items is Strm.DistinctNamesBound |
| Strm.TouchEachPaths | plugins/anistrm/__init__.py:279-286 | a run creates no file outside the strm paths its items name |
| Strm.DistinctNamesBound | plugins/anistrm/__init__.py:279-286 | a run creates at most one file per distinct name, however often a name repeats |
| Strm.TouchEachStops | plugins/anistrm/__init__.py:314-316 | the first touch that raises ends the run |
| Strm.TouchEachNoError | plugins/anistrm/__init__.py:263-268 | a run raises only for an empty link before any season was chosen |
| AniStrm.ConvertTitle | plugins/anistrm/__init__.py:174-178 | the title cleaned as intended, then converted by OpenCC when that is on; stated by AniStrm.ConvertTitleCleans, CorrectedFeedList and CorrectedSeasonList |
| AniStrm.ConvertTitleCleans | plugins/anistrm/__init__.py:174-178 | without the traditional conversion a converted title has no table character, is no longer, and a plain title is kept |
| AniStrm.ConvertTitleAsWritten | plugins/anistrm/__init__.py:174-175 | every call raises TypeError; what that does to the listings is stated by AniStrm.AsWrittenListsEmpty |
| AniStrm.ReplaceHost | plugins/anistrm/__init__.py:258 | `link.replace("resources.ani.rip", domain)`; stated by AniStrm.FeedHostRewritten and AniStrm.FeedLinkKept |
| AniStrm.FeedHostRewritten | plugins/anistrm/__init__.py:258 | a link on `resources.ani.rip` is moved to the configured domain, the path kept |
| AniStrm.FeedLinkKept | plugins/anistrm/__init__.py:258 | a link not mentioning the feed host is kept |
| AniStrm.MapFeed | plugins/anistrm/__init__.py:251-260 | the feed items built from `(title, link)` pairs, the first raising conversion aborting the list; stated by AniStrm.MapFeedConverts and AniStrm.MapFeedRaising |
| AniStrm.MapFeedConverts | plugins/anistrm/__init__.py:251-260 | with a total conversion, every feed item is kept in order with its title converted and its link rewritten |
| AniStrm.MapFeedRaising | plugins/anistrm/__init__.py:251-259 | with a conversion that always raises, only an empty feed gives a list |
| AniStrm.AsWrittenListsEmpty | plugins/anistrm/__init__.py:135-178 | as written, both retried listings always come back `[]`, and a task over them creates nothing |
| AniStrm.CorrectedFeedList | plugins/anistrm/__init__.py:240-260 | with the conversion corrected, the first successful feed fetch supplies every item, converted and moved to the domain |
| AniStrm.CorrectedSeasonList | plugins/anistrm/__init__.py:213-238 | with the conversion corrected, the first successful folder fetch supplies the converted video names |
| AniStrm.CorrectedListsKeepEntries | plugins/anistrm/__init__.py:213-260 | with the conversion corrected, each list is as long as what its first successful fetch holds, the counterpart of AniStrm.AsWrittenListsEmpty |
| AniStrm.FullAddNeverRaises | plugins/anistrm/__init__.py:319-322 | once the season is chosen, touching unlinked names never raises |
| AniStrm.Plugin.constructor | plugins/anistrm/__init__.py:76-87 | a plugin starts with its configuration and with no season chosen |
| AniStrm.Plugin.GetAniSeason | plugins/anistrm/__init__.py:198-211 | the downward scan returns the chosen season and stores it, leaving the filesystem alone |
| AniStrm.Plugin.TouchStrmFile | plugins/anistrm/__init__.py:262-290 | the result and the new filesystem are those of one touch, and the season is unchanged |
| AniStrm.Plugin.TouchAll | plugins/anistrm/__init__.py:309-325 | the counting loop ends with the filesystem, count and error of a run over the items |
| AniStrm.Plugin.Task | plugins/anistrm/__init__.py:308-325 | a task fetches through the retry, touches one file per entry, and reports the count or the error that stopped it |

## Left out

- Scheduling and the plugin life cycle (`init_plugin`, `stop_service`, the config form and page) are framework glue. The configuration defaults of `init_plugin` are not modelled. The plugin is built from its fields.
- HTTP fetches, JSON decoding and XML parsing are foreign I/O. The k-th fetch of the feed is given as a list of `(title, link)` pairs or an error. The k-th fetch of the season folder is given as a listing tree or an error. A missing `files` or `name` key is one of those errors.
- OpenCC's traditional-to-simplified conversion is an opaque library. It is a parameter.
- `time.sleep`, `datetime.now` and logging are left out. Sleeps are recorded in a ghost log. The year and month are passed in. The one-second pause before each folder request is not recorded.
- A negative delay, on which `time.sleep` would raise, is not modelled. The retry uses the fixed delay 3.
- Decimal.ParseInt: accepts only plain ASCII digits. Python's `int()` also accepts a sign, surrounding whitespace, underscores and other Unicode digits, so a few exotic overrides such as `" 2025-1"` are rejected here but accepted by the plugin.
- `os.path.exists` and `open` are a path-to-content map plus a set of paths that fail to open. A partial write before an exception is not modelled, and neither are directories or permissions that change during a run.
- The `None` link default and the empty link are the same here. Both are falsy at line 263.
- AniStrm.Plugin.Task: chooses the season once, before the retried folder listing. The plugin chooses it again inside each attempt (line 237). With the clock passed in, every attempt chooses the same season, so the stored season and the listing are the same.
- AniStrm.Plugin.Task: calls the conversion as corrected (AniStrm.ConvertTitle). The as-written behaviour is stated by AniStrm.AsWrittenListsEmpty.
- AniStrm.ConvertTitleCleans: states nothing about titles converted with OpenCC, because the converter is opaque.
- The worked examples of both cleaners are stated for any CJK characters and any ASCII word, not for the literal characters of the comments. The literal strings are instances.
- `\s` is Python's `str.isspace` set written out. Python 3's `re` module uses that set for `str` patterns.
- The plugin's UI helpers (`get_form`, `get_page`, `get_state`, `get_command`, `get_api`) and the script entry point are not part of this model.

## Findings

| source | as written | input that shows it | evidently intended | confidence | as-written member | corrected member |
|---|---|---|---|---|---|---|
| plugins/anistrm/__init__.py:175 | `_clean_filename` is declared at line 135 with the single parameter `filename` and no `self` or `@staticmethod`. `self._clean_filename(title)` therefore passes two arguments and raises TypeError on every call. The retry at lines 213 and 240 swallows it, sleeps, and after three attempts returns `[]`. | any feed with one item, or any season folder holding one `video/mp4` file | the title is cleaned (a static method) and the listing is returned, so strm files get created | not executed | AniStrm.AsWrittenListsEmpty | AniStrm.CorrectedFeedList, AniStrm.CorrectedSeasonList, AniStrm.CorrectedListsKeepEntries |
