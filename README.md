# rssToTwitter, modelled in Dafny

rssToTwitter polls RSS/Atom feeds and publishes each new entry as a short
post. It keeps one watermark per feed: the id and date of the latest entry
it handled. It remembers these between runs in a store file of
`NAME|id|time` lines. A run works in five steps:

1. Read the configuration (credentials and global settings from the
   environment, one service per section of the configuration files).
2. For every configured feed, select the entries newer than the watermark,
   at most `numPosts` of them.
3. Compose a text for each selected entry and buffer it, until the run-wide
   cap `numToProcessAtOneTime` is reached.
4. Flush the buffer, recording one success flag per item.
5. Reduce the flushed keys to the newest one per feed, write those
   watermarks into the store and write the store out.

The project models the modules that do this work, one Dafny module per
source file:

- `Util`: `util.encode`, the key normalisation.
- `DataStore`: the watermark store and its line format.
- `FeedConfig`: the configuration object.
- `TwitterPost`: the text composer and the publish buffer.
- `ProcessRss`: entry selection, the capped prepare loop, the reduction
  and the write-back.
- `ProcessRssLegacy`: the earlier selector and composer in
  `src/processRss.py`.

`PyStr` and `Wrappers` hold the pieces of Python's string and integer
behaviour the code relies on, and the `Option`/`Result` types. Each Python
exception becomes an `Error` value.

The network, the clock, the file system and the publishing service are
inputs:

- a feed is a value with an optional status and entries, and `fetch` maps
  a url to one;
- `now` stands for the current time;
- the store file is its sequence of lines;
- `respond(i)` is the status the service answers for the `i`-th buffered
  item, and `postOk(n)` says whether the legacy poster accepts its `n`-th
  post.

State the source changes in place is modelled as classes:

- `DataStore.Store` holds the records dictionary;
- `FeedConfig.Config` holds the services dictionary and its key order;
- `TwitterPost.Publisher` holds the buffer.

The loops of the source are methods with loop invariants, each proved
against a specification function whose properties are proved as lemmas.

`src/data_store.py` is Python 2 code (`file`, `long`), while the rest of
the core is Python 3 (`urllib.parse` in `src/twitter_post.py`,
`configparser` in `src/feed_config.py`). Under Python 3 the store's
`file` and `long` (src/data_store.py:68, 73, 95) raise NameError, and
`len(map(...))` (src/data_store.py:107) raises TypeError. The model reads
the store with Python 2 semantics, the only ones under which it works:
`long()` accepts a trailing `L`, and `map` builds a list. Dictionary order is unspecified, so wherever the source iterates
over a dictionary, the model states its result for every order
(`WriteStore` returns the order it used as a ghost value).

## Model

| member | source | states |
|---|---|---|
| Util.Encode | test/test_util.py:6-14 | `None`, the empty string and blank names give `None`. Any other name gives a non-empty, stripped name with no lower-case letters. |
| Util.EncodeIdempotent | test/test_util.py:10-13 | Encoding an encoded name gives it back, so a stored key is found again through `encode`. |
| Util.NormalisedIsFixedPoint | test/test_util.py:10 | A name is its own encoding exactly when it is non-empty, stripped and has no lower-case letters. |
| Util.EncodeBlankExamples | test/test_util.py:7-9 | `None`, `""` and `" "` encode to `None`. |
| Util.EncodeCaseExamples | test/test_util.py:10-13 | `"test"`, `"Test"` and `" Test "` encode to `"TEST"`. |
| Util.EncodeInnerBlankExample | test/test_util.py:14 | `" Test test "` encodes to `"TEST TEST"`: inner blanks survive. |
| Util.EncodePadded | test/test_util.py:13-14 | A visible name with blank padding on both sides encodes to the upper-cased name. |
| PyStr.ParseInt | src/data_store.py:73 | After stripping blanks (and, for `long`, one trailing `L` or `l`), the text parses exactly when it is an optional `+` or `-` followed by at least one decimal digit, and its value is that signed number. Any other text gives `None` (the ValueError). |
| PyStr.ParsePaddedNumeral | src/data_store.py:73 | A signed numeral with blanks around it parses to its value, and so does the same numeral with an `L` suffix for `long`. |
| PyStr.ParseFormatRoundTrip | src/data_store.py:98 | What `'%i' % n` writes, `long()` reads back as `n`, for every integer `n`. |
| DataStore.SerializeLineAsWritten | src/data_store.py:96-100 | The writer as written fails exactly for a null record, on the attribute read. |
| DataStore.SerializeLine | src/data_store.py:96-100 | For every record that is present, it writes the same line as the source. |
| DataStore.RecordFrom | src/data_store.py:73-81 | A line fails with ValueError on its time field exactly when that field is non-empty and not an integer. Otherwise the record is built exactly when the id is non-empty and the time is a non-zero integer, and it then carries the section's name, the id and the parsed time. Any other line gives the null record. |
| DataStore.ParseLine | src/data_store.py:70-81 | The key of a parsed line is an encoded name, and a record it builds is named after that key. |
| DataStore.ReadLines | src/data_store.py:69-81 | Reading lines keeps every key of the dictionary an encoded name. |
| DataStore.LineFields | src/data_store.py:70-99 | A written line (visible name, no `\|` in any field) strips and splits back into its three fields. |
| DataStore.LineRoundTrip | src/data_store.py:70-100 | Parsing the line written for a key gives back the key and its record (renamed after the key) when both fields are present, and the null record otherwise. |
| DataStore.NullRecordCannotBeRewritten | src/data_store.py:79-97 | A null record read from a line is written by the corrected writer as `NAME\|\|` and reads back null, while the writer as written raises on it. |
| DataStore.ReadWrittenLines | src/data_store.py:69-81 | Reading the written lines raises nothing and stores each key's read-back record in turn. |
| DataStore.StoreRoundTrip | test/test_data_store.py:45-64 | Reading back everything the store wrote raises nothing and gives the same keys, each with its record when both fields were present and the null record otherwise (for names and ids without `\|` or line breaks). |
| DataStore.WritingExample | test/test_data_store.py:32-56 | `T1` with no fields is written `T1\|\|`. `T3` with only an id is written `T3\|id3\|` and reads back null. |
| DataStore.Store.constructor | src/data_store.py:13-15 | A new store is empty and remembers its dry-run flag. |
| DataStore.Store.Get | src/data_store.py:31-37 | `__getitem__` finds the record under the encoded name exactly when that key exists, and otherwise raises KeyError on the encoded name. |
| DataStore.Store.Len | src/data_store.py:39-44 | `len` is zero exactly when every lookup raises KeyError, that is when the store has no key. A key holding the null record counts. |
| DataStore.Store.Lookup | src/process_rss.py:112 | The run's lookup agrees with `__getitem__` where that finds a key, and gives the null record where it raises. |
| DataStore.Store.Set | src/data_store.py:17-29 | `__setitem__` raises SystemError with the source's messages for a falsy name or a missing record, and then nothing changes. Otherwise only the encoded key is updated, every spelling that encodes the same finds the record, and `len` grows by one exactly for a new key. |
| DataStore.Store.ReadStore | src/data_store.py:56-81 | With no file the store is empty. Otherwise the store and the error are those of reading the lines in order from an empty dictionary, and every key stays encoded. |
| DataStore.Store.WriteStore | src/data_store.py:83-108 | In a dry run nothing is written and the count is the length of the list passed in. Otherwise each key is written once, as its line, and the count equals the store's size. |
| DataStore.FreshStoreLookupRaises | src/process_rss.py:112 | On an empty store, `__getitem__` raises KeyError for every name, while the run's lookup gives the null record. |
| FeedConfig.MainFrom | src/feed_config.py:44-47 | The cap is 15 when `TWEETS_AT_ONE_TIME` is unset, its integer value when it parses, and a ValueError otherwise. The store path is `STORE_FILE_NAME` or `~/.twStore`, as given, before `os.path.expanduser` (not modelled). |
| FeedConfig.EmptyEnvironmentDefaults | src/feed_config.py:44-66 | With nothing set: MAIN is (15, `~/.twStore`, before `os.path.expanduser`), AWS is (None, None, `rsstotwitter`, `.twStore`), no credential is present, `sslmode` is false, and all four credentials are listed as missing. |
| FeedConfig.Validate | src/feed_config.py:122-139 | `_validate` raises nothing exactly when all four credentials are truthy. Otherwise it raises SystemError with the source's message, naming the missing ones comma-joined. |
| FeedConfig.JoinSnoc | src/feed_config.py:128-134 | Appending a label adds `,label` to a non-empty joined list and gives the label alone for an empty one, as each `twitterError` update does. |
| FeedConfig.AllMissingMessage | test/test_feed_config.py:67-79 | With no credential set, the list reads `app key,app secret,user key,user secret`. |
| FeedConfig.MissingListsExactlyTheFalsy | src/feed_config.py:124-134 | Each label is listed exactly when its credential is falsy. |
| FeedConfig.SectionService | src/feed_config.py:77-86 | A section becomes a service named by its encoded section name, with its `url`. A missing url raises NoOptionError. A non-numeric `numPosts` raises ValueError, and an absent one is `None`. |
| FeedConfig.ReadSections | src/feed_config.py:76-87 | Reading sections keeps the services dictionary and its key order in step: each key is listed once and names its service. |
| FeedConfig.AddKeepsWellFormed | src/feed_config.py:86 | Storing a service under its own encoded name keeps the dictionary and its order in step. |
| FeedConfig.DistinctKeysCount | src/feed_config.py:102 | The key order has as many names as the dictionary has keys. |
| FeedConfig.Config.constructor | src/feed_config.py:41-66 | The global records are kept, and there are no services yet. |
| FeedConfig.Config.ReadConfig | src/feed_config.py:76-87 | The services, their order and the error are those of reading the sections in order, and the object stays well formed. |
| FeedConfig.Config.Get | src/feed_config.py:89-95 | `__getitem__` finds the service under the encoded name, named by that name, exactly when that key exists, and otherwise raises KeyError. |
| FeedConfig.Config.Services | src/feed_config.py:97-102 | `services()` lists exactly the configured keys, each once. |
| FeedConfig.Config.GlobalConfig | src/feed_config.py:104-120 | MAIN, TWITTER, AWS and DB each give their own record (both directions). Every other kind raises SystemError with the source's message. |
| FeedConfig.GetIgnoresCaseAndPadding | src/feed_config.py:89-95 | A padded, mixed-case name finds the same service as its upper-cased core. |
| FeedConfig.Open | src/feed_config.py:41-74 | A bad cap raises first. Otherwise the result is a well-formed configuration with the environment's records and the read sections, and it is returned exactly when every section reads and no credential is missing. |
| TwitterPost.GeneratePostAsWritten | src/twitter_post.py:56-67 | The composer as written raises TypeError exactly for a missing title, and any text it gives is non-empty and stripped. |
| TwitterPost.Cut | src/twitter_post.py:58-62 | A long title is cut at 110 characters at most with a link, and 135 without one. |
| TwitterPost.GeneratePost | src/twitter_post.py:56-67 | The text is non-empty and stripped. There is none exactly when a short title and the link are both blank. It is at most 114 characters plus the link (139 without a link). |
| TwitterPost.ComposedBlank | src/twitter_post.py:57-65 | The unstripped text is blank exactly when the title is short and blank and the link is blank. |
| TwitterPost.ShortTitleWithLink | src/twitter_post.py:57-67 | A non-empty title of at most 110 characters and a non-empty link, both without surrounding blanks, give `title + ' ' + link`. |
| TwitterPost.ShortTitleWithoutLink | src/twitter_post.py:57-67 | Without a link, a non-empty title of at most 110 characters and without surrounding blanks is posted as it is. |
| TwitterPost.LongTitleWithLink | src/twitter_post.py:58-64 | A longer title is cut at the last blank in its first 110 characters, then `... ` and the whole link follow. |
| TwitterPost.LongTitleWithoutLink | src/twitter_post.py:58-64 | Without a link, the cut moves 25 characters further and the text ends in `...`. |
| TwitterPost.NoTitleGivesLink | src/twitter_post.py:57 | The corrected composer posts an entry without a title as its stripped link, or nothing when the link is blank. |
| TwitterPost.RFindMissLeavesTitleUncut | src/twitter_post.py:59-62 | As written, a 200-letter title with no blank and a link is cut at index -1: the text is 204 characters, while the corrected one is at most 115. |
| TwitterPost.RFindMissWithoutLink | src/twitter_post.py:59-62 | As written, the same title without a link is cut at -1 + 25 = 24 and gives 27 characters; the corrected composer cuts at 135 and gives 138. |
| TwitterPost.NoTitleRaises | src/twitter_post.py:57 | As written, a missing title raises TypeError. The corrected composer treats it as the empty title. |
| TwitterPost.AgreesWhenBlankFound | src/twitter_post.py:56-67 | Wherever the source finds a blank to cut at (or does not cut), the corrected composer gives the same text. |
| TwitterPost.Outcomes | src/twitter_post.py:38-54 | A flush reports exactly the buffered keys. |
| TwitterPost.Texts | src/twitter_post.py:39-46 | The texts sent are the buffered texts, in buffer order. |
| TwitterPost.OutcomeOfLastItem | src/twitter_post.py:44-51 | A key's result is decided by its last buffered item alone: true in a dry run, otherwise exactly when the status is `"200"`. A failure of another item changes nothing for it. |
| TwitterPost.DryRunAllPublished | src/twitter_post.py:44-45 | In a dry run every reported key is true. |
| TwitterPost.Publisher.constructor | src/twitter_post.py:16-26 | A new publisher has an empty buffer and remembers its dry-run flag. |
| TwitterPost.Publisher.Prepare | src/twitter_post.py:69-81 | `prepare` answers True exactly when there is a text. It then appends `(key, text)` to the end of the buffer, and otherwise leaves the buffer unchanged. |
| TwitterPost.Publisher.Post | src/twitter_post.py:28-54 | `post` reports the outcomes of the whole buffer and sends every text, in order, except in a dry run. The buffer is empty afterwards. |
| TwitterPost.SingleItemOutcome | src/twitter_post.py:38-54 | Flushing one item reports that item alone. |
| TwitterPost.SecondFlushReportsOnlyNewItems | test/test_twitter_post.py:54-74 | After a flush, a second flush reports only the item prepared since. |
| ProcessRss.GetIdFromPost | src/process_rss.py:19-27 | The id is the non-empty id, else the non-empty link, else the non-empty title, else `None`, in that priority. |
| ProcessRss.WindowLen | src/process_rss.py:43-45 | The window is `min(len, num_posts)` for a positive cap and the whole feed for a falsy one. A negative cap drops entries from the end, as the slice does. |
| ProcessRss.FirstMatch | src/process_rss.py:44-48 | The index of the first window entry whose id is the target, or the window's length: every earlier entry differs. |
| ProcessRss.Cutoff | src/process_rss.py:43-48 | The number of entries kept never exceeds the window. |
| ProcessRss.CleanupFeeds | src/process_rss.py:30-50 | The scan returns exactly the selection: nothing for a missing or empty feed, otherwise the window cut at the first hit, oldest first. |
| ProcessRss.NothingFromEmptyFeed | src/process_rss.py:40-41 | A missing or empty feed selects nothing, whatever the record and the cap. |
| ProcessRss.NoMatchKeepsWindow | src/process_rss.py:43-50 | With no record, or no hit in the window, the whole window is kept, reversed. |
| ProcessRss.NoCapKeepsAll | src/process_rss.py:43-50 | With a falsy cap and no hit, every entry is kept, reversed. |
| ProcessRss.MatchKeepsNewer | src/process_rss.py:44-50 | A first hit at window position `i` keeps `entries[:i]` reversed, and nothing when `i` is 0, whether or not the record has a timestamp. |
| ProcessRss.SelectedIsReversedPrefix | src/process_rss.py:43-50 | The selection is always a prefix of the feed, reversed, no longer than the window. |
| ProcessRss.CleanupOneEntryExamples | test/test_process_rss.py:102-108 | A record with the entry's id selects nothing, with or without a timestamp. Any other record selects the entry. |
| ProcessRss.NotValid | src/process_rss.py:150-157 | A feed is skipped exactly when its status is not 200, which includes a feed without a status. |
| ProcessRss.DateOf | src/process_rss.py:53-62 | An entry's date is its `published_parsed` time when it has one, and `now` otherwise. |
| ProcessRss.TextOf | src/process_rss.py:74-81 | The text prepared for an entry is non-empty and stripped. There is none exactly when its title is at most 110 characters and blank and its link is blank. |
| ProcessRss.Offers | src/process_rss.py:119-123 | One offer per selected entry. |
| ProcessRss.OffersOfEntries | src/process_rss.py:119-123 | The `i`-th offer is the `i`-th selected entry's key and text. |
| ProcessRss.CandidatesFromServices | src/process_rss.py:110-123 | Every offer of a run belongs to a configured feed. |
| ProcessRss.AllPrepared | src/process_rss.py:123 | Without a cap, no more items are buffered than are offered. |
| ProcessRss.AllPreparedFromOffers | src/process_rss.py:123 | Every buffered item was offered, with its text. |
| ProcessRss.PreparedIsCappedPrefix | src/process_rss.py:119-127 | The capped loop buffers exactly the first `cap - count` items the uncapped loop would buffer, and skips everything after. |
| ProcessRss.PreparedWithinCap | src/process_rss.py:109-127 | At most `numToProcessAtOneTime` items are buffered, each of them offered. Below the cap, every offer with a text is buffered. |
| ProcessRss.PreparedConcat | src/process_rss.py:109-127 | The count runs on across feeds: the items of two feeds' offers are those of the first, then those of the second counted from where the first stopped. |
| ProcessRss.PreparedAtCap | src/process_rss.py:120-121 | Once the cap is reached nothing more is buffered. |
| ProcessRss.ConfiguredServices | src/process_rss.py:110-111 | The configured services, in the order of `services()`. |
| ProcessRss.PrepareAll | src/process_rss.py:109-127 | The prepare loop leaves exactly the capped items of all feeds' offers in the buffer, in configuration order, and returns their number. |
| ProcessRss.PrepareService | src/process_rss.py:111-127 | For one feed: a feed that is not valid adds nothing, and otherwise its selected entries are offered up to the cap. |
| ProcessRss.PrepareFeed | src/process_rss.py:119-124 | The inner loop appends exactly the capped items of the feed's offers. |
| ProcessRss.Reduce | src/process_rss.py:134-139 | There is one winner for exactly the feeds with results, and each winner carries the latest date among its feed's keys, whether it was published or not. This is proved for every visiting order. |
| ProcessRss.ReduceStep | src/process_rss.py:138-139 | One comparison keeps each winner the latest of the keys seen so far. |
| ProcessRss.WrittenBackStep | src/process_rss.py:141-143 | Writing one more winner under a new name keeps the store equal to the old store plus the winners' watermarks. |
| ProcessRss.WriteBack | src/process_rss.py:141-143 | The write-back fails exactly when some winning feed has no name. Otherwise each winner's feed holds its watermark and every other record is unchanged. |
| ProcessRss.ReducedAndWritten | src/process_rss.py:134-143 | Reducing and then writing back leaves each feed with results holding one of its latest results' watermark, each other feed unchanged, and no other name. |
| ProcessRss.FromConfig | src/process_rss.py:109-132 | The feeds with results in a run come from the configuration, so no two share a name and every name is encoded. |
| ProcessRss.WinnersNamedUniquely | src/process_rss.py:134-139 | The winners of uniquely named results are uniquely named. |
| ProcessRss.BufferedWasOffered | src/process_rss.py:119-132 | Every key a flush reports was offered in the run. |
| ProcessRss.WinnersNamed | src/process_rss.py:134-143 | Some winning feed lacks a name exactly when some result's feed does. |
| ProcessRss.Record | src/process_rss.py:134-148 | After the flush, the store is watermarked exactly as `ReducedAndWritten` states, unless a feed has no name. Unless in a dry run, the lines written are exactly the store's lines, one per key and each key once. |
| ProcessRss.Process | src/process_rss.py:83-148 | A run sends the texts of the capped items (none in a dry run). It succeeds exactly when every feed with results is named, then leaves every such feed with a watermark of one of its latest results (failed posts included) and the others untouched. Unless in a dry run, it writes exactly the store's lines, one per key and each key once. |
| ProcessRssLegacy.AllSpaceConcat | src/processRss.py:21-27 | A concatenation is blank exactly when both parts are. |
| ProcessRssLegacy.GeneratePost | src/processRss.py:20-30 | The text is non-empty and stripped. There is none exactly when the title's head and the link are blank. It is at most 121 characters plus the link. |
| ProcessRssLegacy.ShortTitleWithLink | src/processRss.py:20-30 | A non-empty title of at most 120 characters and a non-empty link, both without surrounding blanks, give `title + ' ' + link`. |
| ProcessRssLegacy.LongTitleWithLink | src/processRss.py:23 | A longer title is cut to its first 120 characters. |
| ProcessRssLegacy.TitleWithoutLink | src/processRss.py:22-27 | Without a link, the trailing space is stripped away. |
| ProcessRssLegacy.NothingToPost | src/processRss.py:27-29 | No title and no link give no text. |
| ProcessRssLegacy.Walk | src/processRss.py:53-75 | The walk only appends to the texts already posted, at most one per remaining entry. It fails only with KeyError on `id` or `published_parsed`, or with TwitterException. Once a watermark is set, the walk returns it unchanged. |
| ProcessRssLegacy.ProcessPosts | src/processRss.py:53-75 | The loop's outcome and the texts it posts are exactly those of the walk over the feed from its first entry. |
| ProcessRssLegacy.Visit | src/processRss.py:56-74 | One iteration either ends the walk with its outcome, or leaves the walk from the next entry equal to the walk from this one. |
| ProcessRssLegacy.WalkContinues | src/processRss.py:56-74 | An entry that neither stops nor fails the walk posts its text, and sets the watermark if none is set yet. |
| ProcessRssLegacy.StopsAtLastProcessed | src/processRss.py:59-60 | Nothing from the last processed entry on is handled or posted. |
| ProcessRssLegacy.StopsAtNumPosts | src/processRss.py:57-58 | Entries at index `numPosts` or beyond are never handled. |
| ProcessRssLegacy.PostsAtMostOnePerEntry | src/processRss.py:56-67 | Posting only appends, at most one text per entry handled. |
| ProcessRssLegacy.NothingHandled | src/processRss.py:56-58 | With no `numPosts`, or one below 1, nothing is handled and the result is `(None, None)`. |
| ProcessRssLegacy.AllPostedInOrder | src/processRss.py:56-75 | With no watermark to stop at, room for every entry, every post accepted, and a first entry that has a truthy id and a date: every text is posted in feed order and the first entry gives the watermark. |
| ProcessRssLegacy.FirstEntryUndatedRaises | src/processRss.py:68-71 | With no watermark to stop at, room for at least one entry (`numPosts` ≥ 1) and every post accepted, a first entry without an id raises KeyError on `id`, and one with an id but no date raises KeyError on `published_parsed`. |
| ProcessRssLegacy.RefusalRaises | src/processRss.py:56-67 | At any entry the walk reaches and handles (its index is below `numPosts`, and `lastProcessedId` is falsy or differs from the entry's id, which is present), a refused post with a text stops the walk with TwitterException, after that text was appended to the texts sent. |
| ProcessRssLegacy.TwoEntryExample | test/test_processRss.py:19-63 | A feed with `numPosts` 5 posts both entries newest first, and one with `numPosts` 1 posts only the newest. Both take (`post2`, 1500527415) as the watermark. |
| ProcessRssLegacy.NextRecord | src/processRss.py:46-48 | The feed's record is replaced exactly when both the new id and date are truthy, keeping its url and `numPosts`. |

## Left out

- Network, parsing and I/O: feed fetching and parsing, the oauth2 client
  and the HTTP request, and `urlencode`. The store file's reading and
  writing and `os.path.expanduser`/`exists`. S3 and the database store, the
  configuration files' parsing (`configparser`), and `os.environ`. These
  are inputs: entry lists, a status oracle, lists of lines, a map of
  variables and a list of sections.
- Dates: `parse_published_date` and the float seconds of `total_seconds`.
  An entry's date is an integer number of seconds, and `now` stands for
  `datetime.now()`.
- `.encode('utf-8')` in `src/processRss.py` and the byte/text distinction:
  strings are sequences of characters.
- `str.strip`, `upper` and `isspace` are modelled on ASCII only.
- Logging, `print`, and the entry points: `main`, `usage`, getopt,
  `src/aws_lambda.py` and `src/clean_db.py`.
- DataStore.StoreRoundTrip: the round trip is stated for names that are
  already encoded and for names and ids without `|` or line breaks. The
  source splits an id holding `|` into further fields, and it re-reads
  the file line by line, so a name or id holding a line break does not
  round-trip either.
- DataStore.Store.WriteStore: it writes with the corrected
  `SerializeLine` (see Findings). The source raises AttributeError at
  src/data_store.py:97 on the null record that `_read_store` stores at
  src/data_store.py:81 for an incomplete line. The model writes that
  record as `NAME||`.
- TwitterPost.Publisher.Prepare: it composes with the corrected
  `GeneratePost` (see Findings). The source's `prepare` raises TypeError
  at src/twitter_post.py:57 for an entry without a title. When `rfind`
  finds no blank in the first 110 characters (src/twitter_post.py:59-62),
  the source cuts at -1, or at 24 without a link. With a link it keeps all
  but one character of a long title: a 200-letter title and the link `u`
  give 204 characters. Without a link it keeps only the first 24: the same
  title gives 27 characters. The model cuts at 110 with a link and at 135
  without one (138 characters for that title). These paths are stated
  only by `TwitterPost.NoTitleRaises`,
  `TwitterPost.RFindMissLeavesTitleUncut` and
  `TwitterPost.RFindMissWithoutLink`.
- ProcessRss.Process: it uses all three corrections: the store lookup,
  the composer and the writer. A run that meets a feed with no record,
  an entry without a title or a null record does not raise KeyError,
  TypeError or AttributeError as the source does.
- FeedConfig.MainFrom: `TWEETS_AT_ONE_TIME` parses as ASCII digits with
  an optional sign. Python 3's `int()` also accepts `_` between digits
  (`"1_5"`) and non-ASCII digits, which the model rejects. Its store path
  is the text as given (`~/.twStore` by default): `os.path.expanduser`,
  which the source applies at src/feed_config.py:44-46, is not modelled.
- FeedConfig.SectionService: `numPosts` parses as `MainFrom`'s cap does,
  so `"1_5"` and non-ASCII digits are rejected there too.
- ProcessRss.Reduce: the source visits the keys newest first
  (`sorted(..., reverse=True)`). The model does not sort; it proves the
  result for every visiting order, which includes that one. Among keys of
  one feed with equal dates, it states only that the winner is one of the
  latest.
- ProcessRss.Process: `process` returns `data`, which is always the empty
  list, because `write_store` rebinds its parameter. The model returns
  the lines written instead.
- ProcessRss.Process: the store lookup is the corrected one (see
  Findings), so a feed with no record is selected as if it had never been
  processed.
- ProcessRss.Process: as in the code and its test, a failed post still
  becomes the feed's watermark.
- The `is` comparisons (`is not 200`, `type is "MAIN"`) are modelled as
  equality.
- `src/twitterPost.py`, the older poster: it is the `postOk` oracle, which
  raises TwitterException on a refusal.
- `src/feedConfig.py`, the older configuration and store: it is not part
  of this model. The legacy `process` loop is represented only by its
  record update, `ProcessRssLegacy.NextRecord`. That file's `SERVICE` has
  fields that do not match what `src/processRss.py` and its test use; the
  model follows `src/processRss.py`.
- `src/util.py` is not part of this model. `encode` is modelled from its
  tests.
- DataStore.Store.Set: a record is "missing" only when it is `None`. A
  present record is always truthy in the source, because it is a
  three-field tuple.

## Findings

| source | as written | input that shows it | evidently intended | confidence | as-written member | corrected member |
|---|---|---|---|---|---|---|
| src/process_rss.py:112 | `store[service]` raises KeyError for a feed with no stored record | The first run, with an empty store and any configured feed | A feed with no record is processed as never seen (`cleanup_feeds` already handles a `None` record) | high, not executed | DataStore.FreshStoreLookupRaises | DataStore.Store.Lookup |
| src/twitter_post.py:57 | `data + ' '` raises TypeError when the entry has no title, and `process_posts` passes `None` | An entry with a link and no title | The link alone is posted | high, not executed | TwitterPost.NoTitleRaises | TwitterPost.NoTitleGivesLink |
| src/twitter_post.py:59-62 | With no blank in the first 110 characters, `rfind` gives -1: with a link, `data[:-1]` keeps all but one character; without one, the cut moves to 24 and `data[:24]` keeps 24 characters (`TwitterPost.RFindMissWithoutLink`) | A 200-letter title and the link `u` give a 204-character text | The title is cut to at most 110 characters, or 135 without a link | medium, not executed | TwitterPost.RFindMissLeavesTitleUncut | TwitterPost.LongTitleWithLink |
| src/data_store.py:96-100 | A null record, which `_read_store` stores for an incomplete line (lines 79-81), makes `write_store` raise on `store.lastProcessedId` | A store file holding `T3\|id3\|`, read and then written | The null record is written back as an empty record, `NAME\|\|` | medium, not executed | DataStore.NullRecordCannotBeRewritten | DataStore.SerializeLine |
