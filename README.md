# Career Forge autoposter: a Dafny model of its post and schedule logic

Career Forge posts one career tip a day. `build_rss.py` shapes a generated
payload into an RSS item: a weighted style rotation, emoji padding, a
sanitised X line of at most 230 characters, a slug-based GUID and a LinkedIn
description. Derived feeds reshape that item. `make_x_feed.py` truncates
at a word boundary. `make_li_feed.py` adds a hashtag suffix exactly once.
`make_carousel.py` wraps the latest title into slides. `build_analytics.py`
joins the feed with engagement rows and produces per-post features and a
per-feature summary. `suggest_cron.py` and `optimize_times.py` turn the
summary into posting times. `update_style_bandit.py` turns it into style
weights. `fetch_metrics.py` keeps a store of platform metrics keyed by id.
`trend_harvest.py` collects news titles without duplicates.
`backup_manager.py` keeps rolling backups of the feed, and `health_check.py`
records and summarises a fixed list of checks.

Each script is one Dafny module:

- `BuildRss` in build_rss.dfy
- `Analytics` in analytics.dfy
- `XFeed` in x_feed.dfy
- `LiFeed` in li_feed.dfy
- `Carousel` in carousel.dfy
- `TrendHarvest` in trend_harvest.dfy
- `SuggestCron` in suggest_cron.dfy
- `OptimizeTimes` in optimize_times.dfy
- `StyleBandit` in style_bandit.dfy
- `FetchMetrics` in fetch_metrics.dfy
- `BackupManager` in backup_manager.dfy
- `HealthCheck` in health_check.dfy

Four shared modules stand in for Python's own behaviour:

- `Text` covers `str.isspace`, `strip`, ASCII `lower`, `split()`, `join`, `str` ordering and integer rendering.
- `Sorting` is a stable sort, the same ordering as `sorted` and `list.sort`.
- `Grouping` is the `setdefault(k, []).append(v)` pattern: keys in first-seen order, with values in input order.
- `Wrappers` and `Seqs` hold `Option` and sequence lemmas.

Code that works by mutation keeps that form in the model:

- Loops that grow lists or maps are methods, each proved equal to a specification function.
- The backup directory is a `Disk` class whose `files` map the methods change.
- The health check object is a `HealthCheck` class with a `checks` sequence.
- The rules file is a `Rules` class with a `styleWeights` field.

The clock, random choices, the network, regular expressions with `\b`, float formatting and file parsing are all parameters of the model.

## Model

| member | source | states |
|---|---|---|
| `BuildRss.CatalogRank` | build_rss.py:33-44 | the catalog holds the ten styles, each exactly once, at its own position |
| `BuildRss.SlotOf` | build_rss.py:65 | the slot is AM exactly when the Phoenix hour is before 12 |
| `BuildRss.WeightedPool` | build_rss.py:67-76 | every style occurs in the pool exactly 1 + its bias times, where the bias is 0 for a style absent from the slot's table; the pool has 16 entries in the AM slot and 17 in the PM slot |
| `BuildRss.PoolSizes` | build_rss.py:70-76 | the AM pool totals 16 and the PM pool 17 |
| `BuildRss.ChooseStyle` | build_rss.py:77-78 | whatever index the seeded pick gives, the result is the key and description of one catalog style |
| `BuildRss.EmojiLikeExactly` | build_rss.py:87 | a character counts exactly when its code point is at least U+1F300, or it is ✅ or ⚡; the two-code-point tuple entries never equal one character |
| `BuildRss.HasEmoji` | build_rss.py:85-87 | the emoji count never exceeds the length of the text |
| `BuildRss.HasEmojiAppend` | build_rss.py:85-87 | the emoji count is additive over concatenation |
| `BuildRss.AddMinimumEmojis` | build_rss.py:89-99 | a line that already has enough emoji is returned unchanged; otherwise the result is the first shuffled palette entry, a space and the line, and when two or more are missing it ends with a space and the second entry; the length is exactly that of those pieces |
| `BuildRss.AddMinimumEmojisReaches` | build_rss.py:89-99 | when both palette entries used are counted ones and at most two are missing, the padded line reaches the minimum |
| `BuildRss.AddMinimumEmojisCanMiss` | build_rss.py:94-99 | with ✍️ and ⏱️ shuffled to the front, an emoji-free line stays at zero counted emoji: the minimum is not guaranteed |
| `BuildRss.RemoveHashtagsComplete` | build_rss.py:106 | after the hashtag pass no '#' is directly followed by a letter, digit or underscore |
| `BuildRss.SanitizeXLine` | build_rss.py:101-107 | the sanitised line has no outer whitespace, contains no hashtag, and is no longer than the line after marker removal |
| `BuildRss.SanitizeSteps` | build_rss.py:101-107 | sanitising is the four passes in source order: markers, whitespace runs, URLs, hashtags, each followed by a strip |
| `BuildRss.SanitizeCanLeaveUrl` | build_rss.py:105-106 | "https:/#a/x" sanitises to "https://x": removing the hashtag after the URL pass can create a URL |
| `BuildRss.SanitizeCanLeaveDoubleSpace` | build_rss.py:103-106 | "a #x b" sanitises to "a  b": whitespace is collapsed before tags are removed |
| `BuildRss.KeepSlugChars` | build_rss.py:81 | only word characters, whitespace and '-' survive the first slug pass |
| `BuildRss.KeepSlugCharsAppend` | build_rss.py:81 | the pass works character by character: it distributes over concatenation |
| `BuildRss.KeepSlugCharsOne` | build_rss.py:81 | a single character is kept exactly when it is a word character, whitespace or '-', and is dropped otherwise |
| `BuildRss.DashRuns` | build_rss.py:82 | no two dashes are adjacent in the result, and it starts with a dash only when the input starts with a separator |
| `BuildRss.DashRunsMerges` | build_rss.py:82 | the pass equals an independent two-step definition: every whitespace, '_' or '-' becomes '-', then each run of dashes is merged into one |
| `BuildRss.DashRunsKeepsOthers` | build_rss.py:82 | every character that is not a separator survives, in order, and no other such character appears |
| `BuildRss.DashRunsSlugChars` | build_rss.py:81-82 | after the lower-casing and the dash pass, only lower-case letters, digits and '-' remain |
| `BuildRss.Slugify` | build_rss.py:80-83 | a slug is never empty, uses only [a-z0-9-] with no doubled dash, and has at most n characters unless it is the "post" fallback |
| `BuildRss.CapXLine` | build_rss.py:247-248 | a line of at most 230 characters is untouched; a longer one becomes a prefix p of its first 229 characters followed by "…": p is all 229 when they hold no space, and otherwise ends just before a space after which no space follows within the 229 |
| `BuildRss.FieldOr` | build_rss.py:240-241 | a blank field gives the default; any other gives exactly the lower-case form of the stripped field, which is never empty, never longer than the field, and has no outer whitespace |
| `BuildRss.CleanPoints` | build_rss.py:252 | there are no more cleaned points than points, and none starts or ends with ' ', '•' or '-' |
| `BuildRss.CleanPointsAppend` | build_rss.py:252 | the comprehension handles points one at a time: it distributes over concatenation |
| `BuildRss.CleanPointsOne` | build_rss.py:252 | a blank point gives nothing, and any other gives exactly its text stripped of outer ' ', '•' and '-' |
| `BuildRss.CleanPointsCount` | build_rss.py:252 | exactly one cleaned point is kept per non-blank input point |
| `BuildRss.KeptTags` | build_rss.py:254 | the tags kept are the first min(2, number of non-empty tags) non-empty tags, in order |
| `BuildRss.Prefixed` | build_rss.py:255-256 | each bullet or tag is the prefix followed by that element, one for one |
| `BuildRss.DescriptionLayout` | build_rss.py:257-261 | the description is the non-empty parts hook, bullets, call to action and tags, in that order, separated by one blank line |
| `BuildRss.Description` | build_rss.py:251-261 | the description has no outer whitespace |
| `BuildRss.MakeItem` | build_rss.py:239-283 | the item title has at most 230 characters; style and cta are never empty and default to "unspecified" and "question"; the description has no outer whitespace; the GUID base starts with the title's 60-character slug and a dash |
| `Analytics.EmojiCount` | scripts/build_analytics.py:53-66 | the emoji count never exceeds the number of code points |
| `Analytics.EmojiCountAppend` | scripts/build_analytics.py:53-66 | the emoji count is additive over concatenation |
| `Analytics.CountEmojis` | scripts/build_analytics.py:55-66 | the counting loop returns exactly the number of code points in the emoji ranges, U+FE0F and U+200D included |
| `Analytics.HourBucket` | scripts/build_analytics.py:98-106 | the bucket is empty exactly when there is no date; every hour gets a non-empty bucket |
| `Analytics.HourBucketBands` | scripts/build_analytics.py:101-106 | each bucket name holds exactly for its hour band, both ways: 5-8 early-morning, 9-11 morning, 12-14 early-afternoon, 15-17 late-afternoon, 18-21 evening, otherwise night |
| `Analytics.HasQuestion` | scripts/build_analytics.py:74-75 | the flag is 1 exactly when the text contains '?' |
| `Analytics.QuoteCount` | scripts/build_analytics.py:77-78 | the count is zero exactly when none of `"`, `“`, `”` and `'` occurs |
| `Analytics.DashItemsBound` | scripts/build_analytics.py:81 | the line-start dash items never outnumber the '-' characters |
| `Analytics.BulletCount` | scripts/build_analytics.py:80-81 | the bullet count is at least the number of '•' and at most the '•' plus '-' characters |
| `Analytics.HasHashtag` | scripts/build_analytics.py:150 | the flag holds exactly when the description contains '#' |
| `Analytics.BuildPost` | scripts/build_analytics.py:137-153 | a post row keeps the guid, link and local date; it has the field lengths, a title sample of at most 200 characters, the question and hashtag flags, a quote count equal to the larger of the two fields' counts, the emoji counts of title and description, the description's bullet count, dialogue and number flags that are the or of the two fields' flags, and the hour's bucket, which is empty exactly when the hour is missing |
| `Analytics.NormalizeRow` | scripts/build_analytics.py:116-126 | the guid and notes are stripped, the platform stripped and lower-cased, and the counts kept |
| `Analytics.KeptRows` | scripts/build_analytics.py:108-127 | every kept row has a non-empty guid, and there are no more kept rows than input rows |
| `Analytics.KeptRowsExactly` | scripts/build_analytics.py:114-115 | there are exactly as many kept rows as input rows whose guid is neither blank nor a '#' comment |
| `Analytics.ReadEngagement` | scripts/build_analytics.py:113-126 | the reading loop returns exactly the kept rows, normalised, in file order |
| `Analytics.GroupByGuid` | scripts/build_analytics.py:227-229 | the groups are keyed by the guids in first-seen order, and each holds that guid's rows in file order |
| `Analytics.GroupByGuidPartition` | scripts/build_analytics.py:227-229 | the group sizes add up to the number of rows: every row lands in exactly one group |
| `Analytics.TotalsOf` | scripts/build_analytics.py:176-183 | the totals are the field-wise sums of the post's rows |
| `Analytics.SumTotals` | scripts/build_analytics.py:177-183 | the accumulation loop ends with the field-wise sums |
| `Analytics.Score` | scripts/build_analytics.py:184-187 | twice the score is 2·likes + 4·replies + 6·reposts + clicks + 3·saves |
| `Analytics.ScoreIgnoresImpressions` | scripts/build_analytics.py:184-187 | impressions never change the score |
| `Analytics.FirstEdgeAtLeast` | scripts/build_analytics.py:195-196 | the chosen edge is the first not below the value, and every edge before it is below the value |
| `Analytics.FirstEdgeIsSmallest` | scripts/build_analytics.py:194-197 | with ascending edges, the chosen edge is the smallest edge not below the value |
| `Analytics.Bucketize` | scripts/build_analytics.py:194-197 | the scan returns "<= e" for the first edge e not below the value, and "> last" when there is none |
| `Analytics.EmojiBucket` | scripts/build_analytics.py:201 | counts 0, 1 and 2 name themselves; "3+" is given exactly to counts of three or more |
| `Analytics.FeatureEntries` | scripts/build_analytics.py:208-215 | each post adds exactly seven values, one per feature |
| `Analytics.JoinPost` | scripts/build_analytics.py:171-191 | one post's joined row has its guid's totals, the score of those totals, and the title-length and emoji buckets |
| `Analytics.JoinPosts` | scripts/build_analytics.py:170-191 | the joined list matches the posts one for one, each row joined as `JoinPost` states |
| `Analytics.Aggregate` | scripts/build_analytics.py:204-219 | the summary has one row per (feature, bucket) key holding the mean and count of that key's values, sorted by the key |
| `Analytics.Summarize` | scripts/build_analytics.py:168-220 | the joined rows match the posts one for one, and the summary is the sorted per-key aggregation of their feature values |
| `Analytics.RowLeTotalPreorder` | scripts/build_analytics.py:218 | the (feature, bucket) tuple order is total and transitive |
| `Analytics.SummarySortedDistinct` | scripts/build_analytics.py:217-219 | summary rows are sorted by (feature, bucket), each pair occurs once, and every row counts at least one post |
| `Analytics.EntriesPerFeature` | scripts/build_analytics.py:208-215 | over all posts, each of the seven features receives exactly one value per post, and any other name receives none |
| `Analytics.FeatureCountsAddUp` | scripts/build_analytics.py:208-219 | for each feature, the n_posts of its summary rows add up to the number of posts; for any other name they add up to 0 |
| `Analytics.SummaryFeatures` | scripts/build_analytics.py:208-219 | every summary row belongs to one of the seven features |
| `XFeed.SmartTruncate` | scripts/make_x_feed.py:25-33 | text that fits is returned unchanged; longer text becomes its first max(0, limit−1) characters, cut back to before the last space when there is one, followed by "…"; for limit ≥ 1 the result fits |
| `XFeed.SmartTruncateIdempotent` | scripts/make_x_feed.py:25-33 | truncating again to the same positive limit changes nothing |
| `XFeed.SmartTruncateAgreesWithCap` | scripts/make_x_feed.py:25-33 | at limit 230, truncation cuts exactly as the X-line cap of build_rss.py does |
| `XFeed.StripStamp` | scripts/make_x_feed.py:15-18 | the result is a contiguous piece of the input, no longer than it, with no outer whitespace once a pattern has run |
| `XFeed.StripStampNoStamp` | scripts/make_x_feed.py:15-18 | when no pattern finds a stamp, stripping stamps only strips whitespace |
| `XFeed.Limit` | scripts/make_x_feed.py:66-71 | with the link not written into the text, the limit is the full 240 characters |
| `XFeed.XText` | scripts/make_x_feed.py:71 | the text never exceeds 240 characters; a body that fits is kept; a longer one becomes a piece of the body followed by "…" |
| `XFeed.XItemOf` | scripts/make_x_feed.py:57-84 | the body is the stamp-free title, or the description when the title is empty; the text is that body truncated; the link is stripped; the GUID source is the first non-empty of original guid, link, title and description |
| `LiFeed.SuffixFolded` | scripts/make_li_feed.py:5-10 | `lower()` of the suffix is its all-lower-case spelling |
| `LiFeed.Clean` | scripts/make_li_feed.py:6 | the cleaned text has no run of two whitespace characters and no outer whitespace, and is empty exactly when the input is all whitespace, which is exactly when its whitespace-run collapse is |
| `LiFeed.LiText` | scripts/make_li_feed.py:7-12 | the base is the stripped description, or the title when the description is empty; a base already ending in the suffix, compared case-insensitively, is returned as is; otherwise the result is base, space and suffix, or the suffix alone for an empty base; the result is never empty and always ends in the suffix |
| `LiFeed.SuffixAfterBase` | scripts/make_li_feed.py:12 | base, space and suffix needs no further strip and ends in the suffix |
| `LiFeed.LiTextIdempotent` | scripts/make_li_feed.py:7-12 | feeding the LinkedIn text back in as the description gives the same text |
| `LiFeed.LiItemOf` | scripts/make_li_feed.py:24-31 | an item's text ends in the suffix, its link is stripped, and its GUID source is the first non-empty of guid, link, title and description |
| `LiFeed.LiItems` | scripts/make_li_feed.py:23-32 | the items are transformed one for one, in source order |
| `LiFeed.Feeds` | scripts/make_li_feed.py:33-34 | the full feed holds every transformed item in order; the live feed holds only the first, or nothing for an empty feed |
| `Carousel.Wrap` | scripts/make_carousel.py:10-16 | joining the lines with spaces gives the input's words joined with spaces; no line is empty; every line but the last reaches the width; every line without its last word is shorter than the width; whitespace-only text gives no lines |
| `Carousel.LayoutFacts` | scripts/make_carousel.py:11-15 | lines laid out from the text's words satisfy the properties stated for `Wrap` |
| `Carousel.JoinLines` | scripts/make_carousel.py:14-15 | joining the lines joins the words of their chunks, with none lost, split or reordered |
| `Carousel.DropLastWord` | scripts/make_carousel.py:14 | a line of several words, cut at its last space, is the line of all but its last word |
| `Carousel.LaterTotalPreorder` | scripts/make_carousel.py:8 | the descending date order is total and transitive |
| `Carousel.LatestTitle` | scripts/make_carousel.py:5-9 | with no file or no rows the title is "Career Forge"; otherwise it is the title sample of the first row whose date is greatest |
| `Carousel.LatestIsFirstGreatest` | scripts/make_carousel.py:8-9 | the chosen row's date is at least every other date, and every earlier row's date is strictly smaller |
| `TrendHarvest.Normalize` | scripts/trend_harvest.py:5 | title and link are stripped; the title is empty exactly when the raw title is blank; published falls back to updated |
| `TrendHarvest.FeedLines` | scripts/trend_harvest.py:8 | every feed URL is non-empty and stripped, and there are no more URLs than lines |
| `TrendHarvest.FeedLinesExactly` | scripts/trend_harvest.py:8 | a URL is listed exactly when some non-blank line not starting with '#' strips to it |
| `TrendHarvest.Titled` | scripts/trend_harvest.py:14-15 | only entries with a non-empty title become items |
| `TrendHarvest.Head` | scripts/trend_harvest.py:13 | at most the first ten entries of a feed are taken, and all of them when there are ten or fewer |
| `TrendHarvest.Collected` | scripts/trend_harvest.py:10-16 | the items are titled, with at most ten per feed |
| `TrendHarvest.TakeTitled` | scripts/trend_harvest.py:13-15 | the inner loop takes the titled items among the first ten entries |
| `TrendHarvest.Collect` | scripts/trend_harvest.py:10-16 | the nested loops gather the titled items feed by feed, in order |
| `TrendHarvest.FirstFiledIsFirst` | scripts/trend_harvest.py:17-20 | the first item filed under a lower-cased title is the first item in the list with that title |
| `TrendHarvest.Dedup` | scripts/trend_harvest.py:17-20 | one item is kept per lower-cased title, in first-seen order |
| `TrendHarvest.DedupDistinct` | scripts/trend_harvest.py:17-20 | no two kept items share a lower-cased title |
| `TrendHarvest.DedupCovers` | scripts/trend_harvest.py:17-20 | every collected item's lower-cased title occurs among the kept items |
| `TrendHarvest.DedupKeepsFirst` | scripts/trend_harvest.py:17-20 | each kept item is the first collected item with its lower-cased title |
| `TrendHarvest.DedupStep` | scripts/trend_harvest.py:19-20 | a further item is appended exactly when its lower-cased title has not been seen |
| `TrendHarvest.DedupLoop` | scripts/trend_harvest.py:17-20 | the loop with its `seen` set returns exactly the deduplicated list |
| `TrendHarvest.Harvest` | scripts/trend_harvest.py:6-21 | the payload's count is the number of unique items before the cut, and its items are the first 30 of them; with no feed list there are no feeds |
| `SuggestCron.BucketTimeLocal` | scripts/suggest_cron.py:5 | exactly the six bucket names have a local time, each a valid clock time |
| `SuggestCron.UtcHour` | scripts/suggest_cron.py:6-8 | the UTC hour, taken 7 hours back modulo 24, is the local hour |
| `SuggestCron.ToUtcStr` | scripts/suggest_cron.py:6-8 | the cron is "MM HH * * *" with two-digit fields: the minute is kept, and the hour is below 24 and equals the local hour plus 7, modulo 24 |
| `SuggestCron.MorningCrons` | scripts/suggest_cron.py:5-8 | early-morning gives "40 14 * * *" and morning gives "10 17 * * *" |
| `SuggestCron.AfternoonCrons` | scripts/suggest_cron.py:5-8 | early-afternoon gives "10 21 * * *" and late-afternoon gives "40 23 * * *" |
| `SuggestCron.EveningCrons` | scripts/suggest_cron.py:5-8 | evening gives "10 02 * * *" and night gives "10 04 * * *" |
| `SuggestCron.TableTimesAgainstBands` | scripts/suggest_cron.py:5 | each bucket's local time except night falls in the analytics band of the same name; night's 21:10 falls in "evening" |
| `SuggestCron.TimeRows` | scripts/suggest_cron.py:12 | only "time" rows are kept, and they are drawn from the input rows |
| `SuggestCron.BestBucketsRanked` | scripts/suggest_cron.py:9-14 | the ranking is sorted by average, highest first, and is a permutation of the "time" rows; a missing summary gives [] |
| `SuggestCron.KnownBuckets` | scripts/suggest_cron.py:16 | only bucket names that have a table time are kept |
| `SuggestCron.Select` | scripts/suggest_cron.py:16 | one or two table buckets are selected: the known ones among the top two, or ["early-afternoon", "morning"] when none is known |
| `SuggestCron.SelectKeepsTopKnown` | scripts/suggest_cron.py:16 | a known bucket among the top two is always selected |
| `SuggestCron.Crons` | scripts/suggest_cron.py:17 | there is exactly one cron per selected bucket, in the same order |
| `Sorting.SortByStable` | scripts/suggest_cron.py:13 | under a total preorder, the elements tied with any given element leave the sort in their input order, as Python's stable sort keeps them, `reverse=True` included |
| `SuggestCron.DefaultSuggestion` | scripts/suggest_cron.py:11-17 | without a summary the crons are "10 21 * * *" and "10 17 * * *" |
| `OptimizeTimes.BucketName` | scripts/optimize_times.py:19 | a blank bucket is filed as "unknown"; any other is kept |
| `OptimizeTimes.ScoreOf` | scripts/optimize_times.py:20 | a missing score counts as 0 |
| `OptimizeTimes.AvgsOf` | scripts/optimize_times.py:21 | each average is for a seen bucket other than "unknown", and is the mean of that bucket's scores |
| `OptimizeTimes.AvgsOfCovers` | scripts/optimize_times.py:17-21 | exactly the seen buckets other than "unknown" that have values get an average, once each |
| `OptimizeTimes.RankingOrdered` | scripts/optimize_times.py:23 | the ranking is sorted by mean, highest first, and names each bucket once |
| `OptimizeTimes.RankingCovers` | scripts/optimize_times.py:17-23 | the ranking lists exactly the buckets other than "unknown" that have rows, each with the mean of its scores |
| `OptimizeTimes.TopTwo` | scripts/optimize_times.py:22-24 | always two names: the defaults for an empty ranking, the lone bucket and "late-afternoon" for one, else the first two |
| `OptimizeTimes.BestBuckets` | scripts/optimize_times.py:15-24 | the loop and sort return the top two of the ranking |
| `OptimizeTimes.BestBucketsAreBest` | scripts/optimize_times.py:21-24 | with at least two buckets the first pick has the highest mean and the second the highest mean among the rest |
| `OptimizeTimes.FirstChoiceSeen` | scripts/optimize_times.py:19-24 | the first pick is "morning" or a bucket other than "unknown" that has rows |
| `OptimizeTimes.LoneLateAfternoonTwice` | scripts/optimize_times.py:24 | a lone "late-afternoon" bucket is picked twice |
| `OptimizeTimes.ToUtcMin` | scripts/optimize_times.py:26-36 | every bucket, known or not, maps to a non-empty hour and minute |
| `OptimizeTimes.LocalHour` | scripts/optimize_times.py:26-36 | the local hour plus 7, modulo 24, is the UTC hour |
| `OptimizeTimes.BandOf` | scripts/optimize_times.py:26-36 | every UTC hour falls in some non-empty analytics band once moved to local time |
| `OptimizeTimes.ToUtcMinOutOfBand` | scripts/optimize_times.py:30-32 | morning at 15:10 UTC is in the early-morning band; late-afternoon at 21:40 UTC is in the early-afternoon band |
| `OptimizeTimes.ToUtcMinInBand` | scripts/optimize_times.py:26-36 | agrees with the table except for morning and late-afternoon |
| `OptimizeTimes.ToUtcMinInBandMatches` | scripts/optimize_times.py:26-36 | each of the six buckets is posted at a time inside its own band |
| `StyleBandit.Weight` | scripts/update_style_bandit.py:24-25 | the weight lies in [0.6, 1.6]; it is 1.6 for averages of at least 75 and 0.6 for averages of at most −25/3; in between it is 0.7 + 0.012·avg |
| `StyleBandit.WeightMonotone` | scripts/update_style_bandit.py:24-25 | the weight never decreases as the average grows |
| `StyleBandit.NeutralAverage` | scripts/update_style_bandit.py:24-25 | an average of 25 gives weight 1.0 |
| `StyleBandit.AvgOf` | scripts/update_style_bandit.py:20-23 | an unparseable average counts as 0, which gives weight 0.7 |
| `StyleBandit.StyleWeights` | scripts/update_style_bandit.py:16-26 | the loop's map is the weights of the style rows |
| `StyleBandit.WeightsOfKeys` | scripts/update_style_bandit.py:16-26 | a bucket gets a weight exactly when some "style" row names it |
| `StyleBandit.WeightsOfLastWins` | scripts/update_style_bandit.py:26 | a bucket's weight comes from its last style row |
| `StyleBandit.NoStyleInSummary` | scripts/update_style_bandit.py:16 | the summary built by build_analytics.py has no "style" rows, so the weights drawn from it are empty |
| `StyleBandit.Merge` | scripts/update_style_bandit.py:32 | the merged keys are the old keys and the new keys; new weights win, and old weights not replaced stay |
| `StyleBandit.Rules.CurrentWeights` | scripts/update_style_bandit.py:31 | missing style weights read as an empty map |
| `StyleBandit.Rules.UpdateStyleWeights` | scripts/update_style_bandit.py:31-32 | the style weights become the merge of the current ones with the new ones; every other rules key is unchanged |
| `FetchMetrics.SampleRecordFields` | analytics/fetch_metrics.py:33-44 | with base = (offset+1)(index+2): clicks is base+2, likes base+5, shares base div 3, comments base div 4, text length 140 + 5·index + offset |
| `FetchMetrics.DayRecords` | analytics/fetch_metrics.py:32-45 | a day has three records, in service order linkedin, facebook, twitter |
| `FetchMetrics.SampleMetrics` | analytics/fetch_metrics.py:25-46 | n days give 3·n records |
| `FetchMetrics.SampleMetricsAt` | analytics/fetch_metrics.py:30-45 | the records are day-major: position 3·offset + index holds that service's record for day offset |
| `FetchMetrics.GenerateSampleMetrics` | analytics/fetch_metrics.py:25-46 | the nested loops produce exactly the sample records |
| `FetchMetrics.SampleDay` | analytics/fetch_metrics.py:32-45 | the inner loop produces one day's three records |
| `FetchMetrics.FirstStamp` | analytics/fetch_metrics.py:127-131 | the chosen stamp is truthy exactly when some candidate is, and is then the first truthy one; when none is truthy it is the last candidate, as Python's `or` yields |
| `FetchMetrics.NormalizeUpdate` | analytics/fetch_metrics.py:111-155 | an update without id or update_id gives no record; otherwise the id is the first truthy of them; likes and shares take the first non-zero of their fallbacks; the text length falls back to the body; the service is lower-cased or "unknown"; the day is the date of the `or` chain's stamp whenever that stamp is a number, including a falsy zero `due_at`, and today otherwise |
| `FetchMetrics.FalsyDueAtDatesEpoch` | analytics/fetch_metrics.py:127-135 | with sent_at, updated_at and created_at missing and a zero due_at, the record is dated at epoch 0, not today |
| `FetchMetrics.Lookup` | analytics/fetch_metrics.py:59-62 | a record found has the id asked for, and none is found exactly when no record has it |
| `FetchMetrics.Put` | analytics/fetch_metrics.py:62 | writing a record keeps one record per id, makes it the one found under its id, leaves every other id alone, and adds one entry only for a new id |
| `FetchMetrics.PutAllLastWins` | analytics/fetch_metrics.py:186-191 | after writing a list, each id holds its last record in the list, or its earlier record if the list has none |
| `FetchMetrics.RecordsOf` | analytics/fetch_metrics.py:60-61 | only dict entries are taken, none invented |
| `FetchMetrics.LoadExisting` | analytics/fetch_metrics.py:49-63 | the store holds the file's dict entries, keyed by id, the last one per id winning |
| `FetchMetrics.Normalized` | analytics/fetch_metrics.py:186-190 | every normalised record has an id and the profile it was fetched for |
| `FetchMetrics.PutAllAppend` | analytics/fetch_metrics.py:186-191 | writing two lists in turn is writing their concatenation |
| `FetchMetrics.Upsert` | analytics/fetch_metrics.py:186-191 | the loop leaves the existing store with every normalised record written in turn, profile by profile |
| `FetchMetrics.UpsertStep` | analytics/fetch_metrics.py:188-191 | one update writes its record when it has one and changes nothing when it does not |
| `FetchMetrics.OutputFacts` | analytics/fetch_metrics.py:158-166 | the output is a permutation of the store, sorted by (day, id), and strictly increasing because ids are distinct |
| `FetchMetrics.SplitOn` | analytics/fetch_metrics.py:177 | splitting on ',' gives at least one part, none containing a comma, and joining the parts with ',' restores the text |
| `FetchMetrics.SplitOnAppend` | analytics/fetch_metrics.py:177 | splitting text joined at a separator gives the parts of each side, in order |
| `FetchMetrics.SplitOnSingle` | analytics/fetch_metrics.py:177 | text without the separator is a single part |
| `FetchMetrics.ProfileIds` | analytics/fetch_metrics.py:177 | every profile id is non-empty, stripped and comma-free |
| `FetchMetrics.StrippedNonEmpty` | analytics/fetch_metrics.py:177 | there are no more ids than parts, each a profile id, and there are none exactly when every part is blank |
| `FetchMetrics.StrippedNonEmptyAppend` | analytics/fetch_metrics.py:177 | the filter-map distributes over concatenation of comma-free parts |
| `FetchMetrics.StrippedNonEmptySingle` | analytics/fetch_metrics.py:177 | a single part gives nothing when blank, and otherwise exactly its stripped self |
| `FetchMetrics.ProfileIdsFields` | analytics/fetch_metrics.py:177 | the ids of `a,b` are the ids of `a` followed by those of `b`; a field without a comma gives nothing when blank and otherwise exactly its stripped self |
| `FetchMetrics.NoProfileIdsInEmpty` | analytics/fetch_metrics.py:177 | an empty variable gives no ids |
| `FetchMetrics.PlanOf` | analytics/fetch_metrics.py:172-181 | the sample path is taken exactly when the token or the id variable is unset or empty, or the ids are all blank; a fetch always has a token and at least one id |
| `FetchMetrics.BlankProfileIdsSample` | analytics/fetch_metrics.py:177-181 | an id variable of only commas and whitespace takes the sample path |
| `BackupManager.Basename` | backup_manager.py:46 | the base name has no '/', ends the path, and is the path itself when there is no '/' |
| `BackupManager.SplitExt` | backup_manager.py:47 | stem and extension concatenate to the name; the extension starts at the last '.' unless only dots precede it |
| `BackupManager.BackupNameMatches` | backup_manager.py:45-49 | a new backup always matches its own file's pattern |
| `BackupManager.ForeignBackupsMatch` | backup_manager.py:72-73 | a pattern also matches the backups of a file whose stem extends its stem with '_' and more |
| `BackupManager.NewestMembers` | backup_manager.py:74 | the newest-first listing holds exactly the names of the set |
| `BackupManager.NewestDescending` | backup_manager.py:74 | the listing is strictly descending in name order |
| `BackupManager.SortNewestFirst` | backup_manager.py:74 | repeatedly taking the greatest name produces the newest-first listing |
| `BackupManager.ListOfFacts` | backup_manager.py:98-100 | the listing holds exactly the matching files, strictly greatest first |
| `BackupManager.CleanedOnlyDeletes` | backup_manager.py:64-85 | the cleanup creates and changes nothing; it only deletes |
| `BackupManager.CleanedFew` | backup_manager.py:76-77 | with at most keep_count matches, nothing is deleted |
| `BackupManager.CleanedSparesOthers` | backup_manager.py:72-80 | files outside the pattern survive |
| `BackupManager.CleanedKeepsFirst` | backup_manager.py:74-80 | a matching name survives exactly when it is among the first keep_count of the newest-first listing |
| `BackupManager.CleanedKeepsNewest` | backup_manager.py:74-80 | every surviving match is greater than every deleted match |
| `BackupManager.Disk.CleanupOldBackups` | backup_manager.py:64-85 | the deletion loop leaves the cleaned file map |
| `BackupManager.Disk.ListBackups` | backup_manager.py:88-100 | the listing holds exactly the matching files, strictly greatest first |
| `BackupManager.Disk.GetLatestBackup` | backup_manager.py:131-142 | there is no result exactly when nothing matches; otherwise the result is a matching file at least as great as every other match |
| `BackupManager.Disk.BackupFile` | backup_manager.py:27-61 | a missing file gives None and changes nothing; otherwise the result is the timestamped backup path, and the files are the copy followed by the cleanup of its pattern |
| `BackupManager.Disk.RestoreBackup` | backup_manager.py:103-128 | the result and the new files are those of the restore as written: a missing backup gives False and changes nothing, and an existing target is backed up, with its cleanup, before the copy |
| `BackupManager.RestoredWhenKept` | backup_manager.py:118-125 | when the backup survives the safety backup, the restore succeeds and the target holds the backup's content |
| `BackupManager.RestoreLosesOldest` | backup_manager.py:118-128 | with 30 backups of the target present and a newer timestamp, restoring the oldest one fails and deletes it |
| `BackupManager.Disk.RestoreBackupSafely` | backup_manager.py:103-128 | the corrected restore reads the backup before the safety backup runs |
| `BackupManager.RestoredSafelyRestores` | backup_manager.py:114-125 | the corrected restore succeeds exactly when the backup exists and is not the target, and then the target holds the backup's content; a missing backup changes nothing |
| `HealthCheck.HealthCheck.constructor` | health_check.py:20-21 | a new health check object has no results |
| `HealthCheck.HealthCheck.AddResult` | health_check.py:23-25 | exactly one result is appended and the earlier ones stay |
| `HealthCheck.HealthCheck.Record` | health_check.py:23-25 | a check records one result and returns the passed flag it recorded |
| `HealthCheck.HealthCheck.CheckFileExists` | health_check.py:30-38 | passes exactly when the file exists, and records that result |
| `HealthCheck.MissingElements` | health_check.py:52-57 | an element is reported missing exactly when it is one of title, link and description and the channel lacks it |
| `HealthCheck.MissingElementsOrder` | health_check.py:52-57 | the missing elements are listed in the order title, link, description |
| `HealthCheck.RssValidPassesIff` | health_check.py:40-66 | the structure check passes exactly when the feed parses, has a channel, and the channel has all three elements |
| `HealthCheck.HealthCheck.CheckRssValid` | health_check.py:40-66 | records the structure result and returns its passed flag |
| `HealthCheck.ItemsOf` | health_check.py:73 | items are found only in a channel that has them; a channel without children is falsy |
| `HealthCheck.ItemsOfShaped` | health_check.py:71-73 | in a channel whose items are among its children, the items found are exactly the channel's items |
| `HealthCheck.RecentPostPassesIff` | health_check.py:68-109 | the recent-post check passes exactly when the first item has a non-empty pubDate whose age is at most the limit; an age equal to the limit passes |
| `HealthCheck.HealthCheck.CheckRecentPost` | health_check.py:68-109 | records the recent-post result and returns its passed flag |
| `HealthCheck.FileSizePassesIff` | health_check.py:111-136 | the size check passes exactly when the file exists and has at most max_mb MiB; equality passes |
| `HealthCheck.HealthCheck.CheckFileSize` | health_check.py:111-136 | records the size result and returns whether the file is within the limit |
| `HealthCheck.EnvVarResult` | health_check.py:138-148 | the variable check passes exactly when the variable is set and non-empty |
| `HealthCheck.HealthCheck.CheckEnvVar` | health_check.py:138-148 | records the variable result and returns whether it is set and non-empty |
| `HealthCheck.FileChecks` | health_check.py:155-160 | the run starts with six file-existence results |
| `HealthCheck.FeedChecks` | health_check.py:163-170 | the structure, recent-post and two size results follow |
| `HealthCheck.MissingFeedFails` | health_check.py:40-76 | without rss.xml, both the structure and the recent-post checks fail |
| `HealthCheck.EnvChecks` | health_check.py:173-174 | the API-key result is recorded only when CI is set |
| `HealthCheck.AllResults` | health_check.py:155-174 | a run appends 11 results in CI and 10 otherwise, the API-key check last |
| `HealthCheck.HealthCheck.RunFileChecks` | health_check.py:155-160 | appends the six file results |
| `HealthCheck.HealthCheck.RunFeedChecks` | health_check.py:163-170 | appends the four feed results |
| `HealthCheck.HealthCheck.RunAllChecks` | health_check.py:150-189 | appends the run's results and returns true exactly when no entry of the whole list failed |
| `HealthCheck.CountPassedAll` | health_check.py:178-189 | the passes number as many as the entries exactly when every entry passed |
| `HealthCheck.Passed` | health_check.py:178 | the counting loop returns the number of passed entries |
| `HealthCheck.SummaryFacts` | health_check.py:191-201 | passed + failed = total = number of entries; the rate lies in [0, 100], is 0 for no entries, and is 100 for a non-empty list exactly when nothing failed |
| `HealthCheck.HealthCheck.GetSummary` | health_check.py:191-201 | the counts add up to the number of entries, and failed is 0 exactly when every entry passed |

## Left out

- Generated content: the OpenAI call and its fallback payloads (build_rss.py:109-202). The payload is an input value.
- build_rss.py I/O: `read_topics`, `ensure_feed_scaffold`, `prepend_item` and `main`. All XML building and parsing in every script is out too, since it goes through ElementTree.
- Hashes and external effects: SHA-1 GUIDs, clocks, `random.seed`, `choice` and `shuffle`, the network, files, CSV/JSON reading and writing, git, PIL rendering, feedparser, and logging. They are parameters or absent. The shuffled palette is two palette positions. The seeded pick is an index. The Phoenix hour, timestamps and "today" are arguments.
- `add_minimum_emojis` shuffles the module-level palette in place. The model takes the two positions the shuffle puts first and does not model the palette changing from one call to the next.
- The `\b` regular expressions are abstract parameters: FORBIDDEN_MARKERS_RX, `has_dialogue`, `has_number` and the `strip_stamp` patterns. `strip_stamp` takes, per pattern, the position where a stamp starts.
- Tag removal and `html.unescape` in `clean` and `clean_text` are not part of this model. Only the whitespace collapse is.
- Unicode: `lower()` is ASCII case folding and `\w` is `[A-Za-z0-9_]`. Python's full Unicode tables for both are not modelled. Whitespace follows `str.isspace` exactly.
- Date parsing: RFC 822 (`parsedate_to_datetime`) and `strptime`. A post arrives with its local hour. The recent-post check receives a function from pubDate to age or error.
- Number parsing: `int()` and `float()` of CSV fields. Counts arrive parsed, and an unparseable average is `None`.
- Analytics.Score: the model uses exact reals, so `round(total_score, 2)` is not modelled.
- Analytics.Aggregate: `agg_mean` rounding is not modelled; the mean is exact.
- StyleBandit.Weight: `round(w, 2)` is not modelled; the weight is the exact clamped value.
- HealthCheck.FileSizePassesIff: `max_mb` is a whole number of MiB, and `size / (1024*1024) > max_mb` is compared exactly.
- Message formatting: `.1f` and `.2f` renderings of ages and sizes are parameters.
- Exception paths whose cause lies outside the model: a failed `copy2` or `os.remove`, a read error, an HTTP error.
  - The model has no failing copy apart from a missing source file.
  - A failed deletion is not modelled.
- BackupManager.SplitExt: `os.path.splitext` is modelled on a base name. A '.' in a directory part of a longer path is not treated specially. `backup_file` splits `os.path.basename` of its path (backup_manager.py:46-47), and the other three functions document their argument as a base filename (backup_manager.py:67, 94, 136).
- HealthCheck.ItemsOfShaped: a parsed channel's `item` children and its item list are independent fields. That the items are among the children is stated as the `ChannelShape` predicate, and that a missing rss.xml cannot be read as the `Consistent` predicate, not built into the types.
- Glob metacharacters in file names are not interpreted. A pattern's `*` matches any text without '/'.
- `restore_backup` with the backup path equal to the target: `copy2` raises on the same file, and the call returns False. The corrected member keeps that case as a failure.
- `fetch_updates` (analytics/fetch_metrics.py:66-108): Buffer pagination over HTTP. Fetched updates are an input, one list per profile.
- `write_output`'s JSON layout and `load_existing`'s exit on a malformed file (analytics/fetch_metrics.py:55-58).
- `rewrite_cron` (YAML rewriting) and the git steps of scripts/optimize_times.py:38-62.
- Outside the core scripts: scripts/update_bandit.py (a softmax using `math.exp`), scripts/make_newsletter.py, the markdown report of build_analytics.py, tools/ and logger_config.py.
- The carousel's slide rendering (scripts/make_carousel.py:17-29).
- `build_posts` takes the `\b` flags as booleans per field. `safe_len` is plain length.
- Trend payload JSON, `isoformat` and the per-feed exception handling. A feed that fails to parse contributes no entries: the parse parameter returns none.

## Findings

| source | as written | input that shows it | evidently intended | confidence | as-written member | corrected member |
|---|---|---|---|---|---|---|
| backup_manager.py:118-123 | `restore_backup` first backs up the current target with the default keep count of 30, whose cleanup can delete the backup being restored, and only then copies it | 30 backups of rss.xml in backups/, restoring the oldest one with a fresh, newer timestamp: the cleanup removes it, `copy2` fails, the call returns False and that backup is gone | restoring any existing backup succeeds and puts its content in the target | high, not executed | `BackupManager.RestoreLosesOldest` | `BackupManager.RestoredSafelyRestores` |
| scripts/optimize_times.py:30-32 | "morning" is scheduled at 15:10 UTC and "late-afternoon" at 21:40 UTC | 15:10 UTC is 08:10 local, in the early-morning band (5-9) of the analytics that ranked "morning"; 21:40 UTC is 14:40 local, in early-afternoon (12-15) | each bucket is scheduled inside its own band, as suggest_cron.py's table does (10:10 and 16:40 local) | medium, not executed | `OptimizeTimes.ToUtcMinOutOfBand` | `OptimizeTimes.ToUtcMinInBandMatches` |
