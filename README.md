# Trending movies: the record assembly of getTrendingMovies

This project models the core of a small serverless worker. The worker scrapes
the FlixPatrol top-10 page and caches a list of "trending movies". The part
modelled here is the record-assembly step of `getTrendingMovies`. It walks four
fixed streaming-service ids (`netflix-1`, `hbo-1`, `amazon-prime-1`,
`apple-tv-1`) in order. For each one whose `#<service>` div exists, it takes at
most the first two table rows. For each row it pushes one entry with these fields:

- `rank`: the row's index plus one;
- `title`: the trimmed title text, then ` (YYYY)` when the title link carries
  a year, then every whitespace run collapsed to one space;
- `isOriginal`: whether the row has an "original" span;
- `points`: `parseInt` of the trimmed third cell, which may be NaN;
- `platform`: the first one or two dash-separated segments of the service id;
- `date`: the date part of the clock's ISO timestamp.

The HTML page is an input. A `Page` maps each service id whose div exists to
that div's rows. Each `Row` carries the raw title-cell text, the optional
`href`, the "original" flag and the raw points-cell text. The clock reading
`now` is a parameter.

Files:

- `wrappers.dfy`: `Option`.
- `text.dfy` (module `Text`): the JavaScript string primitives the code relies
  on. These are the `\s` class, `trim`, `replace(/\s+/g, " ")`, `split` on one
  character and the digit scan of `parseInt(_, 10)`.
- `fields.dfy` (module `Fields`): the per-row derivations (year, stored title,
  platform, points and date).
- `scrape.dfy` (module `Scrape`): the row and entry types, the specification
  `Assemble`, and the imperative `GetTrendingMovies`. That method has one loop
  over the services (`forEach`) and one over the sliced rows (`.each`), and is
  proved equal to `Assemble`.

## Model

| member | source | states |
|---|---|---|
| `Text.TrimStart` | src/scrape.js:37 | the leading-whitespace part of `trim`: a result no longer than the input that does not start with whitespace (that it is the suffix left after a whitespace prefix is `Text.TrimStartDrops`) |
| `Text.TrimStartDrops` | src/scrape.js:37 | what trimming drops from the front is all whitespace, and the input is that prefix followed by the kept text |
| `Text.TrimEnd` | src/scrape.js:37 | the trailing-whitespace part of `trim`: a prefix of the input that does not end with whitespace, and what it drops is all whitespace |
| `Text.Trim` | src/scrape.js:37 | `.trim()`: a contiguous slice of the input with only whitespace outside it, and neither end of the slice is whitespace |
| `Text.Collapse` | src/scrape.js:56 | `replace(/\s+/g, " ")`: the result is in collapsed form (each whitespace is a plain space and no two are adjacent), is no longer than the input, is empty exactly when the input is, and starts with whitespace exactly when the input does |
| `Text.CollapseKeepsVisible` | src/scrape.js:56 | collapsing keeps every non-whitespace character, in order, and adds none |
| `Text.CollapseFixpoint` | src/scrape.js:56 | collapsing leaves a string unchanged if and only if the string is already in collapsed form |
| `Text.CollapseIdempotent` | src/scrape.js:56 | collapsing whitespace twice gives the same result as collapsing once |
| `Text.CollapseConcat` | src/scrape.js:45-56 | collapsing a concatenation whose left part does not end in whitespace collapses each part separately |
| `Text.Split` | src/scrape.js:60-61 | `split("-")`: at least one piece, and no piece contains the separator; the first piece is a prefix of the input, followed in it by the separator unless it is the whole input |
| `Text.JoinSplit` | src/scrape.js:60-61 | joining the pieces of a split with the separator gives back the original string |
| `Text.SplitJoin` | src/scrape.js:60-61 | splitting a join of separator-free pieces gives back the pieces |
| `Text.DigitRun` | src/scrape.js:49-52 | the digit scan of `parseInt`: a prefix made of decimal digits that is followed by a non-digit or by the end of the input |
| `Text.DecimalValue` | src/scrape.js:49-52 | reading the decimal numeral of `n` gives back `n` |
| `Text.DigitRunPrefix` | src/scrape.js:49-52 | the digit scan stops exactly at the first non-digit |
| `Text.ParseInt10` | src/scrape.js:49-51 | `parseInt(_, 10)`: NaN (`None`) exactly when, after the leading whitespace and at most one sign, no digit follows; a negative value only after a leading `-` |
| `Text.ParseIntDigits` | src/scrape.js:49-51 | `parseInt` of an optional `+` or `-`, a run of digits (leading zeros allowed) and a tail that does not continue the run is the run's value, negated after `-` |
| `Fields.FindYear` | src/scrape.js:41 | the leftmost position at or after `from` where the year pattern (a dash, four digits, then a slash or the end) matches, or none when it matches nowhere there |
| `Fields.ExtractYear` | src/scrape.js:41-42 | the year is empty or four digits; it is non-empty exactly when the href contains a dash, four digits and then a slash or the end; it is then the digits of the leftmost such match |
| `Fields.LinkText` | src/scrape.js:38 | the href, or the empty string in its place: the empty string exactly when the href is absent or empty, otherwise the href itself |
| `Fields.MissingLinkHasNoYear` | src/scrape.js:38-42 | a row without an href gets the empty year |
| `Fields.FormatTitle` | src/scrape.js:45 | the title text is kept as a prefix; the result equals it exactly when the year is empty, and otherwise continues with ` (`, the year and `)` |
| `Fields.StoredTitle` | src/scrape.js:37-56 | the stored title is in collapsed form and is unchanged by collapsing it again |
| `Fields.StoredTitleShape` | src/scrape.js:37-56 | the stored title is the collapsed trimmed title text, followed by ` (YYYY)` exactly when the year is non-empty; it is in collapsed form and collapsing it again leaves it unchanged |
| `Fields.StoredTitleSuffix` | src/scrape.js:45 | with a year, the stored title ends in a space, `(`, the four year digits and `)` |
| `Fields.YearSuffixCollapsed` | src/scrape.js:45-56 | the ` (YYYY)` suffix is unchanged by collapsing |
| `Fields.SplitFirst` | src/scrape.js:60 | the first piece of a split is everything before the first separator |
| `Fields.Platform` | src/scrape.js:59-63 | the platform name has no dash and is no longer than the service id |
| `Fields.PlatformOfSegments` | src/scrape.js:59-63 | the platform is the first segment, followed by a space and the second segment when the second is non-empty and not a number; segments after the second are ignored |
| `Fields.PlatformOfSingleSegment` | src/scrape.js:59-63 | a service id without a dash is its own platform name |
| `Fields.NumericSecondSegment` | src/scrape.js:59-63 | `name-1` gives `name`, because a numeric second segment adds nothing |
| `Fields.WordSecondSegment` | src/scrape.js:59-63 | `first-second-1` with a non-numeric `second` gives `first second` |
| `Fields.NetflixPlatform` | src/scrape.js:22 | `netflix-1` gives `netflix` |
| `Fields.HboPlatform` | src/scrape.js:23 | `hbo-1` gives `hbo` |
| `Fields.AmazonPrimePlatform` | src/scrape.js:24 | `amazon-prime-1` gives `amazon prime` |
| `Fields.AppleTvPlatform` | src/scrape.js:25 | `apple-tv-1` gives `apple tv` |
| `Fields.TrimPadding` | src/scrape.js:50 | trimming removes the whitespace around text that has no whitespace at either end |
| `Fields.Points` | src/scrape.js:49-52 | the points are NaN (`None`) exactly when no digit follows the optional sign of the trimmed cell, and negative only when the trimmed cell starts with `-` |
| `Fields.ParseIntNumeral` | src/scrape.js:49-52 | `parseInt` reads back a written number, or its negation after `-`, whatever non-digit text follows |
| `Fields.PointsOfDigits` | src/scrape.js:49-52 | a points cell holding an optional `+` or `-` and a run of digits, padded with whitespace, gives the run's value, negated after `-` |
| `Fields.PointsOfNumeral` | src/scrape.js:49-52 | a points cell holding a number padded with whitespace gives that number |
| `Fields.PointsNaN` | src/scrape.js:49-52 | a points cell gives NaN (`None`) if and only if, once trimmed, it is empty, starts with neither a sign nor a digit, or is a sign not followed by a digit |
| `Fields.DatePart` | src/scrape.js:64 | `split("T")[0]`: a prefix of the timestamp without a `T`, followed in it by a `T` unless it is the whole timestamp |
| `Fields.DatePartOfTimestamp` | src/scrape.js:64 | for a timestamp `date + "T" + time` whose date part has no `T`, the stored date is `date` |
| `Scrape.MakeEntry` | src/scrape.js:54-65 | the pushed entry has rank `index + 1`, `isOriginal` equal to the row's "original" flag, a collapsed title, a platform name without a dash and a date without a `T` |
| `Scrape.SlicedRows` | src/scrape.js:30-34 | `.slice(0, 2)` of a service's rows: at most two rows, the leading ones of the div's rows, none when the div is absent |
| `Scrape.ServiceEntries` | src/scrape.js:31-66 | a service contributes one entry per sliced row, at most two, ranked 1, 2, … in row order |
| `Scrape.ServiceEntryAt` | src/scrape.js:35-65 | the entry at index `j` of a service's entries is the one built from its `j`-th row, with rank `j + 1` |
| `Scrape.Assemble` | src/scrape.js:27-35 | the results over a list of services hold at most two entries per service |
| `Scrape.GetTrendingMovies` | src/scrape.js:21-70 | the nested loops build exactly `Assemble` over the four fixed services; at most 8 entries; every rank is 1 or 2; every platform is one of the four names; every title is collapsed; every date is the date part of the clock reading |
| `Scrape.AssembleStep` | src/scrape.js:29-68 | one round of the services loop appends that service's entries |
| `Scrape.PushEntry` | src/scrape.js:54-65 | one `results.push` of the rows loop extends that service's entries by the next one |
| `Scrape.AssembleConcat` | src/scrape.js:29-68 | assembling over two service lists in sequence gives the first list's entries followed by the second's |
| `Scrape.TrendingOrder` | src/scrape.js:21-35 | the results are grouped by service in the order netflix, hbo, amazon-prime, apple-tv; a service whose div is absent contributes nothing |
| `Scrape.AssembleOrigin` | src/scrape.js:29-65 | every result is the entry at some index of some listed service's entries |
| `Scrape.KnownServicePlatform` | src/scrape.js:21-26 | each of the four service ids gives one of the four platform names |
| `Scrape.EntryWellFormed` | src/scrape.js:54-65 | an entry of one of the four services has rank 1 or 2, a collapsed title, one of the four platform names and the date part of the clock reading |
| `Scrape.TrendingEntriesWellFormed` | src/scrape.js:21-70 | the results hold at most 8 entries, and each has rank 1 or 2, a collapsed title, a known platform name and the date part of the clock reading |
| `Scrape.AssembleLength` | src/scrape.js:29-35 | the number of results is the sum of the rows taken per service; it is zero exactly when every service's div is absent or has no rows |
| `Scrape.EmptyPage` | src/scrape.js:29-31 | a page with none of the four divs gives no results |

## Left out

- The outbound `fetch` with its User-Agent header and the error thrown on a non-OK status (src/scrape.js:8-17). These are network I/O.
- The HTML parser and its CSS-selector queries (src/scrape.js:20, 30-37, 48). The page is an input instead: a map from each present service id to the rows of its `tbody`. Each row gives the text of the title cell's last div, the title link's `href`, whether a `span[title*="original"]` exists and the text of the third cell. The selectors' own matching is not modelled.
- The two routes and the scheduled task (src/scrape.js:77-205). They are key-value get/put, response envelopes and CORS headers around `getTrendingMovies`.
- The clock. `new Date().toISOString()` is the parameter `now`. The source reads the clock again for each pushed row, so rows pushed across midnight could differ in date. The model uses one reading for the whole call.
- `console.error` and the rethrow in the catch block (src/scrape.js:71-74).
- `parseInt` returns a floating-point number. Numerals beyond 2^53 lose precision there, but not in the model, whose points are unbounded integers.
- `isNaN` on the second segment of a service id counts only non-empty strings of decimal digits as numbers. JavaScript also accepts forms such as `1.5`, `1e3`, `0x1F`, ` 7 ` or `Infinity`. None of these occurs in the four fixed service ids, so the platform names of those ids are exact.
- The `\s` class and `trim` use ECMAScript's WhiteSpace and LineTerminator code points, with the Unicode space separators listed explicitly as of current Unicode. A later Unicode version that adds a space separator is not reflected.
- The JSON serialisation of the results (NaN becomes `null`) happens in the callers and is not part of this model.
