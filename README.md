# Transaction dashboard: a Dafny model

This project models the analytic core of a transaction-fraud dashboard website. It has three parts:

- **The CSV dashboard** (`src/App.js`):
  - rows parsed from a bundled CSV file are cleaned up once at load time;
  - an inclusive date-range filter runs over each row's last-activity time; it does nothing while a bound fails to parse;
  - it shows the number of rows per transaction type, the total and average amount, and the fraud count, fraud amount and fraud percentage;
  - amounts are formatted in dollars, or in millions from 100,000 up;
  - an hourly histogram of normal versus fraudulent rows is built by walking the range in one-hour steps.
- **The sample dashboard** (`transaction-dashboard/src/App.js`):
  - two bundled sample records make up its data;
  - its date filter treats an empty bound as the epoch or as the latest representable date;
  - it shows the same statistics, a count of distinct countries, and an amount-versus-balance scatter projection.
- **The site navigation** (`js/main.js`):
  - a nav link's section id is taken from its `onclick` text with the regular expression `'([^']+)'`;
  - the section to show is chosen from the URL path, falling back to the saved section or to `dashboard`;
  - showing a section hides all the others, marks the matching links active and pushes `/<id>` onto the history.

Modules:

| file | module | what it holds |
|---|---|---|
| `common.dfy` | `Common` | `Option` (JavaScript's null/NaN results), `Filter` (`Array.prototype.filter`), the order-preserving sublist relation |
| `transactions.dfy` | `Transactions` | the transaction record, and the statistics both dashboards compute: type counts, total, average, fraud figures, distinct countries, scatter points |
| `csv_dashboard.dfy` | `CsvDashboard` | the `src/App.js` state, load pipeline, date filter, formatting, and the hourly histogram (an imperative method over a dictionary, proved against a specification function) |
| `sample_dashboard.dfy` | `SampleDashboard` | the `transaction-dashboard/src/App.js` state, sample data, defaulted date filter, and the sample figures |
| `navigation.dfy` | `Navigation` | id extraction, path splitting, the navigation choice and URL round trip, and a `Page` class whose methods update the section and link flags |

Conventions:

- **Dates.** JavaScript's date parser (`new Date(x)`, with NaN as None) is a parameter of every operation that parses. Instants are integer milliseconds since the epoch.
- **Hour key.** For instants in the years 0000 to 9999, `toISOString().slice(0, 13)` names the UTC hour `t / 3600000`. Dafny's `/` is a floor division for a positive divisor, so this also holds before 1970.
- **Amounts** are exact reals. Of `formatAmount` the model keeps which branch is taken and the number printed, not the rounding.
- **React state** is a datatype, and each update is a function from old state to new. An effect reruns after the setters it depends on: loading, or editing a date, reapplies the filter.

Two behaviours of the code that are easy to misread:

- A row inside the range can be missing from the histogram, and not only a row exactly at the range end. The walk starts at the start instant rather than at the top of its hour. So any row in the hour after the last walked step is dropped, when that hour still lies inside the range. See "Findings" below.
- Only the literal text `True` marks a row as fraud. Papa Parse's dynamic typing turns only `true`/`TRUE`/`false`/`FALSE` into booleans, and the code tests `is_fraud === 'True'`. A cell already typed as boolean `true` does not mark a row (`CsvDashboard.ToTransaction`).

## Model

| member | source | states |
|---|---|---|
| Transactions.TotalAmount | src/App.js:107-110 | the reduce of the amounts is 0 for no rows and is non-negative when every amount is |
| Transactions.TotalAmountConcat | transaction-dashboard/src/App.js:103-105 | the total of two concatenated lists is the sum of their totals |
| Transactions.AverageAmount | src/App.js:112-115 | the average is undefined (the NaN of 0/0) exactly for no rows; otherwise average times length is the total |
| Transactions.TotalAmountBounds | transaction-dashboard/src/App.js:103-105 | when every amount lies in [lo, hi], the total of n rows lies between lo and hi added up n times |
| Transactions.AverageAmountWithinBounds | transaction-dashboard/src/App.js:107-109 | the average of a non-empty list lies between any lower and upper bound of its amounts |
| Transactions.FraudOnly | src/App.js:118 | the fraud filter keeps rows of the input that are fraud, and every fraud row of the input |
| Transactions.NormalOnly | src/App.js:118 | the complementary filter keeps rows of the input that are not fraud, and every such row |
| Transactions.FraudPartition | src/App.js:117-119 | fraud and normal rows partition the list: their counts add up to its length and their totals to its total |
| Transactions.FraudStats | src/App.js:117-126 | count and amount are those of the fraud rows (count plus normal count is the length, amount plus normal total is the total); the percentage is undefined exactly for no rows, otherwise `Percentage(count, length)`, within [0, 100] |
| Transactions.PercentageBounds | src/App.js:120 | `Percentage`, the exact `(part / whole) * 100`, lies in [0, 100], equals 100·part/whole, is 0 exactly when part is 0 and 100 exactly when part is whole |
| Transactions.FraudCountExtremes | transaction-dashboard/src/App.js:112-114 | the fraud count is 0 exactly when no row is fraud; the normal count is 0 exactly when every row is |
| Transactions.FraudStatsBounds | transaction-dashboard/src/App.js:111-120 | with non-negative amounts the fraud amount is at most the total; on a non-empty list the percentage is 0 exactly when no row is fraud and 100 exactly when every row is |
| Transactions.TypeCountsGroupsByType | transaction-dashboard/src/App.js:95-101 | `TypeCounts`, the entries of the reduce: each type has exactly one entry, the names are exactly the rows' types, each count is that type's number of rows, and the counts add up to the number of rows |
| Transactions.BumpNames | src/App.js:101 | one reduce step keeps the names in place and appends a type seen for the first time |
| Transactions.BumpExisting | src/App.js:101 | `Bump`, one step of the reduce that counts types: for a type already present it adds one to that entry's count in place and changes nothing else |
| Transactions.BumpNew | src/App.js:101 | `Bump` for a type not yet present appends an entry for it with count 1 |
| Transactions.FirstOccurrences | src/App.js:104 | the reference for first-seen order: the distinct strings of a list, each at its first occurrence |
| Transactions.TypeCountsFirstSeenOrder | src/App.js:99-105 | the names of `TypeCounts`'s entries are the rows' distinct types in the order of first occurrence |
| Transactions.Countries | transaction-dashboard/src/App.js:307 | the set of countries holds every row's country and nothing else, and has at most as many elements as rows |
| Transactions.UniqueCountries | transaction-dashboard/src/App.js:307 | the distinct-country count is at most the number of rows and is 0 exactly for no rows |
| Transactions.ScatterData | transaction-dashboard/src/App.js:122-129 | one point per row, in order: x is the amount, y the balance difference, name the country, z 100 exactly for fraud rows and 50 exactly for the others |
| Transactions.PointOf | transaction-dashboard/src/App.js:123-128 | a point's x is the amount, y the balance difference and name the country; z is 100 exactly for a fraud row and 50 exactly for any other |
| Transactions.ScatterMarksFraud | transaction-dashboard/src/App.js:122-129 | the large (z = 100) points are as many as the fraud count |
| CsvDashboard.ToTransaction | src/App.js:65-70 | a kept row's dates are the parsed instants of its cells, the fraud flag holds exactly when the raw cell is the text `True`, and the other fields are copied |
| CsvDashboard.Load | src/App.js:63-71 | the load pipeline yields at most as many records as rows; each is the mapping of a `Kept` row, one whose two date cells are truthy and parse, and every such row is represented |
| CsvDashboard.LoadConcat | src/App.js:63-71 | loading keeps the rows' order: it commutes with concatenation |
| CsvDashboard.RangeFilter | src/App.js:85-88 | the filtered list is an order-preserving sublist of the data; it holds exactly the records with start ≤ last activity ≤ end, with as many copies of each as the data has; it is empty when start > end |
| CsvDashboard.RangeFilterKeepsAll | src/App.js:85-88 | a range covering every record keeps the data as it is, so the filtered total is the total |
| CsvDashboard.ApplyDateFilter | src/App.js:80-90 | if either bound fails to parse the state is unchanged; otherwise `filteredData` becomes the range filter of `data`, and nothing else changes |
| CsvDashboard.ApplyDateFilterIdempotent | src/App.js:80-90 | rerunning the filter effect changes nothing |
| CsvDashboard.OnLoad | src/App.js:62-74 | after loading, `data` is the loaded list; `filteredData` is that list while a bound is invalid, and otherwise its range filter |
| CsvDashboard.SetStartDate | src/App.js:166 | editing the start input sets the start bound and keeps `data` and the end bound; `filteredData` becomes the range filter of `data` for the new bounds when both parse, and stays as it was otherwise |
| CsvDashboard.SetEndDate | src/App.js:173 | editing the end input sets the end bound and keeps `data` and the start bound; `filteredData` becomes the range filter of `data` for the new bounds when both parse, and stays as it was otherwise |
| CsvDashboard.FormatAmount | src/App.js:92-97 | the millions branch is taken exactly for amounts ≥ 100,000 and shows amount / 1,000,000 (at least 0.1); otherwise the amount itself, NaN included, is shown |
| CsvDashboard.GetTotalAmount | src/App.js:107-110 | the total of the filtered rows is shown, in millions exactly when it is ≥ 100,000 (the number shown times 1,000,000 is the total), otherwise in dollars; no rows show `$0.00` |
| CsvDashboard.GetAverageAmount | src/App.js:112-115 | the average of the filtered rows is shown, in millions (times 1,000,000 it is the average) or in dollars; no rows show `$NaN`; a millions display means the total is at least 100,000 times the number of rows |
| CsvDashboard.GetFraudStats | src/App.js:117-126 | the count is the number of fraud rows, at most the number of rows; the amount is the fraud rows' total through `formatAmount`, in millions exactly when it is ≥ 100,000; the percentage is NaN exactly for no rows, otherwise 100·count/rows, within [0, 100] |
| CsvDashboard.InitialDisplay | src/App.js:43-46 | before the CSV arrives nothing is filtered, and the figures read `$0.00`, `$NaN`, and 0 fraud rows of `$0.00` at `NaN%` |
| CsvDashboard.Histogram | src/App.js:133-151 | the specification of the buckets: none when start > end, otherwise one per step from start, dated start + i hours and keyed by consecutive hours, the last one within an hour before the end; each counts the normal and fraud rows of its hour |
| CsvDashboard.InitialRangeBars | src/App.js:45-46 | for the initial bounds, 38 h 13 min 28 s apart in one time zone, the chart has 39 bars, the last one 38 hours after the start |
| CsvDashboard.HourOf | src/App.js:136 | the hour key of an instant is the hour that starts at or before it, less than an hour earlier |
| CsvDashboard.EmptyHours | src/App.js:135-138 | the walk loop leaves one empty bucket per step, keyed by consecutive hours from the start's and dated by the step |
| CsvDashboard.CountRows | src/App.js:140-149 | the `forEach` loop leaves each bucket with its hour's normal and fraud counts, and adds no key |
| CsvDashboard.HourlyBuckets | src/App.js:129-151 | the two loops over the hour-keyed dictionary and `Object.values` produce exactly the specified buckets |
| CsvDashboard.StackedBarData | src/App.js:128-152 | no buckets when a bound fails to parse; otherwise the specified buckets of the walk from the start bound to the end bound |
| CsvDashboard.HistogramTotal | src/App.js:140-149 | each row counts once, in the bucket of its own hour, if the walk reached that hour: the bars add up to the rows whose hour was walked, never more than all rows |
| CsvDashboard.HistogramDropsInRangeRow | src/App.js:135-142 | a row inside the range (00:30–01:10, row at 01:05) is counted in no bucket |
| CsvDashboard.StackedBarDataHourAligned | src/App.js:133-151 | the corrected walk, from the top of the start bound's hour, produces the specified buckets of that walk |
| CsvDashboard.AlignedHistogramCountsEveryRow | src/App.js:140-149 | walking from the top of the start's hour, the bars add up to the number of rows when every row lies inside the range |
| SampleDashboard.SampleData | transaction-dashboard/src/App.js:55-80 | the fixed sample holds two records |
| SampleDashboard.Bound | transaction-dashboard/src/App.js:88-89 | an empty input gives the default instant (0 for the start, 8,640,000,000,000,000 ms for the end); any other is parsed |
| SampleDashboard.DateFilter | transaction-dashboard/src/App.js:85-91 | an order-preserving sublist holding exactly the records that `Keeps` admits, those whose date parses into the inclusive range, with as many copies of each as the data has; empty when a bound fails to parse or start > end |
| SampleDashboard.DateFilterKeepsAll | transaction-dashboard/src/App.js:85-91 | bounds admitting every record keep the data as it is, so the filtered total is the total |
| SampleDashboard.UnboundedFilterKeeps | transaction-dashboard/src/App.js:86-90 | with both inputs empty, a record is kept exactly when its date parses to an instant between the epoch and the latest date |
| SampleDashboard.ApplyDateFilter | transaction-dashboard/src/App.js:85-93 | the effect replaces `filteredData` by the date filter of `data` for the current bounds, a sublist of `data`, and changes nothing else |
| SampleDashboard.Mount | transaction-dashboard/src/App.js:53-83 | after the mount effect, `data` is the sample, the bounds are unchanged, and `filteredData` is the date filter of the sample for those bounds |
| SampleDashboard.SetStartDate | transaction-dashboard/src/App.js:185 | editing the start input sets the start bound, keeps `data` and the end bound, and sets `filteredData` to the date filter of `data` for the new bounds |
| SampleDashboard.SetEndDate | transaction-dashboard/src/App.js:193 | editing the end input sets the end bound, keeps `data` and the start bound, and sets `filteredData` to the date filter of `data` for the new bounds |
| SampleDashboard.MountShowsSamples | transaction-dashboard/src/App.js:53-93 | after mounting with empty inputs, `data` and `filteredData` both hold the two samples, when their dates parse to instants from 1970 on |
| SampleDashboard.SampleStatistics | transaction-dashboard/src/App.js:95-120 | the sample's total is 53398.73 and its average 26699.365; it has one fraud record of 50000 (50 %), two countries, and one PAYMENT before one TRANSFER |
| Navigation.RunEnd | js/main.js:38 | the first quote at or after a position, or the end of the text |
| Navigation.FirstMatch | js/main.js:38 | the leftmost position where the pattern matches, with no match before it, or none at all |
| Navigation.SectionIdOf | js/main.js:38 | an extracted id is non-empty and free of quotes; there is none exactly when the pattern matches nowhere |
| Navigation.SectionIdOfQuoted | js/main.js:7 | after a quote-free prefix, the first quoted non-empty run is the id, whatever follows it |
| Navigation.SectionIdOfUnmatched | js/main.js:38 | an unclosed quote or an empty quoted pair yields no id |
| Navigation.Split | js/main.js:53 | splitting gives at least one piece, none containing the separator, and joining the pieces gives back the text |
| Navigation.SplitWithoutSeparator | js/main.js:53 | text without the separator splits into itself alone |
| Navigation.SplitAtSeparator | js/main.js:53 | splitting at a separator splits the two sides separately |
| Navigation.Segments | js/main.js:53 | every path segment is non-empty and free of slashes |
| Navigation.SegmentsAtSlash | js/main.js:53 | the segments of `a/b` are those of `a` followed by those of `b` |
| Navigation.SegmentsLeadingSlash | js/main.js:53 | a leading slash adds no segment |
| Navigation.SegmentsRepeatedSlash | js/main.js:53 | a repeated slash counts as one |
| Navigation.NavigationTarget | js/main.js:53-61 | the chosen section is never empty: the first path segment when there is one, else the saved section when it is non-empty, else `dashboard` |
| Navigation.URLFor | js/main.js:48 | the pushed path is a slash followed by the id |
| Navigation.URLRoundTrip | js/main.js:47-57 | choosing from the path pushed for a non-empty, slash-free id selects that id again, whatever is saved |
| Navigation.IndexOf | js/main.js:24 | the lookup finds the first section carrying the id, and none exactly when no section does |
| Navigation.Shown | js/main.js:19-29 | a section left visible carries the id, and no earlier section does |
| Navigation.ShownExactlyOne | js/main.js:19-29 | after showing, exactly one section is visible, one carrying the id, when any does; otherwise none is |
| Navigation.FirstUnnamed | js/main.js:37-38 | the first link whose onclick text names no section, with every earlier link naming one; none exactly when every link names one |
| Navigation.MarkedLinks | js/main.js:35-45 | when every link names a section, a link ends up active exactly when it names the id; otherwise the link where the TypeError is thrown and every later link keep their flags |
| Navigation.MarkedLinksAllNamed | js/main.js:35-45 | when every link names a section, afterwards exactly the links naming the id are active |
| Navigation.Page.UpdateActiveLink | js/main.js:35-45 | each link up to the first unnamed one becomes active exactly when it names the id; the TypeError there leaves the rest as they were and reports failure; nothing else changes |
| Navigation.Page.ShowSection | js/main.js:18-33 | every section is hidden except the first one carrying the id; an error is logged exactly when there is none; links are marked as above, and `/<id>` is pushed exactly when marking completed |
| Navigation.Page.HandleNavigation | js/main.js:52-62 | `showSection` of the section chosen from the path and the saved value, with all its effects: sections shown, the error logged exactly when none carries the id, links marked, completion exactly when every link names a section, and `/<id>` pushed exactly then |
| Navigation.Page.ClickLink | js/main.js:6-9 | a click on a link naming no section changes nothing, no error logged included; otherwise `showSection` of its id with all its effects, and when marking completes the clicked link is active |

## Left out

- Fetching the CSV and Papa Parse's tokenising and typing (src/App.js:56-77) are I/O and a foreign library. The parsed rows are a given sequence of typed cells. The `console.error` on a failed fetch is not modelled.
- JavaScript's date-string parsing is a foreign algorithm. Every operation takes it as a function parameter.
- CsvDashboard.HourlyBuckets steps by exactly one hour. The source's `setHours(getHours() + 1)` steps in local time, so across a daylight-saving change a step can be shorter or longer. It can then rewrite an existing hour's bucket.
- Floating-point amounts and `toFixed` rounding are not modelled. Amounts are exact reals, and the display is modelled by which branch is taken and the number shown.
- Non-numeric or missing amount cells are not modelled: `sum + null` adds 0, and `sum + "x"` concatenates text.
- Transactions.TypeCounts keeps types in insertion order. JavaScript's `Object.entries` lists integer-like keys (such as a type named `"2"`) first, in numeric order. The model does not, because the dashboards' type labels are words.
- Transactions.TypeCountsGroupsByType: the count holds for ordinary type names only. The accumulator is a plain `{}`, so a type named after an `Object.prototype` member (`constructor`, `toString`, ...) starts from the inherited function and its value becomes text such as `"function Object() { [native code] }1"`, and a type named `__proto__` never becomes an entry.
- CsvDashboard.HourOf is the hour key only for instants in the years 0000 to 9999. Outside them `toISOString` writes a six-digit signed year, `slice(0, 13)` names a day, and the histogram's buckets of one day merge.
- Navigation.Page.ShowSection looks the id up among the `#content > section` elements only. `document.getElementById` can also return another element with that id and make it visible.
- Navigation.SectionIdOf takes the `onclick` attribute as text. A link without the attribute (`getAttribute` returning null) is not modelled. A link whose text does not match is modelled: its TypeError stops `updateActiveLink` and `showSection`.
- Navigation.URLRoundTrip assumes that `location.pathname` reads back exactly the text given to `pushState`. A browser percent-encodes characters such as spaces (`"a b"` reads back as `a%20b`), treats `?` and `#` as the start of the query and the fragment, removes `.` and `..` segments, and turns `\` into `/`. For ids with such characters the path does not lead back to the id.
- Navigation.Page.ClickLink models only the script's listener. The link's own inline `onclick` code also runs on the click. When its onclick text names no section, the listener's TypeError also skips `event.preventDefault()` (js/main.js:7-9), and the browser then follows the link's `href`.
- `history.pushState`'s state object and `localStorage` are browser storage outside the model. Pushed URLs are a sequence, and the saved section is a parameter. Nothing in the script writes `activeSection`. `popstate` only calls `handleNavigation`. `DOMContentLoaded` calls `handleNavigation` first and then attaches the click listener to every `nav a` (js/main.js:2-11).
- Navigation.Page.ClickLink does not model when the listener exists. It is attached only when the first `handleNavigation` returns normally, that is, when every link present at load names a section. On a page where some link names none, that call throws in `updateActiveLink` and no link gets a listener. The contract's `!completed` cases are therefore reachable only for links added or changed later.
- Tabs, theming, charts, animation, the PDF viewer state and the metric selector of both dashboards are presentation only.
- `js/predict.js` is a form read and a network request with float parsing. `training.py` and `app.py` are model training and a web endpoint on foreign libraries.
- `transaction-dashboard/src/ui.js` holds styled components without logic.

## Findings

| source | as written | input that shows it | evidently intended | confidence | as-written member | corrected member |
|---|---|---|---|---|---|---|
| src/App.js:135-142 | buckets are created by walking from the start instant in one-hour steps and keyed by hour, so the walk can stop before the hour holding the end of the range; rows of that hour are counted nowhere | range 1970-01-01T00:30Z to 01:10Z; one bucket, for hour 00, is made, and a row at 01:05 is dropped | every row inside the range is counted: walk from the top of the start's hour | medium, not executed | CsvDashboard.HistogramDropsInRangeRow | CsvDashboard.AlignedHistogramCountsEveryRow |
