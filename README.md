# Blueprint summary: listing parser, fetch accounting and report rows

`blueprint-summary.py` reports on the blueprints in a process-modelling
library. It authenticates, lists the blueprint IDs, fetches every blueprint
concurrently and writes two CSV files. One holds a data row per blueprint
answered 200 whose details could be extracted. The other holds an error row
per blueprint answered in any other way. A request with no response at all
aborts the script before either file is written. This Dafny project models the three pieces of logic in the script
and proves what they promise:

- **Listing parser** (`listing.dfy`, module `Listing`). The listing body is
  split on `'\n'` with Python's `str.split` semantics. The slice `[1:-1]`
  then drops the first and the last piece, with Python's clamping of slice
  bounds. Each remaining entry goes through `strip('/"')`. `Split`/`Join`,
  `Slice`/`DropEnds` and `StripLeading`/`StripTrailing`/`Strip` are
  functions. Their contracts and lemmas give:
  - the split/join inverse in both directions;
  - the number of entries;
  - the trimming characterised exactly (a contiguous piece, with only
    wrapping characters cut off) and idempotent;
  - `"/ID"` lines parsed back to their IDs.
- **Per-item outcome and accumulation** (`fetch.dfy`, module `Fetch`;
  `schedule.dfy`, module `Schedule`). Class `Results` holds `bp_export`
  (field `exported`), `bp_errors` (field `errors`) and the progress bar's
  count. `GetBlueprintData` handles one reply, which is one of:
  - no response (the GET at line 105 fails outside the `try`);
  - a 200 whose extraction succeeds;
  - a 200 whose extraction raises;
  - any other status.

  `FetchAll` strips every entry in listing order, then lets the tasks
  complete in an arbitrary processing order, a permutation of the listing
  positions. Both methods are proved against the functions `Step` and
  `Run`. The lemmas about `Run` give the partition theorem: when every
  request is answered, the two lists together hold each listed ID exactly
  as often as it is listed, whatever the processing order. The progress
  count ends at N minus the number of caught exceptions.
- **Report rows** (`report.dfy`, module `Report`). `WriteTable` is the
  row-writing loop with its `row_count` flag. It writes no rows for an empty
  list; otherwise it writes the header once, then one row per record in list
  order. `SaveData` and `SaveErrors` apply it with the data header
  `ID, Name, Space, LMD, Age in Days` and the error header `ID`.
- **The whole run** (`summary.dfy`, module `Summary`). `Summarise` chains
  parse, fetch and write. Nothing is written when a request produced no
  response. Otherwise it gives both files in full (`Report.DataFile`,
  `Report.ErrorFile`):
  - the data file holds one row per successful item (a 200 whose extraction
    succeeded), with that item's values;
  - the error file holds one `[id]` row per other answered item;
  - both are in processing order;
  - which records are exported and which IDs are errors, each how often,
    is the same for every processing order;
  - together their ID columns list the listing's IDs exactly as often as they
    occur.

The inputs are the listing body, the processing order and one `Reply` per
listing position. `Reply` covers the status and what the JSON decoding and
the four `bwl_utils` extractors make of the body. The network, the clock and
the concurrency are thereby parameters of the model.

The listing body `"/A"\n"/B"\n` gives only `B`: lines 77-80 drop the
first line whatever it holds. `Listing.FirstLineAlwaysDropped` states this
in general: a body with an entry on every line loses the first entry. The slice
drops the last piece too: a listing that starts with a line of its own and
ends with a newline parses in full (`Listing.ListingRoundTrip`); without the
final newline its last entry is dropped as well
(`Listing.LastLineDroppedWithoutNewline`).

## Model

| member | source | states |
|---|---|---|
| `Listing.Split` | blueprint-summary.py:77 | `split('\n')` always gives at least one piece, and no piece contains a newline |
| `Listing.SplitCount` | blueprint-summary.py:77 | there is exactly one more piece than the body has newlines |
| `Listing.JoinSplit` | blueprint-summary.py:77 | joining the pieces with the separator reproduces the body |
| `Listing.SplitJoin` | blueprint-summary.py:77 | splitting a join of separator-free pieces gives back exactly those pieces |
| `Listing.SliceBound` | blueprint-summary.py:80 | a slice bound is clamped to `0..n`; a negative bound `-k` with `k <= n` means `n - k` |
| `Listing.Slice` | blueprint-summary.py:80 | Python's `xs[start:stop]`: the elements from the normalised start bound on, as many as the normalised stop bound exceeds it, and none when it does not |
| `Listing.DropEnds` | blueprint-summary.py:79-80 | `[1:-1]` keeps max(0, n-2) pieces, which are exactly the interior pieces in their original order; two or fewer pieces give nothing |
| `Listing.StripLeading` | blueprint-summary.py:95 | the left half of `strip`: the result is a suffix of the entry, everything cut off is `/` or `"`, and the result does not start with one |
| `Listing.StripTrailing` | blueprint-summary.py:95 | the right half of `strip`: the result is a prefix, everything cut off is `/` or `"`, and the result does not end with one |
| `Listing.Strip` | blueprint-summary.py:95 | the ID is the contiguous substring of the entry after the leading run of wrapping characters; everything removed on both sides is wrapping; the ID neither starts nor ends with `/` or `"` |
| `Listing.StripIdempotent` | blueprint-summary.py:95 | stripping an ID again leaves it unchanged |
| `Listing.StripUnwraps` | blueprint-summary.py:95 | any run of wrapping characters around a core that does not itself start or end with one is removed exactly, giving the core back |
| `Listing.ListingEntries` | blueprint-summary.py:76-80 | a body with k newlines gives k-1 entries (none when k <= 1), none of which holds a newline |
| `Listing.BlueprintId` | blueprint-summary.py:95 | the ID of an entry neither starts nor ends with `/` or `"` |
| `Listing.BlueprintIds` | blueprint-summary.py:94-95 | one ID per entry, in listing order, each the stripped entry |
| `Listing.ListingRoundTrip` | blueprint-summary.py:76-80 | a body of a first line, entry lines and a final newline parses to exactly the entry lines |
| `Listing.LastLineDroppedWithoutNewline` | blueprint-summary.py:76-80 | a body of a first line, the entry lines and a last entry line with no newline after it parses to the entry lines without that last one |
| `Listing.WrappedParses` | blueprint-summary.py:95 | a well-formed ID wrapped as `"/ID"` stays on one line and strips back to the ID |
| `Listing.ListingOfWrappedIds` | blueprint-summary.py:76-95 | K well-formed IDs written one per line as `"/ID"` after a first line parse to exactly those K IDs in order |
| `Listing.FirstLineAlwaysDropped` | blueprint-summary.py:79-80 | a body with an entry on every line and a final newline loses its first entry |
| `Schedule.PickPermutes` | blueprint-summary.py:94-99 | taking the listed items in any processing order rearranges them without losing or duplicating any |
| `Fetch.StepOutcome` | blueprint-summary.py:102-133 | the behaviour of `Step`, the model of `get_blueprint_data`: no response: the task fails and nothing is recorded; a 200 with successful extraction appends one record with the stripped ID to `bp_export`, leaving `bp_errors` alone; any other answered case appends `{'ID': id}` to `bp_errors`, leaving `bp_export` alone; progress advances except when the exception handler ran |
| `Fetch.RunCompletes` | blueprint-summary.py:94-106 | `Run` completes exactly when every request it makes gets a response |
| `Fetch.RunStaysFailed` | blueprint-summary.py:99-106 | once a request outside the `try` has failed, the run fails whatever follows |
| `Fetch.RunMatchesReference` | blueprint-summary.py:94-133 | the behaviour of `Run`, the tasks of lines 94-99 handled one after the other: with every request answered, `bp_export` gains the successful items and `bp_errors` the others, both in processing order; progress + caught exceptions = items handled |
| `Fetch.StepRecordsOnce` | blueprint-summary.py:106-133 | handling an answered item adds one record in total to the two lists, and adds its ID exactly once to the IDs they hold together |
| `Fetch.RunRecordsEachOnce` | blueprint-summary.py:94-133 | with every request answered, a run adds one record per item, and the IDs the two lists hold together grow by exactly the handled IDs, each as often as it occurs |
| `Fetch.ScheduledRunPartitions` | blueprint-summary.py:94-133 | in any processing order with every request answered: \|bp_export\| + \|bp_errors\| = N, the IDs of the two lists together are the listed IDs as a multiset, and the final progress count is N minus the caught exceptions |
| `Fetch.SuccessesAppend` | blueprint-summary.py:106-116 | each item is classified on its own: the successes of two runs of items one after the other are the successes of the first followed by those of the second |
| `Fetch.FailuresAppend` | blueprint-summary.py:106-130 | the same for the error records: the failures of two runs one after the other are those of the first followed by those of the second |
| `Fetch.ClassifyRespectsMultiset` | blueprint-summary.py:94-133 | two processing orders taking the same positions equally often export the same records and report the same errors, each equally often |
| `Fetch.ClassificationIndependentOfOrder` | blueprint-summary.py:94-133 | in any processing order, `bp_export` holds the same records and `bp_errors` the same error records as in listing order, each equally often; only their order depends on the processing order |
| `Fetch.ListedOnceRecordedOnce` | blueprint-summary.py:94-133 | an ID listed once lands in exactly one of the two lists |
| `Fetch.TwoBlueprintScenario` | blueprint-summary.py:107-130 | A answered 200 with its details and B answered 404 give one export record for A, one error record for B, and a progress count of 2 |
| `Fetch.Results.constructor` | blueprint-summary.py:85-86 | both result lists start empty and the progress count at zero |
| `Fetch.Results.GetBlueprintData` | blueprint-summary.py:102-133 | the three answered cases append exactly one record to exactly one list, as in `StepOutcome`; no response leaves the state unchanged and reports the failure; the new state is `Step` of the old one |
| `Fetch.StripEntries` | blueprint-summary.py:94-95 | the loop strips every entry in listing order, giving `BlueprintIds` of the entries |
| `Fetch.Results.FetchAll` | blueprint-summary.py:89-99 | strips every entry in listing order, then handles the items in the processing order; the final state is `Run` of the initial state over the items in that order, or the run is reported failed exactly when `Run` fails |
| `Report.DataRow` | blueprint-summary.py:115 | a data row has one field per header column, each the record field that column names: ID, name, space, last-modified, age |
| `Report.ErrorRow` | blueprint-summary.py:160-163 | an error row has one field, under the error file's one column, and it is the record's ID |
| `Report.WriteTable` | blueprint-summary.py:143-149 | an empty list gives no rows, not even a header; otherwise len+1 rows, the header first and then one row per record in list order |
| `Report.SaveData` | blueprint-summary.py:138-151 | the data file: no rows for no exports, otherwise the header `ID, Name, Space, LMD, Age in Days` and then the data rows in `bp_export` order |
| `Report.SaveErrors` | blueprint-summary.py:154-165 | the error file: no rows for no errors, otherwise the header `ID` and then one `[id]` row per error in `bp_errors` order |
| `Report.DataFileIds` | blueprint-summary.py:144-149 | the record rows of the data file list the export IDs in order |
| `Report.ErrorFileIds` | blueprint-summary.py:158-163 | the record rows of the error file list the error IDs in order |
| `Summary.CompletesIffAnswered` | blueprint-summary.py:99-106 | in any processing order the fan-out completes exactly when every request is answered |
| `Summary.ScheduledRunClassifies` | blueprint-summary.py:94-133 | in any processing order with every request answered, `bp_export` ends as the successful items and `bp_errors` as the other items, each in processing order |
| `Summary.Summarise` | blueprint-summary.py:76-165 | completed iff every request is answered; nothing is written otherwise; each file that has rows starts with its header; the data file holds one row per successful item (a 200 whose extraction succeeded) with that item's values, and the error file one `[id]` row per other answered item, both in processing order; the two ID columns hold, as multisets, the IDs of the successful and of the other answered items in listing order, whatever the processing order; the ID column of the two files together holds the listed IDs exactly as often as they are listed |

## Left out

- Argument parsing and loading the YAML config, including the abort on a missing file (lines 15-40): library I/O.
- The OAuth token request and the access-token check (lines 52-69), and the listing GET (lines 71-76): network calls. The listing body is an input string.
- The aiohttp session, `TCPConnector(limit=5)`, `ensure_future` and `gather` (lines 89-99): the concurrency is replaced by a sequential loop over an arbitrary processing order. The cap of five connections is not modelled.
- Building the per-blueprint URL and the TLS setting of the GET (lines 103-105): the reply for each listing position is an input.
- A GET that produces no response (line 105, outside the `try`): its exception escapes the task, then `gather`, then `asyncio.run`, and the script dies before writing either file. The model stops the run at that item. It does not model which other tasks had already completed or were cancelled.
- `response.json()` and the `bwl_utils` extractors (lines 109-113): their source is not part of this model. Each 200 reply carries either the four extracted values or the fact that one of these calls raised. The extracted values are modelled as the strings the CSV writer receives, because their types are not visible.
- Fetch.Results.GetBlueprintData: assumes that logging and `pbar.update` inside the `try` (lines 118-126) do not raise. An exception after the append at line 116 would record the item in both lists. It also assumes that the `logger.error` calls in the `except` branch (lines 131-133) do not raise; one that did would escape the task and fail the run.
- `csv.writer` quoting and escaping, and opening and closing the files (lines 138-165): a file is modelled as the sequence of rows written to it. When the run completes, an empty row sequence stands for the empty file the script creates. When it does not complete (a request with no response), the script never opens either file; the empty row sequences `Summary.Summarise` then returns stand for nothing written, and files from an earlier run stay as they were.
- Logging, the tqdm display, the `print` calls and the timing (lines 24-30, 43-44, 69, 82, 131-133, 168-169).
