# stix search core, in Dafny

A model of the evidence-matching and statistics core of stix (`src/search.c`),
with proofs of what it computes. stix asks a range index for the evidence
records near a queried deletion. It decodes each raw record into two
breakpoints and an evidence type. It decides whether a record supports the
deletion and counts the supporting records per sample, paired-end and split-read
apart. Then it summarises the per-sample totals. Zeros and ones are counted,
the minimum and maximum are kept, and the totals of two or more go into four
quartile buckets.

Modules, in dependency order:

- `Results`: `Option` and `Result`, used for the places where the C code calls `errx`.
- `Decimal`: what C's `atoi` reads from a string, and the decimal writer it inverts.
- `Breakpoints`: `uint32_t` (`u32`, and `ToU32` for C's conversion into it), breakpoints, SV types and decoded records.
- `RecordParser`: `stix_parse_result` over a line already split at its tabs.
- `Matcher`: `stix_check_del` and `stix_check_sv`.
- `Aggregator`: the counting loop of `stix_run_giggle_query`. The index query result is a sequence of per-sample record sequences.
- `Sorting`: `qsort`, specified as the sorted permutation (`SortSeq`) and applied in place.
- `Dedup`: `stix_get_uniq`.
- `Quartiles`: `stix_bsearch_seq` and `stix_get_quartile_counts`.
- `Summary`: `stix_get_summary`.

Functional parts are functions and lemmas. The C routines that loop or write
through pointers are methods over arrays, proved against specification
functions: `Tally`, `SortSeq`, `Uniq`, `CountLess`, `QuartileCounts`,
`Occurrences`, `Many`, `MinOf` and `MaxOf`. The properties of the source are then
lemmas about those functions.

Behaviour of `src/search.c` that a reader may not expect, and that the model
keeps:

- A record with fewer than nine fields is not a recoverable error. The decoder hands a null token to `atoi`, so nine fields are a precondition (`WellFormed`).
- A query for a type other than DEL fails only when the first record is checked (src/search.c:206-212). A query whose selected samples have no records does not fail at the type check; the C code then dereferences NULL at src/search.c:233-236 (not modelled, see Left out).
- The `num_uniq == 3` branch (src/search.c:295-302) is never taken, because the test before it is `num_uniq >= 3`. Three distinct values take the general branch (`ThreeValuesExample`).
- With one or two distinct values the bucket counts are the constants of src/search.c:303-319. They sum to the number of distinct values, not to the population size (`FewDistinctValues`, `RepeatedValueExample`).

## Model

| member | source | states |
|---|---|---|
| Decimal.Atoi | src/search.c:59-72 | a string with no digit (empty, blank, a bare sign) reads as 0 |
| Decimal.DigitsRoundTrip | src/search.c:59-72 | atoi's digit loop reads back the value of every decimal numeral |
| Decimal.AtoiItoa | src/search.c:59-72 | atoi returns n for the decimal numeral of every integer n, negative ones included |
| Decimal.AtoiIgnoresSuffix | src/search.c:59-72 | atoi stops at the first non-digit: a numeral followed by any non-digit text reads as the numeral |
| Breakpoints.ToU32 | src/search.c:59-72 | storing an int into a uint32_t field keeps values in [0, 2^32), adds 2^32 to negative values down to -2^32, and subtracts 2^32 from values in [2^32, 2^33) |
| RecordParser.ParseResult | src/search.c:37-75 | fields 0 and 4 are the chromosomes, 3 and 7 the strands as atoi reads them; coordinates in uint32_t range are kept and negative starts wrap; the evidence type is 0 exactly when atoi read 0 |
| RecordParser.ParseFormatRoundTrip | src/search.c:37-75 | decoding the nine-field decimal rendering of any record gives back that record |
| RecordParser.ParseIgnoresTrailingFields | src/search.c:56-72 | only nine tokens are read: fields after the ninth never change the decoded record |
| RecordParser.NegativeStartWraps | src/search.c:59 | a left start written "-1" is stored as 2^32 - 1 |
| Matcher.WindowEnd | src/search.c:137 | q_right.end + slop computed in uint32_t: the true sum when it fits, otherwise the sum minus 2^32, which falls below q_right.end |
| Matcher.CheckDel | src/search.c:115-141 | a match iff the strand rule for the evidence type holds, the right chromosomes are equal, in_right.end >= q_right.start and in_right.start < the uint32_t value of q_right.end + slop |
| Matcher.CheckSv | src/search.c:79-111 | DEL yields CheckDel's answer; DUP, INS, INV and BND yield a not-supported error, and any other type an unknown-type error |
| Matcher.StrandRule | src/search.c:122-129 | a paired-end record on equal strands and a split read on different strands never match |
| Matcher.LeftSideIgnored | src/search.c:115-141 | the query's left breakpoint and the record's left chromosome and coordinates never change the answer |
| Matcher.WindowBoundaries | src/search.c:136-137 | with slop 0, a record starting exactly at q_right.end does not match and one ending exactly at q_right.start does |
| Matcher.SlopMonotone | src/search.c:137 | while q_right.end + slop fits in uint32_t, a larger slop never loses a match |
| Matcher.SlopAdmits | src/search.c:136-138 | slop k admits right-side starts up to q_right.end + k - 1 and none beyond |
| Matcher.WrappedWindowRejects | src/search.c:137 | when q_right.end + slop passes 2^32 - 1 the window end wraps, and a split read lying inside the unwrapped window is rejected |
| Aggregator.Contribution | src/search.c:213-218 | a record adds at most one count; it adds one iff it matches, and the count goes to `first` iff its evidence type is 0 |
| Aggregator.TallyAppend | src/search.c:199-219 | counting is additive over the concatenation of two record streams |
| Aggregator.TallyBound | src/search.c:213-218 | a sample never reports more hits than it has records |
| Aggregator.TallyNoHits | src/search.c:213-218 | a sample none of whose records matches reports (0, 0) |
| Aggregator.ExampleRecord | src/search.c:56-72 | the line `chr1 50 150 1 chr1 950 1050 -1 0` decodes to left (chr1, 50, 150, +1), right (chr1, 950, 1050, -1), type 0 |
| Aggregator.PairedEndExample | src/search.c:199-218 | against query sides chr1:[100,200] and chr1:[1000,1100] with slop 50, that line counts once as paired-end support |
| Aggregator.SignStrandsNeverPair | src/search.c:122-129 | strands written without a digit ("+", "-") both read as 0, so a paired-end record written that way never matches |
| Aggregator.SignedStrandsExample | src/search.c:199-218 | a paired-end record whose strands are "+" and "-" counts nothing, whatever the query |
| Aggregator.Width | src/search.c:177-179 | N is num_samples when a sample list is given and num_samples > 0, otherwise the number of indexed files |
| Aggregator.Selected | src/search.c:189-197 | slot i reads the records of sample sample_ids[i] when num_samples > 0, otherwise of sample i |
| Aggregator.CountRecord | src/search.c:201-218 | one record: an error iff the type is not DEL; otherwise the pair plus that record's contribution |
| Aggregator.CountSample | src/search.c:199-219 | one sample: an error iff the type is not DEL and the sample has a record; otherwise the tally of its records in order |
| Aggregator.CountSlot | src/search.c:189-219 | slot i: an error iff the type is not DEL and slot i's sample has a record; otherwise the tally of that sample's records |
| Aggregator.ZeroSlots | src/search.c:185 | the first N slots become (0, 0) and the rest are unchanged |
| Aggregator.RunGiggleQuery | src/search.c:177-240 | an error iff the type is not DEL and some selected sample has a record; otherwise returns N, and slot i holds the (paired-end, split-read) tally of slot i's sample; slots from N on are unchanged |
| Sorting.SortSeq | src/search.c:249 | the specification of the qsort call: a sorted permutation of its input |
| Sorting.SortSeqOfSorted | src/search.c:249 | sorting an already sorted sequence changes nothing |
| Sorting.Qsort | src/search.c:249 | the first n elements become their sorted permutation; the rest are unchanged |
| Dedup.UniqUpTo | src/search.c:255-259 | what the copy loop has written after k steps is never longer than k |
| Dedup.UniqUpToAscending | src/search.c:255-259 | on sorted input what the loop has written is strictly ascending and below the next input value |
| Dedup.UniqUpToElems | src/search.c:255-259 | on sorted input what the loop has written holds every value seen so far except that of the run still open |
| Dedup.UniqFacts | src/search.c:255-263 | on sorted input the unique values are strictly ascending, have exactly the input's values, and are no more than the input |
| Dedup.UniqOfStrict | src/search.c:255-259 | a strictly ascending input is copied unchanged |
| Dedup.UniqueSortedIdempotent | src/search.c:249-259 | deduplicating the result of sort-then-deduplicate changes nothing |
| Dedup.KeepRunEnds | src/search.c:251-263 | into a newly allocated buffer, the copy loop writes the last element of each run, u_i <= num_full values |
| Dedup.GetUniq | src/search.c:245-264 | full[..num_full] becomes its sorted permutation, and uniq is a new buffer, strictly ascending with exactly the values of full; u_i <= num_full |
| Quartiles.CountLessMonotone | src/search.c:327-345 | the count of elements below a key is non-decreasing in the key |
| Quartiles.BsearchSeq | src/search.c:327-345 | every probe lies inside the bracket and the array; the result h is in (lo, hi], elements before h are below key and those from h on are not, so with lo = -1 it is the count of elements below key |
| Quartiles.Q3Index | src/search.c:284 | the Q3 index MIN(U/2 + 1 + U/4, U - 1) lies in [0, U) |
| Quartiles.QuartileOrder | src/search.c:281-284 | with three or more distinct values, Q1 < Q2 < Q3 and each is a value of the population |
| Quartiles.QuartileBuckets | src/search.c:286-294 | with three or more distinct values, counts[0] = #(< Q1), counts[0]+counts[1] = #(< Q2), counts[0]+counts[1]+counts[2] = #(< Q3); all four are non-negative and sum to num_full |
| Quartiles.FirstBucketEmptyIff | src/search.c:282-286 | with three or more distinct values, the first bucket is empty iff there are fewer than four |
| Quartiles.FewDistinctValues | src/search.c:275-319 | with fewer than three distinct values the counts are the constants of the source and sum to U; Q1 = 0, Q3 is the largest value, Q2 is the smallest when U = 2 and 0 when U = 1; with no values Q1..Q3 are untouched and all counts are 0 |
| Quartiles.ThreeValuesExample | src/search.c:281-294 | 2, 4, 9 give Q = 2, 4, 9 and counts 0, 1, 1, 1 through the general branch |
| Quartiles.RepeatedValueExample | src/search.c:311-319 | 5, 5, 5 give Q = 0, 0, 5 and counts 0, 0, 0, 1, which do not sum to the population size |
| Quartiles.PickQuartiles | src/search.c:281-319 | given a sorted population and its unique values, the quartiles and counts the branches produce are QuartileCounts of the population |
| Quartiles.PickGeneral | src/search.c:281-294 | with three or more distinct values, Q1..Q3 taken from uniq and the counts taken from the binary searches are QuartileCounts of the population |
| Quartiles.GetQuartileCounts | src/search.c:268-323 | full[..num_full] ends sorted, and Q1, Q2, Q3 and counts are QuartileCounts of that sorted population |
| Summary.OccurrencesMultiplicity | src/search.c:373-377 | the zero and one counters count exactly the samples with that total |
| Summary.SummaryPartition | src/search.c:374-381 | zero_count + one_count + full_i == num_samples |
| Summary.ManyContents | src/search.c:378-381 | full holds each total of two or more as often as the samples have it, and nothing below two |
| Summary.MinMaxFacts | src/search.c:363-387 | min and max bound every total, zeros and ones included; min is INT_MAX or a total and never exceeds INT_MAX, max is 0 or a total; with no samples they stay INT_MAX and 0 |
| Summary.SummaryCoversSamples | src/search.c:370-396 | with three or more distinct totals of two or more, the zero count, the one count and the four buckets together number every sample |
| Summary.Tabulate | src/search.c:361-388 | after the sample loop the counters are the occurrences of 0 and 1, full[..full_i] is the totals of two or more in sample order, and min and max are the running minimum and maximum |
| Summary.GetSummary | src/search.c:349-399 | the counters, min and max as in the loop, and the quartiles and counts are QuartileCounts of the sorted totals of two or more |

## Left out

- The giggle index: loading, the handler assignment, the range query on `q_left.start - slop` (which wraps in `uint32_t` when slop exceeds the start), the per-sample iterators and their destruction (src/search.c:155-175, 197-199, 220, 238). They are a foreign library doing I/O. Its result is a parameter: a sequence of per-sample record sequences.
- `stix_region_to_breakpoint` (src/search.c:17-33). It wraps the external `parse_region`. Query breakpoints simply carry strand 0.
- Memory management: `malloc`, `free`, `realloc`, `asprintf`, and reuse of the breakpoint buffers across records. Each decoded record is a fresh value.
- The cleanup at src/search.c:233-236 dereferences a null pointer when no record was ever returned. That defect is not modelled; a query with no records simply returns N.
- `strtok`: lines are given already split at tabs. `strtok` would merge empty fields, and that is not modelled.
- Decimal.Atoi: the value is the unbounded value of the digits, because C leaves overflow of `int` undefined.
- Breakpoints.Breakpoint: the strand is an unbounded integer. The width of the strand field in `search.h` is not part of this model.
- `errx`: the process exit becomes an `Err` result carrying the reason.
- Sorting.Qsort: only the contract of `qsort` with `uint32_t_cmp` is modelled (the sorted permutation), not the library's algorithm.
- Aggregator.RunGiggleQuery: counts are unbounded `nat`, so a `uint32_t` slot wrapping after 2^32 hits is not modelled. A sample's count is accumulated in a local pair and then stored, rather than incremented in its slot. The slot starts at (0, 0) and nothing reads it meanwhile, so the final slot is the same. The caller's buffer is assumed to hold at least N slots, which covers both the allocation and the reuse case.
- Aggregator.CountSample: the in-place `+= 1` on the slot is a pair returned to the caller, as above.
- Summary.Tabulate: `first + second` is summed without the `uint32_t` wrap-around.
- Summary.GetSummary: the `sample_ids` parameter is unused by the source and omitted, and so is the constant return value 0. The `full` array is allocated with `num_samples` slots, as in the source.
- Quartiles.BsearchSeq: `lo` and `hi` are unbounded, so the `int32_t` overflow of `hi + lo` for arrays near 2^31 elements is not modelled. The unused `D_size` parameter and the probe counter `i` are dropped.
- Population values and totals are `nat`, not `uint32_t`.
- The commented-out diagnostic print (src/search.c:222-230).
