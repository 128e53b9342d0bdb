# DNS record comparison and line deduplication, modelled in Dafny

This project models two small command-line tools.

- **compare-dns**: reads a CSV file of `fqdn,type` rows and looks each record up
  on two nameservers. It lower-cases and sorts the two answer lists and compares
  them, then writes the outcome to five output files: the run log, the
  identical-names file, the problems CSV, the error log and the exception log.
  It keeps three counters: rows tested, exceptions and mismatches.
  The model covers the per-row loop and the `spin` counter update.
- **deduplicate**: `deduplicate_lines` copies the lines of a file to an output
  stream, writing each line only the first time it occurs (terminator
  included), and counts the lines read and written.

Files:

- `text.dfy` (module `Text`): the Python string operations the tools rely on:
  - `str.strip` with Python's whitespace set;
  - `str.lower` on ASCII;
  - code-point ordering of `str`;
  - `str(int)`;
  - right alignment `:>16`;
  - `repr` of a list of strings.
- `sorting.dfy` (module `Sorting`): `sorted` on a list of strings, defined by
  insertion sort. The module proves that this is the unique ascending
  permutation, so any sorting algorithm gives the same list.
- `compare_dns.dfy` (module `CompareDns`), in two layers:
  - the specification: a `RunState` value, one loop iteration `Step` and the
    whole loop `StepAll`, with lemmas about them;
  - the imperative model: the class `Comparator`, whose fields are the three
    counters and the five output files (each a `seq<string>` that its methods
    only append to), with methods `ProcessRow` and `ProcessRows` proved equal
    to `Step` and `StepAll`.
- `deduplicate.dfy` (module `Deduplicate`): the specification `Dedup` and the
  loop `DeduplicateLines`. The loop uses a `seen` set and two counters and is
  proved equal to `Dedup`.

The nameservers are an oracle. For row `i` the caller supplies `replies[i]`:
two `Outcome`s, each either the answer records as text or the text of the
raised exception. The text of the `IndexError` on a one-field row is Python's
constant `list index out of range`. The line number in its message is the row
index plus one.

Less obvious behaviours of the code that the model follows:

- A row with fewer than two fields is counted among the "records tested" that
  the final summary reports (`compare-dns.py:173`): `spin` runs before the
  fields are read (`compare-dns.py:120`).
- "Skip blank or commented lines" (`compare-dns.py:116`) tests the unstripped
  first field for `#`, so an indented comment such as `" #x"` is looked up
  (`IndentedCommentIsLookedUp`).
- A failed lookup is replaced by the marker `bad response "<error>"`. It is
  compared like any answer, so it can compare identical:
  - against a server that returned that single string, in any case
    (`FailureAgainstAnswers`);
  - against another failure whose error text is the same apart from case
    (`TwoFailuresAgreeIff`).

## Model

| member | source | states |
|---|---|---|
| Text.TrimLeftSpec | compare-dns.py:117 | `lstrip` returns a suffix that does not start with whitespace, and everything it removed is whitespace |
| Text.TrimRightSpec | compare-dns.py:117 | `rstrip` returns a prefix that does not end with whitespace, and everything it removed is whitespace |
| Text.StripSpec | compare-dns.py:117 | `strip()` is empty exactly when the field is all whitespace; a non-empty result neither starts nor ends with whitespace |
| Text.LowerSpec | compare-dns.py:143 | `lower()` leaves no upper-case ASCII letter, keeps every other character, and is idempotent |
| Text.LowerConcat | compare-dns.py:141-143 | lower-casing distributes over concatenation, used for the marker text |
| Text.StrLeRefl | compare-dns.py:143 | the string order used by `sorted` is reflexive |
| Text.StrLeTotal | compare-dns.py:143 | the string order is total |
| Text.StrLeAntisymmetric | compare-dns.py:143 | the string order is antisymmetric: strings that are `<=` both ways are equal |
| Text.StrLeTransitive | compare-dns.py:143 | the string order is transitive |
| Text.NatToStringDigits | compare-dns.py:127-129 | the line number in the bad-data message is written in decimal digits only |
| Text.NatToStringValue | compare-dns.py:127-129 | the line number in the bad-data message reads back as `i + 1` in decimal, with no leading zero |
| Text.PadLeftSpec | compare-dns.py:160-161 | `:>16` right-aligns the address with leading spaces to width 16 and never truncates a longer one |
| Text.ListReprShape | compare-dns.py:140 | the printed list is bracketed, and it is `[]` exactly for the empty list |
| Text.QuotedItemsInjective | compare-dns.py:140 | the items printed inside the brackets determine the list, when no item contains a single quote |
| Text.ListReprInjective | compare-dns.py:160-161 | a logged answer list `str(answer)` is equal for two lists exactly when the lists are equal, when no item contains a single quote |
| Text.ListReprExample | compare-dns.py:168-169 | `str(["a", "b"])` is `['a', 'b']` |
| Sorting.InsertSorted | compare-dns.py:143 | inserting into an ascending list keeps it ascending |
| Sorting.SortIsSortedPermutation | compare-dns.py:143 | `sorted` returns an ascending permutation of its input |
| Sorting.SortedPermutationUnique | compare-dns.py:143 | two ascending lists with the same multiset of elements are equal, so `sorted` does not depend on the algorithm |
| Sorting.SortEqualIff | compare-dns.py:143-156 | `sorted(a) == sorted(b)` exactly when `a` and `b` are permutations of each other |
| CompareDns.ClassifyRow | compare-dns.py:117-125 | a row is skipped iff it has no field, a blank first field, or a first field starting with `#`; it is rejected iff it is not skipped and has fewer than two fields; a parsed name is non-empty and stripped |
| CompareDns.IndentedCommentIsLookedUp | compare-dns.py:117-125 | `" #x",A` is not skipped: it is parsed as name `#x`, type `A` |
| CompareDns.LowerAllAppend | compare-dns.py:143 | lower-casing each answer distributes over concatenation of answer lists |
| CompareDns.LowerAllSort | compare-dns.py:143 | lower-casing commutes with sorting up to permutation |
| CompareDns.LowerAllPermutation | compare-dns.py:143 | permuted answer lists give permuted lower-cased lists |
| CompareDns.NormaliseIsSortedPermutation | compare-dns.py:143 | the normalised answer is ascending and a permutation of the lower-cased answers |
| CompareDns.NormaliseEqualIff | compare-dns.py:143-156 | two normalised answers are equal exactly when the lower-cased answer lists are the same multiset |
| CompareDns.PermutedAnswersAgree | compare-dns.py:143-156 | answer lists that are permutations of each other compare identical |
| CompareDns.OrderAndCaseIgnored | compare-dns.py:143-156 | `[A, B]` against `[b, a]` compares identical |
| CompareDns.MultiplicityCounts | compare-dns.py:143-156 | `[a, b]` against `[a, a]` is a mismatch: duplicates count |
| CompareDns.FailureAgainstAnswers | compare-dns.py:136-156 | a failed lookup compares identical to a successful one iff the latter is one answer equal to the marker apart from case |
| CompareDns.TwoFailuresAgreeIff | compare-dns.py:136-156 | two failed lookups compare identical iff their error texts agree apart from case |
| CompareDns.SkippedIffUnchanged | compare-dns.py:115-121 | a row leaves the state unchanged iff it is skipped; every other row, malformed ones included, adds one to the tested count |
| CompareDns.BadDataRow | compare-dns.py:120-133 | a row with fewer than two fields is counted, appends an empty line and the message to the run log and the message to the exception log, and changes nothing else |
| CompareDns.ParsedRowLookups | compare-dns.py:120-151 | for a parsed row, each failed lookup adds one exception and one exception line naming its nameserver, in order first then second; the run log gets one empty line |
| CompareDns.MismatchReport | compare-dns.py:156-162 | differing answers: mismatch count +1, `name,type` to problems, three lines to the error log, the verdict and both answers to the run log, identical file untouched |
| CompareDns.IdenticalReport | compare-dns.py:163-169 | equal answers: name to the identical file, the verdict and both answers to the run log, mismatch count, problems and error log untouched |
| CompareDns.ParsedRowVerdict | compare-dns.py:120-169 | a parsed row runs exactly one branch: the mismatch count plus the identical file grow by one; the run log grows by four lines; exceptions grow by the number of failures; everything only appends |
| CompareDns.MismatchIffDifferentAnswers | compare-dns.py:143-157 | a parsed row is a mismatch iff the lower-cased answer lists, failures replaced by markers, differ as multisets |
| CompareDns.StepAppendOnly | compare-dns.py:115-169 | one row never decreases a counter and only appends to the five output files |
| CompareDns.StepAllAppendOnly | compare-dns.py:115-169 | the whole loop never decreases a counter and only appends to the five output files |
| CompareDns.StepAllCounters | compare-dns.py:115-169 | after a sequence of rows: tested = non-skipped rows; mismatches + identical names = parsed rows; exceptions = failed lookups of parsed rows; one problems line and three error lines per mismatch; exception lines = failures + malformed rows |
| CompareDns.CountsBounded | compare-dns.py:115-151 | parsed rows ≤ tested rows ≤ rows, and failures ≤ 2 × parsed rows |
| CompareDns.RunSummary | compare-dns.py:76-169 | from the initial state: mismatches + identical = parsed ≤ tested, exceptions ≤ 2 × parsed, problems = mismatches, error lines = 3 × mismatches |
| CompareDns.Comparator.constructor | compare-dns.py:76-88 | the counters start at zero and the five output files start empty |
| CompareDns.Comparator.Spin | compare-dns.py:30-32 | `spin` adds one to the tested count |
| CompareDns.Comparator.Lookup | compare-dns.py:136-141 | a lookup returns its answers; a failure adds one exception and one exception line, and returns the marker |
| CompareDns.Comparator.CompareAndLog | compare-dns.py:155-169 | the comparison branch and the two answer lines, as `Report` |
| CompareDns.Comparator.LookUpRow | compare-dns.py:135-169 | both lookups, the normalisation and the comparison, as `Report` after the two `Consult`s |
| CompareDns.Comparator.ProcessTestedRow | compare-dns.py:123-169 | a counted row is rejected or looked up and compared, as `Step` |
| CompareDns.Comparator.ProcessRow | compare-dns.py:115-169 | the loop body is `Step` of the row |
| CompareDns.Comparator.ProcessRows | compare-dns.py:115-169 | the loop over all rows is `StepAll` |
| Deduplicate.DedupSpec | deduplicate.py:13-18 | the output repeats no line and has exactly the input's set of lines |
| Deduplicate.InOutputIffSeen | deduplicate.py:15-17 | a line is already written iff it occurred earlier in the input (the `seen` test) |
| Deduplicate.FirstPositionsIncreasing | deduplicate.py:13-18 | first-occurrence positions are listed in increasing order |
| Deduplicate.DedupKeepsFirstOccurrences | deduplicate.py:13-18 | the output is the input taken at its first-occurrence positions, in input order |
| Deduplicate.FirstPositionsAreFirst | deduplicate.py:13-18 | every listed position holds a line that does not occur before it |
| Deduplicate.FirstPositionsComplete | deduplicate.py:13-18 | every position where a line first occurs is listed |
| Deduplicate.DistinctCount | deduplicate.py:18 | a list without duplicates has as many distinct lines as elements |
| Deduplicate.DedupLength | deduplicate.py:11-18 | the output has one line per distinct input line |
| Deduplicate.DedupOfDistinct | deduplicate.py:13-18 | an input without repeated lines is copied unchanged |
| Deduplicate.DedupIdempotent | deduplicate.py:13-18 | deduplicating the output again changes nothing |
| Deduplicate.TerminatorIsPartOfTheLine | deduplicate.py:13-16 | lines compare with their terminators: a final `a` without newline is kept after `a\n`, and a repeated `a\n` is dropped |
| Deduplicate.DeduplicateLines | deduplicate.py:8-21 | the written lines are `Dedup(lines)`, `total_lines` is the number of input lines, and `unique_lines` is the number written, which is the number of distinct input lines |

## Left out

- DNS resolution: the two resolvers are an oracle supplied per row. The model has one `Replies` per CSV row (`replies` as long as `rows`), and only the rows that reach the lookups consult theirs.
- CSV tokenisation: rows arrive as lists of already split fields. Quoting and multi-line fields are the `csv` module's job.
- `str(a)` on a resolver answer record: answers arrive as text.
- Text.Lower: only ASCII letters are lower-cased. Python's `lower()` also maps non-ASCII letters.
- Text.ListRepr: items are wrapped in single quotes with no escaping. Python switches quotes or escapes characters for strings containing quotes, backslashes or non-printable characters.
- Console output is not modelled: the spinner glyphs, backspaces, the 20 ms sleep, the every-100-rows progress line and the bad-data message echoed to the console.
- Setup and summary output is not modelled: the header lines, the final summary lines, the argument check, the timestamped file names, and opening and closing the output files.
- Text.ListReprInjective: proved only for items without a single quote. Python's `repr` would switch to double quotes for such an item, and the model does not.
- Output files: each one is a list of lines. A logged value that contains a newline, such as a quoted CSV field or an exception text, is one entry in the model but several physical lines in the file; file buffering and I/O errors are not modelled.
- deduplicate: argument parsing, `--inplace` temporary-file replacement, `--verbose` printing of the two counters, and reading the input file are not modelled. The input arrives as a list of lines with their terminators, and the written lines are returned instead of written to `outfile`.
- Deduplicate.Dedup: lines are compared as Python's text-mode read returns them. That read turns `"\r\n"` and `"\r"` into `"\n"` before the `seen` test, so "terminator included" holds for lines as read, not for the bytes on disk.
