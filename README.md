# Payment-history rewrite rules and exclusion handling, in Dafny

This project models two pieces of a small scripts repository.

**The payment-history-profile (PHP) report** (`calc_new.py`) is a chain of SQL
computed columns. A loan's 36-month profile is three 12-character year strings,
oldest first. The report modifies it in one of two ways:

- With a late reversal (`rev_aftr_30_days` on some row of the loan), every month
  of the loan's PHP period becomes `D`. Bankruptcy months (`B`) are kept.
- Otherwise, the month of the reversal snapshot receives the one-character status
  byte of the account status.

The edited profile is cut back into year strings. Each year string gets a `Y`/`N`
change flag. The CX6 profile (newest month first) is rewritten too: either the
delinquency codes of a prefix become `D`, or its first month becomes the status
byte. The final report derives indicators, update lines and a manual-review label
from these columns.

Dates are month indices (`year * 12 + month - 1`):

- `DATE_TRUNC('month', …)` is the index of the date.
- `DATEDIFF('month', a, b)` is the difference of the indices.
- A comparison with `DATE_TRUNC('month', d) + INTERVAL 5 DAY` is a comparison
  with the sixth of d's month.

`CURRENT_DATE` is a parameter (`today`). The SQL primitives are modelled as SQL
defines them:

- `SUBSTRING` is 1-based and clamped at the end of the string.
- `REGEXP_REPLACE(s, '[class]', 'D', 'g')` is a per-character map.
- `||` is sequence concatenation.

**The directory copier** (`temp.py`) has four relevant parts:

- It normalises the user's list of excluded directories.
- It prunes excluded subdirectories from the `os.walk` it uses to size the tree.
- It builds the `rsync` and `find` command lines.
- It reads the list of files back from `find`'s output.

`os.path.abspath`, `relpath`, `isabs` and `join` are modelled with POSIX
semantics on component lists. The working directory is a parameter (`cwd`).

The modules follow the source:

- `SqlText`, `PhpCalendar`, `PhpProfile`, `Cx6Profile` and `FinalOutput` cover
  `calc_new.py`. They are pure functions and lemmas, as the SQL is.
- `PosixPath`, `Exclusions` and `CopyCommands` cover `temp.py`. Each append loop
  of the source is a method proved equal to a specification function. The prune
  step is a method on a `WalkLevel` object whose `dirnames` list it replaces in
  place.

## Model

| member | source | states |
|---|---|---|
| SqlText.Substring | calc_new.py:140-142 | SUBSTRING(s, start, len) has `min(len, rest)` characters, and character i is `s[start-1+i]` |
| SqlText.SubstringFrom | calc_new.py:145 | two-argument SUBSTRING runs from 1-based `start` to the end of the string |
| SqlText.SubstringThenRest | calc_new.py:148-151 | a prefix of `len` characters followed by SUBSTRING from `len+1` is the whole string |
| SqlText.ReplaceWithD | calc_new.py:141-143 | REGEXP_REPLACE with a one-character class keeps the length; each character in the class becomes `D` and every other character is kept |
| SqlText.ReplaceWithDConcat | calc_new.py:140-145 | the replacement commutes with concatenation, so replacing a piece of a concatenation affects only that piece |
| PhpCalendar.JanuaryOf | calc_new.py:102-103 | DATE_TRUNC('year', …) is the month index of January 1 of that year |
| PhpCalendar.OnOrAfterFirstOfMonth | calc_new.py:313 | for valid dates, `a >= DATE_TRUNC('month', b)` holds iff a's month index is at least b's |
| PhpCalendar.SnapshotMonth | calc_new.py:90-94 | the snapshot month is the snapshot's own month iff the snapshot is on or after the sixth of that month, and the previous month otherwise |
| PhpCalendar.PhpStartMonth | calc_new.py:100-104 | the profile starts in January two years before the origination year, or before today's year when the origination year is 1899; the result is always a January |
| PhpProfile.AccountStatusPhpByte | calc_new.py:110-118 | codes 11, 71, 78, 80, 82, 83, 84 map to bytes `0`..`6` in that order; the byte exists iff the code is one of them |
| PhpProfile.PhpPeriod | calc_new.py:57-73 | a period exists iff the loan has a row; its start is the least payment month of the loan's rows and its end the greatest reversal month, each attained by some row |
| PhpProfile.HasLateReversal | calc_new.py:121 | true iff some row of the same loan has the late-reversal flag |
| PhpProfile.UpdateWindow | calc_new.py:124-125 | the window is clamped to 1..36 and holds exactly the positions whose month lies in the PHP period |
| PhpProfile.SnapshotPhpPosition | calc_new.py:128-132 | the position exists iff the snapshot month is in the period, and the month shown at it is the snapshot month |
| PhpProfile.SnapshotInsideWindow | calc_new.py:124-132 | a snapshot position in 1..36 always lies inside the update window, and vice versa |
| PhpProfile.LateReversalMarksWindow | calc_new.py:136-160 | `LateReversalEdit`, all four CASE branches, keeps the length; inside the window each non-`B` becomes `D` and each `B` is kept; nothing outside the window changes |
| PhpProfile.SnapshotEditReplacesOne | calc_new.py:163-173 | on a 36-character profile, `SnapshotEdit`'s first, last and interior cases all replace exactly position p with the status byte |
| PhpProfile.SnapshotPastProfile | calc_new.py:170-182 | a position past 36 appends the byte: the profile grows to 37 characters and its three year strings are the original ones |
| PhpProfile.SplitYears | calc_new.py:180-182 | a 36-character profile splits into three 12-character years whose concatenation is the profile |
| PhpProfile.SplitJoinYears | calc_new.py:180-182 | splitting `JoinYears` (the CONCAT of `php_36_original`) of three 12-character years gives back those years |
| PhpProfile.ChangeFlag | calc_new.py:185-187 | the flag is `Y` or `N`, and `Y` iff the year string changed |
| PhpProfile.CalculatePhpUpdate | calc_new.py:90-187 | the column chain, with `PhpUpdated` choosing the late-reversal edit, the snapshot edit or the original: the window is clamped; each flag is `Y` iff its new year string differs from the original; the new years concatenate to a 36-character updated profile |
| PhpProfile.LateYearChanged | calc_new.py:185-187 | after a late-reversal edit, a year differs iff the window holds a month of that year that was neither `B` nor `D` |
| PhpProfile.YearFlags | calc_new.py:180-187 | for 12-character year fields and a 36-character edited profile, each new year string differs from the old field iff the matching 12-character slices of the edited and original profiles differ |
| PhpProfile.LateReversalFlags | calc_new.py:136-187 | with a late reversal, each year's flag is `Y` iff the window changes a month in that year |
| PhpProfile.SnapshotYearChanged | calc_new.py:185-187 | after replacing position p, a year differs iff it holds p and the byte is new |
| PhpProfile.SnapshotFlags | calc_new.py:163-187 | without a late reversal, with a position and a byte: the updated profile is the original with position p replaced; only p's year can be flagged, and it is flagged iff the byte differs |
| PhpProfile.UntouchedFlags | calc_new.py:175-187 | without a late reversal, a row with no snapshot position or no byte keeps its profile and years, and all three flags are `N` |
| Cx6Profile.MonthsBetween | calc_new.py:204 | `months_between` is the number of months from the payment month to the file date; it is at most 1 iff the file date is at most one month after the payment month |
| Cx6Profile.Cx6PhpUpdated | calc_new.py:207-216 | a NULL profile stays NULL; with `months_between <= 1` the profile is unchanged |
| Cx6Profile.Cx6PrefixRewrite | calc_new.py:207-216 | the length is kept; in the first `months_between - 1` characters, `1`-`6`, `J`, `K`, `L` and `0` become `D`; every other character, and all of the suffix, is unchanged |
| Cx6Profile.Cx6AccuratePhpUpdated | calc_new.py:219-226 | defined iff there is no late reversal, a profile and a byte exist, the snapshot is on or before the sixth of the current month, and the profile does not begin with `B`; the result is the profile with only its first character replaced by the byte |
| Cx6Profile.Coalesce | calc_new.py:258 | COALESCE returns the first argument when present, otherwise the second |
| Cx6Profile.Cx6PhpShouldBe | calc_new.py:258 | the string the profile should be, with `months_between` computed from the payment month and the file date, is NULL iff the profile is NULL |
| Cx6Profile.Cx6ShouldBeCases | calc_new.py:204-226 | for a non-empty profile, the first-character replacement is preferred when its conditions hold; otherwise the result is the prefix rewrite with `months_between` from the payment month to the file date; either way the length is kept |
| FinalOutput.DecimalString | calc_new.py:107 | CAST to VARCHAR of a non-negative number is a non-empty string of digits |
| FinalOutput.DecimalStringValue | calc_new.py:107 | the decimal string denotes the number and has at most k digits when the number is below 10^k |
| FinalOutput.LeftPadZeros | calc_new.py:107 | LPAD gives exactly `count` characters: a shorter string is preceded by `0`s only and ends the result; a longer one is cut to `count` |
| FinalOutput.LoanNumberPaddedValue | calc_new.py:107 | `LoanNumberPadded` of a loan number below 10^10 is ten digits that denote the same number |
| FinalOutput.Cx6AccountNumber | calc_new.py:238 | the account number is `51` followed by the ten-character padded loan number |
| FinalOutput.StatusShouldBe | calc_new.py:244 | the status it should be is the account status when a CX6 profile exists, and empty otherwise |
| FinalOutput.AccountStatusUpdateIndicator | calc_new.py:247-253 | empty iff there is no profile; `Y` iff there is a profile, the snapshot is on or after the sixth of the transaction month, and the CX6 status differs |
| FinalOutput.Cx6PhpStringUpdateIndicator | calc_new.py:262-266 | empty iff there is no profile; `Y` iff the profile differs from what it should be |
| FinalOutput.Cx6UpdateIndicator | calc_new.py:269-272 | `Y` iff the status indicator or the PHP indicator is `Y`, and `N` otherwise |
| FinalOutput.Cx6IndicatorsAgree | calc_new.py:247-272 | a row without a profile is never flagged; a row with one is flagged iff its status must change or its profile is not what it should be |
| FinalOutput.DofdUpdateIndicator | calc_new.py:285-290 | `Y` iff the delinquency date is real (present, not 1899) and the status is `11` or the reversal was late |
| FinalOutput.YearUpdate | calc_new.py:293-303 | an update line exists iff that year was flagged `Y`, and it is the CONCAT of the padded loan number, `////`, the old year, `/` and the new year |
| FinalOutput.UpdateLineFields | calc_new.py:295-307 | an `UpdateLine` is read back field by field: ten-character loan, `////`, old year, `/`, new year |
| FinalOutput.DofdUpdate | calc_new.py:305-308 | a DOFD update line exists iff the date is real and the status is `11`, and it is the CONCAT of the padded loan number, `////`, the formatted date, `/` and `0` |
| FinalOutput.DofdUpdateIsIndicated | calc_new.py:285-308 | every row with a DOFD update line has the DOFD indicator `Y` |
| FinalOutput.LabelText | calc_new.py:311-333 | the label text is `N` only for no review; every other label begins with `Y - ` |
| FinalOutput.ManualReviewRowsDisjoint | calc_new.py:311-333 | for `RequiresManualReview`, at most one WHEN row holds; each label is chosen iff its own row holds, and `Y - Multi` iff none holds |
| FinalOutput.ManualReviewNoOnlyWhenClean | calc_new.py:311-333 | `N` iff there is no deferral, no due-date change, a current-year string, and the loan was not closed before the reversal month; otherwise the label is one `Y - …` |
| PosixPath.TrimLeft | temp.py:76 | lstrip removes exactly the leading whitespace: it leaves a suffix that does not begin with whitespace |
| PosixPath.TrimRight | temp.py:76 | rstrip removes exactly the trailing whitespace: it leaves a prefix that does not end with whitespace |
| PosixPath.Strip | temp.py:76 | strip gives the piece of the string that has only whitespace before and after it; it is empty iff the string is all whitespace; otherwise it neither begins nor ends with whitespace; it is the identity on strings with none at either end |
| PosixPath.PathJoin | temp.py:170 | an absolute second argument replaces the first; otherwise the two are joined with one `/` unless the first is empty or already ends with one |
| PosixPath.SplitOn | temp.py:183 | split gives at least one piece, no piece holds the separator, and joining the pieces gives back the string |
| PosixPath.SplitJoin | temp.py:183 | splitting undoes joining when no part holds the separator |
| PosixPath.JoinStartsWithDotDot | temp.py:86 | a joined path starts with `..` iff its first component does |
| PosixPath.Normalize | temp.py:73 | normalised components contain no empty, `.` or `..` component, each comes from the input, and a list that has none of those is kept as it is |
| PosixPath.NormalizeAppend | temp.py:73 | normalisation reads left to right: normalising a prefix first does not change the result |
| PosixPath.DotDotCancels | temp.py:73 | a clean component followed by `..` cancels out |
| PosixPath.LeadingSkipped | temp.py:73 | at the root, a leading `..`, `.` or empty component vanishes |
| PosixPath.AbsComps | temp.py:73 | abspath components contain no empty, `.` or `..` component, and no `/` |
| PosixPath.AbsCompsOfCleanPath | temp.py:73 | an absolute path that is already clean (`/` and its components) is its own abspath |
| PosixPath.CommonPrefixLength | temp.py:84 | the common prefix is shared by both lists and cannot be extended |
| PosixPath.RelPath | temp.py:84 | relpath is never empty (`.` for the start directory itself) |
| PosixPath.RelPathBelow | temp.py:84 | for a path below the start directory, relpath's components are those below the start |
| PosixPath.RelPathOutside | temp.py:84-89 | for a path that is not the start directory or below it, relpath begins with `..` |
| Exclusions.ProcessExclude | temp.py:76-94 | an entry that is empty after stripping is dropped; a relative entry (`IsAbs` false) is kept stripped; a kept entry is non-empty; a kept absolute entry does not start with `..` |
| Exclusions.ProcessedExcludes | temp.py:72-96 | the output list is never longer than the input, and holds no empty entry |
| Exclusions.ProcessExcludeList | temp.py:67-96 | the append loop returns exactly the entry-by-entry processed list |
| Exclusions.ProcessedExcludesConcat | temp.py:72-96 | entries are processed independently, in input order: processing a concatenation concatenates the results |
| Exclusions.ProcessAbsolute | temp.py:81-89 | a stripped absolute entry is kept as its relative path unless that path starts with `..` |
| Exclusions.AbsoluteInsideKept | temp.py:81-87 | an absolute entry below the source directory is kept as its path below the source (`.` for the source itself) |
| Exclusions.AbsoluteOutsideDropped | temp.py:84-89 | an absolute entry outside the source directory is dropped |
| Exclusions.AbsoluteDotDotNameDropped | temp.py:84-89 | an absolute entry naming an in-tree directory whose name begins with `..` (such as `..cache`) is dropped too |
| Exclusions.ShouldExclude | temp.py:237-250 | the early-exit loop returns true iff some entry matches (`EntryMatches`) the directory's `DirRelPath` or name |
| Exclusions.KeptDirnames | temp.py:234-253 | a name is kept iff it is one of the names and no entry matches it; the result is never longer |
| Exclusions.KeptDirnamesConcat | temp.py:234-253 | pruning works name by name and keeps the order of the kept names |
| Exclusions.NameEntryAnyDepth | temp.py:246-250 | an entry without `/` prunes every directory of that name, at any depth |
| Exclusions.PathEntryNotTopLevel | temp.py:238-245 | an entry with `/` never prunes a top-level directory |
| Exclusions.PathEntryCoversSubtree | temp.py:241-245 | an entry with `/` that matches a directory matches every subdirectory of it too |
| Exclusions.WalkLevel.PruneExcluded | temp.py:234-255 | `dirnames` is replaced in place by exactly the kept names, in their original order |
| CopyCommands.ExcludeOptions | temp.py:114-115 | one `--exclude`, e pair per entry, in order |
| CopyCommands.RsyncArgvLayout | temp.py:107-119 | the command starts `rsync -av`; the progress options appear iff verbose; then the exclude pairs in order; it ends with source + `/` and the destination |
| CopyCommands.BuildRsyncCommand | temp.py:107-119 | the appending code builds exactly the rsync command line |
| CopyCommands.PruneClause | temp.py:167-174 | an entry with `/` becomes `-path join(source, e) -prune`; any other entry becomes `-name e -prune` |
| CopyCommands.PruneClauses | temp.py:161-176 | there are no clauses iff there are no entries; n entries give 4n-1 words |
| CopyCommands.PruneClauseAt | temp.py:163-174 | entry i's clause sits at word 4i, and every clause but the last is followed by `-o` |
| CopyCommands.FindArgvLayout | temp.py:158-178 | with no entries the command is `find source -type f -print`; otherwise it has 4n+7 words: `find source (`, the clauses, then `) -o -type f -print` |
| CopyCommands.FindArgvClauseAt | temp.py:161-176 | inside the parentheses, entry i's clause sits at word 3+4i, and every clause but the last is followed by `-o` |
| CopyCommands.BuildFindCommand | temp.py:158-178 | the appending code, with its `-o` before every clause but the first, builds exactly the find command line |
| CopyCommands.NonEmpty | temp.py:184 | the filter keeps exactly the non-empty lines, and is the identity on a list without empty lines |
| CopyCommands.NonEmptyConcat | temp.py:184 | the filter works line by line: filtering a concatenation concatenates the results, so order and repeats are kept |
| CopyCommands.NonEmptyOne | temp.py:184 | a single line is dropped iff it is empty |
| CopyCommands.ParseFileList | temp.py:183-184 | the parsed file list holds no empty string and no newline |
| CopyCommands.ParseFindOutput | temp.py:178-184 | reading back find's output gives exactly the printed paths, in order, for non-empty newline-free paths without outer whitespace |

## Left out

- Reading and writing data: the DuckDB connection, SAS/Excel input, the polars casts and the Excel report (`calc_new.py:14-52`, `340-380`). These are I/O and foreign libraries.
- The LEFT JOINs (calc_new.py:190, 229, 336): each model function takes one row and its loan's aggregates, so row matching and duplication are not modelled. General three-valued NULL logic is not modelled either. `Option` is used where the code tests `IS NULL`.
- `STRFTIME` formatting (calc_new.py:239-240, 284, 307): FinalOutput.DofdUpdate takes the formatted date as a parameter.
- Date arithmetic beyond month indices and the sixth-of-month comparison. The `pymt_ss_month` and `rev_ss_month` columns are taken to be month starts, so they are month indices.
- PhpProfile.SnapshotEdit: requires position >= 1. The SQL does not clamp `snapshot_php_position` (calc_new.py:128-132): a snapshot month inside the PHP period but before `php_start_date` gives 0 or less. The interior branch then calls SUBSTRING with a zero or negative length, whose DuckDB semantics are not modelled. Read as an empty prefix, position 0 would put the byte in front of the whole profile: 37 characters, with all three year slices shifted by one. A position past 36 is modelled (PhpProfile.SnapshotPastProfile).
- PhpProfile.LateReversalEdit: requires `start <= end + 1` when `end < 36`, for the same reason. A PHP period that ends before it starts, relative to the profile, is outside the model.
- PhpProfile.HasLateReversal: the flag is a boolean per row; a loan whose flags are all NULL is not distinguished from one whose flags are all false.
- PhpProfile.PhpPeriod: the two-level MIN of the source is modelled as one MIN over the loan's rows. The inner grouping only partitions those rows, so the result is the same; rows with NULL months are not modelled.
- FinalOutput.LeftPadZeros: takes LPAD to cut longer strings on the right to `count` characters.
- PosixPath.AbsComps: takes the working directory `cwd` to be absolute, as `os.getcwd()` always is. For a relative `cwd`, the model drops a leading `..`, which `posixpath.normpath` keeps for relative paths.
- The `ValueError` branch of `_process_exclude_list` (temp.py:90-91): `os.path.relpath` raises it only for an empty path, and a stripped non-empty absolute entry never is one, so the branch is unreachable under POSIX semantics. Windows drive semantics are not modelled.
- The warnings printed for skipped entries, and all progress output.
- `copy_directory_with_exclusions` (existence checks, `makedirs`, the choice between rsync and cp), `subprocess.run`, the per-file `cp` loop, `os.walk` and `os.path.getsize`, `_format_bytes` (floating point), and `KeyboardInterrupt` handling. These are I/O, processes and floating point. Exclusions.WalkLevel models one level of the walk only.
- `dirsize.py`: filesystem traversal and size formatting; it is not part of this model.
- CopyCommands.ParseFindOutput: proved only for paths without newlines, and without whitespace at the start of the first path or the end of the last. For other paths, `strip()` and `split('\n')` do not give back what `find` printed.

