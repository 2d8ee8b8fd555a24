# Fake account finder — a verified model of its pipeline

The pipeline looks for UK companies that claim implausibly large balance sheets but are not
registered with the financial regulator. It runs in five stages. This project models each one
in Dafny:

- **Accounts lookup** (`AccountsLookup`, from `0_create_accounts_lookup_table.py`). The stage
  walks a directory of downloaded accounts. It reads a company number and a file type out of each
  file name with the pattern `.*_(\d+)_.*\.(\w+)$`, and builds a table from company number to file
  path. When several files share a number, the last one visited wins.
- **Finding companies** (`Registry`, from `1_find_companies.py`).
  - It scans the registry snapshot for rows whose first five SIC characters are a requested code.
  - It reads the tagged figures of each candidate's accounts (the last tag of a name wins).
  - It flags a company whose cash is above 10,000,000, or any of whose other figures is above
    100,000,000.
  - It sorts the flagged companies by cash, largest first, and it counts candidates per code.
- **Regulator check** (`Regulator` and `Names`, from `2_find_unregulated_companies.py`).
  - It calls the regulator's register with retries: a server error, a timeout or another request
    error spends one retry and doubles the wait; a rate limit waits 65 seconds and spends none;
    any other status gives up at once.
  - It attaches the answer to every company that has a name and a number.
  - It then prunes the answer to the entries whose normalised name equals the company's.
- **Export** (`Export`, from `3_export_results.py`).
  - It checks the dash-separated SIC codes on the command line against the catalog and builds
    the table title.
  - It drops regulated companies.
  - It formats numbers with thousands separators.
  - It lays out the CSV table, padding every row to the widest company's list of items.
- **Website index** (`WebsiteIndex`, from `interactive_website_json_creator.py`).
  - For each SIC code and each frequent address it derives the sanitised CSV file name and counts
    the file's data rows.
  - It lists each entry with its caption and file stem; for addresses, only entries with rows.

`Wrappers`, `Seqs` and `Text` hold the shared pieces:

- an Option and a Result type;
- filtering, with its subsequence facts;
- the Python string operations the stages use: `strip`, `lower`, `split`, `join`,
  `replace(x, "")`, `int()`, `float()`, `str(int)` and `os.path.join`.

Where the code loops, the model is a method with loop invariants, proved equal to a specification
function. The properties are lemmas about those functions.

The model follows `normalize_name` as written, in two places where a reader might expect otherwise:

- `normalize_name` is not idempotent: "(\n())" normalises to "( )", and that to ""
  (`Names.NormalizeNameNotIdempotent`).
- Its docstring promises "Removing trailing periods in "Ltd."" (2_find_unregulated_companies.py:215),
  but `\bLtd\.\b` needs a word character after the dot, so a "Ltd." at the end of a name keeps
  its period (see Findings). The pruning uses this normaliser, as the script does; the corrected
  normaliser and a pruning built on it are modelled beside it.

## Model

| member | source | states |
|---|---|---|
| AccountsLookup.ParseFilename | 0_create_accounts_lookup_table.py:29-37 | `file_pattern.match(name)` with groups 1 and 2: None when the name has a newline before its end, no dot followed only by word characters, or no `_digits_` group before that dot; its meaning is stated by `ParseFilenameMeaning` |
| AccountsLookup.MatchedPart | 0_create_accounts_lookup_table.py:29 | the text the pattern must span is the name, or the name without one final newline (`$` also matches before it) |
| AccountsLookup.ParseFilenameMeaning | 0_create_accounts_lookup_table.py:29-37 | a name matches exactly when its body has no newline and splits as `_digits_ … .word`; the company number and extension are those of the split with the rightmost opening underscore (greedy backtracking) |
| AccountsLookup.ParseFilenameParts | 0_create_accounts_lookup_table.py:36-37 | a matched company number is all digits; the extension is non-empty word characters with no dot |
| AccountsLookup.DigitRunEnd | 0_create_accounts_lookup_table.py:29 | the end of the maximal digit run from a position |
| AccountsLookup.LastDot | 0_create_accounts_lookup_table.py:29 | the extension starts after the last dot: the dot found has none after it, and None means no dot |
| AccountsLookup.GroupStart | 0_create_accounts_lookup_table.py:29 | the rightmost underscore below a bound that opens a digit group closed by an underscore before the dot; None means there is none |
| AccountsLookup.SplitsDetermined | 0_create_accounts_lookup_table.py:29 | any split fixes the dot as the last one and the group's end as the end of its digit run |
| AccountsLookup.NumberBeforeDate | 0_create_accounts_lookup_table.py:29-37 | a name `…_number_digits.ext` yields the number, not the digits after it |
| AccountsLookup.ParseFilenameAt | 0_create_accounts_lookup_table.py:29-37 | a newline-free name whose last dot is followed by word characters, with a digit group opening at a known underscore, yields that group and the text after the dot |
| AccountsLookup.CompaniesHouseName | 0_create_accounts_lookup_table.py:29-37 | "Prod224_0001_01234567_20230930.html" yields company 01234567 and type html |
| AccountsLookup.Pairs | 0_create_accounts_lookup_table.py:32-33 | the files of one directory, each paired with that directory |
| AccountsLookup.LastFiling | 0_create_accounts_lookup_table.py:32-42 | reference: the last visited file whose name yields a given company number |
| AccountsLookup.VisitFile | 0_create_accounts_lookup_table.py:34-42 | for any file-name parser, one file's visit records its path under its company number and adds its type when the name parses, and changes nothing otherwise |
| AccountsLookup.VisitDirectory | 0_create_accounts_lookup_table.py:33-42 | the inner loop over one directory's files extends the table and the type set by exactly that directory's visits, in order |
| AccountsLookup.BuildLookup | 0_create_accounts_lookup_table.py:32-42 | the table and the type set are the fold of that visit over the walk, directory by directory and file by file |
| AccountsLookup.LookupMeaning | 0_create_accounts_lookup_table.py:38-42 | a number is in the table exactly when some file yields it, and its path is the joined path of the last such file |
| AccountsLookup.FileTypesMeaning | 0_create_accounts_lookup_table.py:37-40 | a type is in the set exactly when some visited file yields it |
| AccountsLookup.NonMatchingIgnored | 0_create_accounts_lookup_table.py:35 | a file whose name does not match changes neither the table nor the type set |
| AccountsLookup.LastWins | 0_create_accounts_lookup_table.py:42 | of two files with the same number, the later path is kept |
| AccountsLookup.KeysAreDigits | 0_create_accounts_lookup_table.py:36-42 | every key of the table is a string of digits |
| Text.PathJoin | 0_create_accounts_lookup_table.py:38 | the joined path ends with the name, starts with the root unless the name is absolute, and puts one slash between a root and a name that lack one |
| Registry.Take | 1_find_companies.py:236 | the first five characters: a prefix of length min(n, length) |
| Registry.SicCodeOf | 1_find_companies.py:234-238 | the code one SIC cell contributes: the first five characters of the stripped cell when it is non-empty and they are requested digits, else nothing |
| Registry.SicCodeRecorded | 1_find_companies.py:234-238 | a SIC cell contributes a code exactly when its stripped text is non-empty and its first five characters are digits in the requested set, and then the code is those five characters |
| Registry.MatchedCodesIn | 1_find_companies.py:232-238 | every code collected from the SIC fields is a requested one |
| Registry.MatchedCodesInOrder | 1_find_companies.py:232-238 | the codes come from the four SIC fields in order, one or none per field (also line 211) |
| Registry.MatchRow | 1_find_companies.py:232-238 | the per-field loop collects exactly those codes |
| Registry.FindMatchingCompanies | 1_find_companies.py:195-262 | the results are the scan of the rows, and the rows counted are all the rows |
| Registry.ScanConcat | 1_find_companies.py:227-257 | scanning two parts of the snapshot gives the two results one after the other |
| Registry.ScanBounded | 1_find_companies.py:227-257 | there are at most as many results as rows |
| Registry.NoMatchNoCandidate | 1_find_companies.py:241 | a row with no requested code gives no result |
| Registry.EmptyNumberNoCandidate | 1_find_companies.py:242-248 | a row with a blank company number gives no result |
| Registry.ScanWellFormed | 1_find_companies.py:251-257 | every result has a non-empty number and a non-empty set of requested codes, each with the catalog's description |
| Registry.RowEntryWellFormed | 1_find_companies.py:241-257 | the same for one row's entry |
| Registry.CandidateCodes | 1_find_companies.py:254 | a result's codes are exactly the codes matched in its row |
| Registry.Put | 1_find_companies.py:76 | a dictionary store: the key maps to the value, other keys are unchanged, a new key is appended and an old one keeps its place |
| Registry.ExtractAssets | 1_find_companies.py:60-78 | the loop over the tagged elements builds exactly the fact table |
| Registry.Facts | 1_find_companies.py:71-76 | the fact table never has a key twice |
| Registry.LastWithTag | 1_find_companies.py:71-76 | reference: the last element whose name, without its prefix, is the key |
| Registry.FactsLastWins | 1_find_companies.py:71-76 | a non-empty name's value is that of its last element, and the name is absent when no element carries it |
| Registry.FactsNoEmptyName | 1_find_companies.py:75 | an empty name is never stored |
| Registry.HumanKey | 1_find_companies.py:108 | the display name of a fact: its second colon-separated segment when it has a colon, else the whole key |
| Registry.HumanKeyOfPrefixed | 1_find_companies.py:108 | a prefixed tag name shows its local name, and drops a third segment; a name without a colon shows as it is |
| Registry.Classification | 1_find_companies.py:104-120 | the cash figure and the large items of a company's facts, skipping values that do not parse; stated by `ClassificationReference` |
| Registry.ClassifyFacts | 1_find_companies.py:104-120 | the loop over the facts computes exactly the classification |
| Registry.ClassifyNumericReference | 1_find_companies.py:107-120 | the cash is the last numeric `CashBankOnHand`, or 0 without one; the suspect items are the other numeric facts above 100,000,000, in order |
| Registry.ClassificationReference | 1_find_companies.py:104-120 | the same stated over the raw fact table |
| Registry.SuspectDataLarge | 1_find_companies.py:118-120 | every suspect item is above 100,000,000 and is not the cash figure |
| Registry.SuspectIff | 1_find_companies.py:122 | a company is flagged exactly when its cash is above 10,000,000 or it has a suspect item |
| Registry.CashThresholdBoundary | 1_find_companies.py:116-122 | both thresholds are strict: exactly 10,000,000 cash or 100,000,000 assets is not flagged, a cent more is (also lines 12-13) |
| Registry.Assess | 1_find_companies.py:87-132 | one company's entry: nothing when it is regulated, has no accounts path or is not a suspect, else its stripped name and number, four SIC cells, cash and large items |
| Registry.AssessCompany | 1_find_companies.py:87-132 | one company's assessment computes exactly the specification's entry |
| Registry.AssessSkips | 1_find_companies.py:89-100 | a company already regulated, or one with no accounts file, is skipped; a company that is kept has cash above 10,000,000 or a suspect item (also lines 122-132) |
| Registry.FindLargeCompanies | 1_find_companies.py:81-137 | the result is the flagged companies, sorted by cash with largest first |
| Registry.InsertByCash | 1_find_companies.py:134 | inserting grows the list by one |
| Registry.InsertByCashPermutes | 1_find_companies.py:134 | inserting adds exactly that company |
| Registry.SortByCashDesc | 1_find_companies.py:134 | sorting keeps the length |
| Registry.SortByCashDescPermutes | 1_find_companies.py:134 | the sorted list is a permutation of the input |
| Registry.InsertByCashSorted | 1_find_companies.py:134 | inserting into a sorted list keeps it sorted |
| Registry.SortByCashDescSorted | 1_find_companies.py:134 | the result is sorted by cash, largest first |
| Registry.InsertByCashStable | 1_find_companies.py:134 | inserting keeps companies with equal cash in their original order |
| Registry.SortByCashDescStable | 1_find_companies.py:134 | the sort is stable, as Python's is: only the cash is reordered |
| Registry.AllCodesMember | 1_find_companies.py:281-283 | a code is among all codes exactly when some result carries it |
| Registry.CategoryStats | 1_find_companies.py:279-283 | each code some result carries, with the number of results that carry it |
| Registry.CategoryStatsMeaning | 1_find_companies.py:279-283 | a code has a count exactly when some result carries it, and the count is between 1 and the number of results |
| Registry.ReportStatistics | 1_find_companies.py:275-283 | the total is the number of results, and the loop's counts are the per-code counts |
| Regulator.SearchFrom | 2_find_unregulated_companies.py:105-152 | the search never makes more calls than there are scripted responses |
| Regulator.Attempt | 2_find_unregulated_companies.py:109-148 | one pass of the loop body either ends the search with its outcome or sleeps and continues with the new retry count and wait, whatever responses follow |
| Regulator.SearchFirms | 2_find_unregulated_companies.py:105-152 | the retry loop's outcome, its number of calls and its sleeps are exactly those of the specification (also line 74) |
| Regulator.ServerErrorsThenData | 2_find_unregulated_companies.py:113-132 | two server errors and then data give the data after three calls and sleeps of 1 and 2 seconds |
| Regulator.RateLimitSpendsNoRetry | 2_find_unregulated_companies.py:123-126 | a rate-limit answer sleeps 65 seconds and spends no retry, leaving the wait unchanged |
| Regulator.RateLimitThenData | 2_find_unregulated_companies.py:113-126 | a rate limit and then data give the data after two calls and a 65-second sleep |
| Regulator.OtherStatusRejected | 2_find_unregulated_companies.py:133-136 | any other status ends the search after one call with no sleep |
| Regulator.NoBudgetNoCall | 2_find_unregulated_companies.py:150-152 | with a negative retry budget the register is never called (also line 108) |
| Regulator.BudgetFrom | 2_find_unregulated_companies.py:127-152 | from any partly spent budget, the retries spent never exceed the budget plus one, and the search gives up exactly when they reach it (also line 108) |
| Regulator.Budget | 2_find_unregulated_companies.py:105-152 | at most max_retries + 1 retry-spending responses are consumed, and the search gives up exactly when that many were |
| Regulator.ScheduleFrom | 2_find_unregulated_companies.py:123-148 | from any state, there is one sleep per consumed response except the last, each after a retried or rate-limited response; a rate limit sleeps 65 seconds, any other sleep is the first wait times the factor once per earlier retry |
| Regulator.Schedule | 2_find_unregulated_companies.py:123-148 | the same from the start, with a first wait of 1 second (also line 106) |
| Regulator.AnswerFrom | 2_find_unregulated_companies.py:113-122 | data found are the list of the last response consumed, which had status 200; a rejection reports the last response's status (also lines 133-136) |
| Regulator.HasIdentity | 2_find_unregulated_companies.py:179-185 | a company is searched only when its stripped name and its stripped number are both non-empty (also lines 239-245) |
| Regulator.WithRegStatus | 2_find_unregulated_companies.py:179-193 | the company after its search: its status is the search's answer for its stripped name when it has an identity, otherwise it is unchanged |
| Regulator.RegStatusSetExactly | 2_find_unregulated_companies.py:179-193 | a company with a name and a number gets the search's answer for its stripped name; any other company is untouched, and no other field changes |
| Regulator.AddRegStatusAt | 2_find_unregulated_companies.py:179-193 | one company's update in place changes only that slot |
| Regulator.AddRegStatus | 2_find_unregulated_companies.py:173-198 | every slot of the array becomes its company with its regulatory status set |
| Regulator.SameName | 2_find_unregulated_companies.py:252-256 | an entry is kept when its stripped name, normalised by `normalize_name` as written, equals the company's normalised name |
| Regulator.Pruned | 2_find_unregulated_companies.py:250-257 | the entries kept for a company: those with the same normalised name, in the answer's order |
| Regulator.PrunedEntry | 2_find_unregulated_companies.py:238-263 | the company after pruning: with an identity, its status (missing reads as []) is pruned against its normalised stripped name; otherwise it is unchanged |
| Regulator.PruneEntries | 2_find_unregulated_companies.py:250-257 | the loop keeps exactly the entries whose names normalise, as written, to the company's normalised name, in order |
| Regulator.PruneAt | 2_find_unregulated_companies.py:238-263 | one company's pruning in place changes only that slot |
| Regulator.PruneRegulatoryInfo | 2_find_unregulated_companies.py:235-266 | every slot becomes its pruned company; a company without a name or a number is left alone, and a missing status reads as [] |
| Regulator.PrunedExactly | 2_find_unregulated_companies.py:252-257 | the kept entries are a subsequence of the answer, and an entry is kept exactly when its name normalises, as written, to the company's |
| Regulator.PruneIdempotent | 2_find_unregulated_companies.py:235-266 | pruning twice is pruning once; a company without identity is unchanged |
| Regulator.SearchedThenPruned | 2_find_unregulated_companies.py:252-263 | after search and pruning, the status is the subsequence of the answer whose names normalise, as written, to the company's (also lines 190-193) |
| Regulator.AcmeLtdDotSameName | 2_find_unregulated_companies.py:211-232 | as written, an entry named "Acme Ltd." does not match the company "Acme (UK) Limited"; with the corrected normalisation it does (also line 256) |
| Regulator.LtdDotEntryDropped | 2_find_unregulated_companies.py:250-263 | as written, pruning "Acme (UK) Limited" deletes the register's entry "Acme Ltd." |
| Regulator.SameNameCorrected | 2_find_unregulated_companies.py:252-256 | the corrected comparison: the entry's stripped name, normalised with the trailing "Ltd." rule, equals the target |
| Regulator.PrunedCorrected | 2_find_unregulated_companies.py:250-257 | the corrected pruning: the entries that match under the corrected comparison, in order |
| Regulator.LtdDotEntryKept | 2_find_unregulated_companies.py:250-263 | with the corrected normalisation, pruning "Acme (UK) Limited" keeps the entry "Acme Ltd." |
| Names.RemoveParenthesized | 2_find_unregulated_companies.py:221 | the first substitution's scan: each match of `\s*\(.*?\)\s*` becomes one space and the scan resumes after it; any other character is copied |
| Names.CloseIndex | 2_find_unregulated_companies.py:221 | the lazy `.*?\)` ends at the first ')' reached without crossing a newline, and fails if every ')' is behind a newline |
| Names.ParenMatchEnd | 2_find_unregulated_companies.py:221 | a match of `\s*\(.*?\)\s*` is never empty and lies within the text |
| Names.PlainStartNoMatch | 2_find_unregulated_companies.py:221 | no match starts at a character that is neither a space nor '(' |
| Names.NoParenUnchanged | 2_find_unregulated_companies.py:221 | a name without '(' is unchanged by the first step |
| Names.PlainPrefixCopied | 2_find_unregulated_companies.py:221 | a prefix without spaces or '(' is copied unchanged |
| Names.PrefixCopiedBy | 2_find_unregulated_companies.py:221 | any scan that copies a leading character free of spaces and '(' copies a whole run of them |
| Names.QualifierDropped | 2_find_unregulated_companies.py:221 | "A (B) C" becomes "A C" |
| Names.RuleAt | 2_find_unregulated_companies.py:224-227 | a rule's pattern matches at a position, ignoring ASCII case, with no word character before it and the rule's condition on the character after it |
| Names.RewriteFrom | 2_find_unregulated_companies.py:224-227 | `re.sub`'s left-to-right scan from a position: each match is replaced and the scan resumes after it; any other character is copied |
| Names.Rewrite | 2_find_unregulated_companies.py:224-227 | one substitution over the whole text: the scan from the start |
| Names.ShortUnchanged | 2_find_unregulated_companies.py:224-227 | text shorter than the pattern is not rewritten |
| Names.MissingCharUnchanged | 2_find_unregulated_companies.py:224-227 | text lacking one of the pattern's characters is not rewritten |
| Names.RuleAtPrefix | 2_find_unregulated_companies.py:224-227 | appending text after a non-word end does not change whether the rule matches at a position inside the text before it, nor lets a match there reach past it |
| Names.RewriteFromPrefix | 2_find_unregulated_companies.py:224-227 | where a text and its extension agree on every match position before the extension, the rewrite of the extension is the text's rewrite followed by the rewrite of what was added |
| Names.RuleAtSuffix | 2_find_unregulated_companies.py:224-227 | a text put in front of another, when it ends outside a word or the other starts outside one, does not change whether the rule matches inside the other |
| Names.RewriteFromSuffix | 2_find_unregulated_companies.py:224-227 | under that condition, the scan of the joined text over the second part is the scan of the second part on its own |
| Names.RewriteBefore | 2_find_unregulated_companies.py:224-227 | the rewrite of a text that extends a prefix ending outside a word is the prefix's rewrite followed by the scan of the rest |
| Names.RewriteAfter | 2_find_unregulated_companies.py:224-227 | the scan of the joined text from where a suffix starts is the suffix's own rewrite |
| Names.RewriteWord | 2_find_unregulated_companies.py:224-227 | anywhere in a text, a word equal to the pattern ignoring case, after a non-word end and before a text the rule's condition accepts, is replaced, and the texts on either side are rewritten on their own |
| Names.RewriteAtEnd | 2_find_unregulated_companies.py:224-227 | the same for a final word, with nothing after it |
| Names.LimitedWord | 2_find_unregulated_companies.py:224 | a word "Limited" in any case, anywhere in the text, after a non-word end and before a non-word character or the end, becomes "Ltd", and the texts around it are rewritten on their own |
| Names.LtdDotBeforeWord | 2_find_unregulated_companies.py:227 | a "Ltd." in any case after a non-word end and directly before a word character becomes "Ltd", and the texts around it are rewritten on their own |
| Names.LtdDotNeedsFollower | 2_find_unregulated_companies.py:227 | as written, `\bLtd\.\b` never matches at the very end of the text |
| Names.TrailingLtdDotKept | 2_find_unregulated_companies.py:227 | as written, a final "Ltd." after a space is left as it is |
| Names.LtdDotKeptAtEnd | 2_find_unregulated_companies.py:227 | as written, the scan from a final "Ltd." copies it unchanged |
| Names.TrailingLtdDotRewritten | 2_find_unregulated_companies.py:227 | corrected rule: a final "Ltd." in any case becomes "Ltd" |
| Names.NormalizeName | 2_find_unregulated_companies.py:211-232 | `normalize_name` as written: the three substitutions in order (the third `\bLtd\.\b`), then lower case and strip |
| Names.NormalizeNameCorrected | 2_find_unregulated_companies.py:211-232 | the same with the third substitution `\bLtd\.`, which also drops the period of a trailing "Ltd." (the docstring's line 215) |
| Names.FinishShape | 2_find_unregulated_companies.py:230 | after lowering and stripping there is no upper-case letter and no outer space |
| Names.FinishIdempotent | 2_find_unregulated_companies.py:230 | lowering and stripping twice is doing it once |
| Names.NormalizeNameShape | 2_find_unregulated_companies.py:211-232 | a name normalised as written has no upper-case letter and no outer space |
| Names.CloseIndexAt | 2_find_unregulated_companies.py:221 | the first ')' before any newline is the one found |
| Names.GroupMatched | 2_find_unregulated_companies.py:221 | " (B) C" matches up to C |
| Names.NewlineGroupOnce | 2_find_unregulated_companies.py:221 | the newline stops the outer group of "(\n())" from matching, so one pass leaves "( )" |
| Names.AcmeUkLimited | 2_find_unregulated_companies.py:211-232 | "Acme (UK) Limited" normalises to "acme ltd", as written and corrected |
| Names.AcmeLtdDot | 2_find_unregulated_companies.py:211-232 | "Acme Ltd." normalises to "acme ltd." as written, so it differs from "Acme (UK) Limited"; corrected it normalises to "acme ltd", as that name does |
| Names.NormalizeNameNotIdempotent | 2_find_unregulated_companies.py:221 | as written (and corrected alike), "(\n())" normalises to "( )", which normalises to "": normalising is not idempotent (also lines 224-230) |
| Export.CheckCodes | 3_export_results.py:79-98 | the code check: the codes missing from the catalog reject the request, else the relevant codes and the table title |
| Export.Dedup | 3_export_results.py:87 | the keys of the comprehension's dict: no repetition, the same members, never longer |
| Export.DedupFirstOccurrence | 3_export_results.py:87 | the keys keep first-occurrence order: a key listed before another occurs in the codes before any occurrence of the later one |
| Export.CheckCodesMeaning | 3_export_results.py:79-87 | the check fails exactly when some code is not in the catalog, and reports the unknown codes in order, each as often as it was given; otherwise the relevant codes are exactly the given ones, each with its catalog description |
| Export.DedupOfRepeated | 3_export_results.py:87 | a code given several times is one key |
| Export.TableTitle | 3_export_results.py:94-98 | "code: description" for one distinct code, otherwise the codes joined by ", " |
| Export.TitleOfOneCode | 3_export_results.py:94-96 | with one distinct code the title is "code: description" |
| Export.TitleOfSeveralCodes | 3_export_results.py:97-98 | with two or more distinct codes the title is the codes joined by ", " |
| Export.RemoveRegulatedCompanies | 3_export_results.py:133-148 | the companies whose status is missing or empty, in order |
| Export.RemoveRegulatedMeaning | 3_export_results.py:133-148 | the kept companies are a subsequence of the input and exactly those with no or an empty status; kept and removed add up to the input |
| Export.RemoveRegulatedIdempotent | 3_export_results.py:133-148 | removing twice is removing once |
| Export.MaxSuspects | 3_export_results.py:388 | the widest company's number of items: an upper bound reached by some company, and 0 for no company (also line 420) |
| Export.CsvHeader | 3_export_results.py:424-426 | the header is the seven fixed column names, then Item i and Value i for each i from 1 |
| Export.CsvRow | 3_export_results.py:430-442 | a row holds the company's fields, then each item and its value, then empty pairs up to the width |
| Export.CreateCsv | 3_export_results.py:415-445 | no table for no company; otherwise the header for the widest company and one padded row per company, in order |
| Export.UniformWidth | 3_export_results.py:420-442 | every row is as wide as the header |
| Export.Truncate | 3_export_results.py:168 | `int()` of a float: the integer between the number and zero, less than one away |
| Export.GroupDigits | 3_export_results.py:168 | inserts (length-1)/3 commas and keeps the first digit first |
| Export.GroupDigitsPieces | 3_export_results.py:168 | the pieces between the commas spell the digits, with one to three in the first and three in every later one |
| Export.FormatIntMeaning | 3_export_results.py:166-168 | an integer's text has a minus sign exactly when it is negative, then groups that spell its magnitude |
| Export.FormatInt | 3_export_results.py:168 | `"{:,}".format` of an integer: a minus sign for a negative number, then its digits with thousands separators |
| Export.FormatNumber | 3_export_results.py:166-173 | the `format_number` filter: the grouped `int()` of a number, a boolean or an integer text; else the float of a float text; else the value as it is |
| Export.FormatNumberOfWhole | 3_export_results.py:166-168 | a whole float and a boolean are shown as the integers they stand for |
| Export.FormatNumberOfDigits | 3_export_results.py:166-168 | the digit text of a number is shown as that number |
| Export.FormatNumberOfOtherText | 3_export_results.py:166-173 | text that `float()` does not read is shown as it is |
| Text.Strip | 1_find_companies.py:87-88 | the stripped text has no outer space and is never longer |
| Text.StripChars | 1_find_companies.py:87-88 | the stripped text is the original's characters after the leading spaces |
| Text.Split | 3_export_results.py:49 | at least one part, two when the separator occurs, and no part holds the separator |
| Text.JoinSplit | 3_export_results.py:49 | joining the parts again gives back the argument |
| Text.SplitJoin | 3_export_results.py:49 | splitting parts that have no separator gives them back |
| Text.SplitAround | 3_export_results.py:49 | splitting `a` + separator + `b` gives the parts of `a` followed by the parts of `b` |
| Text.RemoveAllChar | 1_find_companies.py:110 | removing the comma leaves no comma |
| Text.Lower | 2_find_unregulated_companies.py:230 | `str.lower()` on ASCII: the same length, each character lowered |
| Text.ParseInt | 3_export_results.py:168 | `int()` of a text: surrounding white space, an optional sign and decimal digits, else None |
| Text.ParseFloat | 1_find_companies.py:112 | `float()` of a text: surrounding white space, an optional sign, digits with an optional fraction and exponent, else None |
| Text.ParseFloatOfInt | 3_export_results.py:166-171 | text that `int()` reads is read by `float()` as the same number |
| Text.NatToStringValue | 3_export_results.py:168 | the decimal text of a number spells its value |
| Text.ParseIntNatToString | 3_export_results.py:168 | `int(str(n))` is n |
| Text.ParseFloatNatToString | 1_find_companies.py:112 | `float(str(n))` is n |
| Text.ParseIntDigits | 3_export_results.py:168 | `int()` of a digit string is its value |
| Text.ParseFloatDigits | 1_find_companies.py:112 | `float()` of a digit string is its value |
| WebsiteIndex.Sanitize | interactive_website_json_creator.py:34 | spaces replaced by `_`, then each of the characters of `[\\/:*?"<>\|]` replaced by `_` (also line 69) |
| WebsiteIndex.SanitizeMeaning | interactive_website_json_creator.py:34 | sanitising keeps the length; each safe character is kept, and each space, each of `\ / : * ? " < >` and the vertical bar becomes `_` (also line 69) |
| WebsiteIndex.SanitizeIdempotent | interactive_website_json_creator.py:34 | sanitising twice is sanitising once (also line 69) |
| WebsiteIndex.Stem | interactive_website_json_creator.py:46 | `replace(".csv", "")`: every ".csv" removed (also line 82) |
| WebsiteIndex.StemOfCsvName | interactive_website_json_creator.py:46 | removing ".csv" from a name "x.csv" gives x, when x itself holds no ".csv" (also line 82) |
| WebsiteIndex.SicStem | interactive_website_json_creator.py:35 | an SIC table's stem is "results-code_description" (also line 46) |
| WebsiteIndex.AddressStem | interactive_website_json_creator.py:70 | an address table's stem is "results-address" (also line 82) |
| WebsiteIndex.CsvText | 3_export_results.py:422-443 | a written table ends with a line break |
| WebsiteIndex.TerminatorsAfterLine | interactive_website_json_creator.py:42 | a record ended by CRLF counts as one line |
| WebsiteIndex.TerminatorsOfCsv | interactive_website_json_creator.py:42 | a table of n one-line records has n lines |
| WebsiteIndex.RowCountOfCsv | interactive_website_json_creator.py:39-43 | a table written with a header counts exactly its data rows |
| WebsiteIndex.RowCount | interactive_website_json_creator.py:39-43 | a missing file has 0 rows; otherwise its lines less the header, never below 0 (also lines 74-78) |
| WebsiteIndex.CountRows | interactive_website_json_creator.py:39-43 | the row count is 0 for a missing file, and otherwise the lines minus the header, never below 0 (also lines 74-78) |
| WebsiteIndex.Title | interactive_website_json_creator.py:82 | `str.title()` on ASCII letters |
| WebsiteIndex.TitleFrom | interactive_website_json_creator.py:82 | title casing keeps the length |
| WebsiteIndex.TitleFromAt | interactive_website_json_creator.py:82 | each character is cased by whether a letter precedes it |
| WebsiteIndex.TitleTail | interactive_website_json_creator.py:82 | casing the rest of the text continues from its previous character |
| WebsiteIndex.TitleMeaning | interactive_website_json_creator.py:82 | `title()` keeps the length, upper-cases a letter that follows no letter and lower-cases one that follows a letter |
| WebsiteIndex.TitleFromIdempotent | interactive_website_json_creator.py:82 | casing from any state twice is casing once |
| WebsiteIndex.TitleIdempotent | interactive_website_json_creator.py:82 | `title()` twice is `title()` once |
| WebsiteIndex.SicEntry | interactive_website_json_creator.py:33-46 | a SIC code's entry: its description, its file's stem and its row count |
| WebsiteIndex.AddressEntry | interactive_website_json_creator.py:81-82 | an address is listed only with a positive number of rows |
| WebsiteIndex.BuildSicIndex | interactive_website_json_creator.py:31-46 | one entry per catalog code, in order, with its description, stem and row count |
| WebsiteIndex.BuildAddressIndex | interactive_website_json_creator.py:67-82 | the loop builds exactly the address index |
| WebsiteIndex.AddressIndexMeaning | interactive_website_json_creator.py:67-82 | the index is no longer than the address list; every entry has rows and comes from a listed address; every address whose file has rows is listed |
| Seqs.Filter | 3_export_results.py:137-140 | a filter keeps only satisfying elements of the input, and all of them |
| Seqs.FilterIsSubsequence | 3_export_results.py:137-140 | a filter keeps the input's order |
| Seqs.FilterIdempotent | 3_export_results.py:137-140 | filtering twice is filtering once |
| Seqs.FilterPartition | 3_export_results.py:142-143 | what is kept and what is removed add up to the input |

## Left out

- File and console I/O are parameters or are left out. The model does not cover `open`,
  `json.load`, `json.dump`, `print`, progress bars, `sys.exit`, HTML through Jinja, or copying
  files to the web server.
  - The directory walk is a sequence of (root, file names), in the order `os.walk` gives.
  - The file system is a map from path to text, so `os.path.exists` is map membership.
  - A parsed accounts document is a function from path to its tagged elements.
  - The registry snapshot is a sequence of rows.
  - JSON files are the values they decode to.
- The register's HTTP transport is a finite script of responses. A run that consumes the whole
  script ends in `ScriptEnded`. `time.sleep` calls are recorded as a list of seconds, not taken.
- Regulator.AddRegStatus: the search is a function parameter from a stripped name to the answer.
  The retries behind it are modelled by `Regulator.SearchFirms` on its own.
- Text: `\w`, `\d`, `isdigit`, `lower` and `title` are modelled on ASCII. Unicode letters and
  digits outside ASCII are not. `isspace` and `\s` (in `Text.IsSpace`) are the full set of
  characters Python's `str.isspace` accepts.
- Text.ParseFloat: decimal text is parsed exactly as a `real`. Float rounding, `inf`, `nan` and
  underscores in numbers are not modelled.
- Text.ParseInt: underscores between digits, which Python's `int()` accepts, are not modelled:
  `ParseInt("1_000")` is None, so `FormatNumber(JText("1_000"))` is `AsIs` where the script
  shows "1,000". Other bases and non-ASCII digits are not modelled either.
- Export.FormatNumber: the float branch yields `FloatGrouped(x)` and does not spell out the text
  of `"{:,}".format(float)`.
- Export.CreateCsv: an empty company list gives `None`. The source raises at `max()` there; the
  model does not say how the exception surfaces. The CSV writer's quoting and the text of numbers
  are not modelled: a cell is text or a number.
- Export.FormatNumber: JSON `null`, lists and objects are the one value `JOther`, shown as
  they are (`int()` and `float()` reject them). Booleans are `JBool`, which `int()` reads as 0
  or 1.
- JSON `null` values in the company records and duplicate JSON keys are not modelled. The SIC catalog is the sequence of
  its `.items()` where order matters, and a map where only lookup matters.
- Registry: the statistics report sorts and prints the counts; only the counts are modelled.
- AccountsLookup.BuildLookup: the fold is stated for any file-name parser and is used with
  `ParseFilename`. The directory names `os.walk` yields are not used by the source and are left out.
- The company dictionaries are datatype values. `AddRegStatus` and `PruneRegulatoryInfo`
  update an array in place. The other stages return new sequences, which is how the source
  uses their results.

## Findings

| source | as written | input that shows it | evidently intended | confidence | as-written member | corrected member |
|---|---|---|---|---|---|---|
| 2_find_unregulated_companies.py:227 | `\bLtd\.\b` needs a word character after the dot, so a "Ltd." at the end of a name is never rewritten | "Acme Ltd." normalises to "acme ltd.", not to the "acme ltd" that "Acme (UK) Limited" gives | a trailing "Ltd." becomes "Ltd", as the docstring at line 215 says | not executed | Names.TrailingLtdDotKept | Names.TrailingLtdDotRewritten |
| 2_find_unregulated_companies.py:250-257 | the pruning compares names normalised by that rule | pruning "Acme (UK) Limited" deletes the register's entry "Acme Ltd.", the same company written the other way | the entry is kept | not executed | Regulator.LtdDotEntryDropped | Regulator.LtdDotEntryKept |

The pruning of the model (`Regulator.PruneRegulatoryInfo` and the lemmas about it) uses
`normalize_name` as written, since that is what the script runs. The corrected normaliser
(`Names.NormalizeNameCorrected`) and the corrected comparison and pruning
(`Regulator.SameNameCorrected`, `Regulator.PrunedCorrected`) stand beside it, with the intended
properties proved about them.
