# CMS hospital-data pipeline: verified core

`main_script.py` is a daily pipeline. It downloads the CMS provider-data
catalogue, keeps the hospital-related datasets, downloads the ones that are new
or changed since the last run, rewrites each CSV header row, and records what
it processed. The header rewrite lower-cases each name, deletes quotes, and
puts `_` in place of the listed separators (the program calls the result
snake_case). Every other punctuation mark is kept, so `"A/B"` becomes
`"a/b"`. This project models the part of
the pipeline that is sequential logic rather than plumbing, and proves what
that logic promises:

- **Column-name cleaning** (`step10_clean_column_name`), in `column_names.dfy`.
  The name is lower-cased and quotes are deleted. `( ) % & -` and space become
  `_`. Runs of `_` are collapsed by repeating Python's `replace("__", "_")`
  until no `__` is left. One `_` is then stripped from each end. The method
  follows these steps in order. It is proved equal to an independent reference
  definition: map each character, shrink each run of `_`, strip the ends. The
  proofs show that the result has the clean shape, is no longer than the input,
  and that cleaning is idempotent. The names cleaning leaves unchanged are
  exactly the clean ones.
- **Header rewrite** (`step11_process_single_file`). The header row is mapped
  through the cleaner one entry at a time. The data rows are written out
  unchanged. A file with no records has no header row, so it is an error.
- **Relevance filter** (`step6_filter_hospital_datasets`), in `catalog.dfy`.
  The filter keeps exactly the datasets that pass the six-way test, in
  catalogue order. Missing fields default to `""` or `[]`.
- **Change detection and metadata recording** (`step7_find_new_or_updated_files`,
  `step12_update_metadata`), in `incremental.dfy`. Recording sets every
  identifier to the stamp of the last dataset carrying it and touches no other
  key. Recording the same batch twice equals recording it once. The round trip
  is stated both ways: a recorded batch is no longer reported exactly when its
  datasets that share an identifier also share a stamp. Under the same
  condition, and only then, a re-run over an unchanged catalogue finds nothing
  to download.

`text.dfy` holds the `str` operations the code relies on: ASCII
`lower`, one-character `replace`, and substring `in`. `seqs.dfy` holds the
order-preserving filter that specifies the append loops. `wrappers.dfy` holds
`Option` and `Result`.

## Model

| member | source | states |
|---|---|---|
| `Text.LowerChar` | main_script.py:105 | the result is never an upper-case ASCII letter; `A`-`Z` move to `a`-`z`, every other character is kept |
| `Text.Lower` | main_script.py:105 | `lower()` keeps the length and lower-cases each position |
| `Text.ReplaceChar` | main_script.py:106-114 | a one-character `replace` that deletes never lengthens the name, and one that substitutes a single character keeps its length |
| `Text.ReplaceCharMembers` | main_script.py:106-114 | a character is in the result iff it was in the input and is not the replaced one, or comes from the replacement and the replaced one occurred |
| `ColumnNames.ReplacementsNormalize` | main_script.py:105-114 | the nine `replace` calls after `lower()` are exactly the per-character mapping (quotes deleted, separators to `_`, letters lower-cased) |
| `ColumnNames.Normalize` | main_script.py:105-114 | after the character rewrites no quote, separator or upper-case letter is left and the name is no longer |
| `ColumnNames.HasDoubleUnderscoreIsSubstring` | main_script.py:116 | the loop test on adjacent `_` characters is Python's substring test `"__" in s` |
| `ColumnNames.ReplaceDoubleUnderscore` | main_script.py:117 | one `replace("__", "_")` pass is strictly shorter whenever `__` occurs (the loop's termination measure), never longer, and keeps the first character |
| `ColumnNames.ReplaceDoubleUnderscoreKeepsSquash` | main_script.py:116-117 | one pass does not change the collapsed form, so the loop ends at the collapse of the name it started from |
| `ColumnNames.Squash` | main_script.py:116-117 | the collapsed name contains no `__`, keeps the first character and is no longer |
| `ColumnNames.SquashKeepsNameChars` | main_script.py:116-117 | collapsing introduces no quote, separator or upper-case letter |
| `ColumnNames.SquashKeepsSingleUnderscores` | main_script.py:116-117 | a name without `__` is left as it is by the collapse loop |
| `ColumnNames.NormalizeKeepsClean` | main_script.py:105-114 | a name with no quote, separator or upper-case letter is left as it is by the character rewrites |
| `ColumnNames.DropLeadingUnderscore` | main_script.py:119-120 | `s[1:]` when the name starts with `_`, otherwise the name itself: the result is the input or the input minus one leading `_`, and the latter whenever the input starts with `_` |
| `ColumnNames.DropTrailingUnderscore` | main_script.py:121-122 | `s[:-1]` when the name ends with `_`, otherwise the name itself: the result is the input or the input minus one trailing `_`, and the latter whenever the input ends with `_` |
| `ColumnNames.StripEdgesClean` | main_script.py:119-122 | stripping one `_` from each end of a `__`-free name leaves no `_` at either end and no `__` |
| `ColumnNames.CleanNameIsClean` | main_script.py:104-124 | every cleaned name is lower-case, has none of `'"` `` ` `` `()%&-` or space, no `__`, no edge `_`, and is no longer than the input |
| `ColumnNames.CleanNameFixedPoints` | main_script.py:104-124 | cleaning leaves a name unchanged iff it already has the clean shape |
| `ColumnNames.CleanNameIdempotent` | main_script.py:104-124 | cleaning a cleaned name returns it unchanged |
| `ColumnNames.CleanNameOfUnderscores` | main_script.py:116-122 | `"_"`, `"__"` and `"(%)"` all clean to the empty name |
| `ColumnNames.CleanNameOfHyphenated` | main_script.py:104-124 | `"A-B"` cleans to `"a_b"` |
| `ColumnNames.CleanNameOfParenthesized` | main_script.py:104-124 | `"(X)"` cleans to `"x"` |
| `ColumnNames.CleanColumnName` | main_script.py:104-124 | the step-by-step method (replace chain, `while "__" in` loop, two edge strips) returns the reference cleaned name, which is clean and no longer than the input |
| `ColumnNames.CleanHeaders` | main_script.py:137-139 | as many cleaned headers as original ones; header i is the cleaned header i, and every one is clean |
| `ColumnNames.ProcessRecords` | main_script.py:130-147 | no records is an error (no header row); otherwise the written records are the cleaned header row of the same width followed by the data rows unchanged |
| `Text.IsSubstring` | main_script.py:60-65 | Python's `pat in s` on strings: `pat` occurs in `s` at some position; the contract states that a match needs `pat` no longer than `s` and that the empty pattern is in every string |
| `Catalog.AnyContains` | main_script.py:62-63 | the `any(...)`: some entry, lower-cased, contains the pattern; the contract states that an empty list never matches |
| `Catalog.IsHospitalRelated` | main_script.py:59-66 | the six alternatives in the source's order; a missing title or description reads as `""`, a missing theme or keyword as `[]`; the contract states that a kept dataset has at least one of the four fields |
| `Catalog.HospitalRelatedSimplified` | main_script.py:59-66 | the six-way test holds iff "hospital" is in the lower-cased title or description, or "hospitals" is in some lower-cased theme or keyword |
| `Catalog.BareDatasetExcluded` | main_script.py:53-66 | a dataset with no (or empty) title, description, theme and keyword is not hospital-related |
| `Catalog.FilterHospitalDatasets` | main_script.py:49-72 | the result contains exactly the input datasets that pass the test, is a subsequence of the input, and equals the order-preserving filter |
| `Seqs.Filter` | main_script.py:53-69 | the filter is no longer than its input and holds only input elements that satisfy the predicate |
| `Seqs.FilterMembers` | main_script.py:53-69 | an element is in the filter iff it is in the input and satisfies the predicate |
| `Seqs.FilterIsSubsequence` | main_script.py:53-69 | the filter keeps input order (it is a subsequence) |
| `Seqs.FilterAllKept` | main_script.py:77-82 | when every element qualifies the filter returns its input |
| `Seqs.FilterNoneKept` | main_script.py:77-82 | when no element qualifies the filter returns nothing |
| `Incremental.NeedsDownload` | main_script.py:81 | the identifier is not in the recorded files, or its recorded stamp differs from the current `modified` (`None` when absent); the contract states that this holds exactly when recording the dataset would change the files map |
| `Incremental.FindNewOrUpdatedFiles` | main_script.py:74-84 | reports, in input order, exactly the datasets whose identifier is unrecorded or recorded with another stamp; the metadata is only read |
| `Incremental.Metadata.constructor` | main_script.py:37 | the first-run metadata records no files |
| `Incremental.UpdateMetadata` | main_script.py:160-165 | the new `files` map is the old one with the batch recorded in order |
| `Incremental.Recorded` | main_script.py:161-164 | the files map after setting each processed identifier to its `modified`, in batch order, a later dataset overwriting an earlier one; the contract states that no earlier key is lost |
| `Incremental.RecordedKeys` | main_script.py:160-165 | recording adds exactly the batch's identifiers as keys and leaves every other key's value unchanged |
| `Incremental.RecordedLastWins` | main_script.py:160-165 | an identifier ends up with the stamp of the last dataset of the batch carrying it |
| `Incremental.RecordedFromBatch` | main_script.py:160-165 | each identifier of the batch is set to the stamp of some dataset of the batch with that identifier |
| `Incremental.RecordedIsOverlay` | main_script.py:160-165 | recording a batch overlays the batch's own record on the old metadata |
| `Incremental.RecordedIdempotent` | main_script.py:160-165 | recording the same batch twice equals recording it once |
| `Incremental.EmptyMetadataReportsAll` | main_script.py:74-84 | with empty metadata every dataset is reported |
| `Incremental.RecordedBatchNotNew` | main_script.py:74-84 | after recording a batch, change detection on it reports nothing iff datasets sharing an identifier share their stamp |
| `Incremental.DuplicateIdentifierStaysNew` | main_script.py:160-165 | two datasets with one identifier and different stamps: after recording both, the first is still reported |
| `Incremental.RerunReportsNothing` | main_script.py:177-200 | detecting changes, recording exactly the reported datasets, then detecting again over the same datasets reports nothing, iff datasets sharing an identifier share their stamp |
| `Incremental.PipelineRerunFindsNothing` | main_script.py:171-200 | the same for the filtered catalogue: the next run over an unchanged catalogue downloads nothing, iff hospital datasets sharing an identifier share their stamp |

## Left out

- Network access: `step5_fetch_all_datasets` and `step8_download_single_file` are foreign I/O. This includes the `ValueError` for a dataset without a distribution.
- Concurrency: `step9_download_files_parallel` and `step11_process_files_parallel` only map a step over a list on a thread pool. The model does not cover the threads.
- File-system and serialisation I/O is not modelled: `step2_create_directories`, the JSON reading of `step3_load_previous_metadata` (only its first-run default `{"files": {}}` is modelled, as `Metadata.constructor`) and `step4_save_metadata`. The same goes for the CSV parsing and writing in `step11_process_single_file`: `ProcessRecords` works on the parsed records and returns the records to be written. The name of the cleaned output file is not modelled.
- The clock (`last_run` and the printed timestamps), every `print`, `show_sample_output`, and the orchestration in `run_complete_pipeline`. The orchestration appears only as the contract of `PipelineRerunFindsNothing`. The model also does not cover the two failure points that leave the metadata unsaved. A failed download raises out of line 190. A downloaded file with no records raises at `next(csv_reader)` (line 132, the `Failure` of `ProcessRecords`) and out of line 193. In both cases line 200 never runs, whereas `PipelineRerunFindsNothing` assumes every reported dataset is recorded.
- `__init__` and `step1_load_constants`: the one constant the core uses, `THEME_FILTER`, is `Catalog.ThemeFilter`.
- Text.Lower: the model lower-cases ASCII letters only. Python's `str.lower()` also lower-cases non-ASCII letters and can change the length (`'İ'.lower()` gives two code points), so the length bounds of `ColumnNames.CleanNameIsClean` and `ColumnNames.CleanColumnName` hold for the model only.
- Catalog.IsHospitalRelated: theme and keyword entries are taken to be strings, so `str(t)` on a non-string entry is not modelled.
- Python runtime failures are not representable in the model. A dataset without `identifier` raises `KeyError`. A `null` title or description makes `.lower()` fail, and a `null` theme or keyword makes the `for t in …` iteration raise `TypeError` when the `or` chain reaches that alternative. When an earlier alternative already holds, Python keeps the dataset without error, which is what the model's `None`-as-`[]` reading gives too. `identifier` is therefore a required field, and `None` in an optional field means the key is absent.
- `UpdateMetadata` changes the metadata object in place. It returns nothing, whereas the source also returns the same object.
