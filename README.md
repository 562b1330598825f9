# Tweet stance pipeline: the text layer, in Dafny

This project models the deterministic text handling of a tweet stance-detection
pipeline, one Dafny module per Python module:

- **Normalizer** (`src/dataset_normalizer.py`). `preprocess_text` protects mentions
  and then URLs behind placeholders. It rewrites the rest of the text in a fixed
  order: elongations shrunk to three copies, lowercase, then years, times, cash and
  hashes abstracted. It then puts the captured URLs and mentions back with
  replace-first loops. `post_process_text` and `fix_for_tagger` are also modelled.
- **ModelUtilities** (`src/model_utilities.py`). `get_x` packs a row into a
  tab-joined record and `split_x_value` unpacks it. Also modelled: predicted-code
  translation, default labels, and the row loop of `load_dataset`.
- **ModelSvm** (`src/model_svm.py`). The target-presence feature of
  `TargetVectorizer`, the token prefixing of `SLO_WordAnalyzer`, and the block order
  and settings of `get_model`.
- **DatasetPreprocessor** (`src/dataset_preprocessor.py`). Retweet detection,
  full-text reconstruction and newline cleaning. Language and company attribution
  update the two global tallies, modelled as a `Tallies` class. The drop filter and
  the chunk loop of `create_dataset` are also modelled.
- **CodingProcessor** (`src/coding_processor.py`). Leading-mention removal, tweet
  URLs, per-company sampling of distinct accessible tweets, and assembly of the
  manual coding set. Sampling takes a `Reading`: `AsWritten` uses the eligibility
  filter exactly as the source writes it, `Intended` the corrected filter (see
  "Findings").
- **AutocodingProcessor** (`src/autocoding_processor.py`). The testset exclusion
  pattern, the per-company row selection, semicolon stripping, the three stance
  selections and the balanced sample size. `create_tweet_sample` is modelled on a
  `Frame` class, so its in-place column assignment and aliasing are visible. The
  company loop of `main` is modelled as `Autocode`, which also takes a `Reading`:
  `AsWritten` runs lines 104-157 as they are written (the testset branch drops the
  company filter; the against and neutral samples are drawn from the for
  selection), `Intended` applies both corrections listed under "Findings".
- **TokenExtractor** (`src/token_extractor.py`). The first-seen unique tweet and
  profile texts, one per line.

Five helper modules are shared:

- **Wrappers**: Option, Python-style results and the exceptions raised.
- **Text**: `str` operations.
- **Regex**: `re.sub`/`findall` scans over abstract patterns, and the
  placeholder restore theory.
- **Tiling**: a sequence cut into consecutive pieces, one per key, and where
  each key's piece sits. The coding set (one block per company group) and the
  auto-coded frame (one stretch per company) are both cut this way.
- **Frames**: boolean indexing of a data frame (`df[mask]`, `df.loc[mask]`),
  used by the preprocessor's drop steps and the auto-coder's selections.

The regular expressions of `src/settings.py` are not part of this model. Each one
is a `Matcher`: the length of the non-empty match it makes when tried at an index,
or 0. Matches are found by Python's left-to-right, non-overlapping scan. The
elongation pattern, newline cleaning, tab joining and splitting, and the `#`,
`t_` and `p_` prefixes are written out concretely.

Every operation that changes state step by step is a method with loop invariants,
proved against a specification function. The lemmas then state the source's
promises about that function: round trips, idempotence, counts, order and "nothing
else changes".

## Model

| member | source | states |
|---|---|---|
| Normalizer.ElongationSubIsShrink | src/dataset_normalizer.py:36 | The elongation substitution, run from any index, equals run-by-run shrinking: every maximal run of one character keeps at most three copies |
| Normalizer.ShrinkMaxRun | src/dataset_normalizer.py:36 | After shrinking, no run of one character is longer than three |
| Normalizer.ShrinkFixed | src/dataset_normalizer.py:36 | A text with no run longer than three is left unchanged by shrinking |
| Normalizer.ShrinkIdempotent | src/dataset_normalizer.py:36 | Shrinking elongations twice is shrinking them once |
| Normalizer.LowerCount | src/dataset_normalizer.py:37 | Lowercasing keeps the number of occurrences of every non-letter character |
| Normalizer.LowerKeeps | src/dataset_normalizer.py:37 | Lowercasing keeps every copy of a lowercase placeholder whose marker is not a letter whole, and keeps their number |
| Normalizer.AbstractKeeps | src/dataset_normalizer.py:39-42 | If each abstraction spares the placeholders, the four abstractions together keep both placeholders' copies whole and their counts unchanged |
| Normalizer.MiddleKeeps | src/dataset_normalizer.py:36-42 | Shrinking, lowercasing and abstracting, in that order, keep both placeholders' copies whole and their counts unchanged |
| Normalizer.ProtectMentions | src/dataset_normalizer.py:30-31 | Protecting mentions leaves one whole placeholder per captured mention and no other marker; the captured mentions hold neither marker |
| Normalizer.ProtectUrls | src/dataset_normalizer.py:33-34 | Protecting URLs afterwards leaves one whole URL placeholder per captured URL; the captured URLs hold no URL marker |
| Normalizer.PutBack | src/dataset_normalizer.py:45-48 | One restore loop: the text equals the placeholder replaced first-occurrence-first by each captured value in capture order |
| Normalizer.PreprocessText | src/dataset_normalizer.py:20-54 | A missing (non-string) cell raises `TypeError`, which is re-raised and never swallowed; a string is normalised stage by stage in the source's fixed order |
| Normalizer.NormalizeRestoresCaptured | src/dataset_normalizer.py:28-48 | The output is the transformed text with the captured URLs, then the captured mentions, put back verbatim, in capture order, one per placeholder slot; no placeholder survives |
| Normalizer.ProtectRestoreInverse | src/dataset_normalizer.py:30-48 | When the middle stages change nothing, restoring URLs then mentions gives back the cleaned text exactly |
| Normalizer.PostProcessAbstracts | src/dataset_normalizer.py:57-68 | Each mention becomes `slo_mention`, then each URL of that result becomes `slo_url`; every character outside a match stays in place |
| Normalizer.PostProcessNoMatch | src/dataset_normalizer.py:57-68 | A text with no mention and no URL (e.g. only hashtags and cashtags) is returned unchanged |
| Normalizer.FixForTagger | src/dataset_normalizer.py:99-104 | Same length; `''` becomes `slo_empty_text`; every non-empty text is kept |
| Normalizer.FixForTaggerIdempotent | src/dataset_normalizer.py:99-104 | After the fix no text is empty, so a second fix changes nothing |
| Regex.ScanDecomposes | src/dataset_normalizer.py:30 | `findall` cuts the text into gaps and matches; putting them back together gives the text |
| Regex.SubFillsGaps | src/dataset_normalizer.py:31 | `sub` replaces exactly the `findall` matches, each by its replacement, and keeps every gap |
| Regex.SubConstant | src/dataset_normalizer.py:31 | Substituting a fixed placeholder leaves the gaps with one placeholder copy per match |
| Regex.SubDeletes | src/dataset_preprocessor.py:145 | Substituting `''` removes exactly the matched characters (the length drops by their total), and a text with no match is returned as it is |
| Regex.TemplateWellPlaced | src/dataset_normalizer.py:31-34 | Placeholder copies between marker-free gaps are well placed, and the text holds exactly one marker per copy |
| Regex.RestoreAllSnoc | src/dataset_normalizer.py:45-48 | Each loop iteration is one more `replace(ph, v, 1)` on the text so far |
| Regex.ReplaceFirstAtMarker | src/dataset_normalizer.py:46 | When nothing before a placeholder holds its marker, `replace(ph, v, 1)` replaces that placeholder |
| Regex.RestoreTemplate | src/dataset_normalizer.py:45-48 | Restoring into marker-free gaps separated by placeholders puts the values verbatim and in order into the slots |
| Regex.SlotsTemplate | src/dataset_normalizer.py:45-48 | A text whose placeholders are well placed is its slots filled with one copy per marker |
| Regex.RestoreFillsSlots | src/dataset_normalizer.py:45-48 | If the placeholder count equals the number of values and no value holds the marker, every value lands in its slot and no placeholder survives |
| Regex.RestoreCanLeavePlaceholder | src/dataset_normalizer.py:45-48 | When a captured value holds the marker the restore can rebuild a placeholder: `"abb"` with placeholder `ab` and value `a` restores to `"ab"`, so the no-survivor promise needs marker-free values |
| Regex.FillKeepsOther | src/dataset_normalizer.py:45-48 | Restoring URLs keeps every mention placeholder whole and keeps their count, as long as no URL holds the mention marker |
| Regex.ProtectRestoreRoundTrip | src/dataset_normalizer.py:30-48 | Protecting the matches behind a placeholder and restoring the captured values gives back the original text, if the text lacks the marker |
| Text.IndexOf | src/dataset_normalizer.py:46 | The leftmost occurrence at or after the start index, and none when there is none |
| Text.ReplaceFirst | src/dataset_normalizer.py:46 | With no occurrence the text is unchanged; otherwise only the leftmost occurrence is replaced |
| Text.Lower | src/dataset_normalizer.py:37 | Same length; each character is lowercased in place |
| Text.LowerIdempotent | src/dataset_normalizer.py:37 | Lowercasing twice is lowercasing once |
| Text.Split | src/model_utilities.py:50 | At least one field, and no field holds the separator |
| Text.SplitJoin | src/model_utilities.py:28-52 | Splitting undoes joining when no part holds the separator |
| Text.Words | src/model_svm.py:68 | Whitespace tokens are non-empty and hold no whitespace |
| Text.WordsSeparated | src/model_svm.py:123 | Splitting on whitespace distributes over a whitespace separator (tab-joined fields split field by field) |
| Text.Strip | src/model_utilities.py:102 | The result is empty or neither starts nor ends with whitespace |
| Text.StripCore | src/model_utilities.py:102 | A text that is whitespace, then a core that is empty or starts and ends with a non-space, then whitespace, strips to exactly that core |
| Text.RemoveChar | src/autocoding_processor.py:112-113 | The character is gone and the text does not grow |
| Text.RemoveCharSingle | src/autocoding_processor.py:112-113 | A one-character text is removed when it is the character and kept otherwise |
| Text.RemoveCharConcat | src/autocoding_processor.py:112-113 | Removal distributes over concatenation; with the one-character case this fixes the result: the other characters, in their order |
| Text.RemoveCharCounts | src/autocoding_processor.py:112-113 | Every character other than the removed one keeps its count |
| Text.ReplaceChar | src/dataset_preprocessor.py:230 | Same length; exactly the occurrences of the old character become the new one |
| Text.NatToStringInjective | src/coding_processor.py:111 | Different non-negative numbers have different decimal renderings |
| ModelUtilities.Get | src/model_utilities.py:24-27 | A present key gives its cell; a missing key raises `KeyError` |
| ModelUtilities.GetX | src/model_utilities.py:15-35 | The append-built feature list, joined and (for auto-coded data) stripped of the company's hashtags, equals the encoding; errors are raised in lookup order |
| ModelUtilities.EncodeXPlain | src/model_utilities.py:23-28 | Without auto-coding: company, tweet and, with profile, the profile, joined by single tabs in that order |
| ModelUtilities.SplitXValue | src/model_utilities.py:43-54 | Succeeds exactly when there are 3 tab fields (profile) or 2 (without); without profile the profile is `''`; no field holds a tab |
| ModelUtilities.SplitGetXRoundTrip | src/model_utilities.py:15-54 | Round trip: a row without tabs, encoded without auto-coding, decodes with the same flag to its company, tweet and profile (or `''`) |
| ModelUtilities.SplitXValueWrongFlag | src/model_utilities.py:49-53 | Decoding with the other profile flag raises `ValueError` |
| ModelUtilities.PyIndex | src/model_utilities.py:112 | Python list indexing, negative indices included; out of range raises `IndexError` |
| ModelUtilities.TranslatePredicted | src/model_utilities.py:110-112 | Same length; the i-th label is `labels[y[i]]`; an out-of-range code raises |
| ModelUtilities.SetLabels | src/model_utilities.py:115-121 | `None` gives `['against','for','neutral','na']`; anything else is returned unchanged |
| ModelUtilities.TranslateDefaultLabels | src/model_utilities.py:110-121 | Codes 0 to 3 translate to the default labels in order |
| ModelUtilities.LabelIndex | src/model_utilities.py:102 | The first position of the stance in the labels; an unknown stance raises `ValueError` |
| ModelUtilities.LoadRow | src/model_utilities.py:100-102 | A row loads to its encoding and the first label position equal to its stripped stance; an encoding error comes first, then a missing `stance` column raises `KeyError`, then an unknown stance raises `ValueError` |
| ModelUtilities.LoadAll | src/model_utilities.py:100-107 | x and y have the row count as their length, and each pair is that row's encoding and stance index; fails exactly when some row fails |
| ModelUtilities.LoadDataset | src/model_utilities.py:84-107 | The append loop computes `LoadAll`, auto-coding detected by `auto` in the path |
| ModelUtilities.LoadAllFails | src/model_utilities.py:100-102 | The first failing row decides the error of the whole load |
| ModelSvm.Prefixed | src/model_svm.py:114-116 | Same length; each token is the prefix followed by the token |
| ModelSvm.LowerAll | src/model_svm.py:59 | Same length; each word is lowercased |
| ModelSvm.TargetVectorizer.ExpandTargetWords | src/model_svm.py:55-61 | Twice the word count: the lowercased target words, then the same words prefixed with `#` |
| ModelSvm.ExpansionLowercase | src/model_svm.py:55-69 | Every form in the expansion is already lowercase |
| ModelSvm.TargetWordRecognised | src/model_svm.py:63-71 | Any target word in the tweet, bare or as a hashtag and in any letter case, makes the target present |
| ModelSvm.Mentions | src/model_svm.py:68-71 | The early-exit token scan finds a token exactly when some lowercased token is a target form |
| ModelSvm.TargetVectorizer.Transform | src/model_svm.py:63-72 | One entry per record; entry i is 1 exactly when a lowercased tweet token of record i is in its target's expansion (profile never scanned); a record that does not unpack raises `ValueError` |
| ModelSvm.WordAnalyzer.Analyze | src/model_svm.py:108-123 | With profile: `t_` target tokens, bare tweet tokens, `p_` profile tokens, in that order; without: the whitespace split of the whole record |
| ModelSvm.AnalyzeEncodedRow | src/model_svm.py:108-123 | On an encoded row: with profile the three prefixed token groups; without profile the company's tokens unprefixed, then the tweet's |
| ModelSvm.GetModel | src/model_svm.py:126-162 | Blocks `ngram_w`, `ngram_c`, `target`, `embedding` in that order; binary, case-sensitive char 2-5-grams; every decoding block uses the same profile flag; `C = 3.0` |
| ModelSvm.ModelAcceptsEncodedRows | src/model_svm.py:135-157 | A row encoded with a profile flag is accepted by the analyzer and the target block of the model built with that flag |
| DatasetPreprocessor.CleanText | src/dataset_preprocessor.py:228-230 | Same length; every `\n` and `\r` becomes a space and neither is left |
| DatasetPreprocessor.CleanTextIdempotent | src/dataset_preprocessor.py:228-230 | Cleaning twice is cleaning once |
| DatasetPreprocessor.ComputeFullText | src/dataset_preprocessor.py:116-136 | Rebuilt only for a truncated retweet that has its original (RT header + original text); otherwise the text itself; always cleaned; a header `PTN_rt` misses raises `AttributeError` |
| DatasetPreprocessor.RemoveBadChars | src/dataset_preprocessor.py:139-145 | The gaps between bad-character matches, in order, with every match deleted; the text shrinks by the matched length, and a text with no match is kept |
| DatasetPreprocessor.Companies | src/dataset_preprocessor.py:196-209 | At most one company per pattern |
| DatasetPreprocessor.CompaniesNamed | src/dataset_preprocessor.py:201-206 | Every attributed company is the company of some pattern |
| DatasetPreprocessor.CompaniesWithoutAuthor | src/dataset_preprocessor.py:201-206 | If no pattern names the author, the result is every tweet-matching company in pattern order |
| DatasetPreprocessor.CompaniesAuthorStops | src/dataset_preprocessor.py:201-204 | The first pattern that names the author ends the scan: earlier tweet matches, then its company; later patterns are not consulted |
| DatasetPreprocessor.JoinStartsWith | src/dataset_preprocessor.py:208-220 | The `'|'`-joined company string starts with the first company |
| DatasetPreprocessor.CompanyEmptyIffUnknown | src/dataset_preprocessor.py:208-220 | With non-empty company names, the joined result is `''` exactly when no pattern applies |
| DatasetPreprocessor.AssociatedCompanies | src/dataset_preprocessor.py:196-206 | The scan loop with its `break` computes exactly `Companies` |
| DatasetPreprocessor.Tallies.constructor | src/dataset_preprocessor.py:19-21 | Both global tallies start at zero |
| DatasetPreprocessor.Tallies.UpdateLanguage | src/dataset_preprocessor.py:148-169 | An English code is kept; otherwise the detected code is returned and the non-English tally rises by one exactly when it is not English; the other tally is untouched |
| DatasetPreprocessor.Tallies.ComputeCompany | src/dataset_preprocessor.py:190-220 | The `\|`-joined companies of the lowercased text and author; the unknown-company tally rises by one exactly when there are none |
| DatasetPreprocessor.Tallies.LanguageColumn | src/dataset_preprocessor.py:48-49 | `update_language` on each row in order; the non-English tally rises by the number of non-English codes |
| DatasetPreprocessor.Tallies.CompanyColumn | src/dataset_preprocessor.py:54 | `compute_company` on each row in order; the unknown-company tally rises by the number of rows without a company |
| DatasetPreprocessor.ChunkRecords | src/dataset_preprocessor.py:44-54 | One record per tweet with every derived column, or `AttributeError` exactly when some full text fails |
| DatasetPreprocessor.FullTexts | src/dataset_preprocessor.py:46-47 | `compute_full_text` on each row; the first failure propagates |
| DatasetPreprocessor.ProcessChunk | src/dataset_preprocessor.py:44-54 | The records of the chunk; on success the tallies rise by its non-English and unknown-company counts, and on failure they do not move |
| Frames.Where | src/dataset_preprocessor.py:59-70 | A boolean-indexed frame keeps exactly the rows that pass the test, and never grows |
| DatasetPreprocessor.DropSteps | src/dataset_preprocessor.py:56-70 | The two drop steps on one chunk equal `DropRows`, and keep exactly the records with a company and an English code (when irrelevant tweets are dropped) that are not retweets (when retweets are not kept) |
| Frames.WhereWhere | src/dataset_preprocessor.py:59-70 | Two boolean selections in a row are one selection by both tests |
| DatasetPreprocessor.DropRowsKeeps | src/dataset_preprocessor.py:56-70 | The drop steps keep, in order, exactly the records with a company and an English code (when dropping irrelevant tweets) that are not retweets (when not keeping retweets) |
| DatasetPreprocessor.KeptTweet | src/dataset_preprocessor.py:44-69 | A tweet survives the drop steps exactly when (if irrelevant tweets are dropped) it has a company and its Twitter or detected language code starts with `en`, and (if retweets are dropped) its raw full text does not start with the retweet marker |
| DatasetPreprocessor.AppendsShape | src/dataset_preprocessor.py:33-97 | A successful run makes one append per chunk, in order, with the header on the first only, each holding its chunk's kept records |
| DatasetPreprocessor.CreateDataset | src/dataset_preprocessor.py:23-108 | The chunk loop makes exactly the appends of `Appends`, and `count` sums the rows appended; a failing chunk stops the run after the earlier appends; the non-English and unknown-company tallies rise by the sums over the chunks processed (those before the failing one on failure) |
| CodingProcessor.MentionRunEnd | src/coding_processor.py:98-104 | The cut point where no mention matches any more |
| CodingProcessor.RemovePrependedMentions | src/coding_processor.py:96-104 | The loop returns the tweet from the end of its leading run of mentions: a suffix of the input, and the whole input when no mention starts it |
| CodingProcessor.RemovePrependedMentionsIdempotent | src/coding_processor.py:99-104 | For a pattern without look-behind, removing leading mentions again removes nothing |
| CodingProcessor.CreateTweetUrl | src/coding_processor.py:107-111 | `https://twitter.com/-/status/` followed by the id's decimal rendering |
| CodingProcessor.IntToStringSign | src/coding_processor.py:111 | The rendering starts with `-` exactly for a negative id |
| CodingProcessor.IntToStringInjective | src/coding_processor.py:111 | Different integers have different renderings |
| CodingProcessor.CreateTweetUrlInjective | src/coding_processor.py:107-111 | Different tweets have different URLs |
| CodingProcessor.EligibleAsWrittenDiffers | src/coding_processor.py:49-53 | As written, a bare retweet passes the filter and an original tweet with no hashtag cell does not; the corrected filter does the reverse |
| CodingProcessor.EligibleRows | src/coding_processor.py:49-54 | The filter keeps exactly the group's tweets it admits: as written the source's mask, as intended the original tweets with a missing or short hashtag list |
| CodingProcessor.EligibleNeverRetweet | src/coding_processor.py:48-54 | With the corrected filter every sampled row is an original tweet of the group with a missing or short hashtag list |
| CodingProcessor.EligibleDrawable | src/coding_processor.py:49-54 | Every tweet of the group the filter admits sits at some position of the eligible rows, so some draw reaches it |
| CodingProcessor.AppendDistinct | src/coding_processor.py:57-69 | Adding a row with a new id keeps the ids distinct and adds exactly that id |
| CodingProcessor.Consider | src/coding_processor.py:55-69 | A draw from the eligible rows (under either reading) is kept, with its URL, mention-stripped text and empty coding fields, exactly when its URL is accessible and its id is new; otherwise nothing changes |
| CodingProcessor.GetSampleTweets | src/coding_processor.py:41-73 | Under either reading: stops with exactly `size` rows of distinct ids, each from an admitted accessible tweet of the group; it raises `ValueError` exactly when `size` is positive and no row is eligible |
| CodingProcessor.ToCodingRow | src/coding_processor.py:27-31 | `stance`, `confidence` and `value` are `??`; id, URL, company, screen name, tweet and profile texts come from the sampled row |
| CodingProcessor.IncludedCount | src/coding_processor.py:19-20 | Every group is included when no names are given |
| CodingProcessor.SampleCoded | src/coding_processor.py:19-31 | The rows of an included group's sample are coded from tweets of that group admitted by the reading, with all six data columns |
| CodingProcessor.CreateCodingSet | src/coding_processor.py:15-38 | `size` rows per included group, block by block in group order (`Blocks`): each included group's block holds `??`-coded rows with distinct ids and the data columns of admitted tweets of that group, and an excluded group adds nothing. With a positive `size`, an included group with nothing eligible means no coding set; a failure is always `ValueError` from such a group, and a size of 0 or less always succeeds |
| CodingProcessor.BlockOfGroup | src/coding_processor.py:19-36 | Included group `g`'s block is the `size` rows starting after `size` rows per included group before it |
| AutocodingProcessor.TestsetIdsPattern | src/autocoding_processor.py:24-38 | No testset gives `'$^'`; otherwise one alternative per testset id, its decimal rendering |
| AutocodingProcessor.NoTestsetExcludesNothing | src/autocoding_processor.py:31-32 | `'$^'` matches no id |
| AutocodingProcessor.TestsetIdExcluded | src/autocoding_processor.py:38 | Every testset id is excluded |
| AutocodingProcessor.TestsetPrefixExcluded | src/autocoding_processor.py:107 | An id whose rendering extends a testset id's is excluded too, since the match is anchored only at the start |
| AutocodingProcessor.EmptyTestsetExcludesAll | src/autocoding_processor.py:38 | An empty testset joins to the empty pattern, which excludes every id |
| AutocodingProcessor.CompanyRowsAsWritten | src/autocoding_processor.py:104-108 | As written: without a testset the company's rows; with one, every non-testset row of any company |
| AutocodingProcessor.CompanyRows | src/autocoding_processor.py:104-108 | As intended: the company's rows that are not testset ids |
| AutocodingProcessor.CompanyRowsWithoutTestset | src/autocoding_processor.py:104-108 | Without a testset the written and the intended selection agree |
| AutocodingProcessor.TestsetDropsCompanyFilter | src/autocoding_processor.py:105-108 | As written, a row of another company is selected for `adani` once a testset is given |
| AutocodingProcessor.StripSemicolons | src/autocoding_processor.py:112-113 | No `;` is left in either text column, every other character keeps its count, and no other column changes |
| AutocodingProcessor.StripSemicolonsIdempotent | src/autocoding_processor.py:112-113 | Stripping twice is stripping once |
| AutocodingProcessor.StripAll | src/autocoding_processor.py:112-113 | Every row is stripped; order and count are kept |
| AutocodingProcessor.Selection | src/autocoding_processor.py:133-144 | Each stance selection keeps exactly the non-retweets whose own rule alone fired |
| AutocodingProcessor.SelectionsPartition | src/autocoding_processor.py:133-144 | The three selections are pairwise disjoint and hold no retweet |
| AutocodingProcessor.MinSampleSize | src/autocoding_processor.py:146-150 | The smallest of the three sizes: at most each, equal to one |
| AutocodingProcessor.Labelled | src/autocoding_processor.py:45-47 | Every row gets the code, `auto` confidence and the company; nothing else in a row changes |
| AutocodingProcessor.LabelledTwice | src/autocoding_processor.py:45-47 | Relabelling leaves only the second code |
| AutocodingProcessor.PickedFrom | src/autocoding_processor.py:44 | A sample holds only rows of the frame it was drawn from |
| AutocodingProcessor.Frame.constructor | src/autocoding_processor.py:41 | A frame holds the given rows |
| AutocodingProcessor.Frame.AssignCodingColumns | src/autocoding_processor.py:45-47 | The frame's rows are relabelled in place |
| AutocodingProcessor.CreateTweetSample | src/autocoding_processor.py:41-48 | A positive size gives a fresh frame of that many distinct labelled rows (too many raises `ValueError`), the input untouched; otherwise the input frame itself, relabelled |
| AutocodingProcessor.SampledLabels | src/autocoding_processor.py:43-48 | A positive-size sample has that size and holds labelled rows of the frame sampled |
| AutocodingProcessor.SampledTwice | src/autocoding_processor.py:155-157 | Sampling a sample and relabelling yields rows of the first frame under the second code |
| AutocodingProcessor.AutocodeCompanyAsWritten | src/autocoding_processor.py:155-157 | As written: three equal groups, all labelled rows of the for selection; with size zero, the whole for selection three times, coded neutral |
| AutocodingProcessor.ThreeSamplesAsWritten | src/autocoding_processor.py:155-157 | Three positive-size samples, the last two drawn from the first, make up the as-written outcome |
| AutocodingProcessor.AgainstCodedFromForTweets | src/autocoding_processor.py:156 | As written, every row coded `against` is a tweet whose for rule fired and whose against rule did not |
| AutocodingProcessor.AutocodeCompany | src/autocoding_processor.py:133-157 | As intended: each stance's sample is drawn from its own selection, sized by the smallest selection, or each whole selection when that size is zero |
| AutocodingProcessor.ThreeSamples | src/autocoding_processor.py:155-157 | Three samples from their own selections make up the intended outcome |
| AutocodingProcessor.CodedByOwnRule | src/autocoding_processor.py:133-157 | As intended, every row coded with a stance was selected by that stance's rule alone and is not a retweet |
| AutocodingProcessor.OutcomeCoded | src/autocoding_processor.py:155-157 | Three times the sample size rows (or all three selections), each auto-coded for the company |
| AutocodingProcessor.AsWrittenRows | src/autocoding_processor.py:155-157 | As written, one company adds three times the sample size rows, or three copies of the whole for selection when that size is zero, each auto-coded for the company |
| AutocodingProcessor.AutocodedRows | src/autocoding_processor.py:155-165 | As intended, one company adds its quota of rows (three samples, or each whole selection when the size is zero), each coded `auto` for that company with one of the three stances |
| AutocodingProcessor.Autocode | src/autocoding_processor.py:102-165 | Under either reading, the combined frame is cut company by company in list order (`Stretches`): each company's stretch, as long as its quota, is that company's as-written or intended outcome; the total is the summed quota and every row is auto-coded for a company of the list |
| AutocodingProcessor.StretchOfCompany | src/autocoding_processor.py:102-165 | Company `i`'s rows are the stretch between the summed quotas of the companies before it and through it, and they satisfy `Outcomes` for that company |
| AutocodingProcessor.OutcomesApply | src/autocoding_processor.py:133-157 | A stretch satisfying `Outcomes` for a company is that company's step outcome (as written or intended) |
| TokenExtractor.Unique | src/token_extractor.py:52-53 | Each value of the column exactly once, and nothing else |
| TokenExtractor.UniqueExactlyOnce | src/token_extractor.py:52 | Each distinct text appears, and no value is repeated |
| TokenExtractor.UniqueFirstAppearanceOrder | src/token_extractor.py:52-53 | Unique values keep their order of first appearance |
| TokenExtractor.Lines | src/token_extractor.py:52-53 | Each line is its text followed by `\n` |
| TokenExtractor.TokenLines | src/token_extractor.py:50-53 | The tweet block precedes the profile block |
| TokenExtractor.EveryLineEndsWithNewline | src/token_extractor.py:52-53 | Every emitted line ends with `\n` |
| TokenExtractor.TweetLineOnce | src/token_extractor.py:52 | Each distinct tweet text's line occurs exactly once in the tweet block |
| TokenExtractor.SharedTextInBothBlocks | src/token_extractor.py:51-53 | The blocks are deduplicated independently: a text in both columns is written in both blocks |

## Left out

- `EmbeddingVectorizer` (floating-point means over gensim vectors) is not modelled. Nor are the scikit-learn internals behind `get_model`: `CountVectorizer`'s n-gram vocabulary, `FeatureUnion`, `LinearSVC` and `Pipeline`. `GetModel` records only the blocks, their order and their settings. The word block's n-gram range is not recorded, because the library ignores it for a callable analyzer.
- ModelSvm.TargetVectorizer.Fit and ModelSvm.TargetVectorizer.FeatureNames are written as their bodies (the vectorizer itself, `['target']`). There is nothing further to prove about them, so they have no row.
- The `Hillary Clinton` example of `expand_target_words` is not checked on its literal; `ExpandTargetWords` states the general shape.
- `str.lower()` is ASCII case folding. Unicode case mapping is not modelled.
- `html.unescape`, the polyglot language detector and the concrete patterns of `src/settings.py` are parameters. The settings module itself is not part of this model.
- Normalizer.NormalizeRestoresCaptured assumes, without proof, that the shrink and the four abstraction patterns never touch a placeholder copy (`StagesKeep`). The settings patterns are not available.
- Normalizer.NormalizeRestoresCaptured requires, through `StagesKeep`, that both placeholders are lowercase and start with a non-letter (`LowerSafe`). Only under that condition is lowercasing proved to keep them. A placeholder holding an uppercase letter is lowercased at src/dataset_normalizer.py:37, and the replaces at lines 46 and 48 then no longer find it, so the captured tokens are not put back. The model does not cover such settings.
- Normalizer.NormalizeRestoresCaptured also requires that neither placeholder's first character occurs in the cleaned text. By `LowerSafe` that character is not a letter, so this leaves out the tweets that hold that character. Such a character outside a placeholder can make a replace-first land early. `Regex.RestoreCanLeavePlaceholder` shows the related failure on the value side: a captured value holding the marker rebuilds a placeholder.
- Normalizer.NormalizeRestoresCaptured further requires that no URL match holds a mention (`UrlsSpareMentions`). It leaves out texts like `see https://medium.com/@bob/x`, which the source restores correctly. `Normalizer.ProtectRestoreInverse` covers them when the middle stages change nothing.
- Regex.ScanDecomposes and the other scan lemmas treat `findall` as returning whole matches. Patterns with capture groups (where `findall` returns groups) are not modelled, and neither are zero-length matches.
- Reading and writing JSON and CSV files, chunk streaming, `drop_duplicates`, `groupby` file splits and file deletion are I/O and not modelled. Chunks arrive as decoded tweets, appends are `CsvWrite` values, and company groups are given as a sequence.
- `compute_user_series` and `compute_hashtags` are modelled only through their results: the decoded screen name, the cleaned description, and the comma-joined hashtags. The JSON re-parsing of the nested fields is not modelled. Nor is the one in `compute_full_text` (src/dataset_preprocessor.py:130-133): the retweeted status's `full_text` is re-decoded through `pd.read_json(json.dumps(...), typ='series')[0]`, with pandas' type coercion and a `KeyError` when `full_text` is absent. The model takes the decoded string directly (`RawTweet.retweetedStatus`).
- DatasetPreprocessor.Tallies.ComputeCompany tests the author by string equality. The source compiles the lowercased author as a regex and full-matches it against the pattern's screen name. These agree for Twitter screen names, which hold only letters, digits and `_`.
- DatasetPreprocessor.ChunkRecords reports the chunk's `AttributeError` without recording which row raised it.
- CodingProcessor.GetSampleTweets takes the random draws as a finite sequence. When they run out before `size` rows are kept, it ends with `OutOfDraws`, where the source keeps drawing, possibly forever.
- The HTTP accessibility check is a predicate parameter.
- CodingProcessor.GetSampleTweets does not model the network exceptions of `check_tweet_accessibility`. `requests.get(tweet_url, timeout=5)` at src/coding_processor.py:88 raises on a time-out or a connection failure, which aborts `get_sample_tweets` and `create_save_coding_set`. The model's accessibility predicate is total, so its `Failed` outcome covers only the empty-eligible `ValueError`. The same holds for CodingProcessor.CreateCodingSet.
- The `tweet_to_code` column is computed by `RemovePrependedMentions` but not written to the coding set, as in the source.
- Writing an empty coding set is not modelled.
- CodingProcessor.RemovePrependedMentionsIdempotent requires a pattern without look-behind (`Local`). A pattern that looks behind the cut point could match again after the cut.
- AutocodingProcessor.CompanyRowsAsWritten treats `str.contains(company)` as a substring test. Company names are taken to hold no regex metacharacters.
- `PTN_for[company]` and `PTN_against[company]` (lines 117 and 125) are total functions in the model (`Rules.forPattern`, `Rules.againstPattern`), so the `KeyError` of a company missing from those dictionaries is not modelled. `KeyError` is modelled for the row lookups of `get_x` and `load_dataset`. The `PTN_company_usernames` branch (`company_tweets`, lines 118-122) is not modelled: it concatenates two Series with fresh indices and assigns the result back by index.
- AutocodingProcessor.Autocode: rows carry no `auto_for`, `auto_against` or `auto_neutral` column. In the source, `drop` at src/autocoding_processor.py:163 discards its result (no `inplace`), and the samples were cut from the frame holding those columns anyway. So the source writes the three flag columns to the output at lines 165 and 177. The model's `Row` has no such columns, and the flags exist only as the selection tests.
- `DataFrame.sample` is a nondeterministic choice of distinct positions, and the model proves what holds for every choice.
- `pd.read_csv` missing cells are modelled only in the normaliser (`Cell.Missing`) and the coding processor (a missing hashtag cell).
- `main`, the command-line wrappers, logging, `model_build.py`, `model_test.py` (macro-F1, pickling) and the MongoDB modules are not part of this model.

## Findings

| source | as written | input that shows it | evidently intended | confidence | as-written member | corrected member |
|---|---|---|---|---|---|---|
| src/coding_processor.py:49-53 | `(group['retweeted']) & (... isnull()) \| (... < 3)`: `&` binds tighter than `\|`, and `retweeted` selects retweets | a retweet with no hashtag cell is eligible; an original tweet with no hashtag cell (read as NaN) is not | original tweets with an empty or short hashtag list, as the comments say | high (not executed) | CodingProcessor.EligibleAsWrittenDiffers | CodingProcessor.EligibleNeverRetweet |
| src/autocoding_processor.py:155-157 | the against and neutral samples are drawn from `df_for` | any company with non-empty selections: every row coded `against` matched the for rule and not the against rule | each stance sampled from its own selection | high (not executed) | AutocodingProcessor.AgainstCodedFromForTweets | AutocodingProcessor.CodedByOwnRule |
| src/autocoding_processor.py:105-108 | with a testset, `df_companies` is rebuilt from `df_all`, dropping the company filter | a `bhp` row and testset `[5]`: the row is selected for `adani` | the company's rows less the testset ids | high (not executed) | AutocodingProcessor.TestsetDropsCompanyFilter | AutocodingProcessor.CompanyRows |
