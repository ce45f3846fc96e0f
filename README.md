# Semantic product search: a verified model of the deterministic core

The repository is a semantic product search built on the Amazon reviews
sample. It has three parts, and this project models the deterministic code
of each one:

- **The Flask search page** (`semantic_search.py`). A FLAN-T5 model turns the
  query into a JSON filter object. A sentence encoder and a FAISS index find
  the 50 nearest products. PostgreSQL then returns the rows of those products
  that pass the filters.
- **The corpus script** (`compute_embeddings_evaluation_sample.py`). It
  de-duplicates the evaluation sample and builds one text per product. It
  embeds each text and saves the embeddings with the matching `parent_asin`
  column.
- **The offline evaluation** (`evaluate_sample_dataset.py`). It ranks the
  corpus for every judged query, counts the relevant products in the top 20,
  and reports precision@20, recall@20 and their means.

All three share the text normaliser `clean_text`. Each script has its own
copy, and the copies are identical in code; only one comment differs. The module
`TextCleaning` defines it once as its five passes:

1. remove `<[^>]+>` tags;
2. remove `http\S+|www.\S+` URLs;
3. drop non-ASCII characters;
4. lower-case;
5. collapse whitespace with `' '.join(text.split())`.

Because there is one definition, the corpus texts and the query texts are
provably normalised the same way.

Modules:

- `Wrappers`: `Option`, standing for Python's `None`, SQL NULL, a missing key
  and a caught exception.
- `Seqs`: subsequences, order-preserving filters, and the de-duplication
  behind `drop_duplicates` and `unique`.
- `Json`: the decoded JSON values and `dict.get`.
- `Dataset`: a row of the evaluation CSV.
- `TextCleaning`: `clean_text`, `str.split`, `str.join` and `str.strip`.
- `SemanticSearch`: the search request, from the form query to the page's rows.
- `EvaluateSampleDataset`: the evaluation loop and its metrics.
- `ComputeEmbeddings`: `preprocess_text`, de-duplication and the saved corpus.

Library and model calls are function parameters:

- the T5 generation;
- `json.loads` and `ast.literal_eval`;
- the encoder together with the FAISS search;
- the cosine similarity;
- `np.argsort`;
- the server's cast of a text bound to a number.

Each parameter's result is an `Option` wherever the call can raise.

Where the code does not do what its design describes, the model follows the
code:

- `clean_text` is not idempotent. The URL pattern is case-sensitive and runs
  before lower-casing and before non-ASCII characters are dropped. So
  "HTTPx", "WWW.a" and "htétpx" survive one pass but not a second. The three
  `NotIdempotent` lemmas exhibit this.
- Malformed filter output does not mean "no filter". When `extract_filters`
  returns `None`, or decodes to a non-object, the `.get` calls raise inside
  the `try` and the page shows no products at all.
- The results are not re-ranked by similarity. They come back in the
  database's row order, which the model takes to be table order.
- The results are not cut to k. Every row of a retrieved `parent_asin` is
  returned.

## Model

| member | source | states |
|---|---|---|
| Seqs.Filter | evaluate_sample_dataset.py:37 | a boolean-mask selection keeps exactly the elements that pass, in their original order |
| Seqs.FilterCounts | evaluate_sample_dataset.py:37 | a selection keeps each passing element as many times as it occurs, and no failing one |
| Seqs.FilterKeepsAll | semantic_search.py:262-263 | nothing is dropped when every element passes |
| Seqs.SubsequenceMembers | Models/all-MiniLM-L6-V2/Data/compute_embeddings_evaluation_sample.py:47 | every element of an order-preserving selection comes from its input |
| Seqs.SubsequenceLength | Models/all-MiniLM-L6-V2/Data/compute_embeddings_evaluation_sample.py:47 | an order-preserving selection is never longer than its input |
| Seqs.SubsequenceDropHead | semantic_search.py:86-87 | dropping the first element of a subsequence leaves a subsequence |
| Seqs.SubsequenceCons | semantic_search.py:86-87 | a subsequence stays one when an element is put in front |
| Seqs.SubsequenceOfSuffix | semantic_search.py:86-87 | a subsequence of a suffix is a subsequence of the whole |
| Seqs.MapAll | Models/all-MiniLM-L6-V2/Data/compute_embeddings_evaluation_sample.py:51 | applying a function row by row gives one result per row, in order, and fails exactly when some row fails |
| Seqs.DistinctFrom | Models/all-MiniLM-L6-V2/Data/compute_embeddings_evaluation_sample.py:47 | keeps one element per key not yet seen; the kept keys are exactly the input's keys minus those seen |
| Seqs.DistinctBy | Models/all-MiniLM-L6-V2/Data/compute_embeddings_evaluation_sample.py:47 | keep-first de-duplication: an order-preserving selection with distinct keys that covers every input key |
| Seqs.DistinctFromFirsts | Models/all-MiniLM-L6-V2/Data/compute_embeddings_evaluation_sample.py:47 | after a prefix has been seen, the scan keeps exactly the later positions whose key appears there for the first time |
| Seqs.DistinctByKeepsFirsts | Models/all-MiniLM-L6-V2/Data/compute_embeddings_evaluation_sample.py:47 | `drop_duplicates(keep='first')` keeps exactly the positions where a key first appears, in input order |
| Seqs.Map | evaluate_sample_dataset.py:38 | one result per element, in order |
| Seqs.FirstsOfColumn | evaluate_sample_dataset.py:38 | taking the key column of the first rows of each key equals keeping the first occurrence of each value in the key column |
| Seqs.KeysOfCons | Models/all-MiniLM-L6-V2/Data/compute_embeddings_evaluation_sample.py:47 | the keys of a list are its head's key plus the keys of its tail |
| Json.Get | semantic_search.py:242-248 | `dict.get` is `None` exactly when no member has the key, and otherwise is a value stored under that key |
| TextCleaning.IndexOf | semantic_search.py:86 | the position of the first `>` after a `<`, or the end of the text when there is none |
| TextCleaning.NonSpaceRun | semantic_search.py:87 | a greedy `\S*` takes the longest prefix without whitespace |
| TextCleaning.MatchLength | semantic_search.py:86-87 | an anchored tag match runs from `<` to the first `>` and needs a non-empty body; an anchored URL match is `http`, or `www` and one character other than a newline, then at least one non-space, running up to the next whitespace; a zero result means no match |
| TextCleaning.RemoveAll | semantic_search.py:86-87 | `re.sub` with an empty replacement only deletes characters: the result is a subsequence of the input, never longer |
| TextCleaning.RemoveAllNoMatch | semantic_search.py:86-87 | where the pattern matches nowhere, `re.sub` changes nothing |
| TextCleaning.DropNonAscii | semantic_search.py:88 | the ASCII round trip keeps only characters below 128, in order, and changes ASCII text not at all |
| TextCleaning.DropNonAsciiCounts | semantic_search.py:88 | every ASCII character is kept as often as it occurs, and no other character is kept |
| TextCleaning.Lower | semantic_search.py:89 | lower-casing keeps the length, leaves no upper-case letter, changes nothing else, and gives lower-case ASCII from ASCII |
| TextCleaning.LowerAt | semantic_search.py:89 | every character is lowered on its own |
| TextCleaning.LowerUnchanged | semantic_search.py:89 | text without upper-case letters is unchanged |
| TextCleaning.Split | semantic_search.py:90 | `str.split()` yields non-empty words without whitespace, and lower-case ASCII text gives lower-case ASCII words |
| TextCleaning.Join | semantic_search.py:90 | joining lower-case ASCII words gives lower-case ASCII text |
| TextCleaning.JoinWordsCollapsed | semantic_search.py:90 | `' '.join` of words has single spaces only and no whitespace at either end |
| TextCleaning.SplitJoin | semantic_search.py:90 | splitting joined words gives the words back |
| TextCleaning.JoinSplit | semantic_search.py:90 | on collapsed text, joining its words rebuilds it |
| TextCleaning.CollapsedAfterSpace | semantic_search.py:90 | after a space, collapsed text continues with a non-empty collapsed tail |
| TextCleaning.JoinSplitStep | semantic_search.py:90 | one word of the `JoinSplit` round trip |
| TextCleaning.Collapse | semantic_search.py:90 | `' '.join(text.split())`: the words of the text joined by single spaces |
| TextCleaning.CollapseLength | semantic_search.py:90 | collapsing never lengthens the text, and shortens text that starts with whitespace |
| TextCleaning.CollapseKeepsWords | semantic_search.py:90 | collapsing keeps the word sequence and is idempotent |
| TextCleaning.SpaceRunEnd | semantic_search.py:98 | the leading whitespace run ends at the first character that is not whitespace |
| TextCleaning.SpaceRunStart | semantic_search.py:98 | the trailing whitespace run starts just after the last character that is not whitespace |
| TextCleaning.Strip | semantic_search.py:98 | `str.strip()` gives a slice of its input, with only whitespace cut on either side and no whitespace at either end |
| TextCleaning.TrimmedSliceOfRuns | semantic_search.py:98 | cutting the leading and the trailing whitespace runs leaves a slice with only whitespace around it |
| TextCleaning.StripUnchanged | semantic_search.py:98 | text without whitespace at either end is unchanged |
| TextCleaning.StripAllSpace | Models/all-MiniLM-L6-V2/Data/compute_embeddings_evaluation_sample.py:33 | all-whitespace text strips to "" |
| TextCleaning.StripIdempotent | semantic_search.py:98 | stripping twice is stripping once |
| TextCleaning.SliceKeepsLowerAscii | Models/all-MiniLM-L6-V2/Data/compute_embeddings_evaluation_sample.py:33 | a slice of lower-case ASCII text is lower-case ASCII |
| TextCleaning.StripKeepsLowerAscii | Models/all-MiniLM-L6-V2/Data/compute_embeddings_evaluation_sample.py:33 | stripping lower-case ASCII text keeps it lower-case ASCII |
| TextCleaning.NonSpaceAfterPrefix | Models/all-MiniLM-L6-V2/Data/compute_embeddings_evaluation_sample.py:33 | a character that is not whitespace lies past an all-whitespace prefix |
| TextCleaning.NonSpaceBeforeSuffix | Models/all-MiniLM-L6-V2/Data/compute_embeddings_evaluation_sample.py:33 | a character that is not whitespace lies before an all-whitespace suffix |
| TextCleaning.CleanText | semantic_search.py:84-91 | the output is ASCII with no upper-case letter; it has no whitespace at the ends, no whitespace but ' ' and no double space; and it is never longer than the input |
| TextCleaning.CleanTextFixpoint | semantic_search.py:84-91 | text already in cleaned form without markup is left unchanged |
| TextCleaning.CleanTextIdempotentWhenNoMarkupLeft | semantic_search.py:84-91 | cleaning twice equals cleaning once when the first result holds no tag or URL match |
| TextCleaning.CleanTextOfTag | semantic_search.py:86 | text that is one tag from end to end cleans to "" |
| TextCleaning.CleanTextWithoutMarkup | semantic_search.py:88-90 | without tags or URLs, cleaning is the last three passes |
| TextCleaning.CleanTextOfUrl | semantic_search.py:87 | a single URL match cleans to "" |
| TextCleaning.NoTagWithoutAngle | semantic_search.py:86 | text without '<' holds no tag |
| TextCleaning.PlainIsCollapsed | semantic_search.py:90 | lower-case letters and dots without whitespace are already collapsed |
| TextCleaning.CleanTextOfPlain | semantic_search.py:84-91 | text without markup whose last three passes give plain text cleans to that text |
| TextCleaning.UpperCaseUrlSteps | semantic_search.py:86-87 | "HTTPx" and "WWW.a" match neither pattern, because the URL pattern is case-sensitive |
| TextCleaning.UpperCaseUrlLowered | semantic_search.py:88-89 | "HTTPx" is lowered to "httpx" and "WWW.a" to "www.a" |
| TextCleaning.AccentedSteps | semantic_search.py:86-87 | "htétpx" matches neither pattern before the accent is dropped |
| TextCleaning.AccentedDropped | semantic_search.py:88 | dropping the accent gives "httpx" |
| TextCleaning.AccentedLowered | semantic_search.py:88-89 | the ASCII and lower-case passes turn "htétpx" into "httpx" |
| TextCleaning.CleanLowerUrl | semantic_search.py:87 | a lower-case URL cleans to "" |
| TextCleaning.UpperHttpNotIdempotent | semantic_search.py:84-91 | "HTTPx" cleans to "httpx", which cleans to "": cleaning is not idempotent |
| TextCleaning.UpperWwwNotIdempotent | semantic_search.py:84-91 | "WWW.a" cleans to "www.a", which cleans to "" |
| TextCleaning.AccentedNotIdempotent | semantic_search.py:84-91 | "htétpx" cleans to "httpx", which cleans to "" |
| SemanticSearch.RepairBraces | semantic_search.py:110-111 | braces are added only when the text neither starts with '{' nor ends with '}', and then around the unchanged text; afterwards it starts with '{' or ends with '}' |
| SemanticSearch.RepairBracesIdempotent | semantic_search.py:110-111 | repairing twice is repairing once |
| SemanticSearch.ExtractFilters | semantic_search.py:109-119 | text that starts with '{' or ends with '}' is decoded as it is; any other text is decoded with braces around it |
| SemanticSearch.RequestFilters | semantic_search.py:201-206 | a failure of the model gives `{}`; the filters are `None` exactly when the model's output, braces repaired, does not decode; otherwise they are what `extract_filters` returns for the stripped query |
| SemanticSearch.QueryStrippedOnce | semantic_search.py:98 | stripping the already stripped query again changes nothing |
| SemanticSearch.PyIndex | semantic_search.py:222 | Python indexing, where a negative ordinal counts from the end; the result is an element of the list |
| SemanticSearch.TopParentAsins | semantic_search.py:222 | defined exactly when every ordinal is a valid Python index, including negative ones; then it has the ordinals' length and order, and element i is `parent_asins[indices[0][i]]` |
| SemanticSearch.MissingNeighbourIsLastAsin | semantic_search.py:222 | FAISS's -1 for a missing neighbour selects the last `parent_asin` |
| SemanticSearch.NumericParam | semantic_search.py:242-247 | a missing key or JSON null binds NULL; a JSON integer or float binds as its value; a string binds as the server reads it; binding fails exactly for a bool, list or object, or a string the server cannot read as a number |
| SemanticSearch.TextParam | semantic_search.py:248 | a missing key or null binds NULL; a JSON string binds as itself; binding fails exactly for any other value |
| SemanticSearch.BindParams | semantic_search.py:237-250 | parameters exist exactly when the filters are a JSON object each of whose seven keys binds; then each parameter is what its key's `.get` value binds to |
| SemanticSearch.BindLookupsMeaning | semantic_search.py:242-248 | the seven lookups bind exactly when each of them does, and each parameter is what its lookup binds |
| SemanticSearch.Selected | semantic_search.py:228-235 | the WHERE clause: the id is in the tuple; each numeric bound is NULL or met by a non-NULL column; the subcategory bound is NULL or equal |
| SemanticSearch.FetchProducts | semantic_search.py:225-255 | the rows passing the WHERE clause, each as often as it occurs in the table and in table order; `[]` when binding fails or no id was retrieved |
| SemanticSearch.CopyRows | semantic_search.py:262-263 | the append loop yields exactly the fetched rows, in order |
| SemanticSearch.Search | semantic_search.py:188-273 | a GET renders an empty page. A POST fails exactly when an ordinal is out of range, and otherwise renders the fetched rows together with the filters of the stripped query |
| SemanticSearch.UndecodableFiltersGiveNoProducts | semantic_search.py:114-119 | undecodable model output leads to no products, not to unfiltered ones |
| SemanticSearch.NonObjectFiltersGiveNoProducts | semantic_search.py:242-255 | decoded output that is not an object leads to no products, for any decoder; `json.loads` on repaired text never yields such a value |
| SemanticSearch.GeneratorFailureBindsNothing | semantic_search.py:202-206 | when the model fails, the fallback `{}` binds every parameter to NULL |
| SemanticSearch.EmptyObjectUnbounded | semantic_search.py:242-248 | `{}` binds every parameter to NULL |
| SemanticSearch.UnboundedSelectsByIdOnly | semantic_search.py:228-235 | with every parameter NULL, the WHERE clause is id membership alone |
| SemanticSearch.EmptyFiltersSelectById | semantic_search.py:228-255 | with `filters == {}`, the results are the table rows of the retrieved ids, each as often as in the table, in table order |
| SemanticSearch.GetAppend | semantic_search.py:242-248 | adding a new key changes `.get` for that key only |
| SemanticSearch.GetAppendNull | semantic_search.py:242-248 | a key added with value null binds as a missing key |
| SemanticSearch.NullValueSameAsAbsent | semantic_search.py:242-248 | a filter key whose value is null gives the same parameters as leaving the key out |
| SemanticSearch.SameLookupsSameParams | semantic_search.py:242-248 | lookups that bind every key alike give the same parameters |
| SemanticSearch.UnreadablePriceGivesNoProducts | semantic_search.py:229-255 | a price bound that the server cannot read as a number fails the statement, and the page shows nothing |
| SemanticSearch.NullPriceFailsPriceBound | semantic_search.py:229-230 | a row with a NULL price fails any price bound |
| SemanticSearch.ResultsFollowTableOrder | semantic_search.py:225-263 | results are not re-ranked: with ids retrieved as [b, a], a's row still comes first |
| SemanticSearch.ResultsNotTruncated | semantic_search.py:225-263 | results are not cut to the neighbour count: every row of a retrieved id is returned |
| SemanticSearch.NumericFilterApplied | semantic_search.py:229-234 | a numeric filter that binds is applied: every returned row has a non-NULL value in its column, at least the bound for a `_min` key and at most it for a `_max` key |
| SemanticSearch.NumberFilterApplied | semantic_search.py:229-234 | a JSON integer or float under a price, review-count or rating key is applied as it stands to `price`, `rating_number` or `average_rating` |
| SemanticSearch.SelectedMeetsBound | semantic_search.py:229-234 | a row that passes the WHERE clause meets each non-NULL numeric bound |
| SemanticSearch.SubcategoryFilterApplied | semantic_search.py:235 | a string under `subcategory` is applied: every returned row has exactly that subcategory |
| EvaluateSampleDataset.JudgedRows | evaluate_sample_dataset.py:37 | the rows whose query is not "irrelevant", in file order |
| EvaluateSampleDataset.JudgedRowsCounts | evaluate_sample_dataset.py:37 | each judged row is kept as often as it occurs, and no sentinel row is kept |
| EvaluateSampleDataset.Queries | evaluate_sample_dataset.py:38 | each non-sentinel query exactly once, and nothing else |
| EvaluateSampleDataset.QueriesInFirstAppearanceOrder | evaluate_sample_dataset.py:38 | `unique()` lists the queries in the order of their first appearance among the judged rows |
| EvaluateSampleDataset.ColumnMembers | evaluate_sample_dataset.py:38 | the query column of one-row-per-query rows holds each query once |
| EvaluateSampleDataset.SentinelExcluded | evaluate_sample_dataset.py:37-38 | "irrelevant" is never a query |
| EvaluateSampleDataset.RelevantTo | evaluate_sample_dataset.py:47 | the `parent_asin` of exactly the rows judged for the query |
| EvaluateSampleDataset.QueryToRelevant | evaluate_sample_dataset.py:47 | maps exactly the queries, each to its relevant set |
| EvaluateSampleDataset.QueryToRelevantNonEmpty | evaluate_sample_dataset.py:47 | no entry of `query_to_relevant` is the empty set |
| EvaluateSampleDataset.RelevantNeverEmpty | evaluate_sample_dataset.py:67-80 | every query has at least one judged product, so the recall divisor is never zero |
| EvaluateSampleDataset.InsertByScore | evaluate_sample_dataset.py:63 | insertion adds exactly the new index |
| EvaluateSampleDataset.HeadScoresHighest | evaluate_sample_dataset.py:63 | the head of a score-sorted list scores at least as high as every other element |
| EvaluateSampleDataset.InsertSorted | evaluate_sample_dataset.py:63 | insertion keeps a list sorted by score |
| EvaluateSampleDataset.InsertDistinct | evaluate_sample_dataset.py:63 | inserting a new index keeps the indices distinct |
| EvaluateSampleDataset.CutScoresLower | evaluate_sample_dataset.py:63 | an index past the cut scores no higher than any index before it |
| EvaluateSampleDataset.PrefixSortedDistinct | evaluate_sample_dataset.py:63 | a prefix of a sorted, distinct index list is sorted and distinct |
| EvaluateSampleDataset.SortedIndices | evaluate_sample_dataset.py:63 | a reversed argsort holds every index exactly once |
| EvaluateSampleDataset.SortedIndicesSortedDistinct | evaluate_sample_dataset.py:63 | a reversed argsort is in non-increasing score order, with no index twice |
| EvaluateSampleDataset.TopKCorrect | evaluate_sample_dataset.py:63 | the first min(k, n) of the sorted indices are a top-k selection |
| EvaluateSampleDataset.TopK | evaluate_sample_dataset.py:63 | yields min(k, n) distinct indices in non-increasing score order, and no index left out scores above one selected |
| EvaluateSampleDataset.AsinsAt | evaluate_sample_dataset.py:64 | `iloc` maps each selected index to its `parent_asin`, in rank order, so every retrieved id is a corpus id |
| EvaluateSampleDataset.Scores | evaluate_sample_dataset.py:59-60 | one similarity per corpus product |
| EvaluateSampleDataset.Retrieved | evaluate_sample_dataset.py:60-64 | exactly min(20, n) products are retrieved |
| EvaluateSampleDataset.CountIn | evaluate_sample_dataset.py:70-75 | the hit count is at most the number of retrieved products |
| EvaluateSampleDataset.CountInIsHitRanks | evaluate_sample_dataset.py:70-75 | the hit count is the number of ranks whose product is relevant |
| EvaluateSampleDataset.ElemsOf | evaluate_sample_dataset.py:64 | the set of retrieved products |
| EvaluateSampleDataset.CountInDistinct | evaluate_sample_dataset.py:70-75 | with no product retrieved twice, the hit count is the number of relevant products retrieved |
| EvaluateSampleDataset.CountRelevant | evaluate_sample_dataset.py:70-75 | the counting loop computes the hit count |
| EvaluateSampleDataset.Precision | evaluate_sample_dataset.py:79 | precision@20 times 20 gives back the hit count |
| EvaluateSampleDataset.Recall | evaluate_sample_dataset.py:80 | recall times the number of relevant products gives back the hit count |
| EvaluateSampleDataset.PrecisionInUnitRange | evaluate_sample_dataset.py:79 | precision@k lies in [0, 1] |
| EvaluateSampleDataset.RecallAtMostOneWhenDistinct | evaluate_sample_dataset.py:80 | recall lies in [0, 1] when no product is retrieved twice |
| EvaluateSampleDataset.RecallBounds | evaluate_sample_dataset.py:80 | recall lies between 0 and the hit count, since the divisor is at least 1 |
| EvaluateSampleDataset.RecallOneWhenAllRetrieved | evaluate_sample_dataset.py:80 | recall is exactly 1 when every relevant product is retrieved once |
| EvaluateSampleDataset.RecallCanExceedOne | evaluate_sample_dataset.py:80 | a product retrieved twice counts twice, so recall can reach 2 |
| EvaluateSampleDataset.Mean | evaluate_sample_dataset.py:93-94 | the mean is undefined exactly for an empty list |
| EvaluateSampleDataset.SumBounds | evaluate_sample_dataset.py:93-94 | n values in [lo, hi] sum to between n·lo and n·hi |
| EvaluateSampleDataset.MeanBounds | evaluate_sample_dataset.py:93-94 | the mean of values in [lo, hi] lies in [lo, hi] |
| EvaluateSampleDataset.QueryPrecision | evaluate_sample_dataset.py:79 | one query's precision@20 lies in [0, 1] |
| EvaluateSampleDataset.QueryRecall | evaluate_sample_dataset.py:55-80 | the recall of one query: its hits among the top 20 over the size of its relevant set |
| EvaluateSampleDataset.QueryRecallInRange | evaluate_sample_dataset.py:80 | one query's recall@20 lies in [0, 20] |
| EvaluateSampleDataset.EvaluateQuery | evaluate_sample_dataset.py:59-80 | one pass of the loop body computes that query's precision and recall |
| EvaluateSampleDataset.PrecisionsFor | evaluate_sample_dataset.py:83 | one precision per query |
| EvaluateSampleDataset.PrecisionsInUnitRange | evaluate_sample_dataset.py:79-83 | every precision in the list lies in [0, 1] |
| EvaluateSampleDataset.RecallsFor | evaluate_sample_dataset.py:84 | one recall per query |
| EvaluateSampleDataset.RecallsInRange | evaluate_sample_dataset.py:80-84 | every recall in the list lies in [0, 20] |
| EvaluateSampleDataset.PrecisionsStep | evaluate_sample_dataset.py:83 | visiting one more query appends its precision |
| EvaluateSampleDataset.RecallsStep | evaluate_sample_dataset.py:84 | visiting one more query appends its recall |
| EvaluateSampleDataset.EvaluateQueries | evaluate_sample_dataset.py:55-84 | the loop appends exactly one precision and one recall per query, in query order |
| EvaluateSampleDataset.Evaluate | evaluate_sample_dataset.py:37-94 | the lists hold one entry per unique judged query; the reported values are their means; the mean precision lies in [0, 1] and the mean recall in [0, 20] |
| EvaluateSampleDataset.MeansInRange | evaluate_sample_dataset.py:93-94 | the mean precision lies in [0, 1] and the mean recall in [0, 20] |
| ComputeEmbeddings.JoinLiteral | Models/all-MiniLM-L6-V2/Data/compute_embeddings_evaluation_sample.py:25-26 | `' '.join` fails exactly on an iterable of non-strings; a string literal is joined character by character: its characters at the even positions and single spaces between them |
| ComputeEmbeddings.JoinSingles | Models/all-MiniLM-L6-V2/Data/compute_embeddings_evaluation_sample.py:25-26 | joining single characters gives each character at an even position with a space between every two |
| ComputeEmbeddings.ListPart | Models/all-MiniLM-L6-V2/Data/compute_embeddings_evaluation_sample.py:25-26 | an empty cell contributes ""; the part fails exactly when `literal_eval` or the join raises; a list of strings is joined by single spaces and then cleaned once, and a string is spaced per character and then cleaned; the result is lower-case ASCII and collapsed |
| ComputeEmbeddings.ReplaceQuotes | Models/all-MiniLM-L6-V2/Data/compute_embeddings_evaluation_sample.py:29 | same length, no `'` left, every `'` became `"` and every other character is unchanged |
| ComputeEmbeddings.ReplaceQuotesComplete | Models/all-MiniLM-L6-V2/Data/compute_embeddings_evaluation_sample.py:29 | replacing again changes nothing, and the double quotes afterwards number the double and single quotes before |
| ComputeEmbeddings.PyStr | Models/all-MiniLM-L6-V2/Data/compute_embeddings_evaluation_sample.py:30 | `str(v)` in the f-string: a string as itself, null as "None", booleans as "True" and "False", any other value as Python renders it |
| ComputeEmbeddings.DetailPairs | Models/all-MiniLM-L6-V2/Data/compute_embeddings_evaluation_sample.py:30 | one string per member, in insertion order, made of the key, then ": ", then `str()` of the value |
| ComputeEmbeddings.IntAndFloatRenderApart | Models/all-MiniLM-L6-V2/Data/compute_embeddings_evaluation_sample.py:29-30 | an integer and an integral float stay apart, so `{'w': 1}` can give "w: 1" and `{'w': 1.0}` "w: 1.0" |
| ComputeEmbeddings.DetailsPart | Models/all-MiniLM-L6-V2/Data/compute_embeddings_evaluation_sample.py:27-32 | a decode failure contributes ""; the part fails exactly when the decoded value is not an object; an object becomes `clean_text` of its `"k: v"` pairs joined by spaces, in insertion order |
| ComputeEmbeddings.TitlePart | Models/all-MiniLM-L6-V2/Data/compute_embeddings_evaluation_sample.py:24 | an empty title contributes "", and a present one is cleaned text |
| ComputeEmbeddings.CombineParts | Models/all-MiniLM-L6-V2/Data/compute_embeddings_evaluation_sample.py:33 | the four parts joined by single spaces, with only the whitespace at either end cut and nothing collapsed in between |
| ComputeEmbeddings.PreprocessText | Models/all-MiniLM-L6-V2/Data/compute_embeddings_evaluation_sample.py:23-34 | fails exactly when a list part or the details part fails; otherwise the text is the title, features, description and details parts combined, lower-case ASCII with no whitespace at either end |
| ComputeEmbeddings.JoinedPartsLowerAscii | Models/all-MiniLM-L6-V2/Data/compute_embeddings_evaluation_sample.py:33 | joining lower-case ASCII parts with spaces is lower-case ASCII |
| ComputeEmbeddings.EmptyRowGivesEmptyText | Models/all-MiniLM-L6-V2/Data/compute_embeddings_evaluation_sample.py:24-34 | a row whose four text cells are empty gives "" |
| ComputeEmbeddings.EmptyPartsCombine | Models/all-MiniLM-L6-V2/Data/compute_embeddings_evaluation_sample.py:33 | four empty parts combine to "" |
| ComputeEmbeddings.InteriorSpacesKept | Models/all-MiniLM-L6-V2/Data/compute_embeddings_evaluation_sample.py:33 | empty middle parts leave three spaces in the combined text, which is not collapsed again |
| ComputeEmbeddings.MissingLeadingPartsStripped | Models/all-MiniLM-L6-V2/Data/compute_embeddings_evaluation_sample.py:33 | empty leading parts leave no leading space |
| ComputeEmbeddings.CollapsedEndsNotSpace | Models/all-MiniLM-L6-V2/Data/compute_embeddings_evaluation_sample.py:33 | non-empty cleaned text neither starts nor ends with whitespace |
| ComputeEmbeddings.StripOfTrimmedSlice | Models/all-MiniLM-L6-V2/Data/compute_embeddings_evaluation_sample.py:33 | the strip result is the unique trimmed slice without whitespace at its ends |
| ComputeEmbeddings.JoinedItemsAreOneTag | Models/all-MiniLM-L6-V2/Data/compute_embeddings_evaluation_sample.py:25 | the items "<b" and "c>" join into one tag |
| ComputeEmbeddings.ShortItemIsClean | Models/all-MiniLM-L6-V2/Data/compute_embeddings_evaluation_sample.py:25 | "<b" and "c>" are already clean on their own |
| ComputeEmbeddings.ItemsCleanedAsWhole | Models/all-MiniLM-L6-V2/Data/compute_embeddings_evaluation_sample.py:25-26 | list items are joined before cleaning, so a tag spanning two items is removed; cleaning each item first would keep it |
| ComputeEmbeddings.ProductKey | Models/all-MiniLM-L6-V2/Data/compute_embeddings_evaluation_sample.py:47 | the five columns of `subset=[...]` that decide whether two rows are duplicates |
| ComputeEmbeddings.UniqueProducts | Models/all-MiniLM-L6-V2/Data/compute_embeddings_evaluation_sample.py:47 | keeps the first row of each five-column key and only it, in file order; no two kept rows share a key, and every key is kept |
| ComputeEmbeddings.RepeatedRowKeptFirst | Models/all-MiniLM-L6-V2/Data/compute_embeddings_evaluation_sample.py:47 | a row that reappears after another is kept at its first position only |
| ComputeEmbeddings.SameAsinKeptTwice | Models/all-MiniLM-L6-V2/Data/compute_embeddings_evaluation_sample.py:47 | two rows of one `parent_asin` that differ in the title are both kept |
| ComputeEmbeddings.PreprocessAll | Models/all-MiniLM-L6-V2/Data/compute_embeddings_evaluation_sample.py:51 | one product text per row, in row order, or failure exactly when some row fails |
| ComputeEmbeddings.BuildCorpus | Models/all-MiniLM-L6-V2/Data/compute_embeddings_evaluation_sample.py:47-70 | the saved embeddings and the saved `parent_asin` column have one entry per de-duplicated row, in the same order, and entry i is row i's text embedded; the script fails exactly when some kept row fails to preprocess |

## Left out

- The language models and the index are parameters of the model: the FLAN-T5
  tokenizer, generation and decoding; the SentenceTransformer encoder;
  `faiss.read_index`, `normalize_L2` and `index.search`. Their outputs are
  inputs here.
- Cosine similarity and the embedding values are not modelled. They are
  floating point. Similarities are abstract integer scores, and
  precision, recall and means are exact reals.
- The Flask app, the HTML template and `render_template_string` are left
  out. They are UI. The page is the list of rows and the filters it is
  rendered with.
- The PostgreSQL connection, `get_db_connection` and cursor handling are
  I/O and are left out. When the connection fails, the handler fails outside
  any `try`; the model does not cover that case.
- The database's row order is taken to be table order. The statement has no
  `ORDER BY`, so PostgreSQL promises no order at all.
- psycopg2's adaptation of JSON values is simplified. A number binds as
  itself and a string is cast by the server (the `castNumeric` parameter). A
  boolean, list or object bound makes the statement fail.
- SemanticSearch.TextParam: an empty or all-null list under `subcategory`
  is taken to fail the statement. psycopg2 sends a non-empty list as
  `ARRAY[...]`, which is a type error against any column, and an empty or
  all-null list as the text '{}' or '{NULL,...}', which fails the numeric
  cast under a numeric key. Under `subcategory` that text is a valid string,
  so the statement runs and returns the rows whose subcategory is literally
  that text, where the model returns no rows.
- JSON `NaN` and `Infinity`, which `json.loads` accepts, are not modelled:
  `JFloat` holds a real.
- SemanticSearch.NumericParam: the cast ignores the column's type. A
  fractional bound such as 4.5 on the integer column `rating_number` is
  compared as a real, although PostgreSQL rejects the text '4.5' there.
- The timing code, `step_times`, the step summary and every `print` are left
  out. They are wall-clock time and output formatting.
- CSV and NumPy reads and writes, and `os.makedirs`, are left out. They are
  I/O. The corpus is handed to the evaluation as the two parallel sequences
  the script saves.
- The internals of `ast.literal_eval` and `json.loads` are left out. They
  are library parsers, represented as functions that return an `Option`.
- `str()` of numbers, lists and dicts in the details pairs is left out. It is
  Python's repr formatting, and the parameter `reprOther` stands for it. An
  integer and a float are distinct JSON values (`JInt`, `JFloat`), so
  `reprOther` can render `1` and `1.0` apart as Python does.
- A JSON object with a repeated key is not modelled. `json.loads` keeps
  the last value; `Json.Get` assumes each key occurs once, as in a decoded
  `dict`.
- Non-string cells are not modelled: `clean_text`'s `str(text)` is taken on
  text only. Empty CSV cells are `None`, which is what pandas' NaN means here.
  `Row.query` is text, so an empty query cell in the evaluation data is not
  modelled. pandas would keep it through the mask and list it in `unique()`,
  while `groupby` drops it, so the later `query_to_relevant` lookup would
  raise `KeyError`.
- The order among equal scores in `np.argsort` is not modelled. The
  evaluation takes any top-k selection the `argsortTop` parameter gives;
  `TopK` is one reference selection, with ties in index order.
- EvaluateSampleDataset.Evaluate: bounds the mean recall by 20, not by 1,
  because recall can exceed 1 when the corpus keeps the same `parent_asin`
  twice (`RecallCanExceedOne`).
- `np.mean` of an empty list is NaN with a warning; `Mean` returns `None`
  for it instead.
