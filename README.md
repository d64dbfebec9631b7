# Reservation segmentation: a verified model

This project models the core of a hotel-reservation segmentation system. It has two parts:

- **The clustering pipeline.** It cleans the raw reservation table, label-encodes five categorical columns and pre-trains a TabNet network to embed each reservation. It then picks between 4 and 5 K-means clusters by silhouette score. Finally it assigns a cluster to every reservation and profiles each cluster (means of the numeric columns, modes of the categorical ones).
- **The chat endpoint.** `process_message` sends the user's text to a language model and normalises the model's JSON reply. It validates the reply's eleven reservation fields, asks a scoring endpoint for the cluster, and composes the response sent to the web client. That response carries an explanation cleaned of markdown, and descriptive names looked up in catalogue dictionaries.

The Dafny modules follow the source files:

| module | file | models |
|---|---|---|
| `Frames` | frames.dfy | a pandas DataFrame as column names plus rows (`map<string, Value>`), column selection with `KeyError` |
| `Quantiles` | quantiles.dfy | `Series.quantile` with linear interpolation over the non-null values |
| `Cleaning` | cleaning.dfy | `clean_reservations` |
| `Ordering`, `LabelEncoding` | ordering.dfy, encoding.dfy | scikit-learn's `LabelEncoder`: sorted distinct classes, `transform`, and `inverse_transform` as a partner |
| `Features` | features.dfy | the model columns, `fillna(-1)` and the cast to a float matrix |
| `Training` | training.dfy | `train_cluster`: encoding loop, table preparation, k-selection loop, the returned bundle |
| `Assignment` | assignment.dfy | `assign_clusters` |
| `Stats`, `Profiling` | stats.dfy, profiling.dfy | `profile_segments`: group by `cluster`, mean, mode, `round(2)` |
| `PyStr`, `PyJson` | pystr.dfy, pyjson.dfy | the Python string primitives and JSON values (with `str()` and truthiness) the handler uses |
| `DescriptiveLookup` | descriptive.dfy | `get_descriptive_value` |
| `ReplyText` | reply.dfy | `clean_json_response`, the required-field check, the explanation cleanup |
| `Routing` | routing.dfy | the response `process_message` returns for each outcome |
| `Seqs`, `Wrappers` | seqs.dfy, wrappers.dfy | boolean-mask filtering as an order-preserving subsequence; `Option`/`Result` |

**Python exceptions.** A raised exception is a `Failure` of the `Raised` datatype (`KeyError`, `TypeError`, `ValueError`, `AttributeError`, `IndexError`), carrying the column that caused it.

**Opaque and external operations become parameters.** The model does not look inside:

- TabNet pre-training and embedding: `pretrain`, `embed`;
- K-means fitting and prediction: `fitKMeans`, `predict`;
- the silhouette score: `silhouette`;
- `json.loads`: `loads`;
- the numeric conversions of the reply fields: `convert`;
- the scoring endpoint's reply and the explanation request's reply.

The theorems hold for every choice of these.

## Model

| member | source | states |
|---|---|---|
| Cleaning.DropNegativeFare | pipeline/src/reservations_pipeline/pipelines/clustering/nodes.py:50 | keeps exactly the rows whose fare is present and non-negative, every copy of each, in their original order |
| Cleaning.KeepPositive | pipeline/src/reservations_pipeline/pipelines/clustering/nodes.py:53-55 | keeps exactly the rows whose column is present and strictly positive, every copy of each, in their original order |
| Cleaning.KeepWithin | pipeline/src/reservations_pipeline/pipelines/clustering/nodes.py:62 | keeps exactly the rows whose value lies in `[low, high]` (a missing value or bound compares false), every copy of each, order kept |
| Cleaning.BandStep | pipeline/src/reservations_pipeline/pipelines/clustering/nodes.py:59-62 | keeps exactly the rows within the 0.0005/0.9995 quantile band computed on the rows entering the step, every copy of each, order kept |
| Cleaning.CleanReservations | pipeline/src/reservations_pipeline/pipelines/clustering/nodes.py:11-65 | the imperative rebinding of the table equals `Clean`: `KeyError` with the missing columns, otherwise projection, fare filter, three positivity filters, three bands |
| Cleaning.TrimOutliers | pipeline/src/reservations_pipeline/pipelines/clustering/nodes.py:57-62 | the loop over the three band columns equals applying the band steps in order, each on the previous survivors |
| Cleaning.CleanIsSubsequence | pipeline/src/reservations_pipeline/pipelines/clustering/nodes.py:30-65 | the cleaned table has exactly the 24 kept columns, and its rows are an order-preserving subsequence of the projected input, never more rows |
| Cleaning.CleanRowsValid | pipeline/src/reservations_pipeline/pipelines/clustering/nodes.py:49-55 | every cleaned row has a non-negative fare and strictly positive guests, nights and rooms |
| Cleaning.CleanWithinBands | pipeline/src/reservations_pipeline/pipelines/clustering/nodes.py:57-62 | every cleaned row lies within each band, computed on the rows that entered that band's step; later steps keep earlier bands |
| Cleaning.DropNegativeFareIdempotent | pipeline/src/reservations_pipeline/pipelines/clustering/nodes.py:50 | the fare filter applied twice equals applying it once |
| Cleaning.KeepPositiveIdempotent | pipeline/src/reservations_pipeline/pipelines/clustering/nodes.py:53-55 | a positivity filter applied twice equals applying it once |
| Cleaning.BandStepNotIdempotent | pipeline/src/reservations_pipeline/pipelines/clustering/nodes.py:59-62 | concrete counterexample: on bookings for 1, 2, 3, 3 guests one guest band step drops the 1 and a second step on the survivors drops the 2, so a band step is not idempotent |
| Cleaning.CleanNotIdempotent | pipeline/src/reservations_pipeline/pipelines/clustering/nodes.py:11-65 | concrete counterexample on a full 24-column table (bookings for 1, 2, 3, 3 guests, one night, one room, fare 100): cleaning gives the bookings for 2, 3, 3, and cleaning that result gives those for 3, 3, so `clean_reservations` is not a fixed point |
| Cleaning.CleanBookings | pipeline/src/reservations_pipeline/pipelines/clustering/nodes.py:49-62 | on bookings with positive guests, one night, one room and fare 100, the fare and positivity filters and the night and fare bands keep every row, so cleaning comes down to the guest band step |
| Cleaning.FourGuestBounds | pipeline/src/reservations_pipeline/pipelines/clustering/nodes.py:60-61 | the band over guest counts 1, 2, 3, 3 is [1.0015, 3] |
| Cleaning.ThreeGuestBounds | pipeline/src/reservations_pipeline/pipelines/clustering/nodes.py:60-61 | the band over guest counts 2, 3, 3 is [2.001, 3] |
| Quantiles.Sort | pipeline/src/reservations_pipeline/pipelines/clustering/nodes.py:60-61 | the values the quantile reads are sorted ascending and a permutation of the input |
| Quantiles.Quantile | pipeline/src/reservations_pipeline/pipelines/clustering/nodes.py:60-61 | no quantile exactly when there are no values; otherwise it lies between two of the values |
| Quantiles.QuantileMonotone | pipeline/src/reservations_pipeline/pipelines/clustering/nodes.py:60-61 | a lower level never gives a higher quantile, so the low bound never exceeds the high bound |
| Quantiles.QuantileOfConstant | pipeline/src/reservations_pipeline/pipelines/clustering/nodes.py:60-61 | every quantile of values that are all equal is that value, so a constant column keeps its band |
| LabelEncoding.Fit | pipeline/src/reservations_pipeline/pipelines/clustering/nodes.py:98 | the classes are strictly sorted and are exactly the distinct values seen |
| LabelEncoding.Encode | pipeline/src/reservations_pipeline/pipelines/clustering/nodes.py:99 | a value has a code exactly when it is a class, and the code indexes that class |
| LabelEncoding.DecodeEncode | pipeline/src/reservations_pipeline/pipelines/clustering/nodes.py:98-99 | decoding the code of any fitted value gives the value back |
| LabelEncoding.EncodeDecode | pipeline/src/reservations_pipeline/pipelines/clustering/nodes.py:98-99 | codes are exactly 0 .. classes-1, and encoding a decoded code gives the code back |
| LabelEncoding.EncodeInjective | pipeline/src/reservations_pipeline/pipelines/clustering/nodes.py:99 | distinct classes get distinct codes |
| LabelEncoding.EncodeMonotone | pipeline/src/reservations_pipeline/pipelines/clustering/nodes.py:98-99 | code order is string order, in both directions |
| LabelEncoding.UnseenNotEncoded | pipeline/src/reservations_pipeline/pipelines/clustering/nodes.py:171 | a value not seen at fit time has no code |
| LabelEncoding.TransformColumn | pipeline/src/reservations_pipeline/pipelines/clustering/nodes.py:99 | `transform` succeeds exactly when every cell is a known text, and then gives each cell's code in place |
| LabelEncoding.TransformFittedColumn | pipeline/src/reservations_pipeline/pipelines/clustering/nodes.py:98-99 | transforming the column the encoder was fitted on always succeeds |
| Features.WithCodes | pipeline/src/reservations_pipeline/pipelines/clustering/nodes.py:99 | replacing a column with codes sets its cells and leaves every other column unchanged |
| Features.FilledCell | pipeline/src/reservations_pipeline/pipelines/clustering/nodes.py:103-106 | `fillna(-1)` then the float cast: a missing cell becomes -1, a number keeps its value, a text raises `ValueError` |
| Features.CastCell | pipeline/src/reservations_pipeline/pipelines/clustering/nodes.py:173 | the float cast without filling: a missing cell raises `TypeError`, a text `ValueError` |
| Features.TrainingVector | pipeline/src/reservations_pipeline/pipelines/clustering/nodes.py:103-106 | one training row succeeds exactly when no cell is text, and then holds the filled values in column order |
| Features.AssignmentVector | pipeline/src/reservations_pipeline/pipelines/clustering/nodes.py:173 | one assignment row succeeds exactly when every cell is a number, and then holds those values in column order |
| Features.VectorsAgree | pipeline/src/reservations_pipeline/pipelines/clustering/nodes.py:103-106 | on a row without missing cells the assignment and training rows coincide |
| Features.TrainingMatrix | pipeline/src/reservations_pipeline/pipelines/clustering/nodes.py:103-106 | the training matrix succeeds exactly when every row does, with one vector per row |
| Features.AssignmentMatrix | pipeline/src/reservations_pipeline/pipelines/clustering/nodes.py:173 | the assignment matrix succeeds exactly when every row does, with one vector per row |
| Features.MatricesAgree | pipeline/src/reservations_pipeline/pipelines/clustering/nodes.py:103-106 | where the assignment matrix succeeds it equals the training matrix |
| Training.EncodeColumn | pipeline/src/reservations_pipeline/pipelines/clustering/nodes.py:98-100 | succeeds exactly when the column is all text; the encoder is fitted on it; every cell decodes back to its original text; other columns are unchanged |
| Training.EncodeCategories | pipeline/src/reservations_pipeline/pipelines/clustering/nodes.py:95-100 | the encoding loop over the five categorical columns equals the column-by-column encoding `EncodeFrom` |
| Training.EncodeFromOutcome | pipeline/src/reservations_pipeline/pipelines/clustering/nodes.py:97-100 | encoding distinct columns succeeds exactly when each is all text |
| Training.EncodeFromKeys | pipeline/src/reservations_pipeline/pipelines/clustering/nodes.py:100 | the encoder dictionary has exactly the earlier keys plus the encoded columns |
| Training.EncodeFromCoded | pipeline/src/reservations_pipeline/pipelines/clustering/nodes.py:97-100 | each encoded column's encoder is fitted on the original column, and its codes decode back to the original cells |
| Training.EncodeFromUntouched | pipeline/src/reservations_pipeline/pipelines/clustering/nodes.py:97-100 | columns outside the loop are left unchanged |
| Training.SelectK | pipeline/src/reservations_pipeline/pipelines/clustering/nodes.py:127-138 | the loop over k = 4, 5 keeps the first strictly best silhouette above -1, or stops with the exception of the first fit or score that raises, as the reference `Scan` |
| Training.ScanOutcome | pipeline/src/reservations_pipeline/pipelines/clustering/nodes.py:128-136 | the search raises exactly when fitting or scoring k = 4 or k = 5 raises, with k = 4's exception when that one raised |
| Training.SelectionRule | pipeline/src/reservations_pipeline/pipelines/clustering/nodes.py:128-138 | when both fits and scores succeed, the search succeeds; k is 5 iff s5 > s4 and s5 > -1; k is 4 iff s4 > -1 and s5 <= s4; none iff both are <= -1; the score is max(-1, s4, s5) and the model is the chosen k's |
| Training.TrainCluster | pipeline/src/reservations_pipeline/pipelines/clustering/nodes.py:69-150 | the imperative training equals `Train` (with `n_clusters` ignored, as in the source) |
| Training.PreparedOutcome | pipeline/src/reservations_pipeline/pipelines/clustering/nodes.py:95-106 | preparation succeeds exactly when all columns are present, the categorical ones are all text and no numeric one holds text |
| Training.TrainingMatrixOutcome | pipeline/src/reservations_pipeline/pipelines/clustering/nodes.py:103-106 | after encoding, the cast succeeds exactly when no numeric column holds text |
| Training.TrainOutcome | pipeline/src/reservations_pipeline/pipelines/clustering/nodes.py:95-136 | training succeeds exactly when the preparation succeeds and pretraining, both k-means fits and both silhouette scores raise nothing; the preparation succeeds exactly when the eleven model columns are present, the five categorical ones all text and the six numeric ones free of text |
| Training.PreparedEncoders | pipeline/src/reservations_pipeline/pipelines/clustering/nodes.py:96-100 | the encoder keys are exactly the categorical columns, each fitted on that column of the input table |
| Training.TrainedBundle | pipeline/src/reservations_pipeline/pipelines/clustering/nodes.py:141-150 | the bundle carries the model column lists, one encoder per categorical column fitted on it, and a best k that is none, 4 or 5 |
| Assignment.WithLabels | pipeline/src/reservations_pipeline/pipelines/clustering/nodes.py:181-182 | same rows, `cluster` set to the labels, every other cell unchanged, columns extended by `cluster` at the end when new |
| Assignment.AssignClusters | pipeline/src/reservations_pipeline/pipelines/clustering/nodes.py:154-183 | on success: same row count, original cells unchanged, an integer `cluster` in every row, the input columns kept as a prefix |
| Assignment.AssignedLabels | pipeline/src/reservations_pipeline/pipelines/clustering/nodes.py:176-182 | the labels are the prediction on the embedded encoded table, and lie in [0, best k) when the fitted model's predictions do |
| Assignment.EncodeWithUnseen | pipeline/src/reservations_pipeline/pipelines/clustering/nodes.py:170-171 | a single unknown category in any encoded column makes encoding fail |
| Assignment.UnseenCategoryRejected | pipeline/src/reservations_pipeline/pipelines/clustering/nodes.py:170-171 | a category unseen at training time makes assignment fail |
| Assignment.EncodeWithFitted | pipeline/src/reservations_pipeline/pipelines/clustering/nodes.py:170-171 | the trained encoders re-encode the training rows exactly as training did |
| Assignment.CastOutcome | pipeline/src/reservations_pipeline/pipelines/clustering/nodes.py:173 | after encoding, the cast succeeds exactly when no numeric cell is missing |
| Assignment.AssignmentInputOnTrainingTable | pipeline/src/reservations_pipeline/pipelines/clustering/nodes.py:169-173 | on the training table the assignment input equals the training matrix, and exists exactly when no numeric cell is missing |
| Assignment.AssignTrainingTable | pipeline/src/reservations_pipeline/pipelines/clustering/nodes.py:154-183 | with a trained bundle, assigning the training table sees the training matrix, and succeeds in preparation exactly when no numeric cell is missing |
| Stats.Mean | pipeline/src/reservations_pipeline/pipelines/clustering/nodes.py:208-209 | a mean exists exactly when there are values, and lies between their minimum and maximum |
| Stats.AverageBounds | pipeline/src/reservations_pipeline/pipelines/clustering/nodes.py:208-209 | the average of values within any bounds lies within those bounds |
| Stats.MeanOfConstant | pipeline/src/reservations_pipeline/pipelines/clustering/nodes.py:208-209 | the mean of equal values is that value |
| Stats.RoundHalfEven | pipeline/src/reservations_pipeline/pipelines/clustering/nodes.py:221 | the result is within one half of the input, and even on a tie |
| Stats.Round2 | pipeline/src/reservations_pipeline/pipelines/clustering/nodes.py:221 | `round(2)` gives a whole number of hundredths at most 0.005 away, the even one on a tie |
| Stats.Round2Idempotent | pipeline/src/reservations_pipeline/pipelines/clustering/nodes.py:221 | rounding twice equals rounding once |
| Stats.Mode | pipeline/src/reservations_pipeline/pipelines/clustering/nodes.py:213-214 | a mode exists exactly when there are values; it is one of them, no value is more frequent, and it is the smallest of the equally frequent |
| Stats.ModeOfMajority | pipeline/src/reservations_pipeline/pipelines/clustering/nodes.py:213-214 | a strictly most frequent value is the mode |
| Profiling.GroupKeys | pipeline/src/reservations_pipeline/pipelines/clustering/nodes.py:219 | the group keys are exactly the labels that occur, integers ascending then the missing label |
| Profiling.Group | pipeline/src/reservations_pipeline/pipelines/clustering/nodes.py:219 | a group holds exactly the rows with that label |
| Profiling.GroupKeepsCopies | pipeline/src/reservations_pipeline/pipelines/clustering/nodes.py:219 | a group is an order-preserving subsequence of the table holding every copy of each row with that label and none of the others |
| Profiling.ModesAreColumnModes | pipeline/src/reservations_pipeline/pipelines/clustering/nodes.py:212-214 | the modes of a group succeed exactly when every categorical column has a value in the group, and then give each column's mode, column by column |
| Profiling.SummariesAreSegments | pipeline/src/reservations_pipeline/pipelines/clustering/nodes.py:217-222 | the summaries succeed exactly when every group summarises, and then hold one summary per key, in key order |
| Profiling.FirstBadColumn | pipeline/src/reservations_pipeline/pipelines/clustering/nodes.py:217-220 | reports a column exactly when some cell of the listed columns fails the type test |
| Profiling.ProfileGroups | pipeline/src/reservations_pipeline/pipelines/clustering/nodes.py:217-223 | one profile row per occurring label, integer labels ascending and the missing label last |
| Profiling.ProfileMeans | pipeline/src/reservations_pipeline/pipelines/clustering/nodes.py:207-209 | each numeric entry is the group's mean rounded to hundredths; hence missing exactly when the group has no value there, else within 0.005 of the group's range |
| Profiling.ProfileModes | pipeline/src/reservations_pipeline/pipelines/clustering/nodes.py:211-214 | each categorical entry is a most frequent value of the group, the smallest of the equally frequent |
| Profiling.ProfileNeedsCategories | pipeline/src/reservations_pipeline/pipelines/clustering/nodes.py:213-214 | a group whose categorical column is entirely missing makes the profile raise |
| Profiling.ProfileOfEmpty | pipeline/src/reservations_pipeline/pipelines/clustering/nodes.py:217-223 | a table with the columns but no rows profiles to no rows |
| DescriptiveLookup.ItemResult | api.py:58-75 | an item answers exactly when it is a record whose tested id (first catalogue id key, or the first truthy generic id) prints as the id; the answer is its name, or the id when there is none |
| DescriptiveLookup.FirstResultIsFirstMatch | api.py:56-75 | the list lookup answers from the first matching item, and has no answer exactly when no item matches |
| DescriptiveLookup.FirstKeyIsFirstMatch | api.py:76-80 | the dict lookup returns the first key, in insertion order, whose value prints as the id, and none exactly when none does |
| DescriptiveLookup.DescriptiveValueFallback | api.py:81-84 | when nothing matches, the result is the id's string form |
| DescriptiveLookup.GetDescriptiveValue | api.py:48-84 | the scan that returns at the first match equals the reference `DescriptiveValue` |
| ReplyText.CleanJsonResponse | api.py:324-339 | the cleaned text always starts with '{' and ends with '}' |
| ReplyText.Braced | api.py:335-338 | adds a brace only where one is missing; braced text is unchanged |
| ReplyText.CleanJsonResponseKeepsBraced | api.py:324-339 | text already starting with '{' and ending with '}' is unchanged |
| ReplyText.CleanJsonResponseIdempotent | api.py:324-339 | cleaning a cleaned reply changes nothing |
| ReplyText.RequiredFieldsDistinct | api.py:360-372 | the eleven required fields are distinct |
| ReplyText.MissingFields | api.py:373-376 | lists exactly the required fields that are absent or null, in the required order, each once |
| ReplyText.MissingFieldsEmpty | api.py:373-377 | nothing is missing exactly when all eleven fields are present and non-null |
| ReplyText.CleanExplanation | api.py:497-501 | the explanation has no '*', is single-spaced, ends in '.', and equals the joined words when those already end in '.' |
| ReplyText.WordsOfStrippedStarless | api.py:495-499 | stripping before removing '*' does not change the words kept |
| ReplyText.CleanExplanationWords | api.py:495-501 | the explanation is the reply's words without '*', single-spaced, with at most a final '.' added |
| PyStr.WordsOfJoin | api.py:499 | splitting words joined by single spaces gives the words back |
| PyStr.DropStarsAfterPairs | api.py:497 | removing "**" and then '*' removes exactly every '*' |
| Routing.ErrorReply | api.py:352-357 | an error response has status error, no clusters and an empty explanation |
| Routing.Route | api.py:341-346 | every error response carries no clusters and an empty explanation |
| Routing.ParsedResponse | api.py:350-401 | every error response for a parsed reply carries no clusters and an empty explanation |
| Routing.ScoredResponse | api.py:412-427 | every response built after scoring is a success or an HTTP 500 |
| Routing.LambdaResponse | api.py:432-538 | every response built from the scoring body is a success or an HTTP 500 |
| Routing.ClusterResponse | api.py:432-528 | a cluster response is a success announcing the cluster id |
| Routing.NotJsonIsMessage | api.py:554-563 | a reply that is not JSON is returned, cleaned, as a successful message without clusters |
| Routing.ParsedIsHandled | api.py:341-350 | a reply that parses as an object is handled by the parsed-reply logic |
| Routing.MissingKeyShortCircuits | api.py:350-358 | a `missing` key decides the response before validation, conversion or scoring, as an error listing the fields (or HTTP 500 when they cannot be joined) |
| Routing.MissingFieldsReported | api.py:373-384 | absent or null required fields are reported, all of them and in order |
| Routing.ConversionErrorReported | api.py:386-405 | a numeric conversion raising `ValueError` or `TypeError` is reported with the exception's message |
| Routing.ConversionCrashIsInternal | api.py:386-399 | any other exception of the conversion (`OverflowError` for an infinite number) escapes that handler and gives HTTP 500 |
| Routing.ScoringFailureIsInternal | api.py:416-427 | an unreachable scoring endpoint, a status other than 200 or a non-JSON body gives HTTP 500 |
| Routing.ClustersResponse | api.py:432-437 | whatever the `clusters` entry holds, the response is a success or an HTTP 500 |
| Routing.ScoredIsLambda | api.py:423-432 | a 200 reply with a JSON object body is answered from that body's `clusters` entry |
| Routing.ListedCluster | api.py:434-435 | a `clusters` list starting with an int is answered exactly as that int alone would be, the id listed alone |
| Routing.ScalarCluster | api.py:436-437 | an int `clusters` value is itself the cluster id |
| Routing.ScoredCluster | api.py:432-437 | an integer `clusters` value, or a list starting with one, selects that integer as the cluster |
| Routing.UndescribedClusterIsNew | api.py:440-446 | a cluster outside 0..4 is announced as new and listed alone |
| Routing.DescribedClusterResponse | api.py:505-528 | a cluster id 0..4 is announced, listed alone and given the explanation chosen by the explanation request's outcome |
| Routing.DescribedClusterExplained | api.py:493-515 | a described cluster with a successful explanation request carries the cleaned explanation |
| Routing.CleanExplanationStripped | api.py:499-511 | the cleaned explanation has no surrounding whitespace, so the final `strip()` keeps it |
| Routing.DescribedClusterBasic | api.py:503-528 | a described cluster whose explanation request fails gets the basic explanation from the fields |
| Routing.NoClustersKey | api.py:532-538 | a scoring body without `clusters` reports that no cluster could be determined |

## Left out

- Step 2 of `clean_reservations` (type coercion to dates, `Int64` and `string`, nodes.py lines 34-47) is not modelled. Values arrive already typed, and a non-numeric value in a numeric column reads as missing.
- The date columns are carried through the cleaning but never interpreted.
- Seeding the random generators and the deterministic-algorithms switch (nodes.py lines 80-82) are not modelled; the seed is passed through to the fitting parameters.
- TabNet pre-training and prediction, K-means fitting and prediction, and the silhouette score are opaque function parameters. The model proves what the code does around them, not what they compute.
- `Training.TrainOutcome`: pre-training, the K-means fits and the silhouette scores may each raise, but which inputs make them raise (fewer rows than clusters for K-means, a label count outside 2 to one less than the rows for the silhouette score) is up to the parameters. TabNet's embedding of the matrix it was just fitted on, and K-means prediction, are taken not to raise.
- `Routing.ConversionErrorReported`: which field values make `int()` or `float()` raise which exception is up to the `convert` parameter. The model only separates the exceptions the handler catches from the others.
- `float32` conversion and floating-point rounding error are not modelled; values are exact reals. `round(2)` is stated as round-half-even on exact reals, not on binary doubles.
- Quantile values are computed over exact reals. pandas' interpolation order of operations is not reproduced bit for bit.
- `Features.FilledCell`: a text cell in a numeric column is a cast failure (`ValueError`). A numeric-looking string that pandas would coerce is not modelled.
- `Training.EncodeColumn`: a categorical column containing a missing value fails, which stands for scikit-learn's error when sorting `NA` with strings. A column of only missing values, which scikit-learn may fit as a single class, is also a failure here.
- `Training.EncodeColumn`: a number in a categorical column fails. Once step 2 has turned these columns to strings, this cannot happen in the pipeline.
- `Assignment.AssignClusters`: a missing value in a model column is a failure, since the object array cannot be cast to `float32` and K-means rejects `NaN`. Training, by contrast, fills `-1`.
- `Assignment.AssignClusters`: the model columns are assumed distinct, as the fixed lists are. Which of several simultaneous errors pandas would raise first is not claimed; only success versus failure and the values are.
- `Profiling.ProfileSegments`: the `agg_specs` dictionary-building loops are replaced by the fixed column lists they produce.
- `Profiling.ProfileSegments`: a number in a categorical column gives `TypeError`, whereas pandas would take the mode of the numbers. The model's modes are over text only; the pipeline's categorical columns are the ID columns that step 2 turns into strings.
- `Profiling.ProfileSegments`: cluster labels are integers or missing. Float or text labels give `TypeError`, and a text cell in a numeric column gives `TypeError`, standing for the aggregation error.
- `DescriptiveLookup`: `str()` of floats uses the float's own representation text carried in the JSON value. `repr` escaping of strings inside lists and dicts is simplified.
- The `print` debugging, the HTTP client, timeouts, environment variables and the FastAPI/Kedro wiring are not modelled. The replies of the language model and of the scoring endpoint are inputs.
- `get_reservation_description` (api.py lines 86-120) and the prompt text are outside this model; only the segment name used in the basic explanation is looked up.
- The web front end is not part of this model.
