# Label round trip, decoding masks and wire formats: a verified model

This project models the parts of the repository that turn something into another form
and back, and proves what each pair keeps.

**Labels and parameters.** The encoder's training labels point from a row's gold parameters to
the numeric literals of the utterance: one literal through a map, two literals through a
two-literal map, a class, or an array coded as runs. The decoder rebuilds the parameters from
those labels alone. `Labels` and `Decoding` specify both directions as functions, `Labeller` and
`Decoder` are the loops that compute them, and `RowRoundTrip` proves when the decoder undoes the
labeller. The answer is an exact condition (`RowCovered`) that can be read off a row before
decoding. `Greedy` proves what the two-pass matching of fields and literals guarantees,
`ArrayReading` how arrays are read, `Hits` when a literal explains a number, and `Choice` which
literals and map each label uses, said of what the literals hit and not of the candidate lists;
`Arbitration` is its counterpart in the decoder: which of several pointers a number comes from.
`FieldLearner`, `FieldOrder`, `ProvisionalSchema` and `SchemaBuilder` are the two passes that
build a schema from a corpus, `Masks` proves that the learned vocabulary and masks never rule
out a label of that corpus, `TrainingRows` puts all of it together: rows of the corpus come back
from their own labels and from perfect scores, and `TrainedDecoder` runs it, from a corpus to a
decoded row.

Three conditions of the array coding are part of the code as it stands, and the theorems
state them rather than hide them:

- the labeller aligns the other arrays to the row's *first* array, the decoder to the
  schema's anchor. When the two differ, the first array comes back if and only if it is empty,
  or the anchor is another array of the row, neither array repeats or has a zero, no pair
  is lost, and both point at the same literals one by one (`Aligned`; `FirstIff`). This is
  part of `RowCovered`. `LostRow` is a fully labelled row that fails it, and `OrderedRow` the
  same parameters listed in the other order, which come back;
- in a repeated group the decoder writes the zeros last, so a sibling array comes back
  if and only if zeros trail in each of its groups (`FillIff`, `SiblingIff`); `ZeroFirstRow`
  is a fully labelled row that is lost this way;
- a sibling with one element a run may be labelled even when a run repeats, but is decoded with
  one element a repeat, so it never comes back then (`SiblingIff`); `ShorterRow` is a fully
  labelled row of this kind.

**Numbers.** `Decimals` has finite decimals and the 60-digit context, `Maps` the table of maps
and `MapLaws` what they compute. `Precision` proves that comparison at a label's own precision
is a half-up window and cannot confuse two payment frequencies; `Parity` that the tolerance of
the cross-language comparison is right below 10^22 and wrong in every decade above.
`Quantisation` and `KvSimulation` bound the error of the 8-bit schemes over whole runs and show
that all five accumulators see each value once.

**Text and wire formats.** `Rendering` and `Splice` (the text of a dialogue and rewriting its
number spans), `Lexer`, `LexGrammar`, `Relex` and `LexUnits` (the grammar of a literal; printed
numbers read back as themselves, with the units and signs around them), `Base64`, `GrpcWeb` and
`Protobuf` (two body readers that agree, frames, fields), `Json`, `JsonGrammar`, `JsonPrint`,
`JsonSplice`, `IssueKey` and `IssueKeyMerge` (printing and splicing a registry entry; sections 2
to 7 of RFC 8259), `Gguf`, `GgufRoundTrip` and `GgufFormat` (a metadata block is read whole or
refused, and nothing else is read), `Descriptor` and `DescriptorPrint` (service names out of a
printed descriptor set), `Markdown` and `MarkdownLines` (which lines a design marker covers),
`Golden` and `GoldenFile` (the token file and its digest).

Code that updates state step by step is modelled by classes, arrays and loops whose contracts
tie them to specification functions; the properties are lemmas about those functions.

## Conventions

- Numbers are exact: a decimal is an integer times a power of ten, and every arithmetic step
  is rounded to 60 digits, half to even, as the decimal context does. Exponent limits of the
  context are not reached and not modelled.
- A category is its JSON text, a class number is its value, because equal numbers have one
  canonical text. Roles are a datatype; the source writes them as strings.
- The vocabulary is sorted, so ascending ids and sorted names are the same order. Which of
  several most used classes becomes a default is left open, and so is the order of the vocabulary.
- The decoder's window after the last anchor literal ends at 10^9 in the source; `RowFits`
  asks that a row has no more literals than that.
- White space, digits and letters are the ASCII ones wherever the source uses Unicode
  classes.
- Where a loop adds to several accumulators in turn, the model adds to one after the other.

## Model

| member | source | states |
|---|---|---|
| RowRoundTrip.RowIff | agent/train/encoder_corpus.py:1183-1408 | for every row, score table and name-level labelling under a schema whose anchor is an array field of the operation: finishing the labels and decoding them matches the gold if and only if the row is covered; covered is read off the labels, the class answers, the array shapes and the place of the anchor, before any decoding |
| RowRoundTrip.ExplainedRowMatches | agent/train/encoder_corpus.py:1012-1408 | a row whose keys are its operation's fields, with nothing unexplained, no pair dropped, its classes in the vocabulary (and a class-labelled number of at most 60 digits), its first array the anchor or empty or aligned with the anchor, and arrays that fit the first one always comes back whole |
| RowRoundTrip.ExplainedCovered | agent/train/encoder_corpus.py:1012-1099 | the labeller's own routes are enough to know that a row is covered |
| RowRoundTrip.FieldIff | agent/train/encoder_corpus.py:1274-1377 | one field decodes to its gold if and only if it is covered, given the first array is; numbers, categories, first arrays that are or are not the anchor, and sibling arrays alike |
| RowRoundTrip.MatchedRowCovered | agent/train/encoder_corpus.py:1380-1408 | a row that comes back whole was covered: no other way to match exists |
| RowRoundTrip.CoveredRowMatches | agent/train/encoder_corpus.py:1274-1408 | a covered row comes back whole from any example that carries its kept labels and readable classes |
| RowRoundTrip.ForeignKey | agent/train/encoder_corpus.py:1303-1314 | a gold entry that is not a field of the operation is never reproduced |
| RowRoundTrip.AbsentKey | agent/train/encoder_corpus.py:1340-1351 | a field the gold leaves out agrees exactly when it is no array and no class or default answers it |
| RowRoundTrip.FinishedCarries | agent/train/encoder_corpus.py:1183-1197 | finishing drops exactly the pairs outside the vocabulary and keeps the rest at their literals |
| KeptLabels.FinishedMarks | agent/train/encoder_corpus.py:1190-1197 | after finishing, a slot holds its labelled literals that the vocabulary knows, in text order and nothing else |
| TrainingRows.TrainingRowComesBack | agent/train/encoder_corpus.py:846-1408 | for every corpus and the schema both passes build from it: a row with all its operation's fields, its first array the anchor or empty or aligned with it, nothing unexplained or dropped, fitting arrays and class-labelled numbers of at most 60 digits is rebuilt from its own labels |
| TrainingRows.TrainingRowDecodes | agent/train/train_encoder.py:228-311 | the same row is rebuilt from perfect operation, pair and labelled-class scores under the learned masks, whatever the other scores are |
| TrainingRows.ListedRow | agent/train/encoder_corpus.py:867-936 | a row that lists exactly the operation's fields has them all, and its first array is the anchor |
| TrainingRows.RowFitsItsSchema | agent/train/encoder_corpus.py:846-971 | a training row with all its operation's fields agrees with the schema built from its corpus in names, kinds and keys |
| TrainingRows.AnchorIsField | agent/train/encoder_corpus.py:932-936 | the anchor of a learned schema is an array field of its operation |
| TrainingRows.AnyRowFits | agent/train/encoder_corpus.py:846-971 | any row of the corpus, with all or some of its operation's fields, agrees with the schema in names, kinds and keys if and only if no array of the operation is written under the name of one of its scalars |
| TrainingRows.TrainingRowIff | agent/train/encoder_corpus.py:846-1408 | under that condition any row of the corpus comes back from its own labels if and only if it is covered |
| TrainingRows.BuiltMasksFit | agent/train/train_encoder.py:228-242 | every mask of a learned schema belongs to an operation with a place in the tables, and every class head has its masks, so the tables can be built |
| TrainedDecoder.TrainAndDecode | agent/train/train_encoder.py:228-311 | building the schema, filling the mask tables and decoding one row of the corpus under its own operation, in sequence: any scores of the row decode as their predicted example, arbitrated by the selected probabilities; a complete row with perfect scores comes back; a row without operation has no parameters |
| TrainedDecoder.LabelsExist | agent/train/encoder_corpus.py:1012-1099 | every row has name-level labels, so the theorems about labelled rows speak of every row |
| TrainingRows.ClassesKnown | agent/train/encoder_corpus.py:882-896 | every class label of a training row is a class of its field |
| TrainingRows.BuildSchema | agent/train/encoder_corpus.py:846-971 | both passes in sequence; they fail if and only if a field has two kinds; the order of fields and the anchor are in the FieldOrder rows |
| ProvisionalSchema.ReadFields | agent/train/encoder_corpus.py:855-866 | the row loop counts each operation's key sets and finds a field of two kinds if and only if there is one |
| ProvisionalSchema.CountValues | agent/train/encoder_corpus.py:828-843 | the loops count exactly the unstated numbers and collect exactly the categories of every field |
| ProvisionalSchema.SplitClasses | agent/train/encoder_corpus.py:883-896 | a field gets a class head for several conventions, a constant for one, nothing otherwise, and between them exactly the conventions |
| ProvisionalSchema.MergeAll | agent/train/encoder_corpus.py:867-936 | every operation with rows gets the union of its key sets, merged in the order FieldOrder.MergeOrder states, and its first array as anchor |
| ProvisionalSchema.BuildProvisional | agent/train/encoder_corpus.py:846-937 | the first pass computes the provisional schema the second pass labels with |
| FieldLearner.KeySetsCount | agent/train/encoder_corpus.py:855-862 | the counter lists exactly the key sets in use, with the number of their rows |
| FieldLearner.FieldsExact | agent/train/encoder_corpus.py:867-880 | an operation's fields are exactly the names that its rows have |
| FieldLearner.CommonestLeads | agent/train/encoder_corpus.py:868-880 | the fields start with a most used key set in its own order |
| FieldOrder.MergeOrder | agent/train/encoder_corpus.py:867-880 | key sets are merged each once, the more used first, and of equally used ones the earlier |
| FieldOrder.UseDecides | agent/train/encoder_corpus.py:867-880 | a field with a key set used by more rows than every key set of another field precedes it |
| FieldOrder.SetDecides | agent/train/encoder_corpus.py:867-880 | two fields of one key set stand in its order when no key set with either is used more |
| FieldOrder.AnchorUnbeaten | agent/train/encoder_corpus.py:867-936 | no other array of the operation has a key set that is used more than every key set of the anchor |
| ScalarRoundTrip.CandDecodes | agent/train/encoder_corpus.py:1318-1337 | a sound candidate decodes to a value equal to its gold when both operands were kept, and to nothing when one was dropped, whatever the scores |
| ScalarRoundTrip.ChosenExactly | agent/train/encoder_corpus.py:1042-1088 | a plain number is pointed at if and only if it has candidates; convention values never enter the two passes and plain values never the last one |
| Corpus.TierSound | agent/train/encoder_corpus.py:998-1009 | every candidate worth choosing reproduces the gold, exactly or at the label's own precision, one literal or two |
| Hits.ExactRule | agent/train/encoder_corpus.py:640-666 | a number is explained exactly by the literals that a map, allowed for their unit, turns into it, and zero only by zero |
| Hits.NearRule | agent/train/encoder_corpus.py:627-666 | label precision counts only for a nonzero number with places after the point and at least four significant digits, in whose half-up window the map's result lies without being it |
| Choice.PlainLabel | agent/train/encoder_corpus.py:998-1083 | the label of a plain number is one pointer that hits exactly if there is one, else two operands if two literals give it, else an approximate pointer than which none is nearer, else none, and the route says which |
| Choice.TierOrder | agent/train/encoder_corpus.py:998-1009 | candidates that rank alike are taken literal by literal, the simpler map first |
| Choice.ConventionLabel | agent/train/encoder_corpus.py:1085-1099 | a convention value points only through a map its field is seen using, exactly if one does, else at label precision |
| Choice.ConventionLeft | agent/train/encoder_corpus.py:1085-1099 | a convention value is left without a pointer only when an array, a plain number or another convention value has each literal that it is offered |
| Choice.ClassLabelIs | agent/train/encoder_corpus.py:1050-1070 | class labels go to categories and to numbers that are values of the field's class, each with its own value; every other number is plain |
| Choice.OtherRoutes | agent/train/encoder_corpus.py:1012-1099 | the route of a category, a convention number or an array says whether it has labels, and an array that is not read has none |
| Choice.UnstatedIs | agent/train/encoder_corpus.py:828-843 | the numbers counted as conventions are those no literal of the row gives, exactly or at label precision |
| Corpus.UnaryCands | agent/train/encoder_corpus.py:640-666 | the result is exactly the literal and map combinations that hit the value, exact or approximate, zero only from a literal zero |
| Corpus.BinaryCands | agent/train/encoder_corpus.py:669-673 | the result is exactly the ordered literal pairs and two-literal maps that give a nonzero value |
| ArrayRoundTrip.RunsExpand | agent/train/encoder_corpus.py:1128-1138 | the run-length coding of the anchor expands to the anchor, value for value |
| ArrayRoundTrip.AnchorIff | agent/train/encoder_corpus.py:1354-1364 | the anchor comes back element for element if and only if the vocabulary kept all its pairs |
| ArrayRoundTrip.RunsGroups | agent/train/encoder_corpus.py:1297-1302 | the groups the decoder forms from the anchor's pairs are the labeller's runs with their repeats |
| ArrayRoundTrip.FillIff | agent/train/encoder_corpus.py:1368-1376 | one group comes back if and only if its pairs were kept and its zeros trail its other elements |
| SiblingRoundTrip.SiblingIff | agent/train/encoder_corpus.py:1144-1180 | a sibling array comes back if and only if it was explained, all its pairs were kept, its length is the total of the repeats and zeros trail in each group; so one as long as the runs is never rebuilt when a run repeats, even when it is labelled |
| ForeignAnchor.FirstIff | agent/train/encoder_corpus.py:1127-1376 | a labelled, nonempty first array that is not the anchor comes back if and only if the two are aligned: no repeats, no zeros, no lost pair and the same literals position by position |
| ForeignAnchor.WhenAligned | agent/train/encoder_corpus.py:1297-1376 | then the decoder's groups are the labeller's runs, and the anchor itself comes back and is covered as a sibling |
| ArrayExamples.LostRow | agent/train/encoder_corpus.py:1127-1376 | for any two different numbers: a row that lists its second array first, each array on its own literal, is fully labelled with every pair kept and yet never rebuilt |
| ArrayExamples.OrderedRow | agent/train/encoder_corpus.py:1127-1376 | the same parameters, listed with the anchor first, are rebuilt |
| ArrayExamples.SharedRow | agent/train/encoder_corpus.py:1127-1376 | a row that lists its second array first is rebuilt when both arrays point at the same literal |
| ArrayExamples.ZeroFirstRow | agent/train/encoder_corpus.py:1144-1376 | for any two different numbers: a row whose second array states a zero and then a number, beside an anchor that repeats one literal, is fully labelled with every pair kept and yet never rebuilt |
| ArrayExamples.ShorterRow | agent/train/encoder_corpus.py:1144-1376 | so is a row whose second array has one element for a literal that the anchor repeats |
| ForeignAnchor.MarksNeeded | agent/train/encoder_corpus.py:1366-1376 | each nonzero element of a sibling needs a literal of its own in its group's window |
| Greedy.MatchingTotal | agent/train/encoder_corpus.py:1070-1083 | every plain number with candidates gets exactly one of its own candidates, and the second pass takes back no first-pass choice |
| Greedy.FirstPassApart | agent/train/encoder_corpus.py:1072-1076 | first-pass choices are pairwise disjoint and disjoint from the arrays' literals |
| Greedy.FirstPassStable | agent/train/encoder_corpus.py:1070-1080 | what a field ranks above its first-pass choice, and every candidate of a field left without one, clashes with an array or a choice not ranked after it; so a field shares only when all its candidates clash |
| Greedy.ConventionsFree | agent/train/encoder_corpus.py:1089-1098 | a convention value points only at literals that no array, no choice of either pass and no other convention value uses |
| Matching.SortSorts | agent/train/encoder_corpus.py:1066-1071 | the ranking is in order of affinity, map simplicity, later turn, earlier field, earlier literal |
| Matching.SortOrders | agent/train/encoder_corpus.py:1066-1071 | field by field of the ranking key, which of two entries comes first |
| Matching.SortStable | agent/train/encoder_corpus.py:1066-1071 | entries that rank alike keep their order |
| Matching.SortPermutes | agent/train/encoder_corpus.py:1070-1071 | ranking loses and invents no entry |
| Matching.ClaimStable | agent/train/encoder_corpus.py:1072-1076 | for every ranked entry: its field chose no later than it, or one of its literals was claimed before its turn |
| Matching.ClaimDisjoint | agent/train/encoder_corpus.py:1072-1076 | first-pass claims never overlap each other or what was claimed before |
| Matching.ShareTotal | agent/train/encoder_corpus.py:1077-1080 | the second pass gives each remaining field its best-ranked entry and keeps all others |
| Labeller.FindLiteral | agent/train/encoder_corpus.py:1102-1121 | the search for a literal finds the first known exact explanation in the window, else the first simplest one, else nothing |
| Choice.FindIs | agent/train/encoder_corpus.py:1102-1121 | an array element is read from the earliest literal of its window that gives it exactly through a map in use, else from the earliest that gives it at all, each through its first map, and from none only when none gives it |
| ArrayReading.AnchorRead | agent/train/encoder_corpus.py:1126-1139 | an anchor is read left to right: each run starts at an element that the first literal after the last run gives, and the rest of it repeats that element with no literal of its own |
| ArrayReading.AnchorRefused | agent/train/encoder_corpus.py:1126-1139 | an anchor is refused only at an element that no later literal gives and that is no copy of the one before |
| ArrayReading.GroupRead | agent/train/encoder_corpus.py:1163-1173 | a group gets a literal for each nonzero element, in turn within its window, and fails exactly when one has none |
| ArrayReading.SiblingRead | agent/train/encoder_corpus.py:1144-1180 | a sibling is read group by group when it has an element for each run or for each copy, and refused exactly when its length is another or a group fails |
| ArrayReading.ClaimsAre | agent/train/encoder_corpus.py:1042-1045 | the literals claimed before the matching are exactly those the arrays point at |
| Labeller.ReadAnchor | agent/train/encoder_corpus.py:1127-1138 | the pointer loop computes the runs, or nothing exactly when an element is neither stated nor a repeat |
| Labeller.LabelGroup | agent/train/encoder_corpus.py:1163-1175 | one group's loop finds a literal for every nonzero element in its window, or fails |
| Labeller.LabelSibling | agent/train/encoder_corpus.py:1146-1180 | the loop over slots computes the sibling's hits for both admitted lengths and refuses every other |
| Labeller.LabelArrays | agent/train/encoder_corpus.py:1124-1180 | in-place labelling of all arrays adds exactly their marks and sets exactly their routes |
| Labeller.ChooseAll | agent/train/encoder_corpus.py:1070-1080 | the two loops over the ranked entries compute the two-pass matching |
| Labeller.PlacePlain | agent/train/encoder_corpus.py:1081-1088 | every chosen candidate is written into the pairs of its literals under its own roles, and the route says which kind it is |
| Labeller.PlaceConventions | agent/train/encoder_corpus.py:1089-1098 | convention values are placed only on free literals, and exactly the placed ones are routed as pointing |
| Labeller.LabelFacts | agent/train/encoder_corpus.py:1012-1099 | the whole labeller: its pairs represent exactly each field's marks, its class texts and routes are the specified ones, and a declined row has none; which candidate is taken is in the Choice rows |
| Decoder.FinishPairs | agent/train/encoder_corpus.py:1190-1197 | finishing pairs keeps exactly the known ones, by ascending id |
| Decoder.Finish | agent/train/encoder_corpus.py:1183-1206 | the finished example is the specified one; an operation outside the schema is an error |
| Decoder.GatherSlots | agent/train/encoder_corpus.py:1287-1291 | gathering per literal and pair gives each slot its marks in text order |
| Decoder.BuildArray | agent/train/encoder_corpus.py:1354-1377 | the array loop computes the anchor's copies, or each group's window filled with zeros |
| Decoder.Reconstruct | agent/train/encoder_corpus.py:1274-1315 | the decoder computes the specified parameters of the operation, and none for operation 0; which pointer each number comes from is in the Arbitration rows |
| Arbitration.FieldFromWinner | agent/train/encoder_corpus.py:1303-1337 | a number comes from the one-literal pointer that beats its rivals before it and is beaten by none after it, else from the two such operands of the first two-literal map that has both, else from the class answer |
| Arbitration.LaterWins | agent/train/encoder_corpus.py:1294-1297 | without scores the later literal beats the earlier one |
| Arbitration.ProbabilityCounts | agent/train/encoder_corpus.py:1294-1297 | with the scores of a prediction a pointer counts the probability of its pair at its literal |
| Arbitration.GroupsAre | agent/train/encoder_corpus.py:1298-1304 | the groups of an array are its literals in text order, each once, repeated as its last pointer says |
| Decoder.CompareParams | agent/train/encoder_corpus.py:1380-1408 | the comparison is true if and only if every key agrees, and it lists exactly the keys that do not |
| Decoder.OracleRow | agent/train/encoder_corpus.py:1440-1458 | labelling, finishing, decoding and comparing one row answers yes if and only if the row is covered |
| SameLabels.SameField | agent/train/encoder_corpus.py:1012-1099 | labels depend on nothing the second pass learns: two schemas that agree on fields, classes and shares label every field alike |
| SameLabels.SameClasses | agent/train/encoder_corpus.py:1038-1060 | class labels are the same before and after the vocabulary is fixed |
| SchemaBuilder.LearnPairs | agent/train/encoder_corpus.py:939-971 | the learned vocabulary is exactly the pairs used often enough; exactly the operations with labels have a pair mask, holding their own used pairs, and exactly the operations that answered a field a class mask for it, holding their own classes; exactly those have a default, a most used class |
| SchemaBuilder.TallyRow | agent/train/encoder_corpus.py:946-953 | a row adds one use per literal and pair, counted over the whole row |
| SchemaBuilder.Modal | agent/train/encoder_corpus.py:968-970 | the default is a class that no other class outnumbers |
| Masks.FillMask | agent/train/train_encoder.py:228-237 | a table filled in place holds exactly the ids its operation allows |
| Masks.MakeMasks | agent/train/train_encoder.py:228-242 | the pair table and every class table say exactly what the schema learned |
| Masks.PairInMask | agent/train/encoder_corpus.py:939-964 | every vocabulary pair on a training row lies in the mask of that row's operation |
| Masks.ClassInMask | agent/train/encoder_corpus.py:956-967 | every class of a training row lies in the mask of that row's operation |
| Masks.PairsRecovered | agent/train/train_encoder.py:302-305 | scores that are perfect on the row's pairs select exactly the finished pairs |
| Masks.ClassRecovered | agent/train/train_encoder.py:306-310 | scores that are perfect on a labelled class pick a class that answers what the label answers |
| Masks.PerfectScoresDecode | agent/train/train_encoder.py:295-311 | for every explained training row, perfect operation, pair and labelled-class scores, arbitrary elsewhere, decode to parameters that match the gold |
| Masks.SelectPairs | agent/train/train_encoder.py:302-305 | thresholding under the mask yields exactly the allowed pairs above the threshold, in order, with their scores |
| Masks.DecodeRow | agent/train/train_encoder.py:295-311 | one row's scores decode to the parameters of the predicted example, arbitrated by exactly the selected pairs' own probabilities; operation 0 to none |
| Masks.ArgMax | agent/train/train_encoder.py:310 | the first of the largest scores |
| MapLaws.CtxKeeps | agent/train/encoder_corpus.py:150 | a result of at most sixty digits is exact |
| MapLaws.TiesToEven | agent/train/encoder_corpus.py:150 | the context rounds to a nearest multiple of its last place, on a tie to the even one |
| MapLaws.Undo | agent/train/encoder_corpus.py:279-302 | maps that undo each other: times and over a hundred or a thousand, years and months, the sign twice |
| MapLaws.RateFigures | agent/train/encoder_corpus.py:279-302 | one figure through the identity, percent and rate maps, each at its place in the table |
| MapLaws.OtherFigures | agent/train/encoder_corpus.py:279-302 | one figure through the time, sign, complement and scale maps, each at its place in the table |
| MapLaws.ReadTags | agent/train/encoder_corpus.py:279-302 | which tags each map reads |
| Precision.WindowIff | agent/train/encoder_corpus.py:307-331 | agreement at label precision holds exactly on the half-up window of the gold's last place |
| Precision.RelativeError | agent/train/encoder_corpus.py:307-331 | for a gold that may have been rounded, what agrees with it is within 1/2000 of it |
| Precision.CtxHalfUlp | agent/train/encoder_corpus.py:150 | rounding to 60 digits moves a value by at most half a unit of its last place |
| Precision.CtxNear | agent/train/encoder_corpus.py:150 | rounding to 60 digits moves a value by at most one part in 2000, so it keeps its sign |
| Precision.CadenceUnambiguous | agent/train/encoder_corpus.py:279-331 | two rate maps with different divisors never both explain one eligible gold from one nonzero percent |
| Parity.OneUlp | scripts/check_encoder_reconstruct_parity.py:54-57 | for every rational below 10^22 in magnitude, 60-digit rounding and truncation at 38 places differ by at most 10^-38 |
| Parity.OneUlpFails | scripts/check_encoder_reconstruct_parity.py:106-124 | from 10^22 on every decade holds a rational for which they differ by more |
| Parity.OneUlpIff | scripts/check_encoder_reconstruct_parity.py:54-124 | a decade of rationals stays within 10^-38 throughout if and only if it lies below 10^22 |
| Parity.Stats.ValueEq | scripts/check_encoder_reconstruct_parity.py:64-133 | the comparison accepts exactly equal shapes with numbers within the tolerance, and its counters grow by the numbers that are equal and by those that need the tolerance |
| Parity.NeverRejects | scripts/check_encoder_reconstruct_parity.py:106-128 | a tree of quotients computed on both sides, however nested and printed, is always accepted when every quotient is below 10^22 |
| Parity.CadenceAccepted | scripts/check_encoder_reconstruct_parity.py:106-128 | an annual percent below 10^24 over any payment frequency: although the division by 100 and then by the frequency is rounded to 60 digits twice on one side and truncated to 38 places twice on the other, the results differ by at most 10^-38 and are accepted |
| Parity.TruncatesOnce | scripts/check_encoder_reconstruct_parity.py:106-124 | truncating a quotient after each of two divisions is truncating it once |
| Quantisation.SymHalfStep | backend/src/kv_gran_probe.cpp:68-73 | a value no larger than the block's maximum lands within half a step of itself |
| Quantisation.AffineHalfStep | backend/src/kv_gran_probe.cpp:76-82 | a value between the block's extremes lands within half a step of itself |
| Quantisation.SymBlock | backend/src/kv_gran_probe.cpp:68-92 | 254^2 times a block's squared error is at most n times its energy, for every block of at most n values |
| Quantisation.AffineBlock | backend/src/kv_gran_probe.cpp:76-92 | twice 255^2 times a block's squared error is at most n times its energy |
| Quantisation.SymGrid | backend/src/kv_gran_probe.cpp:68-73 | the result is an integer of magnitude at most 127 times the step, and no other such multiple is nearer |
| Quantisation.AffineGrid | backend/src/kv_gran_probe.cpp:76-82 | the result is the minimum plus 0 to 255 times the step, and no other such value is nearer |
| KvSimulation.ErrAcc.Add | backend/src/kv_gran_probe.cpp:84-90 | adds the squared error and the energy of one value |
| KvSimulation.AddSym | backend/src/kv_gran_probe.cpp:279-290 | a block's loop adds exactly its symmetric error and energy and keeps the bound |
| KvSimulation.AddAffine | backend/src/kv_gran_probe.cpp:279-290 | a block's loop adds exactly its affine error and energy and keeps the bound |
| KvSimulation.EnergyOfColumn | backend/src/kv_gran_probe.cpp:305-322 | channel by channel traversal of a group of rows adds up to the rows' energy |
| KvSimulation.AddStream | backend/src/kv_gran_probe.cpp:273-324 | row, sub-block and channel traversals of one stream all add the stream's energy once, and each scheme exactly its own squared error |
| KvSimulation.Simulate | backend/src/kv_gran_probe.cpp:271-324 | over any number of streams the five denominators are the same energy, the five numerators are exactly the squared errors of their schemes, and each keeps its bound |
| Rendering.Render | agent/train/encoder_corpus.py:547-568 | the rendered dialogue holds the user's turns around the question, and the literals of the turns at their places in it |
| Rendering.LayoutRendered | agent/train/encoder_corpus.py:547-568 | every rendered dialogue has its literals in order, apart, inside the user's turns, which is what rewriting needs |
| Rendering.TurnsKept | agent/train/encoder_corpus.py:547-568 | the turns and the question stand in the text where the offsets say |
| Splice.Rewrite | agent/train/train_encoder.py:589-593 | right-to-left splicing of the listed spans is their simultaneous substitution |
| Splice.EditLands | agent/train/train_encoder.py:589-593 | each new span stands at its old start plus the length changes before it |
| Splice.UntouchedMoves | agent/train/train_encoder.py:589-593 | every other character is kept and moves by the length changes before it |
| Splice.SubstSegment | agent/train/train_encoder.py:601-602 | edits counted from a segment's start change it as they change the whole text |
| Splice.Rebuild | agent/train/train_encoder.py:595-606 | rewriting both user segments and rejoining them is one substitution in the whole text, and the new offsets delimit the same question |
| Lexer.Lex | agent/train/encoder_corpus.py:235-272 | the scan finds the specified literals, left to right, each after the last one's end; what a literal is, is in the LexGrammar and LexUnits rows |
| LexGrammar.WholeIs | agent/train/encoder_corpus.py:185-192 | the whole part is the longest grouped number at a place, else all the digits there |
| LexGrammar.PercentIs | agent/train/encoder_corpus.py:185-192 | the percent sign and its words are recognised exactly as whole words, in either case |
| LexGrammar.LeadingPoint | agent/train/encoder_corpus.py:175-192 | a number that starts with a point has the value of its digits after the point |
| LexGrammar.EveryDigit | agent/train/encoder_corpus.py:235-272 | every digit of a text belongs to one of its literals |
| LexGrammar.InOrder | agent/train/encoder_corpus.py:235-272 | the literals stand one after the other, each beginning with a digit or a point |
| LexUnits.SuffixMultiplies | agent/train/encoder_corpus.py:244-248 | an attached k or m in either case multiplies the printed number by 1000 or 1000000 |
| LexUnits.ScaleMultiplies | agent/train/encoder_corpus.py:249-254 | a spelled scale multiplies the number by 1000 or 1000000 and makes it money |
| LexUnits.UnitTags | agent/train/encoder_corpus.py:255-264 | each unit word after a number gives it its tag and leaves its value |
| LexUnits.SignDecides | agent/train/encoder_corpus.py:265-268 | with nothing after it a number is money behind a dollar sign, else bare |
| LexUnits.PercentTags | agent/train/encoder_corpus.py:256-257 | a percent sign or word makes the number a percentage and belongs to the literal |
| Relex.PrintedRelexes | agent/train/train_encoder.py:577-585 | every printed number, grouped or not, with any fraction and percent sign, lexes to one literal covering all of it, with that value and tag |
| Relex.GroupedValue | agent/train/train_encoder.py:581 | comma grouping keeps the digits of the number |
| Base64.DecodeStops | scripts/probe_finance_service.py:110-112 | decoding a padded part followed by more text gives the part alone, so the parts must be split first |
| Base64.RunBody | scripts/probe_finance_service.py:124 | the decoder reads the letters of any bytes back to those bytes |
| GrpcWeb.FinanceBody | scripts/probe_finance_service.py:113-124 | the index loop cuts after each padding run and joins what every segment decodes to; a bad segment fails |
| GrpcWeb.AssistantBody | scripts/probe_live_assistant.py:169-179 | the loop over pieces joins what decodes, passes over what does not, and falls back to the whole body |
| GrpcWeb.BothRead | scripts/probe_live_assistant.py:167-179 | for every list of parts encoded with their own padding both probes read exactly the joined bytes |
| GrpcWeb.WalkFrames | scripts/probe_finance_service.py:126-135 | the header walk computes the last payload of each kind |
| GrpcWeb.WalkReads | scripts/probe_finance_service.py:126-135 | walking any frames, and fewer than five stray bytes, finds the last message and the last trailers |
| GrpcWeb.BodyReadBack | scripts/probe_live_assistant.py:167-192 | however the frames are cut into base64 parts, both probes find the last message and trailers |
| GrpcWeb.FrameKinds | scripts/probe_live_assistant.py:188-191 | the probes agree on a frame if and only if its flags are zero or have the top bit set |
| GrpcWeb.SameFrame | scripts/probe_live_assistant.py:181-192 | both probes take a kind's payload from the same frame if and only if every frame they read differently is followed by one that both read as that kind |
| GrpcWeb.SameReply | scripts/probe_live_assistant.py:181-192 | then they report the same payload |
| GrpcWeb.DifferentReply | scripts/probe_live_assistant.py:181-192 | otherwise they report different payloads, when no two frames carry the same one |
| Protobuf.WriteVarint | scripts/probe_finance_service.py:36-43 | the shifting loop writes seven bits a byte, least significant first |
| Protobuf.ReadNumber | scripts/probe_finance_service.py:63-71 | the accumulating loop reads the number the groups stand for, or fails at the end of the bytes |
| Protobuf.VarintReadsBack | scripts/probe_finance_service.py:36-71 | reading undoes writing for every natural, at every offset, whatever follows |
| Protobuf.Fields | scripts/probe_finance_service.py:74-93 | the loop yields the fields one after the other until the end, an unknown wire type or missing bytes |
| Protobuf.FieldReadsBack | scripts/probe_finance_service.py:46-93 | each written field is read with its number and value and leaves the offset after it |
| Protobuf.FourReads | scripts/probe_finance_service.py:88-92 | a four-byte value is read with its number, though no writer here makes one |
| Protobuf.PartReads | scripts/probe_finance_service.py:74-93 | another wire type ends the reading, and eight or four bytes that are not all there fail it |
| Protobuf.TextCut | scripts/probe_finance_service.py:74-93 | a string that is not all there is cut at the end of the bytes |
| Protobuf.FieldsReadBack | scripts/probe_finance_service.py:74-93 | reading any concatenation of written fields yields exactly those, in order, without failing |
| IssueKey.JsonEscape | backend/src/issue_key.cpp:28-51 | the loop escapes character by character |
| JsonPrint.StringReadsBack | backend/src/issue_key.cpp:28-55 | for every string a JSON string parser returns it from its printed form and consumes exactly that |
| JsonPrint.ValueReadsBack | backend/src/issue_key.cpp:207-234 | every printed nested value parses to itself and leaves what follows |
| IssueKey.BuildEntry | backend/src/issue_key.cpp:207-234 | the concatenated entry is the printed member of the key's specification, optional members included |
| IssueKey.Trim | backend/src/issue_key.cpp:252-257 | the two loops compute the text without white space at both ends |
| IssueKey.TrimKeeps | backend/src/issue_key.cpp:252-257 | trimming drops white space only, and only from the two ends |
| IssueKey.TrimBothTrims | backend/src/issue_key.cpp:252-257 | no white space is left at either end |
| IssueKey.MergeEntry | backend/src/issue_key.cpp:249-287 | the merge computes the spliced and checked text, or refuses |
| JsonSplice.MembersSwap | backend/src/issue_key.cpp:276-279 | members read before the last brace read the same when it becomes a comma and more text |
| JsonSplice.MembersSpliced | backend/src/issue_key.cpp:276-279 | members ending with the text's last brace, continued by more members, read as both lists |
| IssueKeyMerge.ObjectText | backend/src/issue_key.cpp:263-274 | a trimmed text that is an object ends in its own closing brace |
| IssueKeyMerge.MergeAppends | backend/src/issue_key.cpp:249-287 | the merge succeeds if and only if the registry is empty or an object, and then holds the old members in order and the new one last; the final check never refuses |
| Markdown.Fenced | tools/check_docs_claims.py:133-145 | the one-pass fence tracker is true exactly inside a fence that opens outside all earlier ones and ends at the next mark of its kind |
| Markdown.EnterHeading | tools/check_docs_claims.py:158-162 | after popping and pushing the stack holds exactly the open headings, outermost first, with strictly growing levels |
| Markdown.MarkSections | tools/check_docs_claims.py:154-164 | a line is marked if and only if a heading that encloses it is marked |
| Markdown.MarkBlocks | tools/check_docs_claims.py:165-172 | a line is also marked if and only if its block between headings contains a mark |
| Markdown.MarkEntries | tools/check_docs_claims.py:173-181 | a line is marked if and only if its top-level list entry contains a mark |
| Markdown.DesignLines | tools/check_docs_claims.py:148-182 | the three passes over the text with fenced lines blanked agree with the meaning of the marker at every line |
| MarkdownLines.MarksIs | tools/check_docs_claims.py:59-82 | a line carries the marker when, inline code aside, it is a heading with the words or its content opens with the bold marker, at once or after a status prefix |
| MarkdownLines.HeadingIs | tools/check_docs_claims.py:158 | a heading of level n is n hashes, one to six, and white space |
| MarkdownLines.FenceIs | tools/check_docs_claims.py:137 | a fence mark is white space and three backticks or three tildes |
| MarkdownLines.CodeIs | tools/check_docs_claims.py:76 | inline code goes with both of its backticks, and a last backtick alone stays |
| MarkdownLines.ContentIs | tools/check_docs_claims.py:59-81 | a line's content starts after white space and bullets, where neither is left |
| Gguf.Cursor.Take | scripts/encoder_schema_from_gguf.py:41-46 | returns the next bytes and advances, or refuses and stays |
| Gguf.Cursor.ReadValue | scripts/encoder_schema_from_gguf.py:57-67 | the recursive reader computes the value of any type, nested arrays included, and ends on what is left |
| Gguf.Metadata | scripts/encoder_schema_from_gguf.py:70-92 | the header checks and the pair loop compute the block's dictionary or its error |
| GgufRoundTrip.ValueReadsBack | scripts/encoder_schema_from_gguf.py:57-67 | every well-formed nested value reads back from its encoding |
| GgufRoundTrip.BlockReadsBack | scripts/encoder_schema_from_gguf.py:70-92 | every metadata block reads back whole, whatever follows it |
| GgufRoundTrip.DictOfLast | scripts/encoder_schema_from_gguf.py:88-92 | a repeated key keeps its last value |
| GgufRoundTrip.BlockPrefix | scripts/encoder_schema_from_gguf.py:70-92 | a block that reads, cut anywhere inside, is refused as truncated, and cut after it reads the same |
| GgufRoundTrip.NeverPartial | scripts/encoder_schema_from_gguf.py:70-92 | for every read limit the reader returns all of the metadata or raises |
| GgufFormat.BlockWritten | scripts/encoder_schema_from_gguf.py:70-92 | a block that is read is the encoding of some pairs, and the dictionary is theirs: nothing else is accepted |
| GgufFormat.ValueWritten | scripts/encoder_schema_from_gguf.py:57-67 | a value that is read is well-formed, has the type asked for, and its encoding is exactly what was read |
| GgufFormat.HeaderDecides | scripts/encoder_schema_from_gguf.py:80-86 | which starts of a file are refused as another format, another version or truncated |
| Descriptor.DescriptorServices | scripts/check_envoy_services.py:54-73 | the line loop with its stack computes the service set or raises on a brace too many or a missing quote |
| Descriptor.PrintedServicesRead | scripts/check_envoy_services.py:54-73 | for every printed tree of files, messages, enums, services and methods the reader returns exactly the package-qualified services |
| Descriptor.FileBody | scripts/check_envoy_services.py:60-73 | a file contributes its last package and the names directly in its services, and nothing nested deeper |
| DescriptorPrint.QuotedText | scripts/check_envoy_services.py:69-72 | reading between the quotes undoes the printing of a text field without quotes |
| DescriptorPrint.ServicesReadBack | scripts/check_envoy_services.py:54-73 | for every set of typed files with packages, nested messages, enums, services and methods, the reader returns from the printed text exactly the names `package.service` (`service` without a package), for quote-free packages and service names |
| Golden.ComputeDigest | backend/src/decode_golden_probe.cpp:99-108 | the nested loops compute the digest of the tokens' bytes |
| Golden.BytesAre | backend/src/decode_golden_probe.cpp:101-104 | a token id enters the digest as its four bytes, lowest first |
| Golden.MixInjective | backend/src/decode_golden_probe.cpp:103-104 | one step separates different words and different bytes modulo 2^64 |
| Golden.FoldSeparates | backend/src/decode_golden_probe.cpp:99-108 | equal bytes after a difference never make it vanish |
| Golden.DigestSensitive | backend/src/decode_golden_probe.cpp:99-108 | equally long token sequences that differ in exactly one byte never share a digest |
| GoldenFile.WriteGolden | backend/src/decode_golden_probe.cpp:127-137 | one line a run: index, length, digest, ids |
| GoldenFile.ReadGolden | backend/src/decode_golden_probe.cpp:139-157 | the line and extraction loops compute the runs of any text, passing over lines without a header |
| GoldenFile.RunsReadBack | backend/src/decode_golden_probe.cpp:127-157 | reading a written file gives back every run in order |

## Left out

- Networks, losses, tokenizers, timing, process, file and command-line code: floating point over libraries, or effects.
- The usage shares of the first pass: every theorem takes them as an arbitrary table, so nothing proved depends on how they were learned.
- ProvisionalSchema.SplitClasses: the order of a field's classes and of the operations is left open; the source sorts them.
- The magnitude bucket and the tie flag of a labelled row: nothing in the round trip reads them.
- The role strings and their parser: roles are a datatype, and the names are distinct.
- The word classes of the analysis scripts, the legacy lexer and the extractability counts: they feed no label.
- Label settings other than the real question text: they change the rendered question only.
- TrainingRows.BuildSchema: the usage shares are an input, as above.
- ProvisionalSchema.BuildProvisional: the usage shares are an input and the order of classes is left open, as above.
- ProvisionalSchema.MergeAll: the order of the operations, which the source sorts, is left open; ids only need them distinct.
- SchemaBuilder.Modal: of several most used classes the source takes the first one seen; the contract allows any of them.
- SchemaBuilder.LearnPairs: the order of the vocabulary and the choice among equally used classes are left open.
- Parity.Stats.ValueEq: a string that holds a JSON array is not unwrapped into a list, because the JSON values it would hold are floating-point texts.
- The C++ port of the decoder: only the arithmetic the comparison states is modelled.
- KvSimulation.Simulate: values and accumulators are real numbers, so rounding of floats is not captured; the first value of a channel starts its minimum and maximum instead of the infinities. The persistence and asymmetry statistics are left out.
- KvSimulation.AddAffine: like AddSym below, it takes its own pass over the block.
- KvSimulation.AddSym: takes its own pass over the block, so the interleaving with the affine accumulator is not captured; the two never share state.
- Splice.Rebuild: the re-lexing of the rewritten text and the redraw of labels are not modelled; the choice of the new digits is an arbitrary input.
- Lexer.Lex: a scale word multiplies by shifting the exponent, which equals the source's product as a number; the word lists and cadence words of other scripts are not part of it.
- Base64.DecodeStops: the decoder is the Python library's lenient one; its strict mode is not modelled.
- GrpcWeb.FinanceBody: removal of white space before splitting, and decoding trailers as text, are left out.
- GrpcWeb.WalkFrames: trailers stay bytes; their decoding to text is left out.
- Protobuf.Fields: doubles and floats are kept as their bytes.
- Protobuf.FieldReadsBack: a double is its eight bytes; its numeric value is not modelled.
- Protobuf.FieldsReadBack: doubles are their eight bytes; their numeric value is not modelled. Negative numbers, on which the writer does not end, cannot be written.
- JSON: a code unit escape stands for its own UTF-8 bytes, without pairing surrogates; the library parser of the source is taken to accept what RFC 8259 describes.
- IssueKey.BuildEntry: the compute-unit limit is a whole number; the decimal rendering of other doubles is not modelled. Argument parsing, key generation and hashing are left out.
- Gguf.Cursor.ReadValue: fixed-size numbers and strings stay bytes.
- Gguf.Metadata: fixed-size numbers are kept as their bytes, strings as bytes; Python's recursion limit is not modelled.
- GoldenFile.ReadGolden: signs in front of numbers, which a written file never has, are not read.
- DescriptorPrint.ServicesReadBack: field numbers, labels and options are not part of the typed descriptor; `Descriptor.PrintedServicesRead` covers any such lines.
- Descriptor.DescriptorServices: the text is a list of lines; running the compiler that prints it and the comparison with the proxy's configuration are left out.
- Markdown: the checker's citations, git calls and reports are left out; only the marking of lines is modelled.
- The verifier of parameters in the serving agent: its votes come from a module that is not part of this model.
