# doc2Pdf2 placeholder resolution and batch generation, in Dafny

This project models the core of `DocTemplateService` from doc2Pdf2. That service fills `[@KEY]` placeholders in a DOCX template with values from a metadata map and exports the result as a PDF under `pdfs/`. It can also do this for many templates at once, on a thread pool. The model covers five parts:

- **Substitution** (`substitution.dfy`): `replaceAllPlaceholders`, one literal `String.replace` per metadata entry, in the map's iteration order.
- **Resolution** (`resolver.dfy`): `replacePlaceholders` as an in-place algorithm over an array of `w:t` text nodes. Each node carries its value (possibly null) and the identity of its enclosing paragraph (possibly none).
  - The grouping pass builds the paragraph-to-nodes lists in first-appearance order, and it resolves nodes without a paragraph on the spot.
  - Each paragraph's combined text is then substituted and written back: the first node receives the whole text and the others are emptied.
  - The method is proved against a specification that does not mention the grouping. That specification works from each paragraph's text and from whether a node is the first of its paragraph.
- **Exceptions** (`exceptions.dfy`): the throwables the code creates, wraps and aggregates, as values (class, message, cause, suppressed). It also includes the decimal rendering of the task number used in "Unexpected error in task #k".
- **Generation** (`generation.dfy`): `generatePdf`. It covers the blank-argument checks (Java's `trim()`), the `.pdf` normalisation, the classpath lookup with its fallback, the null-metadata fallback and the wrapping of failures. The steps the code cannot compute itself are an `Environment` value: loading, font discovery, the XPath query, creating the directory and the export.
- **Batch** (`batch.dfy`): `generatePdfParallel`. It covers the argument checks, the pool size, the task's catch block, collection in input order (including an interrupted wait), and the aggregation of failures.

Where the system's specification and its code disagree, the model follows the code:

- **Later keys re-scan earlier values.** Substitution is non-recursive within one key, but a later key re-scans the values inserted for earlier keys. The outcome therefore depends on the map's iteration order. `Substitution.CrossKeyExpansion` shows both orders.
- **Null values are allowed.** A null metadata value is accepted and replaces its token with "".
- **Only wrapped failures carry an index.** Only a failure the task wraps ("Unexpected error in task #k") names its item. An `IOException`, a `FileNotFoundException` or a `Docx4JException` reaches the aggregate unwrapped, with no index. `Batch.MissingTemplateBatch` shows this.
- **A Docx4JException hides the other failures.** When any item fails with a `Docx4JException`, the first such exception is thrown by itself and every other failure is dropped (`Batch.Docx4JHidesOtherFailures`).

## Model

| member | source | states |
|---|---|---|
| Substitution.Token | src/main/java/com/mak/service/DocTemplateService.java:211 | the token is `[@`, the key, `]`: three characters longer than the key, with the key between the delimiters |
| Substitution.ReplaceAll | src/main/java/com/mak/service/DocTemplateService.java:214 | `String.replace` as a left-to-right scan for non-overlapping occurrences; it has no contract of its own, and the ReplaceAll lemmas below pin it down |
| Substitution.ReplaceAllLeftmost | src/main/java/com/mak/service/DocTemplateService.java:214 | `replace` keeps everything before the leftmost occurrence, puts the value in its place and continues after the occurrence |
| Substitution.ReplaceAllAbsent | src/main/java/com/mak/service/DocTemplateService.java:214 | text without the token is returned unchanged |
| Substitution.ReplaceAllTokenFirst | src/main/java/com/mak/service/DocTemplateService.java:214 | text starting with the token gets the value in front, followed by the replaced rest |
| Substitution.ReplaceAllPlainPrefix | src/main/java/com/mak/service/DocTemplateService.java:214 | a prefix without the token's first character is copied unchanged |
| Substitution.ReplaceAllBySelf | src/main/java/com/mak/service/DocTemplateService.java:214 | replacing a token by itself changes nothing |
| Substitution.ReplaceAllLength | src/main/java/com/mak/service/DocTemplateService.java:214 | the result's length grows by (value length - token length) per non-overlapping occurrence |
| Substitution.ReplaceAllUnchangedIff | src/main/java/com/mak/service/DocTemplateService.java:214 | `replace` leaves the text unchanged exactly when the token does not occur or the value equals the token |
| Substitution.ReplaceAllChanges | src/main/java/com/mak/service/DocTemplateService.java:214 | an occurring token with a different value always changes the text |
| Substitution.ValueNotRescanned | src/main/java/com/mak/service/DocTemplateService.java:214 | a key's step does not rescan its own output: a value containing the token is inserted once, literally |
| Substitution.ReplaceAllPlaceholders | src/main/java/com/mak/service/DocTemplateService.java:207-217 | the loop's result is the fold of one replacement per entry, in entry order, with a null value replaced by "" |
| Substitution.SubstituteAllWithoutTokens | src/main/java/com/mak/service/DocTemplateService.java:207-217 | text containing no entry's token is returned unchanged |
| Substitution.SubstituteAllEmptyMetadata | src/main/java/com/mak/service/DocTemplateService.java:207-217 | empty metadata leaves the text unchanged |
| Substitution.SubstituteAllEmptyText | src/main/java/com/mak/service/DocTemplateService.java:207-217 | the empty text stays empty |
| Substitution.CrossKeyExpansion | src/main/java/com/mak/service/DocTemplateService.java:209-214 | a value holding another key's token is expanded when that key comes later, and kept literally when it comes earlier |
| Substitution.GreetingExample | src/main/java/com/mak/service/DocTemplateService.java:207-217 | "Dear [@NAME]" becomes "Dear Ada", and "Dear " for a null value |
| Resolver.GroupUpTo | src/main/java/com/mak/service/DocTemplateService.java:142 | the `paraToTexts` list of one paragraph after a prefix of the nodes; it has no contract of its own, and GroupUpToIndices, GroupHeadIsFirst and GroupUpToAbsent characterise it |
| Resolver.GroupUpToIndices | src/main/java/com/mak/service/DocTemplateService.java:126-144 | a paragraph's list holds exactly the indices of its nodes, each once, in document order |
| Resolver.CombinedGroupIsParagraphText | src/main/java/com/mak/service/DocTemplateService.java:151-156 | the StringBuilder loop over a paragraph's list yields the paragraph's text, skipping null values |
| Resolver.GroupHeadIsFirst | src/main/java/com/mak/service/DocTemplateService.java:162-169 | the head of a paragraph's list is exactly the node of that paragraph with no earlier node of it |
| Resolver.GroupUpToAbsent | src/main/java/com/mak/service/DocTemplateService.java:142 | a paragraph not met yet has no list entries |
| Resolver.CombineTexts | src/main/java/com/mak/service/DocTemplateService.java:151-156 | the combined string is the concatenation of the listed nodes' non-null values, in list order |
| Resolver.WriteBack | src/main/java/com/mak/service/DocTemplateService.java:160-171 | the first listed node receives the replaced text, later listed nodes get "", and no other node changes |
| Resolver.ResolveGroup | src/main/java/com/mak/service/DocTemplateService.java:147-171 | after one paragraph's iteration, its nodes hold what the specification prescribes and other nodes are unchanged |
| Resolver.ResolveOrphan | src/main/java/com/mak/service/DocTemplateService.java:131-140 | a node without a paragraph has its own value substituted and written back only if non-null, non-empty and changed |
| Resolver.AddToGroup | src/main/java/com/mak/service/DocTemplateService.java:142 | `computeIfAbsent(...).add(i)` keeps the grouping invariant: a new paragraph goes to the end of the key order, and node i joins its paragraph's list |
| Resolver.CollectGroups | src/main/java/com/mak/service/DocTemplateService.java:121-144 | after the first loop, orphans are resolved and other nodes are untouched. `order` holds exactly the paragraphs that occur, in order of their first node (the LinkedHashMap's key order), and each maps to its complete list of nodes |
| Resolver.ReplacePlaceholders | src/main/java/com/mak/service/DocTemplateService.java:118-176 | the array after the call is the resolution of the array before it |
| Resolver.Resolve | src/main/java/com/mak/service/DocTemplateService.java:118-176 | resolution keeps every node and its paragraph |
| Resolver.ParagraphTextResolved | src/main/java/com/mak/service/DocTemplateService.java:146-171 | each paragraph's text after resolution is the substitution of its text before, so a token split across runs is replaced |
| Resolver.ParagraphWriteBack | src/main/java/com/mak/service/DocTemplateService.java:157-171 | a rewritten paragraph's first node holds the whole substituted text and its later nodes hold ""; an unchanged paragraph is left as it was |
| Resolver.OrphanResolved | src/main/java/com/mak/service/DocTemplateService.java:131-140 | a node without a paragraph ends up holding the substitution of its own value, and a null value stays null |
| Resolver.ResolveTokenFree | src/main/java/com/mak/service/DocTemplateService.java:131-171 | with no token in any paragraph text or orphan value, resolution changes nothing |
| Resolver.ResolveEmptyMetadata | src/main/java/com/mak/service/DocTemplateService.java:91-93 | with empty metadata, the fallback for a null map, resolution changes nothing |
| Resolver.SplitPlaceholderExample | src/main/java/com/mak/service/DocTemplateService.java:146-171 | runs "[@NA" and "ME]" of one paragraph become "Ada" and "" |
| Exceptions.DecimalString | src/main/java/com/mak/service/DocTemplateService.java:287 | the task number is rendered as decimal digits without leading zeros |
| Exceptions.DecimalRoundTrip | src/main/java/com/mak/service/DocTemplateService.java:287 | reading the rendered digits back gives the number |
| Exceptions.DecimalStringInjective | src/main/java/com/mak/service/DocTemplateService.java:287 | different task numbers are rendered differently |
| Generation.TrimStart | src/main/java/com/mak/service/DocTemplateService.java:55 | `trim` drops exactly the leading characters <= ' ' |
| Generation.TrimEnd | src/main/java/com/mak/service/DocTemplateService.java:55 | `trim` drops exactly the trailing characters <= ' ' |
| Generation.TrimEmptyIff | src/main/java/com/mak/service/DocTemplateService.java:55-60 | `trim().isEmpty()` holds exactly when every character is <= ' ' |
| Generation.NormalizeOutputName | src/main/java/com/mak/service/DocTemplateService.java:63 | the normalised output name ends with ".pdf" |
| Generation.NormalizeIdentityIff | src/main/java/com/mak/service/DocTemplateService.java:63 | normalisation leaves a name unchanged exactly when it already ends with ".pdf" |
| Generation.NormalizeIdempotent | src/main/java/com/mak/service/DocTemplateService.java:63 | normalising twice is normalising once |
| Generation.NormalizeUpperCaseExtension | src/main/java/com/mak/service/DocTemplateService.java:63 | the check is case-sensitive: "report.PDF" becomes "report.PDF.pdf" |
| Generation.OutputPath | src/main/java/com/mak/service/DocTemplateService.java:102 | a relative name is placed under "pdfs/" |
| Generation.OutputPathKeepsExtension | src/main/java/com/mak/service/DocTemplateService.java:102 | the output path keeps the name's ".pdf" ending |
| Generation.GetResource | src/main/java/com/mak/service/DocTemplateService.java:219-228 | `Class.getResource`: a leading '/' means a root path, any other name is prefixed with the service's package; it has no contract of its own, and LookupPlainName and LookupAbsoluteName characterise it |
| Generation.LookupTemplate | src/main/java/com/mak/service/DocTemplateService.java:219-228 | `getResourceAsStream` tries the name as an absolute resource, then as given; it has no contract of its own, and LookupPlainName and LookupAbsoluteName characterise it |
| Generation.LookupPlainName | src/main/java/com/mak/service/DocTemplateService.java:219-228 | a plain template name is looked up at the classpath root, then inside the service's package |
| Generation.LookupAbsoluteName | src/main/java/com/mak/service/DocTemplateService.java:219-228 | a name with a leading '/' is looked up at the classpath root only |
| Generation.ReplaceFailure | src/main/java/com/mak/service/DocTemplateService.java:173-175 | an exception during resolution becomes a Docx4JException with it as cause; an Error passes through |
| Generation.ExportFailure | src/main/java/com/mak/service/DocTemplateService.java:106-111 | a missing exporter class becomes a Docx4JException with a hint and the error as cause; other failures pass through |
| Generation.GeneratePdf | src/main/java/com/mak/service/DocTemplateService.java:54-115 | the method's result is the generation outcome: the checks and steps in source order, then the artifact |
| Generation.RequestError | src/main/java/com/mak/service/DocTemplateService.java:55-60 | the checks pass exactly when neither name is null or blank; otherwise the error is an IllegalArgumentException without a cause |
| Generation.BlankTemplateRejected | src/main/java/com/mak/service/DocTemplateService.java:55-57 | a null or blank template name fails first, with "templateFileName must not be empty" |
| Generation.BlankOutputRejected | src/main/java/com/mak/service/DocTemplateService.java:58-60 | a null or blank output name fails next, with "outputName must not be empty" |
| Generation.MissingTemplateReported | src/main/java/com/mak/service/DocTemplateService.java:67-70 | a template missing from the classpath fails with a FileNotFoundException naming it |
| Generation.GenerationSucceedsIff | src/main/java/com/mak/service/DocTemplateService.java:54-115 | generation succeeds exactly when the names are non-blank, the template loads and no later step fails; the PDF path ends in ".pdf" and holds the resolved template |
| Generation.NullMetadataIsEmpty | src/main/java/com/mak/service/DocTemplateService.java:91 | a null metadata map behaves as an empty one and leaves the document as loaded |
| Generation.FontSetupIgnored | src/main/java/com/mak/service/DocTemplateService.java:76-86 | a failure of font discovery never changes the outcome |
| Generation.JunitOutputPath | src/test/java/com/mak/service/DocTemplateServiceTest.java:34-39 | the unit test's output "junit-output" becomes "pdfs/junit-output.pdf" |
| Batch.ArgumentError | src/main/java/com/mak/service/DocTemplateService.java:243-257 | the five argument checks in source order; it has no contract of its own, and ArgumentsAcceptedIff characterises it |
| Batch.ArgumentsAcceptedIff | src/main/java/com/mak/service/DocTemplateService.java:243-257 | the arguments pass exactly when all three lists are present, non-empty and of equal size; otherwise an IllegalArgumentException is thrown |
| Batch.PoolSize | src/main/java/com/mak/service/DocTemplateService.java:260 | the pool has between 1 and n threads, and no more than the available processors when there is at least one |
| Batch.WrapTaskError | src/main/java/com/mak/service/DocTemplateService.java:283-287 | IOException and Docx4JException failures are rethrown as they are; any other becomes an IOException with it as cause |
| Batch.WrappedErrorNamesTask | src/main/java/com/mak/service/DocTemplateService.java:287 | a wrapped failure's message names the task's 1-based number, recoverable from its digits |
| Batch.BlankTemplateWrapped | src/main/java/com/mak/service/DocTemplateService.java:283-287 | an argument error inside a task reaches the caller wrapped, naming the task |
| Batch.MissingTemplateUnwrapped | src/main/java/com/mak/service/DocTemplateService.java:283-285 | a missing template's FileNotFoundException passes through the task unwrapped |
| Batch.RunTask | src/main/java/com/mak/service/DocTemplateService.java:276-288 | the task returns generatePdf's artifact or throws its failure, passed through or wrapped |
| Batch.RunTasks | src/main/java/com/mak/service/DocTemplateService.java:270-297 | every item's task runs, in input order, to its own outcome |
| Batch.CollectOutcomes | src/main/java/com/mak/service/DocTemplateService.java:299-312 | the collection loop puts successes in `results` and failures (or the interruption) in `failures`, each in input order |
| Batch.Rethrow | src/main/java/com/mak/service/DocTemplateService.java:314-322 | the rethrow loop throws the first Docx4JException among the failures, else the aggregate IOException |
| Batch.GeneratePdfParallel | src/main/java/com/mak/service/DocTemplateService.java:241-330 | the method's result is the batch outcome: the argument checks, then the aggregate of every item's recorded outcome |
| Batch.BatchAggregatesItems | src/main/java/com/mak/service/DocTemplateService.java:299-312 | once the arguments pass, item i's recorded outcome is task i's result, unless waiting for it was interrupted |
| Batch.FailuresMembers | src/main/java/com/mak/service/DocTemplateService.java:306-310 | the failures list holds exactly the items' failures |
| Batch.FailuresInIndexOrder | src/main/java/com/mak/service/DocTemplateService.java:299-312 | an earlier item's failure is recorded before a later item's |
| Batch.NoFailuresIff | src/main/java/com/mak/service/DocTemplateService.java:314 | the failures list is empty exactly when every item succeeded |
| Batch.SuccessesInOrder | src/main/java/com/mak/service/DocTemplateService.java:299-305 | when every item succeeded, the results are the items' artifacts, one per item, in input order |
| Batch.Aggregate | src/main/java/com/mak/service/DocTemplateService.java:314-322 | the result of the batch from the recorded outcomes: the artifacts, the first Docx4JException, or the aggregate IOException; it has no contract of its own, and AggregateSucceedsIff, Docx4JRethrown and FailuresAggregated characterise it |
| Batch.FirstDocx4J | src/main/java/com/mak/service/DocTemplateService.java:317-320 | the first Docx4JException among the failures; it has no contract of its own, and FirstDocx4JAt and FirstDocx4JNone characterise it |
| Batch.FirstDocx4JAt | src/main/java/com/mak/service/DocTemplateService.java:317-320 | when the failure at j is the first Docx4JException, the rethrow loop finds exactly that one |
| Batch.FirstDocx4JNone | src/main/java/com/mak/service/DocTemplateService.java:317-320 | without any Docx4JException among the failures, the rethrow loop finds nothing |
| Batch.AggregateSucceedsIff | src/main/java/com/mak/service/DocTemplateService.java:314-325 | the batch returns normally exactly when every item succeeded, with results aligned to the inputs |
| Batch.Docx4JRethrown | src/main/java/com/mak/service/DocTemplateService.java:317-320 | when an item fails with a Docx4JException, the one of the lowest-numbered such item is thrown by itself |
| Batch.FailuresAggregated | src/main/java/com/mak/service/DocTemplateService.java:314-321 | otherwise an IOException "One or more PDF generation tasks failed" is thrown, whose suppressed list is the failures list, holding exactly the items' failures |
| Batch.Docx4JHidesOtherFailures | src/main/java/com/mak/service/DocTemplateService.java:314-321 | a Docx4JException hides another item's IOException entirely |
| Batch.MissingTemplateBatch | src/main/java/com/mak/service/DocTemplateService.java:299-321 | a one-item batch with a missing template throws the aggregate, carrying the unwrapped FileNotFoundException and no item index |

## Left out

- **Document model.** Loading the DOCX (`WordprocessingMLPackage.load`), the XPath query for `w:t` nodes and `XmlUtils.unwrap` are not modelled. The document is given as its list of text nodes, and a failure of loading or of the query is an input.
- **Paragraph lookup.** The reflective parent walk (`getParagraphAncestor`) is replaced by an explicit paragraph identity on each node. Its silent failure is the node without a paragraph.
- **Export and file system.** Font discovery, directory creation, opening the output stream and `Docx4J.toPDF` are environment outcomes. No bytes are written. Closing the template stream, and an exception from that close, are not modelled.
- **Resources.** `Class.getResource` is a map from resource paths to load outcomes. Class-loader delegation and URL handling are not modelled.
- **Paths.** They are strings with POSIX separators; `Path.resolve` normalisation beyond "an absolute name replaces the directory" is not modelled.
- **Threads.** Scheduling, thread naming (`pdf-worker-k`) and `shutdownNow` are not modelled. Worker threads are created as daemon threads (`setDaemon(true)`), which the model does not capture either. `Batch.PoolSize` computes the pool size, but the model runs the tasks one after another. Whether each `Future.get` was interrupted is an input per item. Among other things, that input stands for the restored interrupt flag, which makes later waits on tasks not yet finished fail at once.
- **`ExecutionException` without a cause.** Only the thrown cause is recorded. A task always throws a non-null throwable, so the `ee` fallback cannot occur.
- **Null metadata keys.** A null key, whose token Java would spell `[@null]`, is not modelled; keys are strings.
- **Character model.** Strings are sequences of Dafny characters (Unicode scalar values), not UTF-16 code units. `trim()`'s test "character <= ' '" is applied per character.
- **Logging.** Calls to the logger are left out, as is `Main.java`.
