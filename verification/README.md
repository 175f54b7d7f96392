# Leptris: a verified model of the tree printers, the collation tables and the command line

Leptris is an XML library with a command line tool. This project models the parts of it
that carry state, escaping, indexing or arithmetic, and proves what they keep and what
they lose. Procedures that write to a stream, fill a buffer or update a structure are
methods over a class or an array; each is proved equal to a function of its inputs, and
the main results are lemmas about those functions.

- **Tree printers** (`DocumentTree`, `XmlPrinter`, `JsonPrinter`, `JsonNodeset`,
  `TextPrinter`). Three printers of one mixed-content tree. For XML and JSON there is an
  independent reader (`XmlReader`, after XML 1.0 Fifth Edition sections 2.3, 2.4, 2.5,
  2.6, 2.7, 3.1 and 4.6; `JsonReader`, after RFC 8259), and reading what was printed gives
  the tree back up to a normal form that is defined on the tree alone (`XmlShown`,
  `XmlStartTag`, `XmlRoundTrip`, `XmlExact`, `XmlMeaning`). What is read is also stated
  on the element itself, attribute by attribute and child by child (`XmlContents`,
  `JsonShown`), and the layout of the text on its lines (`XmlLayout`, `TextLines`,
  `Spelling`).
- **Collation tables** (`DucetTable`, `DucetLookup`, `DucetRefinement`, `EmitArray`,
  `CollationScan`, `CollationRefinement`, `Sorting`). The generator turns a map from
  code-point sequences to collation elements into flat arrays with offsets; looking them
  up by binary search gives exactly the entries, the emitted C source reads back, and the
  scan that uses the tables is compared with longest matching.
- **Statistics** (`Statistics`, `Ranks`). Percentiles, mean and variance over the real
  numbers, as two benchmark programs compute them.
- **Command line** (`GlobalOptions`, `TokenGrammar`, `ParseCommand`, `FormatCommand`,
  `XPathCommand`, `OptionForms`, `CommandLine`, `HandOver`, `Registry`, `StreamReaders`,
  `BoundedEscape`). In-place filtering of argv, the option parsers against one token
  grammar and on the arguments as written, what a command receives, the growing command
  array, three growing readers of a stream, and an escaper into a bounded buffer.
- **XML declaration** (`Declaration`, `DeclarationRuns`). Owned strings on an explicit heap, allocation that
  may fail, and arguments that alias the string they replace.

`Common` holds optional values, the output stream and the per-character escaper, and
`Filtering` what it means that a sequence lists certain elements of another in order.

## Results that differ from the design

Each of these is a fact about the code as it stands; the lemma says for which inputs the
intended behaviour holds.

- A namespace that is declared where it is used is printed twice, so no document with such
  an element at any depth is read back as what it shows
  (`XmlExact.NamespaceNeverReadsBack`; the smallest case is `XmlExact.NamespaceExample`).
  `XmlExact.PrintedElementReadsExactly` says for every element when it is read back.
- Pretty printing disturbs mixed content: the newline after an element joins the text
  that follows it. `XmlMeaning.PrettyKeepsMeaning` gives the exact condition.
- The JSON escaper passes control characters without a short escape through raw, so
  RFC 8259 section 7 holds exactly for values without them (`JsonPrinter.JsonRoundTrip`;
  `JsonPrinter.RawControlCharacter` is a concrete case).
- The table generator stores offsets in 16 bits and counts in 8 bits without checking;
  `DucetRefinement.SinglesRefined` and `DucetRefinement.ContractionsRefined` say exactly
  which inputs survive, whatever the size of the pool; `DucetRefinement.FullPlaneOverflows`
  and `DucetRefinement.LongPairOverflows` are inputs that do not.
- The implicit weights of neighbouring code points are meant to differ, but the sum is cut
  at 0xFFFF; `CollationScan.ImplicitOrdered` says exactly when neighbours stay apart, and
  `CollationScan.ImplicitCollisions` gives pairs that do not.
- After a two-code-point contraction the scan moves on by three code points, and it does
  not look for one at the end of the string. `CollationScan.ScanIsLongestMatch` says that
  it agrees with longest matching exactly when no such contraction occurs.
- The help text (`cli/main.c:37`) promises `leptris COMMAND --help`; the global pass takes
  every help argument away first, so `CommandLine.HelpNeverReachesCommands` holds instead.
- The program takes its own options away before a command sees its arguments, also from
  between an option and its value (`HandOver.ColorBehindFormat`); where that does not
  happen, the file of the parse command is the operand of the whole line
  (`HandOver.ParsedFile`).

## Model

| member | source | states |
|---|---|---|
| XmlPrinter.WriteIndent | cli/output.c:67-71 | appends exactly `level * indent` spaces, none when the product is not positive |
| XmlPrinter.WriteEscaped | cli/output.c:100-109 | the character loop appends the escape of every character in order |
| XmlPrinter.WriteAttributes | cli/output.c:91-113 | appends the named attributes, skipping NULL and empty names, absent values as empty |
| XmlPrinter.WriteXmlns | cli/output.c:115-124 | appends one namespace declaration, its URI unescaped |
| XmlPrinter.WriteDecls | cli/output.c:126-136 | appends every stored declaration in order |
| XmlPrinter.IsWhitespaceOnly | cli/output.c:175-185 | the cursor scan of a compact text child decides exactly whether all of it is white space |
| XmlPrinter.WriteLeaf | cli/output.c:169-231 | text, CDATA, comment and processing instruction as specified, nothing for the other kinds |
| XmlPrinter.WriteChildren | cli/output.c:160-237 | the sibling loop appends the specified text of every child at the next level |
| XmlPrinter.WriteBody | cli/output.c:138-245 | empty-element form without children; otherwise the content with its opening newline and closing indentation |
| XmlPrinter.WriteElement | cli/output.c:73-246 | the procedure appends exactly the text that the printing function gives, and touches nothing else |
| XmlLayout.PrettyFrame | cli/output.c:81-88 | pretty output of any element at any level starts with exactly `level * indent` spaces and its start tag, and ends with a tag and one newline |
| XmlLayout.ClosingTagLine | cli/output.c:238-245 | the closing tag is indented by that width exactly if the first child is an element, on a line of its own if the last one is |
| XmlLayout.InlineContent | cli/output.c:156-159 | content that does not start with an element stays on the line of its tags, with no layout inside |
| XmlLayout.PrettyLines | cli/output.c:73-246 | pretty output of a tree of elements has one line for each start, end and empty tag in document order, each indented by the indent times its depth |
| XmlContents.NormalShows | cli/output.c:86-231 | the normal form, on the element itself: its name; every attribute with a non-empty name in order, then the namespace, then the declarations; the content letter by letter and child by child |
| XmlContents.CompactContents | cli/output.c:73-246 | the same of what the compact output of a legal element reads as |
| Spelling.AttributeSpelling | cli/output.c:101-108 | no angle bracket and no quotation mark stands in a printed attribute value |
| Spelling.TextSpelling | cli/output.c:188-193 | no angle bracket stands in printed text |
| Spelling.PlainText | cli/output.c:188-193 | text without angle brackets and ampersands is printed as it is |
| Spelling.XmlSample | cli/output.c:88-111 | the exact compact output of an element with one attribute |
| XmlRoundTrip.PrintedElementReads | cli/output.c:73-246 | every legal element, compact or pretty at any indentation, namespaces included, reads back as what the printer meant to show |
| XmlExact.PrintedElementReadsExactly | cli/output.c:73-246 | for every element, compact or pretty, with or without namespaces: it reads back as what it shows if and only if it is legal, down to the URIs that the printer does not escape |
| XmlRoundTrip.DuplicateNamesUnreadable | cli/output.c:91-136 | the output of a top element with legal names and URIs, but two attributes of one name, is rejected by the reference reader |
| XmlRoundTrip.NamespaceDeclaredInPlace | cli/output.c:115-136 | a top element with legal names and URIs whose own namespace is among its declarations prints text that cannot be read at all |
| XmlExact.NamespaceNeverReadsBack | cli/output.c:115-136 | an element anywhere in the tree whose own namespace is among its declarations keeps the document from reading back, whatever names, URIs and indentation are |
| XmlExact.NamespaceExample | cli/output.c:115-136 | the element `<a xmlns="u"/>` is printed with two equal attributes, and that text is rejected |
| XmlExact.RawValueShrinks | cli/output.c:118-136 | a URI printed as it is never reads as something longer, and as something of its own length only if no character needed escaping |
| XmlMeaning.CompactShowsNormal | cli/output.c:165-199 | compact output shows the tree with white-space-only text dropped and then adjacent text joined |
| XmlMeaning.CompactRoundTrip | cli/output.c:73-246 | reading compact output gives that normal form for exactly the legal elements, with or without namespaces |
| XmlMeaning.CompactInjective | cli/output.c:73-246 | legal elements with equal compact output have equal normal forms |
| XmlMeaning.PrettyElementExact | cli/output.c:82-84 | at every level, dropping white-space-only text from pretty output gives the normal form exactly for undisturbed elements |
| XmlMeaning.PrettyKeepsMeaning | cli/output.c:157-168 | reading pretty output and dropping white-space-only text agrees with compact output if and only if no layout touches real text |
| XmlMeaning.PrettyKeepsData | cli/output.c:239-245 | elements that hold one text or no text keep their meaning at every indentation |
| XmlMeaning.PrettyDisturbsMixedContent | cli/output.c:239-245 | real text behind an empty element never survives pretty printing, at any indentation |
| JsonReader.ReadRendered | cli/output.c:412-493 | rendered JSON reads back exactly, with anything behind it; the strict reader fails exactly on raw control characters |
| JsonPrinter.WriteEscapedString | cli/output.c:412-426 | the cursor loop appends the escape of every character |
| JsonPrinter.WriteAttributeMembers | cli/output.c:444-467 | the `first_attr` flag puts commas exactly between the members that are printed |
| JsonPrinter.WriteChildItems | cli/output.c:477-490 | the `first` flag puts commas exactly between element children, other children are skipped |
| JsonPrinter.WriteJsonElement | cli/output.c:428-493 | the procedure appends the rendering of the encoded summary of the element |
| JsonPrinter.RawControlCharacter | cli/output.c:412-426 | a text with the control character 1 is printed raw: a strict reader rejects the output, a lenient one gets it back |
| JsonNodeset.WriteNodeset | cli/output.c:524-573 | every node set is written as its results between commas and brackets, a result without an element as nothing |
| JsonPrinter.JsonRoundTrip | cli/output.c:428-493 | reading the output gives the summary back; it is strict JSON exactly without raw control characters |
| JsonPrinter.JsonInjective | cli/output.c:428-493 | two elements print alike if and only if names, named attributes in order, presence of the lists, text and element children agree recursively |
| JsonShown.JsonShowsElement | cli/output.c:428-493 | on the element itself: the output reads as an object with its name first, its text exactly if it is not empty, and no member that is not called for |
| JsonShown.JsonShowsAttributes | cli/output.c:443-467 | the attributes are there exactly if the element has an attribute list, one member in order for every attribute with a non-empty name |
| JsonShown.JsonShowsChildren | cli/output.c:477-490 | the children are there exactly if the element has any, one item in order for every element child, which is what that child's own output reads as |
| JsonShown.NodesetItems | cli/output.c:533-572 | the k-th item of a printed node set is the attribute, text, element or null that the k-th result is |
| Spelling.JsonSpelling | cli/output.c:412-426 | which characters are escaped, and which control characters stay raw |
| Spelling.JsonSample | cli/output.c:434-441 | the exact output of an element with a text, without any white space |
| JsonNodeset.NodesetRoundTrip | cli/output.c:524-573 | when every result is printed, a lenient reader gets the array of the results back and a strict one does exactly without raw control characters; a NULL element, which the library does not report as an element, would leave an empty array if alone and unreadable text otherwise |
| TextPrinter.WriteText | cli/output.c:597-643 | the procedure appends the specified lines of the element and its element children |
| TextPrinter.WriteAttributes | cli/output.c:613-626 | attributes are joined with separators only between them |
| TextPrinter.IndentationExact | cli/output.c:597-643 | the widths of the lines are twice the depths exactly when every label keeps to its line and starts with no space |
| TextPrinter.TextShowsDepths | cli/output.c:597-643 | the same for a whole element: line k is indented by twice the depth of the k-th element in preorder |
| TextPrinter.ForestInjective | cli/output.c:597-643 | a preorder list of depths determines the forest, whatever follows above it |
| TextPrinter.TextDeterminesShape | cli/output.c:597-643 | elements with safe labels and equal output have the same shape |
| TextLines.TextShowsElements | cli/output.c:597-643 | the k-th line is the k-th element in document order: twice its depth in spaces, its name, its attributes in order between braces, its text behind a colon |
| BoundedEscape.JsonEscape | cli/commands/diff.c:40-62 | for every size of at least one: the buffer holds the escapes of a prefix and a NUL, and nothing behind the NUL has changed |
| BoundedEscape.EscapedReads | cli/commands/diff.c:40-62 | the strict reader of the other escaper gets back every escaped string |
| BoundedEscape.TakenFits | cli/commands/diff.c:46-60 | the written escapes leave room for the NUL, and a stop means fewer than eight places are left |
| BoundedEscape.TakenAll | cli/commands/diff.c:46-60 | nothing is cut exactly when the last escape starts with eight places to go |
| BoundedEscape.BoundedEscapeMeaning | cli/commands/diff.c:40-62 | the output fits, has no control byte, decodes to a prefix of the input, and to all of it when its length plus 7 is at most the size |
| Spelling.BoundedSpelling | cli/commands/diff.c:44-58 | how long the escape of each character is |
| DucetTable.AppendCes | tools/gen_ducet_table.py:68-87 | the inner loop extends weights and variable bits by exactly one entry's elements |
| DucetTable.AppendSingles | tools/gen_ducet_table.py:68-76 | offsets and pool of the single entries, in order |
| DucetTable.AppendContractions | tools/gen_ducet_table.py:78-87 | the five contraction columns and the rest of the pool, zero standing for a missing third code point |
| DucetTable.Generate | tools/gen_ducet_table.py:63-106 | the generated arrays are those of the sorted entries, with the total of the singles as last offset |
| DucetRefinement.WeightsAt | tools/gen_ducet_table.py:73-75 | the three weights and the variable bit of each element stand at their places in the pool |
| Sorting.SortCorrect | tools/gen_ducet_table.py:65-66 | sorting orders the list and permutes it |
| Sorting.OrderedUnique | benchmarks/utils.c:83-98 | under an antisymmetric order the sorted arrangement depends only on the multiset |
| DucetLookup.LookupSingle | src/leptris/xpath/collation.c:148-161 | on increasing keys, the binary search finds the index of a present key and nothing for an absent one |
| DucetLookup.LookupContraction | src/leptris/xpath/collation.c:163-180 | the same for rows of three in lexicographic order |
| DucetLookup.ReadCes | src/leptris/xpath/collation.c:334-352 | the loop over a slice reads exactly the elements stored there |
| DucetLookup.CesOfSingle | src/leptris/xpath/collation.c:344-352 | search and slice together compute the answer of the tables |
| DucetLookup.CesOfContraction | src/leptris/xpath/collation.c:334-341 | the same for contractions |
| DucetLookup.SortedContractions | tools/gen_ducet_table.py:66 | sorted distinct keys are strictly increasing as tuples, and no entry is lost |
| DucetLookup.PoolTiled | tools/gen_ducet_table.py:68-103 | single and contraction slices follow one another without gap or overlap over the whole pool, each shows the elements of its entry, three weights to each variable bit, offsets strictly increasing |
| DucetRefinement.SinglesRefined | tools/gen_ducet_table.py:68-99 | every single code point is answered as the entries say if and only if the singles have fewer than 65536 elements |
| DucetRefinement.ContractionsRefined | tools/gen_ducet_table.py:78-104 | the rows are strictly increasing, and every pair and triple is answered as the entries say if and only if each contraction has fewer than 256 elements and the pool holds them at the offset that is left of its own in 16 bits |
| DucetRefinement.ContractionsRefinedInRange | tools/gen_ducet_table.py:78-104 | as long as the last contraction starts below 65536, if and only if no contraction has 256 elements |
| DucetRefinement.SingleAnswerAt | tools/gen_ducet_table.py:97-99 | entry by entry and for every pool size, the lookup is right exactly when the pool holds the elements between the two offsets that are left |
| DucetRefinement.SingleSurvivesInRange | tools/gen_ducet_table.py:97-99 | an entry that starts below 65536 survives exactly when it also ends there |
| DucetRefinement.TooManySingles | tools/gen_ducet_table.py:97-99 | 65536 single entries or more always make some lookup wrong, whatever they are |
| DucetRefinement.FullPlaneOverflows | tools/gen_ducet_table.py:97-99 | a concrete case: one element for each of the first 65536 code points |
| DucetRefinement.LongPairOverflows | tools/gen_ducet_table.py:104 | a concrete case: a pair with 256 elements is not answered as its entry says |
| DucetRefinement.ContractionAnswerAt | tools/gen_ducet_table.py:100-104 | entry by entry and for every pool size, the lookup is right exactly when the elements survive both cuts |
| DucetRefinement.WrappedAnswer | tools/gen_ducet_table.py:103 | a contraction 65536 elements behind another of the same length is answered with the elements of that other one |
| DucetRefinement.OffsetsFit | tools/gen_ducet_table.py:98-103 | with at most 65535 elements no offset is truncated |
| EmitArray.JoinRow | tools/gen_ducet_table.py:56-60 | commas exactly between the values of a row |
| EmitArray.EmitArr | tools/gen_ducet_table.py:56-60 | the loop writes the declaration of the array, row by row |
| EmitArray.RowsCorrect | tools/gen_ducet_table.py:56-60 | the rows hold the values in order, none is empty or too long, and only the last may be short |
| EmitArray.FormattedReads | tools/gen_ducet_table.py:97-106 | each of the three conversions reads back as a C constant of the same value |
| EmitArray.EmittedReads | tools/gen_ducet_table.py:56-60 | an emitted array reads back as its type, its name, its length and its elements |
| Spelling.NumberSpelling | tools/gen_ducet_table.py:97-104 | the three conversions on concrete numbers |
| Spelling.ArraySample | tools/gen_ducet_table.py:59 | the exact rows of a small array |
| CollationScan.ImplicitOrdered | src/leptris/xpath/collation.c:189-238 | within a group, two code points differ, and are ordered by code point, if and only if the sum for the smaller one is below 0xFFFF |
| CollationScan.ImplicitCollides | src/leptris/xpath/collation.c:208-238 | any two code points get equal elements exactly when their sums agree or both are cut |
| CollationScan.ImplicitCollisions | src/leptris/xpath/collation.c:208-238 | concrete code points that collide: neighbouring ideographs, neighbouring Tangut code points, and two pairs across groups |
| CollationScan.ImplicitElements | src/leptris/xpath/collation.c:202-238 | for a code point the tables do not know, the scan yields the weights of the implicit form, the first one as a formula in each script range |
| CollationScan.ImplicitInGroup | src/leptris/xpath/collation.c:220-238 | the same outside these ranges, within each group of 0x8000 code points |
| CollationRefinement.NoEntryIsImplicit | src/leptris/xpath/collation.c:344-358 | a code point without an entry gets such elements from the generated tables |
| CollationScan.ScanStep | src/leptris/xpath/collation.c:300-367 | one round yields the elements of the key that is found there and moves on by the specified number of code points |
| CollationScan.CesFromString | src/leptris/xpath/collation.c:283-367 | the loop yields the elements of exactly the keys that the scan sees |
| CollationScan.LongestCovers | src/leptris/xpath/collation.c:300-342 | the intended longest matching covers the string |
| CollationScan.ScanLosesOnePerPair | src/leptris/xpath/collation.c:342 | the scan loses one code point for every pair it matches, and no other |
| CollationScan.ScanIsLongestMatch | src/leptris/xpath/collation.c:308-342 | the scan takes the longest matches if and only if longest matching uses no pair |
| CollationScan.PairExamples | src/leptris/xpath/collation.c:308-342 | for every pair among the contractions: it swallows the code point behind it, and it is missed at the end of a string |
| CollationRefinement.StringRefined | src/leptris/xpath/collation.c:283-367 | for entries that fit and any string, the scan over the generated tables yields the elements that the entries give to the keys found among them, and those of the longest matches where these include no pair |
| CollationRefinement.FitsExactly | tools/gen_ducet_table.py:63-106 | every lookup in the generated tables gives what the entries say if and only if offsets and counts lose nothing |
| Statistics.Analyze | benchmarks/utils.c:74-117 | the loops compute the specified figures; zeros without samples or memory |
| Statistics.BenchContext.CalculateStatistics | benchmarks/workflows/bench_end_to_end.c:64-104 | the second implementation stores the same mean, extremes, median and variance |
| Statistics.PercentileMonotone | benchmarks/utils.c:58-72 | the interpolated percentile grows with its rank |
| Statistics.MediansAgree | benchmarks/workflows/bench_end_to_end.c:87-91 | the percentile at one half is the even/odd median, for every sorted sample list |
| Statistics.VarianceIdentity | benchmarks/utils.c:106-113 | variance is the mean of squares minus the squared mean |
| Statistics.VarianceBound | benchmarks/utils.c:106-113 | variance is at most a quarter of the squared range |
| Statistics.VarianceZero | benchmarks/utils.c:106-113 | variance is never negative, and zero exactly when all samples are equal |
| Statistics.StatsOrdered | benchmarks/utils.c:83-104 | min, median, p95 and max are ordered, the mean lies between the extremes, and these are samples |
| Statistics.VarianceMeaning | benchmarks/utils.c:91-113 | the reported variance is exact, bounded by the reported extremes, and zero exactly when they coincide |
| Statistics.StatsPermuted | benchmarks/utils.c:74-117 | the figures depend only on the multiset of samples |
| Ranks.PercentileAtRank | benchmarks/utils.c:62-71 | at a rank between two neighbours the percentile lies on the line between them, and at a whole rank it is a sample |
| Ranks.ReportedExtremes | benchmarks/utils.c:90-92 | min and max are the ends of any sorted arrangement of the samples |
| Ranks.ReportedP95 | benchmarks/utils.c:97-98 | p95 lies nineteen twentieths of the way from the first to the last sorted sample |
| Ranks.ReportedMedian | benchmarks/utils.c:94-95 | the median is the middle sample or the point between the two in the middle |
| Ranks.ReportedMoments | benchmarks/utils.c:100-113 | mean and variance times the count are sums that add up part by part |
| StreamReaders.ReadStream | cli/cli.c:104-123 | stores exactly the bytes of the stream and a NUL inside the allocated capacity, which is at most twice what is needed; fails only without memory |
| StreamReaders.ReadStdin | cli/commands/parse.c:152-187 | the same for the standard-input branch of `read_file` |
| StreamReaders.ReadDoc | cli/commands/diff.c:13-31 | the same byte at a time, without a NUL; no buffer exactly for an empty stream when memory suffices |
| Registry.CommandRegistry.Register | cli/cli.c:40-73 | the new array contents, capacity and copied slots are those of the specified step |
| Registry.CommandRegistry.Grow | cli/cli.c:56-69 | growing doubles the capacity and keeps the contents |
| Registry.CommandRegistry.Find | cli/cli.c:75-88 | finds a registered command of that name, and nothing exactly when there is none |
| Registry.RunInvariant | cli/cli.c:16-73 | after any run: distinct names, capacity 8 times a power of two, copying equal to capacity - 8 and below twice the count |
| Registry.RunIsAccepted | cli/cli.c:40-73 | the contents are the accepted requests in order, and a rejected request changes nothing |
| Registry.FoundIsUnique | cli/cli.c:75-88 | after any run a name designates at most one command |
| Registry.RegistrationDecides | cli/cli.c:44-72 | after any run: NULL or a taken name is an argument error, a full array that cannot grow a memory error, and everything else is accepted and stands last |
| Registry.FreshNamesAccepted | cli/cli.c:40-73 | different names are all registered in order as long as growth succeeds |
| Declaration.Document.SetVersion | src/leptris/core.c:208-218 | new state and status; no leak, no read of a freed block, callers' strings untouched, even for the document's own pointer |
| Declaration.Document.SetEncoding | src/leptris/core.c:220-231 | the same for the encoding |
| Declaration.Document.SetStandalone | src/leptris/core.c:233-239 | any non-zero value becomes 1, the heap is untouched |
| Declaration.Document.ClearDeclaration | src/leptris/core.c:244-259 | back to the fresh state, and only the callers' blocks remain allocated |
| DeclarationRuns.RunAll | src/leptris/core.c:208-259 | any sequence of calls, with any failures and with arguments that point anywhere into the document's own strings, keeps memory sound, leaves the state of the run, and returns for each call the status that its text and the memory call for |
| DeclarationRuns.VersionIsLast | src/leptris/core.c:208-218 | after any run the version is the text of the last call that set it, unless a clear came later |
| DeclarationRuns.VersionIsUnset | src/leptris/core.c:244-259 | it is not set if every call that set it was followed by a clear |
| DeclarationRuns.EncodingIsLast | src/leptris/core.c:220-231 | the same for the encoding |
| DeclarationRuns.EncodingIsUnset | src/leptris/core.c:244-259 | the same for the encoding |
| DeclarationRuns.StandaloneIsLast | src/leptris/core.c:233-239 | the standalone marker is what the last call was given since the last clear, as 0 or 1 |
| DeclarationRuns.StandaloneIsUnset | src/leptris/core.c:244-259 | and -1 without such a call |
| Declaration.RunConsistent | src/leptris/core.c:208-259 | after any run `had_declaration` holds exactly when something is set, the verbatim flag exactly when the encoding is, and no stored text is empty |
| Declaration.RunIsEffective | src/leptris/core.c:208-259 | any run ends in the state of its successful calls alone |
| Declaration.SelfAssignment | src/leptris/core.c:208-231 | setting a field from its own getter's pointer has no effect on any run, before or after, set or not, with or without memory |
| Declaration.ClearForgets | src/leptris/core.c:244-259 | whatever ran before a clear has no effect on what follows |
| GlobalOptions.OptionParser.GetPositional | cli/options.c:183-206 | counts and copies exactly the arguments from the cursor on that do not start with a dash |
| GlobalOptions.Options.Consume | cli/options.c:71-108 | one round applies one argument, advances the cursor once, and keeps exactly what the commands may see |
| GlobalOptions.Options.Filter | cli/options.c:64-112 | the loop collects the kept arguments in order |
| GlobalOptions.Options.Parse | cli/options.c:56-126 | argv keeps its first element and becomes the filtered vector in place; without memory nothing changes |
| GlobalOptions.KeptMembers | cli/options.c:71-112 | exactly the kept arguments stay |
| GlobalOptions.KeptConcat | cli/options.c:71-112 | filtering is order-preserving, piece by piece |
| GlobalOptions.KeptIdempotent | cli/options.c:56-126 | a second pass removes nothing |
| GlobalOptions.AppliedFlags | cli/options.c:71-108 | every `-v` is counted, the other flags say whether their options occur at all |
| GlobalOptions.LastColorWins | cli/options.c:71-108 | the last colour flag decides |
| GlobalOptions.NoColorFlag | cli/options.c:71-108 | without a colour flag the earlier setting stands |
| HandOver.SettingsExact | cli/options.c:56-126 | the settings of a run on the arguments: `-v` counted, `-q` and `--version` noticed, colour on by default |
| HandOver.PositionalLists | cli/options.c:183-206 | the positional arguments are exactly those without a leading dash, in order |
| TokenGrammar.OutcomeStep | cli/commands/parse.c:60-120 | one round of any command's parser is one token of the grammar |
| TokenGrammar.NoHelpToken | cli/commands/parse.c:103-106 | without a help argument there is no help token, for every set of options |
| ParseCommand.ParseArguments | cli/commands/parse.c:49-129 | the loop computes the interpretation of the token list |
| ParseCommand.ParseAccepts | cli/commands/parse.c:49-129 | accepts exactly one file, known options and known formats; flags in any order, last format |
| FormatCommand.FormatArguments | cli/commands/format.c:51-150 | the loop computes the interpretation of the token list |
| FormatCommand.FormatAccepts | cli/commands/format.c:51-150 | accepts exactly one file, known options, indentations from 0 to 16, and `--compact` only with a final indentation of 2; the last value of each option counts |
| XPathCommand.XPathArgument | cli/commands/xpath.c:65-124 | one round of the loop is one token |
| XPathCommand.XPathArguments | cli/commands/xpath.c:54-144 | the loop computes the interpretation of the token list |
| XPathCommand.XPathAccepts | cli/commands/xpath.c:54-144 | accepts exactly a file and an expression in that order, known options, and not both `--count` and `--boolean` |
| OptionForms.ParseRound | cli/commands/parse.c:60-106 | what each option of the parse command does, wherever it stands |
| OptionForms.ParseOther | cli/commands/parse.c:107-120 | any other argument with a dash is an unknown option, any other one the file, if it is the first |
| OptionForms.ParsePlain | cli/commands/parse.c:49-129 | without a format option, a command line is accepted exactly with one argument that is no option and otherwise seven flags; what it sets |
| OptionForms.FormatRound | cli/commands/format.c:63-121 | what each flag of the format command does |
| OptionForms.FormatValueRound | cli/commands/format.c:63-117 | what each option with a value does, an unknown format name standing for XML |
| OptionForms.FormatOther | cli/commands/format.c:122-134 | unknown options and files |
| OptionForms.FormatPlain | cli/commands/format.c:51-150 | acceptance without options that take a value, and the defaults: XML in UTF-8, indented by 2 |
| OptionForms.XPathRound | cli/commands/xpath.c:65-105 | what each flag of the xpath command does |
| OptionForms.XPathValueRound | cli/commands/xpath.c:75-91 | what each option with a value does |
| OptionForms.XPathOther | cli/commands/xpath.c:108-124 | unknown options, the file and the expression |
| OptionForms.XPathPlain | cli/commands/xpath.c:54-144 | acceptance without options that take a value: two operands, the file first, not both kinds of answer |
| OptionForms.LastChecks | cli/commands/format.c:137-147 | what each command checks when its arguments are used up |
| OptionForms.AtoiReads | cli/commands/format.c:77 | an indentation is read from its decimal digits, signed or not |
| CommandLine.RegisterCommands | cli/main.c:80-87 | the eight registrations give these eight names in order, without a duplicate and without growth |
| CommandLine.Dispatch | cli/main.c:49-129 | the flow of `main`, failing allocations and the lookup in the registry included, decides on the filtered vector as specified |
| CommandLine.HelpIsGlobal | cli/main.c:89-95 | with enough memory, `main` takes its help branch exactly when a help argument occurs anywhere |
| CommandLine.UsageIsPrinted | cli/main.c:89-116 | the usage text is printed exactly for a help argument or, without a version argument, for a missing or unknown command, provided the allocations succeed |
| CommandLine.HelpNeverReachesCommands | cli/main.c:89-122 | no command ever meets a help token or takes its help branch, for every command line |
| HandOver.ExecutedArguments | cli/main.c:122 | a command receives exactly the arguments that are no help, colour or version arguments, in order and as often as they occur |
| HandOver.ExecutedUnchanged | cli/main.c:122 | without such arguments it receives the whole line behind the program name |
| HandOver.UsageOrVersion | cli/main.c:89-101 | help wins over version, and both over everything else |
| HandOver.FirstArgumentDecides | cli/main.c:103-122 | the first argument passed on names the command or the unknown one |
| HandOver.CommandNames | cli/main.c:80-87 | the eight names that are commands |
| HandOver.ParsedFile | cli/main.c:122 | the file that the parse command accepts is the operand of the whole command line, as long as no option lacks its value there |
| HandOver.ColorBehindFormat | cli/options.c:94-98 | a colour option behind `-f` is taken away, and the next argument becomes the value |

## Left out

- The engine behind the accessor functions (parsing, XPath, XSLT, digests, the diff engine, schemas): nodes are an abstract tree, and an element's `text` is a field of it, not computed from the children.
- The XML declaration around a document, the XML and text node-set printers, the number, boolean and string printers, colours, help texts and error messages.
- DOCTYPE and entity-reference children carry no content: the printers omit them, and so does the normal form.
- The reference reader has no character references, no entities beyond the five predefined ones, no DTD, no end-of-line handling of section 2.11 and no attribute normalization of section 3.3.3 of XML 1.0.
- XmlPrinter.WriteIndent: `level * indent` is unbounded, the C `int` is not.
- TextPrinter.WriteText: a NULL attribute name is written as `(null)`, which is what common C libraries print.
- BoundedEscape.BoundedEscapeMeaning: works on characters below 256 as bytes; that a cut may fall inside a UTF-8 sequence is not stated.
- The regular expressions and line reading of the table generator; its entries are parameters with the guarantees of `tools/gen_ducet_table.py:47-52` and distinct keys.
- DucetRefinement.ContractionsRefined: contractions of more than three code points, of which the table keeps only three.
- CollationScan.CesFromString: starts at code points; UTF-8 decoding, normalization, growth of the element buffer and the emission of sort keys are not modelled.
- Sorting.SortCorrect: `qsort` and Python's `sort` are a sorting function with this contract, not their algorithms.
- Statistics.VarianceMeaning: floating-point rounding and the square root are left out; all arithmetic is over the reals.
- StreamReaders.ReadStdin: read errors and the branch of `read_file` for regular files are not modelled; the same loop stands in `cli/commands/format.c` and `cli/commands/xpath.c`.
- Early returns for a NULL document, registry or options object; a NULL command is modelled in the registry.
- The option parsers of the diff, validate, version, xquery and xslt commands.
- FormatCommand.FormatAccepts: `atoi` is unbounded; its overflow is undefined in C.
