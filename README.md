# peridot core, modelled in Dafny

peridot tracks the license information found in the files of GitHub
repositories. This project models the sequential logic at its centre:

- **The SPDX license-expression front end** (`licenses/`). A tokeniser is
  defined as an ordered rule table, handed to the lexmachine scanner and
  driven in a loop. The parsed internal tree is converted into the external
  `ParsedLicenseNode` tree, whose nodes carry a canonical, parenthesised
  expression text.
- **The license-node table** (`database/licensenode.go`). It stores each
  distinct subexpression once, as a row `(type, left, right, leaf)`.
  `CheckAndInsertLicenseNodes` walks a parsed tree post-order and finds or
  inserts one row per subtree. The two type-code maps translate between
  node types and database codes. Table set-up inserts a sentinel row with
  id 0.
- **The SPDX tag:value reader and file-record parser** (`spdxtvmanager/`).
  The reader turns lines into (tag, value) pairs. It skips blank and
  comment lines and joins multi-line `<text>` values. The parser turns the
  pairs into one record per file: its licenses, concluded license and
  checksums (section 8 of the SPDX 2.2 specification; the code's tag is
  `LicenseFoundInFile`).
- **Path and string builders**:
  - `ExtractDirsFromPaths`: the sorted set of all ancestor directories;
  - the database connection string;
  - the on-disk location of a stored file (`GetPathToHash`);
  - a repository's clone URL and directory.
- **The prepared-statement table** (`database/statements.go`). It is a
  slice grown on demand and indexed by statement number.
- **Set-up and bookkeeping** around these:
  - the hash and repo managers' argument checks;
  - the copy loop that keeps only newly stored files;
  - `UpdateRepo`'s choice between inserting a new retrieval and refreshing
    the latest one.

The model follows each file's own form:
- Objects whose fields the code updates are classes: the reader, the
  parser, the node table, the statement table, `Config`, and the hash and
  repo managers.
- Their methods are proved against functions of the old state, such as
  `NextLine`, `NextPair`, `Intern` and `ChecksumUpdate`, or against the
  functions' results.
- The properties the code promises are lemmas about those functions.
- Pure code is functions and lemmas: the tree conversion, the type-code
  maps and the path builders.

Foreign effects are parameters:
- the scanner library's matching discipline is fixed in the model
  (longest match, earliest rule on a tie);
- the expression parser `parseTokens`, SQL `Prepare`, the filesystem
  checks and copies, and `time.Now()` are function parameters or plain
  values;
- the license-leaf table is a map from identifier to leaf id.

Modules, one file each:
- `Wrappers`: Option, Result, Outcome.
- `Strings`: Go's `strings` functions used.
- `Paths`: `filepath.Dir` and `Join`.
- `Normalize`, `LicenseRep`, `LicenseNodes`, `TVReader`, `TVParser`,
  `RepoDirs`, `Statements`, `Configuration`, `HashManagers`,
  `RepoManagers`.

Notes on the code as written:
- `PrepareHM` refuses a configuration whose *repos* location is empty. It
  then sets the *hashes* location. The model does the same.
- `database/reporetrieval.go` and `database/licensenode.go` use statement
  numbers, such as `stmtRepoRetrievalGet` and
  `stmtLicenseNodeGetLeafByContents`, that `database/statements.go` does
  not define. Their queries are therefore modelled from the Go functions'
  comments and arguments: a lookup by contents compares the type and the
  columns that the type uses.
- `UpdateRepoRetrieval`'s error message passes its two format arguments in
  swapped order (`database/reporetrieval.go:108-109`). Error texts are not
  part of this model.

## Model

| member | source | states |
|---|---|---|
| Normalize.InitTokenMap | licenses/normalize.go:42-46 | the loop builds a map whose keys are exactly the seven token names, each mapped to its position in `tokens`; the result is `TokenMap` |
| Normalize.TokenMapInvertsTokens | licenses/normalize.go:29-46 | `tokens[tokenMap[n]] == n` for every name in the map and `tokenMap[tokens[i]] == i` for every position |
| Normalize.ActionOfRules | licenses/normalize.go:61-71 | the seven token rules emit the type numbered like their token name, and the comment, blank, escaped-newline and line-break rules skip |
| Normalize.MatchLen | licenses/normalize.go:61-71 | a rule's match never runs past the end of the text |
| Normalize.Step | licenses/normalize.go:61-71 | a scanner step stays inside the text, and a non-empty match names one of the eleven rules |
| Normalize.Run | licenses/normalize.go:67-69 | a character-class run is maximal: every character in it is in the class and the next one is not |
| Normalize.LiteralAtSlice | licenses/normalize.go:61-66 | a literal rule matches at `p` exactly when the text at `p` is the literal |
| Normalize.LongestEarliestUnique | licenses/normalize.go:61-71 | the matching discipline (no rule longer, every earlier rule shorter) determines the match length and, when non-empty, the rule |
| Normalize.BestIsLongestEarliest | licenses/normalize.go:61-71 | scanning the rules in order and keeping a later rule only when it matches strictly longer yields the longest match, and the earliest rule of that length |
| Normalize.StepIsLongestEarliest | licenses/normalize.go:61-71 | each scanner step obeys the longest-match, earliest-rule discipline |
| Normalize.StepFromLongestEarliest | licenses/normalize.go:61-71 | any non-empty rule and length obeying the discipline are the scanner's step |
| Normalize.Emitted | licenses/normalize.go:52-59 | a step yields at most one token, none exactly for the skipping rules, and the token's text is the matched text verbatim |
| Normalize.EmittedOfType | licenses/normalize.go:94 | an emitting step yields one token whose type name is `tokens[type]` |
| Normalize.TokenizeUnfold | licenses/normalize.go:89-96 | `Tokenize`: no match at a position is the mid-string error; otherwise the step's token comes first, followed by the tokens of the rest (input order) |
| Normalize.GetTokens | licenses/normalize.go:81-99 | the loop returns exactly the tokenisation of the whole expression, error included |
| Normalize.TokensWellFormed | licenses/normalize.go:94 | every emitted token has one of the seven type names, and its text is `AND`, `OR`, `+`, `WITH`, `(`, `)` for those types and an identifier run for IDENTIFIER |
| Normalize.LexableStarts | licenses/normalize.go:61-71 | some rule matches at every letter, digit, `-`, `.`, `+`, bracket, blank or line break |
| Normalize.MatchedText | licenses/normalize.go:61-71 | in text with no `#` and no backslash, a skipped match holds only blanks and line breaks, and an emitted one holds none |
| Normalize.TokenizeLexable | licenses/normalize.go:61-98 | text of lexable characters (without `#` or backslash) tokenises, and the token texts joined are the text with blanks and line breaks removed: tokens in input order, nothing lost |
| Normalize.NoMatch | licenses/normalize.go:61-71 | no rule matches at a character that is not lexable and is neither `#` nor a backslash (the comment and escaped-newline rules start at those two) |
| Normalize.TokenizeRejects | licenses/normalize.go:89-91 | in text with no `#` and no backslash, one such character anywhere after the position makes tokenising fail, with no token list |
| Normalize.TokenizeSucceedsIff | licenses/normalize.go:81-99 | tokenising succeeds if and only if every character is lexable (for text without `#` or backslash) |
| Normalize.CommentSkipped | licenses/normalize.go:68 | a `#` comment is skipped up to the next line break or the end of the text: tokenising from the `#` is tokenising from where the comment ends |
| Normalize.CommentAtEnd | licenses/normalize.go:68 | a comment running to the end of the text produces no tokens |
| Normalize.EscapedNewlineSkipped | licenses/normalize.go:70 | a backslash followed by a line break is skipped: tokenising resumes after the two characters |
| Normalize.BlankRunSkipped | licenses/normalize.go:69 | a run of blanks, tabs and form feeds is skipped whole: tokenising from its first blank is tokenising from where the run ends |
| Normalize.BlankSkippedAt | licenses/normalize.go:69 | any blank is skipped: tokenising from it is tokenising from the next character |
| Normalize.MatchesAtIdent | licenses/normalize.go:61-71 | at an identifier character no rule matches beyond the identifier run |
| Normalize.KeywordRunStep | licenses/normalize.go:61-67 | a run spelling exactly AND, OR or WITH is matched by the keyword rule, which ties with IDENTIFIER and was added first |
| Normalize.KeywordShorter | licenses/normalize.go:61-67 | a keyword that is not the whole run matches strictly less than the identifier rule |
| Normalize.PlainRunStep | licenses/normalize.go:67 | any other run is matched whole by the IDENTIFIER rule |
| Normalize.RunStep | licenses/normalize.go:61-67 | at an identifier character the step takes the whole identifier run |
| Normalize.IdentifierStep | licenses/normalize.go:61-67 | the step at an identifier character consumes the whole run, as AND, OR or WITH when the run spells one of them, as IDENTIFIER otherwise |
| Normalize.IdentTokenAt | licenses/normalize.go:94-95 | a maximal identifier-character run becomes one token carrying the run, followed by the tokens of the rest |
| Normalize.PlusStep | licenses/normalize.go:63 | a `+` is a one-character PLUS match (it is not an identifier character) |
| Normalize.LParenStep | licenses/normalize.go:65 | a `(` is a one-character LPAREN match |
| Normalize.RParenStep | licenses/normalize.go:66 | a `)` is a one-character RPAREN match |
| Normalize.PunctTokenAt | licenses/normalize.go:63-66 | `+`, `(` and `)` each become one token with that one character as text |
| Normalize.TokenizeShift | licenses/normalize.go:89-96 | tokenising from a position depends only on the text from there on |
| Normalize.LoneWord | licenses/normalize.go:67 | a lone word is a single token |
| Normalize.ThreeWords | licenses/normalize.go:67-69 | three blank-separated words are three tokens in order |
| Normalize.WordPunct | licenses/normalize.go:63-67 | a word directly followed by `+`, `(` or `)` is two tokens |
| Normalize.IdentifierWord | licenses/normalize.go:67 | a word other than AND, OR and WITH is an IDENTIFIER token |
| Normalize.ExpressionShapeNested | licenses/normalize.go:61-71 | `a+ b (c d e)` is the eight tokens word, PLUS, word, LPAREN, word, word, word, RPAREN, for any five words |
| Normalize.TokensOfSingleIdentifiers | licenses/normalize_test.go:15-37 | "MIT" and "Apache-2.0" are each one IDENTIFIER token with the whole text |
| Normalize.TokensOfKeywordPrefix | licenses/normalize.go:62-67 | "ORder" is one IDENTIFIER: a keyword prefix of a longer identifier is not split off |
| Normalize.TokensOfConjunction | licenses/normalize_test.go:45-61 | "MIT AND BSD-2-Clause" is IDENTIFIER MIT, AND, IDENTIFIER BSD-2-Clause: on an equal-length match the keyword wins |
| Normalize.TokensOfDisjunction | licenses/normalize_test.go:63-79 | "MIT OR BSD-2-Clause" is IDENTIFIER, OR, IDENTIFIER |
| Normalize.TokensOfPlus | licenses/normalize_test.go:81-94 | "MPL-2.0+" is IDENTIFIER MPL-2.0 followed by PLUS |
| Normalize.TokensOfExpression | licenses/normalize_test.go:96-127 | "MPL-2.0+ AND (BSD-2-Clause OR GPL-2.0-or-later)" is exactly the eight tokens of the test, with their texts |
| LicenseRep.ConjunctionType | licenses/licenserep.go:79-134 | the internal names AND, OR, WITH map to the conjunction types of that name |
| LicenseRep.ConvertNodeTreeToPLN | licenses/licenserep.go:43-139 | a nil tree converts to nil; every converted non-nil tree is well formed: identifier leaves, Plus over one identifier leaf with text `id+"+"`, and conjunctions over two children whose text is `GetChildExpression(l) WORD GetChildExpression(r)`, where a child is parenthesised exactly when `IsConjunction` holds of its type |
| LicenseRep.ConvertSucceedsIff | licenses/licenserep.go:62-138 | conversion succeeds exactly on trees with only IDENTIFIER, AND, OR and WITH nodes whose conjunctions have both children |
| LicenseRep.ConvertPropagatesErrors | licenses/licenserep.go:80-89 | an error converting the left child, or the right child after a good left one, is the conjunction's result |
| LicenseRep.ConvertRootType | licenses/licenserep.go:62-134 | the root of the result: identifier without children; Plus with text `id+"+"` and an identifier left child; a conjunction of the given word over the converted children |
| LicenseRep.ConvertToInternal | licenses/licenserep.go:55-139 | every well-formed external tree is the conversion of an internal tree: the converter's image is exactly the well-formed trees |
| LicenseRep.ToInternalConvert | licenses/licenserep.go:55-139 | the converse round trip: a canonical internal tree is recovered from its conversion |
| LicenseRep.GetNodesForExpression | licenses/licenserep.go:144-164 | succeeds exactly when lexing, parsing and conversion all succeed, and then returns the conversion of the parsed tree, which is well formed; each stage's failure is reported with its own prefix ("error lexing expression: ", "error parsing expression: ", "error converting to node format: ") followed by that stage's message, and a nil child stays a nil dereference |
| LicenseNodes.GetIntForNodeType | database/licensenode.go:65-82 | Identifier, And, Or, With and Plus map to the codes 1 to 5; NodeError and every other value give code 0 and an error |
| LicenseNodes.GetNodeTypeForInt | database/licensenode.go:87-102 | the codes 1 to 5 map to node types; every other integer, 0 included, gives NodeError and an error |
| LicenseNodes.NodeTypeCodesRoundTrip | database/licensenode.go:65-102 | the two maps are inverse both ways on the valid types and codes, and the forward map is injective |
| LicenseNodes.Find | database/licensenode.go:158-172 | a lookup by contents returns a row of a valid type with those contents, or none when no such row exists |
| LicenseNodes.FindExtends | database/licensenode.go:322-333 | a row found stays the row found after more rows are appended |
| LicenseNodes.Insert | database/licensenode.go:268-281 | a new row gets the next serial id and the given contents and is appended; nothing else changes |
| LicenseNodes.CheckOrInsert | database/licensenode.go:322-333 | find-or-insert returns a row of the new table with the requested type and the columns a lookup compares: when one exists it is that row and the table is unchanged; otherwise the appended row is the whole record (next id, type, left, right, leaf) exactly as requested, so the zero columns of the leaf (1,0,0,leaf), conjunction (k,l,r,0) and Plus (5,l,0,0) rows are kept, and the counter advances by one |
| LicenseNodes.WellFormedIsShaped | database/licensenode.go:342-352 | every converted tree has the children the interner dereferences |
| LicenseNodes.Intern | database/licensenode.go:290-307 | interning returns nil without error exactly for the nil tree, and then leaves the table unchanged |
| LicenseNodes.InternIdentifier | database/licensenode.go:310-334 | succeeds exactly when the identifier has a license leaf, and otherwise changes nothing; on success it returns a leaf row holding that leaf id |
| LicenseNodes.InternConjunction | database/licensenode.go:336-424 | a successful AND, OR or WITH interning interned the left and then the right child successfully, and returns a row of the node's type code whose left and right ids are the ids returned for the children |
| LicenseNodes.InternPlus | database/licensenode.go:426-450 | a successful Plus interning interned the left child successfully and returns a Plus row whose left id is the id returned for that child |
| LicenseNodes.CheckOrInsertPreserves | database/licensenode.go:322-333 | find-or-insert only appends, and keeps ids distinct and below the counter and no two rows with equal contents |
| LicenseNodes.InternPreserves | database/licensenode.go:284-307 | interning a whole tree keeps those invariants: the table never holds two rows with equal contents |
| LicenseNodes.InternConjunctionPreserves | database/licensenode.go:336-424 | the same for the conjunction helpers |
| LicenseNodes.InternPlusPreserves | database/licensenode.go:426-450 | the same for the Plus helper |
| LicenseNodes.InternSound | database/licensenode.go:290-450 | a successful interning returns a row in the final table whose type code is that of the node; an identifier row holds the identifier's leaf id, a Plus row its child's id, and a conjunction row its two children's ids |
| LicenseNodes.MissingLeafFails | database/licensenode.go:315-319 | an identifier without a license leaf fails and inserts nothing |
| LicenseNodes.UnknownTypeFails | database/licensenode.go:305-306 | an unknown node type fails and inserts nothing |
| LicenseNodes.ParentPointsToChildren | database/licensenode.go:342-363 | the children are interned first, and the parent row holds their returned ids |
| LicenseNodes.InternAgain | database/licensenode.go:284-333 | interning the same tree again, on the table or any later extension of it, returns the same row and inserts nothing |
| LicenseNodes.InternConjunctionAgain | database/licensenode.go:336-424 | the same for the conjunction helpers |
| LicenseNodes.InternPlusAgain | database/licensenode.go:426-450 | the same for the Plus helper |
| LicenseNodes.CheckOrInsertAgain | database/licensenode.go:322-333 | find-or-insert of the same contents on a later table returns the same row with no insert |
| LicenseNodes.InternTwice | database/licensenode.go:284-289 | interning twice in a row returns the same result and leaves the table as the first call left it |
| LicenseNodes.WithSentinel | database/licensenode.go:30-41 | the set-up adds the row (0,0,0,0,0) exactly when no row has id 0 |
| LicenseNodes.SentinelIdempotent | database/licensenode.go:30-41 | running the set-up twice is running it once, and it keeps the table invariants |
| LicenseNodes.LicenseNodeTable.constructor | database/licensenode.go:13-25 | an empty table over the given leaves, with the serial counter at 1 |
| LicenseNodes.LicenseNodeTable.CreateSentinelIfNotExists | database/licensenode.go:30-41 | the table afterwards is the sentinel set-up of the table before, and the invariants hold |
| LicenseNodes.LicenseNodeTable.GetLicenseNodeByContents | database/licensenode.go:158-172 | fails exactly for type codes outside 1 to 5; otherwise returns a row with those contents or none when there is none |
| LicenseNodes.LicenseNodeTable.InsertLicenseNode | database/licensenode.go:268-281 | returns the new row and leaves the table as `Insert` describes |
| LicenseNodes.LicenseNodeTable.CheckAndInsertLicenseNodes | database/licensenode.go:290-307 | the result and new table are those of `Intern` on the old table, and the dedup invariant is kept |
| LicenseNodes.LicenseNodeTable.CheckAndInsertNodeIdentifier | database/licensenode.go:310-334 | result and new table are those of `InternIdentifier` on the old table: a missing leaf fails, otherwise the identifier row for that leaf is found or inserted |
| LicenseNodes.LicenseNodeTable.CheckAndInsertNodeConjunction | database/licensenode.go:336-424 | result and new table are those of `InternConjunction` on the old table |
| LicenseNodes.LicenseNodeTable.CheckAndInsertNodePlus | database/licensenode.go:426-450 | result and new table are those of `InternPlus` on the old table |
| TVReader.ReadNextLineGrowsByAtMostOne | spdxtvmanager/reader.go:32-121 | `NextLine` (`FromReady` or `FromMidtext`): each line advances `currentLine` by exactly one and appends at most one pair, leaving earlier pairs alone |
| TVReader.ReadLinesGrows | spdxtvmanager/reader.go:32-121 | `ReadLines`: over several lines the pair list only grows, by at most one pair per line, keeping its earlier pairs; the counter advances by at most the number of lines, and by exactly that number when no line fails |
| TVReader.ReadyLineCompletes | spdxtvmanager/reader.go:89-96 | a complete pair is appended and the pending tag and value are reset |
| TVReader.ReadyLineOpens | spdxtvmanager/reader.go:82-85 | an opened text block sets midtext, the tag and the value so far, and appends nothing |
| TVReader.BlankAndCommentLinesIgnored | spdxtvmanager/reader.go:43-56 | outside a text block a blank line, or one starting with `#` after leading white space, changes nothing but the counter |
| TVReader.ClassifyNoColon | spdxtvmanager/reader.go:58-63 | any other line without a colon is the no-colon case |
| TVReader.LineWithoutColonFails | spdxtvmanager/reader.go:58-63 | such a line is an error and leaves the pair list unchanged |
| TVReader.ClassifyPair | spdxtvmanager/reader.go:66-73 | `ClassifyReady`: for `tag: value` the tag is the text before the first colon and the value the trimmed rest |
| TVReader.PairLineRoundTrip | spdxtvmanager/reader.go:66-96 | reading `tag: value` appends exactly `(tag, value)` |
| TVReader.ClassifyOpenTextAtColon | spdxtvmanager/reader.go:69-85 | after `<text>` the value is the text up to `</text>` on the same line, or else the rest with a newline, opening a block |
| TVReader.ClassifyOneLineText | spdxtvmanager/reader.go:76-80 | `tag: <text>v</text>...` gives the untrimmed `v` |
| TVReader.OneLineTextRoundTrip | spdxtvmanager/reader.go:76-96 | reading such a line appends exactly `(tag, v)` |
| TVReader.ClassifyOpenText | spdxtvmanager/reader.go:82-85 | `tag: <text>v` without a closing marker opens a block with value `v` and a newline |
| TVReader.OpenTextBlock | spdxtvmanager/reader.go:82-85 | reading it sets midtext, tag and value and appends nothing |
| TVReader.MidtextLineKept | spdxtvmanager/reader.go:103-107 | inside a block a line without `</text>` is appended to the value verbatim, with a newline, and with no blank or comment handling |
| TVReader.MidtextLineCloses | spdxtvmanager/reader.go:110-118 | the closing line adds its text before `</text>`, appends the pair, and resets midtext, tag and value |
| TVReader.MidtextLinesKept | spdxtvmanager/reader.go:103-107 | any number of body lines are kept verbatim, each with a newline |
| TVReader.ClosingLineRead | spdxtvmanager/reader.go:110-118 | reading the closing line as a one-line sequence |
| TVReader.BodyThenClose | spdxtvmanager/reader.go:101-121 | body lines followed by a closing line append one pair with the joined text |
| TVReader.TextBlockRoundTrip | spdxtvmanager/reader.go:42-121 | a whole multi-line block appends exactly `(tag, first + "\n" + body lines + last)` |
| TVReader.SpdxTVReader.constructor | spdxtvmanager/reader.go:17-23 | the zero reader |
| TVReader.SpdxTVReader.Finalize | spdxtvmanager/reader.go:25-30 | fails exactly while in a text block, and otherwise returns the pair list |
| TVReader.SpdxTVReader.ReadNextLine | spdxtvmanager/reader.go:32-40 | error and new state are those of `NextLine` on the old state |
| TVReader.SpdxTVReader.ReadNextLineFromReady | spdxtvmanager/reader.go:42-99 | error and new state are those of `FromReady` |
| TVReader.SpdxTVReader.ReadNextLineFromMidtext | spdxtvmanager/reader.go:101-121 | error and new state are those of `FromMidtext` |
| TVParser.ChecksumUpdate | spdxtvmanager/parser.go:85-117 | a checksum changes only the sums: path, licenses and concluded license stay |
| TVParser.ChecksumAcceptsIff | spdxtvmanager/parser.go:87-110 | accepted exactly when there is one colon and the type is SHA1, SHA256 or MD5; then only that sum is set, to the trimmed text after the colon |
| TVParser.ChecksumErrors | spdxtvmanager/parser.go:87-112 | no colon or a second colon is "invalid FileChecksum format", any other type "unknown FileChecksum type" |
| TVParser.ChecksumRoundTrip | spdxtvmanager/parser.go:101-109 | `TYPE: sum` sets that sum to `sum` |
| TVParser.ChecksumRoundTripNoSpace | spdxtvmanager/parser.go:101-109 | `TYPE:sum` does too |
| TVParser.ChecksumSecondColon | spdxtvmanager/parser.go:95-99 | a colon in the sum part is a format error |
| TVParser.ChecksumUnknownType | spdxtvmanager/parser.go:111-112 | an unknown type is named in the error |
| TVParser.ChecksumExampleSha1 | spdxtagvalue/parser_test.go:64-72 | "SHA1: abc123" sets sha1 to "abc123" |
| TVParser.ChecksumExampleMd5 | spdxtagvalue/parser_test.go:276 | "MD5:123" sets md5 to "123" |
| TVParser.ChecksumExampleNoColon | spdxtagvalue/parser_test.go:115 | "blah" is a format error |
| TVParser.ChecksumExampleTwoColons | spdxtagvalue/parser_test.go:128 | "MD5: 12390834: other" is a format error |
| TVParser.ChecksumExampleUnknown | spdxtagvalue/parser_test.go:141 | "ECDSA: 12390834" is an unknown type ECDSA |
| TVParser.ParsePairs | spdxtvmanager/parser.go:41-47 | feeding pairs keeps "midfile exactly when there is a current record" |
| TVParser.NextPairValid | spdxtvmanager/parser.go:41-83 | `NextPair`: each pair keeps that invariant |
| TVParser.FinalizeValid | spdxtvmanager/parser.go:26-39 | finalize keeps it and ends outside a file |
| TVParser.ReadyPair | spdxtvmanager/parser.go:49-56 | `FromReady`: outside a file FileName starts a record with only the path set and sets midfile; any other tag changes nothing |
| TVParser.MidfilePair | spdxtvmanager/parser.go:58-83 | `FromMidfile`: inside a file LicenseFoundInFile appends, LicenseConcluded overwrites, FileName saves the record and starts a fresh one, other tags change nothing |
| TVParser.MidfileChecksum | spdxtvmanager/parser.go:72-73 | FileChecksum fails exactly when the checksum is rejected, leaving the state unchanged, and otherwise stores it |
| TVParser.FinalizeResult | spdxtvmanager/parser.go:26-38 | `Finalized`: finalize returns nothing exactly when nothing was recorded, and otherwise the saved records followed by the current one |
| TVParser.FinalizeTwice | spdxtvmanager/parser.go:26-38 | a second finalize appends a nil record |
| TVParser.NextPairKeepsRecordsPresent | spdxtvmanager/parser.go:75-79 | records saved by FileName are never nil |
| TVParser.LicensesInOrder | spdxtvmanager/parser.go:60-67 | a run of LicenseFoundInFile pairs appends the values in order |
| TVParser.SpdxTVParser.constructor | spdxtvmanager/parser.go:20-24 | the zero parser, which satisfies the invariant |
| TVParser.SpdxTVParser.Finalize | spdxtvmanager/parser.go:26-39 | result and new state are those of `Finalized` on the old state |
| TVParser.SpdxTVParser.ParseNextPair | spdxtvmanager/parser.go:41-47 | error and new state are those of `NextPair`; the invariant is kept |
| TVParser.SpdxTVParser.ParseNextPairFromReady | spdxtvmanager/parser.go:49-56 | no error; the new state is `FromReady` of the old one |
| TVParser.SpdxTVParser.ParseNextPairFromMidfile | spdxtvmanager/parser.go:58-83 | error and new state are those of `FromMidfile` |
| TVParser.SpdxTVParser.ParseFileChecksum | spdxtvmanager/parser.go:85-117 | fails exactly when `ChecksumUpdate` rejects the value, leaving the record unchanged, and otherwise stores the updated record; midfile and the saved records do not change |
| RepoDirs.LessIrreflexive | database/repodir.go:71 | the string order used for sorting is irreflexive |
| RepoDirs.LessTotal | database/repodir.go:71 | and total |
| RepoDirs.LessTransitive | database/repodir.go:71 | and transitive |
| RepoDirs.SortStrings | database/repodir.go:71 | sorting permutes its input |
| RepoDirs.SortStringsSorted | database/repodir.go:71 | and orders it |
| RepoDirs.SortDistinct | database/repodir.go:71 | a list without duplicates sorts strictly ascending |
| RepoDirs.AncestorsStep | database/repodir.go:57-59 | the ancestors of a path below the top are its parent and the parent's ancestors |
| RepoDirs.CollectDirs | database/repodir.go:53-61 | the nested loops collect exactly the ancestors of all inputs |
| RepoDirs.ListKeys | database/repodir.go:64-69 | the key list has one entry per key, no duplicates, and exactly the keys |
| RepoDirs.ExtractDirsFromPaths | database/repodir.go:51-73 | the output is strictly ascending (sorted, no duplicates) and holds exactly the ancestors of the inputs |
| RepoDirs.DirsOfSpec | database/repodir.go:56-61 | `DirsOf` and `Ancestors`: a directory is listed exactly when it is an ancestor of some input |
| RepoDirs.DirPowVisited | database/repodir.go:56-60 | every `Dir^k(p)` for k from 1 up to the top is listed |
| RepoDirs.VisitedIsDirPow | database/repodir.go:56-60 | and nothing else in a path's walk |
| RepoDirs.WalkEndsAtTop | database/repodir.go:57-58 | the walk ends at "." or "/" |
| RepoDirs.AncestorsHigher | database/repodir.go:57-58 | every directory listed for a path is strictly higher than the path (lower measure), so a path is never its own ancestor |
| RepoDirs.InputListedWhenAncestor | database/repodir.go:56-60 | an input path is listed exactly when it is an ancestor of another input |
| RepoDirs.TopsAddNothing | database/repodir.go:57 | inputs that are "." or "/" contribute nothing, so the output for only those, or for no input, is empty |
| RepoDirs.ParentAndTopListed | database/repodir.go:56-60 | every input below the top has its parent listed, and "." or "/" is then listed too |
| Paths.Dir | database/repodir.go:58 | `filepath.Dir` is "." or "/" or a proper prefix ending before a slash, and below the top it lowers the measure |
| Paths.DirOfName | database/repodir.go:58 | a name without a slash has parent "." |
| Paths.DirOfChild | database/repodir.go:58 | the parent of `d/e` is `d` |
| Paths.Join | hashmanager/hashmanager.go:74 | a join is empty exactly when all elements are |
| Paths.SplitJoin | repomanager/repomanager.go:78 | splitting a join of slash-free names at slashes gives the names back |
| Paths.DirOfJoin | hashmanager/hashmanager.go:96 | the directory of a join is the join without its last element |
| Strings.TrimLeftSpaceSpec | spdxtvmanager/reader.go:44-46 | the result is the input without its leading white space, and starts with none |
| Strings.TrimRightSpaceSpec | spdxtvmanager/reader.go:73 | the input without its trailing white space |
| Strings.TrimSpaceInfix | spdxtvmanager/reader.go:66 | `TrimSpace` is the infix left after both ends' white space |
| Strings.TrimSpaceIsTrimmed | spdxtvmanager/reader.go:73 | its result has no white space at either end |
| Strings.TrimSpace | spdxtvmanager/reader.go:66 | trimming never lengthens the text |
| Strings.IndexSpec | spdxtvmanager/reader.go:59 | `Index` finds the first occurrence or reports that there is none |
| Strings.Index | spdxtvmanager/reader.go:59 | an occurrence found lies inside the text |
| Strings.SplitN2Spec | spdxtvmanager/reader.go:59 | `SplitN(s, sep, 2)` is the whole string, or the parts before and after the first separator |
| Strings.SplitN2 | spdxtvmanager/reader.go:59 | the result has one part exactly when the separator does not occur, and two otherwise |
| Strings.SplitN2AtChar | spdxtvmanager/parser.go:87-93 | for a one-character separator it has two parts exactly when the character occurs, the first one free of it |
| Strings.SplitN2AsSplitOn | spdxtvmanager/parser.go:87-99 | a first split followed by a split of the rest is the full split |
| Strings.SplitOnConcat | spdxtvmanager/parser.go:96-99 | the split of text joined at a separator is the two splits joined |
| Configuration.ConnectStringFields | config/config.go:19-29 | `ConnectString`: when user, password and database name contain no space, the string split at spaces is exactly `user=`, then `password=` when one is given, then `dbname=` and `sslmode=` |
| Configuration.ConnectStringPassword | config/config.go:20-24 | ` password=<password>` follows the user exactly when the password is non-empty, and ` dbname=` follows otherwise |
| Configuration.ConnectStringSslSuffix | config/config.go:25-29 | the string ends with ` sslmode=verify-full` exactly when SSL is asked for, and with ` sslmode=disable` exactly when it is not |
| Configuration.Config.constructor | config/config.go:7-12 | a configuration with the given locations and no connection string |
| Configuration.Config.SetDBConnectString | config/config.go:16-30 | the new string depends only on the arguments (old value discarded, so repeated calls agree), and no other field changes |
| HashManagers.HashManager.constructor | hashmanager/hashmanager.go:20-23 | the zero manager |
| HashManagers.HashManager.SetHashesLocation | hashmanager/hashmanager.go:47-67 | the path is kept exactly when the filesystem check passes; the database is untouched |
| HashManagers.HashManager.CopyAllFilesToHash | hashmanager/hashmanager.go:130-145 | every file is copied with the files stored so far threaded through, the first failure ending the loop with "error copying all files to hashes: " and that copy's error, so a run where every copy passes succeeds; on success every entry's destination is stored, each reported entry had a new destination and a passing copy, no two reported entries share a destination, and every new destination has one (of equal-hash files only the first visited is reported) |
| HashManagers.CopyFileToHash | hashmanager/hashmanager.go:81-125 | `true` exactly when the destination did not exist and the copy passed, which stores the destination; `false` exactly when it existed, changing nothing; otherwise the copy's error, nothing stored |
| HashManagers.CopyFileToHashOnce | hashmanager/hashmanager.go:83-88 | once a file is stored, copying any file with the same hashes copies nothing and reports `false` |
| HashManagers.PathToHashLayout | hashmanager/hashmanager.go:71-76 | `GetPathToHash`: for hashes of at least two characters whose SHA1 and SHA256 are slash-free, the path is the hashes path and the first two characters of SHA1, SHA256 and MD5, then `sha1.sha256`; its directory is the part before the name |
| HashManagers.PathToHashMd5 | hashmanager/hashmanager.go:72-75 | the MD5 only picks the last directory: for slash-free hashes of at least two characters, two paths for the same SHA1 and SHA256 are equal exactly when the MD5s start alike (with `ShardDir`: the join of the first directories followed by a slash-free last element) |
| HashManagers.ShardDir | hashmanager/hashmanager.go:74 | when the element after the root is non-empty, joining a non-empty slash-free last element gives the join of the rest, a slash, and that element |
| HashManagers.PrepareHM | hashmanager/hashmanager.go:27-45 | nil manager, nil configuration or empty repos location, and nil database are refused in that order without change; then the hashes location is checked and the database set only after it passes |
| RepoManagers.RepoManager.constructor | repomanager/repomanager.go:26-29 | the zero manager |
| RepoManagers.RepoManager.SetReposLocation | repomanager/repomanager.go:53-73 | the path is kept exactly when the filesystem check passes |
| RepoManagers.PrepareRM | repomanager/repomanager.go:33-51 | nil manager, nil configuration or empty repos location, and nil database are refused in that order without change; the database is set only after the location check passes |
| RepoManagers.URLPieces | repomanager/repomanager.go:83-88 | `GetURLToRepo`: the URL splits at slashes into `https:`, "", `github.com`, the organisation and `name.git` |
| RepoManagers.URLDeterminesRepo | repomanager/repomanager.go:83-88 | for slash-free names two repositories have the same URL exactly when their names agree |
| RepoManagers.RepoPathLayout | repomanager/repomanager.go:77-79 | `GetPathToRepo`: for a non-empty repos path and non-empty, slash-free organisation and repository names, the path is `repos/org/name`, its directory `repos/org` and that one's `repos` |
| RepoManagers.RepoPathDeterminesRepo | repomanager/repomanager.go:77-79 | for a non-empty repos path and non-empty, slash-free names, two repositories have the same path exactly when their names agree (with slashes allowed, `("a/b", "c")` and `("a", "b/c")` would collide) |
| RepoManagers.ApplyWrite | database/reporetrieval.go:74-117 | an insert appends one row with the new id; an update rewrites time and commit of the row with that id and keeps the rest |
| RepoManagers.UpdateRepoRecordsCommit | repomanager/repomanager.go:219-230 | `RetrievalWriteFor` followed by `ApplyWrite`: afterwards a retrieval of the repo at that time and commit exists; a row is added exactly when there was no latest retrieval or its commit differs |
| RepoManagers.UpdateKeepsOtherRows | repomanager/repomanager.go:225-226 | an update leaves every other row alone |
| Statements.GetStatementAsWritten | database/statements.go:14-20 | as written: a number above the length is refused, a valid index returns its slot, and the rest reach an out-of-range index |
| Statements.GetStatementGuardTooWeak | database/statements.go:15-19 | the length itself and negative numbers pass the guard and index out of range; on a fresh table stmtRepoInsert does |
| Statements.GetStatementChecked | database/statements.go:14-20 | the corrected lookup succeeds exactly for a valid index and returns its slot, and refuses every other number |
| Statements.CheckedAgreesWhereDefined | database/statements.go:14-20 | the correction agrees with the code wherever the code returns normally |
| Statements.WithStatement | database/statements.go:22-42 | setting slot sv grows the table to max(length, sv+1), puts the statement at sv, keeps every other old slot and leaves the added slots nil |
| Statements.DB.InitDB | database/db.go:19-23 | a table with one empty slot |
| Statements.DB.GetStatement | database/statements.go:14-20 | the corrected lookup |
| Statements.DB.AddStatement | database/statements.go:22-42 | a negative number, or a failed prepare, is an error and changes nothing; otherwise the new table is `WithStatement` of the old one: the length becomes max(old, sv+1), slot sv holds the statement, other old slots are kept and new ones are nil |
| Statements.DB.PrepareStatementsRepos | database/statements.go:67-89 | slot 0 then slot 1 are prepared, stopping at the first error: a failed first prepare changes nothing, a failed second one leaves only slot 0 set, and on success the table is the old one with slots 0 and 1 set |
| Statements.DB.PrepareStatements | database/statements.go:53-62 | succeeds exactly when the repos statements are prepared, and leaves the table as `PrepareStatementsRepos` does in each case: unchanged, slot 0 set, or slots 0 and 1 set |
| Statements.PreparedFreshTable | database/statements.go:47-89 | on a fresh table both repo statements can be fetched afterwards, and slot 2 cannot |

## Left out

- The expression builder `parseTokens` and the full internal `licenseNode`
  type are not part of this model. The parser is a function parameter of
  `GetNodesForExpression`. The node keeps only the fields the converter
  reads.
- lexmachine's internals (DFA compilation, `Scanner`). Its matching
  discipline (longest match, earliest added rule on a tie) is fixed in
  `Normalize.Step`. A scanner-construction error cannot happen there.
- Normalize.GetTokens: the scanner's own error text after
  "error lexing for tokens mid-string" is not modelled.
- LicenseNodes.InternConjunction and LicenseNodes.InternPlus: the `%v`
  rendering of the child in the "left/right child not found" messages is
  dropped. LicenseNodes.GetIntForNodeType,
  LicenseNodes.GetNodeTypeForInt and LicenseNodes.UnknownTypeFails drop
  the `%v` of the type value. Only the message's fixed text is kept.
- LicenseNodes.CheckOrInsert: SQL errors from the lookup or the insert
  are not modelled, so find-or-insert always succeeds.
- The license-leaf table is an abstract map. The `getLicenseNodeByContents*`
  query texts are not part of the shown source. A lookup compares the type
  and the columns the Go function passes.
- The concurrent check-then-insert race in the interner. Calls are modelled
  one after another.
- LicenseNodes.LicenseNodeTable.CheckAndInsertLicenseNodes requires the
  children that its helpers dereference (`Shaped`). A Go nil dereference
  would panic there. `LicenseNodes.WellFormedIsShaped` shows that every
  converted tree qualifies.
- LicenseRep.ConvertNodeTreeToPLN: a nil child of AND, OR or WITH is
  dereferenced by `getChildExpression`. That panic is the `NilDereference`
  outcome, not a Go error value.
- TVParser.SpdxTVParser.ParseNextPair requires the parser invariant
  (midfile exactly when there is a current record). The constructor
  establishes it and every operation keeps it.
- TVParser.SpdxTVParser.ParseNextPairFromMidfile and
  TVParser.SpdxTVParser.ParseFileChecksum require a current record. The
  Go code dereferences it and would panic otherwise.
- The parser's record pointers are values. A record is never changed after
  it is saved, so aliasing plays no part. Go's nil and empty license lists
  are both the empty sequence.
- Strings.TrimLeftSpace, Strings.TrimSpace and the readers built on them
  use a fixed list of white-space characters (the Latin-1 and Unicode
  White_Space ones). There is no UTF-8 decoding: a string is a sequence of
  characters.
- Paths.Dir and Paths.Join do not clean paths. They agree with Go's
  `filepath` functions on clean, slash-separated paths: no empty, "." or
  ".." element in the middle, no doubled slash.
- RepoDirs.ExtractDirsFromPaths: Go's map iteration order is unspecified.
  The key listing takes keys in an arbitrary order. `sort.Strings` is
  modelled as an insertion sort under byte-wise string order. Only its
  result matters.
- The filesystem: `os.Stat`, the directory and writability checks,
  `MkdirAll` and the copy. The files under the hash store are the set of
  paths that exist, threaded through the copies. `checkDir` stands for
  the location checks and `place` for creating a file's directory and
  copying it.
- HashManagers.HashManager.GetPathToHash: it, `PathToHash` and the lemmas
  about them require hashes of at least two characters, so Go's panic when
  slicing `hSHA1[0:2]` of a shorter hash is not modelled. The copy loop's
  only caller (coordinator/repojobs.go:86-99) passes the hex digests from
  `GetFileHashes` (40, 64 and 32 characters), so it cannot happen there.
- HashManagers.CopyFileToHash: a `Stat` error other than "does not exist"
  ("couldn't check hash location") is not modelled. The failing
  steps after it (directory, open, create, copy and close) are one
  `place` outcome whose error text is the message. A copy that fails
  after the destination file was created is modelled as storing nothing,
  although Go leaves a partial file there.
- HashManagers.HashManager.CopyAllFilesToHash: Go visits the map in a
  random order and stops at the first failing copy. So which error is
  returned, which copies ran, and which of several equal-hash entries is
  reported are left open. The contract states what holds for every
  order.
- Strings.SplitN2: Go's `SplitN` with an empty separator splits after the
  first UTF-8 character. The model agrees with Go only for non-empty
  separators, which are the only ones the core passes.
- Git operations: clone, pull, log, tree walking and file hashing
  (`CloneRepo`, `GetRepoLatestCommit`, `WalkAndPrintFiles`,
  `GetAllFilepaths`, `GetFileHashes`). UpdateRepo's decision is modelled
  once the latest commit is known (`RepoManagers.RetrievalWriteFor`), and
  its outcome on the retrievals table by `RepoManagers.ApplyWrite`.
- `time.Now()` is a number parameter. The database's serial id for a new
  retrieval row is a parameter.
- SQL plumbing: connecting, `CREATE TABLE` text, and the CRUD functions of
  repos, files and hashes. SQL `Prepare` is a parameter of the statement
  methods.
- `licenses/licenses.go` (JSON loading), the command line and the
  coordinator: I/O and orchestration only.

## Findings

| source | as written | input that shows it | evidently intended | confidence | as-written member | corrected member |
|---|---|---|---|---|---|---|
| database/statements.go:15 | `if int(sv) > len(db.stmts)` refuses only numbers above the length | a table of length 1 (`InitDB`) and `sv = stmtRepoInsert = 1`; also any negative `sv`: the guard passes, then `db.stmts[sv]` is out of range and panics | refuse every `sv` that is not an index (`sv < 0 \|\| sv >= len`), as the error text "statement not prepared" says | not executed | Statements.GetStatementAsWritten, Statements.GetStatementGuardTooWeak | Statements.GetStatementChecked, Statements.DB.GetStatement |
