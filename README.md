# A Dafny model of the java-to-csharp-translator front end

The translator reads Java-like source text and turns it into C#. Its front end is a hand-written
LL(1) toolchain:

- a space-splitting **lexer**;
- a **grammar engine** (`Grammar`). It classifies grammar words (terminal `'x'`, semantic action
  `#x#`, `EPSILON`, non-terminal), reads the grammar, computes FIRST and FOLLOW sets with a fixed
  number of passes, checks the key sets, left recursion and FIRST/FOLLOW overlap, and fills a
  predictive parse table;
- a table-driven **pushdown parser** with panic-mode recovery;
- a **semantic action stack machine** (`SemanticMessenger`) that builds tree nodes;
- a **scope chain** (`Context`) and a **semantic analyzer** that walks the tree, pushing and popping
  frames;
- a two-level **syntax-error message table** with the wildcard key `:any`;
- a small **code generator** for class declarations.

The model keeps each class's own shape. `Grammar`, `Context`, `SemanticAnalyzer`,
`SemanticMessenger` and `SyntaxMessages` are Dafny classes whose methods update their fields with
the same loops the C# code runs. Each method is proved against a specification function of the old
state, and the lemmas about those functions state what the code promises. The lexer works on an
array, as the C# `string[]` does. Pure helpers are functions.

Modules, one per concern:

| module | file | models |
|---|---|---|
| Wrappers | wrappers.dfy | Option, Result and Outcome (pass, or an exception's message) |
| Text | text.dfy | `string.Trim()` and `string.Split(char)` |
| Symbols | symbols.dfy | the word classification, ExtractTerminal and LastNonTerminal |
| GrammarBuild | build.dfy | what Build reads and when it throws |
| FirstSets | first_sets.dfy | the FIRST-set computation as a function, with its lemmas |
| FollowSets | follow_sets.dfy | the FOLLOW-set computation as a function, with its lemmas |
| Validation | validation.dfy | GetLeftRecursion and the conditions of Validate |
| ParseTables | parse_table.dfy | BuildParseTable as a function, with its lemmas |
| Grammars | grammar.dfy | the `Grammar` class and its loops |
| Tokens | tokens.dfy | `Token` and `TokenType` |
| Parsing | syntax_analyzer.dfy | the parser's Parse, GetNextToken and GetValue |
| SemanticMessages | semantic_messenger.dfy | the node datatype and `SemanticMessenger.Message` |
| Contexts | context.dfy | the `Context` chain |
| SemanticAnalysis | semantic_analyzer.dfy | `SemanticAnalyzer.Analyze` and every Analyze* method |
| SyntaxMessageTable | syntax_messages.dfy | `SyntaxMessages` |
| Lexing | lexer.dfy | `Lexer.Parse` |
| CodeGeneration | code_generator.dfy | `CodeGenerator` |

Conventions used throughout:

- An exception becomes `Err(message)` (or `Fail(message)` for a void method), with the message text
  the C# code builds.
- A C# `Dictionary` enumerated in a loop becomes a map together with `order`, the sequence of its
  keys in insertion order.
- A `HashSet` enumerated in a loop is walked in an arbitrary order; every result proved does not
  depend on that order.
- Where two source files disagree, each component follows its own file.

## Model

| member | source | states |
|---|---|---|
| Symbols.KindOf | SyntaxAnalyzer/Grammar.cs:36-54 | a non-empty word is exactly one of terminal, semantic action, EPSILON and non-terminal; non-terminal is the complement of the other three |
| Symbols.ExtractTerminal | SyntaxAnalyzer/Grammar.cs:421-427 | succeeds exactly on words longer than two characters that start and end with a quote, and then gives the non-empty text between the quotes |
| Symbols.ExtractTerminalRoundTrip | SyntaxAnalyzer/Grammar.cs:421-427 | extracting from `'` + s + `'` gives s back for every non-empty s |
| Symbols.LastNonTerminal | SyntaxAnalyzer/Grammar.cs:451-457 | fails exactly when the production has no non-terminal; otherwise the result is one of its non-terminals |
| Text.Trim | Lexer/Lexer.cs:15 | the result has no whitespace at either end, and it is empty exactly when the input is blank; TrimMiddle pins down which characters go |
| Text.TrimMiddle | Lexer/Lexer.cs:15 | the trimmed string is a contiguous slice of the input, and what lies before and after that slice is all whitespace, so exactly the leading and trailing whitespace is removed |
| Text.Split | Lexer/Lexer.cs:12 | at least one piece, and no piece contains the separator |
| Text.JoinSplit | Lexer/Lexer.cs:12 | joining the pieces of a split with the separator gives the text back |
| Text.SplitJoin | Lexer/Lexer.cs:12 | splitting a join of separator-free pieces gives the pieces back |
| GrammarBuild.ReadWords | SyntaxAnalyzer/Grammar.cs:396-404 | a production read word by word holds only non-empty words |
| GrammarBuild.ReadWordsOk | SyntaxAnalyzer/Grammar.cs:396-419 | the word loop succeeds exactly when no terminal or EPSILON follows a semantic action, and then yields the words unchanged |
| GrammarBuild.ReadProduction | SyntaxAnalyzer/Grammar.cs:386-404 | a production string that is read holds only non-empty words |
| GrammarBuild.ReadProductionOk | SyntaxAnalyzer/Grammar.cs:386-404 | a production string is read exactly when it is not blank after trimming and passes the word check, and then into the words of its trimmed text split at spaces |
| GrammarBuild.Readings | SyntaxAnalyzer/Grammar.cs:384-405 | one reading per production string, each the reading of that string |
| GrammarBuild.ReadDefinitionOk | SyntaxAnalyzer/Grammar.cs:384-405 | a definition is read exactly when every one of its production strings is |
| GrammarBuild.WordsOfAll | SyntaxAnalyzer/Grammar.cs:384-405 | the words of each production string, in order |
| GrammarBuild.Values | SyntaxAnalyzer/Grammar.cs:384-405 | the values of a run of successful readings, in order |
| GrammarBuild.ReadDefinitionValue | SyntaxAnalyzer/Grammar.cs:384-405 | a definition that is read holds the readings' values in order after what was read before |
| GrammarBuild.ReadingsFacts | SyntaxAnalyzer/Grammar.cs:384-405 | a definition's readings succeed exactly when all its strings are acceptable, and then give their words |
| GrammarBuild.ReadAll | SyntaxAnalyzer/Grammar.cs:365-406 | one reading per entry, each the reading of that entry's production strings |
| GrammarBuild.ReadAllFacts | SyntaxAnalyzer/Grammar.cs:365-406 | reading entry k succeeds exactly when its strings are acceptable, and then yields their words |
| GrammarBuild.AssembleOkStep | SyntaxAnalyzer/Grammar.cs:370-378 | the acceptance condition of entries e.. unfolds by one entry: non-empty array, non-blank key, a new key, a read definition |
| GrammarBuild.AssembleSucceeds | SyntaxAnalyzer/Grammar.cs:365-406 | assembling the entries succeeds exactly when each has a non-empty array, a non-blank key not defined before, and acceptable strings |
| GrammarBuild.NamesOf | SyntaxAnalyzer/Grammar.cs:365-367 | the entries' names, in order |
| GrammarBuild.AssembleOrder | SyntaxAnalyzer/Grammar.cs:365-380 | a successful assembly appends the entries' names, in order |
| GrammarBuild.AssembleStart | SyntaxAnalyzer/Grammar.cs:381-382 | a successful assembly makes the first name the start symbol when the start was blank, and keeps it otherwise |
| GrammarBuild.AssembleRules | SyntaxAnalyzer/Grammar.cs:379-405 | a successful assembly defines exactly the old and the new names, keeps the old definitions and binds each new name to its reading |
| GrammarBuild.EntriesOkAssemble | SyntaxAnalyzer/Grammar.cs:365-406 | the entries are acceptable exactly when their assembly from their readings succeeds |
| GrammarBuild.BuildAccepts | SyntaxAnalyzer/Grammar.cs:363-408 | Build succeeds exactly on acceptable entries: this list of checks is all it rejects |
| GrammarBuild.BuildOrder | SyntaxAnalyzer/Grammar.cs:363-408 | a successful Build appends the entries' names, in order |
| GrammarBuild.BuildStart | SyntaxAnalyzer/Grammar.cs:381-382 | a successful Build makes the first declared name the start symbol when none was set |
| GrammarBuild.BuildRules | SyntaxAnalyzer/Grammar.cs:363-408 | a successful Build defines exactly the old and new names, keeps the old definitions and binds entry k's name to the words of its production strings |
| FirstSets.FirstOf | SyntaxAnalyzer/Grammar.cs:437-442 | GetFirstSet gives a set exactly for a non-terminal that has one, and that set |
| FirstSets.ScanFirst | SyntaxAnalyzer/Grammar.cs:80-153 | one production's scan keeps the keys of both set maps; what it adds is bounded above by ScanFirstFacts and below by ScanFirstLower |
| FirstSets.FirstProductions | SyntaxAnalyzer/Grammar.cs:71-154 | the productions of one definition keep the keys of the FIRST map |
| FirstSets.FirstProductionsKeys | SyntaxAnalyzer/Grammar.cs:74-79 | a production set is opened for every production of the definition from j on, and for nothing else |
| FirstSets.FirstProductionsStep | SyntaxAnalyzer/Grammar.cs:74-153 | a failed scan of production j is the result; a good one goes on with production j + 1 |
| FirstSets.ScanFirstFacts | SyntaxAnalyzer/Grammar.cs:80-153 | upper bound: a scan only grows the sets, keeps FIRST(production) inside FIRST(lhs), and adds only EPSILON and literals of terminals |
| FirstSets.ContributionGrows | SyntaxAnalyzer/Grammar.cs:96-151 | with larger sets the token loop gets at least as far, and adds at least what it adds with the smaller sets |
| FirstSets.ScanFirstLower | SyntaxAnalyzer/Grammar.cs:80-153 | lower bound: every word the token loop gets to adds its contribution to FIRST of the production and of its non-terminal: a terminal its literal, EPSILON itself, a non-terminal its whole set where the loop stops and the set without EPSILON where it goes on |
| FirstSets.ScanStops | SyntaxAnalyzer/Grammar.cs:96-151 | the loop stops at a non-terminal without a set, or whose set lacks EPSILON, or that is the last non-terminal, after adding that set |
| FirstSets.ScanGoesOn | SyntaxAnalyzer/Grammar.cs:84-145 | a terminal, EPSILON, action or passable non-terminal adds its part and the loop goes on with the next word |
| FirstSets.FirstProductionsFacts | SyntaxAnalyzer/Grammar.cs:71-154 | the upper bound of ScanFirstFacts for all productions of a definition |
| FirstSets.FirstProductionsLower | SyntaxAnalyzer/Grammar.cs:71-154 | the lower bound of ScanFirstLower for every production of a definition from j on, kept by the later productions |
| FirstSets.FirstDefinitionsFacts | SyntaxAnalyzer/Grammar.cs:62-155 | the upper bound of ScanFirstFacts for one pass over all definitions |
| FirstSets.FirstDefinitionsLower | SyntaxAnalyzer/Grammar.cs:62-155 | the lower bound of ScanFirstLower for every production of every definition of the pass |
| FirstSets.FirstPassesLast | SyntaxAnalyzer/Grammar.cs:59-156 | n + 1 passes are n passes and one more |
| FirstSets.FirstPassesGrow | SyntaxAnalyzer/Grammar.cs:59-156 | the passes only grow the sets |
| FirstSets.FirstDefinitionsKeys | SyntaxAnalyzer/Grammar.cs:62-79 | after a pass every declared name and every production has a set, and nothing else gains one |
| FirstSets.FirstPassesFacts | SyntaxAnalyzer/Grammar.cs:56-158 | from empty sets, FIRST sets only grow, lie inside their non-terminal's, hold only EPSILON and terminal literals, and after one pass every declared name and production has a set |
| FirstSets.FirstPassesLower | SyntaxAnalyzer/Grammar.cs:56-158 | after the passes, FIRST of every production and of its non-terminal holds the contribution of every word the token loop gets to, judged by the sets the last pass started from, and so also by the sets before the first pass |
| FirstSets.LeadingTerminal | SyntaxAnalyzer/Grammar.cs:84-94 | a terminal's literal or EPSILON preceded only by terminals, EPSILON and actions is in FIRST of its production and its non-terminal; a terminal does not end the token loop |
| FollowSets.TrailingFacts | SyntaxAnalyzer/Grammar.cs:208-236 | the trailing scan copies no EPSILON; it reaches the end exactly when every later word is transparent: a word without a FIRST set (a terminal, an action or an undefined name) or a non-terminal with EPSILON in FIRST; it copies only FIRST tokens of the words it passes, and all of them up to the first word that stops it |
| FollowSets.FollowOccurrence | SyntaxAnalyzer/Grammar.cs:199-246 | only FOLLOW(X) changes; it keeps its old members, gains the trailing tokens, and gains FOLLOW(lhs) when the scan reached the end |
| FollowSets.OccurrenceSound | SyntaxAnalyzer/Grammar.cs:199-246 | one occurrence keeps every FOLLOW set free of EPSILON and made of `$` and FIRST elements |
| FollowSets.FollowProductionFacts | SyntaxAnalyzer/Grammar.cs:174-248 | the upper bound: one production only grows the FOLLOW sets, keeps them sound and defines the non-terminals it uses; FollowProductionLower gives the lower bound |
| FollowSets.FollowProductionsFacts | SyntaxAnalyzer/Grammar.cs:171-248 | the same upper bound for all productions of a definition; FollowProductionsLower gives the lower bound |
| FollowSets.FollowDefinitionsFacts | SyntaxAnalyzer/Grammar.cs:169-249 | the same upper bound for one pass over all definitions; FollowDefinitionsLower gives the lower bound |
| FollowSets.FollowPassesFacts | SyntaxAnalyzer/Grammar.cs:166-249 | the upper bound after the passes: the sets only grew, none holds EPSILON, every element is `$` or a FIRST element, and the defined names are the old ones plus every non-terminal used in a production; FollowPassesLower gives the lower bound |
| FollowSets.CoveredMono | SyntaxAnalyzer/Grammar.cs:199-246 | what an occurrence has added stays when the sets grow, and holds judged by any smaller sets |
| FollowSets.FollowProductionLower | SyntaxAnalyzer/Grammar.cs:174-248 | the lower bound: after one production, FOLLOW of each non-terminal occurrence holds the tokens the trailing scan copies and, when that scan reaches the end, FOLLOW of the left-hand side, judged by any sets below the start |
| FollowSets.FollowProductionsLower | SyntaxAnalyzer/Grammar.cs:171-248 | the same lower bound for every occurrence in every production of a definition, kept by the later productions |
| FollowSets.FollowDefinitionsLower | SyntaxAnalyzer/Grammar.cs:169-249 | the same lower bound for every occurrence of one pass over all definitions |
| FollowSets.FollowPassesLast | SyntaxAnalyzer/Grammar.cs:166-249 | n + 1 passes are n passes followed by one more |
| FollowSets.FollowPassesGrow | SyntaxAnalyzer/Grammar.cs:166-249 | the passes only grow the FOLLOW sets |
| FollowSets.FollowPassesLower | SyntaxAnalyzer/Grammar.cs:166-249 | after n > 0 passes every occurrence's contribution is in the result: Follow(B) holds First(C) minus EPSILON and, when C can vanish, Follow(A), judged by the sets the last pass started from and by the sets before the first pass |
| FollowSets.ComputeFollowLower | SyntaxAnalyzer/Grammar.cs:160-251 | the same lower bound for the whole computation, judged by the last pass's start sets and by the seed |
| FollowSets.EndOfInputFollows | SyntaxAnalyzer/Grammar.cs:160-251 | a non-terminal ending a production of the start symbol, followed only by transparent words, has `$` in its FOLLOW set |
| FollowSets.FollowSeed | SyntaxAnalyzer/Grammar.cs:163 | FOLLOW(start) is reset to exactly `{ $ }`; every other set is kept |
| FollowSets.ComputeFollowFacts | SyntaxAnalyzer/Grammar.cs:160-251 | `$` is in FOLLOW(start) at the end, the result is sound when the old sets were, its names are stated, and after at least one pass every occurrence's contribution is in it, judged by the last pass's start sets |
| FollowSets.UsedInStep | SyntaxAnalyzer/Grammar.cs:174-178 | the non-terminals used in a production from i on unfold by one word |
| Validation.PathShrinks | SyntaxAnalyzer/Grammar.cs:459-493 | adding a key to the visited set leaves fewer keys unvisited, which bounds the recursion |
| Validation.LeftRecPath | SyntaxAnalyzer/Grammar.cs:459-493 | soundness: a non-blank result ends a chain of leftmost-nullable steps from the token and was visited before or repeats on the chain, so it is left-recursive |
| Validation.LeftRecClear | SyntaxAnalyzer/Grammar.cs:459-493 | completeness for one step: when the walk finds nothing, no non-blank left step leads back to the token or onto the visited path, and the walk from the next name with the token added to the path finds nothing either |
| Validation.LeftPathClear | SyntaxAnalyzer/Grammar.cs:459-493 | completeness along a chain: when the walk finds nothing, no chain of left steps through non-blank names meets the visited path or meets a name twice |
| Validation.NoLeftCycle | SyntaxAnalyzer/Grammar.cs:280-285 | the converse of LeftRecPath: when condition 1 passes, no chain of left steps from a defined name, direct or indirect, returns to a name on it |
| Validation.DirectLeftRecursion | SyntaxAnalyzer/Grammar.cs:459-493 | a production `A -> A ...` is always reported, or the walk throws |
| Validation.LeftRecursionCheck | SyntaxAnalyzer/Grammar.cs:280-285 | condition 1 passes exactly when no definition's walk throws or finds a left-recursive name |
| Validation.OverlapCheck | SyntaxAnalyzer/Grammar.cs:303-319 | condition 3 passes exactly when no nullable non-terminal's FIRST set without EPSILON meets its FOLLOW set; a failure is the overlap message or a missing FOLLOW key |
| Validation.ValidateAll | SyntaxAnalyzer/Grammar.cs:278-320 | Validate passes exactly when every definition passes both conditions |
| ParseTables.FillRow | SyntaxAnalyzer/Grammar.cs:331-358 | filling a row succeeds exactly when every production has a FIRST set and, when it is nullable, the non-terminal has a FOLLOW set |
| ParseTables.FillRowFacts | SyntaxAnalyzer/Grammar.cs:331-358 | a filled row has a cell exactly for the old columns and the columns of its productions, each written cell holds the last production that writes it, and other cells are kept |
| ParseTables.FillTableFacts | SyntaxAnalyzer/Grammar.cs:322-361 | filling succeeds when every row can be filled, and gives each non-terminal its fresh row |
| ParseTables.ParseTableCells | SyntaxAnalyzer/Grammar.cs:322-361 | each production of each declared non-terminal has a cell in every FIRST column other than EPSILON and, when nullable, every FOLLOW column; every cell holds a production of its non-terminal, the last one to write it; there is no EPSILON column |
| ParseTables.GetCell | SyntaxAnalyzer/Grammar.cs:429-435 | the cell exactly when row and column exist, otherwise nothing |
| Grammars.ProcessFacts | SyntaxAnalyzer/Grammar.cs:25-34 | after Build, a Process that passes leaves sound FIRST sets, equal FIRST and FOLLOW key sets with the start symbol among them and `$` in its FOLLOW set, no EPSILON in FOLLOW, no left recursion, no overlap, and the parse table that FillTable defines |
| Grammars.OnlyInFacts | SyntaxAnalyzer/Grammar.cs:256-260 | the names of `order` in one key set and not the other, no more and no fewer, each once |
| Grammars.FirstOnlyKeys | SyntaxAnalyzer/Grammar.cs:256-260 | the first loop lists the names with only a FIRST set in the enumeration order of `_firstSet` |
| Grammars.MissingKeys | SyntaxAnalyzer/Grammar.cs:261-265 | the keys of one set missing from the other, no more and no fewer, each once |
| Grammars.DistinctConcat | SyntaxAnalyzer/Grammar.cs:256-265 | the two lists appended have no repeats and hold the names of both |
| Grammars.DiffKeysFacts | SyntaxAnalyzer/Grammar.cs:256-266 | the listed names are exactly those in one key set and not the other, each once, the FIRST-only ones first, and there are none exactly when the key sets agree |
| Grammars.FirstKeys | SyntaxAnalyzer/Grammar.cs:62-68 | after a pass from empty sets exactly the defined names have FIRST sets |
| Grammars.FollowKeys | SyntaxAnalyzer/Grammar.cs:160-251 | after a pass from empty sets exactly the start symbol and the used non-terminals have FOLLOW sets |
| Grammars.FFKeysMeaning | SyntaxAnalyzer/Grammar.cs:253-276 | after Process's passes a name has one of the two sets and not the other exactly when it is defined but neither the start symbol nor used, or used (or the start symbol) but never defined |
| Grammars.PassesCover | SyntaxAnalyzer/Grammar.cs:56-158 | the lower bound of FirstPassesLower for a known result |
| Grammars.ProcessCovers | SyntaxAnalyzer/Grammar.cs:25-34 | a Process that passes leaves FIRST sets holding what the last pass's token loops add, and FOLLOW sets holding what each occurrence adds, each judged by the sets its last pass started from |
| Grammars.JoinKeys | SyntaxAnalyzer/Grammar.cs:268-271 | the names joined with ", " |
| Grammars.FirstColumns | SyntaxAnalyzer/Grammar.cs:341-348 | every column of FIRST(production) other than EPSILON now holds the production, and whether EPSILON was met |
| Grammars.FollowColumns | SyntaxAnalyzer/Grammar.cs:351-357 | every column of the FOLLOW set now holds the production |
| Grammars.ReadProductionWords | SyntaxAnalyzer/Grammar.cs:396-404 | the word loop computes ReadWords |
| Grammars.ReadProductionStrings | SyntaxAnalyzer/Grammar.cs:384-405 | the production loop computes the definition's reading, of non-empty words |
| Grammars.AssembleEntry | SyntaxAnalyzer/Grammar.cs:367-405 | one entry's assembly after its key checks: its reading's error, or the rest of the entries on top of it |
| Grammars.ReadEntriesLoop | SyntaxAnalyzer/Grammar.cs:365-406 | the entry loop reports what ReadEntries gives and, on success, leaves its definitions |
| Grammars.Grammar.constructor | SyntaxAnalyzer/Grammar.cs:11-17 | a new grammar has no start symbol, definitions, sets or table |
| Grammars.Grammar.Build | SyntaxAnalyzer/Grammar.cs:363-408 | reports what ReadEntries gives, on success installs its start, order and definitions, and leaves the sets and table alone |
| Grammars.Grammar.FirstScan | SyntaxAnalyzer/Grammar.cs:80-153 | the token loop computes ScanFirst and keeps the FIRST keys |
| Grammars.Grammar.FirstProduction | SyntaxAnalyzer/Grammar.cs:74-153 | one production turn opens the production's set and scans it, as ScanFirst says |
| Grammars.Grammar.FirstDefinition | SyntaxAnalyzer/Grammar.cs:71-154 | the production loop computes FirstProductions |
| Grammars.Grammar.FirstPass | SyntaxAnalyzer/Grammar.cs:62-155 | one pass computes FirstDefinitions |
| Grammars.Grammar.ComputeFirstSet | SyntaxAnalyzer/Grammar.cs:56-158 | as many passes as there are definitions, as FirstPasses says; when it passes, FIRST of every production and non-terminal holds what the token loops add, judged by the sets before the call |
| Grammars.Grammar.GetFirstSet | SyntaxAnalyzer/Grammar.cs:437-442 | a set exactly for a non-terminal that has one |
| Grammars.Grammar.TrailingScan | SyntaxAnalyzer/Grammar.cs:208-236 | the inner while loop computes Trailing |
| Grammars.Grammar.FollowScan | SyntaxAnalyzer/Grammar.cs:199-246 | one occurrence updates the FOLLOW sets as FollowOccurrence says |
| Grammars.Grammar.FollowScanProduction | SyntaxAnalyzer/Grammar.cs:174-248 | the token loop computes FollowProduction |
| Grammars.Grammar.FollowPass | SyntaxAnalyzer/Grammar.cs:169-249 | one pass computes FollowDefinitions |
| Grammars.Grammar.ComputeFollowSet | SyntaxAnalyzer/Grammar.cs:160-251 | the seed, then one pass per definition, as ComputeFollow says; with at least one definition, FOLLOW holds what every occurrence adds, judged by the last pass's start sets |
| Grammars.Grammar.GetFollowSet | SyntaxAnalyzer/Grammar.cs:444-449 | a set exactly for a non-terminal that has one |
| Grammars.Grammar.CheckFFKeys | SyntaxAnalyzer/Grammar.cs:253-276 | fails exactly when the FIRST and FOLLOW key sets differ, naming every name in one and not the other once, the FIRST-only names first and in `order` |
| Grammars.Grammar.CheckLeftRecursion | SyntaxAnalyzer/Grammar.cs:280-285 | the loop computes LeftRecursionCheck |
| Grammars.Grammar.CheckOverlap | SyntaxAnalyzer/Grammar.cs:303-319 | the loop computes OverlapCheck |
| Grammars.Grammar.Validate | SyntaxAnalyzer/Grammar.cs:278-320 | computes ValidateAll |
| Grammars.Grammar.GetLeftRecursion | SyntaxAnalyzer/Grammar.cs:459-493 | the recursive walk computes LeftRec |
| Grammars.Grammar.LeftRecursionIn | SyntaxAnalyzer/Grammar.cs:472-488 | the token loop over one production computes LRWords |
| Grammars.Grammar.NullableOverlap | SyntaxAnalyzer/Grammar.cs:305-318 | the members of FIRST other than EPSILON that are in FOLLOW; a missing FOLLOW set fails only when there is such a member to look up |
| Grammars.Grammar.FillRowLoop | SyntaxAnalyzer/Grammar.cs:331-358 | the production loop computes FillRow |
| Grammars.Grammar.BuildParseTable | SyntaxAnalyzer/Grammar.cs:322-361 | computes FillTable over the definitions in declaration order |
| Grammars.Grammar.GetParseTable | SyntaxAnalyzer/Grammar.cs:429-435 | the cell exactly when row and column exist |
| Grammars.Grammar.Process | SyntaxAnalyzer/Grammar.cs:25-34 | FIRST sets, FOLLOW sets, key check, Validate and parse table, stopping at the first that throws, as ProcessAll says: it passes exactly when ProcessAll is Done, leaving its tables; it throws the failing step's message; when the key sets differ, it throws the key-check message over a list naming each differing name once, the FIRST-only ones first and in declaration order |
| Parsing.GetNextToken | SyntaxAnalyzer/SyntaxAnalyzer.cs:120-125 | the token at the index and the next index, or nothing and the same index at the end |
| Parsing.GetValue | SyntaxAnalyzer/SyntaxAnalyzer.cs:160-187 | no lookahead gives `$`; a failure is the out-of-range message |
| Parsing.GetValueFacts | SyntaxAnalyzer/SyntaxAnalyzer.cs:165-186 | Semicolon, Value and the five operators give their terminal names; every other token throws |
| Parsing.Initial | SyntaxAnalyzer/SyntaxAnalyzer.cs:13-24 | the start state keeps the invariant, with stack `[$, start]` and a true verdict |
| Parsing.PushedFacts | SyntaxAnalyzer/SyntaxAnalyzer.cs:67-74 | the pushed words are the production's words other than EPSILON, the first on top |
| Parsing.StepGood | SyntaxAnalyzer/SyntaxAnalyzer.cs:27-101 | a turn keeps the invariant, never moves the input index back and never past the end |
| Parsing.TerminalStep | SyntaxAnalyzer/SyntaxAnalyzer.cs:33-49 | a terminal that names the lookahead is popped and the input moves on by exactly one token; any other terminal throws |
| Parsing.ActionStep | SyntaxAnalyzer/SyntaxAnalyzer.cs:51-54 | a semantic action is popped and nothing else changes |
| Parsing.ExpandStep | SyntaxAnalyzer/SyntaxAnalyzer.cs:59-75 | on a table hit the non-terminal is replaced by its production pushed right to left, first word on top, EPSILON never pushed |
| Parsing.MissStep | SyntaxAnalyzer/SyntaxAnalyzer.cs:84-94 | on a miss the verdict becomes false; the non-terminal is popped when the lookahead is in its FOLLOW set, otherwise the input moves on |
| Parsing.SuccessStep | SyntaxAnalyzer/SyntaxAnalyzer.cs:84 | only a miss changes the verdict, and only to false |
| Parsing.RunStops | SyntaxAnalyzer/SyntaxAnalyzer.cs:27-117 | a run at `$` returns its verdict; a run out of fuel stops |
| Parsing.RunTurn | SyntaxAnalyzer/SyntaxAnalyzer.cs:27-101 | a run that has not stopped is one turn followed by the rest |
| Parsing.RunVerdict | SyntaxAnalyzer/SyntaxAnalyzer.cs:15-117 | Parse returns true exactly when no turn was a miss |
| Parsing.FalseStays | SyntaxAnalyzer/SyntaxAnalyzer.cs:84 | a false verdict is never taken back |
| Parsing.EndOfInputSpins | SyntaxAnalyzer/SyntaxAnalyzer.cs:84-125 | at the end of the input, a miss whose `$` is not in the FOLLOW set changes nothing, so the loop never ends |
| Parsing.Parse | SyntaxAnalyzer/SyntaxAnalyzer.cs:9-118 | the result is Run from the start state |
| Parsing.Drive | SyntaxAnalyzer/SyntaxAnalyzer.cs:27-112 | the loop computes Run |
| Parsing.Turn | SyntaxAnalyzer/SyntaxAnalyzer.cs:30-101 | the loop body computes Step |
| Parsing.PushProduction | SyntaxAnalyzer/SyntaxAnalyzer.cs:67-74 | the production pushed right to left, EPSILON skipped |
| SemanticMessages.RunMaximal | SyntaxAnalyzer/SemanticMessenger.cs:45-77 | the nodes a `while (TryPeek ...)` loop pops all belong to its run, and the node under them does not |
| SemanticMessages.ActionOf | SyntaxAnalyzer/SemanticMessenger.cs:20-124 | an action name without a case keeps its name |
| SemanticMessages.PushesOne | SyntaxAnalyzer/SemanticMessenger.cs:22-59 | `#push#` puts one DataNode with the token's text on top, `#static#` and `#params_start#` their markers; nothing else changes |
| SemanticMessages.RewritesTop | SyntaxAnalyzer/SemanticMessenger.cs:38-102 | `#array_type#` appends `[]` to the top DataNode and `#instruction#` wraps the top node; the depth and the rest are kept |
| SemanticMessages.CombinesTop | SyntaxAnalyzer/SemanticMessenger.cs:28-121 | `#declaration#`, `#assign#` and `#while#` replace the top two nodes by one made of them, and `#comparison#` the top three; the rest is kept |
| SemanticMessages.Ignored | SyntaxAnalyzer/SemanticMessenger.cs:103-124 | `#statement#`, `#condition#` and any other name leave the stack unchanged |
| SemanticMessages.UnhandledNames | SyntaxAnalyzer/SemanticMessenger.cs:20-124 | only a name outside the fourteen cases reaches the default case |
| SemanticMessages.ParamsEndFacts | SyntaxAnalyzer/SemanticMessenger.cs:60-69 | the Variables above the marker go into one Parameters, most recent first; the marker is removed and everything under it is untouched |
| SemanticMessages.ClassDeclarationFacts | SyntaxAnalyzer/SemanticMessenger.cs:45-56 | the maximal run of functions on top, in pop order, then the name and the access modifier, become one ClassDeclaration |
| SemanticMessages.FunctionDeclarationFacts | SyntaxAnalyzer/SemanticMessenger.cs:70-89 | the trailing instructions in pop order, the parameters, the variable and the access modifier become one FunctionDeclaration; it is static exactly when a Static marker lies directly under the variable, and the marker is then consumed |
| SemanticMessages.DeclarationSequence | SyntaxAnalyzer/SemanticMessenger.cs:22-34 | two pushes and `#declaration#` make one Variable, the first token's text as type and the second's as name |
| SemanticMessages.SemanticMessenger.constructor | SyntaxAnalyzer/SemanticMessenger.cs:8 | the stack starts empty |
| SemanticMessages.SemanticMessenger.Message | SyntaxAnalyzer/SemanticMessenger.cs:18-126 | the stack after the action is Apply of the stack before |
| SemanticMessages.SemanticMessenger.PopRun | SyntaxAnalyzer/SemanticMessenger.cs:45-77 | pops the run on top, listing it in pop order, and leaves the stack under it |
| SemanticMessages.SemanticMessenger.ClassDeclarationMessage | SyntaxAnalyzer/SemanticMessenger.cs:45-56 | the stack becomes ReduceClass of the old one |
| SemanticMessages.SemanticMessenger.ParamsEndMessage | SyntaxAnalyzer/SemanticMessenger.cs:60-69 | the stack becomes ReduceParams of the old one |
| SemanticMessages.SemanticMessenger.FunctionDeclarationMessage | SyntaxAnalyzer/SemanticMessenger.cs:70-89 | the stack becomes ReduceFunction of the old one |
| Contexts.Sees | SemanticAnalyzer/Context.cs:20-26 | CheckWord holds exactly when some frame of the chain uses the name |
| Contexts.Typed | SemanticAnalyzer/Context.cs:36-42 | WordHasType holds exactly when some frame binds the name |
| Contexts.TypeIn | SemanticAnalyzer/Context.cs:44-49 | GetWordType is the binding of the innermost frame that binds the name |
| Contexts.UnseenUntyped | SemanticAnalyzer/Context.cs:51-55 | under the frame invariant (typed names are used) a name used nowhere is typed nowhere |
| Contexts.PushOk | SemanticAnalyzer/Context.cs:10-13 | a new empty frame keeps the invariant |
| Contexts.Reserve | SemanticAnalyzer/Context.cs:28-34 | fails with the reserved-word message exactly when the name is typed anywhere on the chain; otherwise adds it to the innermost frame only |
| Contexts.SetType | SemanticAnalyzer/Context.cs:51-55 | fails as Reserve does; otherwise adds the name and its type to the innermost frame only |
| Contexts.ReserveIdempotent | SemanticAnalyzer/Context.cs:28-34 | re-reserving a name still untyped changes nothing |
| Contexts.SetTypeFacts | SemanticAnalyzer/Context.cs:28-55 | afterwards the name is used, typed and has that type; setting it again from this frame or any frame nested inside fails |
| Contexts.SetTypeOk | SemanticAnalyzer/Context.cs:28-55 | reserving and setting keep the invariant |
| Contexts.Context.Abstract | SemanticAnalyzer/Context.cs:10-18 | the chain as a sequence of frames, this frame's names and types first, every frame keeping the invariant |
| Contexts.Context.OuterFacts | SemanticAnalyzer/Context.cs:10-18 | the outer frame is valid and is the rest of the chain |
| Contexts.Context.constructor | SemanticAnalyzer/Context.cs:5-8 | a chain of one empty frame with no outer context |
| Contexts.Context.Nested | SemanticAnalyzer/Context.cs:10-13 | an empty frame in front of the outer context's chain |
| Contexts.Context.CheckWord | SemanticAnalyzer/Context.cs:20-26 | as Sees on the chain |
| Contexts.Context.WordHasType | SemanticAnalyzer/Context.cs:36-42 | as Typed on the chain |
| Contexts.Context.GetWordType | SemanticAnalyzer/Context.cs:44-49 | as TypeIn on the chain, for a name that is typed |
| Contexts.Context.ReserveWord | SemanticAnalyzer/Context.cs:28-34 | as Reserve on the chain; only this frame changes and the outer chain stays |
| Contexts.Context.SetWordType | SemanticAnalyzer/Context.cs:51-55 | as SetType on the chain; only this frame changes and the outer chain stays |
| SemanticAnalysis.Declare | SemanticAnalyzer/SemanticAnalyzer.cs:152-161 | a declaration changes only the innermost frame and keeps the frame invariant |
| SemanticAnalysis.AnalyzeSpec | SemanticAnalyzer/SemanticAnalyzer.cs:13-161 | the walk changes only the innermost frame and keeps the frame invariant |
| SemanticAnalysis.AnalyzeSeq | SemanticAnalyzer/SemanticAnalyzer.cs:54-62 | a sequence of children changes only the innermost frame |
| SemanticAnalysis.FunctionScope | SemanticAnalyzer/SemanticAnalyzer.cs:121-129 | a function's parameters and instructions, run in a pushed frame, leave the chain they started from |
| SemanticAnalysis.Scoped | SemanticAnalyzer/SemanticAnalyzer.cs:141-148 | a class body run in a fresh frame leaves the chain it started from |
| SemanticAnalysis.KnownSeqNoThrow | SemanticAnalyzer/SemanticAnalyzer.cs:13-29 | children of known kinds are analysed without throwing |
| SemanticAnalysis.Pop | SemanticAnalyzer/SemanticAnalyzer.cs:55-61 | a walk in a pushed frame, popped again, leaves the chain it started from |
| SemanticAnalysis.LoopScopes | SemanticAnalyzer/SemanticAnalyzer.cs:52-110 | a For or While analyses its parts in its own frame and leaves the chain as it found it |
| SemanticAnalysis.ClassScope | SemanticAnalyzer/SemanticAnalyzer.cs:132-150 | a class fails when its name is used; otherwise its name is reserved untyped in the enclosing frame and nothing of the frame of its functions stays |
| SemanticAnalysis.FunctionDeclarationScope | SemanticAnalyzer/SemanticAnalyzer.cs:117-130 | a function declares its name in the enclosing frame first; its parameters and body run in a frame of their own, of which nothing stays |
| SemanticAnalysis.DeclarationFacts | SemanticAnalyzer/SemanticAnalyzer.cs:31-40 | a declaration never throws, succeeds exactly when its name is seen nowhere on the chain (no shadowing), then types it in the innermost frame; the initializer is not looked at |
| SemanticAnalysis.KnownNoThrow | SemanticAnalyzer/SemanticAnalyzer.cs:13-29 | a tree of known node kinds is analysed without throwing |
| SemanticAnalysis.UnknownThrows | SemanticAnalyzer/SemanticAnalyzer.cs:27 | a node kind outside the switch throws |
| SemanticAnalysis.SeqNoShortCircuit | SemanticAnalyzer/SemanticAnalyzer.cs:54-62 | a false result so far changes neither which children run nor what they do |
| SemanticAnalysis.SeqConjunction | SemanticAnalyzer/SemanticAnalyzer.cs:54-62 | the result is true exactly when the result so far and every child's result are |
| SemanticAnalysis.SemanticAnalyzer.constructor | SemanticAnalyzer/SemanticAnalyzer.cs:11 | one empty frame |
| SemanticAnalysis.SemanticAnalyzer.Analyze | SemanticAnalyzer/SemanticAnalyzer.cs:13-29 | gives what AnalyzeSpec gives and, on success, leaves the same current frame holding the frames the walk ends with |
| SemanticAnalysis.SemanticAnalyzer.AnalyzeInstruction | SemanticAnalyzer/SemanticAnalyzer.cs:112-115 | as AnalyzeSpec |
| SemanticAnalysis.SemanticAnalyzer.AnalyzeAssignment | SemanticAnalyzer/SemanticAnalyzer.cs:65-68 | as AnalyzeSpec: the name is visible on the chain |
| SemanticAnalysis.SemanticAnalyzer.AnalyzeDataNode | SemanticAnalyzer/SemanticAnalyzer.cs:42-50 | as AnalyzeSpec: the name is visible on the chain |
| SemanticAnalysis.SemanticAnalyzer.AnalyzeVariableDeclaration | SemanticAnalyzer/SemanticAnalyzer.cs:152-161 | as AnalyzeSpec, and the chain stays valid |
| SemanticAnalysis.SemanticAnalyzer.AnalyzeComparison | SemanticAnalyzer/SemanticAnalyzer.cs:70-99 | as AnalyzeSpec: two DataNodes need equal types, any other shape passes |
| SemanticAnalysis.SemanticAnalyzer.AnalyzeAll | SemanticAnalyzer/SemanticAnalyzer.cs:54-62 | the `foreach ... &=` loop computes AnalyzeSeq |
| SemanticAnalysis.SemanticAnalyzer.PopContext | SemanticAnalyzer/SemanticAnalyzer.cs:61 | the enclosing frame is current again, as also after lines 108, 128 and 148 |
| SemanticAnalysis.SemanticAnalyzer.AnalyzeWhile | SemanticAnalyzer/SemanticAnalyzer.cs:101-110 | as AnalyzeSpec, with the entry frame current again |
| SemanticAnalysis.SemanticAnalyzer.AnalyzeWhileBody | SemanticAnalyzer/SemanticAnalyzer.cs:103-109 | the statements between push and pop compute WhileBody |
| SemanticAnalysis.SemanticAnalyzer.AnalyzeFor | SemanticAnalyzer/SemanticAnalyzer.cs:52-63 | as AnalyzeSpec, with the entry frame current again |
| SemanticAnalysis.SemanticAnalyzer.AnalyzeForBody | SemanticAnalyzer/SemanticAnalyzer.cs:54-62 | the statements between push and pop compute ForBody |
| SemanticAnalysis.SemanticAnalyzer.AnalyzeFunctionDeclaration | SemanticAnalyzer/SemanticAnalyzer.cs:117-130 | as AnalyzeSpec, with the entry frame current again |
| SemanticAnalysis.SemanticAnalyzer.AnalyzeFunctionScope | SemanticAnalyzer/SemanticAnalyzer.cs:121-129 | the statements from push to pop compute FunctionScope |
| SemanticAnalysis.SemanticAnalyzer.AnalyzeFunctionBody | SemanticAnalyzer/SemanticAnalyzer.cs:122-127 | the parameter and instruction loops compute FunctionBody |
| SemanticAnalysis.SemanticAnalyzer.AnalyzeClassDeclaration | SemanticAnalyzer/SemanticAnalyzer.cs:132-150 | as AnalyzeSpec, with the entry frame current again |
| SyntaxMessageTable.Lookup | SyntaxAnalyzer/SyntaxMessages.cs:25-46 | the exact pair's message; else the non-terminal's `:any` message; the global `:any` row only for a non-terminal with no row; the default otherwise (SyntaxMessages.GetErrorMessage is Lookup on the fields) |
| SyntaxMessageTable.InsertFacts | SyntaxAnalyzer/SyntaxMessages.cs:62-74 | inserting a new pair adds exactly it and keeps every other message; an existing pair fails with the duplicate message |
| SyntaxMessageTable.LoadOk | SyntaxAnalyzer/SyntaxMessages.cs:54-74 | loading succeeds exactly when no pair is defined twice, among the entries or against the table |
| SyntaxMessageTable.LoadContents | SyntaxAnalyzer/SyntaxMessages.cs:54-74 | after a successful load the table holds every earlier message unchanged, every entry's message under its pair, and nothing else |
| SyntaxMessageTable.DuplicateFails | SyntaxAnalyzer/SyntaxMessages.cs:63-67 | a pair defined twice makes loading throw the duplicate message |
| SyntaxMessageTable.LoadedExact | SyntaxAnalyzer/SyntaxMessages.cs:28-34 | after loading into an empty table an entry's pair gives that entry's message |
| SyntaxMessageTable.LoadedRowFallback | SyntaxAnalyzer/SyntaxMessages.cs:35-39 | a pair no entry names, whose non-terminal has entries, gets that non-terminal's `:any` message or the default; the global row is not consulted |
| SyntaxMessageTable.LoadedGlobalFallback | SyntaxAnalyzer/SyntaxMessages.cs:40-45 | a non-terminal no entry names gets the global `:any` message for the terminal, or the default |
| SyntaxMessageTable.SyntaxMessages.constructor | SyntaxAnalyzer/SyntaxMessages.cs:15-17 | no messages, no default |
| SyntaxMessageTable.SyntaxMessages.LoadMessages | SyntaxAnalyzer/SyntaxMessages.cs:48-75 | sets the default, then loads the entries in order as Load says; a duplicate throws and leaves the entries before it in place |
| Lexing.LexRoundTrip | Lexer/Lexer.cs:15-19 | a lexeme is marked exactly when its trimmed piece is not reserved, an unmarked lexeme is reserved, and the word of a lexeme is the trimmed piece |
| Lexing.BlankPiece | Lexer/Lexer.cs:17-19 | an empty or blank piece becomes `"ID "` |
| Lexing.LexShape | Lexer/Lexer.cs:12-19 | a lexeme is reserved or `"ID "` followed by a word with no space and no leading whitespace |
| Lexing.LexPiece | Lexer/Lexer.cs:15-19 | the loop body computes Lex of the piece |
| Lexing.Parse | Lexer/Lexer.cs:10-22 | one lexeme per piece of the text split at spaces, in the same order |
| CodeGeneration.BodyAppend | CodeGenerator/CodeGenerator.cs:22-25 | the body of two function lists is the two bodies one after the other |
| CodeGeneration.BodyFront | CodeGenerator/CodeGenerator.cs:22-25 | the body is the first function's text and a newline, then the rest |
| CodeGeneration.ClassShape | CodeGenerator/CodeGenerator.cs:17-28 | a class's text is its header, its body and `}\n`, in that order; with no functions just header and `}\n` |
| CodeGeneration.HeaderShape | CodeGenerator/CodeGenerator.cs:20-21 | the header starts with the access modifier then `" class "`, and ends with `"\n{\n"` |
| CodeGeneration.FunctionLines | CodeGenerator/CodeGenerator.cs:22-25 | a body of function declarations is one type-name line per function |
| CodeGeneration.OnlyClassesStructured | CodeGenerator/CodeGenerator.cs:10-14 | only a class declaration gets a header and closing brace; any other node is its full type name, with no newline at the end |
| CodeGeneration.Generate | CodeGenerator/CodeGenerator.cs:8-15 | the text is Rendered of the node |
| CodeGeneration.GenerateClassDeclaration | CodeGenerator/CodeGenerator.cs:17-28 | the builder ends holding Rendered of the class |

## Left out

- File and JSON loading: the grammar arrives as a sequence of (name, production strings) in
  declaration order, the messages as (non-terminal, terminal, message) triples, and the parser's
  grammar as a value.
- `Parsing.Parse` builds no grammar from `grammar.txt`. It takes the processed grammar's start
  symbol, table and FOLLOW sets; `GrammarOk` requires that the start symbol is not empty and that
  every table cell holds non-empty words, which Build guarantees.
- Parsing.Parse: the loop runs at most `fuel` turns and then reports `OutOfFuel`, since the source
  loop need not end (Parsing.EndOfInputSpins).
- Parsing.Drive: the post-loop "stack is not empty" branch is not modelled; the loop only exits
  with `$` on top, so the branch cannot run.
- `GetNextToken` takes the index by value and returns the new one instead of using a `ref` parameter.
- The `|| stack.Peek() == EndOfStack` disjunct of the miss test is kept in `Parsing.Turn`, where it
  is always false.
- GetRules and CreateTable in the parser are never called, and are not modelled.
- Console output and logging (LogError, DisplayStack, the print in the messenger's default case,
  the parser's Console.WriteLine).
- Hosts (CLI, Web), the test projects, the Lexer's Class1 stub, TokenTypeHashSets and the debug
  printers of the tree nodes.
- Partial state after an exception: methods that throw report `Fail` and promise nothing about the
  fields they had begun to change, except that LoadMessages keeps the messages read before the
  duplicate.
- Grammars.Grammar.Build: on failure the model promises only `Valid()` and unchanged sets and
  table. The source keeps the definitions read before the failing entry, the failing entry's name
  with the productions read before the bad one, and Start set to that name when it was blank.
- The C# loops that copy one set into another are modelled as set unions.
- Grammars.Grammar.CheckFFKeys: the names with only a FIRST set come first and in `order`, which
  is the insertion order of `_firstSet`, as in the source. The names with only a FOLLOW set follow
  in an order the model leaves open: the source lists them in the insertion order of `_followSet`,
  and the model's FOLLOW sets are a map that does not record when ComputeFollowSet first adds each
  name. Grammars.Grammar.Process states its key-check message with the same open order.
- `productionFirstSet` is keyed by (non-terminal, production index); the source keys it by the
  List object of the production, which is the same identity.
- Dictionary enumeration order is modelled by `order`, the keys in insertion order; HashSet
  enumeration order is left open and no proved result depends on it.
- `Validate` walks the definitions in `order`; the source enumerates the Dictionary.
- BuildParseTable's row is built locally and stored once per definition; the effect is the same.
- GetLeftRecursion's `visited` set is passed by value; the source restores it before returning ""
  (SyntaxAnalyzer/Grammar.cs:462-467), so the caller sees the same set.
- The node classes of the two TreeNodes namespaces disagree; each component uses the shapes of
  the file it reads. The analyzer's unused `_usedWords` and `_definedWordTypes` fields are left out.
- Contexts.Context.GetWordType: calling it for a name no frame types would dereference a null
  outer context; the model makes "the name is typed" a precondition.
- The messenger's casts and pops on an unsuitable stack would throw, and so would a `#push#` whose
  index is outside the tokens (ArgumentOutOfRange); `Applicable` makes the right stack shape and an
  index inside the tokens preconditions of `Message`.
- Exceptions that cannot occur are not modelled, such as SetWordType throwing in a declaration after
  CheckWord found the name unused (a name used nowhere is typed nowhere).
- `_defaultMessage` starts as null in the source; the model uses "".
- CodeGeneration.Generate: `GetType().ToString()` is modelled as the namespace
  `DataStructures.TreeNodes.` followed by the class name, which is what .NET gives for those
  classes; there is no reflection.
- Text.Trim: whitespace is the eight ASCII and Latin-1 whitespace characters; other Unicode
  whitespace is not trimmed.
- The lexer's results are strings, as in the source; no Token values are built.
