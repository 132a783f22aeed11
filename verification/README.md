# Verified model of the BFG2 core

This Dafny project models the parts of the BFG2 commerce back end whose correctness is hardest to
see by reading one function, and proves what they promise. Loops and classes of the original are
loops and classes here, each proved against a specification function; the lemmas are about those
functions.

| files | what they model |
|---|---|
| `SqlLexer`, `SqlGrammar`, `SqlNormalise`, `SqlCharacters` | the DDL tokenizer, the grammar it accepts, the printed normal form, and its character classes |
| `Parens` | removing redundant outer parentheses |
| `CheckScan`, `CheckExtract`, `CheckPatterns` | the two scanners that cut CHECK clauses out of a table's SQL, and their regular expressions |
| `TableText` | the SQL text SQLite keeps of a table and what the scanners read out of it |
| `Schema`, `SchemaRetry`, `SchemaRefusal`, `SchemaCreation`, `SchemaText`, `SchemaRuns` | crash-safe schema migrations: create, or accept only what proves identical |
| `SchemaReapply`, `SchemaInterrupt`, `SchemaStopped` | exactly when a completed or interrupted migration can be retried |
| `WorkspaceCache`, `WorkspaceSignals` | workspace lookups behind a TTL cache with signal-driven invalidation |
| `TenantBinding` | the per-thread tenant binding and what a query may see |
| `ChatLoop`, `StreamAssembly`, `TokenMeter` | the assistant's tool loop, streamed tool calls, token accounting |
| `ConditionEngine` | nested AND/OR conditions with short-circuit errors |
| `TokenRefresh` | the workspace named by a session's tokens |
| `LocalAppSettings`, `UsernameSearch`, `Currencies` | settings merge, fresh names, the offered currencies |

`dafny verify dfyconfig.toml` checks the whole project.

## Where the code and its promise differ

Each of these is proved, with the condition under which the promise holds.

- Normalising a definition twice differs from normalising it once exactly when its tokens end in two
  semicolons (`SqlNormalise.NormaliseTwice`).
- The two CHECK scanners stay in step exactly until a quote that would close a quoted run has a
  backslash before it (`CheckScan.InStepExact`). On `CHECK (x <> '\')`, as SQLite stores it, only one
  of them finds the end (`CheckScan.ScannersDisagree`). Once apart they may still come to the same
  parenthesis again, so nothing is claimed about their results then.
- On SQLite a CHECK is whatever reads like one in the table's SQL. A literal that does lets a column
  be accepted whose CHECK is missing (`SchemaText.FalseCheckAccepted`); accepting fields is sound exactly
  when every clause that is read is real (`SchemaText.FieldAcceptanceSound`). A literal inside a declared
  clause makes the retry of its table fail (`SchemaReapply.MentionRefusesRetry`). Where nothing but the
  CHECKs reads like one, which can be seen from the declarations, exactly their clauses are read
  (`SchemaText.TextTruthful`).
- On SQLite a named CHECK is the first thing that reads like one of that name, case aside, although
  names that differ in case are different names. Of two such CHECKs the second is accepted with the
  clause of the first and refused with its own (`SchemaText.CaseMistaken`), and a literal in front of
  a CHECK can pass for it (`SchemaText.LiteralMistaken`). Accepting a named CHECK is sound exactly when
  the clause read under its name is its own (`SchemaText.NamedAcceptanceSound`). Over whole runs on
  good texts every recorded CHECK is enforced under some name (`SchemaRuns.FreshRun`), and under its
  own exactly when none can pass for another (`SchemaRuns.NamesKeptExact`).
- A migration that completed but was not recorded is not always accepted on retry:
  `SchemaReapply.MigrationRetryExact` says when. It never is when it creates a table and then adds a
  column or a CHECK that its CreateModel does not declare (`SchemaReapply.AddAfterCreate`,
  `SchemaReapply.CheckAfterCreate`), nor, on SQLite, when it adds a CHECK to a table that had another
  one under a name that differs in case only (`SchemaReapply.TakenNameRefused`).
- A migration stopped inside an operation is accepted on retry only if nothing it looks at is missing
  (`SchemaStopped.StoppedCompletes`); `SchemaInterrupt.MigrationInterruptedExact` says when for any
  order of the statements.
- The hostname cache key normalises a hostname that is already normalised, so a doubled `www.`
  answers from another host's entry (`WorkspaceCache.StalenessByHost`, `WorkspaceCache.DoubleWwwCollides`).
- Invalidation reads the hostnames that are left, so a deleted or renamed hostname keeps its entry
  until it expires, although the docstring says stale mappings are not served
  (`WorkspaceSignals.HostExactStep`, `WorkspaceSignals.DeletedDomainStillAnswers`).
- An app may declare BFG_EXTRA_PUBLIC_PATHS as one of its settings when the host does not; the merge
  accepts it and overwrites the value (`LocalAppSettings.ValueKept`, `LocalAppSettings.ReservedKeyLost`).
- Switching off the only listed currency of a shop whose default is not listed empties the list, which
  then offers every currency (`Currencies.SwitchedOff`). While the default is an active currency this
  cannot happen (`Currencies.NeverSilentlyAll`).

## Model

| member | source | states |
|---|---|---|
| `SqlLexer.LiteralEnd` | bfg2/bfg/core/migration_operations.py:64-83 | the inner loop stops at the first quote that is neither escaped by a backslash nor doubled, or reports which of the two ways the literal is unterminated |
| `SqlLexer.LexemeEnd` | bfg2/bfg/core/migration_operations.py:63-116 | one turn of the loop reads the longest lexeme at the position, and gives the same token and the same error as the lexer function on the rest of the text |
| `SqlLexer.SqlTokens` | bfg2/bfg/core/migration_operations.py:52-119 | both loops end, and the result is the raw token list of the stripped text without one final `;`, or the first error |
| `SqlGrammar.LexerExact` | bfg2/bfg/core/migration_operations.py:52-119 | the lexer succeeds with a token list exactly on the texts some sequence of well-formed lexemes spells, each as long as the text after it allows; every character is consumed once |
| `SqlGrammar.Unambiguous` | bfg2/bfg/core/migration_operations.py:52-119 | no text has two spellings, so escapes, doubled quotes, quoted identifiers and two-character operators are never read in two ways |
| `SqlGrammar.SizeComplete` | bfg2/bfg/core/migration_operations.py:63-116 | a well-formed lexeme in front of text that cannot continue it is read whole: longest match, two-character operators before single characters |
| `SqlGrammar.SizeSound` | bfg2/bfg/core/migration_operations.py:63-116 | whatever is read at the front of a text is such a lexeme |
| `SqlGrammar.LexConcat` | bfg2/bfg/core/migration_operations.py:52-119 | lexing may be cut in front of any character that cannot continue a lexeme: both sides lex independently |
| `SqlNormalise.TokensExact` | bfg2/bfg/core/migration_operations.py:52-119 | what `_sql_tokens` accepts and returns, by spelling alone, with strip and the dropped `;` included |
| `SqlNormalise.LexStrip` | bfg2/bfg/core/migration_operations.py:54-62 | stripping first changes neither which texts are accepted nor their tokens |
| `SqlNormalise.JoinLexes` | bfg2/bfg/core/migration_operations.py:122-123 | lexing the text joined with U+001F gives back the token list, although literals may contain U+001F |
| `SqlNormalise.NormaliseRoundTrip` | bfg2/bfg/core/migration_operations.py:122-123 | the printed normal form of any definition re-lexes to the tokens it was printed from |
| `SqlNormalise.SameNormalForm` | bfg2/bfg/core/migration_operations.py:122-123 | two definitions normalise alike if and only if they have the same tokens (or the same error) |
| `SqlNormalise.NormaliseTwice` | bfg2/bfg/core/migration_operations.py:117-123 | normalising is idempotent if and only if the raw tokens do not end in two semicolons |
| `SqlNormalise.SpacingIrrelevant` | bfg2/bfg/core/migration_operations.py:60-62 | any non-empty whitespace between two texts means the same as any other, also in front of literals and operators |
| `SqlNormalise.SpellingIrrelevant` | bfg2/bfg/core/migration_operations.py:84-99 | a quoted identifier in any of the three quotings and any case gives the token of the bare one |
| `SqlCharacters.OneCharacter` | bfg2/bfg/core/migration_operations.py:57-116 | what the tokenizer makes of every single character, by literal sets: whitespace nothing, capitals their small letter, small letters, digits, the underscore and the fourteen marks themselves, quotes and all others an error |
| `SqlCharacters.TwoCharacters` | bfg2/bfg/core/migration_operations.py:57-115 | two signs are one token exactly when they are one of the nine two-character operators; otherwise each stands for itself, or is unsupported |
| `SqlCharacters.WordExact` | bfg2/bfg/core/migration_operations.py:93-98 | a word of letters, digits, underscores and dollars that starts with no digit or dollar is one token, its capitals made small |
| `SqlCharacters.WordEnds` | bfg2/bfg/core/migration_operations.py:93-98 | and it ends in front of every other character |
| `SqlCharacters.NumberExact` | bfg2/bfg/core/migration_operations.py:99-104 | digits, or digits with a point between them, are one token, unchanged |
| `SqlCharacters.NumberEnds` | bfg2/bfg/core/migration_operations.py:99-104 | a number ends in front of anything but a digit or a point with a digit behind it |
| `SqlCharacters.QuotedExact` | bfg2/bfg/core/migration_operations.py:84-92 | each of the three quotings gives the token of the word it quotes, an error for anything else, and an error when it is not closed |
| `Parens.ClosesAtEnd` | bfg2/bfg/core/migration_operations.py:129-138 | the inner loop answers whether the group opened by the first token closes at the last one |
| `Parens.NormaliseExpressionLoop` | bfg2/bfg/core/migration_operations.py:126-142 | the stripping loop ends and computes the joined core of the token list |
| `Parens.OuterPairIffBalanced` | bfg2/bfg/core/migration_operations.py:128-141 | parentheses round a list are a redundant outer pair exactly when the list is balanced |
| `Parens.StripWrap` | bfg2/bfg/core/migration_operations.py:126-142 | wrapping a balanced list in any number of pairs does not change the result |
| `Parens.StripExact` | bfg2/bfg/core/migration_operations.py:126-142 | the result is the one middle of the list that has no outer pair of its own and gives the list back when wrapped: the maximal nest is removed and nothing else |
| `Parens.Parse` | bfg2/bfg/core/migration_operations.py:126-142 | every balanced token list is the flattening of a forest of groups |
| `Parens.FlattenInjective` | bfg2/bfg/core/migration_operations.py:126-142 | and of only one |
| `Parens.StripIsCore` | bfg2/bfg/core/migration_operations.py:126-142 | stripping a balanced list is taking away the groups that enclose everything |
| `Parens.SameExpressionForm` | bfg2/bfg/core/migration_operations.py:126-142 | expression normal forms are equal if and only if the stripped token lists are |
| `Parens.SameExpressionMeaning` | bfg2/bfg/core/migration_operations.py:126-142 | two balanced expressions normalise alike if and only if they are the same tree once enclosing groups are set aside |
| `Parens.EnclosedText` | bfg2/bfg/core/migration_operations.py:126-142 | putting parentheses round the text of a balanced expression never changes its normal form |
| `CheckScan.ToggleScan` | bfg2/bfg/core/migration_operations.py:411-428 | the quote-toggling scan returns the position its specification gives, or none |
| `CheckScan.DoubleScan` | bfg2/bfg/core/migration_operations.py:435-455 | the doubled-quote scan returns the position its specification gives, or none |
| `CheckScan.InStepExact` | bfg2/bfg/core/migration_operations.py:411-455 | the two scanners are in the same quote state and depth wherever the doubling one stands, up to its stop, if and only if no quote of the open kind inside a quoted run has a backslash before it |
| `CheckScan.ScannersAgree` | bfg2/bfg/core/migration_operations.py:411-455 | under that condition they find the same parenthesis, or none |
| `CheckScan.ScannersDisagree` | bfg2/bfg/core/migration_operations.py:417-451 | on `('\')`, a literal that is one backslash as SQLite stores it, one scanner finds the end and the other does not |
| `CheckScan.CloseSpelled` | bfg2/bfg/core/migration_operations.py:411-428 | on text spelled by lexemes the character scan and the depth count over tokens stop at the same lexeme |
| `CheckScan.ClauseIsTokenMatch` | bfg2/bfg/core/migration_operations.py:411-455 | when the text lexes, both scanners stop at the parenthesis that token-level depth counting finds, and the tokens of the clause and of the text after it are the corresponding slices |
| `CheckScan.ClauseReadBack` | bfg2/bfg/core/migration_operations.py:411-455 | a balanced, quote-closed expression put between parentheses is found whole by both scanners, whatever follows |
| `CheckExtract.ExtractChecks` | bfg2/bfg/core/migration_operations.py:431-456 | the loop over matches returns the clauses of all keyword matches in order |
| `CheckExtract.ChecksExact` | bfg2/bfg/core/migration_operations.py:431-456 | a clause is returned exactly when some match of the keyword pattern cuts it out |
| `CheckPatterns.CheckPatternExact` | bfg2/bfg/core/migration_operations.py:433 | the position test for a CHECK is the match of the regular expression of the source, written down as a pattern, with its word boundary |
| `CheckExtract.TableReadBack` | bfg2/bfg/core/migration_operations.py:431-456 | from table SQL rendered with any clauses, any whitespace and any other text free of the keyword, exactly those clauses come back in order |
| `CheckExtract.ExtractNamedCheck` | bfg2/bfg/core/migration_operations.py:403-428 | the clause of the leftmost match of the named pattern, and none when nothing matches |
| `CheckPatterns.NamedPatternExact` | bfg2/bfg/core/migration_operations.py:404-408 | and that for a named one the match of the other, with some whitespace, the optional quotes and any case |
| `CheckExtract.NamedReadBack` | bfg2/bfg/core/migration_operations.py:403-428 | a named check rendered with any case, whitespace and quoting is matched by the pattern where it stands, and is the one extracted unless something matches before it |
| `CheckExtract.MatchReaches` | bfg2/bfg/core/migration_operations.py:404-408 | every match of the pattern reaches an opening of a CHECK without crossing a parenthesis or a comma, the name lying between |
| `TableText.ChecksRead` | bfg2/bfg/core/migration_operations.py:431-456 | from the SQL of a table whose definitions are good text exactly the clauses of its CHECKs are read, in order |
| `TableText.NamedRead` | bfg2/bfg/core/migration_operations.py:403-428 | and under a name the clause of the first constraint of that name, case aside, or none |
| `Schema.AllEffects` | bfg2/bfg/core/migration_operations.py:574-637 | after a statement list that is not refused, every object it adds is there as declared |
| `Schema.RefusedExact` | bfg2/bfg/core/migration_operations.py:574-637 | the database refuses a statement exactly when its table is not there or a name that it makes is taken |
| `SchemaRetry.AcceptedExact` | bfg2/bfg/core/migration_operations.py:307-364 | of any table, whatever validation accepts has the declared shape in everything but its CHECKs, and in these if and only if they are there; the shape is spelled out apart from the validators: the very column, a unique constraint, an index that serves, the target and passive rules of a foreign key, the columns and orders of an index |
| `SchemaRetry.CreatedIsPresent` | bfg2/bfg/core/migration_operations.py:574-637 | once every statement that validation looks at has run, the object has the declared shape |
| `SchemaRetry.ApplyExtends` | bfg2/bfg/core/migration_operations.py:574-637 | no operation, however interrupted, alters an object that exists |
| `SchemaRefusal.ExistsExact` | bfg2/bfg/core/migration_operations.py:574-637 | an operation validates instead of creating when its table, column, index or constraint is there by name, and always for a constraint the backend never creates |
| `SchemaRefusal.FieldRetryExact` | bfg2/bfg/core/migration_operations.py:307-364 | an existing column is accepted if and only if the backend is MySQL or SQLite, it is no decimal on SQLite, and it differs in nothing: type, nullability, primary key, auto-increment on MySQL, CHECK, unique constraint, index, foreign key target, rules and policy; otherwise it is refused, and nothing is changed |
| `SchemaRefusal.IndexRetryExact` | bfg2/bfg/core/migration_operations.py:482-504 | an existing index if and only if it is a plain one with the declared columns, orders and kind and the declaration has nothing that cannot be compared |
| `SchemaRefusal.ConstraintRetryExact` | bfg2/bfg/core/migration_operations.py:507-540 | a listed constraint if and only if it is the declared unique constraint or CHECK, with its columns, definition or clause |
| `SchemaRefusal.NeverCreatedExact` | bfg2/bfg/core/migration_operations.py:511-514 | a constraint that the backend never creates as long as nothing is listed under its name |
| `SchemaRefusal.ModelRetryExact` | bfg2/bfg/core/migration_operations.py:543-571 | an existing table if and only if it has exactly the declared columns, exactly the declared CHECKs, and every field, index and constraint as above |
| `SchemaRefusal.ExpectedExact` | bfg2/bfg/core/migration_operations.py:555-566 | the CHECKs expected of a table are those of its fields and of the constraints the backend creates |
| `SchemaCreation.KeysMade` | bfg2/bfg/core/migration_operations.py:574-600 | an operation that creates makes the foreign key of every reference the database enforces, with the declared target and no action, one-to-one references too |
| `SchemaCreation.NothingElseMade` | bfg2/bfg/core/migration_operations.py:574-637 | every column, index and constraint that is new after an operation is one it declares |
| `SchemaCreation.OwnTableOnly` | bfg2/bfg/core/migration_operations.py:574-637 | however it ends, an operation touches no table but its own |
| `SchemaText.TextTruthful` | bfg2/bfg/core/migration_operations.py:403-463 | of a SQLite table whose definitions are good text the clauses read are the real ones, and under a name the first CHECK with that name is read, case aside |
| `SchemaText.DoneIsPresent` | bfg2/bfg/core/migration_operations.py:574-637 | an operation that completes, by creating or by accepting, leaves its object in the declared shape; on good SQLite text a CHECK is enforced, under its own name if none that is there or declared can pass for another |
| `SchemaText.ExecuteSound` | bfg2/bfg/core/migration_operations.py:574-637 | every statement that writes good text keeps all tables so, and all CHECKs known |
| `SchemaText.AnyCheckIsRead` | bfg2/bfg/core/migration_operations.py:431-456 | wherever the keyword and a balanced clause in parentheses stand in the SQL, in a literal or a clause as well, that clause is read as a CHECK |
| `SchemaText.FalseCheckAccepted` | bfg2/bfg/core/migration_operations.py:470-479 | a column without its CHECK is accepted when a literal elsewhere in the table's SQL reads like it |
| `SchemaText.FieldAcceptanceSound` | bfg2/bfg/core/migration_operations.py:470-479 | on SQLite accepting a field is sound, whatever is declared, if and only if every clause read from the table's SQL is a real one or one of them does not lex |
| `SchemaText.NamedAcceptanceSound` | bfg2/bfg/core/migration_operations.py:527-537 | of a CHECK listed under a name in any SQLite table, accepting is sound, whatever is declared, if and only if the clause read under the name is that of the CHECK of this name or does not lex |
| `SchemaText.CaseMistaken` | bfg2/bfg/core/migration_operations.py:403-408 | of two CHECKs whose names differ in case only the second is accepted with the clause of the first and refused with its own, in good text whose clauses are all real |
| `SchemaText.LiteralMistaken` | bfg2/bfg/core/migration_operations.py:403-408 | a CHECK is accepted with a clause it does not have when a literal in front of it reads like a constraint of its name with that clause |
| `SchemaRuns.SchemaEditor.ExecuteStatements` | bfg2/bfg/core/migration_operations.py:589-600 | statements run in order up to the first refused one |
| `SchemaRuns.SchemaEditor.AddFieldIfCompatible` | bfg2/bfg/core/migration_operations.py:574-589 | validates an existing column, reading its CHECK from the SQL text on SQLite, creates a missing one with its extras, and leaves exactly that database |
| `SchemaRuns.SchemaEditor.CreateModelIfCompatible` | bfg2/bfg/core/migration_operations.py:592-600 | the same for a table |
| `SchemaRuns.SchemaEditor.AddIndexIfCompatible` | bfg2/bfg/core/migration_operations.py:603-618 | the same for an index, refused on other backends once it exists |
| `SchemaRuns.SchemaEditor.AddConstraintIfCompatible` | bfg2/bfg/core/migration_operations.py:621-637 | the same for a constraint; one the backend never creates is validated only |
| `SchemaRuns.AttemptExact` | bfg2/bfg/core/migration_operations.py:1-6 | a migration completes exactly when nothing interrupts it and each operation in order completes, and stops at the first that does not |
| `SchemaRuns.StepExact` | bfg2/bfg/core/migration_operations.py:1-6 | a migration is recorded exactly when it completes, is never attempted again once recorded, and otherwise leaves what it did unless it is rolled back |
| `SchemaRuns.AttemptIsPresent` | bfg2/bfg/core/migration_operations.py:574-637 | a migration that completes leaves every object of all its operations in place, CHECKs as above |
| `SchemaRuns.StepKeeps` | bfg2/bfg/core/migration_operations.py:1-6 | one deployment, interrupted or not, rolled back or not, keeps what recorded migrations declare |
| `SchemaRuns.RecordedIsPresent` | bfg2/bfg/core/migration_operations.py:1-6 | in every run of attempts, interruptions at any statement or before recording, and retries, a recorded migration's objects are present in their declared shape and nothing that existed is altered; on SQLite for good texts, where every recorded CHECK is enforced, and under its own name if none can pass for another |
| `SchemaRuns.FreshRun` | bfg2/bfg/core/migration_operations.py:1-6 | from a database on which nothing is recorded every recorded CHECK is enforced, whatever the names |
| `SchemaRuns.NamesKeptExact` | bfg2/bfg/core/migration_operations.py:403-428 | on SQLite every recorded CHECK is there under its own name in every run over some CHECKs if and only if none of these can pass for another: one declared, one of the same clause under a name that differs in case, and one of the declared name with another clause |
| `SchemaRuns.CatalogueRun` | bfg2/bfg/core/migration_operations.py:378-392 | on backends with a catalogue of clauses recorded CHECKs are there under their names, nothing being asked of any text or name |
| `SchemaReapply.Verdict` | bfg2/bfg/core/migration_operations.py:482-571 | what has its declared shape exists and is accepted exactly when nothing in the database stands against it |
| `SchemaReapply.MigrationRetryExact` | bfg2/bfg/core/migration_operations.py:1-6 | a whole migration that completed but was not recorded is accepted on retry, changing nothing, if and only if each operation is provable and the table neither has nor gets a column that is not declared, a CHECK that is not expected, a clause that does not lex, a name that must be absent, or, on SQLite, a CHECK with another clause in front of a declared one under the same name, case aside; otherwise every retry is refused |
| `SchemaReapply.ReapplyExact` | bfg2/bfg/core/migration_operations.py:574-637 | the same for one operation that has created its object |
| `SchemaReapply.AddAfterCreate` | bfg2/bfg/core/migration_operations.py:543-548 | a migration that creates a table and adds a column it does not declare is refused on every retry |
| `SchemaReapply.CheckAfterCreate` | bfg2/bfg/core/migration_operations.py:555-571 | so is one that adds a CHECK the CreateModel does not expect |
| `SchemaReapply.TakenNameRefused` | bfg2/bfg/core/migration_operations.py:403-408 | so is, on SQLite, one that adds a CHECK to a table that had one with another clause under a name that differs in case only |
| `SchemaReapply.HarmlessAdditions` | bfg2/bfg/core/migration_operations.py:603-637 | statements that give the table no column, no CHECK and no name that must be absent, as indexes and unique constraints do not, change no verdict |
| `SchemaReapply.MentionRefusesRetry` | bfg2/bfg/core/migration_operations.py:431-456 | a declared clause that mentions another as a literal makes every retry of its CreateModel fail on SQLite, although the table is the declared one |
| `SchemaInterrupt.PresentExact` | bfg2/bfg/core/migration_operations.py:574-637 | whichever statements ran, in any order, the declared shape is there if and only if all ran that are missed: all but foreign keys that are not looked at and a field's index or unique constraint that another one replaces |
| `SchemaInterrupt.InterruptedExact` | bfg2/bfg/core/migration_operations.py:1-6 | an operation stopped after some of its statements, in any order that starts with its table or column, is accepted on retry if and only if it is settled by those that ran and all ran that are missed; otherwise it is refused |
| `SchemaInterrupt.IndexReplaced` | bfg2/bfg/core/migration_operations.py:262-285 | on MySQL the index of a foreign key is not missed once a declared unique constraint that starts with its column is there |
| `SchemaInterrupt.MigrationInterruptedExact` | bfg2/bfg/core/migration_operations.py:1-6 | a migration of which some statements ran, in any order and across operations as when Django defers them, is taken up on retry after the operations tried if and only if each of these is accomplished by what ran; otherwise it is refused |
| `SchemaStopped.StoppedExact` | bfg2/bfg/core/migration_operations.py:1-6 | a migration that would complete, stopped after any number of statements and attempted again from the start, is taken up after the operations tried if and only if each is accomplished by what ran |
| `SchemaStopped.StoppedCompletes` | bfg2/bfg/core/migration_operations.py:1-6 | and when the others create their objects, this second attempt completes if and only if each is |
| `WorkspaceCache.Resolver.GetById` | bfg2/bfg/common/middleware.py:181-202 | answers and caches as the lookup by id does, a bad id touching nothing |
| `WorkspaceCache.Resolver.GetByHost` | bfg2/bfg/common/middleware.py:150-179 | answers and caches as the lookup by hostname does |
| `WorkspaceCache.Resolver.InvalidateWorkspace` | bfg2/bfg/common/middleware.py:245-258 | drops the id key and the key of every hostname the rows hold now, and no other |
| `WorkspaceCache.NormalizeExact` | bfg2/bfg/common/models/workspace_domain.py:122-131 | normalising a host drops one leading www. and nothing else |
| `WorkspaceCache.LookupById` | bfg2/bfg/common/middleware.py:181-202 | on any cache a live active workspace is answered, a live inactive one dropped, and otherwise the rows' active workspace is answered and remembered for one TTL |
| `WorkspaceCache.LookupByHost` | bfg2/bfg/common/middleware.py:150-179 | likewise by hostname: only a verified domain with this name answers, and only with an active workspace |
| `WorkspaceCache.InvalidateExact` | bfg2/bfg/common/middleware.py:245-258 | invalidation drops the id and the workspace's present hostnames and keeps every other entry |
| `WorkspaceCache.StalenessById` | bfg2/bfg/common/cache_policy.py:4-6 | over every run of lookups, silent row changes, invalidations and ticks, a workspace answered by id was the rows' answer less than one TTL ago, None is their answer now, and no cached workspace is inactive |
| `WorkspaceCache.StalenessByHost` | bfg2/bfg/common/cache_policy.py:4-6 | the same promise for hostnames holds, for every run over a set of hosts, if and only if no two of them collide (or nothing is cached) |
| `WorkspaceCache.CollisionStale` | bfg2/bfg/common/middleware.py:152-174 | two colliding hosts: a lookup of one makes the other answer what no row ever said |
| `WorkspaceCache.DoubleWwwCollides` | bfg2/bfg/common/models/workspace_domain.py:122-135 | a host collides with itself behind a doubled `www.`, because the cache key normalises a second time |
| `WorkspaceCache.PlainHostsSound` | bfg2/bfg/common/models/workspace_domain.py:122-135 | hosts without a doubled `www.` never collide |
| `WorkspaceSignals.ExactById` | bfg2/bfg/common/signals.py:24-52 | when every change fires its signal, a lookup by id is exactly the rows' answer in every reachable state |
| `WorkspaceSignals.SignalsExact` | bfg2/bfg/common/signals.py:24-52 | which row changes send a signal, and for which workspace |
| `WorkspaceSignals.RowsAfter` | bfg2/bfg/common/signals.py:24-52 | what saving, renaming and deleting do to the rows before the signal is sent |
| `WorkspaceSignals.SignalDrops` | bfg2/bfg/common/signals.py:24-52 | a signal drops the id of its workspace and every hostname the workspace is left with |
| `WorkspaceSignals.HostExactStep` | bfg2/bfg/common/signals.py:36-52 | a change with its signal keeps hostname lookups exact if and only if no hostname it removes is live in the cache |
| `WorkspaceSignals.ExactByHost` | bfg2/bfg/common/signals.py:24-52 | over every run of such changes a hostname lookup is exactly the rows' answer |
| `WorkspaceSignals.DeletedDomainStillAnswers` | bfg2/bfg/common/middleware.py:245-258 | after a looked-up domain is deleted, with its signal, its hostname still answers the workspace |
| `StreamAssembly.AbsorbChunk` | bfg2/bfg/core/agent_views.py:677-690 | the fragments of one chunk are added in order, those without an index ignored |
| `StreamAssembly.Assemble` | bfg2/bfg/core/agent_views.py:664-691 | the pieces sent to the client concatenate to the recorded content; calls are what all fragments add up to |
| `StreamAssembly.JoinedExact` | bfg2/bfg/core/agent_views.py:691 | every piece of content stands whole between the pieces before and after it |
| `StreamAssembly.StreamExact` | bfg2/bfg/core/agent_views.py:666-690 | of each chunk with a choice the text, unless empty, and the fragments are read, in the order of the chunks, and of the others nothing |
| `StreamAssembly.ListCalls` | bfg2/bfg/core/agent_views.py:692 | each assembled call once, in index order |
| `StreamAssembly.ProjectionAt` | bfg2/bfg/core/agent_views.py:678-690 | what is assembled for an index depends on its own fragments alone |
| `StreamAssembly.ProjectionDecides` | bfg2/bfg/core/agent_views.py:664-692 | two streams with the same fragments per index assemble to the same calls |
| `StreamAssembly.Reassembled` | bfg2/bfg/core/agent_views.py:664-692 | every cutting of the calls into fragments and every interleaving that keeps the order of each index assembles to exactly those calls |
| `StreamAssembly.OrderKept` | bfg2/bfg/core/agent_views.py:692 | the list handed on holds the call of the n-th smallest index at place n |
| `ChatLoop.Chat` | bfg2/bfg/core/agent_views.py:549-625 | the loop computes the conversation: transcript, calls made, reply and number of model calls |
| `ChatLoop.RunTools` | bfg2/bfg/core/agent_views.py:581-624 | each tool call adds one log entry and one tool message, in order, however the tool ends |
| `ChatLoop.StreamChat` | bfg2/bfg/core/agent_views.py:648-741 | the streamed loop computes its conversation from the assembled streams |
| `ChatLoop.ConversePaired` | bfg2/bfg/core/agent_views.py:557-630 | for every vendor and all tools, also tools that keep state, the model is asked at most max_tool_rounds times, each assistant message is followed by exactly its own results, and the log lists those calls in order, each entry being the API's result, the failure of an unknown or forbidden capability, or what the handler returned or raised on the log before it |
| `ChatLoop.ConverseEnds` | bfg2/bfg/core/agent_views.py:557-630 | the conversation stops only when it has been asked as often as it may, when the model has nothing to say, or when its message asks for no tools |
| `ChatLoop.ConverseFaithful` | bfg2/bfg/core/agent_views.py:553-580 | every assistant message in the transcript is the vendor's answer to exactly the messages before it |
| `ChatLoop.ReplyIsLast` | bfg2/bfg/core/agent_views.py:571-572 | the reply shown is the last text the model gave in the transcript |
| `ChatLoop.PermittedOnly` | bfg2/bfg/core/agent_views.py:598-612 | whatever the model asks for, no conversation depends on a handler the user may not run |
| `ChatLoop.StreamPaired` | bfg2/bfg/core/agent_views.py:648-741 | the streamed conversation is bounded, paired and logged alike, entry by entry, and its reply is its last message when that is the model's |
| `ChatLoop.StreamRefines` | bfg2/bfg/core/agent_views.py:648-741 | however the vendor's answers to the transcripts reached are cut into streams, the streamed conversation makes the same calls and asks as often as the plain one, and has the same transcript but for an empty assistant message at the end, which it keeps exactly when the model ends the conversation by saying nothing |
| `TokenMeter.Meters.MeterTokens` | bfg2/bfg/core/agent_views.py:172-198 | one finished call adds its three counts, zero counts skipped, and nothing when no usage is reported |
| `TokenMeter.TokensExact` | bfg2/bfg/core/agent_views.py:140-147 | a count is the number reported or zero, whichever is more, and zero when it is no number |
| `TokenMeter.MeterNameExact` | bfg2/bfg/core/agent_views.py:68-71 | the three meters of a model are named ai.<model>.input, .input_cached and .output |
| `TokenMeter.MeterNamesDiffer` | bfg2/bfg/core/agent_views.py:68-71 | a meter name belongs to one model and one kind, whatever the model is called |
| `TokenMeter.Conserved` | bfg2/bfg/core/agent_views.py:140-198 | over every run fresh plus cached input equals the clamped prompt tokens reported for the model, the cached part is what was reported as cached up to the prompt, and output equals the completion tokens |
| `TokenMeter.OnlyWhatWasUsed` | bfg2/bfg/core/agent_views.py:194-198 | no meter is recorded as zero and none ever falls |
| `TenantBinding.Thread.SetCurrentWorkspace` | bfg2/bfg/common/middleware.py:120-126 | the binding is the one given, None clearing it |
| `TenantBinding.Thread.BoundWorkspace` | bfg2/bfg/common/middleware.py:129-147 | the earlier binding is restored however the block ends, and its queries run under the block's binding |
| `TenantBinding.Thread.Run` | bfg2/bfg/common/middleware.py:115-147 | any nesting of rebinding, services, blocks, queries and errors gives the results its shape determines |
| `TenantBinding.Thread.Call` | bfg2/bfg/common/middleware.py:394-399 | the thread is unbound after every request however it ends |
| `TenantBinding.Thread.Dispatch` | bfg2/bfg/common/middleware.py:401-441 | public, bootstrap and delegated requests run unbound, others bound to the resolved workspace, and a request without workspace or membership runs no view |
| `TenantBinding.Admission` | bfg2/bfg/common/middleware.py:400-441 | a request is denied exactly when it is not public, has a workspace, and its signed-in user is no superuser and no member; a workspace is required exactly when it is not public, has none, and is neither a bootstrap path nor delegated; every other request runs its view |
| `TenantBinding.SeenByMembers` | bfg2/bfg/common/middleware.py:400-441 | when a row is seen in a request that is not public, the signed-in user is a member of the row's workspace or a superuser |
| `TenantBinding.BodyIsRun` | bfg2/bfg/common/middleware.py:124-147 | what a body sees, leaves bound and raises is what a machine of single tasks does that drops tasks on an error but puts every binding back |
| `TenantBinding.VisibleExact` | bfg2/bfg/common/managers.py:41-46 | a query sees exactly the rows of the bound workspace, each as often as stored, and none when nothing is bound |
| `TenantBinding.VisibleInOrder` | bfg2/bfg/common/managers.py:41-46 | and in the order of the rows |
| `TenantBinding.BindingKept` | bfg2/bfg/common/middleware.py:129-147 | a body that rebinds only inside blocks leaves the binding as it was, however deep it nests |
| `TenantBinding.OnlyNamedSeen` | bfg2/bfg/common/middleware.py:120-147 | no query is answered for a workspace neither the request nor the body named |
| `TenantBinding.BlockIsInvisible` | bfg2/bfg/common/middleware.py:139-147 | the queries after a block see what they would without it |
| `TenantBinding.TenantIsolation` | bfg2/bfg/common/middleware.py:394-441 | in a request whose view names no other workspace no query sees another tenant's row |
| `ConditionEngine.AllByFirst` | bfg2/bfg/core/condition_engine.py:104-105 | AND is the outcome of its first rule that is not true; rules after it are never looked at |
| `ConditionEngine.AnyByFirst` | bfg2/bfg/core/condition_engine.py:106-107 | OR is the outcome of its first rule that is not false |
| `ConditionEngine.OutcomeExact` | bfg2/bfg/core/condition_engine.py:95-109 | exactly when a condition is true and when it is an error; none at all is true, and an empty group is true before its operator is looked at |
| `ConditionEngine.LeafExact` | bfg2/bfg/core/condition_engine.py:111-214 | a comparison is true exactly when field and operator are named, the field has a value, the operator is one of the nine and the value compares so, value first; and exactly when it is an error |
| `ConditionEngine.NestedExact` | bfg2/bfg/core/condition_engine.py:111-138 | a nested group counts as its own condition |
| `ConditionEngine.SimplifyPreserves` | bfg2/bfg/core/condition_engine.py:95-138 | flattening same-operator groups and dropping empty groups under AND, at any depth, keeps the three-way outcome in every context |
| `ConditionEngine.SimplifiedFlat` | bfg2/bfg/core/condition_engine.py:95-138 | and leaves nothing more to flatten |
| `ConditionEngine.EmptyUnderOr` | bfg2/bfg/core/condition_engine.py:101-107 | dropping an empty group under OR would be wrong |
| `TokenRefresh.Sessions.SignIn` | config/serializers.py:246-270 | issues a pair in which both tokens name the preferred active membership (own default, first staff row, first customer row), or none when there is none |
| `TokenRefresh.Sessions.Refresh` | config/serializers.py:367-406 | keeps the refresh token's workspace while the user is an active member there, else chooses as sign-in does; an inactive account is refused and nothing is issued |
| `TokenRefresh.Sessions.Switch` | bfg2/bfg/platform/views/switch_workspace_view.py:28-60 | issues a pair for the workspace to its active members only; for staff it becomes the default |
| `TokenRefresh.ResolveExact` | config/serializers.py:252-270 | the workspace chosen is an active membership: the own default, else the first staff row, else the first customer row; None exactly when there is none |
| `TokenRefresh.MemberExact` | config/serializers.py:245-270 | membership is an active row, as staff or customer, in an active workspace |
| `TokenRefresh.SwitchedExact` | bfg2/bfg/platform/views/switch_workspace_view.py:42-47 | a switch changes the default workspace of staff, leaves a customer's alone, and changes nothing else |
| `TokenRefresh.SwitchThenSignIn` | bfg2/bfg/platform/views/switch_workspace_view.py:42-47 | the next sign-in of a staff member lands in the workspace switched to |
| `TokenRefresh.EveryPairGranted` | config/serializers.py:380-406 | in every run with refreshes from any earlier token, every pair ever issued names one workspace in both tokens, an active membership when it was issued, none exactly when there was none |
| `TokenRefresh.SessionSticks` | config/serializers.py:351-354 | every pair refreshed from a pair for a workspace names that workspace for as long as the membership holds without a break |
| `LocalAppSettings.Host.ApplyLocalAppSettings` | config/local_apps.py:115-153 | the loops publish the merged settings, or fail with the first error and leave the namespace untouched |
| `LocalAppSettings.MergeExact` | config/local_apps.py:115-153 | the merge succeeds if and only if every app is valid and no key is the host's or declared by two apps; then host values stay, app keys hold the app's values, and nothing else is added |
| `LocalAppSettings.KeyExact` | config/local_apps.py:136-138 | a key is accepted exactly when it is made of capitals, digits and underscores, starts with no digit and has a capital |
| `LocalAppSettings.ShortNameExact` | config/local_apps.py:143 | the short name of an app holds no dot and is what stands behind the last dot of its name |
| `LocalAppSettings.GoodPathExact` | config/local_apps.py:143-150 | a path, given by its parts, is accepted exactly when it starts with /api/v1/, the short name and a slash, has no part . or .., and holds no ?, # or backslash |
| `LocalAppSettings.PublicExact` | config/local_apps.py:128-153 | after an accepted merge exactly the host's own public paths and those the apps declare are public |
| `LocalAppSettings.ValueKept` | config/local_apps.py:134-153 | an app's value, of any kind, is lost exactly under the key the merge writes itself, unless it is the very list written there |
| `LocalAppSettings.ReservedKeyLost` | config/local_apps.py:134-153 | an app that declares that key with a list of paths is accepted by a host that does not, and its list is lost |
| `LocalAppSettings.FirstsExact` | config/local_apps.py:153 | public paths: nothing added, lost or repeated, first occurrences in order |
| `LocalAppSettings.PublicOnlyByOwner` | config/local_apps.py:139-148 | a path becomes public only if the host says so or it lies under the prefix of an app that declares it |
| `LocalAppSettings.PrefixesApart` | config/local_apps.py:140 | a path lies under two apps' prefixes only when they end in the same name |
| `LocalAppSettings.SplitExact` | config/local_apps.py:140-143 | the parts of a path or a dotted name hold no separator and make it up again |
| `LocalAppSettings.OrderFree` | config/local_apps.py:115-153 | a list of apps is accepted in one order exactly when it is in every order, with the same settings and the same set of public paths |
| `UsernameSearch.FreshName` | config/serializers.py:51-59 | the search ends within one more probe than there are names, and returns the first free name in the order base, base1, base2 |
| `UsernameSearch.DecimalReadBack` | config/serializers.py:58 | decimal suffixes read back as their numbers, so no two candidates coincide |
| `UsernameSearch.CandidateExact` | config/serializers.py:50-59 | the first name tried is the base alone, the others are the base and a numeral without leading zero |
| `UsernameSearch.LocalPart` | config/serializers.py:51-52 | the part of the address before the first @ |
| `UsernameSearch.OneFirstFree` | bfg2/bfg/common/views.py:2513-2519 | there is one first free name, for any separator |
| `UsernameSearch.NamesNeverShared` | config/serializers.py:50-59 | over any run of registrations no two accounts share a name, and each name starts with the local part |
| `UsernameSearch.NumberedInOrder` | config/serializers.py:55-59 | in any run of registrations accounts with one local part are numbered in the order they register, whoever registers in between |
| `UsernameSearch.Numbered` | config/serializers.py:55-59 | and each has such a number |
| `Currencies.ShopSettings.Save` | bfg2/bfg/common/models/core.py:241-247 | a saved non-empty list holds the default currency |
| `Currencies.ShopSettings.SetCurrencyEnabled` | bfg2/bfg/finance/currencies.py:28-57 | stores the switched list, or refuses to switch off the default and changes nothing |
| `Currencies.ShopSettings.ChooseDefault` | bfg2/bfg/common/models/core.py:241-247 | a new default is added to an explicit list |
| `Currencies.SavedExact` | bfg2/bfg/common/models/core.py:241-247 | saving puts a missing default behind the codes of a non-empty list and changes nothing else |
| `Currencies.SwitchedOnStored` | bfg2/bfg/finance/currencies.py:43-53 | switching on stores the list as it is, or with the currency behind it |
| `Currencies.SwitchedOffStored` | bfg2/bfg/finance/currencies.py:43-53 | switching off takes the currency out of the list, or out of all active codes, the others keeping their order |
| `Currencies.SwitchedOn` | bfg2/bfg/finance/currencies.py:43-52 | switching an active currency on adds exactly it to the offered set |
| `Currencies.SwitchedOff` | bfg2/bfg/finance/currencies.py:43-57 | switching one off removes exactly it if and only if the list names some other currency; otherwise the list becomes empty and offers everything |
| `Currencies.NeverSilentlyAll` | bfg2/bfg/finance/currencies.py:43-57 | while the default is active no switch-off empties the list |
| `Currencies.OffersAPlainSet` | bfg2/bfg/finance/currencies.py:7-10 | over every run of switches and changes of the default the offered set is the fold of insertions and removals on a plain set, and the default is always offered |
| `Currencies.AChoiceIsNeverForgotten` | bfg2/bfg/finance/currencies.py:7-10 | once a shop has chosen, its list is never empty again and names the default, whatever currencies are activated or deactivated in between |

## Left out

- SqlTokens: characters are classified as ASCII; Python's wider Unicode whitespace and digits are not modelled, and a value of None is the empty text.
- ExtractNamedCheck: the regular expressions of both extractions are written as scans over ASCII, with case folded for letters only.
- ScannersAgree: goes one way, as said above; the if-and-only-if is InStepExact.
- AcceptedExact: column types are compared as already normalised by `_normalise_type`, whose rewriting is not modelled.
- TextTruthful: a text is good when its names are identifiers, its clauses are balanced and lex, and nothing but its CHECKs reads like one; this is enough, not needed. The exact conditions for any text are FieldAcceptanceSound and NamedAcceptanceSound. Definitions stand in the order they were added, where Django's table rebuild on SQLite writes them in another.
- AddFieldIfCompatible: the messages of `_fail` are one outcome, Refused; introspection queries, real DDL and Django's migration executor are represented by the schema map and its statements.
- RecordedIsPresent: on SQLite the texts are good ones, as FalseCheckAccepted and LiteralMistaken show is needed of them in part. The attempts of a run execute their statements in one order, an operation at a time; other orders are covered for one stopped migration by MigrationInterruptedExact. DDL by others while deployments run is not modelled; MySQL rewriting clauses or dropping a redundant foreign-key index is not modelled either. A one-to-one reference is created but, as in the code, not validated.
- MigrationRetryExact: takes as given what Django checks before a migration is made, namely no nullable primary key and no two fields with one column. On SQLite it is about good texts.
- InterruptedExact: an operation may stop after any object, also inside what is one SQL statement; the statements that did not run are taken to be ones the database would run. Which orders Django chooses is not modelled, all of them are allowed.
- StoppedCompletes: supposes that the operations that were not tried create their objects; in general StoppedExact says that they are attempted for the first time from where the migration stopped.
- GetById: each lookup is one atomic step; database errors and races between a cache read and its later set are out, and the TTL is a fixed number.
- GetByHost: hostnames are bare and lower-case; the scheme, port and path parsing of `normalize_hostname` is out, and so is the creation of a default domain when a workspace is saved.
- Dispatch: which workspace a request resolves to (token, session, header, host) is an input of the request.
- Chat: JSON parsing of arguments, trimming of the reply and the HTTP and vendor clients are out; the vendor is an arbitrary function of the transcript, a tool one of the call and the log before it, and an API tool is one that returns.
- StreamChat: the server-sent events other than the content pieces are out.
- MeterTokens: the model name is taken trimmed and lower-cased, and a metering client that raises is out.
- Evaluate: reading a field and comparing two present values are arbitrary total functions of the context, so Decimal coercion is out; flattening is a property stated about the engine, not code of the repository.
- Refresh: signing, decoding, expiry and blacklisting of tokens are out, so any earlier refresh token may be used again; a token is the workspace it names. Rotation is on, as in config/settings.py:468.
- ApplyLocalAppSettings: importing the host_settings modules is out; a host value of BFG_EXTRA_PUBLIC_PATHS is a list of paths, and each app's declarations are an input.
- FreshName: names are compared exactly; a name taken by another request between the search and the insert is out.
- SetCurrencyEnabled: the settings row exists; the creation of a missing row is out.
- Tool category filtering, role registry merging, secret masking, wallets, payments, freight pricing, extensions and seed data: they would only add easy members, or their code lies elsewhere.
