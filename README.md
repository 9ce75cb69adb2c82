# Oxidius front end in Dafny

A model of the front end of Oxidius, a small declarative language for
mathematical statements, together with proofs about that model. The front
end has three layers:

- **Tagged unions** (`source/common/variant.hpp`). A variant over a list of
  alternatives, `is`/`as` accessors, and `type_index`, the position of the
  first occurrence of a type in the list. The model is `Variant`
  (variant.dfy). A variant value is a tag plus a payload.
- **The `nabu` combinator engine** (`source/common/nabu.hpp`). The model is
  `Nabu` (nabu.dfy).
  - On the lexer side there are recognisers `(text, cursor) -> optional
    value`: the literal recogniser `raw`, the duplicate-type check, and
    `lexer_group`. `lexer_group` tries an ordered list of recognisers at
    each position and lexes a whole text, all or nothing.
  - On the parser side there are parsers `(tokens, cursor) -> optional
    value`: `parse_token`, the sequence `parser_chain` and the delimited
    repetition `parser_loop`.
  - The cursor is an in-out `size_t &i` in the C++. Here every recogniser
    and parser returns the new cursor, and a parser returns it on failure
    too.
- **The concrete lexer and grammar:**
  - `source/token.hpp` gives the token kinds, `lex_space`, `lex_identifier`
    and the recogniser order `oxidius_lexer`. The model is `Tokens`
    (token.dfy).
  - `source/exec/grammar.hpp` gives the syntax tree. The model is `Ast`
    (ast.dfy): one datatype per node, one constructor per variant
    alternative, and plain recursion where the C++ boxes a
    `PureExpression` in a `shared_ptr`.
  - `source/exec/grammar.cpp` gives the productions built on the
    combinators. The model is `Grammar` (grammar.dfy).

`Driver` (driver.dfy) models the loop at the end of `source/exec/main.cpp`:
parse one instruction after another until one fails. `Program` chains
the whole pipeline: tokenize, drop whitespace entries, drain.

The files lexer_examples.dfy, grammar_examples.dfy and program_examples.dfy
prove what the front end does on concrete input. Some examples:

- `index` lexes as `in` followed by `dex`.
- `a + b` parses to the same node as `a`.
- `{ a }` is accepted as an empty list of domains.
- `x = { $a in Real }` is an assignment.
- `from std use Real` is one import, end to end.

### What the model follows where the code and its comments differ

The code decides each case below, and the model follows the code. The
grammar comments in `source/exec/grammar.cpp` and the natural reading of
the language say otherwise.

- `parser_chain` never rewinds. On failure it assigns `c = i` rather than
  `i = c` (`source/common/nabu.hpp:176-177`), so a failing chain leaves the
  cursor past the parts that matched. `options` then restores the entry
  cursor, but a chain used on its own does not. Examples:
  - `import` on `from std` fails at cursor 2.
  - An association that fails after `x ::` leaves the cursor past the `::`.
- `parser_loop` rejects a trailing delimiter, although the comment
  `( pure_predicate_domain ','? )*` suggests an optional comma.
- With `EmptyOk`, a first item that fails still succeeds with no items.
  The cursor stays wherever the failed item left it, so `{ a }` is the
  empty list of predicates.
- `pure_expression` keeps only its first term. `a + b` yields the node of
  `a` and consumes three tokens. With `a + b + c`, only one `+` is
  consumed.
- The comment on `expression` shows only a reference, but the code first
  tries `'$' '(' pure_expression ')'`.
- `value` tries association, reference, predicates and then statement, in
  that order. The comment names `pure_predicates`, but the code uses
  `predicates`. After `reference` has failed, a predicates value is always
  a braced list and a statement value is always a pure one
  (`Grammar.ValueAlternativesNarrowed`).
- `lexer_group` keeps the whitespace entries that `lex_space` yields. The
  grammar has no token for them, so `Tokens.Significant` drops them before
  parsing.

## Model

| member | source | states |
|---|---|---|
| `Variant.VariantIndex` | source/common/variant.hpp:5-15 | The result is -1 when `t` is not among the alternatives. Otherwise it is the position of `t`'s first occurrence, counted from `i`. |
| `Variant.TypeIndex` | source/common/variant.hpp:36-39 | The 0-based position of the first occurrence of `t`. It is -1 exactly when `t` is not an alternative. |
| `Variant.As` | source/common/variant.hpp:26-34 | Defined only when `is` holds. It returns the payload of the held alternative. |
| `Variant.Is` | source/common/variant.hpp:21-24 | `is<T>()` holds exactly when the variant holds alternative `t`; `IsIffSameIndex` ties it to `type_index`. |
| `Variant.Index` | source/common/variant.hpp:17-19 | `index()`, inherited from `std::variant`: -1 exactly when the held alternative is not in the list, otherwise a position in the list that holds it. |
| `Variant.IsIffSameIndex` | source/common/variant.hpp:21-24 | `is<T>()` holds exactly when the held alternative's index equals `type_index<T>()`. |
| `Variant.FirstOccurrenceWins` | source/common/variant.hpp:8-14 | A repeated alternative is found at its first position, and a missing one gives -1. |
| `Nabu.RawExpanded` | source/common/nabu.hpp:36-46 | Succeeds exactly when the literal occurs at the cursor. On success it yields "?" and advances by the literal's length. On a mismatch the cursor is unchanged. |
| `Nabu.Raw` | source/common/nabu.hpp:48-59 | The recogniser `raw<s, T>`, tagged with its result type; `RawRun` states what it recognises. |
| `Nabu.RawRun` | source/common/nabu.hpp:48-59 | `raw` recognises its literal at the cursor and yields `T("?")` or `T()`. Otherwise it fails and the cursor stays. |
| `Nabu.HasDuplicates` | source/common/nabu.hpp:69-76 | True exactly when two positions of the type list hold the same type. |
| `Nabu.ValidLexerGroup` | source/common/nabu.hpp:79-83 | `valid_lexer_group`: the group's result types, in order, have no duplicate (`HasDuplicates` is stated above; `Tokens.OxidiusLexerIsValid` proves it for the lexer). |
| `Nabu.EvalI` | source/common/nabu.hpp:100-113 | Fails exactly when every recogniser from `from` on fails. Otherwise it yields the value of the first recogniser that succeeds, tagged with that recogniser's type. |
| `Nabu.EvalIAt` | source/common/nabu.hpp:100-113 | When recogniser `m` is the first to succeed, `eval_i<0>` yields its value and cursor. |
| `Nabu.LexFrom` | source/common/nabu.hpp:115-120 | The repeated attempts stop inside the text, at a position where no recogniser matches. |
| `Nabu.LexFromStep` | source/common/nabu.hpp:115-120 | One attempt either collects a variant and resumes strictly further on, inside the text, or collects nothing and stops where it is. |
| `Nabu.LexerGroup` | source/common/nabu.hpp:115-128 | Succeeds with every value produced exactly when the attempts reach the end of the text. Otherwise the cursor is restored and nothing is returned. |
| `Nabu.RunLexerGroup` | source/common/nabu.hpp:115-128 | The `while (eval_i<0>)` loop as written computes `LexerGroup`. |
| `Nabu.ParseToken` | source/common/nabu.hpp:237-245 | Succeeds exactly when the token at the cursor has kind `k`. It returns the payload and advances by one. A failure, including at the end of the tokens, leaves the cursor. |
| `Nabu.Singlet` | source/exec/grammar.cpp:7-19 | `parse_token<K>` as a parser value; `SingletSound` states that it keeps the bounds and consumes on success. |
| `Nabu.Convert` | source/exec/grammar.cpp:22-25 | Maps the value of the wrapped parser and keeps its cursor; `ConvertSound` states the bounds it preserves. |
| `Nabu.Chain2` | source/common/nabu.hpp:146-183 | `parser_chain` of two parts; `Chain2Succeeds`, `Chain2TokenHead`, `ChainDoesNotRewind` and `Chain2Sound` state its behaviour. |
| `Nabu.Chain3` | source/common/nabu.hpp:154-170 | `parser_chain` of three parts, nested as `eval_i` recurses; `Chain3Sound` states its bounds. |
| `Nabu.Chain4` | source/common/nabu.hpp:154-170 | `parser_chain` of four parts, nested the same way; `Chain4Sound` states its bounds. |
| `Nabu.Options2` | source/exec/grammar.cpp:28-31 | `options` over two alternatives, each tried from the entry cursor; `Options2FirstSuccess` and `Options2Sound` state its behaviour. |
| `Nabu.Options3` | source/exec/grammar.cpp:87-91 | `options` over three alternatives, nested from the two-way one; `Options3Sound` states its bounds. |
| `Nabu.Options4` | source/exec/grammar.cpp:76-81 | `options` over four alternatives; `Options4Sound` states its bounds. |
| `Nabu.SingletSound` | source/exec/grammar.cpp:7-19 | A single-token parser keeps the cursor in bounds and consumes on success. |
| `Nabu.ConvertSound` | source/exec/grammar.cpp:22-25 | `convert` keeps the bounds, the consumption and the reset on failure of the parser it wraps. |
| `Nabu.Chain2Sound` | source/common/nabu.hpp:154-170 | A chain keeps the cursor in bounds, and consumes when its head does. |
| `Nabu.Chain3Sound` | source/common/nabu.hpp:154-170 | The same for a chain of three. |
| `Nabu.Chain4Sound` | source/common/nabu.hpp:154-170 | The same for a chain of four. |
| `Nabu.Chain2Succeeds` | source/common/nabu.hpp:154-181 | A chain succeeds exactly when its parts succeed in turn, each from where the previous one stopped. It yields their values in order and ends where the last part ended. |
| `Nabu.Chain2TokenHead` | source/common/nabu.hpp:154-170 | A chain headed by one token: it fails at the entry if that token is missing. Otherwise it runs the rest from the next token. |
| `Nabu.ChainDoesNotRewind` | source/common/nabu.hpp:172-179 | When the head succeeds and a later part fails, the chain fails with the cursor exactly where the failing part left it, which is still past the head. |
| `Nabu.Options2FirstSuccess` | source/exec/grammar.cpp:28-31 | `options` yields the first alternative that succeeds from the entry cursor. It fails exactly when all fail, and then the cursor is at the entry. |
| `Nabu.Options2Sound` | source/exec/grammar.cpp:28-31 | `options` keeps the cursor in bounds and resets it on failure. It consumes when every alternative does. |
| `Nabu.Options3Sound` | source/exec/grammar.cpp:87-91 | The same for three alternatives. |
| `Nabu.Options4Sound` | source/exec/grammar.cpp:76-81 | The same for four alternatives. |
| `Nabu.ParserLoop` | source/common/nabu.hpp:206-227 | The `while (true)` loop as written computes `Loop`. |
| `Nabu.LoopFrom` | source/common/nabu.hpp:206-227 | `parser_loop` with a delimiter, from a cursor with the items collected so far; the `Loop*` lemmas below state its behaviour. |
| `Nabu.Loop` | source/common/nabu.hpp:230-236 | The `loop` factory: `LoopFrom` from the entry with nothing collected; `ParserLoop` is the loop as written. |
| `Nabu.LoopFailureRestores` | source/common/nabu.hpp:212-217 | A failing loop puts the cursor back at its entry. |
| `Nabu.LoopFromWithin` | source/common/nabu.hpp:206-227 | The loop keeps the cursor between its position and the end of the tokens. |
| `Nabu.LoopSound` | source/common/nabu.hpp:206-227 | The loop, as a parser, keeps the cursor in bounds. |
| `Nabu.LoopFromExtends` | source/common/nabu.hpp:210-223 | A successful loop extends what it had collected. It adds at least one item unless none was found, which only `EmptyOk` accepts. |
| `Nabu.LoopEmptyOnlyIfAllowed` | source/common/nabu.hpp:212-214 | An empty result is possible only when `EmptyOk`. |
| `Nabu.LoopZeroItems` | source/common/nabu.hpp:211-217 | With no first item, an `EmptyOk` loop succeeds with nothing and the cursor stays where the item left it. Any other loop fails at the entry. |
| `Nabu.LoopEndsWithoutDelimiter` | source/common/nabu.hpp:220-223 | An item not followed by a delimiter ends the loop successfully with that item appended. |
| `Nabu.LoopContinuesAfterDelimiter` | source/common/nabu.hpp:220-223 | An item followed by a delimiter is collected, and the loop goes on after the delimiter. |
| `Nabu.LoopRejectsTrailingDelimiter` | source/common/nabu.hpp:211-217 | A delimiter followed by no item fails the whole loop at its entry. |
| `Tokens.AlphaRunEnd` | source/token.hpp:40-45 | The end of the maximal run of letters at the cursor. |
| `Tokens.LexIdentifier` | source/token.hpp:38-53 | The loop as written yields the maximal non-empty run of letters and moves the cursor past it. It fails, cursor unchanged, exactly when no letter stands at the cursor. |
| `Tokens.TokenTypeIndex` | source/token.hpp:70 | Every token kind is an alternative of `Token`, at its place in the recogniser order. |
| `Tokens.LexSpace` | source/token.hpp:28-36 | Succeeds exactly at a whitespace character, with null and the cursor one further. |
| `Tokens.IdentifierRun` | source/token.hpp:38-53 | Succeeds exactly at a letter, with the maximal run of letters starting there and the cursor right after it. |
| `Tokens.OxidiusLexerIsValid` | source/token.hpp:55-68 | `oxidius_lexer` passes `valid_lexer_group`, and its result types are `Token`'s alternatives. |
| `Tokens.OxidiusLexerProgresses` | source/token.hpp:28-53 | Every recogniser of the group advances, inside the text, when it succeeds. |
| `Tokens.MatchesAtChars` | source/common/nabu.hpp:38-41 | A literal occurs at the cursor exactly when it matches character by character. |
| `Tokens.OxidiusLexerEntries` | source/token.hpp:55-68 | The fourteen recognisers of the constant `OxidiusLexer`, in their priority order. |
| `Tokens.MatchesAtFirst` | source/common/nabu.hpp:38-41 | A literal occurs only where its first character does, and a one-character literal exactly there. |
| `Tokens.SymbolRuns` | source/token.hpp:56-64 | The closed form of each symbol recogniser. |
| `Tokens.NextTokenAtSymbol` | source/token.hpp:56-64 | At a one-character symbol the reference description reads that symbol alone. |
| `Tokens.KeywordRuns` | source/token.hpp:65-67 | The closed form of each keyword recogniser. Every keyword starts with a letter. |
| `Tokens.FirstMatchSpace` | source/token.hpp:28-36 | At a whitespace character the group yields one null entry and advances by one. |
| `Tokens.FirstMatchSymbol` | source/token.hpp:56-64 | At a one-character symbol the group yields that symbol's kind. |
| `Tokens.NoWordAt` | source/token.hpp:65-68 | Where no letter stands, the keywords and the identifier fail. |
| `Tokens.WordAt` | source/token.hpp:65-68 | At a letter a keyword prefix wins over the identifier. |
| `Tokens.NextTokenAtWord` | source/token.hpp:38-68 | At a letter the reference description reads `in`, `use` or `from` when one begins there, tried in that order, and otherwise the maximal run of letters. |
| `Tokens.PastBrackets` | source/token.hpp:55-60 | At a colon, `=`, `+` or `,` the recognisers before `::` fail. |
| `Tokens.ColonTail` | source/token.hpp:61-68 | A colon is `::` when another colon follows, and nothing otherwise. |
| `Tokens.NextTokenAtColon` | source/token.hpp:61 | The reference description at a colon: `::`, or nothing. |
| `Tokens.FirstMatchColon` | source/token.hpp:61 | The group at a colon agrees with the reference description. |
| `Tokens.FirstMatchWord` | source/token.hpp:55-68 | The group at a letter agrees with the reference description. |
| `Tokens.FirstMatchNone` | source/token.hpp:55-68 | At any other character, or at the end, no recogniser applies. |
| `Tokens.OxidiusFirstMatch` | source/token.hpp:55-68 | At every position the ordered group yields what the character-by-character description `NextToken` says. |
| `Tokens.NextToken` | source/token.hpp:28-68 | The character-by-character reference description of one recognition step; `OxidiusFirstMatch` proves the ordered group agrees with it. |
| `Tokens.PastSpace` | source/token.hpp:55 | Where no whitespace stands, the group's attempt starts with the first symbol. |
| `Tokens.NextTokenSpan` | source/token.hpp:28-68 | What is recognised is non-empty, lies inside the text and consists of recognisable characters. |
| `Tokens.Scan` | source/common/nabu.hpp:115-120 | Repeated recognition stops inside the text, where nothing is recognised. |
| `Tokens.LexFromIsScan` | source/common/nabu.hpp:115-120 | `lexer_group` over `oxidius_lexer` produces exactly the tokens of the reference scan. |
| `Tokens.TokenizeIsScan` | source/common/nabu.hpp:115-128 | Tokenizing succeeds exactly when the scan reaches the end of the text, and then returns the scanned tokens. |
| `Tokens.Tokenize` | source/exec/main.cpp:156-157 | `oxidius_lexer` from cursor 0 over the whole text; `TokenizeIsLexFrom` and `TokenizeIsScan` state its outcome. |
| `Tokens.ScanStopsAtForeign` | source/token.hpp:55-68 | The scan never passes a character that no recogniser accepts. |
| `Tokens.ForeignCharRejected` | source/token.hpp:55-68 | A digit, `_` or any other such character makes the whole text fail to tokenize. |
| `Tokens.Significant` | source/common/nabu.hpp:106-109 | The filtered tokens contain no whitespace entry and are no more than the input. |
| `Tokens.SignificantKeeps` | source/common/nabu.hpp:106-109 | A token survives the filter exactly when it was lexed and is not whitespace. |
| `Tokens.SignificantWithoutSpace` | source/common/nabu.hpp:106-109 | Tokens without whitespace entries pass the filter unchanged. |
| `Tokens.SignificantConcat` | source/common/nabu.hpp:106-109 | Filtering distributes over concatenation, so the order is kept. |
| `Grammar.Reference` | source/exec/grammar.cpp:22 | Succeeds exactly at an identifier. It wraps the identifier's text and consumes one token. Otherwise the cursor stays. |
| `Grammar.PureVariable` | source/exec/grammar.cpp:25 | The same as `reference`, but as a mathematical variable. |
| `Grammar.PureFactor` | source/exec/grammar.cpp:28-31 | Stays in bounds, consumes on success, and resets on failure. Termination follows from the consumed `(`. |
| `Grammar.PureTerm` | source/exec/grammar.cpp:34 | Stays in bounds, consumes on success, and resets on failure. |
| `Grammar.PureExpression` | source/exec/grammar.cpp:95-98 | Stays in bounds, consumes on success, and resets on failure. |
| `Grammar.PureFactorConforms` | source/exec/grammar.cpp:28-31 | The directly written recursive `pure_factor` equals the composition of `options`, `chain` and `convert`. |
| `Grammar.PureTermConforms` | source/exec/grammar.cpp:34 | `pure_term` equals `convert<pure_factor, PureTerm>`. |
| `Grammar.PureExpressionConforms` | source/exec/grammar.cpp:95-98 | `pure_expression` equals its composition. |
| `Grammar.PureFactorCases` | source/exec/grammar.cpp:28-31 | An identifier gives that variable. A `(` gives the boxed expression when a `)` closes it. Anything else is no factor. |
| `Grammar.PureExpressionKeepsFirstTerm` | source/exec/grammar.cpp:95-98 | Succeeds exactly when a term does, with that term only. When `+` and a second term follow, both are consumed and dropped; otherwise it ends after the first term. |
| `Grammar.PureStatement` | source/exec/grammar.cpp:37 | Stays in bounds and consumes on success. |
| `Grammar.PureStatementShape` | source/exec/grammar.cpp:37 | Succeeds exactly on expression `=` expression, keeping `lhs` then `rhs`. |
| `Grammar.Variable` | source/exec/grammar.cpp:40-43 | Stays in bounds, consumes on success, and resets on failure. |
| `Grammar.VariableCases` | source/exec/grammar.cpp:40-43 | An identifier gives a reference. `$` followed by an identifier gives a pure variable. Anything else fails at the entry. |
| `Grammar.Expression` | source/exec/grammar.cpp:46-49 | Stays in bounds, consumes on success, and resets on failure. |
| `Grammar.ExpressionCases` | source/exec/grammar.cpp:46-49 | An identifier gives a reference. `$ ( e )` gives the pure expression `e`. Anything else fails at the entry. |
| `Grammar.ExpressionAtDollar` | source/exec/grammar.cpp:46-49 | At `$` the expression is the pure expression between `$ (` and `)`, or it fails at the entry. |
| `Grammar.ExpressionAwayFromDollar` | source/exec/grammar.cpp:46-49 | Away from `$` the expression is a reference at an identifier and fails otherwise. |
| `Grammar.Statement` | source/exec/grammar.cpp:52-55 | Stays in bounds, consumes on success, and resets on failure. |
| `Grammar.StatementCases` | source/exec/grammar.cpp:52-55 | An identifier gives a reference. `$ ( s )` gives the pure statement `s`. Anything else fails at the entry. |
| `Grammar.StatementAtDollar` | source/exec/grammar.cpp:52-55 | At `$` the statement is the pure statement between `$ (` and `)`, or it fails at the entry. |
| `Grammar.StatementAwayFromDollar` | source/exec/grammar.cpp:52-55 | Away from `$` the statement is a reference at an identifier and fails otherwise. |
| `Grammar.PurePredicateDomain` | source/exec/grammar.cpp:58 | Stays in bounds and consumes on success. |
| `Grammar.PurePredicateDomainShape` | source/exec/grammar.cpp:58 | Succeeds exactly on variable `in` expression, keeping both. |
| `Grammar.DomainList` | source/exec/grammar.cpp:61 | The comma-separated domains stay in bounds and reset the cursor on failure. |
| `Grammar.DomainListEmpty` | source/exec/grammar.cpp:61 | With no domain at the cursor the list is empty, and the cursor stays where the failed domain left it. |
| `Grammar.PurePredicates` | source/exec/grammar.cpp:61 | Stays in bounds and consumes on success. |
| `Grammar.PurePredicatesCases` | source/exec/grammar.cpp:61 | Succeeds exactly on `{`, a list of domains and `}`, and keeps the list. |
| `Grammar.Predicates` | source/exec/grammar.cpp:64-67 | Stays in bounds, consumes on success, and resets on failure. |
| `Grammar.PredicatesCases` | source/exec/grammar.cpp:64-67 | An identifier gives a reference. Anything else is a braced list or fails at the entry. |
| `Grammar.Import` | source/exec/grammar.cpp:70 | Stays in bounds and consumes on success. |
| `Grammar.ImportShape` | source/exec/grammar.cpp:70 | Succeeds exactly on `from` ident `use` ident, with package = field 1 and item = field 3. The cursor ends past every token that matched, whether it succeeds or not. |
| `Grammar.Association` | source/exec/grammar.cpp:73 | Stays in bounds and consumes on success. |
| `Grammar.AssociationAtIdentifier` | source/exec/grammar.cpp:73 | At an identifier it needs `::` and predicates after it. On failure the cursor is past the identifier, and past the `::` if there is one. |
| `Grammar.AssociationShape` | source/exec/grammar.cpp:73 | Succeeds exactly on statement `::` predicates, keeping both, and ends after the predicates. |
| `Grammar.Value` | source/exec/grammar.cpp:76-81 | Stays in bounds, consumes on success, and resets on failure. |
| `Grammar.ValueCases` | source/exec/grammar.cpp:76-81 | An association wins. Failing that, an identifier is a reference. Only elsewhere are predicates and then a statement tried. |
| `Grammar.ValueAlternativesNarrowed` | source/exec/grammar.cpp:76-81 | A value's predicates are always a braced list, and its statement always a pure one. |
| `Grammar.Assignment` | source/exec/grammar.cpp:84 | Stays in bounds and consumes on success. |
| `Grammar.AssignmentShape` | source/exec/grammar.cpp:84 | Succeeds exactly on ident `=` value, with the identifier as destination. |
| `Grammar.Instruction` | source/exec/grammar.cpp:87-91 | Stays in bounds, consumes on success, and resets on failure. |
| `Grammar.InstructionOrder` | source/exec/grammar.cpp:87-91 | An import wins, then an assignment, then a value. When none parses it fails with the cursor unmoved. |
| `Driver.Drained` | source/exec/main.cpp:166-167 | The drain stays in bounds and yields no more instructions than tokens consumed. It stops where no instruction parses. |
| `Driver.Drain` | source/exec/main.cpp:164-167 | The `while` loop as written computes `Drained`. |
| `Driver.Program` | source/exec/main.cpp:156-166 | Succeeds exactly when the text tokenizes. The drain then ends inside the filtered tokens, at a cursor where no instruction parses. |
| `LexerExamples.LexIndex` | source/token.hpp:65-68 | `index` lexes as the keyword `in` followed by the identifier `dex`. |
| `LexerExamples.ImportLineSteps` | source/token.hpp:55-68 | The tokens recognised one by one in `from std use Real`. |
| `LexerExamples.LexImportLine` | source/token.hpp:55-68 | `from std use Real` lexes to `from`, `std`, `use`, `Real`, with whitespace entries between them. |
| `LexerExamples.LexLoneColon` | source/token.hpp:61 | A lone `:` does not tokenize. |
| `LexerExamples.LexForeign` | source/token.hpp:55-68 | `x1` and `a_b` do not tokenize. |
| `GrammarExamples.NameAt` | source/exec/grammar.cpp:95-98 | An identifier not followed by `+` is the expression of that variable. |
| `GrammarExamples.SumAt` | source/exec/grammar.cpp:95-98 | `x + y` is the expression of `x` and consumes three tokens. |
| `GrammarExamples.SumDropsRightOperand` | source/exec/grammar.cpp:95-98 | `a` and `a + b` give the same node, at cursors 1 and 3. |
| `GrammarExamples.OnePlusOnly` | source/exec/grammar.cpp:95-98 | Of `a + b + c` only `a + b` is consumed. |
| `GrammarExamples.CommutedEquation` | source/exec/grammar.cpp:37 | Inside `$ ( a + b = b + a )`, the equation is the pure statement `a = b`, ending before `)`. |
| `GrammarExamples.CommutedSum` | source/exec/grammar.cpp:52-55 | `$ ( a + b = b + a )` is the pure statement `a = b`. |
| `GrammarExamples.EmptyBraces` | source/exec/grammar.cpp:61 | `{ }` gives zero domains. |
| `GrammarExamples.DomainAt` | source/exec/grammar.cpp:58 | `$x in Y` binds the pure variable `x` to the reference `Y`. |
| `GrammarExamples.TwoDomains` | source/exec/grammar.cpp:61 | `{ $a in Real, $b in Real }` gives `a` then `b`, each bound to `Real`. |
| `GrammarExamples.TrailingComma` | source/exec/grammar.cpp:61 | `{ $a in Real, }` is rejected. |
| `GrammarExamples.BareNameInBraces` | source/exec/grammar.cpp:58-61 | `{ a }` is accepted as zero domains. |
| `GrammarExamples.ImportInstruction` | source/exec/grammar.cpp:70 | `from std use Real` is the instruction importing `Real` from `std`. |
| `GrammarExamples.OneDomain` | source/exec/grammar.cpp:61 | A braced single domain is the list of that domain. |
| `GrammarExamples.BracedValue` | source/exec/grammar.cpp:76-81 | A braced list is a predicates value. No association starts with `{`. |
| `GrammarExamples.AssignmentInstruction` | source/exec/grammar.cpp:84-91 | `x = { $a in Real }` is an assignment to `x` of those predicates, consuming all 8 tokens. |
| `GrammarExamples.AssignmentOfBraces` | source/exec/grammar.cpp:84 | `x = { $a in Real }` is the assignment to `x` of those predicates. |
| `GrammarExamples.AssociationValue` | source/exec/grammar.cpp:73-81 | `s :: p` is an association value. |
| `GrammarExamples.LoneName` | source/exec/grammar.cpp:87-91 | A lone identifier is the instruction holding `Value`'s reference alternative. |
| `GrammarExamples.DanglingAssociation` | source/exec/grammar.cpp:73-81 | In `x ::` the association fails at cursor 2, and `value` takes `x` alone. |
| `GrammarExamples.EmptyBracesAt` | source/exec/grammar.cpp:61 | `{ }` at any cursor is the empty list of domains and consumes both braces. |
| `GrammarExamples.PlainEquation` | source/exec/grammar.cpp:37 | Inside `$ ( a = b )`, the tokens `a = b` are the pure statement `a = b`, ending before `)`. |
| `GrammarExamples.BracketedEquation` | source/exec/grammar.cpp:52-55 | `$ ( a = b )` is the statement holding the pure statement `a = b`. |
| `GrammarExamples.PureAssociation` | source/exec/grammar.cpp:73-81 | `$ ( a = b ) :: { }` is an association value: the association alternative is tried first and takes all nine tokens. |
| `ProgramExamples.ImportLineSignificant` | source/common/nabu.hpp:106-109 | The whitespace entries of the import line are dropped. |
| `ProgramExamples.DrainImportLine` | source/exec/main.cpp:166-167 | The import line's tokens drain to one import at cursor 4. |
| `ProgramExamples.ImportProgram` | source/exec/main.cpp:155-167 | The text `from std use Real` gives one import instruction. |

## Left out

- `format_as` (`source/token.hpp:72-104`) builds display strings that are used only for printing.
- Most of `source/exec/main.cpp` is left out:
  - `main` prints a literal program and ends by reading `tokens[index]` unchecked; none of that printing is modelled.
  - Its `Parser` struct is an older revision of the grammar, and `source/exec/grammar.cpp` replaces it.
  - Only the drain loop is modelled. It runs here over the filtered tokens and the current grammar.
- C++ type-level machinery exists only for type inference and is left out: `optional_returner`, `hacked`, `string_literal`, the `lexer_fn`/`parser_fn` concepts, and the `std::function` factories `lexer`, `chain` and `loop`. Each combinator has an explicit result type instead.
- The loop template without a delimiter (`source/common/nabu.hpp:191-194`) is empty, so there is nothing to model.
- `options`, `convert`, `singlet` and `production` come from a `nabu` library header that is not part of this model (`source/exec/grammar.hpp:76`). They are defined here as assumptions:
  - `singlet` is `parse_token`;
  - `options` tries the alternatives in order from the entry cursor and fails at the entry;
  - `convert` builds the node from the whole value or from the selected tuple fields.
- `as<T>()` is `std::get` (`source/common/variant.hpp:26-34`) and throws `bad_variant_access` on the wrong alternative. `Variant.As` requires `Is` instead; every use in the core (`source/common/nabu.hpp:242-245`) checks `is` first, so no reachable behaviour is lost.
- `oxidius_lexer(source, index).value()` (`source/exec/main.cpp:157`) throws `bad_optional_access` when the text does not lex. `Driver.Program` returns `None` instead; exceptions are not modelled.
- The template forms `chain <lparen, &pure_expression, rparen>` and `loop <&pure_predicate_domain, comma, true>` used in `source/exec/grammar.cpp:29` and `:61` are not the `chain` and `loop` factories of `source/common/nabu.hpp:185-189` and `230-236`, which take function arguments. They come from the same library header as `options`, and are taken to be `parser_chain` (`source/common/nabu.hpp:146-183`) and `parser_loop` (`source/common/nabu.hpp:197-228`). The cursor behaviour described above (`import` on `from std` failing at cursor 2, `{ a }` giving an empty list) rests on that assumption.
- Reads past the end are modelled as failures, not as undefined behaviour:
  - `parse_token` reads `tokens[i]` without a bounds check;
  - `raw_expanded` and `lex_space` may read `source[i]` at or past the end.
- That library header is also where the whitespace entries are presumably dropped. `Tokens.Significant` stands in for that step.
- `std::isspace` and `std::isalpha` are modelled as their C-locale ASCII classes. Other locales are not modelled.
- `std::shared_ptr` boxing in `PureFactor` is replaced by plain recursion. Sharing and copying are not modelled.
- Cursors are unbounded naturals, so `size_t` overflow is not modelled.
- Termination needs extra hypotheses that the C++ does not state. `lexer_group` assumes its recognisers advance, inside the text, when they succeed (`Progressive`). `parser_loop` (`Nabu.LoopFrom`, `Nabu.Loop`, `Nabu.ParserLoop`) assumes its item and delimiter parsers keep the cursor between the entry and the end of the tokens (`Sound(item) && Sound(delim)`), and that the delimiter advances when it succeeds (`Consuming`). The recognisers of `oxidius_lexer` and the grammar's domain and comma parsers are proved to meet these.
