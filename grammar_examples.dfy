/** Parsing some token sequences of the language with the productions of
    `Grammar`. */
module GrammarExamples {
  import opened Wrappers
  import opened Variant
  import opened Tokens
  import opened Nabu
  import opened Grammar
  import Ast

  /** An identifier token. */
  function Id(name: string): Token {
    Variant(Identifier, name)
  }

  /** A symbol or keyword token. */
  function Sym(k: Kind): Token {
    Variant(k, "")
  }

  /** The pure expression that is the variable `name` alone. */
  function Named(name: string): Ast.PureExpression {
    Ast.PureExpression(Ast.PureTerm(Ast.FactorVariable(Ast.PureVariable(name))))
  }

  /** `$name in Real`. */
  function RealDomain(name: string): Ast.PurePredicateDomain {
    Ast.PurePredicateDomain(Ast.VariablePure(Ast.PureVariable(name)), Ast.ExpressionReference(Ast.Reference("Real")))
  }

  /** An identifier alone is the expression of that variable. */
  lemma NameAt(toks: seq<Token>, k: nat)
    requires KindAt(toks, k, Identifier) && !KindAt(toks, k + 1, SymPlus)
    ensures PureExpression(toks, k) == Step(Some(Named(toks[k].payload)), k + 1)
  {
    PureFactorCases(toks, k);
    PureExpressionKeepsFirstTerm(toks, k);
  }

  /** `x + y` is the expression of `x`, and all three tokens are consumed. */
  lemma SumAt(toks: seq<Token>, k: nat)
    requires KindAt(toks, k, Identifier) && KindAt(toks, k + 1, SymPlus) && KindAt(toks, k + 2, Identifier)
    ensures PureExpression(toks, k) == Step(Some(Named(toks[k].payload)), k + 3)
  {
    PureFactorCases(toks, k);
    PureFactorCases(toks, k + 2);
    PureExpressionKeepsFirstTerm(toks, k);
  }

  /** `a` and `a + b` give the same expression: the `+ b` is consumed and dropped. */
  lemma SumDropsRightOperand()
    ensures PureExpression([Id("a")], 0) == Step(Some(Named("a")), 1)
    ensures PureExpression([Id("a"), Sym(SymPlus), Id("b")], 0) == Step(Some(Named("a")), 3)
  {
    NameAt([Id("a")], 0);
    SumAt([Id("a"), Sym(SymPlus), Id("b")], 0);
  }

  /** Of `a + b + c` only `a + b` is consumed. */
  lemma OnePlusOnly()
    ensures PureExpression([Id("a"), Sym(SymPlus), Id("b"), Sym(SymPlus), Id("c")], 0) == Step(Some(Named("a")), 3)
  {
    SumAt([Id("a"), Sym(SymPlus), Id("b"), Sym(SymPlus), Id("c")], 0);
  }

  /** `$ ( a + b = b + a )` is the pure statement `a = b`. */
  lemma CommutedSum(toks: seq<Token>)
    requires toks == [Sym(SymDollar), Sym(SymLeftParen), Id("a"), Sym(SymPlus), Id("b"), Sym(SymEquals),
                      Id("b"), Sym(SymPlus), Id("a"), Sym(SymRightParen)]
    ensures Statement(toks, 0) == Step(Some(Ast.StatementPure(Ast.PureStatement(Named("a"), Named("b")))), 10)
  {
    CommutedEquation(toks);
    StatementAtDollar(toks, 0);
  }

  /** Inside the parentheses of `$ ( a + b = b + a )`: the equation `a = b`, ending before `)`. */
  lemma CommutedEquation(toks: seq<Token>)
    requires toks == [Sym(SymDollar), Sym(SymLeftParen), Id("a"), Sym(SymPlus), Id("b"), Sym(SymEquals),
                      Id("b"), Sym(SymPlus), Id("a"), Sym(SymRightParen)]
    ensures PureStatement(toks, 2) == Step(Some(Ast.PureStatement(Named("a"), Named("b"))), 9)
  {
    SumAt(toks, 2);
    SumAt(toks, 6);
    PureStatementShape(toks, 2);
  }

  /** `{ }` is the empty list of domains. */
  lemma EmptyBraces()
    ensures PurePredicates([Sym(SymLeftBrace), Sym(SymRightBrace)], 0) == Step(Some(Ast.PurePredicates([])), 2)
  {
    var toks := [Sym(SymLeftBrace), Sym(SymRightBrace)];
    VariableCases(toks, 1);
    PurePredicateDomainShape(toks, 1);
    DomainListEmpty(toks, 1);
    PurePredicatesCases(toks, 0);
  }

  /** `$x in Y` is the domain of the mathematical variable `x` over the reference `Y`. */
  lemma DomainAt(toks: seq<Token>, k: nat)
    requires KindAt(toks, k, SymDollar) && KindAt(toks, k + 1, Identifier)
    requires KindAt(toks, k + 2, KwdIn) && KindAt(toks, k + 3, Identifier)
    ensures PurePredicateDomain(toks, k) == Step(Some(Ast.PurePredicateDomain(
      Ast.VariablePure(Ast.PureVariable(toks[k + 1].payload)), Ast.ExpressionReference(Ast.Reference(toks[k + 3].payload)))), k + 4)
  {
    VariableCases(toks, k);
    ExpressionCases(toks, k + 3);
    PurePredicateDomainShape(toks, k);
  }

  /** `{ $a in Real, $b in Real }` is the list of both domains. */
  lemma TwoDomains(toks: seq<Token>)
    requires toks == [Sym(SymLeftBrace), Sym(SymDollar), Id("a"), Sym(KwdIn), Id("Real"), Sym(SymComma),
                      Sym(SymDollar), Id("b"), Sym(KwdIn), Id("Real"), Sym(SymRightBrace)]
    ensures PurePredicates(toks, 0) == Step(Some(Ast.PurePredicates([RealDomain("a"), RealDomain("b")])), 11)
  {
    DomainAt(toks, 1);
    DomainAt(toks, 6);
    SingletSound(SymComma);
    assert Comma(toks, 5) == Step(Some(""), 6);
    assert Comma(toks, 10) == Step(None, 10);
    assert DomainList(toks, 1) == LoopFrom(PurePredicateDomain, Comma, true, toks, 1, 1, []);
    LoopContinuesAfterDelimiter(PurePredicateDomain, Comma, true, toks, 1, 1, []);
    assert [] + [RealDomain("a")] == [RealDomain("a")];
    LoopEndsWithoutDelimiter(PurePredicateDomain, Comma, true, toks, 1, 6, [RealDomain("a")]);
    assert [RealDomain("a")] + [RealDomain("b")] == [RealDomain("a"), RealDomain("b")];
    assert DomainList(toks, 1) == Step(Some([RealDomain("a"), RealDomain("b")]), 10);
    PurePredicatesCases(toks, 0);
  }

  /** `{ $a in Real, }` is rejected: a comma must be followed by a domain. */
  lemma TrailingComma(toks: seq<Token>)
    requires toks == [Sym(SymLeftBrace), Sym(SymDollar), Id("a"), Sym(KwdIn), Id("Real"), Sym(SymComma), Sym(SymRightBrace)]
    ensures PurePredicates(toks, 0).value.None?
  {
    DomainAt(toks, 1);
    VariableCases(toks, 6);
    PurePredicateDomainShape(toks, 6);
    SingletSound(SymComma);
    LoopRejectsTrailingDelimiter(PurePredicateDomain, Comma, true, toks, 1, 1, []);
    PurePredicatesCases(toks, 0);
  }

  /** `{ a }` is accepted as the empty list: the identifier is taken as a
      variable, the missing `in` fails the domain without giving the
      identifier back, and the loop accepts no domains from there. */
  lemma BareNameInBraces(toks: seq<Token>)
    requires toks == [Sym(SymLeftBrace), Id("a"), Sym(SymRightBrace)]
    ensures PurePredicates(toks, 0) == Step(Some(Ast.PurePredicates([])), 3)
  {
    VariableCases(toks, 1);
    Chain2TokenHead(KwdIn, Expression, toks, 2);
    assert PurePredicateDomain(toks, 1) == Step(None, 2);
    DomainListEmpty(toks, 1);
    PurePredicatesCases(toks, 0);
  }

  /** `from std use Real` is the instruction importing `Real` from `std`. */
  lemma ImportInstruction(toks: seq<Token>)
    requires toks == [Sym(KwdFrom), Id("std"), Sym(KwdUse), Id("Real")]
    ensures Instruction(toks, 0) == Step(Some(Ast.InstructionImport(Ast.Import("std", "Real"))), 4)
  {
    var kinds := [KwdFrom, Identifier, KwdUse, Identifier];
    assert kinds[1..] == [Identifier, KwdUse, Identifier];
    assert kinds[1..][1..] == [KwdUse, Identifier];
    assert kinds[1..][1..][1..] == [Identifier];
    assert MatchedPrefix(toks, 0, kinds) == 4;
    ImportShape(toks, 0);
    InstructionOrder(toks, 0);
  }

  /** `{ $x in Y }` at `k` is the list of that one domain. */
  lemma OneDomain(toks: seq<Token>, k: nat)
    requires KindAt(toks, k, SymLeftBrace) && KindAt(toks, k + 1, SymDollar) && KindAt(toks, k + 2, Identifier)
    requires KindAt(toks, k + 3, KwdIn) && KindAt(toks, k + 4, Identifier) && KindAt(toks, k + 5, SymRightBrace)
    ensures PurePredicates(toks, k) == Step(Some(Ast.PurePredicates([Ast.PurePredicateDomain(
      Ast.VariablePure(Ast.PureVariable(toks[k + 2].payload)), Ast.ExpressionReference(Ast.Reference(toks[k + 4].payload)))])), k + 6)
  {
    DomainAt(toks, k + 1);
    SingletSound(SymComma);
    assert Comma(toks, k + 5) == Step(None, k + 5);
    assert DomainList(toks, k + 1) == LoopFrom(PurePredicateDomain, Comma, true, toks, k + 1, k + 1, []);
    LoopEndsWithoutDelimiter(PurePredicateDomain, Comma, true, toks, k + 1, k + 1, []);
    assert [] + [PurePredicateDomain(toks, k + 1).value.value] == [PurePredicateDomain(toks, k + 1).value.value];
    PurePredicatesCases(toks, k);
  }

  /** Braced predicates are a value: no statement, hence no association, starts with `{`. */
  lemma BracedValue(toks: seq<Token>, k: nat)
    requires KindAt(toks, k, SymLeftBrace) && PurePredicates(toks, k).value.Some?
    ensures Value(toks, k) == Step(Some(Ast.ValuePredicates(Ast.PredicatesPure(PurePredicates(toks, k).value.value))),
      PurePredicates(toks, k).cursor)
  {
    PredicatesCases(toks, k);
    StatementCases(toks, k);
    assert Association(toks, k).value.None?;
    ValueCases(toks, k);
  }

  /** `x = { $a in Real }` assigns the predicates to `x`. */
  lemma AssignmentInstruction(toks: seq<Token>)
    requires toks == [Id("x"), Sym(SymEquals), Sym(SymLeftBrace), Sym(SymDollar), Id("a"), Sym(KwdIn), Id("Real"),
                      Sym(SymRightBrace)]
    ensures Instruction(toks, 0) == Step(Some(Ast.InstructionAssignment(Ast.Assignment(Ast.Reference("x"),
      Ast.ValuePredicates(Ast.PredicatesPure(Ast.PurePredicates([RealDomain("a")])))))), 8)
  {
    ImportShape(toks, 0);
    assert Import(toks, 0).value.None?;
    AssignmentOfBraces(toks);
    InstructionOrder(toks, 0);
  }

  /** The assignment inside `x = { $a in Real }`. */
  lemma AssignmentOfBraces(toks: seq<Token>)
    requires toks == [Id("x"), Sym(SymEquals), Sym(SymLeftBrace), Sym(SymDollar), Id("a"), Sym(KwdIn), Id("Real"),
                      Sym(SymRightBrace)]
    ensures Assignment(toks, 0) == Step(Some(Ast.Assignment(Ast.Reference("x"),
      Ast.ValuePredicates(Ast.PredicatesPure(Ast.PurePredicates([RealDomain("a")]))))), 8)
  {
    var braced := Ast.PurePredicates([RealDomain("a")]);
    OneDomain(toks, 2);
    assert PurePredicates(toks, 2) == Step(Some(braced), 8);
    BracedValue(toks, 2);
    AssignmentShape(toks, 0);
  }

  /** `s :: p` is the association of the statement `s` with the predicates `p`. */
  lemma AssociationValue(toks: seq<Token>)
    requires toks == [Id("s"), Sym(SymDoubleColon), Id("p")]
    ensures Value(toks, 0) == Step(Some(Ast.ValueAssociation(Ast.Association(
      Ast.StatementReference(Ast.Reference("s")), Ast.PredicatesReference(Ast.Reference("p"))))), 3)
  {
    PredicatesCases(toks, 2);
    AssociationAtIdentifier(toks, 0);
    ValueCases(toks, 0);
  }
  /** `{ }` anywhere in the tokens is the empty list of domains. */
  lemma EmptyBracesAt(toks: seq<Token>, k: nat)
    requires KindAt(toks, k, SymLeftBrace) && KindAt(toks, k + 1, SymRightBrace)
    ensures PurePredicates(toks, k) == Step(Some(Ast.PurePredicates([])), k + 2)
  {
    VariableCases(toks, k + 1);
    PurePredicateDomainShape(toks, k + 1);
    DomainListEmpty(toks, k + 1);
    PurePredicatesCases(toks, k);
  }

  /** The statement `$ ( a = b )` at the head of `$ ( a = b ) :: { }`. */
  lemma BracketedEquation(toks: seq<Token>)
    requires toks == [Sym(SymDollar), Sym(SymLeftParen), Id("a"), Sym(SymEquals), Id("b"), Sym(SymRightParen),
                      Sym(SymDoubleColon), Sym(SymLeftBrace), Sym(SymRightBrace)]
    ensures Statement(toks, 0) == Step(Some(Ast.StatementPure(Ast.PureStatement(Named("a"), Named("b")))), 6)
  {
    PlainEquation(toks);
    StatementAtDollar(toks, 0);
  }

  /** Inside the parentheses of `$ ( a = b )`: the equation `a = b`, ending before `)`. */
  lemma PlainEquation(toks: seq<Token>)
    requires toks == [Sym(SymDollar), Sym(SymLeftParen), Id("a"), Sym(SymEquals), Id("b"), Sym(SymRightParen),
                      Sym(SymDoubleColon), Sym(SymLeftBrace), Sym(SymRightBrace)]
    ensures PureStatement(toks, 2) == Step(Some(Ast.PureStatement(Named("a"), Named("b"))), 5)
  {
    NameAt(toks, 2);
    NameAt(toks, 4);
    PureStatementShape(toks, 2);
  }

  /** `$ ( a = b ) :: { }` is an association of a pure statement with empty
      predicates, and a value by its first alternative. */
  lemma PureAssociation(toks: seq<Token>)
    requires toks == [Sym(SymDollar), Sym(SymLeftParen), Id("a"), Sym(SymEquals), Id("b"), Sym(SymRightParen),
                      Sym(SymDoubleColon), Sym(SymLeftBrace), Sym(SymRightBrace)]
    ensures Value(toks, 0) == Step(Some(Ast.ValueAssociation(Ast.Association(
      Ast.StatementPure(Ast.PureStatement(Named("a"), Named("b"))), Ast.PredicatesPure(Ast.PurePredicates([]))))), 9)
  {
    BracketedEquation(toks);
    EmptyBracesAt(toks, 7);
    PredicatesCases(toks, 7);
    AssociationShape(toks, 0);
    ValueCases(toks, 0);
  }

  /** A lone identifier is an instruction: the value of that reference. */
  lemma LoneName(toks: seq<Token>)
    requires toks == [Id("x")]
    ensures Instruction(toks, 0) == Step(Some(Ast.InstructionValue(Ast.ValueReference(Ast.Reference("x")))), 1)
  {
    ImportShape(toks, 0);
    AssignmentShape(toks, 0);
    AssociationAtIdentifier(toks, 0);
    ValueCases(toks, 0);
    InstructionOrder(toks, 0);
  }

  /** In `x ::` with nothing after, the association fails past the `::`,
      and `value` goes back to the entry and takes `x` alone. */
  lemma DanglingAssociation(toks: seq<Token>)
    requires toks == [Id("x"), Sym(SymDoubleColon)]
    ensures Association(toks, 0) == Step(None, 2)
    ensures Value(toks, 0) == Step(Some(Ast.ValueReference(Ast.Reference("x"))), 1)
  {
    PurePredicatesCases(toks, 2);
    PredicatesCases(toks, 2);
    AssociationAtIdentifier(toks, 0);
    ValueCases(toks, 0);
  }
}
