/** The productions of source/exec/grammar.cpp over the combinators of
    `Nabu`.  Each production is a parser over the lexer's tokens: given the
    tokens and a cursor it returns the node it built, if any, and the new
    cursor. */
module Grammar {
  import opened Wrappers
  import opened Variant
  import opened Nabu
  import opened Tokens
  import Ast

  // ------------------------------------------------------------------ singlets

  const From: Parser<Kind, string> := Singlet(KwdFrom)
  const Use: Parser<Kind, string> := Singlet(KwdUse)
  const In: Parser<Kind, string> := Singlet(KwdIn)
  const Ident: Parser<Kind, string> := Singlet(Identifier)
  const Equals: Parser<Kind, string> := Singlet(SymEquals)
  const Comma: Parser<Kind, string> := Singlet(SymComma)
  const DoubleColon: Parser<Kind, string> := Singlet(SymDoubleColon)
  const Plus: Parser<Kind, string> := Singlet(SymPlus)
  const Dollar: Parser<Kind, string> := Singlet(SymDollar)
  const LParen: Parser<Kind, string> := Singlet(SymLeftParen)
  const RParen: Parser<Kind, string> := Singlet(SymRightParen)
  const LBrace: Parser<Kind, string> := Singlet(SymLeftBrace)
  const RBrace: Parser<Kind, string> := Singlet(SymRightBrace)

  /** The token at `k` exists and has kind `kind`. */
  predicate KindAt(toks: seq<Token>, k: nat, kind: Kind) {
    k < |toks| && toks[k].tag == kind
  }

  // --------------------------------------------------------------- productions

  /** `reference := identifier`. */
  function Reference(toks: seq<Token>, i: nat): (r: Step<Ast.Reference>)
    ensures r.value.Some? <==> KindAt(toks, i, Identifier)
    ensures r.value.Some? ==> r.value.value == Ast.Reference(toks[i].payload) && r.cursor == i + 1
    ensures r.value.None? ==> r.cursor == i
  {
    Convert(Ident, (x: string) => Ast.Reference(x))(toks, i)
  }

  /** `pure_variable := identifier`. */
  function PureVariable(toks: seq<Token>, i: nat): (r: Step<Ast.PureVariable>)
    ensures r.value.Some? <==> KindAt(toks, i, Identifier)
    ensures r.value.Some? ==> r.value.value == Ast.PureVariable(toks[i].payload) && r.cursor == i + 1
    ensures r.value.None? ==> r.cursor == i
  {
    Convert(Ident, (x: string) => Ast.PureVariable(x))(toks, i)
  }

  /** `pure_factor := '(' pure_expression ')' | pure_variable`, keeping the
      inner expression (field 1) of the first alternative.  Written out
      rather than composed, because it is recursive; `PureFactorConforms`
      shows it equals the composition. */
  function PureFactor(toks: seq<Token>, i: nat): (r: Step<Ast.PureFactor>)
    ensures Within(|toks|, i, r.cursor)
    ensures r.value.Some? ==> i < r.cursor
    ensures r.value.None? ==> r.cursor == i
    decreases |toks| - i, 0
  {
    var l := ParseToken(SymLeftParen, toks, i);
    var boxed :=
      if l.value.None? then Step(None, l.cursor)
      else
        var e := PureExpression(toks, l.cursor);
        if e.value.None? then Step(None, e.cursor)
        else
          var rp := ParseToken(SymRightParen, toks, e.cursor);
          if rp.value.None? then Step(None, rp.cursor)
          else Step(Some(Ast.FactorBoxed(e.value.value)), rp.cursor);
    if boxed.value.Some? then boxed
    else
      var v := PureVariable(toks, i);
      if v.value.Some? then Step(Some(Ast.FactorVariable(v.value.value)), v.cursor) else Step(None, i)
  }

  /** `pure_term := pure_factor`. */
  function PureTerm(toks: seq<Token>, i: nat): (r: Step<Ast.PureTerm>)
    ensures Within(|toks|, i, r.cursor)
    ensures r.value.Some? ==> i < r.cursor
    ensures r.value.None? ==> r.cursor == i
    decreases |toks| - i, 1
  {
    var f := PureFactor(toks, i);
    Step(if f.value.Some? then Some(Ast.PureTerm(f.value.value)) else None, f.cursor)
  }

  /** `pure_expression := pure_term '+' pure_term | pure_term`, keeping only
      the first term (field 0) of the first alternative. */
  function PureExpression(toks: seq<Token>, i: nat): (r: Step<Ast.PureExpression>)
    ensures Within(|toks|, i, r.cursor)
    ensures r.value.Some? ==> i < r.cursor
    ensures r.value.None? ==> r.cursor == i
    decreases |toks| - i, 2
  {
    var t := PureTerm(toks, i);
    var sum :=
      if t.value.None? then Step(None, t.cursor)
      else
        var p := ParseToken(SymPlus, toks, t.cursor);
        if p.value.None? then Step(None, p.cursor)
        else
          var t2 := PureTerm(toks, p.cursor);
          if t2.value.None? then Step(None, t2.cursor)
          else Step(Some(Ast.PureExpression(t.value.value)), t2.cursor);
    if sum.value.Some? then sum
    else
      // The second alternative runs `pure_term` from `i` again, which yields `t` once more.
      if t.value.Some? then Step(Some(Ast.PureExpression(t.value.value)), t.cursor) else Step(None, i)
  }

  /** `pure_factor` as the composition the source writes. */
  lemma PureFactorConforms(toks: seq<Token>, i: nat)
    ensures PureFactor(toks, i) == Options2(
      Convert(Chain3(LParen, PureExpression, RParen), (t: (string, Ast.PureExpression, string)) => Ast.FactorBoxed(t.1)),
      Convert(PureVariable, (v: Ast.PureVariable) => Ast.FactorVariable(v)))(toks, i)
  {
    Chain2TokenHead(SymLeftParen, Chain2(PureExpression, RParen), toks, i);
    var _ := PureVariable(toks, i);
  }

  /** `pure_term` as the composition the source writes. */
  lemma PureTermConforms(toks: seq<Token>, i: nat)
    ensures PureTerm(toks, i) == Convert(PureFactor, (f: Ast.PureFactor) => Ast.PureTerm(f))(toks, i)
  {
  }

  /** `pure_expression` as the composition the source writes. */
  lemma PureExpressionConforms(toks: seq<Token>, i: nat)
    ensures PureExpression(toks, i) == Options2(
      Convert(Chain3(PureTerm, Plus, PureTerm), (t: (Ast.PureTerm, string, Ast.PureTerm)) => Ast.PureExpression(t.0)),
      Convert(PureTerm, (t: Ast.PureTerm) => Ast.PureExpression(t)))(toks, i)
  {
  }

  /** `pure_statement := pure_expression '=' pure_expression`, keeping both
      sides (fields 0 and 2). */
  function PureStatement(toks: seq<Token>, i: nat): (r: Step<Ast.PureStatement>)
    ensures Within(|toks|, i, r.cursor)
    ensures r.value.Some? ==> i < r.cursor
  {
    var sides := Chain3(PureExpression, Equals, PureExpression);
    SingletSound(SymEquals);
    Chain3Sound(PureExpression, Equals, PureExpression);
    Convert(sides, (t: (Ast.PureExpression, string, Ast.PureExpression)) => Ast.PureStatement(t.0, t.2))(toks, i)
  }

  /** `variable := reference | '$' pure_variable`. */
  function Variable(toks: seq<Token>, i: nat): (r: Step<Ast.Variable>)
    ensures Within(|toks|, i, r.cursor)
    ensures r.value.Some? ==> i < r.cursor
    ensures r.value.None? ==> r.cursor == i
  {
    var namedF := (x: Ast.Reference) => Ast.VariableReference(x);
    var named := Convert(Reference, namedF);
    ConvertSound(Reference, namedF);
    var dollar := Convert(Chain2(Dollar, PureVariable), (t: (string, Ast.PureVariable)) => Ast.VariablePure(t.1));
    SingletSound(SymDollar);
    Chain2Sound(Dollar, PureVariable);
    Options2Sound(named, dollar);
    Options2(named, dollar)(toks, i)
  }

  /** `expression := '$' '(' pure_expression ')' | reference`, keeping the
      expression (field 2) of the first alternative. */
  function Expression(toks: seq<Token>, i: nat): (r: Step<Ast.Expression>)
    ensures Within(|toks|, i, r.cursor)
    ensures r.value.Some? ==> i < r.cursor
    ensures r.value.None? ==> r.cursor == i
  {
    var pure := Convert(Chain4(Dollar, LParen, PureExpression, RParen),
      (t: (string, string, Ast.PureExpression, string)) => Ast.ExpressionPure(t.2));
    var namedF := (x: Ast.Reference) => Ast.ExpressionReference(x);
    var named := Convert(Reference, namedF);
    ConvertSound(Reference, namedF);
    SingletSound(SymDollar);
    SingletSound(SymLeftParen);
    SingletSound(SymRightParen);
    Chain4Sound(Dollar, LParen, PureExpression, RParen);
    Options2Sound(pure, named);
    Options2(pure, named)(toks, i)
  }

  /** `statement := '$' '(' pure_statement ')' | reference`, keeping the
      statement (field 2) of the first alternative. */
  function Statement(toks: seq<Token>, i: nat): (r: Step<Ast.Statement>)
    ensures Within(|toks|, i, r.cursor)
    ensures r.value.Some? ==> i < r.cursor
    ensures r.value.None? ==> r.cursor == i
  {
    var pure := Convert(Chain4(Dollar, LParen, PureStatement, RParen),
      (t: (string, string, Ast.PureStatement, string)) => Ast.StatementPure(t.2));
    var namedF := (x: Ast.Reference) => Ast.StatementReference(x);
    var named := Convert(Reference, namedF);
    ConvertSound(Reference, namedF);
    SingletSound(SymDollar);
    SingletSound(SymLeftParen);
    SingletSound(SymRightParen);
    Chain4Sound(Dollar, LParen, PureStatement, RParen);
    Options2Sound(pure, named);
    Options2(pure, named)(toks, i)
  }

  /** `pure_predicate_domain := variable 'in' expression`, keeping fields 0 and 2. */
  function PurePredicateDomain(toks: seq<Token>, i: nat): (r: Step<Ast.PurePredicateDomain>)
    ensures Within(|toks|, i, r.cursor)
    ensures r.value.Some? ==> i < r.cursor
  {
    var parts := Chain3(Variable, In, Expression);
    SingletSound(KwdIn);
    Chain3Sound(Variable, In, Expression);
    Convert(parts, (t: (Ast.Variable, string, Ast.Expression)) => Ast.PurePredicateDomain(t.0, t.2))(toks, i)
  }

  /** `loop<pure_predicate_domain, comma, true>`: the domains between the
      braces, separated by commas, possibly none. */
  function DomainList(toks: seq<Token>, i: nat): (r: Step<seq<Ast.PurePredicateDomain>>)
    ensures Within(|toks|, i, r.cursor)
    ensures r.value.None? ==> r.cursor == i
  {
    SingletSound(SymComma);
    assert Sound(PurePredicateDomain);
    LoopSound(PurePredicateDomain, Comma, true);
    LoopFailureRestores(PurePredicateDomain, Comma, true, toks, i, i, []);
    Loop(PurePredicateDomain, Comma, true)(toks, i)
  }

  /** `pure_predicates := '{' loop<pure_predicate_domain, comma, true> '}'`,
      keeping the list (field 1). */
  function PurePredicates(toks: seq<Token>, i: nat): (r: Step<Ast.PurePredicates>)
    ensures Within(|toks|, i, r.cursor)
    ensures r.value.Some? ==> i < r.cursor
  {
    SingletSound(SymLeftBrace);
    SingletSound(SymRightBrace);
    assert Sound(DomainList);
    var braced := Chain3(LBrace, DomainList, RBrace);
    Chain3Sound(LBrace, DomainList, RBrace);
    Convert(braced, (t: (string, seq<Ast.PurePredicateDomain>, string)) => Ast.PurePredicates(t.1))(toks, i)
  }

  /** `predicates := reference | pure_predicates`. */
  function Predicates(toks: seq<Token>, i: nat): (r: Step<Ast.Predicates>)
    ensures Within(|toks|, i, r.cursor)
    ensures r.value.Some? ==> i < r.cursor
    ensures r.value.None? ==> r.cursor == i
  {
    var namedF := (x: Ast.Reference) => Ast.PredicatesReference(x);
    var named := Convert(Reference, namedF);
    ConvertSound(Reference, namedF);
    var pureF := (p: Ast.PurePredicates) => Ast.PredicatesPure(p);
    var pure := Convert(PurePredicates, pureF);
    ConvertSound(PurePredicates, pureF);
    Options2Sound(named, pure);
    Options2(named, pure)(toks, i)
  }

  /** `import := 'from' identifier 'use' identifier`, keeping the package
      (field 1) and the item (field 3). */
  function Import(toks: seq<Token>, i: nat): (r: Step<Ast.Import>)
    ensures Within(|toks|, i, r.cursor)
    ensures r.value.Some? ==> i < r.cursor
  {
    var parts := Chain4(From, Ident, Use, Ident);
    SingletSound(KwdFrom);
    SingletSound(Identifier);
    SingletSound(KwdUse);
    Chain4Sound(From, Ident, Use, Ident);
    Convert(parts, (t: (string, string, string, string)) => Ast.Import(t.1, t.3))(toks, i)
  }

  /** `association := statement '::' predicates`, keeping fields 0 and 2. */
  function Association(toks: seq<Token>, i: nat): (r: Step<Ast.Association>)
    ensures Within(|toks|, i, r.cursor)
    ensures r.value.Some? ==> i < r.cursor
  {
    var parts := Chain3(Statement, DoubleColon, Predicates);
    SingletSound(SymDoubleColon);
    Chain3Sound(Statement, DoubleColon, Predicates);
    Convert(parts, (t: (Ast.Statement, string, Ast.Predicates)) => Ast.Association(t.0, t.2))(toks, i)
  }

  /** `value := association | reference | predicates | statement`. */
  function Value(toks: seq<Token>, i: nat): (r: Step<Ast.Value>)
    ensures Within(|toks|, i, r.cursor)
    ensures r.value.Some? ==> i < r.cursor
    ensures r.value.None? ==> r.cursor == i
  {
    var associatedF := (a: Ast.Association) => Ast.ValueAssociation(a);
    var associated := Convert(Association, associatedF);
    ConvertSound(Association, associatedF);
    var namedF := (x: Ast.Reference) => Ast.ValueReference(x);
    var named := Convert(Reference, namedF);
    ConvertSound(Reference, namedF);
    var predicatedF := (p: Ast.Predicates) => Ast.ValuePredicates(p);
    var predicated := Convert(Predicates, predicatedF);
    ConvertSound(Predicates, predicatedF);
    var statedF := (st: Ast.Statement) => Ast.ValueStatement(st);
    var stated := Convert(Statement, statedF);
    ConvertSound(Statement, statedF);
    Options4Sound(associated, named, predicated, stated);
    Options4(associated, named, predicated, stated)(toks, i)
  }

  /** `assignment := reference '=' value`, keeping fields 0 and 2. */
  function Assignment(toks: seq<Token>, i: nat): (r: Step<Ast.Assignment>)
    ensures Within(|toks|, i, r.cursor)
    ensures r.value.Some? ==> i < r.cursor
  {
    var parts := Chain3(Reference, Equals, Value);
    SingletSound(SymEquals);
    Chain3Sound(Reference, Equals, Value);
    Convert(parts, (t: (Ast.Reference, string, Ast.Value)) => Ast.Assignment(t.0, t.2))(toks, i)
  }

  /** `instruction := import | assignment | value`. */
  function Instruction(toks: seq<Token>, i: nat): (r: Step<Ast.Instruction>)
    ensures Within(|toks|, i, r.cursor)
    ensures r.value.Some? ==> i < r.cursor
    ensures r.value.None? ==> r.cursor == i
  {
    var importedF := (m: Ast.Import) => Ast.InstructionImport(m);
    var imported := Convert(Import, importedF);
    ConvertSound(Import, importedF);
    var assignmentF := (a: Ast.Assignment) => Ast.InstructionAssignment(a);
    var assignment := Convert(Assignment, assignmentF);
    ConvertSound(Assignment, assignmentF);
    var valuedF := (v: Ast.Value) => Ast.InstructionValue(v);
    var valued := Convert(Value, valuedF);
    ConvertSound(Value, valuedF);
    Options3Sound(imported, assignment, valued);
    Options3(imported, assignment, valued)(toks, i)
  }

  // ----------------------------------------------------- what the parsers do

  /** How many of `kinds` the tokens from `k` on match, one kind per token. */
  function MatchedPrefix(toks: seq<Token>, k: nat, kinds: seq<Kind>): (n: nat)
    ensures n <= |kinds|
    ensures forall m :: 0 <= m < n ==> KindAt(toks, k + m, kinds[m])
    ensures n < |kinds| ==> !KindAt(toks, k + n, kinds[n])
    decreases |kinds|
  {
    if |kinds| == 0 || !KindAt(toks, k, kinds[0]) then 0
    else 1 + MatchedPrefix(toks, k + 1, kinds[1..])
  }

  /** `import` reads `from`, an identifier, `use` and an identifier, and
      builds the import of the first identifier's package and the second's
      item.  Whether it succeeds or not, the cursor ends past every token
      that matched: a failing chain does not rewind. */
  lemma ImportShape(toks: seq<Token>, i: nat)
    ensures var n := MatchedPrefix(toks, i, [KwdFrom, Identifier, KwdUse, Identifier]);
      var r := Import(toks, i);
      (r.value.Some? <==> n == 4) &&
      r.cursor == i + n &&
      (r.value.Some? ==> r.value.value == Ast.Import(toks[i + 1].payload, toks[i + 3].payload))
  {
    var kinds := [KwdFrom, Identifier, KwdUse, Identifier];
    assert kinds[1..] == [Identifier, KwdUse, Identifier];
    assert kinds[1..][1..] == [KwdUse, Identifier];
    assert kinds[1..][1..][1..] == [Identifier];
    assert kinds[1..][1..][1..][1..] == [];
    Chain2TokenHead(KwdUse, Ident, toks, i + 2);
    Chain2TokenHead(Identifier, Chain2(Use, Ident), toks, i + 1);
    Chain2TokenHead(KwdFrom, Chain3(Ident, Use, Ident), toks, i);
  }

  /** `pure_factor` at an identifier is that variable; at `(` it is the
      boxed expression that follows, when a `)` closes it; anything else is
      no factor. */
  lemma PureFactorCases(toks: seq<Token>, i: nat)
    ensures KindAt(toks, i, Identifier) ==>
      PureFactor(toks, i) == Step(Some(Ast.FactorVariable(Ast.PureVariable(toks[i].payload))), i + 1)
    ensures KindAt(toks, i, SymLeftParen) ==>
      var e := PureExpression(toks, i + 1);
      PureFactor(toks, i) ==
        if e.value.Some? && KindAt(toks, e.cursor, SymRightParen) then Step(Some(Ast.FactorBoxed(e.value.value)), e.cursor + 1)
        else Step(None, i)
    ensures !KindAt(toks, i, Identifier) && !KindAt(toks, i, SymLeftParen) ==> PureFactor(toks, i) == Step(None, i)
  {
  }

  /** `pure_expression` keeps only its first term: it succeeds exactly when
      a term does, with that term, whether or not `+` and a second term
      follow; those are consumed, once, and dropped. */
  lemma PureExpressionKeepsFirstTerm(toks: seq<Token>, i: nat)
    ensures PureExpression(toks, i).value ==
      if PureTerm(toks, i).value.Some? then Some(Ast.PureExpression(PureTerm(toks, i).value.value)) else None
    ensures PureTerm(toks, i).value.Some? ==>
      var t := PureTerm(toks, i); var plus := ParseToken(SymPlus, toks, t.cursor);
      PureExpression(toks, i).cursor ==
        if plus.value.Some? && PureTerm(toks, plus.cursor).value.Some? then PureTerm(toks, plus.cursor).cursor else t.cursor
  {
  }

  /** `variable` as the composition the source writes. */
  lemma VariableConforms(toks: seq<Token>, i: nat)
    ensures Variable(toks, i) == Options2(
      Convert(Reference, (x: Ast.Reference) => Ast.VariableReference(x)),
      Convert(Chain2(Dollar, PureVariable), (t: (string, Ast.PureVariable)) => Ast.VariablePure(t.1)))(toks, i)
  {
  }

  /** `variable` at an identifier is a reference; at `$` followed by an
      identifier it is a mathematical variable; anything else is no
      variable. */
  lemma VariableCases(toks: seq<Token>, i: nat)
    ensures KindAt(toks, i, Identifier) ==>
      Variable(toks, i) == Step(Some(Ast.VariableReference(Ast.Reference(toks[i].payload))), i + 1)
    ensures KindAt(toks, i, SymDollar) ==>
      Variable(toks, i) ==
        if KindAt(toks, i + 1, Identifier) then Step(Some(Ast.VariablePure(Ast.PureVariable(toks[i + 1].payload))), i + 2)
        else Step(None, i)
    ensures !KindAt(toks, i, Identifier) && !KindAt(toks, i, SymDollar) ==> Variable(toks, i) == Step(None, i)
  {
    VariableConforms(toks, i);
    var _ := Reference(toks, i);
    var _ := PureVariable(toks, i + 1);
    Options2FirstSuccess(
      Convert(Reference, (x: Ast.Reference) => Ast.VariableReference(x)),
      Convert(Chain2(Dollar, PureVariable), (t: (string, Ast.PureVariable)) => Ast.VariablePure(t.1)), toks, i);
    Chain2TokenHead(SymDollar, PureVariable, toks, i);
  }

  /** `expression` as the composition the source writes. */
  lemma ExpressionConforms(toks: seq<Token>, i: nat)
    ensures Expression(toks, i) == Options2(
      Convert(Chain4(Dollar, LParen, PureExpression, RParen),
        (t: (string, string, Ast.PureExpression, string)) => Ast.ExpressionPure(t.2)),
      Convert(Reference, (x: Ast.Reference) => Ast.ExpressionReference(x)))(toks, i)
  {
  }

  /** `expression` at an identifier is a reference; a pure expression needs
      `$ (` before it and `)` after it; anything else is no expression. */
  lemma ExpressionCases(toks: seq<Token>, i: nat)
    ensures KindAt(toks, i, Identifier) ==>
      Expression(toks, i) == Step(Some(Ast.ExpressionReference(Ast.Reference(toks[i].payload))), i + 1)
    ensures KindAt(toks, i, SymDollar) ==>
      var e := PureExpression(toks, i + 2);
      Expression(toks, i) ==
        if KindAt(toks, i + 1, SymLeftParen) && e.value.Some? && KindAt(toks, e.cursor, SymRightParen) then
          Step(Some(Ast.ExpressionPure(e.value.value)), e.cursor + 1)
        else Step(None, i)
    ensures !KindAt(toks, i, Identifier) && !KindAt(toks, i, SymDollar) ==> Expression(toks, i) == Step(None, i)
  {
    if KindAt(toks, i, SymDollar) {
      ExpressionAtDollar(toks, i);
      assert !KindAt(toks, i, Identifier);
    } else {
      ExpressionAwayFromDollar(toks, i);
    }
  }

  /** `expression` at `$` is a pure expression between `$ (` and `)`, or nothing. */
  lemma ExpressionAtDollar(toks: seq<Token>, i: nat)
    requires KindAt(toks, i, SymDollar)
    ensures var e := PureExpression(toks, i + 2);
      Expression(toks, i) ==
        if KindAt(toks, i + 1, SymLeftParen) && e.value.Some? && KindAt(toks, e.cursor, SymRightParen) then
          Step(Some(Ast.ExpressionPure(e.value.value)), e.cursor + 1)
        else Step(None, i)
  {
    ExpressionConforms(toks, i);
    var _ := Reference(toks, i);
    Options2FirstSuccess(
      Convert(Chain4(Dollar, LParen, PureExpression, RParen),
        (t: (string, string, Ast.PureExpression, string)) => Ast.ExpressionPure(t.2)),
      Convert(Reference, (x: Ast.Reference) => Ast.ExpressionReference(x)), toks, i);
    Chain2TokenHead(SymDollar, Chain3(LParen, PureExpression, RParen), toks, i);
    Chain2TokenHead(SymLeftParen, Chain2(PureExpression, RParen), toks, i + 1);
  }

  /** Away from `$`, `expression` is a reference at an identifier and nothing otherwise. */
  lemma ExpressionAwayFromDollar(toks: seq<Token>, i: nat)
    requires !KindAt(toks, i, SymDollar)
    ensures KindAt(toks, i, Identifier) ==>
      Expression(toks, i) == Step(Some(Ast.ExpressionReference(Ast.Reference(toks[i].payload))), i + 1)
    ensures !KindAt(toks, i, Identifier) ==> Expression(toks, i) == Step(None, i)
  {
    ExpressionConforms(toks, i);
    var _ := Reference(toks, i);
    Options2FirstSuccess(
      Convert(Chain4(Dollar, LParen, PureExpression, RParen),
        (t: (string, string, Ast.PureExpression, string)) => Ast.ExpressionPure(t.2)),
      Convert(Reference, (x: Ast.Reference) => Ast.ExpressionReference(x)), toks, i);
    Chain2TokenHead(SymDollar, Chain3(LParen, PureExpression, RParen), toks, i);
  }


  /** `statement` as the composition the source writes. */
  lemma StatementConforms(toks: seq<Token>, i: nat)
    ensures Statement(toks, i) == Options2(
      Convert(Chain4(Dollar, LParen, PureStatement, RParen),
        (t: (string, string, Ast.PureStatement, string)) => Ast.StatementPure(t.2)),
      Convert(Reference, (x: Ast.Reference) => Ast.StatementReference(x)))(toks, i)
  {
  }

  /** `statement` at `$` is a pure statement between `$ (` and `)`, or nothing. */
  lemma StatementAtDollar(toks: seq<Token>, i: nat)
    requires KindAt(toks, i, SymDollar)
    ensures var e := PureStatement(toks, i + 2);
      Statement(toks, i) ==
        if KindAt(toks, i + 1, SymLeftParen) && e.value.Some? && KindAt(toks, e.cursor, SymRightParen) then
          Step(Some(Ast.StatementPure(e.value.value)), e.cursor + 1)
        else Step(None, i)
  {
    StatementConforms(toks, i);
    var _ := Reference(toks, i);
    Options2FirstSuccess(
      Convert(Chain4(Dollar, LParen, PureStatement, RParen),
        (t: (string, string, Ast.PureStatement, string)) => Ast.StatementPure(t.2)),
      Convert(Reference, (x: Ast.Reference) => Ast.StatementReference(x)), toks, i);
    Chain2TokenHead(SymDollar, Chain3(LParen, PureStatement, RParen), toks, i);
    Chain2TokenHead(SymLeftParen, Chain2(PureStatement, RParen), toks, i + 1);
  }

  /** Away from `$`, `statement` is a reference at an identifier and nothing otherwise. */
  lemma StatementAwayFromDollar(toks: seq<Token>, i: nat)
    requires !KindAt(toks, i, SymDollar)
    ensures KindAt(toks, i, Identifier) ==>
      Statement(toks, i) == Step(Some(Ast.StatementReference(Ast.Reference(toks[i].payload))), i + 1)
    ensures !KindAt(toks, i, Identifier) ==> Statement(toks, i) == Step(None, i)
  {
    StatementConforms(toks, i);
    var _ := Reference(toks, i);
    Options2FirstSuccess(
      Convert(Chain4(Dollar, LParen, PureStatement, RParen),
        (t: (string, string, Ast.PureStatement, string)) => Ast.StatementPure(t.2)),
      Convert(Reference, (x: Ast.Reference) => Ast.StatementReference(x)), toks, i);
    Chain2TokenHead(SymDollar, Chain3(LParen, PureStatement, RParen), toks, i);
  }

  /** `statement` at an identifier is a reference; a pure statement needs
      `$ (` before it and `)` after it; anything else is no statement. */
  lemma StatementCases(toks: seq<Token>, i: nat)
    ensures KindAt(toks, i, Identifier) ==>
      Statement(toks, i) == Step(Some(Ast.StatementReference(Ast.Reference(toks[i].payload))), i + 1)
    ensures KindAt(toks, i, SymDollar) ==>
      var e := PureStatement(toks, i + 2);
      Statement(toks, i) ==
        if KindAt(toks, i + 1, SymLeftParen) && e.value.Some? && KindAt(toks, e.cursor, SymRightParen) then
          Step(Some(Ast.StatementPure(e.value.value)), e.cursor + 1)
        else Step(None, i)
    ensures !KindAt(toks, i, Identifier) && !KindAt(toks, i, SymDollar) ==> Statement(toks, i) == Step(None, i)
  {
    if KindAt(toks, i, SymDollar) {
      StatementAtDollar(toks, i);
      assert !KindAt(toks, i, Identifier);
    } else {
      StatementAwayFromDollar(toks, i);
    }
  }

  /** `predicates` as the composition the source writes. */
  lemma PredicatesConforms(toks: seq<Token>, i: nat)
    ensures Predicates(toks, i) == Options2(
      Convert(Reference, (x: Ast.Reference) => Ast.PredicatesReference(x)),
      Convert(PurePredicates, (p: Ast.PurePredicates) => Ast.PredicatesPure(p)))(toks, i)
  {
  }

  /** `predicates` at an identifier is a reference, and otherwise a braced
      list of domains. */
  lemma PredicatesCases(toks: seq<Token>, i: nat)
    ensures KindAt(toks, i, Identifier) ==>
      Predicates(toks, i) == Step(Some(Ast.PredicatesReference(Ast.Reference(toks[i].payload))), i + 1)
    ensures !KindAt(toks, i, Identifier) ==>
      var p := PurePredicates(toks, i);
      Predicates(toks, i) == if p.value.Some? then Step(Some(Ast.PredicatesPure(p.value.value)), p.cursor) else Step(None, i)
  {
    PredicatesConforms(toks, i);
    var _ := Reference(toks, i);
    var _ := PurePredicates(toks, i);
    Options2FirstSuccess(
      Convert(Reference, (x: Ast.Reference) => Ast.PredicatesReference(x)),
      Convert(PurePredicates, (p: Ast.PurePredicates) => Ast.PredicatesPure(p)), toks, i);
  }

  /** A braced list: `{`, the domains, `}`. */
  lemma PurePredicatesCases(toks: seq<Token>, i: nat)
    ensures var d := DomainList(toks, i + 1);
      PurePredicates(toks, i).value.Some? <==>
        KindAt(toks, i, SymLeftBrace) && d.value.Some? && KindAt(toks, d.cursor, SymRightBrace)
    ensures var d := DomainList(toks, i + 1);
      PurePredicates(toks, i).value.Some? ==>
        PurePredicates(toks, i) == Step(Some(Ast.PurePredicates(d.value.value)), d.cursor + 1)
  {
    Chain2TokenHead(SymLeftBrace, Chain2(DomainList, RBrace), toks, i);
  }

  /** Where a statement is a lone identifier, an association needs `::` and
      predicates after it.  When it fails the cursor stays past the
      identifier, and past the `::` if there is one. */
  lemma AssociationAtIdentifier(toks: seq<Token>, i: nat)
    requires KindAt(toks, i, Identifier)
    ensures var p := Predicates(toks, i + 2);
      Association(toks, i) ==
        if KindAt(toks, i + 1, SymDoubleColon) && p.value.Some? then
          Step(Some(Ast.Association(Ast.StatementReference(Ast.Reference(toks[i].payload)), p.value.value)), p.cursor)
        else if KindAt(toks, i + 1, SymDoubleColon) then Step(None, i + 2)
        else Step(None, i + 1)
  {
    StatementCases(toks, i);
    var _ := Predicates(toks, i + 2);
    Chain2TokenHead(SymDoubleColon, Predicates, toks, i + 1);
  }

  /** `value` as the composition the source writes. */
  lemma ValueConforms(toks: seq<Token>, i: nat)
    ensures Value(toks, i) == Options4(
      Convert(Association, (a: Ast.Association) => Ast.ValueAssociation(a)),
      Convert(Reference, (x: Ast.Reference) => Ast.ValueReference(x)),
      Convert(Predicates, (p: Ast.Predicates) => Ast.ValuePredicates(p)),
      Convert(Statement, (st: Ast.Statement) => Ast.ValueStatement(st)))(toks, i)
  {
  }

  /** `value` tries an association first; failing that an identifier is a
      reference; only away from an identifier are predicates and then a
      statement tried. */
  lemma ValueCases(toks: seq<Token>, i: nat)
    ensures var a := Association(toks, i);
      a.value.Some? ==> Value(toks, i) == Step(Some(Ast.ValueAssociation(a.value.value)), a.cursor)
    ensures Association(toks, i).value.None? && KindAt(toks, i, Identifier) ==>
      Value(toks, i) == Step(Some(Ast.ValueReference(Ast.Reference(toks[i].payload))), i + 1)
    ensures Association(toks, i).value.None? && !KindAt(toks, i, Identifier) ==>
      var p := Predicates(toks, i);
      var st := Statement(toks, i);
      Value(toks, i) ==
        if p.value.Some? then Step(Some(Ast.ValuePredicates(p.value.value)), p.cursor)
        else if st.value.Some? then Step(Some(Ast.ValueStatement(st.value.value)), st.cursor)
        else Step(None, i)
  {
    ValueConforms(toks, i);
    var associated := Convert(Association, (a: Ast.Association) => Ast.ValueAssociation(a));
    var named := Convert(Reference, (x: Ast.Reference) => Ast.ValueReference(x));
    var predicated := Convert(Predicates, (p: Ast.Predicates) => Ast.ValuePredicates(p));
    var stated := Convert(Statement, (st: Ast.Statement) => Ast.ValueStatement(st));
    var _ := Association(toks, i);
    var _ := Reference(toks, i);
    var _ := Predicates(toks, i);
    var _ := Statement(toks, i);
    Options2FirstSuccess(associated, Options3(named, predicated, stated), toks, i);
    Options2FirstSuccess(named, Options2(predicated, stated), toks, i);
    Options2FirstSuccess(predicated, stated, toks, i);
  }

  /** Because a lone identifier is taken as a reference before the later
      alternatives are tried, a value's predicates are always a braced list
      and its statement always a pure one. */
  lemma ValueAlternativesNarrowed(toks: seq<Token>, i: nat)
    ensures forall p :: Value(toks, i).value == Some(Ast.ValuePredicates(p)) ==> p.PredicatesPure?
    ensures forall st :: Value(toks, i).value == Some(Ast.ValueStatement(st)) ==> st.StatementPure?
  {
    ValueCases(toks, i);
    PredicatesCases(toks, i);
    StatementCases(toks, i);
  }

  /** `instruction` as the composition the source writes. */
  lemma InstructionConforms(toks: seq<Token>, i: nat)
    ensures Instruction(toks, i) == Options3(
      Convert(Import, (m: Ast.Import) => Ast.InstructionImport(m)),
      Convert(Assignment, (a: Ast.Assignment) => Ast.InstructionAssignment(a)),
      Convert(Value, (v: Ast.Value) => Ast.InstructionValue(v)))(toks, i)
  {
  }

  /** `instruction` prefers an import, then an assignment, then a value,
      and fails, cursor unmoved, when none of them parses. */
  lemma InstructionOrder(toks: seq<Token>, i: nat)
    ensures var m := Import(toks, i);
      m.value.Some? ==> Instruction(toks, i) == Step(Some(Ast.InstructionImport(m.value.value)), m.cursor)
    ensures var m := Import(toks, i); var a := Assignment(toks, i);
      m.value.None? && a.value.Some? ==>
        Instruction(toks, i) == Step(Some(Ast.InstructionAssignment(a.value.value)), a.cursor)
    ensures var m := Import(toks, i); var a := Assignment(toks, i); var v := Value(toks, i);
      m.value.None? && a.value.None? ==>
        Instruction(toks, i) == if v.value.Some? then Step(Some(Ast.InstructionValue(v.value.value)), v.cursor) else Step(None, i)
  {
    InstructionConforms(toks, i);
    var imported := Convert(Import, (m: Ast.Import) => Ast.InstructionImport(m));
    var assignment := Convert(Assignment, (a: Ast.Assignment) => Ast.InstructionAssignment(a));
    var valued := Convert(Value, (v: Ast.Value) => Ast.InstructionValue(v));
    var _ := Import(toks, i);
    var _ := Assignment(toks, i);
    var _ := Value(toks, i);
    Options2FirstSuccess(imported, Options2(assignment, valued), toks, i);
    Options2FirstSuccess(assignment, valued, toks, i);
  }

  /** `association` reads a statement, `::` and predicates, keeping fields 0 and 2. */
  lemma AssociationShape(toks: seq<Token>, i: nat)
    ensures var st := Statement(toks, i); var p := Predicates(toks, st.cursor + 1);
      Association(toks, i).value.Some? <==> st.value.Some? && KindAt(toks, st.cursor, SymDoubleColon) && p.value.Some?
    ensures var st := Statement(toks, i); var p := Predicates(toks, st.cursor + 1);
      Association(toks, i).value.Some? ==>
        Association(toks, i) == Step(Some(Ast.Association(st.value.value, p.value.value)), p.cursor)
  {
    var st := Statement(toks, i);
    Chain2TokenHead(SymDoubleColon, Predicates, toks, st.cursor);
  }

  /** `assignment` reads an identifier, `=` and a value, and assigns that
      value to the identifier's reference. */
  lemma AssignmentShape(toks: seq<Token>, i: nat)
    ensures var v := Value(toks, i + 2);
      Assignment(toks, i).value.Some? <==>
        KindAt(toks, i, Identifier) && KindAt(toks, i + 1, SymEquals) && v.value.Some?
    ensures var v := Value(toks, i + 2);
      Assignment(toks, i).value.Some? ==>
        Assignment(toks, i) == Step(Some(Ast.Assignment(Ast.Reference(toks[i].payload), v.value.value)), v.cursor)
  {
    var _ := Reference(toks, i);
    Chain2TokenHead(SymEquals, Value, toks, i + 1);
  }

  /** `pure_statement` reads an expression, `=` and an expression, and keeps
      both sides. */
  lemma PureStatementShape(toks: seq<Token>, i: nat)
    ensures var l := PureExpression(toks, i); var r := PureExpression(toks, l.cursor + 1);
      PureStatement(toks, i).value.Some? <==> l.value.Some? && KindAt(toks, l.cursor, SymEquals) && r.value.Some?
    ensures var l := PureExpression(toks, i); var r := PureExpression(toks, l.cursor + 1);
      PureStatement(toks, i).value.Some? ==>
        PureStatement(toks, i) == Step(Some(Ast.PureStatement(l.value.value, r.value.value)), r.cursor)
  {
    var l := PureExpression(toks, i);
    Chain2TokenHead(SymEquals, PureExpression, toks, l.cursor);
  }

  /** `pure_predicate_domain` reads a variable, `in` and an expression. */
  lemma PurePredicateDomainShape(toks: seq<Token>, i: nat)
    ensures var x := Variable(toks, i); var e := Expression(toks, x.cursor + 1);
      PurePredicateDomain(toks, i).value.Some? <==> x.value.Some? && KindAt(toks, x.cursor, KwdIn) && e.value.Some?
    ensures var x := Variable(toks, i); var e := Expression(toks, x.cursor + 1);
      PurePredicateDomain(toks, i).value.Some? ==>
        PurePredicateDomain(toks, i) == Step(Some(Ast.PurePredicateDomain(x.value.value, e.value.value)), e.cursor)
  {
    var x := Variable(toks, i);
    Chain2TokenHead(KwdIn, Expression, toks, x.cursor);
  }

  /** Where no domain parses, the list of domains is empty, and the cursor
      stays where the failed domain left it, which may be past a variable
      that no `in` follows: neither the chain nor the loop rewinds. */
  lemma DomainListEmpty(toks: seq<Token>, i: nat)
    ensures var d := PurePredicateDomain(toks, i);
      d.value.None? ==> DomainList(toks, i) == Step(Some([]), d.cursor)
  {
    SingletSound(SymComma);
    if PurePredicateDomain(toks, i).value.None? {
      LoopZeroItems(PurePredicateDomain, Comma, true, toks, i);
    }
  }
}
