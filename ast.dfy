/** The syntax tree of source/exec/grammar.hpp.  Each `bestd::variant` the
    C++ derives from becomes a datatype with one constructor per
    alternative, so a node records which alternative it holds; the
    `std::shared_ptr` that boxes a nested expression becomes plain
    recursion. */
module Ast {
  /** A mathematical variable: the text of an identifier. */
  datatype PureVariable = PureVariable(name: string)

  /** A factor is a variable or a parenthesised expression. */
  datatype PureFactor =
    | FactorVariable(variable: PureVariable)
    | FactorBoxed(boxed: PureExpression)

  /** A term holds one factor. */
  datatype PureTerm = PureTerm(factor: PureFactor)

  /** An expression holds one term: nothing records a `+` or its right operand. */
  datatype PureExpression = PureExpression(term: PureTerm)

  /** An equation, left-hand side first. */
  datatype PureStatement = PureStatement(lhs: PureExpression, rhs: PureExpression)

  /** A programming variable: the text of an identifier. */
  datatype Reference = Reference(name: string)

  datatype Variable =
    | VariablePure(pure: PureVariable)
    | VariableReference(reference: Reference)

  datatype Expression =
    | ExpressionPure(pure: PureExpression)
    | ExpressionReference(reference: Reference)

  datatype Statement =
    | StatementPure(pure: PureStatement)
    | StatementReference(reference: Reference)

  /** `var in domain`. */
  datatype PurePredicateDomain = PurePredicateDomain(variable: Variable, domain: Expression)

  datatype PurePredicates = PurePredicates(domains: seq<PurePredicateDomain>)

  datatype Predicates =
    | PredicatesPure(pure: PurePredicates)
    | PredicatesReference(reference: Reference)

  /** One package and one item (a single string each). */
  datatype Import = Import(package: string, items: string)

  datatype Association = Association(statement: Statement, predicates: Predicates)

  /** `Value`'s alternatives, in the order of the C++ variant. */
  datatype Value =
    | ValueReference(reference: Reference)
    | ValuePredicates(predicates: Predicates)
    | ValueStatement(statement: Statement)
    | ValueAssociation(association: Association)

  datatype Assignment = Assignment(destination: Reference, value: Value)

  /** `Instruction`'s alternatives, in the order of the C++ variant. */
  datatype Instruction =
    | InstructionImport(imported: Import)
    | InstructionAssignment(assignment: Assignment)
    | InstructionValue(value: Value)
}
