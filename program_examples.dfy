/** A whole line of the language, from its text to its instructions. */
module ProgramExamples {
  import opened Wrappers
  import opened Variant
  import opened Tokens
  import Grammar
  import Ast
  import opened Driver
  import LexerExamples
  import GrammarExamples

  /** The whitespace entries of `from std use Real` are dropped. */
  lemma ImportLineSignificant()
    ensures Significant([LexerExamples.FromKw, LexerExamples.Space, LexerExamples.Std, LexerExamples.Space,
                         LexerExamples.UseKw, LexerExamples.Space, LexerExamples.Real]) ==
      [LexerExamples.FromKw, LexerExamples.Std, LexerExamples.UseKw, LexerExamples.Real]
  {
    var sp := LexerExamples.Space;
    var s6 := [LexerExamples.Real];
    SignificantCons(LexerExamples.Real, []);
    var s5 := [sp] + s6;
    SignificantCons(sp, s6);
    var s4 := [LexerExamples.UseKw] + s5;
    SignificantCons(LexerExamples.UseKw, s5);
    var s3 := [sp] + s4;
    SignificantCons(sp, s4);
    var s2 := [LexerExamples.Std] + s3;
    SignificantCons(LexerExamples.Std, s3);
    var s1 := [sp] + s2;
    SignificantCons(sp, s2);
    var s0 := [LexerExamples.FromKw] + s1;
    SignificantCons(LexerExamples.FromKw, s1);
    assert s0 == [LexerExamples.FromKw, sp, LexerExamples.Std, sp, LexerExamples.UseKw, sp, LexerExamples.Real];
  }

  /** The tokens of the import line drain to the one import. */
  lemma DrainImportLine(toks: seq<Token>)
    requires toks == [LexerExamples.FromKw, LexerExamples.Std, LexerExamples.UseKw, LexerExamples.Real]
    ensures Drained(toks, 0) == ([Ast.InstructionImport(Ast.Import("std", "Real"))], 4)
  {
    GrammarExamples.ImportInstruction(toks);
    assert Drained(toks, 4) == ([], 4);
    assert [Ast.InstructionImport(Ast.Import("std", "Real"))] + [] == [Ast.InstructionImport(Ast.Import("std", "Real"))];
  }

  /** `from std use Real` is one import instruction and nothing after it. */
  lemma ImportProgram(s: string)
    requires s == "from std use Real"
    ensures Program(s) == Some(([Ast.InstructionImport(Ast.Import("std", "Real"))], 4))
  {
    LexerExamples.LexImportLine();
    ImportLineSignificant();
    var toks := [LexerExamples.FromKw, LexerExamples.Std, LexerExamples.UseKw, LexerExamples.Real];
    assert Significant(Tokenize(s).value) == toks;
    DrainImportLine(toks);
  }
}
