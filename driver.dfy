/** The drain at the end of source/exec/main.cpp: parse instructions one
    after another, each from where the previous one stopped, until one
    fails. */
module Driver {
  import opened Wrappers
  import opened Variant
  import opened Nabu
  import opened Tokens
  import Grammar
  import Ast

  /** The instructions parsed from `i` on, and the cursor at which the
      first failing attempt was made.  Every instruction consumes a token,
      so there are no more instructions than tokens consumed. */
  function Drained(toks: seq<Token>, i: nat): (r: (seq<Ast.Instruction>, nat))
    ensures Within(|toks|, i, r.1)
    ensures |r.0| <= r.1 - i
    ensures Grammar.Instruction(toks, r.1).value.None?
    decreases |toks| - i
  {
    var v := Grammar.Instruction(toks, i);
    if v.value.None? then ([], i)
    else
      var rest := Drained(toks, v.cursor);
      ([v.value.value] + rest.0, rest.1)
  }

  /** The loop of `main` as written: call `instruction` while it succeeds. */
  method Drain(toks: seq<Token>) returns (instructions: seq<Ast.Instruction>, index: nat)
    ensures (instructions, index) == Drained(toks, 0)
  {
    instructions, index := [], 0;
    while true
      invariant instructions + Drained(toks, index).0 == Drained(toks, 0).0
      invariant Drained(toks, index).1 == Drained(toks, 0).1
      decreases |toks| - index
    {
      var v := Grammar.Instruction(toks, index);
      if v.value.None? {
        assert Drained(toks, index) == ([], index);
        break;
      }
      assert Drained(toks, index).0 == [v.value.value] + Drained(toks, v.cursor).0;
      instructions, index := instructions + [v.value.value], v.cursor;
    }
    assert instructions + [] == instructions;
  }

  /** The instructions of a text: tokenize, drop the whitespace entries,
      drain; `None` when the text does not tokenize. */
  function Program(s: string): (r: Option<(seq<Ast.Instruction>, nat)>)
    ensures r.Some? <==> Tokenize(s).Some?
    ensures r.Some? ==> var toks := Significant(Tokenize(s).value);
      r.value.1 <= |toks| && Grammar.Instruction(toks, r.value.1).value.None?
  {
    var toks := Tokenize(s);
    if toks.None? then None else Some(Drained(Significant(toks.value), 0))
  }
}
