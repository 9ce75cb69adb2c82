/** Tokenizing some texts of the language with `oxidius_lexer`. */
module LexerExamples {
  import opened Wrappers
  import opened Variant
  import opened Tokens

  const InKw: Token := Variant(KwdIn, "")
  const Dex: Token := Variant(Identifier, "dex")

  /** A keyword is a prefix match tried before identifiers, so `index` is
      the keyword `in` followed by the identifier `dex`. */
  lemma LexIndex()
    ensures Tokenize("index") == Some([InKw, Dex])
  {
    var s := "index";
    assert s[0..2] == "in";
    assert NextToken(s, 0) == Some((InKw, 2));
    assert AlphaRunEnd(s, 2) == 5;
    assert s[2..5] == "dex";
    assert NextToken(s, 2) == Some((Dex, 5));
    assert Scan(s, 5) == ([], 5);
    assert Scan(s, 2) == ([Dex] + [], 5);
    assert Scan(s, 0) == ([InKw] + ([Dex] + []), 5);
    assert [InKw] + ([Dex] + []) == [InKw, Dex];
    TokenizeIsScan(s);
  }

  const FromKw: Token := Variant(KwdFrom, "")
  const UseKw: Token := Variant(KwdUse, "")
  const Space: Token := Variant(Null, "")
  const Std: Token := Variant(Identifier, "std")
  const Real: Token := Variant(Identifier, "Real")

  /** The tokens of `from std use Real` one by one. */
  lemma ImportLineSteps(s: string)
    requires s == "from std use Real"
    ensures NextToken(s, 0) == Some((FromKw, 4))
    ensures NextToken(s, 4) == Some((Space, 5))
    ensures NextToken(s, 5) == Some((Std, 8))
    ensures NextToken(s, 8) == Some((Space, 9))
    ensures NextToken(s, 9) == Some((UseKw, 12))
    ensures NextToken(s, 12) == Some((Space, 13))
    ensures NextToken(s, 13) == Some((Real, 17))
    ensures NextToken(s, 17) == None
  {
    ImportLineHead(s);
    ImportLineTail(s);
  }

  /** The steps over `from std `. */
  lemma ImportLineHead(s: string)
    requires s == "from std use Real"
    ensures NextToken(s, 0) == Some((FromKw, 4))
    ensures NextToken(s, 4) == Some((Space, 5))
    ensures NextToken(s, 5) == Some((Std, 8))
    ensures NextToken(s, 8) == Some((Space, 9))
  {
    assert s[0..4] == "from";
    assert AlphaRunEnd(s, 8) == 8;
    assert AlphaRunEnd(s, 6) == 8;
    assert s[5..8] == "std";
  }

  /** The steps over `use Real`, and the end of the text. */
  lemma ImportLineTail(s: string)
    requires s == "from std use Real"
    ensures NextToken(s, 9) == Some((UseKw, 12))
    ensures NextToken(s, 12) == Some((Space, 13))
    ensures NextToken(s, 13) == Some((Real, 17))
    ensures NextToken(s, 17) == None
  {
    NextTokenAtWord(s, 9);
    MatchesAtFirst("in", s, 9);
    assert s[9..12] == "use";
    NextTokenAtWord(s, 13);
    MatchesAtFirst("in", s, 13);
    MatchesAtFirst("use", s, 13);
    MatchesAtFirst("from", s, 13);
    assert AlphaRunEnd(s, 17) == 17;
    assert AlphaRunEnd(s, 15) == 17;
    assert s[13..17] == "Real";
  }

  /** `from std use Real` lexes to the keyword `from`, the identifier `std`,
      the keyword `use` and the identifier `Real`, with a whitespace entry
      between each two. */
  lemma LexImportLine()
    ensures Tokenize("from std use Real") == Some([FromKw, Space, Std, Space, UseKw, Space, Real])
  {
    var s := "from std use Real";
    ImportLineSteps(s);
    assert Scan(s, 17) == ([], 17);
    assert Scan(s, 13) == ([Real] + [], 17);
    assert Scan(s, 12) == ([Space] + ([Real] + []), 17);
    assert Scan(s, 9) == ([UseKw] + ([Space] + ([Real] + [])), 17);
    assert Scan(s, 8) == ([Space] + ([UseKw] + ([Space] + ([Real] + []))), 17);
    assert Scan(s, 5) == ([Std] + ([Space] + ([UseKw] + ([Space] + ([Real] + [])))), 17);
    assert Scan(s, 4) == ([Space] + ([Std] + ([Space] + ([UseKw] + ([Space] + ([Real] + []))))), 17);
    assert Scan(s, 0) == ([FromKw] + ([Space] + ([Std] + ([Space] + ([UseKw] + ([Space] + ([Real] + [])))))), 17);
    assert [FromKw] + ([Space] + ([Std] + ([Space] + ([UseKw] + ([Space] + ([Real] + [])))))) ==
      [FromKw, Space, Std, Space, UseKw, Space, Real];
    TokenizeIsScan(s);
  }

  /** A lone colon is not a token: only `::` is. */
  lemma LexLoneColon()
    ensures Tokenize(":").None?
  {
    var s := ":";
    assert NextToken(s, 0) == None;
    assert Scan(s, 0) == ([], 0);
    TokenizeIsScan(s);
  }

  /** A digit or an underscore is outside the lexer's alphabet. */
  lemma LexForeign()
    ensures Tokenize("x1").None?
    ensures Tokenize("a_b").None?
  {
    ForeignCharRejected("x1", 1);
    ForeignCharRejected("a_b", 1);
  }
}
