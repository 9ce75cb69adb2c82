/** The token model and the concrete lexer of source/token.hpp. */
module Tokens {
  import opened Wrappers
  import opened Variant
  import opened Nabu

  /** The token types (source/token.hpp:6-23), with `Null` for the `nabu::null`
      that `lex_space` yields.  They are listed in the order of the recognisers
      of `oxidius_lexer`, which is the order of `Token`'s alternatives. */
  datatype Kind =
    | Null
    | SymLeftBrace | SymRightBrace | SymLeftParen | SymRightParen
    | SymDollar | SymDoubleColon | SymEquals | SymPlus | SymComma
    | KwdIn | KwdUse | KwdFrom
    | Identifier

  /** `Token`: a variant over the lexer's result types.  The payload is the
      text of an identifier; every other alternative is an empty struct and
      carries "". */
  type Token = Variant<Kind, string>

  /** `std::isspace` in the C locale. */
  predicate IsSpace(c: char) {
    c == ' ' || '\t' <= c <= '\r'
  }

  /** `std::isalpha` in the C locale. */
  predicate IsAlpha(c: char) {
    'a' <= c <= 'z' || 'A' <= c <= 'Z'
  }

  /** `lex_space`: one whitespace character, yielding null. */
  function LexSpace(s: string, i: nat): (r: Option<(string, nat)>)
    ensures r.Some? <==> i < |s| && IsSpace(s[i])
    ensures r.Some? ==> r.value == ("", i + 1)
  {
    if i < |s| && IsSpace(s[i]) then Some(("", i + 1)) else None
  }

  /** The end of the run of alphabetic characters that starts at `i`. */
  function AlphaRunEnd(s: string, i: nat): (j: nat)
    ensures j == i || i < j <= |s|
    ensures forall m :: i <= m < j ==> IsAlpha(s[m])
    ensures j < |s| ==> !IsAlpha(s[j])
    decreases |s| - i
  {
    if i < |s| && IsAlpha(s[i]) then AlphaRunEnd(s, i + 1) else i
  }

  /** `lex_identifier`, as the recogniser function: the maximal alphabetic
      run at `i`, or nothing when that run is empty. */
  function IdentifierRun(s: string, i: nat): (r: Option<(string, nat)>)
    ensures r.Some? <==> i < |s| && IsAlpha(s[i])
    ensures r.Some? ==> var (id, j) := r.value;
      i < j <= |s| && id == s[i..j] && (forall c :: c in id ==> IsAlpha(c)) && (j == |s| || !IsAlpha(s[j]))
  {
    var j := AlphaRunEnd(s, i);
    if j == i then None else Some((s[i..j], j))
  }

  /** `lex_identifier` as written: collect characters while they are
      alphabetic, fail on an empty run, and only then move the cursor. */
  method LexIdentifier(s: string, i0: nat) returns (r: Option<string>, i: nat)
    ensures r.Some? ==> IdentifierRun(s, i0) == Some((r.value, i)) && r.value != []
    ensures r.Some? ==> forall c :: c in r.value ==> IsAlpha(c)
    ensures r.Some? ==> i == |s| || !IsAlpha(s[i])
    ensures r.None? ==> IdentifierRun(s, i0).None? && i == i0
    ensures r.None? <==> !(i0 < |s| && IsAlpha(s[i0]))
  {
    var j := i0;
    var id: string := "";
    while j < |s| && IsAlpha(s[j])
      invariant (j == i0 && id == "") || (i0 < j <= |s| && id == s[i0..j])
      invariant AlphaRunEnd(s, j) == AlphaRunEnd(s, i0)
      decreases |s| - j
    {
      id := id + [s[j]];
      j := j + 1;
    }
    if id == "" {
      return None, i0;
    }
    i := j;
    return Some(id), i;
  }

  /** `oxidius_lexer`: the recognisers in priority order. */
  const OxidiusLexer: seq<Recognizer<Kind>> := [
    Recognizer(Null, LexSpace),
    Raw("{", SymLeftBrace, false),
    Raw("}", SymRightBrace, false),
    Raw("(", SymLeftParen, false),
    Raw(")", SymRightParen, false),
    Raw("$", SymDollar, false),
    Raw("::", SymDoubleColon, false),
    Raw("=", SymEquals, false),
    Raw("+", SymPlus, false),
    Raw(",", SymComma, false),
    Raw("in", KwdIn, false),
    Raw("use", KwdUse, false),
    Raw("from", KwdFrom, false),
    Recognizer(Identifier, IdentifierRun)
  ]

  /** `Token`'s alternatives, in order. */
  const TokenKinds: seq<Kind> := [
    Null, SymLeftBrace, SymRightBrace, SymLeftParen, SymRightParen, SymDollar,
    SymDoubleColon, SymEquals, SymPlus, SymComma, KwdIn, KwdUse, KwdFrom, Identifier
  ]

  /** The position of each kind among `Token`'s alternatives. */
  function Ordinal(k: Kind): nat {
    match k
    case Null => 0
    case SymLeftBrace => 1
    case SymRightBrace => 2
    case SymLeftParen => 3
    case SymRightParen => 4
    case SymDollar => 5
    case SymDoubleColon => 6
    case SymEquals => 7
    case SymPlus => 8
    case SymComma => 9
    case KwdIn => 10
    case KwdUse => 11
    case KwdFrom => 12
    case Identifier => 13
  }

  /** `type_index` over `Token`'s alternatives finds every kind, at its place
      in the list: every kind is an alternative, as `parse_token<T>` demands
      of its `T`. */
  lemma TokenTypeIndex(k: Kind)
    ensures TypeIndex(TokenKinds, k) == Ordinal(k)
  {
    assert forall n :: 0 <= n < |TokenKinds| ==> Ordinal(TokenKinds[n]) == n;
    assert TokenKinds[Ordinal(k)] == k;
  }

  /** The group is accepted by `valid_lexer_group`, and its result types are
      `Token`'s alternatives. */
  lemma OxidiusLexerIsValid()
    ensures ResultTypes(OxidiusLexer) == TokenKinds
    ensures ValidLexerGroup(OxidiusLexer)
  {
    assert ResultTypes(OxidiusLexer) == TokenKinds;
    assert forall n :: 0 <= n < |TokenKinds| ==> Ordinal(TokenKinds[n]) == n;
    assert !exists a, b :: 0 <= a < b < |TokenKinds| && TokenKinds[a] == TokenKinds[b];
  }

  /** Every recogniser of `oxidius_lexer` moves forward, inside the text, when it succeeds. */
  lemma OxidiusLexerProgresses()
    ensures Progressive(OxidiusLexer)
  {
  }

  /** Tokenizing a whole text with `oxidius_lexer` from position 0. */
  function Tokenize(s: string): Option<seq<Token>> {
    OxidiusLexerIsValid();
    OxidiusLexerProgresses();
    LexerGroup(OxidiusLexer, s, 0).0
  }

  /** The literal `lit` occurs at `i`, character by character. */
  lemma MatchesAtChars(lit: string, s: string, i: nat)
    ensures MatchesAt(lit, s, i) <==> |lit| == 0 || (i + |lit| <= |s| && forall m :: 0 <= m < |lit| ==> s[i + m] == lit[m])
  {
    if |lit| > 0 && i + |lit| <= |s| {
      if forall m :: 0 <= m < |lit| ==> s[i + m] == lit[m] {
        assert s[i..i + |lit|] == lit;
      }
    }
  }

  /** The entries of `oxidius_lexer`, one by one. */
  lemma OxidiusLexerEntries()
    ensures OxidiusLexer[0] == Recognizer(Null, LexSpace)
    ensures OxidiusLexer[1] == Raw("{", SymLeftBrace, false)
    ensures OxidiusLexer[2] == Raw("}", SymRightBrace, false)
    ensures OxidiusLexer[3] == Raw("(", SymLeftParen, false)
    ensures OxidiusLexer[4] == Raw(")", SymRightParen, false)
    ensures OxidiusLexer[5] == Raw("$", SymDollar, false)
    ensures OxidiusLexer[6] == Raw("::", SymDoubleColon, false)
    ensures OxidiusLexer[7] == Raw("=", SymEquals, false)
    ensures OxidiusLexer[8] == Raw("+", SymPlus, false)
    ensures OxidiusLexer[9] == Raw(",", SymComma, false)
    ensures OxidiusLexer[10] == Raw("in", KwdIn, false)
    ensures OxidiusLexer[11] == Raw("use", KwdUse, false)
    ensures OxidiusLexer[12] == Raw("from", KwdFrom, false)
    ensures OxidiusLexer[13] == Recognizer(Identifier, IdentifierRun)
  {
  }

  /** The result types of the keyword and identifier recognisers. */
  lemma WordResults()
    ensures OxidiusLexer[10].result == KwdIn && OxidiusLexer[11].result == KwdUse
    ensures OxidiusLexer[12].result == KwdFrom && OxidiusLexer[13] == Recognizer(Identifier, IdentifierRun)
  {
  }

  /** A literal occurs only where its first character does, and a
      one-character literal exactly there. */
  lemma MatchesAtFirst(lit: string, s: string, i: nat)
    requires |lit| > 0
    ensures MatchesAt(lit, s, i) ==> i < |s| && s[i] == lit[0]
    ensures |lit| == 1 ==> (MatchesAt(lit, s, i) <==> i < |s| && s[i] == lit[0])
  {
    if MatchesAt(lit, s, i) {
      assert s[i..i + |lit|][0] == s[i];
    }
    if |lit| == 1 && i < |s| && s[i] == lit[0] {
      assert s[i..i + 1] == [s[i]];
    }
  }

  /** Where the one-character symbols of the language are recognised, by
      their character. */
  function SymbolKind(c: char): Option<Kind> {
    if c == '{' then Some(SymLeftBrace)
    else if c == '}' then Some(SymRightBrace)
    else if c == '(' then Some(SymLeftParen)
    else if c == ')' then Some(SymRightParen)
    else if c == '$' then Some(SymDollar)
    else if c == '=' then Some(SymEquals)
    else if c == '+' then Some(SymPlus)
    else if c == ',' then Some(SymComma)
    else None
  }

  /** What `oxidius_lexer` recognises at `i`, decided character by
      character: whitespace; a one-character symbol; `::`; a keyword,
      which wins over the identifier it begins; an identifier, the longest
      run of letters; nothing otherwise (a lone `:`, any other character, the
      end of the text). */
  function NextToken(s: string, i: nat): Option<(Token, nat)> {
    if i >= |s| then None
    else
      var c := s[i];
      if IsSpace(c) then Some((Variant(Null, ""), i + 1))
      else if SymbolKind(c).Some? then Some((Variant(SymbolKind(c).value, ""), i + 1))
      else if c == ':' then
        if i + 1 < |s| && s[i + 1] == ':' then Some((Variant(SymDoubleColon, ""), i + 2)) else None
      else if MatchesAt("in", s, i) then Some((Variant(KwdIn, ""), i + 2))
      else if MatchesAt("use", s, i) then Some((Variant(KwdUse, ""), i + 3))
      else if MatchesAt("from", s, i) then Some((Variant(KwdFrom, ""), i + 4))
      else if IsAlpha(c) then Some((Variant(Identifier, s[i..AlphaRunEnd(s, i)]), AlphaRunEnd(s, i)))
      else None
  }

  /** The closed form of the symbol recognisers of the group at `i`. */
  lemma SymbolRuns(s: string, i: nat)
    ensures OxidiusLexer[1].run(s, i) == if i < |s| && s[i] == '{' then Some(("", i + 1)) else None
    ensures OxidiusLexer[2].run(s, i) == if i < |s| && s[i] == '}' then Some(("", i + 1)) else None
    ensures OxidiusLexer[3].run(s, i) == if i < |s| && s[i] == '(' then Some(("", i + 1)) else None
    ensures OxidiusLexer[4].run(s, i) == if i < |s| && s[i] == ')' then Some(("", i + 1)) else None
    ensures OxidiusLexer[5].run(s, i) == if i < |s| && s[i] == '$' then Some(("", i + 1)) else None
    ensures OxidiusLexer[6].run(s, i) == if i + 1 < |s| && s[i] == ':' && s[i + 1] == ':' then Some(("", i + 2)) else None
    ensures OxidiusLexer[7].run(s, i) == if i < |s| && s[i] == '=' then Some(("", i + 1)) else None
    ensures OxidiusLexer[8].run(s, i) == if i < |s| && s[i] == '+' then Some(("", i + 1)) else None
    ensures OxidiusLexer[9].run(s, i) == if i < |s| && s[i] == ',' then Some(("", i + 1)) else None
  {
    OxidiusLexerEntries();
    MatchesAtFirst("{", s, i);
    MatchesAtFirst("}", s, i);
    MatchesAtFirst("(", s, i);
    MatchesAtFirst(")", s, i);
    MatchesAtFirst("$", s, i);
    MatchesAtFirst("=", s, i);
    MatchesAtFirst("+", s, i);
    MatchesAtFirst(",", s, i);
    MatchesAtChars("::", s, i);
  }

  /** Whitespace is tried first, then the one-character symbols and `::`. */
  lemma SymbolResults()
    ensures OxidiusLexer[0].run == LexSpace
    ensures OxidiusLexer[1].result == SymLeftBrace && OxidiusLexer[2].result == SymRightBrace
    ensures OxidiusLexer[3].result == SymLeftParen && OxidiusLexer[4].result == SymRightParen
    ensures OxidiusLexer[5].result == SymDollar && OxidiusLexer[6].result == SymDoubleColon
    ensures OxidiusLexer[7].result == SymEquals && OxidiusLexer[8].result == SymPlus
    ensures OxidiusLexer[9].result == SymComma
  {
  }

  /** Away from whitespace the group passes over `lex_space`. */
  lemma PastSpace(s: string, i: nat)
    requires !(i < |s| && IsSpace(s[i]))
    ensures EvalI(OxidiusLexer, s, i, 0) == EvalI(OxidiusLexer, s, i, 1)
  {
    SymbolResults();
    EvalISkip(OxidiusLexer, s, i, 0);
  }

  /** At a symbol character the tokenizer reads that symbol alone. */
  lemma NextTokenAtSymbol(s: string, i: nat)
    requires i < |s| && SymbolKind(s[i]).Some?
    ensures NextToken(s, i) == Some((Variant(SymbolKind(s[i]).value, ""), i + 1))
  {
    assert !IsSpace(s[i]);
  }

  /** The closed form of the keyword recognisers of the group at `i`: every
      keyword begins with a letter. */
  lemma KeywordRuns(s: string, i: nat)
    ensures OxidiusLexer[10].run(s, i) == if MatchesAt("in", s, i) then Some(("", i + 2)) else None
    ensures OxidiusLexer[11].run(s, i) == if MatchesAt("use", s, i) then Some(("", i + 3)) else None
    ensures OxidiusLexer[12].run(s, i) == if MatchesAt("from", s, i) then Some(("", i + 4)) else None
    ensures MatchesAt("in", s, i) || MatchesAt("use", s, i) || MatchesAt("from", s, i) ==> i < |s| && IsAlpha(s[i])
  {
    OxidiusLexerEntries();
    MatchesAtFirst("in", s, i);
    MatchesAtFirst("use", s, i);
    MatchesAtFirst("from", s, i);
  }

  /** Whitespace is recognised first. */
  lemma FirstMatchSpace(s: string, i: nat)
    requires i < |s| && IsSpace(s[i])
    ensures EvalI(OxidiusLexer, s, i, 0) == NextToken(s, i)
  {
    OxidiusLexerEntries();
  }

  // One lemma per symbol: the recognisers before it fail, and it succeeds.

  lemma FirstMatchLeftBrace(s: string, i: nat)
    requires i < |s| && s[i] == '{'
    ensures EvalI(OxidiusLexer, s, i, 0) == NextToken(s, i)
  {
    PastSpace(s, i);
    SymbolResults();
    SymbolRuns(s, i);
    EvalIHit(OxidiusLexer, s, i, 1);
    NextTokenAtSymbol(s, i);
  }

  lemma FirstMatchRightBrace(s: string, i: nat)
    requires i < |s| && s[i] == '}'
    ensures EvalI(OxidiusLexer, s, i, 0) == NextToken(s, i)
  {
    PastSpace(s, i);
    SymbolResults();
    SymbolRuns(s, i);
    EvalISkip(OxidiusLexer, s, i, 1);
    EvalIHit(OxidiusLexer, s, i, 2);
    NextTokenAtSymbol(s, i);
  }

  lemma FirstMatchLeftParen(s: string, i: nat)
    requires i < |s| && s[i] == '('
    ensures EvalI(OxidiusLexer, s, i, 0) == NextToken(s, i)
  {
    PastSpace(s, i);
    SymbolResults();
    SymbolRuns(s, i);
    EvalISkip(OxidiusLexer, s, i, 1);
    EvalISkip(OxidiusLexer, s, i, 2);
    EvalIHit(OxidiusLexer, s, i, 3);
    NextTokenAtSymbol(s, i);
  }

  lemma FirstMatchRightParen(s: string, i: nat)
    requires i < |s| && s[i] == ')'
    ensures EvalI(OxidiusLexer, s, i, 0) == NextToken(s, i)
  {
    PastSpace(s, i);
    SymbolResults();
    SymbolRuns(s, i);
    EvalISkip(OxidiusLexer, s, i, 1);
    EvalISkip(OxidiusLexer, s, i, 2);
    EvalISkip(OxidiusLexer, s, i, 3);
    EvalIHit(OxidiusLexer, s, i, 4);
    NextTokenAtSymbol(s, i);
  }

  lemma FirstMatchDollar(s: string, i: nat)
    requires i < |s| && s[i] == '$'
    ensures EvalI(OxidiusLexer, s, i, 0) == NextToken(s, i)
  {
    PastSpace(s, i);
    SymbolResults();
    SymbolRuns(s, i);
    EvalISkip(OxidiusLexer, s, i, 1);
    EvalISkip(OxidiusLexer, s, i, 2);
    EvalISkip(OxidiusLexer, s, i, 3);
    EvalISkip(OxidiusLexer, s, i, 4);
    EvalIHit(OxidiusLexer, s, i, 5);
    NextTokenAtSymbol(s, i);
  }

  lemma FirstMatchEquals(s: string, i: nat)
    requires i < |s| && s[i] == '='
    ensures EvalI(OxidiusLexer, s, i, 0) == NextToken(s, i)
  {
    SymbolResults();
    SymbolRuns(s, i);
    PastBrackets(s, i);
    EvalISkip(OxidiusLexer, s, i, 6);
    EvalIHit(OxidiusLexer, s, i, 7);
    NextTokenAtSymbol(s, i);
  }

  lemma FirstMatchPlus(s: string, i: nat)
    requires i < |s| && s[i] == '+'
    ensures EvalI(OxidiusLexer, s, i, 0) == NextToken(s, i)
  {
    SymbolResults();
    SymbolRuns(s, i);
    PastBrackets(s, i);
    EvalISkip(OxidiusLexer, s, i, 6);
    EvalISkip(OxidiusLexer, s, i, 7);
    EvalIHit(OxidiusLexer, s, i, 8);
    NextTokenAtSymbol(s, i);
  }

  lemma FirstMatchComma(s: string, i: nat)
    requires i < |s| && s[i] == ','
    ensures EvalI(OxidiusLexer, s, i, 0) == NextToken(s, i)
  {
    SymbolResults();
    SymbolRuns(s, i);
    PastBrackets(s, i);
    EvalISkip(OxidiusLexer, s, i, 6);
    EvalISkip(OxidiusLexer, s, i, 7);
    EvalISkip(OxidiusLexer, s, i, 8);
    EvalIHit(OxidiusLexer, s, i, 9);
    NextTokenAtSymbol(s, i);
  }

  /** A one-character symbol is recognised by its character, whatever its
      place in the group. */
  lemma FirstMatchSymbol(s: string, i: nat)
    requires i < |s| && SymbolKind(s[i]).Some?
    ensures EvalI(OxidiusLexer, s, i, 0) == NextToken(s, i)
  {
    if s[i] == '{' {
      FirstMatchLeftBrace(s, i);
    } else if s[i] == '}' {
      FirstMatchRightBrace(s, i);
    } else if s[i] == '(' {
      FirstMatchLeftParen(s, i);
    } else if s[i] == ')' {
      FirstMatchRightParen(s, i);
    } else if s[i] == '$' {
      FirstMatchDollar(s, i);
    } else if s[i] == '=' {
      FirstMatchEquals(s, i);
    } else if s[i] == '+' {
      FirstMatchPlus(s, i);
    } else {
      FirstMatchComma(s, i);
    }
  }

  /** Where no letter stands, the keywords and the identifier fail. */
  lemma NoWordAt(s: string, i: nat)
    requires !(i < |s| && IsAlpha(s[i]))
    ensures EvalI(OxidiusLexer, s, i, 10) == None
  {
    OxidiusLexerEntries();
    KeywordRuns(s, i);
    EvalISkip(OxidiusLexer, s, i, 10);
    EvalISkip(OxidiusLexer, s, i, 11);
    EvalISkip(OxidiusLexer, s, i, 12);
    EvalISkip(OxidiusLexer, s, i, 13);
  }

  /** At a letter a keyword wins over the identifier it begins. */
  lemma WordAt(s: string, i: nat)
    requires i < |s| && IsAlpha(s[i])
    ensures EvalI(OxidiusLexer, s, i, 10) == NextToken(s, i)
  {
    if MatchesAt("in", s, i) {
      InAt(s, i);
    } else if MatchesAt("use", s, i) {
      UseAt(s, i);
    } else if MatchesAt("from", s, i) {
      FromAt(s, i);
    } else {
      PlainWordAt(s, i);
    }
  }

  // One lemma per keyword, and one for a word that begins with none of them.

  /** At a letter the tokenizer reads a keyword or else an identifier. */
  lemma NextTokenAtWord(s: string, i: nat)
    requires i < |s| && IsAlpha(s[i])
    ensures NextToken(s, i) ==
      if MatchesAt("in", s, i) then Some((Variant(KwdIn, ""), i + 2))
      else if MatchesAt("use", s, i) then Some((Variant(KwdUse, ""), i + 3))
      else if MatchesAt("from", s, i) then Some((Variant(KwdFrom, ""), i + 4))
      else Some((Variant(Identifier, s[i..AlphaRunEnd(s, i)]), AlphaRunEnd(s, i)))
  {
    assert !IsSpace(s[i]) && SymbolKind(s[i]).None? && s[i] != ':';
  }

  lemma InAt(s: string, i: nat)
    requires i < |s| && IsAlpha(s[i]) && MatchesAt("in", s, i)
    ensures EvalI(OxidiusLexer, s, i, 10) == NextToken(s, i)
  {
    WordResults();
    NextTokenAtWord(s, i);
    KeywordRuns(s, i);
    EvalIHit(OxidiusLexer, s, i, 10);
  }

  lemma UseAt(s: string, i: nat)
    requires i < |s| && IsAlpha(s[i]) && !MatchesAt("in", s, i) && MatchesAt("use", s, i)
    ensures EvalI(OxidiusLexer, s, i, 10) == NextToken(s, i)
  {
    WordResults();
    NextTokenAtWord(s, i);
    KeywordRuns(s, i);
    EvalISkip(OxidiusLexer, s, i, 10);
    EvalIHit(OxidiusLexer, s, i, 11);
  }

  lemma FromAt(s: string, i: nat)
    requires i < |s| && IsAlpha(s[i]) && !MatchesAt("in", s, i) && !MatchesAt("use", s, i) && MatchesAt("from", s, i)
    ensures EvalI(OxidiusLexer, s, i, 10) == NextToken(s, i)
  {
    WordResults();
    NextTokenAtWord(s, i);
    KeywordRuns(s, i);
    EvalISkip(OxidiusLexer, s, i, 10);
    EvalISkip(OxidiusLexer, s, i, 11);
    EvalIHit(OxidiusLexer, s, i, 12);
  }

  lemma PlainWordAt(s: string, i: nat)
    requires i < |s| && IsAlpha(s[i]) && !MatchesAt("in", s, i) && !MatchesAt("use", s, i) && !MatchesAt("from", s, i)
    ensures EvalI(OxidiusLexer, s, i, 10) == NextToken(s, i)
  {
    WordResults();
    NextTokenAtWord(s, i);
    KeywordRuns(s, i);
    EvalISkip(OxidiusLexer, s, i, 10);
    EvalISkip(OxidiusLexer, s, i, 11);
    EvalISkip(OxidiusLexer, s, i, 12);
    EvalIHit(OxidiusLexer, s, i, 13);
  }

  /** At a colon, `=`, `+` or `,` the recognisers of whitespace and of the
      braces, parentheses and `$` fail. */
  lemma PastBrackets(s: string, i: nat)
    requires i < |s| && (s[i] == ':' || s[i] == '=' || s[i] == '+' || s[i] == ',')
    ensures EvalI(OxidiusLexer, s, i, 0) == EvalI(OxidiusLexer, s, i, 6)
  {
    PastSpace(s, i);
    SymbolRuns(s, i);
    EvalISkip(OxidiusLexer, s, i, 1);
    EvalISkip(OxidiusLexer, s, i, 2);
    EvalISkip(OxidiusLexer, s, i, 3);
    EvalISkip(OxidiusLexer, s, i, 4);
    EvalISkip(OxidiusLexer, s, i, 5);
  }

  /** From the recogniser of `::` on, a colon is `::` when another follows,
      and nothing otherwise. */
  lemma ColonTail(s: string, i: nat)
    requires i < |s| && s[i] == ':'
    ensures EvalI(OxidiusLexer, s, i, 6) ==
      if i + 1 < |s| && s[i + 1] == ':' then Some((Variant(SymDoubleColon, ""), i + 2)) else None
  {
    SymbolRuns(s, i);
    if i + 1 < |s| && s[i + 1] == ':' {
      assert OxidiusLexer[6].result == SymDoubleColon;
      EvalIHit(OxidiusLexer, s, i, 6);
    } else {
      EvalISkip(OxidiusLexer, s, i, 6);
      EvalISkip(OxidiusLexer, s, i, 7);
      EvalISkip(OxidiusLexer, s, i, 8);
      EvalISkip(OxidiusLexer, s, i, 9);
      NoWordAt(s, i);
    }
  }

  /** `NextToken` at a colon. */
  lemma NextTokenAtColon(s: string, i: nat)
    requires i < |s| && s[i] == ':'
    ensures NextToken(s, i) == if i + 1 < |s| && s[i + 1] == ':' then Some((Variant(SymDoubleColon, ""), i + 2)) else None
  {
  }

  /** A colon is `::` when another follows, and nothing otherwise. */
  lemma FirstMatchColon(s: string, i: nat)
    requires i < |s| && s[i] == ':'
    ensures EvalI(OxidiusLexer, s, i, 0) == NextToken(s, i)
  {
    PastBrackets(s, i);
    ColonTail(s, i);
    NextTokenAtColon(s, i);
  }

  /** At a letter the symbols all fail, and the keywords and the identifier
      decide. */
  lemma FirstMatchWord(s: string, i: nat)
    requires i < |s| && IsAlpha(s[i])
    ensures EvalI(OxidiusLexer, s, i, 0) == NextToken(s, i)
  {
    PastSpace(s, i);
    SymbolRuns(s, i);
    EvalISkip(OxidiusLexer, s, i, 1);
    EvalISkip(OxidiusLexer, s, i, 2);
    EvalISkip(OxidiusLexer, s, i, 3);
    EvalISkip(OxidiusLexer, s, i, 4);
    EvalISkip(OxidiusLexer, s, i, 5);
    EvalISkip(OxidiusLexer, s, i, 6);
    EvalISkip(OxidiusLexer, s, i, 7);
    EvalISkip(OxidiusLexer, s, i, 8);
    EvalISkip(OxidiusLexer, s, i, 9);
    WordAt(s, i);
  }

  /** Anywhere else no recogniser applies. */
  lemma FirstMatchNone(s: string, i: nat)
    requires i < |s| ==> !IsSpace(s[i]) && SymbolKind(s[i]).None? && s[i] != ':' && !IsAlpha(s[i])
    ensures EvalI(OxidiusLexer, s, i, 0) == None && NextToken(s, i) == None
  {
    PastSpace(s, i);
    SymbolRuns(s, i);
    KeywordRuns(s, i);
    EvalISkip(OxidiusLexer, s, i, 1);
    EvalISkip(OxidiusLexer, s, i, 2);
    EvalISkip(OxidiusLexer, s, i, 3);
    EvalISkip(OxidiusLexer, s, i, 4);
    EvalISkip(OxidiusLexer, s, i, 5);
    EvalISkip(OxidiusLexer, s, i, 6);
    EvalISkip(OxidiusLexer, s, i, 7);
    EvalISkip(OxidiusLexer, s, i, 8);
    EvalISkip(OxidiusLexer, s, i, 9);
    NoWordAt(s, i);
  }

  /** The ordered group `oxidius_lexer` recognises at every position what
      the character-by-character description `NextToken` says. */
  lemma OxidiusFirstMatch(s: string, i: nat)
    ensures EvalI(OxidiusLexer, s, i, 0) == NextToken(s, i)
  {
    if i < |s| && IsSpace(s[i]) {
      FirstMatchSpace(s, i);
    } else if i < |s| && SymbolKind(s[i]).Some? {
      FirstMatchSymbol(s, i);
    } else if i < |s| && s[i] == ':' {
      FirstMatchColon(s, i);
    } else if i < |s| && IsAlpha(s[i]) {
      FirstMatchWord(s, i);
    } else {
      FirstMatchNone(s, i);
    }
  }

  // ------------------------------------------------------- lexing whole texts

  /** The characters some recogniser of the group can start with or consume. */
  predicate Lexable(c: char) {
    IsSpace(c) || SymbolKind(c).Some? || c == ':' || IsAlpha(c)
  }

  /** What `NextToken` recognises lies inside the text, is not empty, and is
      made of recognisable characters only. */
  lemma NextTokenSpan(s: string, i: nat)
    ensures NextToken(s, i).Some? ==>
      var j := NextToken(s, i).value.1;
      i < j <= |s| && forall m :: i <= m < j ==> Lexable(s[m])
  {
    if i < |s| {
      MatchesAtChars("in", s, i);
      MatchesAtChars("use", s, i);
      MatchesAtChars("from", s, i);
      if NextToken(s, i).Some? && NextToken(s, i).value.0.tag in {KwdIn, KwdUse, KwdFrom} {
        var j := NextToken(s, i).value.1;
        forall m | i <= m < j ensures IsAlpha(s[m]) {
          if MatchesAt("in", s, i) {
            assert s[i + (m - i)] == "in"[m - i];
          } else if MatchesAt("use", s, i) {
            assert s[i + (m - i)] == "use"[m - i];
          } else {
            assert s[i + (m - i)] == "from"[m - i];
          }
        }
      }
    }
  }

  /** The tokens `NextToken` finds one after another from `i`, and the
      position where it finds none. */
  function Scan(s: string, i: nat): (r: (seq<Token>, nat))
    ensures i <= r.1 && (i <= |s| ==> r.1 <= |s|)
    ensures NextToken(s, r.1).None?
    decreases |s| - i
  {
    match NextToken(s, i)
    case None => ([], i)
    case Some((t, j)) =>
      NextTokenSpan(s, i);
      var rest := Scan(s, j);
      ([t] + rest.0, rest.1)
  }

  /** `lexer_group` over `oxidius_lexer` produces exactly what `Scan` finds. */
  lemma {:induction false} LexFromIsScan(s: string, i: nat)
    ensures Progressive(OxidiusLexer) && LexFrom(OxidiusLexer, s, i) == Scan(s, i)
    decreases |s| - i
  {
    OxidiusLexerProgresses();
    OxidiusFirstMatch(s, i);
    match NextToken(s, i)
    case None =>
    case Some((t, j)) =>
      NextTokenSpan(s, i);
      LexFromIsScan(s, j);
  }

  /** Tokenizing succeeds, with what `eval_i` collects, exactly when the
      collecting stops at the end of the text. */
  lemma TokenizeIsLexFrom(s: string)
    ensures Progressive(OxidiusLexer)
    ensures Tokenize(s) == if LexFrom(OxidiusLexer, s, 0).1 == |s| then Some(LexFrom(OxidiusLexer, s, 0).0) else None
  {
    OxidiusLexerIsValid();
    OxidiusLexerProgresses();
    var _ := LexerGroup(OxidiusLexer, s, 0);
  }

  /** Tokenizing succeeds, with what `Scan` finds, exactly when `Scan` reaches
      the end of the text. */
  lemma TokenizeIsScan(s: string)
    ensures var scanned := Scan(s, 0); Tokenize(s) == if scanned.1 == |s| then Some(scanned.0) else None
  {
    TokenizeIsLexFrom(s);
    LexFromIsScan(s, 0);
  }

  /** `Scan` never passes a character no recogniser accepts. */
  lemma {:induction false} ScanStopsAtForeign(s: string, i: nat, k: nat)
    requires i <= k < |s| && !Lexable(s[k])
    ensures Scan(s, i).1 <= k
    decreases |s| - i
  {
    match NextToken(s, i)
    case None =>
    case Some((t, j)) =>
      NextTokenSpan(s, i);
      if j <= k {
        ScanStopsAtForeign(s, j, k);
      }
  }

  /** A character outside the lexer's alphabet (a digit, `_`, ...) makes
      tokenizing the whole text fail. */
  lemma ForeignCharRejected(s: string, k: nat)
    requires k < |s| && !Lexable(s[k])
    ensures Tokenize(s).None?
  {
    TokenizeIsScan(s);
    ScanStopsAtForeign(s, 0, k);
  }

  /** The lexer's output with the whitespace (null) entries removed, as the
      grammar expects it. */
  function Significant(ts: seq<Token>): (r: seq<Token>)
    ensures forall n :: 0 <= n < |r| ==> r[n].tag != Null
    ensures |r| <= |ts|
  {
    if |ts| == 0 then []
    else if ts[0].tag == Null then Significant(ts[1..])
    else [ts[0]] + Significant(ts[1..])
  }

  /** One token, then the rest: a whitespace entry is dropped, any other kept. */
  lemma SignificantCons(t: Token, rest: seq<Token>)
    ensures Significant([t] + rest) == if t.tag == Null then Significant(rest) else [t] + Significant(rest)
  {
    assert ([t] + rest)[1..] == rest;
  }

  /** A token survives the filter exactly when it was lexed and is not a
      whitespace entry. */
  lemma {:induction false} SignificantKeeps(ts: seq<Token>, t: Token)
    ensures t in Significant(ts) <==> t in ts && t.tag != Null
    decreases |ts|
  {
    if |ts| > 0 {
      assert ts == [ts[0]] + ts[1..];
      SignificantKeeps(ts[1..], t);
    }
  }

  /** Tokens with no whitespace entry among them pass the filter unchanged. */
  lemma {:induction false} SignificantWithoutSpace(ts: seq<Token>)
    requires forall n :: 0 <= n < |ts| ==> ts[n].tag != Null
    ensures Significant(ts) == ts
    decreases |ts|
  {
    if |ts| > 0 {
      SignificantWithoutSpace(ts[1..]);
      assert ts == [ts[0]] + ts[1..];
    }
  }

  /** Filtering distributes over concatenation. */
  lemma {:induction false} SignificantConcat(a: seq<Token>, b: seq<Token>)
    ensures Significant(a + b) == Significant(a) + Significant(b)
    decreases |a|
  {
    if |a| > 0 {
      assert (a + b)[1..] == a[1..] + b;
      SignificantConcat(a[1..], b);
    } else {
      assert a + b == b;
    }
  }
}
