/** The lexing and parsing combinator engine of source/common/nabu.hpp.

    Lexer side: recognisers `(text, cursor) -> optional value`, the literal
    recogniser `raw`, and `lexer_group`, which lexes a whole text with an
    ordered list of recognisers.  Parser side: parsers
    `(tokens, cursor) -> optional value` and the combinators built on them.

    The C++ threads the cursor through an in-out `size_t &i`; here every
    recogniser and parser returns the new cursor.  A parser returns it on
    failure too, because not every combinator restores it. */
module Nabu {
  import opened Wrappers
  import opened Variant

  // ---------------------------------------------------------------- lexer side

  /** The characters of `lit` occur in `s` starting at position `i` (an
      empty literal occurs everywhere). */
  predicate MatchesAt(lit: string, s: string, i: nat) {
    |lit| == 0 || (i + |lit| <= |s| && s[i..i + |lit|] == lit)
  }

  /** `raw_expanded`: compares `lit` character by character with `s` from `i`.
      A read at or past the end of `s` is a mismatch (the C++ reads the
      terminating NUL there, which no literal character equals). */
  method RawExpanded(lit: string, s: string, i: nat) returns (r: Option<string>, i': nat)
    ensures r.Some? <==> MatchesAt(lit, s, i)
    ensures r.Some? ==> r.value == "?" && i' == i + |lit|
    ensures r.None? ==> i' == i
  {
    for n := 0 to |lit|
      invariant n == 0 || (i + n <= |s| && s[i..i + n] == lit[..n])
    {
      if i + n >= |s| || s[i + n] != lit[n] {
        assert !MatchesAt(lit, s, i) by {
          if i + |lit| <= |s| {
            assert s[i..i + |lit|][n] == s[i + n];
          }
        }
        return None, i;
      }
      assert s[i..i + n + 1] == s[i..i + n] + [s[i + n]];
      assert lit[..n + 1] == lit[..n] + [lit[n]];
    }
    assert lit[..|lit|] == lit;
    return Some("?"), i + |lit|;
  }

  /** A recogniser: the type it yields (`result`) and the function that tries
      it at a cursor, giving the payload and the new cursor, or nothing (and
      then the cursor is unchanged). */
  datatype Recognizer<K> = Recognizer(result: K, run: (string, nat) -> Option<(string, nat)>)

  /** `raw<s, T>`: recognises the literal `lit` and yields `T("?")` when `T`
      can be built from a string (`fromText`), `T()` otherwise. */
  function Raw<K>(lit: string, result: K, fromText: bool): Recognizer<K> {
    Recognizer(result, (s: string, i: nat) =>
      if MatchesAt(lit, s, i) then Some((if fromText then "?" else "", i + |lit|)) else None)
  }

  /** `raw` succeeds exactly where its literal occurs, moves the cursor past
      it, and otherwise leaves the cursor alone. */
  lemma RawRun<K>(lit: string, result: K, fromText: bool, s: string, i: nat)
    ensures Raw(lit, result, fromText).result == result
    ensures Raw(lit, result, fromText).run(s, i).Some? <==> MatchesAt(lit, s, i)
    ensures Raw(lit, result, fromText).run(s, i).Some? ==>
      Raw(lit, result, fromText).run(s, i).value == (if fromText then "?" else "", i + |lit|)
  {
  }

  /** `has_duplicates<T, Rest...>`: some type of the list occurs twice. */
  function HasDuplicates<K(==)>(ts: seq<K>): (r: bool)
    ensures r <==> exists a, b :: 0 <= a < b < |ts| && ts[a] == ts[b]
  {
    if |ts| <= 1 then false
    else
      var r := ts[0] in ts[1..] || HasDuplicates(ts[1..]);
      assert r ==> exists a, b :: 0 <= a < b < |ts| && ts[a] == ts[b] by {
        if ts[0] in ts[1..] {
          var b :| 0 <= b < |ts[1..]| && ts[1..][b] == ts[0];
          assert ts[0] == ts[b + 1];
        } else if r {
          var a, b :| 0 <= a < b < |ts[1..]| && ts[1..][a] == ts[1..][b];
          assert ts[a + 1] == ts[b + 1];
        }
      }
      assert (exists a, b :: 0 <= a < b < |ts| && ts[a] == ts[b]) ==> r by {
        if exists a, b :: 0 <= a < b < |ts| && ts[a] == ts[b] {
          var a, b :| 0 <= a < b < |ts| && ts[a] == ts[b];
          if a == 0 {
            assert ts[1..][b - 1] == ts[0];
          } else {
            assert ts[1..][a - 1] == ts[1..][b - 1];
          }
        }
      }
      r
  }

  /** The result types of a group, in declaration order. */
  function ResultTypes<K>(group: seq<Recognizer<K>>): (ts: seq<K>)
    ensures |ts| == |group| && forall k :: 0 <= k < |group| ==> ts[k] == group[k].result
  {
    seq(|group|, k requires 0 <= k < |group| => group[k].result)
  }

  /** `valid_lexer_group`: the recognisers yield pairwise distinct types. */
  predicate ValidLexerGroup<K(==)>(group: seq<Recognizer<K>>) {
    !HasDuplicates(ResultTypes(group))
  }

  /** Every recogniser of the group advances the cursor, and stays inside
      the text, when it succeeds.  Without it `lexer_group` would not stop. */
  ghost predicate Progressive<K>(group: seq<Recognizer<K>>) {
    forall k: nat, s, i: nat :: k < |group| && group[k].run(s, i).Some? ==> i < group[k].run(s, i).value.1 <= |s|
  }

  /** Recogniser `m` is the first one from position `from` on that succeeds at `i`. */
  predicate FirstHit<K>(group: seq<Recognizer<K>>, s: string, i: nat, from: nat, m: nat) {
    from <= m < |group| && group[m].run(s, i).Some? &&
    forall m' :: from <= m' < m ==> group[m'].run(s, i).None?
  }

  /** `lexer_group::eval_i<I>`: tries the recognisers from number `from` on,
      in declaration order, and commits to the first that succeeds; its value
      becomes a variant holding that recogniser's result type. */
  function EvalI<K>(group: seq<Recognizer<K>>, s: string, i: nat, from: nat): (r: Option<(Variant<K, string>, nat)>)
    ensures r.None? <==> forall m :: from <= m < |group| ==> group[m].run(s, i).None?
    ensures r.Some? ==> exists m: nat :: (FirstHit(group, s, i, from, m) &&
      r.value == (Variant(group[m].result, group[m].run(s, i).value.0), group[m].run(s, i).value.1))
    decreases |group| - from
  {
    if from >= |group| then None
    else match group[from].run(s, i)
      case Some((p, j)) =>
        assert FirstHit(group, s, i, from, from);
        Some((Variant(group[from].result, p), j))
      case None =>
        var r := EvalI(group, s, i, from + 1);
        assert r.Some? ==> exists m: nat :: (FirstHit(group, s, i, from, m) &&
          r.value == (Variant(group[m].result, group[m].run(s, i).value.0), group[m].run(s, i).value.1)) by {
          if r.Some? {
            var m: nat :| FirstHit(group, s, i, from + 1, m) &&
              r.value == (Variant(group[m].result, group[m].run(s, i).value.0), group[m].run(s, i).value.1);
            assert FirstHit(group, s, i, from, m);
          }
        }
        r
  }

  /** A recogniser that fails passes the attempt on to the next one. */
  lemma EvalISkip<K>(group: seq<Recognizer<K>>, s: string, i: nat, from: nat)
    requires from < |group| && group[from].run(s, i).None?
    ensures EvalI(group, s, i, from) == EvalI(group, s, i, from + 1)
  {
  }

  /** A recogniser that succeeds ends the attempt with its value. */
  lemma EvalIHit<K>(group: seq<Recognizer<K>>, s: string, i: nat, from: nat)
    requires from < |group| && group[from].run(s, i).Some?
    ensures EvalI(group, s, i, from) ==
      Some((Variant(group[from].result, group[from].run(s, i).value.0), group[from].run(s, i).value.1))
  {
  }

  /** When recogniser `m` is the first to succeed, `eval_i<0>` yields its value. */
  lemma EvalIAt<K>(group: seq<Recognizer<K>>, s: string, i: nat, m: nat)
    requires FirstHit(group, s, i, 0, m)
    ensures EvalI(group, s, i, 0) == Some((Variant(group[m].result, group[m].run(s, i).value.0), group[m].run(s, i).value.1))
  {
    var r := EvalI(group, s, i, 0);
    var m': nat :| FirstHit(group, s, i, 0, m') &&
      r.value == (Variant(group[m'].result, group[m'].run(s, i).value.0), group[m'].run(s, i).value.1);
    assert m' == m;
  }

  /** The repeated attempts of `lexer_group::operator()`: the variants
      produced from `i` on and the cursor at which no recogniser matches. */
  function LexFrom<K>(group: seq<Recognizer<K>>, s: string, i: nat): (r: (seq<Variant<K, string>>, nat))
    requires Progressive(group)
    ensures i <= r.1 && (i <= |s| ==> r.1 <= |s|)
    ensures EvalI(group, s, r.1, 0).None?
    decreases |s| - i
  {
    match EvalI(group, s, i, 0)
    case None => ([], i)
    case Some((t, j)) =>
      var rest := LexFrom(group, s, j);
      ([t] + rest.0, rest.1)
  }

  /** One attempt of the loop: a variant is collected and the attempts
      resume after it, or nothing is collected and the cursor stays. */
  lemma LexFromStep<K>(group: seq<Recognizer<K>>, s: string, i: nat, done: seq<Variant<K, string>>)
    requires Progressive(group)
    ensures EvalI(group, s, i, 0).None? ==> LexFrom(group, s, i) == ([], i) && done + LexFrom(group, s, i).0 == done
    ensures EvalI(group, s, i, 0).Some? ==>
      var (t, j) := EvalI(group, s, i, 0).value;
      var rest := LexFrom(group, s, j);
      i < j <= |s| && done + LexFrom(group, s, i).0 == (done + [t]) + rest.0 && LexFrom(group, s, i).1 == rest.1
  {
    if EvalI(group, s, i, 0).Some? {
      var rest := LexFrom(group, s, EvalI(group, s, i, 0).value.1);
      assert done + ([EvalI(group, s, i, 0).value.0] + rest.0) == (done + [EvalI(group, s, i, 0).value.0]) + rest.0;
    } else {
      assert done + [] == done;
    }
  }

  /** `lexer_group::operator()`: lexing is all-or-nothing.  It succeeds with
      every variant produced, whitespace results included, exactly when the
      attempts stop at the end of the text; otherwise the cursor goes back to
      `i` and nothing is returned. */
  function LexerGroup<K(==)>(group: seq<Recognizer<K>>, s: string, i: nat): (r: (Option<seq<Variant<K, string>>>, nat))
    requires ValidLexerGroup(group) && Progressive(group)
    ensures r.0.Some? <==> LexFrom(group, s, i).1 == |s|
    ensures r.0.Some? ==> r.0.value == LexFrom(group, s, i).0 && r.1 == |s|
    ensures r.0.None? ==> r.1 == i
  {
    var (tokens, j) := LexFrom(group, s, i);
    if j == |s| then (Some(tokens), j) else (None, i)
  }

  /** `lexer_group` in terms of the attempts it makes from `i`. */
  lemma LexerGroupOutcome<K>(group: seq<Recognizer<K>>, s: string, i: nat)
    requires ValidLexerGroup(group) && Progressive(group)
    ensures var lexed := LexFrom(group, s, i);
      LexerGroup(group, s, i) == if lexed.1 == |s| then (Some(lexed.0), lexed.1) else (None, i)
  {
  }

  /** The loop of `lexer_group::operator()` as written: keep calling
      `eval_i<0>` while it succeeds, then check that the text is used up. */
  method RunLexerGroup<K(==)>(group: seq<Recognizer<K>>, s: string, i0: nat)
    returns (result: Option<seq<Variant<K, string>>>, i: nat)
    requires ValidLexerGroup(group) && Progressive(group)
    ensures (result, i) == LexerGroup(group, s, i0)
  {
    ghost var whole := LexFrom(group, s, i0);
    i := i0;
    var tokens: seq<Variant<K, string>> := [];
    assert tokens + whole.0 == whole.0;
    while true
      invariant i0 <= i
      invariant whole == (tokens + LexFrom(group, s, i).0, LexFrom(group, s, i).1)
      decreases |s| - i
    {
      var fv := EvalI(group, s, i, 0);
      LexFromStep(group, s, i, tokens);
      if fv.None? {
        break;
      }
      tokens := tokens + [fv.value.0];
      i := fv.value.1;
    }
    LexerGroupOutcome(group, s, i0);
    if i == |s| {
      return Some(tokens), i;
    }
    return None, i0;
  }



  // --------------------------------------------------------------- parser side

  /** What a parser returns: the value, if it succeeded, and where it left the cursor. */
  datatype Step<T> = Step(value: Option<T>, cursor: nat)

  /** A parser over a sequence of variants (tokens) whose alternatives are named by `K`. */
  type Parser<!K, T> = (seq<Variant<K, string>>, nat) -> Step<T>

  function Max(a: nat, b: nat): nat {
    if a < b then b else a
  }

  /** A parser entered at `i` on `n` tokens left the cursor at `c`: never
      behind the entry, never past the end (nor past the entry, when that is
      already beyond the end). */
  predicate Within(n: nat, i: nat, c: nat) {
    i <= c <= Max(i, n)
  }

  /** Every call of `p` keeps the cursor within its bounds. */
  ghost predicate Sound<K(!new), T>(p: Parser<K, T>) {
    forall toks: seq<Variant<K, string>>, i: nat :: Within(|toks|, i, p(toks, i).cursor)
  }

  /** Every failing call of `p` leaves the cursor at its entry. */
  ghost predicate Resetting<K(!new), T>(p: Parser<K, T>) {
    forall toks: seq<Variant<K, string>>, i: nat :: p(toks, i).value.None? ==> p(toks, i).cursor == i
  }

  /** Every successful call of `p` consumes at least one token. */
  ghost predicate Consuming<K(!new), T>(p: Parser<K, T>) {
    forall toks: seq<Variant<K, string>>, i: nat :: p(toks, i).value.Some? ==> i < p(toks, i).cursor
  }

  /** `parse_token<T>`: succeeds exactly when the token at `i` holds kind `k`,
      yields its payload and advances by one; otherwise the cursor stays.  The
      C++ reads `tokens[i]` unchecked; a cursor at or past the end fails here. */
  function ParseToken<K(==)>(k: K, toks: seq<Variant<K, string>>, i: nat): (r: Step<string>)
    ensures r.value.Some? ==> i < |toks| && toks[i] == Variant(k, r.value.value) && r.cursor == i + 1
    ensures r.value.None? ==> r.cursor == i && (i < |toks| ==> toks[i].tag != k)
  {
    if i < |toks| && Is(toks[i], k) then Step(Some(As(toks[i], k)), i + 1) else Step(None, i)
  }

  /** `singlet<K>`: `parse_token<K>` as a parser value. */
  function Singlet<K(==)>(k: K): Parser<K, string> {
    (toks: seq<Variant<K, string>>, i: nat) => ParseToken(k, toks, i)
  }

  /** `convert<p, T, idx...>`: builds the target node from the value of `p`
      (the whole value, or the selected fields of a chain's tuple, as `f`
      chooses); the cursor is left where `p` left it. */
  function Convert<K, A, B>(p: Parser<K, A>, f: A -> B): Parser<K, B> {
    (toks: seq<Variant<K, string>>, i: nat) =>
      var r := p(toks, i);
      Step(if r.value.Some? then Some(f(r.value.value)) else None, r.cursor)
  }

  /** `parser_chain::eval_i`: runs the head parser, then the rest from where
      it stopped.  On failure the cursor stays wherever the failing part left
      it: `operator()` assigns `c = i` rather than `i = c`, so nothing rewinds. */
  function Chain2<K, A, B>(p1: Parser<K, A>, p2: Parser<K, B>): Parser<K, (A, B)> {
    (toks: seq<Variant<K, string>>, i: nat) =>
      var r1 := p1(toks, i);
      if r1.value.None? then Step(None, r1.cursor)
      else
        var r2 := p2(toks, r1.cursor);
        if r2.value.None? then Step(None, r2.cursor)
        else Step(Some((r1.value.value, r2.value.value)), r2.cursor)
  }

  /** A chain of three, as `eval_i` recurses: the head, then a chain of the rest. */
  function Chain3<K, A, B, C>(p1: Parser<K, A>, p2: Parser<K, B>, p3: Parser<K, C>): Parser<K, (A, B, C)> {
    Convert(Chain2(p1, Chain2(p2, p3)), (t: (A, (B, C))) => (t.0, t.1.0, t.1.1))
  }

  /** A chain of four. */
  function Chain4<K, A, B, C, D>(p1: Parser<K, A>, p2: Parser<K, B>, p3: Parser<K, C>, p4: Parser<K, D>): Parser<K, (A, B, C, D)> {
    Convert(Chain2(p1, Chain3(p2, p3, p4)), (t: (A, (B, C, D))) => (t.0, t.1.0, t.1.1, t.1.2))
  }

  /** `options<p1, p2>` (not part of nabu.hpp; defined here as the grammar
      uses it): tries the alternatives in order, each from the entry cursor,
      keeps the first success, and fails with the cursor at the entry. */
  function Options2<K, T>(p1: Parser<K, T>, p2: Parser<K, T>): Parser<K, T> {
    (toks: seq<Variant<K, string>>, i: nat) =>
      var r1 := p1(toks, i);
      if r1.value.Some? then r1
      else
        var r2 := p2(toks, i);
        if r2.value.Some? then r2 else Step(None, i)
  }

  function Options3<K, T>(p1: Parser<K, T>, p2: Parser<K, T>, p3: Parser<K, T>): Parser<K, T> {
    Options2(p1, Options2(p2, p3))
  }

  function Options4<K, T>(p1: Parser<K, T>, p2: Parser<K, T>, p3: Parser<K, T>, p4: Parser<K, T>): Parser<K, T> {
    Options2(p1, Options3(p2, p3, p4))
  }

  /** `parser_loop<Token, F, EmptyOk, D>::operator()` from cursor `i`, with
      `acc` collected so far and `entry` the cursor the loop started at. */
  function LoopFrom<K(!new), T, D>(item: Parser<K, T>, delim: Parser<K, D>, emptyOk: bool,
                             toks: seq<Variant<K, string>>, entry: nat, i: nat, acc: seq<T>): Step<seq<T>>
    requires Sound(item) && Sound(delim) && Consuming(delim)
    decreases |toks| - i
  {
    var f := item(toks, i);
    if f.value.None? then
      if |acc| == 0 && emptyOk then Step(Some(acc), f.cursor) else Step(None, entry)
    else
      var d := delim(toks, f.cursor);
      if d.value.None? then Step(Some(acc + [f.value.value]), d.cursor)
      else LoopFrom(item, delim, emptyOk, toks, entry, d.cursor, acc + [f.value.value])
  }

  /** `loop<Token, EmptyOk>(f, d)`: items separated by delimiters. */
  function Loop<K(!new), T, D>(item: Parser<K, T>, delim: Parser<K, D>, emptyOk: bool): Parser<K, seq<T>>
    requires Sound(item) && Sound(delim) && Consuming(delim)
  {
    (toks: seq<Variant<K, string>>, i: nat) => LoopFrom(item, delim, emptyOk, toks, i, i, [])
  }

  /** The loop of `parser_loop::operator()` as written. */
  method ParserLoop<K(!new), T, D>(item: Parser<K, T>, delim: Parser<K, D>, emptyOk: bool,
                             toks: seq<Variant<K, string>>, i0: nat) returns (r: Option<seq<T>>, i: nat)
    requires Sound(item) && Sound(delim) && Consuming(delim)
    ensures Step(r, i) == Loop(item, delim, emptyOk)(toks, i0)
  {
    var c := i0;
    i := i0;
    var result: seq<T> := [];
    while true
      invariant LoopFrom(item, delim, emptyOk, toks, c, i, result) == LoopFrom(item, delim, emptyOk, toks, c, c, [])
      decreases |toks| - i
    {
      var fv := item(toks, i);
      if fv.value.None? {
        if |result| == 0 && emptyOk {
          i := fv.cursor;
          break;
        }
        i := c;
        return None, i;
      }
      result := result + [fv.value.value];
      var dv := delim(toks, fv.cursor);
      i := dv.cursor;
      if dv.value.None? {
        break;
      }
    }
    r := Some(result);
  }

  // ------------------------------------------------- properties of the parsers

  /** `singlet<K>` keeps the cursor in bounds and consumes a token when it succeeds. */
  lemma SingletSound<K(!new)>(k: K)
    ensures Sound(Singlet(k)) && Consuming(Singlet(k))
  {
  }

  /** `convert` keeps the bounds, the consumption and the reset on failure
      of the parser it wraps. */
  lemma ConvertSound<K(!new), A, B>(p: Parser<K, A>, f: A -> B)
    requires Sound(p)
    ensures Sound(Convert(p, f))
    ensures Consuming(p) ==> Consuming(Convert(p, f))
    ensures Resetting(p) ==> Resetting(Convert(p, f))
  {
  }

  /** A chain keeps the cursor in bounds, and consumes when its head does. */
  lemma Chain2Sound<K(!new), A, B>(p1: Parser<K, A>, p2: Parser<K, B>)
    requires Sound(p1) && Sound(p2)
    ensures Sound(Chain2(p1, p2))
    ensures Consuming(p1) ==> Consuming(Chain2(p1, p2))
  {
    forall toks: seq<Variant<K, string>>, i: nat ensures Within(|toks|, i, Chain2(p1, p2)(toks, i).cursor) {
      var r1 := p1(toks, i);
      assert Within(|toks|, i, r1.cursor);
      if r1.value.Some? {
        assert Within(|toks|, r1.cursor, p2(toks, r1.cursor).cursor);
      }
    }
  }

  lemma Chain3Sound<K(!new), A, B, C>(p1: Parser<K, A>, p2: Parser<K, B>, p3: Parser<K, C>)
    requires Sound(p1) && Sound(p2) && Sound(p3)
    ensures Sound(Chain3(p1, p2, p3))
    ensures Consuming(p1) ==> Consuming(Chain3(p1, p2, p3))
  {
    Chain2Sound(p2, p3);
    Chain2Sound(p1, Chain2(p2, p3));
    ConvertSound(Chain2(p1, Chain2(p2, p3)), (t: (A, (B, C))) => (t.0, t.1.0, t.1.1));
  }

  lemma Chain4Sound<K(!new), A, B, C, D>(p1: Parser<K, A>, p2: Parser<K, B>, p3: Parser<K, C>, p4: Parser<K, D>)
    requires Sound(p1) && Sound(p2) && Sound(p3) && Sound(p4)
    ensures Sound(Chain4(p1, p2, p3, p4))
    ensures Consuming(p1) ==> Consuming(Chain4(p1, p2, p3, p4))
  {
    Chain3Sound(p2, p3, p4);
    Chain2Sound(p1, Chain3(p2, p3, p4));
    ConvertSound(Chain2(p1, Chain3(p2, p3, p4)), (t: (A, (B, C, D))) => (t.0, t.1.0, t.1.1, t.1.2));
  }

  /** A chain succeeds exactly when its parts succeed one after another, each
      from where the previous one stopped, and yields their values in order. */
  lemma Chain2Succeeds<K, A, B>(p1: Parser<K, A>, p2: Parser<K, B>, toks: seq<Variant<K, string>>, i: nat)
    ensures var r := Chain2(p1, p2)(toks, i);
      r.value.Some? <==> p1(toks, i).value.Some? && p2(toks, p1(toks, i).cursor).value.Some?
    ensures var r := Chain2(p1, p2)(toks, i);
      r.value.Some? ==> (r.value.value == (p1(toks, i).value.value, p2(toks, p1(toks, i).cursor).value.value) &&
        r.cursor == p2(toks, p1(toks, i).cursor).cursor)
  {
  }

  /** A chain headed by a single token. */
  lemma Chain2TokenHead<K, B>(k: K, p: Parser<K, B>, toks: seq<Variant<K, string>>, i: nat)
    ensures Chain2(Singlet(k), p)(toks, i) ==
      if i < |toks| && toks[i].tag == k then
        var r := p(toks, i + 1);
        if r.value.None? then Step(None, r.cursor) else Step(Some((toks[i].payload, r.value.value)), r.cursor)
      else Step(None, i)
  {
  }

  /** A failing chain does not rewind: when the head has consumed and a later
      part fails, the cursor stays past everything the head consumed. */
  lemma ChainDoesNotRewind<K(!new), A, B>(p1: Parser<K, A>, p2: Parser<K, B>, toks: seq<Variant<K, string>>, i: nat)
    requires Sound(p2)
    requires p1(toks, i).value.Some? && p2(toks, p1(toks, i).cursor).value.None?
    ensures Chain2(p1, p2)(toks, i).value.None?
    ensures Chain2(p1, p2)(toks, i).cursor == p2(toks, p1(toks, i).cursor).cursor >= p1(toks, i).cursor
  {
    assert Within(|toks|, p1(toks, i).cursor, p2(toks, p1(toks, i).cursor).cursor);
  }

  /** `options` yields the first alternative that succeeds from the entry
      cursor; when none does, the cursor is back at the entry. */
  lemma Options2FirstSuccess<K, T>(p1: Parser<K, T>, p2: Parser<K, T>, toks: seq<Variant<K, string>>, i: nat)
    ensures var r := Options2(p1, p2)(toks, i);
      (p1(toks, i).value.Some? ==> r == p1(toks, i)) &&
      (p1(toks, i).value.None? && p2(toks, i).value.Some? ==> r == p2(toks, i)) &&
      (r.value.None? <==> p1(toks, i).value.None? && p2(toks, i).value.None?) &&
      (r.value.None? ==> r.cursor == i)
  {
  }

  /** `options` keeps the cursor in bounds, and consumes when every alternative does. */
  lemma Options2Sound<K(!new), T>(p1: Parser<K, T>, p2: Parser<K, T>)
    requires Sound(p1) && Sound(p2)
    ensures Sound(Options2(p1, p2)) && Resetting(Options2(p1, p2))
    ensures Consuming(p1) && Consuming(p2) ==> Consuming(Options2(p1, p2))
  {
  }

  lemma Options3Sound<K(!new), T>(p1: Parser<K, T>, p2: Parser<K, T>, p3: Parser<K, T>)
    requires Sound(p1) && Sound(p2) && Sound(p3)
    ensures Sound(Options3(p1, p2, p3)) && Resetting(Options3(p1, p2, p3))
    ensures Consuming(p1) && Consuming(p2) && Consuming(p3) ==> Consuming(Options3(p1, p2, p3))
  {
    Options2Sound(p2, p3);
    Options2Sound(p1, Options2(p2, p3));
  }

  lemma Options4Sound<K(!new), T>(p1: Parser<K, T>, p2: Parser<K, T>, p3: Parser<K, T>, p4: Parser<K, T>)
    requires Sound(p1) && Sound(p2) && Sound(p3) && Sound(p4)
    ensures Sound(Options4(p1, p2, p3, p4)) && Resetting(Options4(p1, p2, p3, p4))
    ensures Consuming(p1) && Consuming(p2) && Consuming(p3) && Consuming(p4) ==> Consuming(Options4(p1, p2, p3, p4))
  {
    Options3Sound(p2, p3, p4);
    Options2Sound(p1, Options3(p2, p3, p4));
  }

  /** A failing loop puts the cursor back where the loop started. */
  lemma {:induction false} LoopFailureRestores<K(!new), T, D>(item: Parser<K, T>, delim: Parser<K, D>, emptyOk: bool,
                                         toks: seq<Variant<K, string>>, entry: nat, i: nat, acc: seq<T>)
    requires Sound(item) && Sound(delim) && Consuming(delim)
    ensures var r := LoopFrom(item, delim, emptyOk, toks, entry, i, acc);
      r.value.None? ==> r.cursor == entry
    decreases |toks| - i
  {
    var f := item(toks, i);
    if f.value.Some? {
      var d := delim(toks, f.cursor);
      if d.value.Some? {
        assert Within(|toks|, i, f.cursor) && Within(|toks|, f.cursor, d.cursor);
        LoopFailureRestores(item, delim, emptyOk, toks, entry, d.cursor, acc + [f.value.value]);
      }
    }
  }

  /** From a cursor no further than the end (or the entry), the loop leaves
      the cursor within the bounds set by its entry. */
  lemma {:induction false} LoopFromWithin<K(!new), T, D>(item: Parser<K, T>, delim: Parser<K, D>, emptyOk: bool,
                                     toks: seq<Variant<K, string>>, entry: nat, i: nat, acc: seq<T>)
    requires Sound(item) && Sound(delim) && Consuming(delim)
    requires entry <= i <= Max(entry, |toks|)
    ensures Within(|toks|, entry, LoopFrom(item, delim, emptyOk, toks, entry, i, acc).cursor)
    decreases |toks| - i
  {
    var f := item(toks, i);
    assert Within(|toks|, i, f.cursor);
    if f.value.Some? {
      var d := delim(toks, f.cursor);
      assert Within(|toks|, f.cursor, d.cursor);
      if d.value.Some? {
        LoopFromWithin(item, delim, emptyOk, toks, entry, d.cursor, acc + [f.value.value]);
      }
    }
  }

  /** `loop` keeps the cursor in bounds. */
  lemma LoopSound<K(!new), T, D>(item: Parser<K, T>, delim: Parser<K, D>, emptyOk: bool)
    requires Sound(item) && Sound(delim) && Consuming(delim)
    ensures Sound(Loop(item, delim, emptyOk))
  {
    forall toks: seq<Variant<K, string>>, i: nat ensures Within(|toks|, i, Loop(item, delim, emptyOk)(toks, i).cursor) {
      LoopFromWithin(item, delim, emptyOk, toks, i, i, []);
    }
  }

  /** What a successful loop returns extends what it had collected, by at
      least one item unless no item was found, which only an `EmptyOk` loop
      accepts. */
  lemma {:induction false} LoopFromExtends<K(!new), T, D>(item: Parser<K, T>, delim: Parser<K, D>, emptyOk: bool,
                                      toks: seq<Variant<K, string>>, entry: nat, i: nat, acc: seq<T>)
    requires Sound(item) && Sound(delim) && Consuming(delim)
    ensures var r := LoopFrom(item, delim, emptyOk, toks, entry, i, acc);
      r.value.Some? ==> (acc <= r.value.value &&
        (|r.value.value| > |acc| || (|acc| == 0 && emptyOk && r.value.value == [])))
    decreases |toks| - i
  {
    var f := item(toks, i);
    if f.value.Some? {
      var d := delim(toks, f.cursor);
      if d.value.Some? {
        assert Within(|toks|, i, f.cursor);
        LoopFromExtends(item, delim, emptyOk, toks, entry, d.cursor, acc + [f.value.value]);
      }
    }
  }

  /** A loop returns an empty list only when it is `EmptyOk`. */
  lemma LoopEmptyOnlyIfAllowed<K(!new), T, D>(item: Parser<K, T>, delim: Parser<K, D>, emptyOk: bool,
                                          toks: seq<Variant<K, string>>, i: nat)
    requires Sound(item) && Sound(delim) && Consuming(delim)
    ensures var r := Loop(item, delim, emptyOk)(toks, i);
      r.value.Some? && r.value.value == [] ==> emptyOk
  {
    LoopFromExtends(item, delim, emptyOk, toks, i, i, []);
  }

  /** With no item at the entry, an `EmptyOk` loop succeeds with nothing and
      leaves the cursor where the item left it; any other loop fails at the entry. */
  lemma LoopZeroItems<K(!new), T, D>(item: Parser<K, T>, delim: Parser<K, D>, emptyOk: bool,
                                 toks: seq<Variant<K, string>>, i: nat)
    requires Sound(item) && Sound(delim) && Consuming(delim)
    requires item(toks, i).value.None?
    ensures Loop(item, delim, emptyOk)(toks, i) ==
      if emptyOk then Step(Some([]), item(toks, i).cursor) else Step(None, i)
  {
  }

  /** The loop ends, successfully, at the first item not followed by a
      delimiter, and the cursor stays where the failed delimiter left it. */
  lemma LoopEndsWithoutDelimiter<K(!new), T, D>(item: Parser<K, T>, delim: Parser<K, D>, emptyOk: bool,
                                            toks: seq<Variant<K, string>>, entry: nat, i: nat, acc: seq<T>)
    requires Sound(item) && Sound(delim) && Consuming(delim)
    requires item(toks, i).value.Some? && delim(toks, item(toks, i).cursor).value.None?
    ensures LoopFrom(item, delim, emptyOk, toks, entry, i, acc) ==
      Step(Some(acc + [item(toks, i).value.value]), delim(toks, item(toks, i).cursor).cursor)
  {
  }

  /** An item followed by a delimiter is collected, and the loop goes on
      after the delimiter. */
  lemma LoopContinuesAfterDelimiter<K(!new), T, D>(item: Parser<K, T>, delim: Parser<K, D>, emptyOk: bool,
                                               toks: seq<Variant<K, string>>, entry: nat, i: nat, acc: seq<T>)
    requires Sound(item) && Sound(delim) && Consuming(delim)
    requires item(toks, i).value.Some? && delim(toks, item(toks, i).cursor).value.Some?
    ensures LoopFrom(item, delim, emptyOk, toks, entry, i, acc) ==
      LoopFrom(item, delim, emptyOk, toks, entry, delim(toks, item(toks, i).cursor).cursor, acc + [item(toks, i).value.value])
  {
  }

  /** A delimiter with no item after it makes the whole loop fail and puts
      the cursor back at the entry: a trailing delimiter is rejected. */
  lemma LoopRejectsTrailingDelimiter<K(!new), T, D>(item: Parser<K, T>, delim: Parser<K, D>, emptyOk: bool,
                                                toks: seq<Variant<K, string>>, entry: nat, i: nat, acc: seq<T>)
    requires Sound(item) && Sound(delim) && Consuming(delim)
    requires item(toks, i).value.Some?
    requires delim(toks, item(toks, i).cursor).value.Some?
    requires item(toks, delim(toks, item(toks, i).cursor).cursor).value.None?
    ensures LoopFrom(item, delim, emptyOk, toks, entry, i, acc) == Step(None, entry)
  {
    var f := item(toks, i);
    var d := delim(toks, f.cursor);
    assert LoopFrom(item, delim, emptyOk, toks, entry, i, acc) ==
      LoopFrom(item, delim, emptyOk, toks, entry, d.cursor, acc + [f.value.value]);
  }
}
