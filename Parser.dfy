/**
 * The token buffer of the parser in sc/Program.cs: the constructor drains a
 * lexer into a list, keeping every token whose kind is not `BadToken`, and
 * `Peek`/`Current` give bounded lookahead over the resulting array.
 */
module Parsing {
  import opened Syntax
  import opened Lexing

  /**
   * The tokens of `ts` in order, without the bad ones. The source's filter
   * tests `BadToken` twice, so white-space tokens pass it.
   */
  function WithoutBadTokens(ts: seq<SyntaxToken>): (r: seq<SyntaxToken>)
    ensures |r| <= |ts|
    ensures forall i :: 0 <= i < |r| ==> r[i].kind != BadToken
    ensures |ts| > 0 && ts[|ts| - 1].kind != BadToken ==> |r| > 0 && r[|r| - 1] == ts[|ts| - 1]
  {
    if ts == [] then []
    else if ts[0].kind != BadToken && ts[0].kind != BadToken then [ts[0]] + WithoutBadTokens(ts[1..])
    else WithoutBadTokens(ts[1..])
  }

  /** A token is kept exactly when it occurs in the input and is not bad. */
  lemma {:induction false} WithoutBadTokensKeeps(ts: seq<SyntaxToken>, t: SyntaxToken)
    ensures t in WithoutBadTokens(ts) <==> t in ts && t.kind != BadToken
  {
    if ts != [] {
      WithoutBadTokensKeeps(ts[1..], t);
      assert ts == [ts[0]] + ts[1..];
    }
  }

  lemma {:induction false} WithoutBadTokensAppend(a: seq<SyntaxToken>, b: seq<SyntaxToken>)
    ensures WithoutBadTokens(a + b) == WithoutBadTokens(a) + WithoutBadTokens(b)
  {
    if a == [] {
      assert a + b == b;
    } else {
      assert (a + b)[1..] == a[1..] + b;
      WithoutBadTokensAppend(a[1..], b);
    }
  }

  /** The buffer holds no bad token and ends with its only end-of-file token. */
  ghost predicate WellFormedBuffer(b: seq<SyntaxToken>) {
    && |b| > 0
    && b[|b| - 1].kind == EndOfFileToken
    && (forall i :: 0 <= i < |b| - 1 ==> b[i].kind != EndOfFileToken)
    && (forall i :: 0 <= i < |b| ==> b[i].kind != BadToken)
  }

  /**
   * The parser's buffer for an input: what a fresh lexer returns, bad tokens
   * removed. It is well formed, its end-of-file token is the lexer's (at
   * the end of the input), and every token other than a bad one, white
   * space included, is kept.
   */
  function Buffer(text: string): (b: seq<SyntaxToken>)
    ensures WellFormedBuffer(b)
    ensures b[|b| - 1] == SyntaxToken(EndOfFileToken, |text|, [Sentinel], Wrappers.None)
  {
    var ts := Tokenize(text, 0);
    TokenizeEnd(text, 0);
    WithoutBadTokensShape(ts);
    WithoutBadTokens(ts)
  }

  /** Filtering keeps a single trailing end-of-file token single and trailing. */
  lemma {:induction false} WithoutBadTokensShape(ts: seq<SyntaxToken>)
    requires |ts| > 0 && ts[|ts| - 1].kind == EndOfFileToken
    requires forall i :: 0 <= i < |ts| - 1 ==> ts[i].kind != EndOfFileToken
    ensures WellFormedBuffer(WithoutBadTokens(ts))
    ensures WithoutBadTokens(ts)[|WithoutBadTokens(ts)| - 1] == ts[|ts| - 1]
  {
    var r := WithoutBadTokens(ts);
    if |ts| > 1 {
      var tail := ts[1..];
      WithoutBadTokensShape(tail);
      var rt := WithoutBadTokens(tail);
      if ts[0].kind != BadToken {
        assert r == [ts[0]] + rt;
        assert forall i :: 1 <= i < |r| ==> r[i] == rt[i - 1];
      } else {
        assert r == rt;
      }
    } else {
      assert r == [ts[0]] + WithoutBadTokens([]);
    }
  }

  /** The parser's token buffer and its (never moved) cursor. */
  class Parser {
    const tokens: array<SyntaxToken>
    var position: int
    ghost const source: string

    ghost predicate Valid()
      reads this, tokens
    {
      && position == 0
      && tokens[..] == Buffer(source)
    }

    /** Drains a lexer over `text` and keeps the buffered tokens as an array. */
    constructor (text: string)
      ensures source == text && Valid()
      ensures fresh(tokens)
    {
      var list := Drain(text);
      tokens := new SyntaxToken[|list|](i requires 0 <= i < |list| => list[i]);
      position := 0;
      source := text;
      new;
      assert tokens[..] == list;
    }

    /**
     * The constructor's do-while loop: pulls tokens from a fresh lexer
     * until end of file, collecting every token the filter lets through.
     */
    static method Drain(text: string) returns (list: seq<SyntaxToken>)
      ensures list == Buffer(text)
    {
      list := [];
      ghost var whole := Buffer(text);
      var lexer := new Lexer(text);
      var token := lexer.NextToken();
      if token.kind != BadToken && token.kind != BadToken {
        list := list + [token];
      }
      DrainStep(text, [], 0, whole, token, lexer.position, list);
      while token.kind != EndOfFileToken
        invariant lexer.text == text && lexer.position <= |text|
        invariant token.kind != EndOfFileToken ==>
          list + WithoutBadTokens(Tokenize(text, lexer.position)) == whole
        invariant token.kind == EndOfFileToken ==> list == whole
        decreases |text| - lexer.position + (if token.kind == EndOfFileToken then 0 else 1)
      {
        ghost var before, previous := lexer.position, list;
        token := lexer.NextToken();
        if token.kind != BadToken && token.kind != BadToken {
          list := list + [token];
        }
        DrainStep(text, previous, before, whole, token, lexer.position, list);
      }
    }

    /**
     * The token `offset` places past the cursor, or the last token (end of
     * file) when that runs off the buffer.
     */
    function Peek(offset: int): (t: SyntaxToken)
      reads this, tokens
      requires Valid()
      requires 0 <= position + offset
      ensures position + offset < tokens.Length ==> t == tokens[position + offset]
      ensures position + offset >= tokens.Length ==> t == tokens[tokens.Length - 1]
      ensures t.kind == EndOfFileToken <==> position + offset >= tokens.Length - 1
      ensures t.kind != BadToken
    {
      var index := position + offset;
      if index >= tokens.Length then tokens[tokens.Length - 1] else tokens[index]
    }

    /** The token under the cursor: the first buffered token. */
    function Current(): (t: SyntaxToken)
      reads this, tokens
      requires Valid()
      ensures t == tokens[0]
      ensures t.kind == EndOfFileToken <==> tokens.Length == 1
    {
      Peek(0)
    }
  }

  /** Filtering a single token keeps it exactly when it is not bad. */
  lemma WithoutBadTokensSingle(t: SyntaxToken)
    ensures WithoutBadTokens([t]) == if t.kind != BadToken then [t] else []
  {
    assert WithoutBadTokens([t]) == (if t.kind != BadToken then [t] else []) + WithoutBadTokens([]);
  }

  /**
   * Filtering the scan from `pos` splits at the token at `pos`, behind any
   * tokens already collected.
   */
  lemma WithoutBadTokensScan(text: string, pos: nat, list: seq<SyntaxToken>)
    requires pos < |text|
    ensures list + WithoutBadTokens(Tokenize(text, pos))
            == list + WithoutBadTokens([Scan(text, pos).token]) + WithoutBadTokens(Tokenize(text, Scan(text, pos).next))
  {
    var step := Scan(text, pos);
    assert Tokenize(text, pos) == [step.token] + Tokenize(text, step.next);
    WithoutBadTokensAppend([step.token], Tokenize(text, step.next));
    var kept, rest := WithoutBadTokens([step.token]), WithoutBadTokens(Tokenize(text, step.next));
    assert list + (kept + rest) == list + kept + rest;
  }

  /**
   * One more call of the lexer while draining: if the tokens collected so
   * far and the filtered rest of the scan from `pos` make up `whole`, then
   * so do they once the token at `pos` has gone through the filter.
   */
  lemma DrainStep(text: string, list: seq<SyntaxToken>, pos: nat, whole: seq<SyntaxToken>,
                  token: SyntaxToken, next: nat, collected: seq<SyntaxToken>)
    requires pos <= |text|
    requires list + WithoutBadTokens(Tokenize(text, pos)) == whole
    requires Scan(text, pos) == Step(token, next)
    requires collected == if token.kind != BadToken then list + [token] else list
    ensures token.kind != EndOfFileToken ==> collected + WithoutBadTokens(Tokenize(text, next)) == whole
    ensures token.kind == EndOfFileToken ==> collected == whole
  {
    WithoutBadTokensSingle(token);
    if pos < |text| {
      WithoutBadTokensScan(text, pos, list);
    }
  }
}
