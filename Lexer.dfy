/**
 * The lexer of sc/Program.cs. `Scan` is the meaning of one `NextToken()`
 * call from a given cursor, `Tokenize` the whole stream a fresh lexer
 * produces, and the class `Lexer` is the pull-based scanner itself, whose
 * `NextToken` is proved to agree with `Scan`.
 */
module Lexing {
  import opened Wrappers
  import opened Syntax

  /** The end of the maximal run of characters satisfying `p` that starts at `i`. */
  function RunEnd(s: string, i: nat, p: char -> bool): (j: nat)
    requires i <= |s|
    ensures i <= j <= |s|
    ensures forall k :: i <= k < j ==> p(s[k])
    ensures j < |s| ==> !p(s[j])
    decreases |s| - i
  {
    if i < |s| && p(s[i]) then RunEnd(s, i + 1, p) else i
  }

  /** The run end is the only index that closes a maximal run. */
  lemma RunEndUnique(s: string, i: nat, j: nat, p: char -> bool)
    requires i <= j <= |s|
    requires forall k :: i <= k < j ==> p(s[k])
    requires j < |s| ==> !p(s[j])
    ensures j == RunEnd(s, i, p)
  {
  }

  /** One call of `NextToken`: the token returned and where the cursor ends. */
  datatype Step = Step(token: SyntaxToken, next: nat)

  /** The token a lexer over `s` returns when its cursor is at `pos`. */
  function Scan(s: string, pos: nat): (r: Step)
    // at or past the end: EOF at the cursor, text "\0", no value, no progress
    ensures r.token.kind == EndOfFileToken <==> pos >= |s|
    ensures pos >= |s| ==> r == Step(SyntaxToken(EndOfFileToken, pos, [Sentinel], None), pos)
    // otherwise the token starts at the cursor and consumes at least one character
    ensures pos < |s| ==> r.token.position == pos && pos < r.next <= |s|
                          && r.token.text == s[pos..r.next]
  {
    if pos >= |s| then
      Step(SyntaxToken(EndOfFileToken, pos, [Sentinel], None), pos)
    else if IsDigit(s[pos]) then
      var e := RunEnd(s, pos, IsDigit);
      var text := s[pos..e];
      Step(SyntaxToken(NumberToken, pos, text, Some(TryParseInt32(text))), e)
    else if IsWhiteSpace(s[pos]) then
      var e := RunEnd(s, pos, IsWhiteSpace);
      var text := s[pos..e];
      Step(SyntaxToken(WhitespaceToken, pos, text, None), e)
    else
      match OperatorKind(s[pos])
      case Some(k) => Step(SyntaxToken(k, pos, s[pos..pos + 1], None), pos + 1)
      case None => Step(SyntaxToken(BadToken, pos, s[pos..pos + 1], None), pos + 1)
  }

  /**
   * What a call returns inside the text, by the character under the cursor:
   * a maximal digit run is a number token carrying its `TryParse` value, a
   * maximal white-space run a white-space token with no value, and any other
   * character a one-character operator or bad token with no value.
   */
  lemma ScanClassifies(s: string, pos: nat)
    requires pos < |s|
    ensures var r := Scan(s, pos);
      && (IsDigit(s[pos]) ==>
            r.token.kind == NumberToken && AllDigits(r.token.text)
            && (r.next < |s| ==> !IsDigit(s[r.next]))
            && r.token.value == Some(TryParseInt32(r.token.text)))
      && (IsWhiteSpace(s[pos]) ==>
            r.token.kind == WhitespaceToken && AllWhiteSpace(r.token.text)
            && (r.next < |s| ==> !IsWhiteSpace(s[r.next]))
            && r.token.value == None)
      && (!IsDigit(s[pos]) && !IsWhiteSpace(s[pos]) ==>
            r.next == pos + 1 && r.token.value == None
            && r.token.kind == (if OperatorKind(s[pos]).Some? then OperatorKind(s[pos]).value else BadToken))
  {
    var r := Scan(s, pos);
    if IsDigit(s[pos]) {
      assert forall k :: 0 <= k < |r.token.text| ==> r.token.text[k] == s[pos + k];
    } else if IsWhiteSpace(s[pos]) {
      assert forall k :: 0 <= k < |r.token.text| ==> r.token.text[k] == s[pos + k];
    }
  }

  /**
   * The tokens a fresh lexer over `s` returns from cursor `pos` on, up to
   * and including the first end-of-file token (after which every call
   * returns that same token again).
   */
  function Tokenize(s: string, pos: nat): (ts: seq<SyntaxToken>)
    ensures |ts| >= 1 && ts[0] == Scan(s, pos).token
    ensures ts[|ts| - 1].kind == EndOfFileToken
    ensures forall i :: 0 <= i < |ts| - 1 ==> ts[i].kind != EndOfFileToken
    decreases |s| - pos
  {
    var step := Scan(s, pos);
    if step.token.kind == EndOfFileToken then [step.token]
    else [step.token] + Tokenize(s, step.next)
  }

  /** Inside the text, the scan is the token at the cursor followed by the scan after it. */
  lemma TokenizeCons(s: string, pos: nat)
    requires pos < |s|
    ensures var step := Scan(s, pos);
      Tokenize(s, pos) == [step.token] + Tokenize(s, step.next)
  {
  }

  /** The concatenated texts of a sequence of tokens. */
  function Texts(ts: seq<SyntaxToken>): string {
    if ts == [] then [] else ts[0].text + Texts(ts[1..])
  }

  lemma {:induction false} TextsAppend(a: seq<SyntaxToken>, b: seq<SyntaxToken>)
    ensures Texts(a + b) == Texts(a) + Texts(b)
  {
    if a != [] {
      assert (a + b)[1..] == a[1..] + b;
      TextsAppend(a[1..], b);
    } else {
      assert a + b == b;
    }
  }

  /** A scan from inside the input ends with the end-of-file token at the input's end. */
  lemma {:induction false} TokenizeEnd(s: string, pos: nat)
    requires pos <= |s|
    ensures Tokenize(s, pos)[|Tokenize(s, pos)| - 1] == SyntaxToken(EndOfFileToken, |s|, [Sentinel], None)
    decreases |s| - pos
  {
    if pos < |s| {
      var step := Scan(s, pos);
      TokenizeEnd(s, step.next);
      TokenizeCons(s, pos);
    }
  }

  /** The texts before the end-of-file token of a stream. */
  function BodyTexts(ts: seq<SyntaxToken>): string
    requires |ts| >= 1
  {
    Texts(ts[..|ts| - 1])
  }

  lemma BodyTextsCons(t: SyntaxToken, rest: seq<SyntaxToken>, s: string, pos: nat, next: nat)
    requires |rest| >= 1 && pos <= next <= |s|
    requires t.text == s[pos..next] && BodyTexts(rest) == s[next..]
    ensures BodyTexts([t] + rest) == s[pos..]
  {
    assert ([t] + rest)[..|rest|] == [t] + rest[..|rest| - 1];
    TextsAppend([t], rest[..|rest| - 1]);
    assert Texts([t]) == t.text + Texts([]);
    assert s[pos..] == s[pos..next] + s[next..];
  }

  /**
   * Lossless tokenization: the texts of the tokens before end of file
   * concatenate to the rest of the input.
   */
  lemma {:induction false} TokenizeLossless(s: string, pos: nat)
    requires pos <= |s|
    ensures BodyTexts(Tokenize(s, pos)) == s[pos..]
    decreases |s| - pos
  {
    if pos < |s| {
      var step := Scan(s, pos);
      TokenizeLossless(s, step.next);
      TokenizeCons(s, pos);
      BodyTextsCons(step.token, Tokenize(s, step.next), s, pos, step.next);
    } else {
      assert Tokenize(s, pos)[..0] == [];
    }
  }

  /**
   * The positions of a stream starting at `pos` are contiguous: the first
   * token starts at `pos`, each token covers exactly the input between its
   * own position and the next token's, and the last sits at the input's end.
   */
  ghost predicate Contiguous(ts: seq<SyntaxToken>, s: string, pos: nat) {
    && |ts| >= 1
    && ts[0].position == pos
    && ts[|ts| - 1].position == |s|
    && forall i :: 0 <= i < |ts| - 1 ==>
         ts[i].position < ts[i + 1].position == ts[i].position + |ts[i].text| <= |s|
         && ts[i].text == s[ts[i].position..ts[i + 1].position]
  }

  lemma ContiguousCons(t: SyntaxToken, rest: seq<SyntaxToken>, s: string, next: nat)
    requires Contiguous(rest, s, next)
    requires t.position < next <= |s| && t.text == s[t.position..next]
    ensures Contiguous([t] + rest, s, t.position)
  {
    var ts := [t] + rest;
    forall i | 1 <= i < |ts| - 1
      ensures ts[i].position < ts[i + 1].position == ts[i].position + |ts[i].text| <= |s|
      ensures ts[i].text == s[ts[i].position..ts[i + 1].position]
    {
      assert ts[i] == rest[i - 1] && ts[i + 1] == rest[i];
    }
  }

  /** Positions in a scan are contiguous from the cursor to the end of the input. */
  lemma {:induction false} TokenizeContiguous(s: string, pos: nat)
    requires pos <= |s|
    ensures Contiguous(Tokenize(s, pos), s, pos)
    decreases |s| - pos
  {
    if pos < |s| {
      var step := Scan(s, pos);
      TokenizeContiguous(s, step.next);
      TokenizeCons(s, pos);
      ContiguousCons(step.token, Tokenize(s, step.next), s, step.next);
    }
  }

  /** The kinds whose tokens consume a maximal run of characters. */
  predicate IsRunKind(k: SyntaxKind) {
    k == NumberToken || k == WhitespaceToken
  }

  /** No run token is directly followed by a token of its own kind. */
  ghost predicate RunsSeparated(ts: seq<SyntaxToken>) {
    forall i :: 0 <= i < |ts| - 1 && IsRunKind(ts[i].kind) ==> ts[i + 1].kind != ts[i].kind
  }

  lemma RunsSeparatedCons(t: SyntaxToken, rest: seq<SyntaxToken>)
    requires RunsSeparated(rest) && |rest| >= 1
    requires IsRunKind(t.kind) ==> rest[0].kind != t.kind
    ensures RunsSeparated([t] + rest)
  {
    var ts := [t] + rest;
    forall i | 1 <= i < |ts| - 1 && IsRunKind(ts[i].kind)
      ensures ts[i + 1].kind != ts[i].kind
    {
      assert ts[i] == rest[i - 1] && ts[i + 1] == rest[i];
    }
  }

  /** The token after a run never has the run's kind. */
  lemma ScanAfterRun(s: string, pos: nat)
    requires pos < |s|
    ensures var step := Scan(s, pos);
      IsRunKind(step.token.kind) ==> Scan(s, step.next).token.kind != step.token.kind
  {
    var step := Scan(s, pos);
    ScanClassifies(s, pos);
    CharacterClassesDisjoint(s[pos]);
    if step.next < |s| {
      var c := s[step.next];
      ScanClassifies(s, step.next);
      CharacterClassesDisjoint(c);
      assert OperatorKind(c).Some? ==> !IsRunKind(OperatorKind(c).value);
    }
  }

  /**
   * Runs are maximal across calls: in a scan, a number token is never
   * followed by another number token, nor a white-space token by another
   * white-space token.
   */
  lemma {:induction false} NoAdjacentRuns(s: string, pos: nat)
    requires pos <= |s|
    ensures RunsSeparated(Tokenize(s, pos))
    decreases |s| - pos
  {
    if pos < |s| {
      var step := Scan(s, pos);
      NoAdjacentRuns(s, step.next);
      TokenizeCons(s, pos);
      ScanAfterRun(s, pos);
      RunsSeparatedCons(step.token, Tokenize(s, step.next));
    }
  }

  /**
   * A character that is neither a digit, white space nor an operator is
   * lexed as a bad token of its own, at its own position.
   */
  lemma {:induction false} BadCharacterToken(s: string, pos: nat, k: nat)
    requires pos <= k < |s|
    requires !IsDigit(s[k]) && !IsWhiteSpace(s[k]) && OperatorKind(s[k]) == None
    ensures SyntaxToken(BadToken, k, [s[k]], None) in Tokenize(s, pos)
    decreases |s| - pos
  {
    var step := Scan(s, pos);
    TokenizeCons(s, pos);
    ScanClassifies(s, pos);
    if pos == k {
      assert step.token.text == [s[k]];
    } else if step.next <= k {
      BadCharacterToken(s, step.next, k);
    } else {
      // the token at `pos` would be a run covering `k`, which is of neither class
      assert false;
    }
  }

  lemma RunToEnd(t: string, p: char -> bool)
    requires forall k :: 0 <= k < |t| ==> p(t[k])
    ensures RunEnd(t, 0, p) == |t|
  {
    RunEndUnique(t, 0, |t|, p);
  }

  /**
   * Tokens are self-describing: lexing the text of any token other than
   * end of file on its own yields the same token, at position 0, and
   * consumes that whole text.
   */
  lemma RelexTokenText(s: string, pos: nat)
    requires pos < |s|
    ensures var t := Scan(s, pos).token;
      Scan(t.text, 0) == Step(t.(position := 0), |t.text|)
  {
    var t := Scan(s, pos).token;
    if IsDigit(s[pos]) {
      RunToEnd(t.text, IsDigit);
      assert t.text[0..|t.text|] == t.text;
    } else if IsWhiteSpace(s[pos]) {
      RunToEnd(t.text, IsWhiteSpace);
      assert t.text[0..|t.text|] == t.text;
    } else {
      assert t.text == [s[pos]];
    }
  }

  /** The pull-based scanner: an immutable text and a cursor that only moves forward. */
  class Lexer {
    const text: string
    var position: nat

    constructor (text: string)
      ensures this.text == text && position == 0
    {
      this.text := text;
      position := 0;
    }

    /** The character under the cursor, or the sentinel at and past the end. */
    function Current(): (c: char)
      reads this
      ensures position < |text| ==> c == text[position]
      ensures position >= |text| ==> c == Sentinel && !IsDigit(c) && !IsWhiteSpace(c)
    {
      if position >= |text| then Sentinel else text[position]
    }

    method Next()
      modifies this
      ensures position == old(position) + 1
    {
      position := position + 1;
    }

    /** Returns the token at the cursor and moves the cursor past it. */
    method NextToken() returns (token: SyntaxToken)
      modifies this
      ensures Scan(text, old(position)) == Step(token, position)
    {
      if position >= |text| {
        return SyntaxToken(EndOfFileToken, position, [Sentinel], None);
      }

      if IsDigit(Current()) {
        var start := position;
        while IsDigit(Current())
          invariant start <= position <= |text|
          invariant forall k :: start <= k < position ==> IsDigit(text[k])
          decreases |text| - position
        {
          Next();
        }
        RunEndUnique(text, start, position, IsDigit);
        var t := text[start..position];
        return SyntaxToken(NumberToken, start, t, Some(TryParseInt32(t)));
      }

      if IsWhiteSpace(Current()) {
        var start := position;
        while IsWhiteSpace(Current())
          invariant start <= position <= |text|
          invariant forall k :: start <= k < position ==> IsWhiteSpace(text[k])
          decreases |text| - position
        {
          Next();
        }
        RunEndUnique(text, start, position, IsWhiteSpace);
        var t := text[start..position];
        return SyntaxToken(WhitespaceToken, start, t, None);
      }

      var start := position;
      if Current() == '+' {
        token := SyntaxToken(PlusToken, start, "+", None);
      } else if Current() == '-' {
        token := SyntaxToken(MinusToken, start, "-", None);
      } else if Current() == '*' {
        token := SyntaxToken(StarToken, start, "*", None);
      } else if Current() == '/' {
        token := SyntaxToken(SlashToken, start, "/", None);
      } else if Current() == '(' {
        token := SyntaxToken(OpenParenthesisToken, start, "(", None);
      } else if Current() == ')' {
        token := SyntaxToken(CloseParenthesisToken, start, ")", None);
      } else {
        Next();
        return SyntaxToken(BadToken, start, text[position - 1..position], None);
      }
      Next();
    }
  }
}
