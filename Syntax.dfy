/**
 * The token model of sc/Program.cs: the closed set of syntax kinds, the
 * immutable token record, the two character classes the lexer tests, and
 * the integer parse the lexer applies to a run of digits.
 */
module Syntax {
  import opened Wrappers

  /** The enumeration `SyntaxKind`, in declaration order. */
  datatype SyntaxKind =
    | NumberToken
    | WhitespaceToken
    | PlusToken
    | MinusToken
    | StarToken
    | SlashToken
    | OpenParenthesisToken
    | CloseParenthesisToken
    | BadToken
    | EndOfFileToken

  /**
   * The record `SyntaxToken`: its kind, the offset where it starts, the
   * text it consumed, and an optional payload (`object? Value`, which the
   * lexer only ever fills with a boxed `int`).
   */
  datatype SyntaxToken = SyntaxToken(kind: SyntaxKind, position: nat, text: string, value: Option<int>)

  /** The sentinel the lexer reads at and past the end of its text. */
  const Sentinel: char := '\0'

  /** The largest value of a 32-bit signed `int`. */
  const Int32Max: int := 0x7fff_ffff

  /** The ten decimal digits, in order of value. */
  const Digits: string := "0123456789"

  /**
   * The white-space characters of .NET, listed one by one: U+0009..U+000D,
   * the space, U+0085, U+00A0, and the members of the Unicode categories
   * Zs, Zl and Zp.
   */
  const WhiteSpaceChars: string :=
    "\t\n\U{B}\U{C}\r \U{85}\U{A0}\U{1680}"
    + "\U{2000}\U{2001}\U{2002}\U{2003}\U{2004}\U{2005}\U{2006}\U{2007}\U{2008}\U{2009}\U{200A}"
    + "\U{2028}\U{2029}\U{202F}\U{205F}\U{3000}"

  /** `char.IsDigit`, restricted to the ASCII decimal digits. */
  predicate IsDigit(c: char): (b: bool)
    ensures b <==> c in Digits
  {
    '0' <= c <= '9'
  }

  /**
   * `char.IsWhiteSpace`: the characters of the Unicode space, line and
   * paragraph separator categories, plus U+0009..U+000D, U+0085 and U+00A0.
   */
  predicate IsWhiteSpace(c: char) {
    ('\t' <= c <= '\r') || c == ' ' || c == '\U{85}' || c == '\U{A0}' || c == '\U{1680}'
    || ('\U{2000}' <= c <= '\U{200A}') || c == '\U{2028}' || c == '\U{2029}'
    || c == '\U{202F}' || c == '\U{205F}' || c == '\U{3000}'
  }

  /** The ranges of `IsWhiteSpace` cover exactly the listed white-space characters. */
  lemma WhiteSpaceListed(c: char)
    ensures IsWhiteSpace(c) <==> c in WhiteSpaceChars
  {
  }

  /** The operator characters, in the order the lexer tests them. */
  const OperatorChars: string := "+-*/()"

  /** The single-character operator tokens of the lexer and the kind each maps to. */
  function OperatorKind(c: char): (r: Option<SyntaxKind>)
    ensures r.Some? <==> c in OperatorChars
    ensures r.Some? ==> OperatorText(r.value) == Some(c)
  {
    if c == '+' then Some(PlusToken)
    else if c == '-' then Some(MinusToken)
    else if c == '*' then Some(StarToken)
    else if c == '/' then Some(SlashToken)
    else if c == '(' then Some(OpenParenthesisToken)
    else if c == ')' then Some(CloseParenthesisToken)
    else None
  }

  /** The text of an operator kind; the inverse of `OperatorKind`. */
  function OperatorText(k: SyntaxKind): Option<char> {
    match k
    case PlusToken => Some('+')
    case MinusToken => Some('-')
    case StarToken => Some('*')
    case SlashToken => Some('/')
    case OpenParenthesisToken => Some('(')
    case CloseParenthesisToken => Some(')')
    case _ => None
  }

  /** Kinds and characters correspond one to one through the operator table. */
  lemma OperatorTableRoundTrip(c: char, k: SyntaxKind)
    ensures OperatorKind(c) == Some(k) <==> OperatorText(k) == Some(c)
    ensures OperatorKind(c).Some? ==> !IsDigit(c) && !IsWhiteSpace(c) && c != Sentinel
  {
  }

  /** No character is both a digit and white space, and the sentinel is neither. */
  lemma CharacterClassesDisjoint(c: char)
    ensures !(IsDigit(c) && IsWhiteSpace(c))
    ensures !IsDigit(Sentinel) && !IsWhiteSpace(Sentinel)
  {
  }

  predicate AllDigits(t: string) {
    forall k :: 0 <= k < |t| ==> IsDigit(t[k])
  }

  predicate AllWhiteSpace(t: string) {
    forall k :: 0 <= k < |t| ==> IsWhiteSpace(t[k])
  }

  function DigitValue(c: char): (d: nat)
    requires IsDigit(c)
    ensures d < 10
  {
    c as int - '0' as int
  }

  /** The mathematical value of a string of decimal digits, read most significant first. */
  function DecimalValue(t: string): nat
    requires AllDigits(t)
  {
    if t == [] then 0 else 10 * DecimalValue(t[..|t| - 1]) + DigitValue(t[|t| - 1])
  }

  /** Appending digits never makes the value smaller. */
  lemma {:induction false} DecimalValuePrefix(t: string, i: nat)
    requires AllDigits(t) && i <= |t|
    ensures AllDigits(t[..i]) && DecimalValue(t[..i]) <= DecimalValue(t)
    decreases |t| - i
  {
    if i < |t| {
      var u := t[..i + 1];
      assert u[..|u| - 1] == t[..i];
      assert DecimalValue(t[..i]) <= DecimalValue(u);
      DecimalValuePrefix(t, i + 1);
    } else {
      assert t[..i] == t;
    }
  }

  /**
   * A digit-by-digit parse with a 32-bit overflow check: `acc` is the value
   * of the first `i` digits; the result is `None` when the value of the
   * whole string does not fit a signed 32-bit integer.
   */
  function ParseDigits(t: string, i: nat, acc: int): (r: Option<int>)
    requires AllDigits(t) && i <= |t|
    requires acc == DecimalValue(t[..i]) && acc <= Int32Max
    ensures DecimalValue(t) <= Int32Max ==> r == Some(DecimalValue(t))
    ensures DecimalValue(t) > Int32Max ==> r == None
    decreases |t| - i
  {
    if i == |t| then
      assert t[..i] == t;
      Some(acc)
    else
      var u := t[..i + 1];
      assert u[..|u| - 1] == t[..i];
      var next := acc * 10 + DigitValue(t[i]);
      if next > Int32Max then
        DecimalValuePrefix(t, i + 1);
        None
      else
        ParseDigits(t, i + 1, next)
  }

  /**
   * `int.TryParse(text, out var value)` on a run of digits, with its result
   * flag ignored as the lexer ignores it: the parsed value when it fits a
   * signed 32-bit integer, otherwise the 0 a failed parse leaves behind.
   */
  function TryParseInt32(t: string): (v: int)
    requires |t| > 0 && AllDigits(t)
    ensures 0 <= v <= Int32Max
    ensures DecimalValue(t) <= Int32Max ==> v == DecimalValue(t)
    ensures DecimalValue(t) > Int32Max ==> v == 0
  {
    assert t[..0] == [];
    match ParseDigits(t, 0, 0)
    case Some(n) => n
    case None => 0
  }
}
