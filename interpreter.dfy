/**
 * The line scanner of app/src/interpreter.c. A command line is a NUL-terminated string; here it
 * is a `string` that reads as '\0' past its end, so scanning stops at the first '\0' or at the
 * end of the sequence, whichever comes first. Tokens refer to the line by index. Each `char`
 * stands for one byte of the C line.
 */
module Interpreter {
  import opened Tokens

  /** Size of the fixed token array of `interpret`. */
  const MAX_TOKENS: nat := 20

  /** The character at `i`, or '\0' past the end of the line. */
  function CharAt(text: string, i: nat): char
  {
    if i < |text| then text[i] else '\0'
  }

  /** The characters `skipWhitespace` consumes. */
  predicate IsWhitespace(c: char)
  {
    c == ' ' || c == '\r' || c == '\t' || c == '\n'
  }

  /** isDigit: a decimal digit has a digit value from 0 to 9, and is neither whitespace nor the
      line's terminator. */
  predicate IsDigit(c: char)
    ensures IsDigit(c) ==> 0 <= c as int - '0' as int <= 9 && !IsWhitespace(c) && c != '\0'
  {
    '0' <= c <= '9'
  }

  /** isAlpha: letters and '_'. Such a character is never a digit, whitespace or the line's
      terminator, so the scanner's branches never overlap. */
  predicate IsAlpha(c: char)
    ensures IsAlpha(c) ==> !IsDigit(c) && !IsWhitespace(c) && c != '\0'
  {
    ('a' <= c <= 'z') || ('A' <= c <= 'Z') || c == '_'
  }

  /** The characters that may follow the first one of an identifier. */
  predicate IsIdentifierChar(c: char)
  {
    IsAlpha(c) || IsDigit(c)
  }

  /** Where the run of whitespace starting at `i` ends. */
  function SkipBlanks(text: string, i: nat): (j: nat)
    requires i <= |text|
    ensures i <= j <= |text|
    ensures forall k :: i <= k < j ==> IsWhitespace(text[k])
    ensures !IsWhitespace(CharAt(text, j))
    decreases |text| - i
  {
    if IsWhitespace(CharAt(text, i)) then SkipBlanks(text, i + 1) else i
  }

  /** Where the run of identifier characters starting at `i` ends. */
  function IdentifierEnd(text: string, i: nat): (j: nat)
    requires i <= |text|
    ensures i <= j <= |text|
    ensures forall k :: i <= k < j ==> IsIdentifierChar(text[k])
    ensures !IsIdentifierChar(CharAt(text, j))
    decreases |text| - i
  {
    if IsIdentifierChar(CharAt(text, i)) then IdentifierEnd(text, i + 1) else i
  }

  /** checkKeyword: the keyword kind when the lexeme is exactly `start + length` characters long
      and its characters from `start` on are `rest`, otherwise a port-pin. */
  function CheckKeyword(lexeme: string, start: nat, length: nat, rest: string, kind: TokenType): (r: TokenType)
    requires |rest| == length
    ensures r == kind || r == TokenPortPin
    ensures kind != TokenPortPin && start <= |lexeme| ==> (r == kind <==> lexeme == lexeme[..start] + rest)
  {
    if |lexeme| == start + length && lexeme[start..] == rest then kind else TokenPortPin
  }

  /** identiferType: dispatch on the first character, then compare the rest. */
  function IdentifierType(lexeme: string): (r: TokenType)
    requires |lexeme| >= 1
    ensures r in {TokenGpioInput, TokenGpioOutput, TokenGpioSet, TokenGpioReset, TokenGpioToggle, TokenPortPin}
    ensures r != TokenPortPin ==> 3 <= |lexeme| <= 6
  {
    match lexeme[0]
    case 'i' => CheckKeyword(lexeme, 1, 4, "nput", TokenGpioInput)
    case 'o' => CheckKeyword(lexeme, 1, 5, "utput", TokenGpioOutput)
    case 's' => CheckKeyword(lexeme, 1, 2, "et", TokenGpioSet)
    case 'r' => CheckKeyword(lexeme, 1, 4, "eset", TokenGpioReset)
    case 't' => CheckKeyword(lexeme, 1, 5, "oggle", TokenGpioToggle)
    case _ => TokenPortPin
  }

  /** The keywords of the language and the kind each one denotes. */
  function KeywordKind(lexeme: string): TokenType
  {
    if lexeme == "input" then TokenGpioInput
    else if lexeme == "output" then TokenGpioOutput
    else if lexeme == "set" then TokenGpioSet
    else if lexeme == "reset" then TokenGpioReset
    else if lexeme == "toggle" then TokenGpioToggle
    else TokenPortPin
  }

  /** The dispatch of `identiferType` recognises exactly the five keywords: any other identifier,
      "Input" or "sets" among them, is a port-pin, with no check that it names a real pin. */
  lemma IdentifierTypeIsKeywordKind(lexeme: string)
    requires |lexeme| >= 1
    ensures IdentifierType(lexeme) == KeywordKind(lexeme)
  {
    if lexeme == "input" || lexeme == "output" || lexeme == "set" || lexeme == "reset" || lexeme == "toggle" {
    } else if |lexeme| >= 2 {
      assert lexeme == [lexeme[0]] + lexeme[1..];
    }
  }

  /** The tokens of the line from index `i` on: whitespace is skipped, the first '\0' gives a
      zero-length end-of-line token, a letter or '_' starts an identifier that runs as far as
      identifier characters go, and any other character is a one-character error token. */
  function TokenizeFrom(text: string, i: nat): seq<Token>
    requires i <= |text|
    decreases |text| - i
  {
    var s := SkipBlanks(text, i);
    if CharAt(text, s) == '\0' then
      [Token(TokenEol, s, 0)]
    else if IsAlpha(text[s]) then
      var e := IdentifierEnd(text, s + 1);
      [Token(IdentifierType(text[s..e]), s, e - s)] + TokenizeFrom(text, e)
    else
      [Token(TokenError, s, 1)] + TokenizeFrom(text, s + 1)
  }

  /** The tokens of a whole line. */
  function Tokenize(text: string): seq<Token>
  {
    TokenizeFrom(text, 0)
  }

  /** The index just past a token. */
  function Stop(t: Token): nat
  {
    t.start + t.length
  }

  /** Only whitespace lies in [a, b). */
  ghost predicate Blank(text: string, a: nat, b: nat)
  {
    a <= b <= |text| && forall k :: a <= k < b ==> IsWhitespace(text[k])
  }

  /** `t` is a token the scanner may emit at its position: a one-character error on a character
      that neither starts an identifier nor is whitespace or '\0', or a maximal identifier
      classified by its lexeme. */
  ghost predicate Lexeme(text: string, t: Token)
  {
    Stop(t) <= |text| && 1 <= t.length &&
    if t.kind == TokenError then
      t.length == 1 && !IsAlpha(text[t.start]) && !IsWhitespace(text[t.start]) && text[t.start] != '\0'
    else
      IsAlpha(text[t.start]) &&
      (forall k :: t.start < k < Stop(t) ==> IsIdentifierChar(text[k])) &&
      !IsIdentifierChar(CharAt(text, Stop(t))) &&
      t.kind == KeywordKind(text[t.start..Stop(t)])
  }

  /** What scanning from `i` produces: lexemes in source order separated by whitespace only, and
      exactly one end-of-line token, zero characters long, last, at the first '\0' after them. */
  ghost predicate ScannedFrom(text: string, i: nat, ts: seq<Token>)
  {
    |ts| >= 1 &&
    ts[|ts| - 1].kind == TokenEol && ts[|ts| - 1].length == 0 &&
    CharAt(text, ts[|ts| - 1].start) == '\0' &&
    Blank(text, i, ts[0].start) &&
    (forall k :: 0 <= k < |ts| - 1 ==> ts[k].kind != TokenEol && Lexeme(text, ts[k])) &&
    (forall k :: 0 <= k < |ts| - 1 ==> Blank(text, Stop(ts[k]), ts[k + 1].start))
  }

  /** Scanning from `i` always yields at least the end-of-line token. */
  lemma TokenizeNonEmpty(text: string, i: nat)
    requires i <= |text|
    ensures |TokenizeFrom(text, i)| >= 1
  {
  }

  /** At the end of the line the only token left is the end-of-line token. */
  lemma TokenizeAtEnd(text: string, i: nat)
    requires i <= |text| && CharAt(text, SkipBlanks(text, i)) == '\0'
    ensures TokenizeFrom(text, i) == [Token(TokenEol, SkipBlanks(text, i), 0)]
  {
  }

  /** After blanks, a letter or '_' starts an identifier and scanning resumes behind it. */
  lemma TokenizeIdentifier(text: string, i: nat, s: nat, e: nat)
    requires i <= |text| && s == SkipBlanks(text, i) && CharAt(text, s) != '\0' && IsAlpha(text[s])
    requires e == IdentifierEnd(text, s + 1)
    ensures TokenizeFrom(text, i) == [Token(IdentifierType(text[s..e]), s, e - s)] + TokenizeFrom(text, e)
  {
  }

  /** After blanks, any other character is an error token and scanning resumes behind it. */
  lemma TokenizeError(text: string, i: nat, s: nat)
    requires i <= |text| && s == SkipBlanks(text, i) && CharAt(text, s) != '\0' && !IsAlpha(text[s])
    ensures TokenizeFrom(text, i) == [Token(TokenError, s, 1)] + TokenizeFrom(text, s + 1)
  {
  }

  /** The pending tokens at an identifier: the identifier, then those behind it. */
  lemma PendingIdentifier(text: string, i: nat, s: nat, e: nat, pending: seq<Token>)
    requires i <= |text| && s == SkipBlanks(text, i) && CharAt(text, s) != '\0' && IsAlpha(text[s])
    requires e == IdentifierEnd(text, s + 1) && pending == TokenizeFrom(text, i)
    ensures |pending| >= 1 && pending[0] == Token(IdentifierType(text[s..e]), s, e - s)
    ensures pending[1..] == TokenizeFrom(text, e)
  {
    TokenizeIdentifier(text, i, s, e);
  }

  /** The pending tokens at an error character: the error, then those behind it. */
  lemma PendingError(text: string, i: nat, s: nat, pending: seq<Token>)
    requires i <= |text| && s == SkipBlanks(text, i) && CharAt(text, s) != '\0' && !IsAlpha(text[s])
    requires pending == TokenizeFrom(text, i)
    ensures |pending| >= 1 && pending[0] == Token(TokenError, s, 1) && pending[1..] == TokenizeFrom(text, s + 1)
  {
    TokenizeError(text, i, s);
  }

  /** A lexeme after a blank run, followed by a scanned rest, is a scanned line. */
  lemma ConsScanned(text: string, i: nat, t: Token, rest: seq<Token>)
    requires Lexeme(text, t) && t.kind != TokenEol && Blank(text, i, t.start)
    requires ScannedFrom(text, Stop(t), rest)
    ensures ScannedFrom(text, i, [t] + rest)
  {
    var ts := [t] + rest;
    forall k | 0 <= k < |ts| - 1
      ensures ts[k].kind != TokenEol && Lexeme(text, ts[k])
      ensures Blank(text, Stop(ts[k]), ts[k + 1].start)
    {
      if k > 0 {
        assert ts[k] == rest[k - 1] && ts[k + 1] == rest[k];
      }
    }
  }

  /** A letter or '_' and the identifier characters behind it form a lexeme, its kind the
      keyword it spells. */
  lemma IdentifierLexeme(text: string, s: nat, e: nat)
    requires s < |text| && IsAlpha(text[s]) && e == IdentifierEnd(text, s + 1)
    ensures Lexeme(text, Token(IdentifierType(text[s..e]), s, e - s))
  {
    var t := Token(IdentifierType(text[s..e]), s, e - s);
    assert Stop(t) == e;
    IdentifierTypeIsKeywordKind(text[s..e]);
    assert t.kind == KeywordKind(text[t.start..Stop(t)]);
  }

  /** An identifier after blanks, followed by a scanned rest, leaves a scanned line. */
  lemma IdentifierScanned(text: string, i: nat, s: nat, e: nat)
    requires i <= |text| && s == SkipBlanks(text, i) && CharAt(text, s) != '\0' && IsAlpha(text[s])
    requires e == IdentifierEnd(text, s + 1)
    requires ScannedFrom(text, e, TokenizeFrom(text, e))
    ensures ScannedFrom(text, i, TokenizeFrom(text, i))
  {
    TokenizeIdentifier(text, i, s, e);
    IdentifierLexeme(text, s, e);
    assert Blank(text, i, s);
    ConsScanned(text, i, Token(IdentifierType(text[s..e]), s, e - s), TokenizeFrom(text, e));
  }

  /** An error character after blanks, followed by a scanned rest, leaves a scanned line. */
  lemma ErrorScanned(text: string, i: nat, s: nat)
    requires i <= |text| && s == SkipBlanks(text, i) && CharAt(text, s) != '\0' && !IsAlpha(text[s])
    requires ScannedFrom(text, s + 1, TokenizeFrom(text, s + 1))
    ensures ScannedFrom(text, i, TokenizeFrom(text, i))
  {
    var t := Token(TokenError, s, 1);
    TokenizeError(text, i, s);
    assert Blank(text, i, s);
    assert Lexeme(text, t);
    ConsScanned(text, i, t, TokenizeFrom(text, s + 1));
  }

  /** Every line scans into that shape. */
  lemma {:induction false} TokenizeFromIsScanned(text: string, i: nat)
    requires i <= |text|
    ensures ScannedFrom(text, i, TokenizeFrom(text, i))
    decreases |text| - i
  {
    var s := SkipBlanks(text, i);
    if CharAt(text, s) == '\0' {
      TokenizeAtEnd(text, i);
    } else if IsAlpha(text[s]) {
      var e := IdentifierEnd(text, s + 1);
      TokenizeFromIsScanned(text, e);
      IdentifierScanned(text, i, s, e);
    } else {
      TokenizeFromIsScanned(text, s + 1);
      ErrorScanned(text, i, s);
    }
  }

  /** A line's tokens: in source order, never overlapping, each a lexeme, and ended by exactly
      one zero-length end-of-line token. */
  lemma TokenizeIsScanned(text: string)
    ensures ScannedFrom(text, 0, Tokenize(text))
  {
    TokenizeFromIsScanned(text, 0);
  }

  /** A digit, a quote or any other character that cannot start an identifier scans as a
      one-character error token; pull-resistor, read, number and string tokens never occur. */
  lemma {:induction false} TokenizeEmitsOnlyScannerKinds(text: string, i: nat)
    requires i <= |text|
    ensures forall t :: t in TokenizeFrom(text, i) ==>
      t.kind in {TokenGpioInput, TokenGpioOutput, TokenGpioSet, TokenGpioReset, TokenGpioToggle,
                 TokenPortPin, TokenError, TokenEol}
    decreases |text| - i
  {
    var s := SkipBlanks(text, i);
    if CharAt(text, s) == '\0' {
    } else if IsAlpha(text[s]) {
      TokenizeEmitsOnlyScannerKinds(text, IdentifierEnd(text, s + 1));
    } else {
      TokenizeEmitsOnlyScannerKinds(text, s + 1);
    }
  }

  /** A command line of the shape the firmware's console sends. */
  const EXAMPLE_LINE: string := "output A5 \r\n"

  /** The first token of EXAMPLE_LINE is the output keyword. */
  lemma ExampleFirstToken()
    ensures TokenizeFrom(EXAMPLE_LINE, 0) == [Token(TokenGpioOutput, 0, 6)] + TokenizeFrom(EXAMPLE_LINE, 6)
  {
    assert SkipBlanks(EXAMPLE_LINE, 0) == 0;
    assert IdentifierEnd(EXAMPLE_LINE, 6) == 6;
    assert IdentifierEnd(EXAMPLE_LINE, 5) == 6;
    assert IdentifierEnd(EXAMPLE_LINE, 4) == 6;
    assert IdentifierEnd(EXAMPLE_LINE, 3) == 6;
    assert IdentifierEnd(EXAMPLE_LINE, 2) == 6;
    assert IdentifierEnd(EXAMPLE_LINE, 1) == 6;
    assert EXAMPLE_LINE[0..6] == "output";
    TokenizeIdentifier(EXAMPLE_LINE, 0, 0, 6);
  }

  /** The second token of EXAMPLE_LINE is the port-pin A5. */
  lemma ExampleSecondToken()
    ensures TokenizeFrom(EXAMPLE_LINE, 6) == [Token(TokenPortPin, 7, 2)] + TokenizeFrom(EXAMPLE_LINE, 9)
  {
    assert SkipBlanks(EXAMPLE_LINE, 6) == 7;
    assert IdentifierEnd(EXAMPLE_LINE, 8) == 9;
    assert EXAMPLE_LINE[7..9] == "A5";
    TokenizeIdentifier(EXAMPLE_LINE, 6, 7, 9);
  }

  /** The trailing blank, carriage return and line feed of EXAMPLE_LINE are skipped before the
      end-of-line token. */
  lemma ExampleEnd()
    ensures TokenizeFrom(EXAMPLE_LINE, 9) == [Token(TokenEol, 12, 0)]
  {
    assert SkipBlanks(EXAMPLE_LINE, 9) == 12;
    TokenizeAtEnd(EXAMPLE_LINE, 9);
  }

  /** An example line: "output A5 \r\n" is the keyword, a port-pin and the end of line. */
  lemma ExampleLine()
    ensures Tokenize(EXAMPLE_LINE) ==
      [Token(TokenGpioOutput, 0, 6), Token(TokenPortPin, 7, 2), Token(TokenEol, 12, 0)]
  {
    ExampleFirstToken();
    ExampleSecondToken();
    ExampleEnd();
  }

  /** `Scanner`: the start of the token being scanned and the current position. */
  class Scanner {
    const source: string
    var start: nat
    var current: nat
    /** The tokens the rest of the line scans into. */
    ghost var rest: seq<Token>

    /** `rest` is what the line scans into from the current position. */
    ghost predicate Tracks()
      reads this
    {
      current <= |source| && rest == TokenizeFrom(source, current)
    }

    /** initScanner: both positions at the beginning of the line. */
    constructor Init(source: string)
      ensures this.source == source && start == 0 && current == 0
      ensures Tracks() && rest == Tokenize(source)
    {
      this.source := source;
      start := 0;
      current := 0;
      rest := Tokenize(source);
    }

    /** peek: the character at the current position. */
    function Peek(): (c: char)
      reads this
      ensures current < |source| ==> c == source[current]
      ensures current >= |source| ==> c == '\0'
    {
      CharAt(source, current)
    }

    /** is_at_end: the current character is '\0'. */
    predicate IsAtEnd()
      reads this
      ensures IsAtEnd() <==> Peek() == '\0'
      ensures !IsAtEnd() ==> current < |source|
    {
      CharAt(source, current) == '\0'
    }

    /** advance_scanner: step past the current character and return it. */
    method Advance() returns (c: char)
      requires current < |source|
      modifies this
      ensures c == source[old(current)] && current == old(current) + 1 && start == old(start)
    {
      current := current + 1;
      c := source[current - 1];
    }

    /** skipWhitespace: step over the run of whitespace at the current position. */
    method SkipWhitespace()
      requires current <= |source|
      modifies this
      ensures current == SkipBlanks(source, old(current)) && start == old(start)
    {
      while IsWhitespace(Peek())
        invariant old(current) <= current <= |source| && start == old(start)
        invariant SkipBlanks(source, current) == SkipBlanks(source, old(current))
        decreases |source| - current
      {
        var _ := Advance();
      }
    }

    /** makeToken: a token of `kind` spanning [start, current). */
    function MakeToken(kind: TokenType): (t: Token)
      reads this
      requires start <= current
      ensures t.kind == kind && t.start == start && Stop(t) == current
    {
      Token(kind, start, current - start)
    }

    /** identifier: consume the rest of an identifier whose first character was just consumed,
        and classify it. */
    method Identifier() returns (t: Token)
      requires start < current <= |source|
      modifies this
      ensures current == IdentifierEnd(source, old(current)) && start == old(start)
      ensures t == Token(IdentifierType(source[start..current]), start, current - start)
    {
      while IsIdentifierChar(Peek())
        invariant old(current) <= current <= |source| && start == old(start)
        invariant IdentifierEnd(source, current) == IdentifierEnd(source, old(current))
        decreases |source| - current
      {
        var _ := Advance();
      }
      t := MakeToken(IdentifierType(source[start..current]));
    }
    /** One round of the `interpret` loop: skip whitespace, start a token there, and make the
        end-of-line token at '\0', an identifier at a letter or '_', and a one-character error
        token otherwise. */
    method ScanToken() returns (t: Token)
      requires Tracks()
      modifies this
      ensures |old(rest)| >= 1 && t == old(rest)[0]
      ensures t.kind == TokenEol ==> old(rest) == [t]
      ensures t.kind != TokenEol ==> Tracks() && rest == old(rest)[1..] && old(current) < current
    {
      ghost var from := current;
      ghost var r0 := rest;
      SkipWhitespace();
      start := current;
      if IsAtEnd() {
        TokenizeAtEnd(source, from);
        t := MakeToken(TokenEol);
      } else {
        var c := Advance();
        ghost var s := start;
        if IsAlpha(c) {
          t := Identifier();
          PendingIdentifier(source, from, s, current, r0);
        } else {
          t := MakeToken(TokenError);
          PendingError(source, from, s, r0);
        }
        rest := TokenizeFrom(source, current);
      }
    }
  }

  /** Moving the first pending token behind the emitted ones keeps their concatenation. */
  lemma ShiftToken(emitted: seq<Token>, pending: seq<Token>, all: seq<Token>)
    requires |pending| >= 1 && emitted + pending == all
    ensures (emitted + [pending[0]]) + pending[1..] == all
  {
    assert pending == [pending[0]] + pending[1..];
  }

  /** interpret: scan the line into the fixed 20-slot token array and report success. The array
      is written without a bound check, so the line must scan into at most 20 tokens. */
  method Interpret(text: string) returns (ok: bool, tokens: seq<Token>)
    requires |Tokenize(text)| <= MAX_TOKENS
    ensures ok && tokens == Tokenize(text)
  {
    var scanner := new Scanner.Init(text);
    var tokvec := new Token[MAX_TOKENS];
    var count := 0;
    ghost var all := Tokenize(text);
    while true
      invariant scanner.source == text && scanner.Tracks()
      invariant count <= MAX_TOKENS && tokvec[..count] + scanner.rest == all
      decreases |text| - scanner.current
    {
      ghost var before := tokvec[..count];
      ghost var pending := scanner.rest;
      var t := scanner.ScanToken();
      ShiftToken(before, pending, all);
      tokvec[count] := t;
      count := count + 1;
      assert tokvec[..count] == before + [t];
      if t.kind == TokenEol {
        return true, tokvec[..count];
      }
    }
  }
}
