/**
 * The command parser of app/src/parser.c: decoding a port-pin token such as "A5" or "c13" into
 * a port base and a pin bitmask, and the argument check of the input/output commands.
 */
module Parser {
  import opened Hardware
  import opened Wrappers
  import opened Tokens
  import opened Interpreter

  /** `INPUT_OUTPUT_MAX_ARGS`: a port-pin and a pull configuration. */
  const INPUT_OUTPUT_MAX_ARGS: nat := 3

  /** `JUMP_TO_LOWERCASE`: from 'E' to just before 'a'. */
  const JUMP_TO_LOWERCASE: int := 0x1B

  /** `ULONG_MAX` of the 32-bit target. */
  const ULONG_MAX: nat := 0xFFFF_FFFF

  /** The port a port letter names, counted from port A: 'A'..'E' and 'a'..'e' alike. */
  function PortIndex(c: char): (r: Option<nat>)
    ensures r.Some? <==> ('A' <= c <= 'E' || 'a' <= c <= 'e')
    ensures r.Some? ==> r.value <= 4
  {
    if 'A' <= c <= 'E' then Some(c as int - 'A' as int)
    else if 'a' <= c <= 'e' then Some(c as int - 'a' as int)
    else None
  }

  /** A lower-case letter names the same port as its upper-case letter. */
  lemma LowerCaseNamesSamePort(c: char)
    requires 'A' <= c <= 'E'
    ensures PortIndex((c as int + 32) as char) == PortIndex(c)
  {
  }

  /** `isspace` in the C locale. */
  predicate IsCSpace(c: char)
  {
    c == ' ' || ('\t' <= c <= '\r')
  }

  /** The first index from `i` on that is not C whitespace. */
  function SkipCSpace(text: string, i: nat): (j: nat)
    ensures j >= i && !IsCSpace(CharAt(text, j))
    ensures forall k :: i <= k < j ==> IsCSpace(CharAt(text, k))
    decreases if i < |text| then |text| - i else 0
  {
    if IsCSpace(CharAt(text, i)) then SkipCSpace(text, i + 1) else i
  }

  /** `acc` followed by the decimal digits that start at `i`, as a number. */
  function DigitRun(text: string, i: nat, acc: nat): nat
    decreases if i < |text| then |text| - i else 0
  {
    if IsDigit(CharAt(text, i)) then
      DigitRun(text, i + 1, acc * 10 + (CharAt(text, i) as int - '0' as int))
    else acc
  }

  /** `strtoul(text + i, NULL, 10)` with a 32-bit `unsigned long`: leading whitespace and one sign
      are skipped, the digits are read as far as they go, a value beyond ULONG_MAX saturates, and
      a minus sign negates the value modulo 2^32. No digits read as 0. */
  function StrToUL(text: string, i: nat): (v: u32)
  {
    var j := SkipCSpace(text, i);
    var sign := CharAt(text, j);
    var k := if sign == '-' || sign == '+' then j + 1 else j;
    var magnitude := DigitRun(text, k, 0);
    if magnitude > ULONG_MAX then ULONG_MAX
    else if sign == '-' then (0x1_0000_0000 - magnitude) % 0x1_0000_0000
    else magnitude
  }

  /** The port a token's first character selects; port A when it is not a port letter. */
  function PortOf(text: string, token: Token): u32
  {
    match PortIndex(CharAt(text, token.start))
    case Some(n) => GPIOA + PORT_SIZE * n
    case None => GPIOA
  }

  /** The number written after a token's first character. */
  function PinValue(text: string, token: Token): u32
  {
    StrToUL(text, token.start + 1)
  }

  /** A token that names a port and a pin of it. */
  predicate ParsesPortPin(text: string, token: Token)
  {
    PortIndex(CharAt(text, token.start)).Some? && PinValue(text, token) <= 15
  }

  /** parsePortPin: find the port letter by walking 'A'..'E' and then, after the jump, 'a'..'e';
      then read the pin number behind it. The port is always written; the pin only when the
      number is a pin of a port, otherwise it keeps the caller's `pinIn`. The result says whether
      both were found. */
  method ParsePortPin(text: string, token: Token, pinIn: u32) returns (ok: bool, port: u32, pin: u32)
    ensures ok <==> ParsesPortPin(text, token)
    ensures port == PortOf(text, token)
    ensures pin == if PinValue(text, token) <= 15 then PinMask(PinValue(text, token)) else pinIn
  {
    var parsedPort := false;
    var parsedPin := false;
    var subtractor := 'A' as int;
    port := GPIOA;
    var c := CharAt(text, token.start) as int;
    var portChar := 'A' as int;
    while portChar < 'e' as int + 1
      invariant ('A' as int <= portChar <= 'E' as int && subtractor == 'A' as int) ||
                ('a' as int <= portChar <= 'e' as int + 1 && subtractor == 'a' as int)
      invariant portChar <= 'E' as int ==> !('A' as int <= c < portChar)
      invariant portChar >= 'a' as int ==> !('A' as int <= c <= 'E' as int) && !('a' as int <= c < portChar)
      invariant !parsedPort && port == GPIOA
      decreases 'e' as int + 1 - portChar
    {
      if c == portChar {
        port := port + PORT_SIZE * (portChar - subtractor);
        parsedPort := true;
        break;
      }
      if portChar == 'E' as int {
        portChar := portChar + JUMP_TO_LOWERCASE;
        subtractor := 'a' as int;
      }
      portChar := portChar + 1;
    }
    var pinVal := StrToUL(text, token.start + 1);
    if pinVal <= 15 {
      pin := PinMask(pinVal);
      parsedPin := true;
    } else {
      pin := pinIn;
    }
    ok := parsedPort && parsedPin;
  }

  /** The decimal text of a number, without leading zeros. */
  function DecimalText(n: nat): (s: string)
    ensures |s| >= 1 && forall k :: 0 <= k < |s| ==> IsDigit(s[k])
  {
    if n < 10 then [('0' as int + n) as char]
    else DecimalText(n / 10) + [('0' as int + n % 10) as char]
  }

  /** Round trip: a port letter followed by the decimal text of a pin number, and then anything
      that is not a digit, decodes back to that letter's port and that pin. */
  lemma PortPinRoundTrip(letter: char, n: nat, after: string)
    requires PortIndex(letter).Some? && n <= 15
    requires after == [] || !IsDigit(after[0])
    ensures var text := [letter] + DecimalText(n) + after;
      var token := Token(TokenPortPin, 0, 1 + |DecimalText(n)|);
      && ParsesPortPin(text, token)
      && PortOf(text, token) == GPIOA + PORT_SIZE * PortIndex(letter).value
      && PinValue(text, token) == n
  {
    var text := [letter] + DecimalText(n) + after;
    assert text[1] == DecimalText(n)[0];
    assert SkipCSpace(text, 1) == 1;
    PinDigitsRead(text, n, after);
  }

  /** The digits behind the port letter read back as the pin number. */
  lemma PinDigitsRead(text: string, n: nat, after: string)
    requires n <= 15 && (after == [] || !IsDigit(after[0]))
    requires |text| >= 1 && text[1..] == DecimalText(n) + after
    ensures DigitRun(text, 1, 0) == n
  {
    if n < 10 {
      assert text[1] == ('0' as int + n) as char;
      assert !IsDigit(CharAt(text, 2)) by {
        if |after| > 0 {
          assert text[2] == after[0];
        }
      }
      assert DigitRun(text, 1, 0) == DigitRun(text, 2, n);
    } else {
      assert DecimalText(n) == ['1', ('0' as int + n - 10) as char];
      assert text[1] == '1' && text[2] == ('0' as int + n - 10) as char;
      assert !IsDigit(CharAt(text, 3)) by {
        if |after| > 0 {
          assert text[3] == after[0];
        }
      }
      assert DigitRun(text, 1, 0) == DigitRun(text, 3, n);
    }
  }

  /** The pull-resistor keywords. */
  predicate IsPull(k: TokenType)
  {
    k == TokenGpioNoResistor || k == TokenGpioPullup || k == TokenGpioPulldown
  }

  /** The token kinds an argument of input/output may have. */
  predicate IsArgument(k: TokenType)
  {
    k == TokenEol || k == TokenPortPin || IsPull(k)
  }

  /** The pull setting a pull keyword selects. */
  function PupdFor(k: TokenType): u8
    requires IsPull(k)
  {
    if k == TokenGpioNoResistor then GPIO_PUPD_NONE
    else if k == TokenGpioPullup then GPIO_PUPD_PULLUP
    else GPIO_PUPD_PULLDOWN
  }

  /** The arguments of an input/output line are acceptable: a command and three more tokens, all
      arguments, at most one port-pin and it decodes, and at most one pull keyword. */
  ghost predicate Accepts(text: string, ts: seq<Token>)
  {
    |ts| == INPUT_OUTPUT_MAX_ARGS + 1 &&
    (forall k :: 1 <= k < |ts| ==> IsArgument(ts[k].kind)) &&
    (forall k :: 1 <= k < |ts| && ts[k].kind == TokenPortPin ==> ParsesPortPin(text, ts[k])) &&
    (forall j, k :: 1 <= j < k < |ts| ==> !(ts[j].kind == TokenPortPin && ts[k].kind == TokenPortPin)) &&
    (forall j, k :: 1 <= j < k < |ts| ==> !(IsPull(ts[j].kind) && IsPull(ts[k].kind)))
  }

  lemma RejectsNonArgument(text: string, ts: seq<Token>, k: nat)
    requires 1 <= k < |ts| && !IsArgument(ts[k].kind)
    ensures !Accepts(text, ts)
  {
  }

  lemma RejectsUnparsedPortPin(text: string, ts: seq<Token>, k: nat)
    requires 1 <= k < |ts| && ts[k].kind == TokenPortPin && !ParsesPortPin(text, ts[k])
    ensures !Accepts(text, ts)
  {
  }

  lemma RejectsSecondPortPin(text: string, ts: seq<Token>, j: nat, k: nat)
    requires 1 <= j < k < |ts| && ts[j].kind == TokenPortPin && ts[k].kind == TokenPortPin
    ensures !Accepts(text, ts)
  {
  }

  lemma RejectsSecondPull(text: string, ts: seq<Token>, j: nat, k: nat)
    requires 1 <= j < k < |ts| && IsPull(ts[j].kind) && IsPull(ts[k].kind)
    ensures !Accepts(text, ts)
  {
  }

  /** The settings decoded from the arguments of a line: the port and pin of its port-pin (0 and
      0 when it has none) and the pull setting of its pull keyword (none when it has none). */
  ghost predicate Decoded(text: string, ts: seq<Token>, port: u32, pin: u32, pupd: u8)
  {
    (forall k :: 1 <= k < |ts| && ts[k].kind == TokenPortPin ==>
       ParsesPortPin(text, ts[k]) && port == PortOf(text, ts[k]) && pin == PinMask(PinValue(text, ts[k]))) &&
    ((forall k :: 1 <= k < |ts| ==> ts[k].kind != TokenPortPin) ==> port == 0 && pin == 0) &&
    (forall k :: 1 <= k < |ts| && IsPull(ts[k].kind) ==> pupd == PupdFor(ts[k].kind)) &&
    ((forall k :: 1 <= k < |ts| ==> !IsPull(ts[k].kind)) ==> pupd == GPIO_PUPD_NONE)
  }

  /** After the arguments ts[1..i): `portAt` is the only port-pin among them, which decoded into
      `port` and `pin`, or there is none and both are still 0. */
  ghost predicate PortPinMark(text: string, ts: seq<Token>, i: nat, portAt: Option<nat>, port: u32, pin: u32)
    requires i <= |ts|
  {
    (forall k :: 1 <= k < i && ts[k].kind == TokenPortPin ==> portAt == Some(k)) &&
    (portAt.Some? ==>
       1 <= portAt.value < i && ts[portAt.value].kind == TokenPortPin &&
       ParsesPortPin(text, ts[portAt.value]) &&
       port == PortOf(text, ts[portAt.value]) && pin == PinMask(PinValue(text, ts[portAt.value]))) &&
    (portAt.None? ==> port == 0 && pin == 0)
  }

  /** After the arguments ts[1..i): `pullAt` is the only pull keyword among them, which set
      `pupd`, or there is none and it is still none. */
  ghost predicate PullMark(ts: seq<Token>, i: nat, pullAt: Option<nat>, pupd: u8)
    requires i <= |ts|
  {
    (forall k :: 1 <= k < i && IsPull(ts[k].kind) ==> pullAt == Some(k)) &&
    (pullAt.Some? ==> 1 <= pullAt.value < i && IsPull(ts[pullAt.value].kind) && pupd == PupdFor(ts[pullAt.value].kind)) &&
    (pullAt.None? ==> pupd == GPIO_PUPD_NONE)
  }

  /** The marks move past an argument that is not of their kind. */
  lemma PortPinMarkSkips(text: string, ts: seq<Token>, i: nat, portAt: Option<nat>, port: u32, pin: u32)
    requires i < |ts| && ts[i].kind != TokenPortPin && PortPinMark(text, ts, i, portAt, port, pin)
    ensures PortPinMark(text, ts, i + 1, portAt, port, pin)
  {
  }

  lemma PullMarkSkips(ts: seq<Token>, i: nat, pullAt: Option<nat>, pupd: u8)
    requires i < |ts| && !IsPull(ts[i].kind) && PullMark(ts, i, pullAt, pupd)
    ensures PullMark(ts, i + 1, pullAt, pupd)
  {
  }

  /** The first port-pin, once decoded, is marked. */
  lemma PortPinMarkSets(text: string, ts: seq<Token>, i: nat, port: u32, pin: u32)
    requires 1 <= i < |ts| && ts[i].kind == TokenPortPin && ParsesPortPin(text, ts[i])
    requires PortPinMark(text, ts, i, None, 0, 0)
    requires port == PortOf(text, ts[i]) && pin == PinMask(PinValue(text, ts[i]))
    ensures PortPinMark(text, ts, i + 1, Some(i), port, pin)
  {
  }

  /** The first pull keyword is marked. */
  lemma PullMarkSets(ts: seq<Token>, i: nat, pupd: u8)
    requires 1 <= i < |ts| && IsPull(ts[i].kind) && PullMark(ts, i, None, GPIO_PUPD_NONE)
    requires pupd == PupdFor(ts[i].kind)
    ensures PullMark(ts, i + 1, Some(i), pupd)
  {
  }

  /** Once every argument has been checked, the line is accepted with the settings decoded. */
  lemma AllArgumentsChecked(text: string, ts: seq<Token>, portAt: Option<nat>, pullAt: Option<nat>,
                            port: u32, pin: u32, pupd: u8)
    requires |ts| == INPUT_OUTPUT_MAX_ARGS + 1
    requires forall k :: 1 <= k < |ts| ==> IsArgument(ts[k].kind)
    requires PortPinMark(text, ts, |ts|, portAt, port, pin) && PullMark(ts, |ts|, pullAt, pupd)
    ensures IoResult(text, ts, FellOffEnd(port, pin, pupd))
  {
  }

  /** How `inputOutput` ends: by returning a value, or by running off the end of the function
      without a `return`, at which point its locals hold the decoded settings. */
  datatype IoOutcome = Returned(value: bool) | FellOffEnd(port: u32, pin: u32, pupd: u8)

  /** What inputOutput does with the tokens `ts` of a line: every return returns false; when
      the arguments are acceptable, and only then, the function reaches its end without
      returning, holding the decoded settings. */
  ghost predicate IoResult(text: string, ts: seq<Token>, r: IoOutcome)
  {
    (r.Returned? ==> !r.value) &&
    (r.FellOffEnd? <==> Accepts(text, ts)) &&
    (r.FellOffEnd? ==> Decoded(text, ts, r.port, r.pin, r.pupd))
  }

  lemma RejectedResult(text: string, ts: seq<Token>)
    requires !Accepts(text, ts)
    ensures IoResult(text, ts, Returned(false))
  {
  }

  /** inputOutput: check the three tokens after the command. */
  method InputOutput(text: string, vec: TokenVector) returns (r: IoOutcome)
    requires vec.Valid()
    ensures IoResult(text, vec.Contents(), r)
  {
    ghost var ts := vec.Contents();
    var vecSize := vec.Size();
    // `vec_size - 1` is a size_t: an empty vector wraps around and fails the check as well
    if vecSize != INPUT_OUTPUT_MAX_ARGS + 1 {
      RejectedResult(text, ts);
      return Returned(false);
    }
    var pupd: u8 := 0;
    var port: u32 := 0;
    var pin: u32 := 0;
    var portPinSet := false;
    var pupdSet := false;
    ghost var portAt: Option<nat> := None;
    ghost var pullAt: Option<nat> := None;
    var i := 1;
    var rejected := false;
    while i < vecSize
      invariant 1 <= i <= vecSize && vec.Contents() == ts
      invariant forall k :: 1 <= k < i ==> IsArgument(ts[k].kind)
      invariant (portPinSet <==> portAt.Some?) && PortPinMark(text, ts, i, portAt, port, pin)
      invariant (pupdSet <==> pullAt.Some?) && PullMark(ts, i, pullAt, pupd)
      invariant !rejected
    {
      var current := vec.Get(i);
      // the cases of the switch on the token's kind; each failing case returns false
      rejected := false;
      if current.kind == TokenEol {
        PortPinMarkSkips(text, ts, i, portAt, port, pin);
        PullMarkSkips(ts, i, pullAt, pupd);
      } else if current.kind == TokenPortPin {
        if !portPinSet {
          var parsed;
          parsed, port, pin := ParsePortPin(text, current, pin);
          if !parsed {
            RejectsUnparsedPortPin(text, ts, i);
            rejected := true;
          } else {
            PortPinMarkSets(text, ts, i, port, pin);
            PullMarkSkips(ts, i, pullAt, pupd);
            portPinSet := true;
            portAt := Some(i);
          }
        } else {
          RejectsSecondPortPin(text, ts, portAt.value, i);
          rejected := true;
        }
      } else if IsPull(current.kind) {
        if !pupdSet {
          pupd := PupdFor(current.kind);
          PortPinMarkSkips(text, ts, i, portAt, port, pin);
          PullMarkSets(ts, i, pupd);
          pupdSet := true;
          pullAt := Some(i);
        } else {
          RejectsSecondPull(text, ts, pullAt.value, i);
          rejected := true;
        }
      } else {
        RejectsNonArgument(text, ts, i);
        rejected := true;
      }
      if rejected {
        break;
      }
      i := i + 1;
    }
    if rejected {
      RejectedResult(text, ts);
      return Returned(false);
    }
    AllArgumentsChecked(text, ts, portAt, pullAt, port, pin, pupd);
    r := FellOffEnd(port, pin, pupd);
  }

  /** parseTokens: whatever the first token is, every case of the dispatch is empty and falls
      through to the failure of the default case. The first token is fetched with
      getTokenVector, which spins forever on an empty vector, so the vector must hold a token. */
  method ParseTokens(vec: TokenVector) returns (ok: bool)
    requires vec.Valid() && |vec.Contents()| > 0
    ensures !ok
  {
    var first := vec.Get(0);
    match first.kind {
      case TokenGpioInput | TokenGpioOutput | TokenGpioSet | TokenGpioReset | TokenGpioToggle =>
        ok := false;
      case _ =>
        ok := false;
    }
  }

  /** A lexeme the scanner emits is never a pull keyword, and is an argument of input/output
      only when it is a port-pin. */
  lemma LexemeArgumentIsPortPin(text: string, t: Token)
    requires Lexeme(text, t)
    ensures IsArgument(t.kind) ==> t.kind == TokenPortPin
  {
  }

  /** The scanner never produces the tokens input/output accepts: its argument tokens are
      port-pins, keywords or errors, and never pull keywords or an early end of line, so a line
      scanned into four tokens has either a non-argument or two port-pins. */
  lemma ScannedLinesAreNeverAccepted(text: string)
    ensures !Accepts(text, Tokenize(text))
  {
    var ts := Tokenize(text);
    TokenizeIsScanned(text);
    if |ts| == INPUT_OUTPUT_MAX_ARGS + 1 {
      assert ts[1].kind != TokenEol && Lexeme(text, ts[1]);
      assert ts[2].kind != TokenEol && Lexeme(text, ts[2]);
      LexemeArgumentIsPortPin(text, ts[1]);
      LexemeArgumentIsPortPin(text, ts[2]);
      if !IsArgument(ts[1].kind) {
        RejectsNonArgument(text, ts, 1);
      } else if !IsArgument(ts[2].kind) {
        RejectsNonArgument(text, ts, 2);
      } else {
        RejectsSecondPortPin(text, ts, 1, 2);
      }
    }
  }
}
