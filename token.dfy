/** Tokens and the growable token vector of app/src/token.c. */
module Tokens {
  import opened LocalMemory

  /** `TokenType`: every kind of token the command language knows. */
  datatype TokenType =
    | TokenGpioInput | TokenGpioOutput | TokenPortPin | TokenGpioSet | TokenGpioRead
    | TokenGpioReset | TokenGpioToggle | TokenGpioPullup | TokenGpioPulldown
    | TokenGpioNoResistor | TokenNumber | TokenString | TokenEol | TokenError

  /** `Token`: a kind and the span of the command line it was scanned from, as the index of
      its first character and its length. */
  datatype Token = Token(kind: TokenType, start: nat, length: nat)

  /** `TokenVector`: `used` tokens stored at the front of an array of `capacity` slots. */
  class TokenVector {
    var used: nat
    var capacity: nat
    var tokens: array<Token>

    ghost predicate Valid()
      reads this
    {
      used <= capacity <= tokens.Length
    }

    /** The tokens appended so far, oldest first. */
    ghost function Contents(): seq<Token>
      reads this, tokens
      requires Valid()
    {
      tokens[..used]
    }

    /** initTokenVector: four slots, none used. */
    constructor Init()
      ensures Valid() && Contents() == []
      ensures capacity == 4 && used == 0 && fresh(tokens)
    {
      used := 0;
      capacity := 4;
      tokens := new Token[4](_ => Token(TokenError, 0, 0));
    }

    /** appendTokenVector: store `tok` behind the used tokens, first growing the array by
        `GROW_CAPACITY` when every slot is in use. */
    method Append(tok: Token)
      requires Valid()
      modifies this, tokens
      ensures Valid() && Contents() == old(Contents()) + [tok]
      ensures capacity == if old(used) == old(capacity) then GrowCapacity(old(capacity)) else old(capacity)
      ensures tokens == old(tokens) || fresh(tokens)
    {
      if used == capacity {
        var oldSize := capacity;
        capacity := GrowCapacity(oldSize);
        var grown := new Token[capacity](_ => Token(TokenError, 0, 0));
        forall k | 0 <= k < oldSize {
          grown[k] := tokens[k];
        }
        tokens := grown;
      }
      tokens[used] := tok;
      used := used + 1;
    }

    /** sizeTokenVector: the number of tokens appended. */
    method Size() returns (n: nat)
      requires Valid()
      ensures n == |Contents()|
    {
      n := used;
    }

    /** getTokenVector: the token at `index`. The source spins forever on an index that is out
        of range, so the callers must stay in range. */
    method Get(index: nat) returns (tok: Token)
      requires Valid() && index < |Contents()|
      ensures tok == Contents()[index]
    {
      tok := tokens[index];
    }

    /** deinitTokenVector: no slots and no tokens are left. */
    method Deinit()
      requires Valid()
      modifies this
      ensures Valid() && Contents() == [] && capacity == 0
      ensures tokens == old(tokens)
    {
      capacity := 0;
      used := 0;
    }
  }
}
