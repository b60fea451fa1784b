/** Token values and their keyed hashes, as the services see them. */
module Tokens {
  import opened Wrappers

  type CodePoint = c: int | 0 <= c <= 0x10FFFF

  /** A token is a string of code points, lone surrogates included. */
  type Token = seq<CodePoint>

  /** UTF-8 encodes every string except one holding a lone surrogate. */
  predicate Encodable(token: Token) {
    forall c | c in token :: !(0xD800 <= c <= 0xDFFF)
  }

  /** The code points of a string that has no surrogates. */
  function CodePoints(s: string): (token: Token)
    ensures |token| == |s| && forall i | 0 <= i < |s| :: token[i] == s[i] as int
  {
    seq(|s|, i requires 0 <= i < |s| => s[i] as int)
  }

  /** HMAC-SHA256 under the service's one secret, taken as an injective function. */
  datatype TokenHash = Hash(token: Token)

  /** None stands for the UnicodeEncodeError of a token that has no encoding. */
  function GetTokenHash(token: Token): Option<TokenHash> {
    if Encodable(token) then Some(Hash(token)) else None
  }
}
