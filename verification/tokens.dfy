/** Keys and values are tokens: non-empty and free of whitespace. */
module Tokens {

  /** Python's `str.isspace` on one code point: the characters whose
      bidirectional class is WS, B or S, or whose category is Zs. */
  predicate IsSpace(c: char) {
    || ('\t' <= c <= '\r')
    || ('\U{1C}' <= c <= '\U{1F}')
    || c == ' '
    || c == '\U{85}'
    || c == '\U{A0}'
    || c == '\U{1680}'
    || ('\U{2000}' <= c <= '\U{200A}')
    || c == '\U{2028}'
    || c == '\U{2029}'
    || c == '\U{202F}'
    || c == '\U{205F}'
    || c == '\U{3000}'
  }

  /** `any(c.isspace() for c in s)`, scanning from the front. */
  function HasSpace(s: string): (b: bool)
    ensures b <==> exists i :: 0 <= i < |s| && IsSpace(s[i])
    decreases |s|
  {
    if |s| == 0 then false
    else IsSpace(s[0]) || HasSpace(s[1..])
  }

  /** `valid_token`: the token is non-empty and holds no whitespace. */
  function ValidToken(t: string): (b: bool)
    ensures b <==> |t| > 0 && forall i :: 0 <= i < |t| ==> !IsSpace(t[i])
    ensures b ==> ' ' !in t && '\n' !in t
  {
    |t| > 0 && !HasSpace(t)
  }
}
