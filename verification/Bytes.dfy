/** Bytes, the alphabet of a JSON document, and positions inside a byte string. */
module Bytes {
  type byte = b: int | 0 <= b < 256
  type bytes = seq<byte>

  datatype Option<+T> = None | Some(value: T)

  const QUOTE: byte := 34
  const PLUS: byte := 43
  const COMMA: byte := 44
  const MINUS: byte := 45
  const DOT: byte := 46
  const SLASH: byte := 47
  const ZERO: byte := 48
  const NINE: byte := 57
  const COLON: byte := 58
  const UPPER_E: byte := 69
  const LBRACKET: byte := 91
  const BACKSLASH: byte := 92
  const RBRACKET: byte := 93
  const LOWER_E: byte := 101
  const LOWER_F: byte := 102
  const LOWER_N: byte := 110
  const LOWER_T: byte := 116
  const LOWER_U: byte := 117
  const LBRACE: byte := 123
  const RBRACE: byte := 125

  const TRUE_WORD: bytes := [116, 114, 117, 101]
  const FALSE_WORD: bytes := [102, 97, 108, 115, 101]
  const NULL_WORD: bytes := [110, 117, 108, 108]

  predicate IsDigit(c: byte) { ZERO <= c <= NINE }

  predicate IsHex(c: byte) { IsDigit(c) || 97 <= c <= 102 || 65 <= c <= 70 }

  predicate IsSpace(c: byte) { c == 32 || c == 9 || c == 10 || c == 13 }

  /** The letters that make a two-character escape: " \ / b f n r t. */
  predicate IsSimpleEscape(c: byte) { c in {34, 92, 47, 98, 102, 110, 114, 116} }

  predicate AllDigits(s: bytes) { forall k :: 0 <= k < |s| ==> IsDigit(s[k]) }

  predicate AllSpace(s: bytes) { forall k :: 0 <= k < |s| ==> IsSpace(s[k]) }

  /** `s` occurs in `raw` at position `i`. */
  predicate At(raw: bytes, i: nat, s: bytes) {
    i + |s| <= |raw| && raw[i..i + |s|] == s
  }

  lemma AtConcat(raw: bytes, i: nat, a: bytes, b: bytes)
    ensures At(raw, i, a + b) <==> At(raw, i, a) && At(raw, i + |a|, b)
  {
    if At(raw, i, a + b) {
      assert raw[i..i + |a|] == (a + b)[..|a|];
      assert raw[i + |a|..i + |a| + |b|] == (a + b)[|a|..];
    }
    if At(raw, i, a) && At(raw, i + |a|, b) {
      assert raw[i..i + |a + b|] == raw[i..i + |a|] + raw[i + |a|..i + |a| + |b|];
    }
  }

  lemma AtByte(raw: bytes, i: nat)
    requires i < |raw|
    ensures At(raw, i, [raw[i]])
  {
  }

  lemma AtEmpty(raw: bytes, i: nat)
    requires i <= |raw|
    ensures At(raw, i, [])
  {
  }

  lemma AtSlice(raw: bytes, i: nat, j: nat)
    requires i <= j <= |raw|
    ensures At(raw, i, raw[i..j])
  {
  }
}
