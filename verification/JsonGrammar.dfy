/**
 The grammar of a JSON text as RFC 8259 sections 2 to 7 give it, written as a
 generator: a derivation keeps every byte, `Text` spells it out, and `Decode` is the
 value it denotes.
 */
module JsonGrammar {
  import opened Bytes

  /** encoding/json refuses a document nested deeper than this. */
  const MAX_DEPTH: nat := 10000

  datatype ExpText = NoExp | Exp(letter: byte, sign: bytes, digits: bytes)

  /** A number literal, section 6. An empty `frac` is an absent fraction. */
  datatype NumberText = NumberText(minus: bool, whole: bytes, frac: bytes, exp: ExpText)

  datatype Item = Item(before: bytes, value: Cst, after: bytes)

  datatype Member = Member(before: bytes, key: bytes, preColon: bytes, postColon: bytes, value: Cst, after: bytes)

  /** A derivation. `pad` is the space inside an empty collection. */
  datatype Cst =
    | Word(word: bytes)
    | Number(number: NumberText)
    | Str(chars: bytes)
    | Array(pad: bytes, items: seq<Item>)
    | Object(pad: bytes, members: seq<Member>)

  // ----- spelling -----

  function ExpSpelling(e: ExpText): bytes {
    match e
    case NoExp => []
    case Exp(letter, sign, digits) => [letter] + (sign + digits)
  }

  function FracSpelling(frac: bytes): bytes {
    if frac == [] then [] else [DOT] + frac
  }

  function MinusSpelling(minus: bool): bytes {
    if minus then [MINUS] else []
  }

  function NumberSpelling(n: NumberText): bytes {
    MinusSpelling(n.minus) + (n.whole + (FracSpelling(n.frac) + ExpSpelling(n.exp)))
  }

  function Quoted(chars: bytes): bytes {
    [QUOTE] + (chars + [QUOTE])
  }

  function Text(t: Cst): bytes
    decreases t, 1
  {
    match t
    case Word(w) => w
    case Number(n) => NumberSpelling(n)
    case Str(chars) => Quoted(chars)
    case Array(pad, items) => [LBRACKET] + ((if items == [] then pad else ItemsText(items)) + [RBRACKET])
    case Object(pad, members) => [LBRACE] + ((if members == [] then pad else MembersText(members)) + [RBRACE])
  }

  function ItemText(m: Item): bytes
    decreases m, 2
  {
    m.before + (Text(m.value) + m.after)
  }

  function ItemsText(items: seq<Item>): bytes
    requires items != []
    decreases items, 0
  {
    if |items| == 1 then ItemText(items[0]) else ItemText(items[0]) + ([COMMA] + ItemsText(items[1..]))
  }

  function MemberText(m: Member): bytes
    decreases m, 2
  {
    m.before + (Quoted(m.key) + (m.preColon + ([COLON] + (m.postColon + (Text(m.value) + m.after)))))
  }

  function MembersText(members: seq<Member>): bytes
    requires members != []
    decreases members, 0
  {
    if |members| == 1 then MemberText(members[0])
    else MemberText(members[0]) + ([COMMA] + MembersText(members[1..]))
  }

  // ----- what the grammar admits -----

  predicate IsExp(e: ExpText) {
    e.Exp? ==> (e.letter == LOWER_E || e.letter == UPPER_E)
               && e.sign in {[], [PLUS], [MINUS]} && e.digits != [] && AllDigits(e.digits)
  }

  predicate IsNumber(n: NumberText) {
    && n.whole != [] && AllDigits(n.whole) && (n.whole[0] == ZERO ==> |n.whole| == 1)
    && AllDigits(n.frac)
    && IsExp(n.exp)
  }

  /** Section 7: unescaped bytes, two-character escapes, and \u with four hex digits. */
  predicate IsChars(s: bytes) {
    if s == [] then true
    else if s[0] == BACKSLASH then
      |s| >= 2 &&
      (if s[1] == LOWER_U then
         |s| >= 6 && IsHex(s[2]) && IsHex(s[3]) && IsHex(s[4]) && IsHex(s[5]) && IsChars(s[6..])
       else IsSimpleEscape(s[1]) && IsChars(s[2..]))
    else s[0] >= 32 && s[0] != QUOTE && IsChars(s[1..])
  }

  /** Well formed, and every number one that a float64 decode does not refuse. */
  predicate Wf(t: Cst) {
    match t
    case Word(w) => w in {TRUE_WORD, FALSE_WORD, NULL_WORD}
    case Number(n) => IsNumber(n) && InRange(n)
    case Str(chars) => IsChars(chars)
    case Array(pad, items) =>
      AllSpace(pad) && (items != [] ==> pad == [])
      && forall k :: 0 <= k < |items| ==> AllSpace(items[k].before) && AllSpace(items[k].after) && Wf(items[k].value)
    case Object(pad, members) =>
      AllSpace(pad) && (members != [] ==> pad == [])
      && forall k :: 0 <= k < |members| ==>
           && AllSpace(members[k].before) && AllSpace(members[k].preColon)
           && AllSpace(members[k].postColon) && AllSpace(members[k].after)
           && IsChars(members[k].key) && Wf(members[k].value)
  }

  /** The nesting limit, for a value found at depth `d`. */
  predicate Fits(t: Cst, d: nat) {
    match t
    case Array(_, items) => d < MAX_DEPTH && forall k :: 0 <= k < |items| ==> Fits(items[k].value, d + 1)
    case Object(_, members) => d < MAX_DEPTH && forall k :: 0 <= k < |members| ==> Fits(members[k].value, d + 1)
    case _ => true
  }

  lemma FitsShallower(t: Cst, d: nat, e: nat)
    requires Fits(t, d) && e <= d
    ensures Fits(t, e)
    decreases t
  {
    match t
    case Array(_, items) =>
      forall k | 0 <= k < |items| ensures Fits(items[k].value, e + 1) { FitsShallower(items[k].value, d + 1, e + 1); }
    case Object(_, members) =>
      forall k | 0 <= k < |members| ensures Fits(members[k].value, e + 1) { FitsShallower(members[k].value, d + 1, e + 1); }
    case _ =>
  }

  /** `raw` is a JSON text: one value, padded with white space, section 2. */
  ghost predicate IsDocument(before: bytes, t: Cst, after: bytes, raw: bytes) {
    raw == before + Text(t) + after && AllSpace(before) && AllSpace(after) && Wf(t) && Fits(t, 0)
  }

  // ----- number values -----

  function DigitsValue(s: bytes): nat
    requires AllDigits(s)
  {
    if s == [] then 0 else DigitsValue(s[..|s| - 1]) * 10 + (s[|s| - 1] - ZERO) as nat
  }

  function Pow(b: nat, e: nat): (r: nat)
    ensures b > 0 ==> r > 0
  {
    if e == 0 then 1 else b * Pow(b, e - 1)
  }

  /** The integer spelled by the digits before the exponent. */
  function Coefficient(n: NumberText): nat
    requires IsNumber(n)
  {
    DigitsValue(n.whole + n.frac)
  }

  function WrittenExponent(e: ExpText): int
    requires IsExp(e)
  {
    match e
    case NoExp => 0
    case Exp(_, sign, digits) => if sign == [MINUS] then -(DigitsValue(digits) as int) else DigitsValue(digits)
  }

  /** The literal denotes (-1)^minus * Coefficient * 10^Scale. */
  function Scale(n: NumberText): int
    requires IsNumber(n)
  {
    WrittenExponent(n.exp) - |n.frac|
  }

  /** c * 10^e < m, for a natural m. */
  predicate ScaledBelow(c: nat, e: int, m: nat) {
    if e >= 0 then c * Pow(10, e) < m else c < m * Pow(10, -e)
  }

  /** Half way from the largest float64 to 2^1024; from here on a decode overflows. */
  function OverflowBound(): nat { (Pow(2, 54) - 1) * Pow(2, 970) }

  /** The decoder's range test, with the written exponent read in full. */
  predicate InRange(n: NumberText)
    requires IsNumber(n)
  {
    ScaledBelow(Coefficient(n), Scale(n), OverflowBound())
  }

  // ----- values -----

  /** A decoded document, over whatever carries its numbers. */
  datatype Json<N> =
    | JNull
    | JBool(b: bool)
    | JNum(n: N)
    | JStr(s: bytes)
    | JArr(elems: seq<Json<N>>)
    | JObj(members: map<bytes, Json<N>>)

  /** Printable ASCII with no escape, which is its own decoding. */
  predicate Plain(chars: bytes) {
    forall k :: 0 <= k < |chars| ==> 32 <= chars[k] < 128 && chars[k] != BACKSLASH
  }

  /** What is assumed of string decoding: plain text is copied through. */
  ghost predicate CopiesPlain(unquote: bytes -> bytes) {
    forall chars :: Plain(chars) ==> unquote(chars) == chars
  }

  /** The value of a derivation; a repeated key keeps its last member. */
  function Decode(t: Cst, unquote: bytes -> bytes): Json<NumberText>
    decreases t, 1
  {
    match t
    case Word(w) => if w == NULL_WORD then JNull else JBool(w == TRUE_WORD)
    case Number(n) => JNum(n)
    case Str(chars) => JStr(unquote(chars))
    case Array(_, items) => JArr(seq(|items|, k requires 0 <= k < |items| => Decode(items[k].value, unquote)))
    case Object(_, members) => JObj(DecodeMembers(members, unquote))
  }

  function DecodeMembers(members: seq<Member>, unquote: bytes -> bytes): map<bytes, Json<NumberText>>
    decreases members, 0
  {
    if members == [] then map[]
    else
      var last := members[|members| - 1];
      DecodeMembers(members[..|members| - 1], unquote)[unquote(last.key) := Decode(last.value, unquote)]
  }
}
