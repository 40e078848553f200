/**
 A reference reader for JSON texts: one function per grammar rule, on positions. It is
 sound and complete for the grammar of JsonGrammar, so what it returns is the one
 derivation of the text.
 */
module JsonReader {
  import opened Bytes
  import opened JsonGrammar

  datatype Read<+T> = Fail | Done(value: T, next: nat)

  function SpaceEnd(raw: bytes, i: nat): (j: nat)
    requires i <= |raw|
    ensures i <= j <= |raw| && AllSpace(raw[i..j]) && (j < |raw| ==> !IsSpace(raw[j]))
    decreases |raw| - i
  {
    if i < |raw| && IsSpace(raw[i]) then
      var j := SpaceEnd(raw, i + 1);
      assert raw[i..j] == [raw[i]] + raw[i + 1..j];
      j
    else i
  }

  function DigitsEnd(raw: bytes, i: nat): (j: nat)
    requires i <= |raw|
    ensures i <= j <= |raw| && AllDigits(raw[i..j]) && (j < |raw| ==> !IsDigit(raw[j]))
    decreases |raw| - i
  {
    if i < |raw| && IsDigit(raw[i]) then
      var j := DigitsEnd(raw, i + 1);
      assert raw[i..j] == [raw[i]] + raw[i + 1..j];
      j
    else i
  }

  /** The position after the closing quote, from a position inside a string. */
  function StringEnd(raw: bytes, i: nat): (r: Option<nat>)
    requires i <= |raw|
    ensures r.Some? ==> i < r.value <= |raw|
    decreases |raw| - i
  {
    if i >= |raw| then None
    else if raw[i] == QUOTE then Some(i + 1)
    else if raw[i] == BACKSLASH then
      if i + 1 >= |raw| then None
      else if raw[i + 1] == LOWER_U then
        if i + 6 <= |raw| && IsHex(raw[i + 2]) && IsHex(raw[i + 3]) && IsHex(raw[i + 4]) && IsHex(raw[i + 5])
        then StringEnd(raw, i + 6) else None
      else if IsSimpleEscape(raw[i + 1]) then StringEnd(raw, i + 2)
      else None
    else if raw[i] < 32 then None
    else StringEnd(raw, i + 1)
  }

  function ReadWhole(raw: bytes, i: nat): (r: Option<nat>)
    requires i <= |raw|
    ensures r.Some? ==> i < r.value <= |raw|
  {
    if i >= |raw| || !IsDigit(raw[i]) then None
    else if raw[i] == ZERO then Some(i + 1)
    else Some(DigitsEnd(raw, i))
  }

  /** An absent fraction is the empty one; a dot needs a digit after it. */
  function ReadFrac(raw: bytes, i: nat): (r: Read<bytes>)
    requires i <= |raw|
    ensures r.Done? ==> i <= r.next <= |raw|
  {
    if i < |raw| && raw[i] == DOT then
      if i + 1 < |raw| && IsDigit(raw[i + 1]) then Done(raw[i + 1..DigitsEnd(raw, i + 1)], DigitsEnd(raw, i + 1)) else Fail
    else Done([], i)
  }

  function ReadExp(raw: bytes, i: nat): (r: Read<ExpText>)
    requires i <= |raw|
    ensures r.Done? ==> i <= r.next <= |raw|
  {
    if i < |raw| && (raw[i] == LOWER_E || raw[i] == UPPER_E) then
      var signed := i + 1 < |raw| && (raw[i + 1] == PLUS || raw[i + 1] == MINUS);
      var k := if signed then i + 2 else i + 1;
      if k < |raw| && IsDigit(raw[k]) then
        Done(Exp(raw[i], raw[i + 1..k], raw[k..DigitsEnd(raw, k)]), DigitsEnd(raw, k))
      else Fail
    else Done(NoExp, i)
  }

  /** The number token at `i`, whatever its magnitude. */
  function ReadNumber(raw: bytes, i: nat): (r: Read<NumberText>)
    requires i < |raw|
    ensures r.Done? ==> i < r.next <= |raw|
  {
    var minus := raw[i] == MINUS;
    var start := if minus then i + 1 else i;
    match ReadWhole(raw, start)
    case None => Fail
    case Some(j) =>
      match ReadFrac(raw, j)
      case Fail => Fail
      case Done(frac, k) =>
        match ReadExp(raw, k)
        case Fail => Fail
        case Done(exp, next) => Done(NumberText(minus, raw[start..j], frac, exp), next)
  }

  predicate StartsNumber(c: byte) { c == MINUS || IsDigit(c) }

  function ReadWord(raw: bytes, i: nat, word: bytes): (r: Read<Cst>)
  {
    if At(raw, i, word) then Done(Word(word), i + |word|) else Fail
  }

  function ReadString(raw: bytes, i: nat): (r: Read<bytes>)
    requires i < |raw|
    ensures r.Done? ==> i + 1 < r.next <= |raw|
  {
    if raw[i] != QUOTE then Fail
    else match StringEnd(raw, i + 1)
         case None => Fail
         case Some(j) => Done(raw[i + 1..j - 1], j)
  }

  /** The value at `i`, inside `d` enclosing collections. */
  function ReadValue(raw: bytes, i: nat, d: nat): (r: Read<Cst>)
    requires i <= |raw|
    ensures r.Done? ==> i < r.next <= |raw|
    decreases |raw| - i, 1
  {
    if i >= |raw| then Fail
    else if raw[i] == LBRACE then ReadObject(raw, i, d)
    else if raw[i] == LBRACKET then ReadArray(raw, i, d)
    else if raw[i] == QUOTE then
      match ReadString(raw, i)
      case Fail => Fail
      case Done(chars, next) => Done(Str(chars), next)
    else if raw[i] == LOWER_T then ReadWord(raw, i, TRUE_WORD)
    else if raw[i] == LOWER_F then ReadWord(raw, i, FALSE_WORD)
    else if raw[i] == LOWER_N then ReadWord(raw, i, NULL_WORD)
    else if StartsNumber(raw[i]) then
      match ReadNumber(raw, i)
      case Fail => Fail
      case Done(n, next) => if IsNumber(n) && InRange(n) then Done(Number(n), next) else Fail
    else Fail
  }

  function ReadObject(raw: bytes, i: nat, d: nat): (r: Read<Cst>)
    requires i < |raw|
    ensures r.Done? ==> i < r.next <= |raw|
    decreases |raw| - i, 0
  {
    var j := SpaceEnd(raw, i + 1);
    if d >= MAX_DEPTH then Fail
    else if j < |raw| && raw[j] == RBRACE then Done(Object(raw[i + 1..j], []), j + 1)
    else match ReadMembers(raw, i + 1, d + 1)
         case Fail => Fail
         case Done(members, next) => Done(Object([], members), next)
  }

  function ReadArray(raw: bytes, i: nat, d: nat): (r: Read<Cst>)
    requires i < |raw|
    ensures r.Done? ==> i < r.next <= |raw|
    decreases |raw| - i, 0
  {
    var j := SpaceEnd(raw, i + 1);
    if d >= MAX_DEPTH then Fail
    else if j < |raw| && raw[j] == RBRACKET then Done(Array(raw[i + 1..j], []), j + 1)
    else match ReadItems(raw, i + 1, d + 1)
         case Fail => Fail
         case Done(items, next) => Done(Array([], items), next)
  }

  /** One array element and the space around it, up to the comma or bracket after it. */
  function ReadItem(raw: bytes, b: nat, d: nat): (r: Read<Item>)
    requires b <= |raw|
    ensures r.Done? ==> b < r.next <= |raw|
    decreases |raw| - b, 2
  {
    var i := SpaceEnd(raw, b);
    match ReadValue(raw, i, d)
    case Fail => Fail
    case Done(v, j) => Done(Item(raw[b..i], v, raw[j..SpaceEnd(raw, j)]), SpaceEnd(raw, j))
  }

  function ReadItems(raw: bytes, b: nat, d: nat): (r: Read<seq<Item>>)
    requires b <= |raw|
    ensures r.Done? ==> b < r.next <= |raw| && r.value != []
    decreases |raw| - b, 3
  {
    match ReadItem(raw, b, d)
    case Fail => Fail
    case Done(m, k) =>
      if k >= |raw| then Fail
      else if raw[k] == RBRACKET then Done([m], k + 1)
      else if raw[k] == COMMA then
        match ReadItems(raw, k + 1, d)
        case Fail => Fail
        case Done(rest, next) => Done([m] + rest, next)
      else Fail
  }

  /** The part of a member before its value: key, colon and the space around them. */
  function ReadKey(raw: bytes, b: nat): (r: Read<Member>)
    requires b <= |raw|
    ensures r.Done? ==> b < r.next <= |raw|
  {
    var i := SpaceEnd(raw, b);
    if i >= |raw| then Fail
    else match ReadString(raw, i)
         case Fail => Fail
         case Done(key, j) =>
           var c := SpaceEnd(raw, j);
           if c >= |raw| || raw[c] != COLON then Fail
           else
             var v := SpaceEnd(raw, c + 1);
             Done(Member(raw[b..i], key, raw[j..c], raw[c + 1..v], Word([]), []), v)
  }

  function ReadMember(raw: bytes, b: nat, d: nat): (r: Read<Member>)
    requires b <= |raw|
    ensures r.Done? ==> b < r.next <= |raw|
    decreases |raw| - b, 2
  {
    match ReadKey(raw, b)
    case Fail => Fail
    case Done(head, v) =>
      match ReadValue(raw, v, d)
      case Fail => Fail
      case Done(value, j) => Done(head.(value := value, after := raw[j..SpaceEnd(raw, j)]), SpaceEnd(raw, j))
  }

  function ReadMembers(raw: bytes, b: nat, d: nat): (r: Read<seq<Member>>)
    requires b <= |raw|
    ensures r.Done? ==> b < r.next <= |raw| && r.value != []
    decreases |raw| - b, 3
  {
    match ReadMember(raw, b, d)
    case Fail => Fail
    case Done(m, k) =>
      if k >= |raw| then Fail
      else if raw[k] == RBRACE then Done([m], k + 1)
      else if raw[k] == COMMA then
        match ReadMembers(raw, k + 1, d)
        case Fail => Fail
        case Done(rest, next) => Done([m] + rest, next)
      else Fail
  }

  /** The whole text: a value padded with space and nothing else. */
  function ReadDocument(raw: bytes): Option<Cst> {
    var r := ReadValue(raw, SpaceEnd(raw, 0), 0);
    if r.Done? && SpaceEnd(raw, r.next) == |raw| then Some(r.value) else None
  }
}
