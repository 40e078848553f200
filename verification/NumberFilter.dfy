/** The byte filter that says whether float64 could blur a number of a document. */
module NumberFilter {
  import opened Bytes
  import opened JsonGrammar
  import opened JsonReader
  import opened JsonReaderSound
  import opened JsonReaderComplete

  const SAFE_DIGITS: int := 15
  const SAFE_EXPONENT: int := 300

  /** A literal past the width float64 is trusted with. */
  predicate Wide(n: NumberText)
    requires IsNumber(n)
  {
    |n.whole| + |n.frac| > 15 || WrittenExponent(n.exp) > 300 || WrittenExponent(n.exp) < -300
  }

  /** Every number of a derivation, shadowed members included, is narrow. */
  predicate AllNarrow(t: Cst)
    requires Wf(t)
  {
    match t
    case Word(_) => true
    case Str(_) => true
    case Number(n) => !Wide(n)
    case Array(_, items) => forall k :: 0 <= k < |items| ==> AllNarrow(items[k].value)
    case Object(_, members) => forall k :: 0 <= k < |members| ==> AllNarrow(members[k].value)
  }

  // ----- the scan, as a function -----

  /** Where the token scanner stands: counts so far, and whether it is past the e. */
  datatype Token = Token(digits: nat, exponent: nat, negative: bool, inExponent: bool)

  const START: Token := Token(0, 0, false, false)

  function GrowExponent(e: nat, c: byte): nat
    requires IsDigit(c)
  {
    if e <= SAFE_EXPONENT then e * 10 + (c - ZERO) as nat else e
  }

  /** One byte of a token, or None where the token ends. */
  function TokenStep(doc: bytes, i: nat, st: Token): Option<Token>
    requires 0 < i < |doc| || (i < |doc| && !st.inExponent)
  {
    var c := doc[i];
    if IsDigit(c) then
      if !st.inExponent then Some(st.(digits := st.digits + 1))
      else Some(st.(exponent := GrowExponent(st.exponent, c)))
    else if c == DOT then Some(st)
    else if (c == LOWER_E || c == UPPER_E) && !st.inExponent then Some(st.(inExponent := true))
    else if (c == PLUS || c == MINUS) && st.inExponent && (doc[i - 1] == LOWER_E || doc[i - 1] == UPPER_E) then
      Some(if c == MINUS then st.(negative := true) else st)
    else None
  }

  /** The end of the token and what it amounts to. */
  function TokenEnd(doc: bytes, i: nat, st: Token): (r: (nat, Token))
    requires i <= |doc| && (st.inExponent ==> i > 0)
    ensures i <= r.0 <= |doc|
    decreases |doc| - i
  {
    if i >= |doc| then (i, st)
    else match TokenStep(doc, i, st)
         case None => (i, st)
         case Some(next) => TokenEnd(doc, i + 1, next)
  }

  predicate TokenWide(st: Token) { st.digits > SAFE_DIGITS || st.exponent > SAFE_EXPONENT }

  /** Past a string's bytes: the position of the closing quote, or the end. */
  function StringSkip(doc: bytes, i: nat): (j: nat)
    ensures i <= j
    decreases if i < |doc| then |doc| - i else 0
  {
    if i >= |doc| || doc[i] == QUOTE then i
    else if doc[i] == BACKSLASH then StringSkip(doc, i + 2)
    else StringSkip(doc, i + 1)
  }

  /** The answer of the filter from position `i` on. */
  function NeedsFrom(doc: bytes, i: nat): bool
    decreases if i < |doc| then |doc| - i else 0
  {
    if i >= |doc| then false
    else if doc[i] == QUOTE then NeedsFrom(doc, StringSkip(doc, i + 1) + 1)
    else if IsDigit(doc[i]) then
      var (next, st) := TokenEnd(doc, i, START);
      TokenWide(st) || NeedsFrom(doc, if next > i then next else i + 1)
    else NeedsFrom(doc, i + 1)
  }

  method ScanNumberLiteral(doc: bytes, start: nat) returns (last: nat, wide: bool)
    requires start < |doc| && IsDigit(doc[start])
    ensures last + 1 == TokenEnd(doc, start, START).0 > start
    ensures wide == TokenWide(TokenEnd(doc, start, START).1)
  {
    var digits: nat, exponent: nat, sign, inExponent := 0, 0, 1, false;
    ghost var st := START;
    var i := start;
    while i < |doc|
      invariant start <= i <= |doc| && (i == start ==> !inExponent)
      invariant st == Token(digits, exponent, sign == -1, inExponent) && (sign == 1 || sign == -1)
      invariant TokenEnd(doc, i, st) == TokenEnd(doc, start, START)
    {
      var c := doc[i];
      st := match TokenStep(doc, i, st) case Some(t) => t case None => st;
      if IsDigit(c) {
        if !inExponent {
          digits := digits + 1;
        } else if exponent <= SAFE_EXPONENT {
          exponent := exponent * 10 + (c - ZERO) as nat;
        }
      } else if c == DOT {
      } else if (c == LOWER_E || c == UPPER_E) && !inExponent {
        inExponent := true;
      } else if (c == PLUS || c == MINUS) && inExponent && (doc[i - 1] == LOWER_E || doc[i - 1] == UPPER_E) {
        if c == MINUS { sign := -1; }
      } else {
        break;
      }
      i := i + 1;
    }
    assert TokenEnd(doc, i, st).0 == i;
    assert TokenStep(doc, start, START).Some?;
    var signed := exponent * sign;
    return i - 1, digits > SAFE_DIGITS || signed > SAFE_EXPONENT || signed < -SAFE_EXPONENT;
  }

  method DocumentNeedsExactNumbers(doc: bytes) returns (b: bool)
    ensures b == NeedsFrom(doc, 0)
  {
    var i := 0;
    while i < |doc|
      invariant NeedsFrom(doc, i) == NeedsFrom(doc, 0)
      decreases if i < |doc| then |doc| - i else 0
    {
      var c := doc[i];
      if c == QUOTE {
        ghost var open := i;
        i := i + 1;
        while i < |doc| && doc[i] != QUOTE
          invariant i > open && StringSkip(doc, i) == StringSkip(doc, open + 1)
          decreases if i < |doc| then |doc| - i else 0
        {
          if doc[i] == BACKSLASH { i := i + 1; }
          i := i + 1;
        }
      } else if IsDigit(c) {
        var last, wide := ScanNumberLiteral(doc, i);
        if wide { return true; }
        i := last;
      }
      i := i + 1;
    }
    return false;
  }

  // ----- over a well-formed document -----

  function GrowAll(e: nat, s: bytes): nat
    requires AllDigits(s)
    decreases |s|
  {
    if s == [] then e else GrowAll(GrowExponent(e, s[0]), s[1..])
  }

  lemma {:induction false} GrowLast(e: nat, s: bytes)
    requires AllDigits(s) && s != []
    ensures GrowAll(e, s) == GrowExponent(GrowAll(e, s[..|s| - 1]), s[|s| - 1])
    decreases |s|
  {
    if |s| > 1 {
      GrowLast(GrowExponent(e, s[0]), s[1..]);
      assert s[1..][..|s| - 2] == s[..|s| - 1][1..];
    }
  }

  /** The bounded accumulator passes 300 exactly when the exponent does. */
  lemma {:induction false} GrowDecides(s: bytes)
    requires AllDigits(s)
    ensures var e := GrowAll(0, s); (e > SAFE_EXPONENT <==> DigitsValue(s) > SAFE_EXPONENT) && (e <= SAFE_EXPONENT ==> e == DigitsValue(s))
  {
    if s != [] {
      GrowLast(0, s);
      GrowDecides(s[..|s| - 1]);
    }
  }

  lemma {:induction false} TokenDigits(doc: bytes, i: nat, s: bytes, st: Token)
    requires At(doc, i, s) && AllDigits(s) && (st.inExponent ==> i > 0)
    ensures TokenEnd(doc, i, st) ==
            TokenEnd(doc, i + |s|, if st.inExponent then st.(exponent := GrowAll(st.exponent, s))
                                   else st.(digits := st.digits + |s|))
    decreases |s|
  {
    if s != [] {
      AtConcat(doc, i, [s[0]], s[1..]);
      assert [s[0]] + s[1..] == s;
      AtFirst(doc, i, s);
      TokenDigits(doc, i + 1, s[1..], TokenStep(doc, i, st).value);
    }
  }

  lemma TokenByte(doc: bytes, i: nat, st: Token)
    requires i < |doc| && (st.inExponent ==> i > 0) && TokenStep(doc, i, st).Some?
    ensures TokenEnd(doc, i, st) == TokenEnd(doc, i + 1, TokenStep(doc, i, st).value)
  {
  }

  lemma TokenStops(doc: bytes, j: nat, st: Token)
    requires 0 < j <= |doc| && Follow(doc, j)
    ensures TokenEnd(doc, j, st) == (j, st)
  {
  }

  lemma TokenFrac(doc: bytes, j: nat, frac: bytes, st: Token)
    requires At(doc, j, FracSpelling(frac)) && AllDigits(frac) && !st.inExponent
    ensures TokenEnd(doc, j, st) == TokenEnd(doc, j + |FracSpelling(frac)|, st.(digits := st.digits + |frac|))
  {
    if frac != [] {
      AtConcat(doc, j, [DOT], frac);
      AtFirst(doc, j, [DOT]);
      TokenByte(doc, j, st);
      TokenDigits(doc, j + 1, frac, st);
    }
  }

  lemma TokenExp(doc: bytes, k: nat, exp: ExpText, st: Token)
    requires k > 0 && IsExp(exp) && At(doc, k, ExpSpelling(exp)) && !st.inExponent && !st.negative && st.exponent == 0
    requires Follow(doc, k + |ExpSpelling(exp)|)
    ensures TokenEnd(doc, k, st).0 == k + |ExpSpelling(exp)|
    ensures TokenEnd(doc, k, st).1.digits == st.digits
    ensures TokenEnd(doc, k, st).1.exponent == if exp.Exp? then GrowAll(0, exp.digits) else 0
  {
    hide TokenEnd, GrowAll, At, AllDigits;
    match exp
    case NoExp =>
      AtEnd(doc, k, ExpSpelling(exp));
      TokenStops(doc, k, st);
    case Exp(letter, sign, digits) =>
      AtConcat(doc, k, [letter], sign + digits);
      AtConcat(doc, k + 1, sign, digits);
      AtFirst(doc, k, [letter]);
      TokenByte(doc, k, st);
      var st1 := st.(inExponent := true);
      var st2 := if sign == [MINUS] then st1.(negative := true) else st1;
      if sign != [] {
        AtFirst(doc, k + 1, sign);
        TokenByte(doc, k + 1, st1);
      }
      TokenDigits(doc, k + 1 + |sign|, digits, st2);
      TokenStops(doc, k + 1 + |sign| + |digits|, st2.(exponent := GrowAll(0, digits)));
  }

  /** The token scan reads a literal's digits whole and finds it wide when it is. */
  lemma TokenOfNumber(n: NumberText, doc: bytes, i: nat)
    requires IsNumber(n) && At(doc, i, n.whole + (FracSpelling(n.frac) + ExpSpelling(n.exp)))
    requires Follow(doc, i + |n.whole + (FracSpelling(n.frac) + ExpSpelling(n.exp))|)
    ensures i < |doc| && IsDigit(doc[i])
    ensures var r := TokenEnd(doc, i, START);
            r.0 == i + |n.whole + (FracSpelling(n.frac) + ExpSpelling(n.exp))| && (TokenWide(r.1) <==> Wide(n))
  {
    hide TokenEnd, FracSpelling, ExpSpelling, At, Follow;
    AtConcat(doc, i, n.whole, FracSpelling(n.frac) + ExpSpelling(n.exp));
    var j := i + |n.whole|;
    AtConcat(doc, j, FracSpelling(n.frac), ExpSpelling(n.exp));
    AtFirst(doc, i, n.whole);
    TokenDigits(doc, i, n.whole, START);
    TokenFrac(doc, j, n.frac, START.(digits := |n.whole|));
    TokenExp(doc, j + |FracSpelling(n.frac)|, n.exp, START.(digits := |n.whole| + |n.frac|));
    if n.exp.Exp? { GrowDecides(n.exp.digits); }
  }

  lemma NeedsByte(raw: bytes, i: nat)
    requires i < |raw| && raw[i] != QUOTE && !IsDigit(raw[i])
    ensures NeedsFrom(raw, i) == NeedsFrom(raw, i + 1)
  {
  }

  lemma {:induction false} NeedsPlain(raw: bytes, i: nat, s: bytes)
    requires At(raw, i, s) && forall k :: 0 <= k < |s| ==> s[k] != QUOTE && !IsDigit(s[k])
    ensures NeedsFrom(raw, i) == NeedsFrom(raw, i + |s|)
    decreases |s|
  {
    hide NeedsFrom;
    if s != [] {
      AtConcat(raw, i, [s[0]], s[1..]);
      assert [s[0]] + s[1..] == s;
      AtFirst(raw, i, s);
      NeedsByte(raw, i);
      NeedsPlain(raw, i + 1, s[1..]);
    }
  }

  lemma {:induction false} SkipChars(raw: bytes, i: nat, chars: bytes)
    requires IsChars(chars) && At(raw, i, chars) && At(raw, i + |chars|, [QUOTE])
    ensures StringSkip(raw, i) == i + |chars|
    decreases |chars|
  {
    hide At;
    AtFirst(raw, i + |chars|, [QUOTE]);
    if chars != [] {
      AtFirst(raw, i, chars);
      var step := if chars[0] == BACKSLASH then 2 else 1;
      assert chars[..step] + chars[step..] == chars;
      AtConcat(raw, i, chars[..step], chars[step..]);
      if chars[0] == BACKSLASH && chars[1] == LOWER_U {
        var t := chars[2..];
        assert chars[6..] == t[4..] && t[..4] + t[4..] == t;
        AtConcat(raw, i + 2, t[..4], t[4..]);
        SkipHex(raw, i + 2, t[..4]);
        SkipChars(raw, i + 6, t[4..]);
      } else {
        SkipChars(raw, i + step, chars[step..]);
      }
    }
  }

  lemma {:induction false} SkipHex(raw: bytes, i: nat, s: bytes)
    requires At(raw, i, s) && forall k :: 0 <= k < |s| ==> IsHex(s[k])
    ensures StringSkip(raw, i) == StringSkip(raw, i + |s|)
    decreases |s|
  {
    if s != [] {
      AtFirst(raw, i, s);
      assert [s[0]] + s[1..] == s;
      AtConcat(raw, i, [s[0]], s[1..]);
      SkipHex(raw, i + 1, s[1..]);
    }
  }

  lemma NeedsString(raw: bytes, i: nat, chars: bytes)
    requires IsChars(chars) && At(raw, i, Quoted(chars))
    ensures NeedsFrom(raw, i) == NeedsFrom(raw, i + |Quoted(chars)|)
  {
    AtConcat(raw, i, [QUOTE], chars + [QUOTE]);
    AtConcat(raw, i + 1, chars, [QUOTE]);
    AtFirst(raw, i, [QUOTE]);
    SkipChars(raw, i + 1, chars);
  }

  lemma NeedsNumber(raw: bytes, i: nat, n: NumberText)
    requires IsNumber(n) && At(raw, i, NumberSpelling(n)) && Follow(raw, i + |NumberSpelling(n)|)
    ensures NeedsFrom(raw, i) <==> Wide(n) || NeedsFrom(raw, i + |NumberSpelling(n)|)
  {
    hide TokenEnd, At, Wide, IsNumber, FracSpelling, ExpSpelling;
    var tail := n.whole + (FracSpelling(n.frac) + ExpSpelling(n.exp));
    AtConcat(raw, i, MinusSpelling(n.minus), tail);
    if n.minus {
      AtFirst(raw, i, MinusSpelling(n.minus));
      NeedsByte(raw, i);
    }
    TokenOfNumber(n, raw, i + |MinusSpelling(n.minus)|);
  }

  lemma {:induction false} NeedsValue(t: Cst, raw: bytes, i: nat)
    requires Wf(t) && At(raw, i, Text(t)) && Follow(raw, i + |Text(t)|)
    ensures NeedsFrom(raw, i) <==> !AllNarrow(t) || NeedsFrom(raw, i + |Text(t)|)
    decreases t, 1
  {
    hide NeedsFrom, At, Wide, InRange, IsNumber, NumberSpelling;
    match t
    case Word(w) => NeedsPlain(raw, i, w);
    case Number(n) => NeedsNumber(raw, i, n);
    case Str(chars) => NeedsString(raw, i, chars);
    case Array(pad, items) =>
      var body := if items == [] then pad else ItemsText(items);
      NeedsBracket(raw, i, LBRACKET, body, RBRACKET);
      if items == [] { NeedsPlain(raw, i + 1, pad); } else { NeedsItems(items, raw, i + 1); }
    case Object(pad, members) =>
      var body := if members == [] then pad else MembersText(members);
      NeedsBracket(raw, i, LBRACE, body, RBRACE);
      if members == [] { NeedsPlain(raw, i + 1, pad); } else { NeedsMembers(members, raw, i + 1); }
  }

  lemma NeedsBracket(raw: bytes, i: nat, open: byte, body: bytes, close: byte)
    requires At(raw, i, [open] + (body + [close]))
    requires open != QUOTE && !IsDigit(open) && close != QUOTE && !IsDigit(close)
    ensures At(raw, i + 1, body) && i + 1 + |body| < |raw| && raw[i + 1 + |body|] == close
    ensures NeedsFrom(raw, i) == NeedsFrom(raw, i + 1)
    ensures NeedsFrom(raw, i + 1 + |body|) == NeedsFrom(raw, i + |[open] + (body + [close])|)
  {
    hide NeedsFrom;
    AtBody(raw, i, open, body, close);
    AtFirst(raw, i, [open] + (body + [close]));
    NeedsByte(raw, i);
    NeedsByte(raw, i + 1 + |body|);
  }

  /** A value with space after it, before a byte that may follow a value. */
  lemma {:induction false} NeedsPadded(t: Cst, after: bytes, raw: bytes, i: nat)
    requires Wf(t) && AllSpace(after) && At(raw, i, Text(t) + after) && Follow(raw, i + |Text(t) + after|)
    ensures NeedsFrom(raw, i) <==> !AllNarrow(t) || NeedsFrom(raw, i + |Text(t) + after|)
    decreases t, 2
  {
    hide NeedsFrom, At, AllNarrow, Text, Wf;
    AtConcat(raw, i, Text(t), after);
    if after != [] { AtFirst(raw, i + |Text(t)|, after); }
    NeedsValue(t, raw, i);
    NeedsPlain(raw, i + |Text(t)|, after);
  }

  lemma {:induction false} NeedsItems(items: seq<Item>, raw: bytes, b: nat)
    requires items != [] && At(raw, b, ItemsText(items)) && Follow(raw, b + |ItemsText(items)|)
    requires forall k :: 0 <= k < |items| ==> AllSpace(items[k].before) && AllSpace(items[k].after) && Wf(items[k].value)
    ensures NeedsFrom(raw, b) <==>
            !(forall k :: 0 <= k < |items| ==> AllNarrow(items[k].value)) || NeedsFrom(raw, b + |ItemsText(items)|)
    decreases items, 0
  {
    hide NeedsFrom, At, AllNarrow, Text, Wf, AllSpace;
    var m := items[0];
    var k := b + |ItemText(m)|;
    if |items| > 1 {
      AtConcat(raw, b, ItemText(m), [COMMA] + ItemsText(items[1..]));
      AtConcat(raw, k, [COMMA], ItemsText(items[1..]));
      AtFirst(raw, k, [COMMA]);
      NeedsByte(raw, k);
      NeedsItems(items[1..], raw, k + 1);
    }
    AtConcat(raw, b, m.before, Text(m.value) + m.after);
    NeedsSpace(raw, b, m.before);
    NeedsPadded(m.value, m.after, raw, b + |m.before|);
  }

  lemma NeedsSpace(raw: bytes, i: nat, s: bytes)
    requires At(raw, i, s) && AllSpace(s)
    ensures NeedsFrom(raw, i) == NeedsFrom(raw, i + |s|)
  {
    NeedsPlain(raw, i, s);
  }

  lemma NeedsKey(m: Member, raw: bytes, b: nat)
    requires GoodKey(m) && At(raw, b, KeyText(m))
    ensures NeedsFrom(raw, b) == NeedsFrom(raw, b + |KeyText(m)|)
  {
    hide NeedsFrom, At, AllSpace, IsChars;
    var i := b + |m.before|;
    AtConcat(raw, b, m.before, Quoted(m.key) + (m.preColon + ([COLON] + m.postColon)));
    AtConcat(raw, i, Quoted(m.key), m.preColon + ([COLON] + m.postColon));
    var j := i + |Quoted(m.key)|;
    AtConcat(raw, j, m.preColon, [COLON] + m.postColon);
    var c := j + |m.preColon|;
    AtConcat(raw, c, [COLON], m.postColon);
    AtFirst(raw, c, [COLON]);
    NeedsSpace(raw, b, m.before);
    NeedsString(raw, i, m.key);
    NeedsSpace(raw, j, m.preColon);
    NeedsByte(raw, c);
    NeedsSpace(raw, c + 1, m.postColon);
  }

  lemma {:induction false} NeedsMembers(members: seq<Member>, raw: bytes, b: nat)
    requires members != [] && At(raw, b, MembersText(members)) && Follow(raw, b + |MembersText(members)|)
    requires forall k :: 0 <= k < |members| ==> GoodKey(members[k]) && AllSpace(members[k].after) && Wf(members[k].value)
    ensures NeedsFrom(raw, b) <==>
            !(forall k :: 0 <= k < |members| ==> AllNarrow(members[k].value)) || NeedsFrom(raw, b + |MembersText(members)|)
    decreases members, 0
  {
    hide NeedsFrom, At, AllNarrow, Text, Wf, AllSpace, GoodKey, KeyText;
    var m := members[0];
    var k := b + |MemberText(m)|;
    if |members| > 1 {
      AtConcat(raw, b, MemberText(m), [COMMA] + MembersText(members[1..]));
      AtConcat(raw, k, [COMMA], MembersText(members[1..]));
      AtFirst(raw, k, [COMMA]);
      NeedsByte(raw, k);
      NeedsMembers(members[1..], raw, k + 1);
    }
    MemberTextSplit(m);
    AtConcat(raw, b, KeyText(m), Text(m.value) + m.after);
    NeedsKey(m, raw, b);
    NeedsPadded(m.value, m.after, raw, b + |KeyText(m)|);
  }

  /** On every JSON text the filter answers exactly whether some literal in it is wide. */
  lemma FilterIsExact(before: bytes, t: Cst, after: bytes, raw: bytes)
    requires IsDocument(before, t, after, raw)
    ensures NeedsFrom(raw, 0) <==> !AllNarrow(t)
  {
    hide At, AllNarrow, Text, Wf, AllSpace, Fits;
    var i := |before|;
    assert raw == before + (Text(t) + after);
    assert raw[0..|raw|] == raw;
    assert At(raw, 0, before + (Text(t) + after)) by { WholeAt(raw); }
    AtConcat(raw, 0, before, Text(t) + after);
    NeedsSpace(raw, 0, before);
    NeedsPadded(t, after, raw, i);
  }

  lemma WholeAt(raw: bytes)
    ensures At(raw, 0, raw)
  {
  }
}
