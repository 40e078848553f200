/** The reference reader returns every derivation there is. */
module JsonReaderComplete {
  import opened Bytes
  import opened JsonGrammar
  import opened JsonReader
  import opened JsonReaderSound

  /** What may come after a value in a well-formed text. */
  predicate Follow(raw: bytes, j: nat) {
    j >= |raw| || IsSpace(raw[j]) || raw[j] == COMMA || raw[j] == RBRACKET || raw[j] == RBRACE
  }

  lemma SpaceEndAt(raw: bytes, i: nat, s: bytes)
    requires At(raw, i, s) && AllSpace(s)
    requires i + |s| == |raw| || !IsSpace(raw[i + |s|])
    ensures SpaceEnd(raw, i) == i + |s|
  {
    hide SpaceEnd;
    var j := SpaceEnd(raw, i);
    assert forall k {:trigger raw[k]} :: i <= k < i + |s| ==> raw[k] == s[k - i];
    assert forall k {:trigger raw[k]} :: i <= k < j ==> raw[k] == raw[i..j][k - i];
  }

  lemma DigitsEndAt(raw: bytes, i: nat, s: bytes)
    requires At(raw, i, s) && AllDigits(s)
    requires i + |s| == |raw| || !IsDigit(raw[i + |s|])
    ensures DigitsEnd(raw, i) == i + |s|
  {
    hide DigitsEnd;
    var j := DigitsEnd(raw, i);
    assert forall k {:trigger raw[k]} :: i <= k < i + |s| ==> raw[k] == s[k - i];
    assert forall k {:trigger raw[k]} :: i <= k < j ==> raw[k] == raw[i..j][k - i];
  }

  lemma AtFirst(raw: bytes, i: nat, s: bytes)
    requires At(raw, i, s) && s != []
    ensures i < |raw| && raw[i] == s[0]
  {
    assert raw[i..i + |s|][0] == raw[i];
  }

  lemma {:induction false} StringEndComplete(raw: bytes, i: nat, chars: bytes)
    requires IsChars(chars) && At(raw, i, chars) && At(raw, i + |chars|, [QUOTE])
    ensures StringEnd(raw, i) == Some(i + |chars| + 1)
    decreases |chars|
  {
    AtFirst(raw, i + |chars|, [QUOTE]);
    if chars != [] {
      assert forall k :: 0 <= k < |chars| ==> chars[k] == raw[i + k];
      var step := if chars[0] != BACKSLASH then 1 else if chars[1] == LOWER_U then 6 else 2;
      assert raw[i + step..i + |chars|] == chars[step..];
      StringEndComplete(raw, i + step, chars[step..]);
      assert raw[i] == chars[0];
      if step > 1 {
        assert raw[i + 1] == chars[1];
      }
      if step == 6 {
        assert raw[i + 2] == chars[2] && raw[i + 3] == chars[3] && raw[i + 4] == chars[4] && raw[i + 5] == chars[5];
      }
    }
  }

  lemma ReadStringComplete(raw: bytes, i: nat, chars: bytes)
    requires IsChars(chars) && At(raw, i, Quoted(chars))
    ensures i < |raw| && raw[i] == QUOTE && ReadString(raw, i) == Done(chars, i + |Quoted(chars)|)
  {
    AtConcat(raw, i, [QUOTE], chars + [QUOTE]);
    AtConcat(raw, i + 1, chars, [QUOTE]);
    AtFirst(raw, i, [QUOTE]);
    StringEndComplete(raw, i + 1, chars);
  }

  lemma ReadWholeComplete(raw: bytes, i: nat, whole: bytes)
    requires whole != [] && AllDigits(whole) && (whole[0] == ZERO ==> |whole| == 1) && At(raw, i, whole)
    requires i + |whole| == |raw| || !IsDigit(raw[i + |whole|])
    ensures ReadWhole(raw, i) == Some(i + |whole|)
  {
    AtFirst(raw, i, whole);
    DigitsEndAt(raw, i, whole);
  }

  lemma ReadFracComplete(raw: bytes, i: nat, frac: bytes)
    requires AllDigits(frac) && At(raw, i, FracSpelling(frac))
    requires var j := i + |FracSpelling(frac)|; j == |raw| || (!IsDigit(raw[j]) && raw[j] != DOT)
    ensures ReadFrac(raw, i) == Done(frac, i + |FracSpelling(frac)|)
  {
    if frac != [] {
      AtConcat(raw, i, [DOT], frac);
      AtFirst(raw, i, [DOT]);
      AtFirst(raw, i + 1, frac);
      DigitsEndAt(raw, i + 1, frac);
    }
  }

  lemma ReadExpComplete(raw: bytes, i: nat, exp: ExpText)
    requires IsExp(exp) && At(raw, i, ExpSpelling(exp))
    requires Follow(raw, i + |ExpSpelling(exp)|)
    ensures ReadExp(raw, i) == Done(exp, i + |ExpSpelling(exp)|)
  {
    match exp
    case NoExp =>
    case Exp(letter, sign, digits) =>
      AtConcat(raw, i, [letter], sign + digits);
      AtConcat(raw, i + 1, sign, digits);
      AtFirst(raw, i, [letter]);
      AtFirst(raw, i + 1 + |sign|, digits);
      if sign != [] { AtFirst(raw, i + 1, sign); }
      DigitsEndAt(raw, i + 1 + |sign|, digits);
  }

  /** What comes after the integer digits of a literal does not extend them. */
  lemma NumberTailStart(n: NumberText, raw: bytes, j: nat)
    requires IsNumber(n) && At(raw, j, FracSpelling(n.frac) + ExpSpelling(n.exp))
    requires Follow(raw, j + |FracSpelling(n.frac) + ExpSpelling(n.exp)|)
    ensures j == |raw| || !IsDigit(raw[j])
    ensures var k := j + |FracSpelling(n.frac)|; k == |raw| || (k < |raw| && !IsDigit(raw[k]) && raw[k] != DOT)
  {
    AtConcat(raw, j, FracSpelling(n.frac), ExpSpelling(n.exp));
    if n.exp.Exp? { AtFirst(raw, j + |FracSpelling(n.frac)|, ExpSpelling(n.exp)); }
    if n.frac != [] { AtFirst(raw, j, FracSpelling(n.frac)); }
  }

  lemma ReadNumberComplete(n: NumberText, raw: bytes, i: nat)
    requires IsNumber(n) && At(raw, i, NumberSpelling(n)) && Follow(raw, i + |NumberSpelling(n)|)
    ensures i < |raw| && StartsNumber(raw[i]) && ReadNumber(raw, i) == Done(n, i + |NumberSpelling(n)|)
  {
    hide At, FracSpelling, ExpSpelling, ReadWhole, ReadFrac, ReadExp, Follow;
    var tail := FracSpelling(n.frac) + ExpSpelling(n.exp);
    var start := i + |MinusSpelling(n.minus)|;
    AtConcat(raw, i, MinusSpelling(n.minus), n.whole + tail);
    AtConcat(raw, start, n.whole, tail);
    var j := start + |n.whole|;
    AtConcat(raw, j, FracSpelling(n.frac), ExpSpelling(n.exp));
    AtFirst(raw, start, n.whole);
    if n.minus { AtFirst(raw, i, MinusSpelling(n.minus)); }
    NumberTailStart(n, raw, j);
    ReadWholeComplete(raw, start, n.whole);
    ReadFracComplete(raw, j, n.frac);
    ReadExpComplete(raw, j + |FracSpelling(n.frac)|, n.exp);
    AtEnd(raw, start, n.whole);
  }

  lemma AtEnd(raw: bytes, i: nat, s: bytes)
    requires At(raw, i, s)
    ensures i + |s| <= |raw| && raw[i..i + |s|] == s
  {
  }

  /** The first byte of a value: never space and never what closes or continues a collection. */
  predicate StartsValue(c: byte) {
    c == LBRACE || c == LBRACKET || c == QUOTE || c == LOWER_T || c == LOWER_F || c == LOWER_N || StartsNumber(c)
  }

  lemma TextStart(t: Cst)
    requires Wf(t)
    ensures Text(t) != [] && StartsValue(Text(t)[0])
    ensures t.Number? ==> StartsNumber(Text(t)[0])
    ensures t.Str? ==> Text(t)[0] == QUOTE
    ensures t.Array? ==> Text(t)[0] == LBRACKET
    ensures t.Object? ==> Text(t)[0] == LBRACE
  {
    match t
    case Number(n) => if !n.minus { assert NumberSpelling(n)[0] == n.whole[0]; }
    case _ =>
  }

  lemma WordComplete(t: Cst, raw: bytes, i: nat, d: nat)
    requires t.Word? && Wf(t) && At(raw, i, Text(t))
    ensures i + |Text(t)| <= |raw| && ReadValue(raw, i, d) == Done(t, i + |Text(t)|)
  {
    hide ReadArray, ReadObject, ReadNumber, ReadString, IsNumber, InRange, IsChars, AllSpace;
    AtFirst(raw, i, t.word);
  }

  lemma NumberComplete(t: Cst, raw: bytes, i: nat, d: nat)
    requires t.Number? && Wf(t) && At(raw, i, Text(t)) && Follow(raw, i + |Text(t)|)
    ensures i + |Text(t)| <= |raw| && ReadValue(raw, i, d) == Done(t, i + |Text(t)|)
  {
    hide At, Follow, ReadArray, ReadObject, ReadNumber, ReadString, ReadWord, IsNumber, InRange, NumberSpelling;
    ReadNumberComplete(t.number, raw, i);
    AtEnd(raw, i, Text(t));
  }

  lemma StrComplete(t: Cst, raw: bytes, i: nat, d: nat)
    requires t.Str? && Wf(t) && At(raw, i, Text(t))
    ensures i + |Text(t)| <= |raw| && ReadValue(raw, i, d) == Done(t, i + |Text(t)|)
  {
    hide At, ReadArray, ReadObject, ReadNumber, ReadString, ReadWord, IsChars;
    AtFirst(raw, i, Text(t));
    ReadStringComplete(raw, i, t.chars);
  }

  lemma Bracketed(raw: bytes, i: nat, d: nat)
    requires i < |raw|
    ensures raw[i] == LBRACKET ==> ReadValue(raw, i, d) == ReadArray(raw, i, d)
    ensures raw[i] == LBRACE ==> ReadValue(raw, i, d) == ReadObject(raw, i, d)
  {
    hide ReadArray, ReadObject, ReadNumber, ReadString, ReadWord;
  }

  lemma {:induction false} ReadValueComplete(t: Cst, raw: bytes, i: nat, d: nat)
    requires Wf(t) && Fits(t, d) && At(raw, i, Text(t)) && Follow(raw, i + |Text(t)|)
    ensures i + |Text(t)| <= |raw| && ReadValue(raw, i, d) == Done(t, i + |Text(t)|)
    decreases t, 1
  {
    hide At, Wf, Fits, Follow, Text, ReadValue, ReadArray, ReadObject;
    TextStart(t);
    AtFirst(raw, i, Text(t));
    match t
    case Word(_) => WordComplete(t, raw, i, d);
    case Number(_) => NumberComplete(t, raw, i, d);
    case Str(_) => StrComplete(t, raw, i, d);
    case Array(_, _) =>
      ReadArrayComplete(t, raw, i, d);
      Bracketed(raw, i, d);
    case Object(_, _) =>
      ReadObjectComplete(t, raw, i, d);
      Bracketed(raw, i, d);
  }

  lemma AtBody(raw: bytes, i: nat, open: byte, body: bytes, close: byte)
    requires At(raw, i, [open] + (body + [close]))
    ensures At(raw, i + 1, body) && i + 1 + |body| < |raw| && raw[i + 1 + |body|] == close
  {
    AtConcat(raw, i, [open], body + [close]);
    AtConcat(raw, i + 1, body, [close]);
    AtFirst(raw, i + 1 + |body|, [close]);
  }

  lemma {:induction false} ReadArrayComplete(t: Cst, raw: bytes, i: nat, d: nat)
    requires t.Array? && Wf(t) && Fits(t, d) && At(raw, i, Text(t))
    ensures i + |Text(t)| <= |raw| && ReadArray(raw, i, d) == Done(t, i + |Text(t)|)
    decreases t, 0
  {
    hide At, ItemsText, ReadItems, SpaceEnd, AllSpace, IsNumber, InRange;
    var body := if t.items == [] then t.pad else ItemsText(t.items);
    AtBody(raw, i, LBRACKET, body, RBRACKET);
    if t.items == [] {
      SpaceEndAt(raw, i + 1, t.pad);
      AtEnd(raw, i + 1, t.pad);
    } else {
      ReadItemsComplete(t.items, raw, i + 1, d + 1);
      ItemStart(t.items[0], raw, i + 1, t.items);
    }
  }

  lemma {:induction false} ReadObjectComplete(t: Cst, raw: bytes, i: nat, d: nat)
    requires t.Object? && Wf(t) && Fits(t, d) && At(raw, i, Text(t))
    ensures i + |Text(t)| <= |raw| && ReadObject(raw, i, d) == Done(t, i + |Text(t)|)
    decreases t, 0
  {
    hide At, MembersText, ReadMembers, SpaceEnd, AllSpace, IsChars, IsNumber, InRange;
    var body := if t.members == [] then t.pad else MembersText(t.members);
    AtBody(raw, i, LBRACE, body, RBRACE);
    if t.members == [] {
      SpaceEndAt(raw, i + 1, t.pad);
      AtEnd(raw, i + 1, t.pad);
    } else {
      ReadMembersComplete(t.members, raw, i + 1, d + 1);
      MemberStart(t.members[0], raw, i + 1, t.members);
    }
  }

  /** After the space before an element comes the element, not a bracket. */
  lemma ItemStart(m: Item, raw: bytes, b: nat, items: seq<Item>)
    requires items != [] && m == items[0] && AllSpace(m.before) && Wf(m.value)
    requires At(raw, b, ItemsText(items))
    ensures At(raw, b, ItemText(m)) && At(raw, b, m.before) && At(raw, b + |m.before|, Text(m.value) + m.after)
    ensures var j := b + |m.before|; j < |raw| && SpaceEnd(raw, b) == j && StartsValue(raw[j])
  {
    hide At, Text, SpaceEnd, Wf;
    if |items| > 1 { AtConcat(raw, b, ItemText(m), [COMMA] + ItemsText(items[1..])); }
    AtConcat(raw, b, m.before, Text(m.value) + m.after);
    AtConcat(raw, b + |m.before|, Text(m.value), m.after);
    TextStart(m.value);
    AtFirst(raw, b + |m.before|, Text(m.value));
    SpaceEndAt(raw, b, m.before);
  }

  lemma {:induction false} ReadItemComplete(m: Item, raw: bytes, b: nat, d: nat)
    requires GoodItem(m, d) && At(raw, b, m.before) && At(raw, b + |m.before|, Text(m.value) + m.after)
    requires SpaceEnd(raw, b) == b + |m.before|
    requires var k := b + |ItemText(m)|; k < |raw| && (raw[k] == COMMA || raw[k] == RBRACKET)
    ensures ReadItem(raw, b, d) == Done(m, b + |ItemText(m)|)
    decreases m, 2
  {
    hide At, Wf, Fits, Text, ReadValue, SpaceEnd;
    var i := b + |m.before|;
    AtConcat(raw, i, Text(m.value), m.after);
    var j := i + |Text(m.value)|;
    if m.after != [] { AtFirst(raw, j, m.after); }
    ReadValueComplete(m.value, raw, i, d);
    SpaceEndAt(raw, j, m.after);
    AtEnd(raw, b, m.before);
    AtEnd(raw, j, m.after);
  }

  lemma {:induction false} ReadItemsComplete(items: seq<Item>, raw: bytes, b: nat, d: nat)
    requires items != [] && (forall k :: 0 <= k < |items| ==> GoodItem(items[k], d))
    requires At(raw, b, ItemsText(items))
    requires var k := b + |ItemsText(items)|; k < |raw| && raw[k] == RBRACKET
    ensures ReadItems(raw, b, d) == Done(items, b + |ItemsText(items)| + 1)
    decreases items, 0
  {
    hide At, ReadItem, Text, Wf, Fits, SpaceEnd, AllSpace;
    var m := items[0];
    ItemStart(m, raw, b, items);
    var k := b + |ItemText(m)|;
    if |items| > 1 {
      AtConcat(raw, b, ItemText(m), [COMMA] + ItemsText(items[1..]));
      AtConcat(raw, k, [COMMA], ItemsText(items[1..]));
      AtFirst(raw, k, [COMMA]);
      ReadItemsComplete(items[1..], raw, k + 1, d);
      assert [m] + items[1..] == items;
    } else {
      assert [m] == items;
    }
    ReadItemComplete(m, raw, b, d);
  }

  lemma MemberStart(m: Member, raw: bytes, b: nat, members: seq<Member>)
    requires members != [] && m == members[0] && GoodKey(m) && At(raw, b, MembersText(members))
    ensures At(raw, b, MemberText(m)) && At(raw, b, KeyText(m)) && At(raw, b + |KeyText(m)|, Text(m.value) + m.after)
    ensures var j := b + |m.before|; j < |raw| && SpaceEnd(raw, b) == j && raw[j] == QUOTE && At(raw, j, Quoted(m.key))
  {
    hide At, Text, SpaceEnd, Wf;
    if |members| > 1 { AtConcat(raw, b, MemberText(m), [COMMA] + MembersText(members[1..])); }
    MemberTextSplit(m);
    AtConcat(raw, b, KeyText(m), Text(m.value) + m.after);
    AtConcat(raw, b, m.before, Quoted(m.key) + (m.preColon + ([COLON] + m.postColon)));
    AtConcat(raw, b + |m.before|, Quoted(m.key), m.preColon + ([COLON] + m.postColon));
    AtFirst(raw, b + |m.before|, Quoted(m.key));
    SpaceEndAt(raw, b, m.before);
  }

  lemma ReadKeyComplete(m: Member, raw: bytes, b: nat)
    requires GoodKey(m) && At(raw, b, KeyText(m)) && SpaceEnd(raw, b) == b + |m.before|
    requires var v := b + |KeyText(m)|; v < |raw| && StartsValue(raw[v])
    ensures ReadKey(raw, b) == Done(m.(value := Word([]), after := []), b + |KeyText(m)|)
  {
    hide At, ReadString, SpaceEnd, IsChars;
    var i := b + |m.before|;
    AtConcat(raw, b, m.before, Quoted(m.key) + (m.preColon + ([COLON] + m.postColon)));
    AtConcat(raw, i, Quoted(m.key), m.preColon + ([COLON] + m.postColon));
    var j := i + |Quoted(m.key)|;
    AtConcat(raw, j, m.preColon, [COLON] + m.postColon);
    var c := j + |m.preColon|;
    AtConcat(raw, c, [COLON], m.postColon);
    ReadStringComplete(raw, i, m.key);
    AtFirst(raw, c, [COLON]);
    SpaceEndAt(raw, j, m.preColon);
    SpaceEndAt(raw, c + 1, m.postColon);
    AtEnd(raw, b, m.before);
    AtEnd(raw, j, m.preColon);
    AtEnd(raw, c + 1, m.postColon);
  }

  lemma {:induction false} ReadMemberComplete(m: Member, raw: bytes, b: nat, d: nat)
    requires GoodMember(m, d) && At(raw, b, KeyText(m)) && At(raw, b + |KeyText(m)|, Text(m.value) + m.after)
    requires SpaceEnd(raw, b) == b + |m.before|
    requires var k := b + |MemberText(m)|; k < |raw| && (raw[k] == COMMA || raw[k] == RBRACE)
    ensures ReadMember(raw, b, d) == Done(m, b + |MemberText(m)|)
    decreases m, 2
  {
    hide At, ReadKey, KeyText, Wf, Fits, Text, ReadValue, SpaceEnd;
    MemberTextSplit(m);
    var v := b + |KeyText(m)|;
    AtConcat(raw, v, Text(m.value), m.after);
    TextStart(m.value);
    AtFirst(raw, v, Text(m.value));
    var j := v + |Text(m.value)|;
    if m.after != [] { AtFirst(raw, j, m.after); }
    ReadKeyComplete(m, raw, b);
    ReadValueComplete(m.value, raw, v, d);
    SpaceEndAt(raw, j, m.after);
    AtEnd(raw, j, m.after);
  }

  lemma {:induction false} ReadMembersComplete(members: seq<Member>, raw: bytes, b: nat, d: nat)
    requires members != [] && (forall k :: 0 <= k < |members| ==> GoodMember(members[k], d))
    requires At(raw, b, MembersText(members))
    requires var k := b + |MembersText(members)|; k < |raw| && raw[k] == RBRACE
    ensures ReadMembers(raw, b, d) == Done(members, b + |MembersText(members)| + 1)
    decreases members, 0
  {
    hide At, ReadMember, KeyText, Text, Wf, Fits, SpaceEnd, AllSpace, IsChars;
    var m := members[0];
    MemberStart(m, raw, b, members);
    var k := b + |MemberText(m)|;
    if |members| > 1 {
      AtConcat(raw, b, MemberText(m), [COMMA] + MembersText(members[1..]));
      AtConcat(raw, k, [COMMA], MembersText(members[1..]));
      AtFirst(raw, k, [COMMA]);
      ReadMembersComplete(members[1..], raw, k + 1, d);
      assert [m] + members[1..] == members;
    } else {
      assert [m] == members;
    }
    ReadMemberComplete(m, raw, b, d);
  }

  /** Every JSON text is accepted, and its derivation is the one that is returned. */
  lemma ReadDocumentComplete(before: bytes, t: Cst, after: bytes, raw: bytes)
    requires IsDocument(before, t, after, raw)
    ensures ReadDocument(raw) == Some(t)
  {
    hide Wf, Fits, Text, ReadValue, SpaceEnd;
    var i := |before|;
    assert raw == before + (Text(t) + after);
    AtConcat(raw, 0, before, Text(t) + after);
    AtConcat(raw, i, Text(t), after);
    TextStart(t);
    AtFirst(raw, i, Text(t));
    SpaceEndAt(raw, 0, before);
    var j := i + |Text(t)|;
    if after != [] { AtFirst(raw, j, after); }
    ReadValueComplete(t, raw, i, 0);
    SpaceEndAt(raw, j, after);
  }
}
