/** Whatever the reference reader returns is a derivation of the text it read. */
module JsonReaderSound {
  import opened Bytes
  import opened JsonGrammar
  import opened JsonReader

  lemma {:induction false} StringEndSound(raw: bytes, i: nat)
    requires i <= |raw|
    ensures StringEnd(raw, i).Some? ==>
              var j := StringEnd(raw, i).value; raw[j - 1] == QUOTE && IsChars(raw[i..j - 1])
    decreases |raw| - i
  {
    if StringEnd(raw, i).Some? {
      var j := StringEnd(raw, i).value;
      if raw[i] == QUOTE {
        assert raw[i..j - 1] == [];
      } else {
        var step := if raw[i] != BACKSLASH then 1 else if raw[i + 1] == LOWER_U then 6 else 2;
        StringEndSound(raw, i + step);
        assert raw[i..j - 1][step..] == raw[i + step..j - 1];
      }
    }
  }

  lemma ReadStringSound(raw: bytes, i: nat)
    requires i < |raw|
    ensures var r := ReadString(raw, i);
            r.Done? ==> IsChars(r.value) && At(raw, i, Quoted(r.value)) && r.next == i + |Quoted(r.value)|
  {
    StringEndSound(raw, i + 1);
    var r := ReadString(raw, i);
    if r.Done? {
      assert raw[i..r.next] == Quoted(r.value);
    }
  }

  lemma ReadFracSound(raw: bytes, i: nat)
    requires i <= |raw|
    ensures var r := ReadFrac(raw, i);
            r.Done? ==> AllDigits(r.value) && At(raw, i, FracSpelling(r.value)) && r.next == i + |FracSpelling(r.value)|
  {
    var r := ReadFrac(raw, i);
    if r.Done? {
      assert raw[i..r.next] == FracSpelling(r.value);
    }
  }

  lemma ReadExpSound(raw: bytes, i: nat)
    requires i <= |raw|
    ensures var r := ReadExp(raw, i);
            r.Done? ==> IsExp(r.value) && At(raw, i, ExpSpelling(r.value)) && r.next == i + |ExpSpelling(r.value)|
  {
    var r := ReadExp(raw, i);
    if r.Done? && r.value.Exp? {
      var k := i + 1 + |r.value.sign|;
      assert raw[i..r.next] == [raw[i]] + (raw[i + 1..k] + raw[k..r.next]);
      assert r.value.digits[0] == raw[k];
      assert k == i + 2 ==> raw[i + 1..k] == [raw[i + 1]];
    }
  }

  lemma ReadNumberSound(raw: bytes, i: nat)
    requires i < |raw|
    ensures var r := ReadNumber(raw, i);
            r.Done? ==> IsNumber(r.value) && At(raw, i, NumberSpelling(r.value))
                        && r.next == i + |NumberSpelling(r.value)|
  {
    hide At, FracSpelling, ExpSpelling;
    var r := ReadNumber(raw, i);
    if r.Done? {
      var n := r.value;
      var start := if n.minus then i + 1 else i;
      var j := ReadWhole(raw, start).value;
      assert n.whole == raw[start..j] && n.whole[0] == raw[start];
      ReadFracSound(raw, j);
      var k := ReadFrac(raw, j).next;
      ReadExpSound(raw, k);
      AtSlice(raw, start, j);
      if n.minus { AtByte(raw, i); } else { AtEmpty(raw, i); }
      AtConcat(raw, j, FracSpelling(n.frac), ExpSpelling(n.exp));
      AtConcat(raw, start, n.whole, FracSpelling(n.frac) + ExpSpelling(n.exp));
      AtConcat(raw, i, MinusSpelling(n.minus), n.whole + (FracSpelling(n.frac) + ExpSpelling(n.exp)));
    }
  }

  lemma AtBracketed(raw: bytes, i: nat, open: byte, body: bytes, close: byte)
    requires i < |raw| && raw[i] == open && At(raw, i + 1, body)
    requires i + 1 + |body| < |raw| && raw[i + 1 + |body|] == close
    ensures At(raw, i, [open] + (body + [close])) && |[open] + (body + [close])| == |body| + 2
  {
    hide At;
    AtByte(raw, i);
    AtByte(raw, i + 1 + |body|);
    AtConcat(raw, i + 1, body, [close]);
    AtConcat(raw, i, [open], body + [close]);
  }

  /** What soundness says of a value read at `i`. */
  predicate GoodValue(r: Read<Cst>, raw: bytes, i: nat, d: nat) {
    r.Done? ==> Wf(r.value) && Fits(r.value, d) && At(raw, i, Text(r.value)) && r.next == i + |Text(r.value)|
  }

  lemma {:induction false} ReadValueSound(raw: bytes, i: nat, d: nat)
    requires i <= |raw|
    ensures GoodValue(ReadValue(raw, i, d), raw, i, d)
    decreases |raw| - i, 1
  {
    if i < |raw| {
      var c := raw[i];
      if c == LBRACE {
        ReadObjectSound(raw, i, d);
      } else if c == LBRACKET {
        ReadArraySound(raw, i, d);
      } else {
        hide At, ReadNumber, ReadString, InRange, IsNumber, NumberSpelling, IsChars;
        if c == QUOTE {
          ReadStringSound(raw, i);
        } else if StartsNumber(c) {
          ReadNumberSound(raw, i);
        }
      }
    }
  }

  lemma {:induction false} ReadObjectSound(raw: bytes, i: nat, d: nat)
    requires i < |raw| && raw[i] == LBRACE
    ensures GoodValue(ReadObject(raw, i, d), raw, i, d)
    decreases |raw| - i, 0
  {
    hide At, MembersText, ReadMembers, SpaceEnd, IsChars, IsNumber, InRange, ItemsText;
    var j := SpaceEnd(raw, i + 1);
    if j < |raw| && raw[j] == RBRACE {
      AtSlice(raw, i + 1, j);
      AtBracketed(raw, i, LBRACE, raw[i + 1..j], RBRACE);
    } else if ReadMembers(raw, i + 1, d + 1).Done? {
      ReadMembersSound(raw, i + 1, d + 1);
      AtBracketed(raw, i, LBRACE, MembersText(ReadMembers(raw, i + 1, d + 1).value), RBRACE);
    }
  }

  lemma {:induction false} ReadArraySound(raw: bytes, i: nat, d: nat)
    requires i < |raw| && raw[i] == LBRACKET
    ensures GoodValue(ReadArray(raw, i, d), raw, i, d)
    decreases |raw| - i, 0
  {
    hide At, ItemsText, ReadItems, SpaceEnd, IsChars, IsNumber, InRange, MembersText;
    var j := SpaceEnd(raw, i + 1);
    if j < |raw| && raw[j] == RBRACKET {
      AtSlice(raw, i + 1, j);
      AtBracketed(raw, i, LBRACKET, raw[i + 1..j], RBRACKET);
    } else if ReadItems(raw, i + 1, d + 1).Done? {
      ReadItemsSound(raw, i + 1, d + 1);
      AtBracketed(raw, i, LBRACKET, ItemsText(ReadItems(raw, i + 1, d + 1).value), RBRACKET);
    }
  }

  /** What soundness says of an element: its parts are well formed and fit. */
  predicate GoodItem(m: Item, d: nat) {
    AllSpace(m.before) && AllSpace(m.after) && Wf(m.value) && Fits(m.value, d)
  }

  predicate GoodKey(m: Member) {
    AllSpace(m.before) && AllSpace(m.preColon) && AllSpace(m.postColon) && IsChars(m.key)
  }

  predicate GoodMember(m: Member, d: nat) {
    GoodKey(m) && AllSpace(m.after) && Wf(m.value) && Fits(m.value, d)
  }

  lemma {:induction false} ReadItemSound(raw: bytes, b: nat, d: nat)
    requires b <= |raw| && ReadItem(raw, b, d).Done?
    ensures var r := ReadItem(raw, b, d);
            GoodItem(r.value, d) && At(raw, b, ItemText(r.value)) && r.next == b + |ItemText(r.value)|
    decreases |raw| - b, 2
  {
    var i := SpaceEnd(raw, b);
    ReadValueSound(raw, i, d);
    var m := ReadItem(raw, b, d).value;
    var j := ReadValue(raw, i, d).next;
    hide At, ReadValue;
    AtSlice(raw, b, i);
    AtSlice(raw, j, SpaceEnd(raw, j));
    AtConcat(raw, i, Text(m.value), m.after);
    AtConcat(raw, b, m.before, Text(m.value) + m.after);
  }

  lemma {:induction false} ReadItemsSound(raw: bytes, b: nat, d: nat)
    requires b <= |raw| && ReadItems(raw, b, d).Done?
    ensures var r := ReadItems(raw, b, d);
            && At(raw, b, ItemsText(r.value)) && r.next == b + |ItemsText(r.value)| + 1 && raw[r.next - 1] == RBRACKET
            && forall k :: 0 <= k < |r.value| ==> GoodItem(r.value[k], d)
    decreases |raw| - b, 3
  {
    hide At, ReadItem;
    ReadItemSound(raw, b, d);
    var Done(m, k) := ReadItem(raw, b, d);
    if raw[k] == COMMA {
      ReadItemsSound(raw, k + 1, d);
      var rest := ReadItems(raw, k + 1, d).value;
      assert ([m] + rest)[1..] == rest;
      AtByte(raw, k);
      AtConcat(raw, k, [COMMA], ItemsText(rest));
      AtConcat(raw, b, ItemText(m), [COMMA] + ItemsText(rest));
    }
  }

  function KeyText(m: Member): bytes {
    m.before + (Quoted(m.key) + (m.preColon + ([COLON] + m.postColon)))
  }

  lemma MemberTextSplit(m: Member)
    ensures MemberText(m) == KeyText(m) + (Text(m.value) + m.after)
  {
    var v := Text(m.value) + m.after;
    assert [COLON] + (m.postColon + v) == ([COLON] + m.postColon) + v;
    assert m.preColon + (([COLON] + m.postColon) + v) == (m.preColon + ([COLON] + m.postColon)) + v;
    assert Quoted(m.key) + ((m.preColon + ([COLON] + m.postColon)) + v)
        == (Quoted(m.key) + (m.preColon + ([COLON] + m.postColon))) + v;
  }

  lemma ReadKeySound(raw: bytes, b: nat)
    requires b <= |raw| && ReadKey(raw, b).Done?
    ensures var r := ReadKey(raw, b);
            GoodKey(r.value) && At(raw, b, KeyText(r.value)) && r.next == b + |KeyText(r.value)|
  {
    var m := ReadKey(raw, b).value;
    var i := SpaceEnd(raw, b);
    ReadStringSound(raw, i);
    var j := ReadString(raw, i).next;
    var c := SpaceEnd(raw, j);
    hide At, ReadString;
    AtSlice(raw, b, i);
    AtSlice(raw, j, c);
    AtByte(raw, c);
    AtSlice(raw, c + 1, SpaceEnd(raw, c + 1));
    AtConcat(raw, c, [COLON], m.postColon);
    AtConcat(raw, j, m.preColon, [COLON] + m.postColon);
    AtConcat(raw, i, Quoted(m.key), m.preColon + ([COLON] + m.postColon));
    AtConcat(raw, b, m.before, Quoted(m.key) + (m.preColon + ([COLON] + m.postColon)));
  }

  lemma {:induction false} ReadMemberSound(raw: bytes, b: nat, d: nat)
    requires b <= |raw| && ReadMember(raw, b, d).Done?
    ensures var r := ReadMember(raw, b, d);
            GoodMember(r.value, d) && At(raw, b, MemberText(r.value)) && r.next == b + |MemberText(r.value)|
    decreases |raw| - b, 2
  {
    ReadKeySound(raw, b);
    var v := ReadKey(raw, b).next;
    ReadValueSound(raw, v, d);
    var m := ReadMember(raw, b, d).value;
    var j := ReadValue(raw, v, d).next;
    hide At, ReadKey, ReadValue;
    AtSlice(raw, j, SpaceEnd(raw, j));
    AtConcat(raw, v, Text(m.value), m.after);
    assert KeyText(m) == KeyText(ReadKey(raw, b).value);
    AtConcat(raw, b, KeyText(m), Text(m.value) + m.after);
    MemberTextSplit(m);
  }

  lemma {:induction false} ReadMembersSound(raw: bytes, b: nat, d: nat)
    requires b <= |raw| && ReadMembers(raw, b, d).Done?
    ensures var r := ReadMembers(raw, b, d);
            && At(raw, b, MembersText(r.value)) && r.next == b + |MembersText(r.value)| + 1 && raw[r.next - 1] == RBRACE
            && forall k :: 0 <= k < |r.value| ==> GoodMember(r.value[k], d)
    decreases |raw| - b, 3
  {
    hide At, ReadMember;
    ReadMemberSound(raw, b, d);
    var Done(m, k) := ReadMember(raw, b, d);
    if raw[k] == COMMA {
      ReadMembersSound(raw, k + 1, d);
      var rest := ReadMembers(raw, k + 1, d).value;
      assert ([m] + rest)[1..] == rest;
      AtByte(raw, k);
      AtConcat(raw, k, [COMMA], MembersText(rest));
      AtConcat(raw, b, MemberText(m), [COMMA] + MembersText(rest));
    }
  }

  // ----- the whole text -----

  /** What the reader accepts is a JSON text, and the derivation it returns spells it. */
  lemma ReadDocumentSound(raw: bytes)
    ensures ReadDocument(raw).Some? ==>
              exists before, after :: IsDocument(before, ReadDocument(raw).value, after, raw)
  {
    hide Wf, Fits, Text, ReadValue, SpaceEnd;
    if ReadDocument(raw).Some? {
      var i := SpaceEnd(raw, 0);
      var r := ReadValue(raw, i, 0);
      ReadValueSound(raw, i, 0);
      assert raw == raw[..i] + raw[i..r.next] + raw[r.next..];
      assert IsDocument(raw[..i], r.value, raw[r.next..], raw);
    }
  }
}
