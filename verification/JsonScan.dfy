/**
 The byte scanner: one forward pass that validates a whole document and brings back the
 byte range of the node a path selects, refined against reading and evaluating the tree.
 */
module JsonScan {
  import opened Bytes
  import opened JsonGrammar
  import opened JsonReader
  import opened JsonReaderSound
  import opened JsonReaderComplete
  import opened JsonPath
  import opened FloatRange

  datatype Span = Span(start: nat, end: nat)

  type Doc = Json<NumberText>

  /** strconv.ParseFloat on a number token: it errs exactly on an overflow, all exponent digits counted. */
  predicate ParseFloatOk(text: bytes) {
    text != [] && var r := ReadNumber(text, 0); r.Done? && IsNumber(r.value) && InRange(r.value)
  }

  /** The scanner's exponent accumulator: it stops growing at 2^30. */
  function Saturated(digits: bytes): nat
    requires AllDigits(digits)
  {
    if digits == [] then 0
    else
      var e := Saturated(digits[..|digits| - 1]);
      if e < 0x4000_0000 then e * 10 + (digits[|digits| - 1] - ZERO) as nat else e
  }

  lemma SaturatedNone()
    ensures Saturated([]) == 0
  {
  }

  lemma SaturatedNext(raw: bytes, k: nat, i: nat)
    requires k <= i < |raw| && AllDigits(raw[k..i]) && IsDigit(raw[i])
    ensures AllDigits(raw[k..i + 1])
    ensures Saturated(raw[k..i + 1]) ==
            var e := Saturated(raw[k..i]); if e < 0x4000_0000 then e * 10 + (raw[i] - ZERO) as nat else e
  {
    assert raw[k..i + 1][..i - k] == raw[k..i];
  }

  lemma {:induction false} SaturatedExact(digits: bytes)
    requires AllDigits(digits)
    ensures Saturated(digits) == DigitsValue(digits) || 0x4000_0000 <= Saturated(digits) <= DigitsValue(digits)
  {
    if digits != [] { SaturatedExact(digits[..|digits| - 1]); }
  }

  /** The whole number test: the shortcut and the exact answer together decide the range. */
  lemma ShortcutDecides(n: NumberText, exp: int)
    requires IsNumber(n)
    requires exp == match n.exp
                    case NoExp => 0
                    case Exp(_, sign, digits) =>
                      if sign == [MINUS] then -(Saturated(digits) as int) else Saturated(digits)
    ensures |n.whole| + exp <= 308 ==> InRange(n)
  {
    if |n.whole| + exp <= 308 {
      match n.exp
      case NoExp => FewDigitsInRange(n);
      case Exp(_, sign, digits) =>
        SaturatedExact(digits);
        assert WrittenExponent(n.exp) <= exp;
        FewDigitsInRange(n);
    }
  }

  /** The range test on the token alone is the range test on the token in place. */
  lemma TokenAlone(raw: bytes, i: nat)
    requires i < |raw| && ReadNumber(raw, i).Done?
    ensures var r := ReadNumber(raw, i); IsNumber(r.value) && ParseFloatOk(raw[i..r.next]) == InRange(r.value)
  {
    hide At, ReadNumber, IsNumber, InRange, NumberSpelling;
    var r := ReadNumber(raw, i);
    ReadNumberSound(raw, i);
    AtEnd(raw, i, NumberSpelling(r.value));
    var text := raw[i..r.next];
    AtSlice(text, 0, |text|);
    assert text[0..|text|] == text;
    ReadNumberComplete(r.value, text, 0);
  }

  /** How a selection inside a value `v` is reported: the node's own text, or nothing. */
  ghost predicate Picked(selected: Option<Doc>, found: bool, sel: Span, node: Cst, raw: bytes, unquote: bytes -> bytes) {
    match selected
    case None => !found
    case Some(x) =>
      && found && sel.start <= sel.end <= |raw|
      && Wf(node) && Fits(node, 0) && raw[sel.start..sel.end] == Text(node)
      && Decode(node, unquote) == x
  }

  /** What a read that has passed `acc` still has to give to make up the whole list. */
  function Onto<T>(acc: seq<T>, rest: Read<seq<T>>): Read<seq<T>> {
    match rest
    case Fail => Fail
    case Done(more, next) => Done(acc + more, next)
  }

  lemma OntoMore<T>(acc: seq<T>, m: T, rest: Read<seq<T>>)
    ensures Onto(acc, Onto([m], rest)) == Onto(acc + [m], rest)
  {
    if rest.Done? { assert acc + ([m] + rest.value) == (acc + [m]) + rest.value; }
  }

  lemma OntoNothing<T>(rest: Read<seq<T>>)
    ensures Onto([], rest) == rest
  {
    if rest.Done? { assert [] + rest.value == rest.value; }
  }

  /** The list of elements from `b`, by what follows the first of them. */
  lemma ItemsUnfold(raw: bytes, b: nat, d: nat)
    requires b <= |raw|
    ensures ReadItem(raw, b, d).Done? <==> ReadValue(raw, SpaceEnd(raw, b), d).Done?
    ensures !ReadItem(raw, b, d).Done? ==> ReadItems(raw, b, d) == Fail
    ensures ReadItem(raw, b, d).Done? ==>
              var Done(m, k) := ReadItem(raw, b, d);
              var v := ReadValue(raw, SpaceEnd(raw, b), d);
              && m.value == v.value && k == SpaceEnd(raw, v.next)
              && ReadItems(raw, b, d) ==
                 if k < |raw| && raw[k] == RBRACKET then Done([m], k + 1)
                 else if k < |raw| && raw[k] == COMMA then Onto([m], ReadItems(raw, k + 1, d))
                 else Fail
  {
  }

  lemma KeyUnfold(raw: bytes, b: nat)
    requires b <= |raw|
    ensures var i := SpaceEnd(raw, b);
            if i < |raw| && raw[i] == QUOTE && ReadString(raw, i).Done? then
              var Done(key, j) := ReadString(raw, i);
              var c := SpaceEnd(raw, j);
              && (ReadKey(raw, b).Done? <==> c < |raw| && raw[c] == COLON)
              && (ReadKey(raw, b).Done? ==> ReadKey(raw, b).value.key == key && ReadKey(raw, b).next == SpaceEnd(raw, c + 1))
            else ReadKey(raw, b) == Fail
  {
  }

  /** The same for members; a key and colon missing is a failure at once. */
  lemma MembersUnfold(raw: bytes, b: nat, d: nat)
    requires b <= |raw|
    ensures !ReadKey(raw, b).Done? ==> ReadMembers(raw, b, d) == Fail
    ensures ReadKey(raw, b).Done? ==>
              var Done(head, at) := ReadKey(raw, b);
              var v := ReadValue(raw, at, d);
              if !v.Done? then ReadMembers(raw, b, d) == Fail
              else
                && ReadMember(raw, b, d).Done?
                && var Done(m, k) := ReadMember(raw, b, d);
                && m.key == head.key && m.value == v.value && k == SpaceEnd(raw, v.next)
                && ReadMembers(raw, b, d) ==
                   if k < |raw| && raw[k] == RBRACE then Done([m], k + 1)
                   else if k < |raw| && raw[k] == COMMA then Onto([m], ReadMembers(raw, k + 1, d))
                   else Fail
  {
  }

  class Scanner {
    const raw: bytes
    const unquote: bytes -> bytes
    var i: nat
    var depth: nat

    constructor (raw: bytes, unquote: bytes -> bytes)
      ensures this.raw == raw && this.unquote == unquote && i == 0 && depth == 0
    {
      this.raw, this.unquote := raw, unquote;
      i, depth := 0, 0;
    }

    method SkipSpace()
      requires i <= |raw|
      modifies this`i
      ensures i == SpaceEnd(raw, old(i)) && i <= |raw|
    {
      while i < |raw|
        invariant i <= |raw| && SpaceEnd(raw, i) == SpaceEnd(raw, old(i))
      {
        if !IsSpace(raw[i]) { return; }
        i := i + 1;
      }
    }

    method SkipDigits() returns (ghost start: nat)
      requires i <= |raw|
      modifies this`i
      ensures start == old(i) && i == DigitsEnd(raw, old(i))
    {
      start := i;
      while i < |raw| && IsDigit(raw[i])
        invariant i <= |raw| && DigitsEnd(raw, i) == DigitsEnd(raw, old(i))
      {
        i := i + 1;
      }
    }

    method SkipLiteral(word: bytes) returns (ok: bool)
      requires i <= |raw|
      modifies this`i
      ensures i <= |raw|
      ensures ok <==> ReadWord(raw, old(i), word).Done?
      ensures ok ==> i == ReadWord(raw, old(i), word).next <= |raw|
    {
      if |raw| - i < |word| || raw[i..i + |word|] != word { return false; }
      i := i + |word|;
      return true;
    }

    method SkipString() returns (ok: bool)
      requires i < |raw| && raw[i] == QUOTE
      modifies this`i
      ensures i <= |raw|
      ensures ok <==> ReadString(raw, old(i)).Done?
      ensures ok ==> i == ReadString(raw, old(i)).next
    {
      i := i + 1;
      while i < |raw|
        invariant i <= |raw| && StringEnd(raw, i) == StringEnd(raw, old(i) + 1)
        decreases |raw| - i
      {
        var c := raw[i];
        if c == QUOTE {
          i := i + 1;
          return true;
        } else if c == BACKSLASH {
          ghost var esc := i;
          i := i + 1;
          if i >= |raw| { return false; }
          if IsSimpleEscape(raw[i]) {
            i := i + 1;
          } else if raw[i] == LOWER_U {
            i := i + 1;
            for k := 0 to 4
              invariant i == esc + 2 + k <= |raw|
              invariant forall h :: esc + 2 <= h < i ==> IsHex(raw[h])
            {
              if i >= |raw| || !IsHex(raw[i]) { return false; }
              i := i + 1;
            }
          } else {
            return false;
          }
        } else if c < 32 {
          return false;
        } else {
          i := i + 1;
        }
      }
      return false;
    }

    /** The digits before the point; `digits` counts them. */
    method SkipWhole() returns (digits: nat, ok: bool)
      requires i <= |raw|
      modifies this`i
      ensures i <= |raw|
      ensures ok <==> ReadWhole(raw, old(i)).Some?
      ensures ok ==> i == ReadWhole(raw, old(i)).value && digits == i - old(i)
    {
      digits := 0;
      if i >= |raw| {
        return 0, false;
      } else if raw[i] == ZERO {
        i := i + 1;
        return 1, true;
      } else if IsDigit(raw[i]) {
        while i < |raw| && IsDigit(raw[i])
          invariant i <= |raw| && DigitsEnd(raw, i) == DigitsEnd(raw, old(i)) && digits == i - old(i)
        {
          i := i + 1;
          digits := digits + 1;
        }
        return digits, true;
      } else {
        return 0, false;
      }
    }

    method SkipFrac() returns (ok: bool)
      requires i <= |raw|
      modifies this`i
      ensures i <= |raw|
      ensures ok <==> ReadFrac(raw, old(i)).Done?
      ensures ok ==> i == ReadFrac(raw, old(i)).next
    {
      if i < |raw| && raw[i] == DOT {
        i := i + 1;
        if i >= |raw| || !IsDigit(raw[i]) { return false; }
        ghost var _ := SkipDigits();
      }
      return true;
    }

    /** The digits of an exponent, read into a saturating accumulator. */
    method ExpDigits() returns (e: nat)
      requires i <= |raw|
      modifies this`i
      ensures i == DigitsEnd(raw, old(i)) && e == Saturated(raw[old(i)..i])
    {
      hide Saturated;
      assert raw[i..i] == [] && Saturated([]) == 0 by { SaturatedNone(); }
      e := 0;
      ghost var k: nat := i;
      while i < |raw| && IsDigit(raw[i])
        invariant k <= i <= |raw| && DigitsEnd(raw, i) == DigitsEnd(raw, k)
        invariant AllDigits(raw[k..i]) && e == Saturated(raw[k..i])
      {
        SaturatedNext(raw, k, i);
        if e < 0x4000_0000 {
          e := e * 10 + (raw[i] - ZERO) as nat;
        }
        i := i + 1;
      }
    }

    method SkipExp() returns (exp: int, ok: bool)
      requires i <= |raw|
      modifies this`i
      ensures i <= |raw|
      ensures ok <==> ReadExp(raw, old(i)).Done?
      ensures ok ==> i == ReadExp(raw, old(i)).next
      ensures ok ==> exp == match ReadExp(raw, old(i)).value
                            case NoExp => 0
                            case Exp(_, sign, digits) =>
                              if !AllDigits(digits) then 0
                              else if sign == [MINUS] then -(Saturated(digits) as int) else Saturated(digits)
    {
      hide Saturated, AllDigits;
      exp := 0;
      if i < |raw| && (raw[i] == LOWER_E || raw[i] == UPPER_E) {
        i := i + 1;
        var negative := false;
        if i < |raw| && (raw[i] == PLUS || raw[i] == MINUS) {
          negative := raw[i] == MINUS;
          i := i + 1;
        }
        if i >= |raw| || !IsDigit(raw[i]) { return 0, false; }
        assert i == old(i) + 2 ==> raw[old(i) + 1..i] == [raw[old(i) + 1]];
        var e := ExpDigits();
        exp := e;
        if negative { exp := -exp; }
      }
      return exp, true;
    }

    method SkipNumber() returns (ok: bool)
      requires i < |raw|
      modifies this`i
      ensures i <= |raw|
      ensures ok <==> var r := ReadNumber(raw, old(i)); r.Done? && IsNumber(r.value) && InRange(r.value)
      ensures ok ==> i == ReadNumber(raw, old(i)).next
    {
      hide ReadFrac, ReadExp, ReadWhole, InRange, IsNumber, Saturated, ParseFloatOk, AllDigits;
      var start := i;
      if raw[i] == MINUS { i := i + 1; }
      var digits, wholeOk := SkipWhole();
      if !wholeOk { return false; }
      ok := SkipFrac();
      if !ok { return false; }
      var exp, expOk := SkipExp();
      if !expOk { return false; }
      ghost var n := ReadNumber(raw, start).value;
      TokenAlone(raw, start);
      NumberExpDigits(n);
      if digits + exp > 308 {
        ok := ParseFloatOk(raw[start..i]);
        return ok;
      }
      ShortcutDecides(n, exp);
      return true;
    }

    /** keyIs over the raw key: plain text is compared where it lies. */
    function KeyIs(key: bytes, name: bytes): bool
      requires |key| >= 2
    {
      var body := key[1..|key| - 1];
      if Plain(body) then body == name else unquote(body) == name
    }

    lemma KeyIsDecoded(key: bytes, name: bytes)
      requires |key| >= 2 && CopiesPlain(unquote)
      ensures KeyIs(key, name) <==> unquote(key[1..|key| - 1]) == name
    {
    }

    /** The value at the cursor; `node` is the selected node's derivation. */
    method Value(steps: seq<Step<NumberText>>, selecting: bool)
      returns (sel: Span, found: bool, ok: bool, ghost node: Cst)
      requires i <= |raw| && Scannable(steps) && CopiesPlain(unquote)
      modifies this
      ensures i <= |raw|
      ensures ok <==> ReadValue(raw, old(i), old(depth)).Done?
      ensures ok ==> i == ReadValue(raw, old(i), old(depth)).next && depth == old(depth)
      ensures ok && selecting ==>
                Picked(Select(steps, Decode(ReadValue(raw, old(i), old(depth)).value, unquote)), found, sel, node, raw, unquote)
      decreases |raw| - i, 2, selecting
    {
      hide Decode, Wf, Fits, Text, ReadString, ReadNumber, ReadArray, ReadObject, At;
      node := Word([]);
      sel, found, ok := Span(0, 0), false, false;
      if i >= |raw| { return; }
      if selecting && |steps| == 0 {
        var start := i;
        ghost var d := depth;
        var _, _, valid, _ := Value([], false);
        if !valid { return; }
        ReadValueSound(raw, start, d);
        node := ReadValue(raw, start, d).value;
        FitsShallower(node, d, 0);
        AtEnd(raw, start, Text(node));
        return Span(start, i), true, true, node;
      }
      var c := raw[i];
      if c == LBRACE {
        sel, found, ok, node := ObjectValue(steps, selecting);
      } else if c == LBRACKET {
        sel, found, ok, node := ArrayValue(steps, selecting);
      } else if c == QUOTE {
        ok := SkipString();
      } else if c == LOWER_T {
        ok := SkipLiteral(TRUE_WORD);
      } else if c == LOWER_F {
        ok := SkipLiteral(FALSE_WORD);
      } else if c == LOWER_N {
        ok := SkipLiteral(NULL_WORD);
      } else if StartsNumber(c) {
        ok := SkipNumber();
      }
      if ok && selecting && c != LBRACE && c != LBRACKET {
        ScalarSelectsNothing(steps, ReadValue(raw, old(i), old(depth)).value, unquote);
      }
    }

    method ArrayValue(steps: seq<Step<NumberText>>, selecting: bool)
      returns (sel: Span, found: bool, ok: bool, ghost node: Cst)
      requires i < |raw| && raw[i] == LBRACKET && Scannable(steps) && CopiesPlain(unquote)
      requires selecting ==> steps != []
      modifies this
      ensures i <= |raw|
      ensures ok <==> ReadArray(raw, old(i), old(depth)).Done?
      ensures ok ==> i == ReadArray(raw, old(i), old(depth)).next && depth == old(depth)
      ensures ok && selecting ==>
                Picked(Select(steps, Decode(ReadArray(raw, old(i), old(depth)).value, unquote)), found, sel, node, raw, unquote)
      decreases |raw| - i, 1, selecting
    {
      hide Decode, Wf, Fits, Text, ReadValue, At, Picked, SpaceEnd, ReadItems, PickedItem, AllSpace;
      node := Word([]);
      sel, found, ok := Span(0, 0), false, false;
      depth := depth + 1;
      if depth > MAX_DEPTH { return; }

      var want := -1;
      if selecting && steps[0].Index? { want := steps[0].index; }

      i := i + 1;
      ghost var first: nat := i;
      SkipSpace();
      if i < |raw| && raw[i] == RBRACKET {
        i := i + 1;
        depth := depth - 1;
        if selecting { EmptyArrayPicked(steps, ReadArray(raw, first - 1, depth).value, sel, node, raw, unquote); }
        return sel, false, true, node;
      }
      sel, found, ok, node := Elements(steps, want, first);
      if ok && selecting {
        ArrayPicked(steps, ReadItems(raw, first, depth + 1).value, want, found, sel, node, raw, unquote);
      }
    }

    /** The loop over the elements of an array whose bracket is behind the cursor. */
    method Elements(steps: seq<Step<NumberText>>, want: int, ghost first: nat)
      returns (sel: Span, found: bool, ok: bool, ghost node: Cst)
      requires first <= i <= |raw| && i == SpaceEnd(raw, first) && depth > 0
      requires Scannable(steps) && (want >= 0 ==> steps != []) && CopiesPlain(unquote)
      modifies this
      ensures i <= |raw|
      ensures ok <==> ReadItems(raw, first, old(depth)).Done?
      ensures ok ==> i == ReadItems(raw, first, old(depth)).next && depth == old(depth) - 1
      ensures ok ==> PickedItem(steps, ReadItems(raw, first, old(depth)).value, want, found, sel, node, raw, unquote)
      decreases |raw| - first, 3
    {
      hide Decode, Wf, Fits, Text, ReadValue, At, Picked, SpaceEnd, ReadItems, ReadItem, PickedItem, AllSpace;
      node := Word([]);
      sel, found, ok := Span(0, 0), false, false;
      ghost var d := depth;
      var n := 0;
      ghost var b := first;
      ghost var acc: seq<Item> := [];
      OntoNothing(ReadItems(raw, first, d));
      NothingPickedYet(steps, [], want, sel, node, raw, unquote);
      while true
        invariant first <= b <= i <= |raw| && i == SpaceEnd(raw, b)
        invariant depth == d && n == |acc|
        invariant ReadItems(raw, first, d) == Onto(acc, ReadItems(raw, b, d))
        invariant PickedItem(steps, acc, want, found, sel, node, raw, unquote)
        decreases |raw| - b
      {
        ItemsUnfold(raw, b, d);
        if n == want {
          sel, found, ok, node := Value(steps[1..], true);
        } else {
          var _, _, valid, _ := Value([], false);
          ok := valid;
        }
        if !ok { return; }
        SkipSpace();
        ghost var m := ReadItem(raw, b, d).value;
        PickMore(steps, acc, m, want, found, sel, node, raw, unquote);
        if i >= |raw| || (raw[i] != COMMA && raw[i] != RBRACKET) {
          ok := false;
          return;
        }
        i := i + 1;
        if raw[i - 1] == RBRACKET {
          depth := depth - 1;
          return;
        }
        b := i;
        SkipSpace();
        OntoMore(acc, m, ReadItems(raw, b, d));
        acc := acc + [m];
        n := n + 1;
      }
    }

    /** A member's key, as written, and the colon after it. */
    method MemberKey(ghost b: nat) returns (key: bytes, ok: bool)
      requires b <= i <= |raw| && i == SpaceEnd(raw, b)
      modifies this`i
      ensures i <= |raw|
      ensures ok <==> ReadKey(raw, b).Done?
      ensures ok ==> i == ReadKey(raw, b).next && |key| >= 2 && key[1..|key| - 1] == ReadKey(raw, b).value.key
    {
      hide SpaceEnd, ReadString, ReadKey, AllSpace;
      KeyUnfold(raw, b);
      if i >= |raw| || raw[i] != QUOTE { return [], false; }
      var keyStart := i;
      ok := SkipString();
      if !ok { return [], false; }
      key := raw[keyStart..i];
      KeyBody(raw, keyStart);
      SkipSpace();
      if i >= |raw| || raw[i] != COLON { return [], false; }
      i := i + 1;
      SkipSpace();
    }

    method ObjectValue(steps: seq<Step<NumberText>>, selecting: bool)
      returns (sel: Span, found: bool, ok: bool, ghost node: Cst)
      requires i < |raw| && raw[i] == LBRACE && Scannable(steps) && CopiesPlain(unquote)
      requires selecting ==> steps != []
      modifies this
      ensures i <= |raw|
      ensures ok <==> ReadObject(raw, old(i), old(depth)).Done?
      ensures ok ==> i == ReadObject(raw, old(i), old(depth)).next && depth == old(depth)
      ensures ok && selecting ==>
                Picked(Select(steps, Decode(ReadObject(raw, old(i), old(depth)).value, unquote)), found, sel, node, raw, unquote)
      decreases |raw| - i, 1, selecting
    {
      hide Decode, Wf, Fits, Text, ReadValue, At, Picked, SpaceEnd, ReadMembers, PickedMember, AllSpace;
      node := Word([]);
      sel, found, ok := Span(0, 0), false, false;
      depth := depth + 1;
      if depth > MAX_DEPTH { return; }

      var want := [];
      var wanted := false;
      if selecting && steps[0].Child? { want, wanted := steps[0].name, true; }

      i := i + 1;
      ghost var first: nat := i;
      SkipSpace();
      if i < |raw| && raw[i] == RBRACE {
        i := i + 1;
        depth := depth - 1;
        if selecting { EmptyObjectPicked(steps, ReadObject(raw, first - 1, depth).value, sel, node, raw, unquote); }
        return sel, false, true, node;
      }
      sel, found, ok, node := Members(steps, want, wanted, first);
      if ok && selecting {
        ObjectPicked(steps, ReadMembers(raw, first, depth + 1).value, want, wanted, found, sel, node, raw, unquote);
      }
    }

    /** The loop over the members of an object whose brace is behind the cursor. */
    method Members(steps: seq<Step<NumberText>>, want: bytes, wanted: bool, ghost first: nat)
      returns (sel: Span, found: bool, ok: bool, ghost node: Cst)
      requires first <= i <= |raw| && i == SpaceEnd(raw, first) && depth > 0
      requires Scannable(steps) && (wanted ==> steps != []) && CopiesPlain(unquote)
      modifies this
      ensures i <= |raw|
      ensures ok <==> ReadMembers(raw, first, old(depth)).Done?
      ensures ok ==> i == ReadMembers(raw, first, old(depth)).next && depth == old(depth) - 1
      ensures ok ==> PickedMember(steps, ReadMembers(raw, first, old(depth)).value, want, wanted, found, sel, node, raw, unquote)
      decreases |raw| - first, 3
    {
      hide Decode, Wf, Fits, Text, ReadValue, At, Picked, SpaceEnd, ReadMembers, ReadMember, ReadKey, PickedMember;
      hide AllSpace, KeyIs, CopiesPlain;
      node := Word([]);
      sel, found, ok := Span(0, 0), false, false;
      ghost var d := depth;
      ghost var b := first;
      ghost var acc: seq<Member> := [];
      OntoNothing(ReadMembers(raw, first, d));
      NoMemberPickedYet(steps, want, wanted, sel, node, raw, unquote);
      while true
        invariant first <= b <= i <= |raw| && i == SpaceEnd(raw, b)
        invariant depth == d
        invariant ReadMembers(raw, first, d) == Onto(acc, ReadMembers(raw, b, d))
        invariant PickedMember(steps, acc, want, wanted, found, sel, node, raw, unquote)
        decreases |raw| - b
      {
        MembersUnfold(raw, b, d);
        var key, keyOk := MemberKey(b);
        if !keyOk {
          ok := false;
          return;
        }
        KeyIsDecoded(key, want);
        if wanted && KeyIs(key, want) {
          // A repeated key replaces what the earlier one selected.
          sel, found, ok, node := Value(steps[1..], true);
        } else {
          var _, _, valid, _ := Value([], false);
          ok := valid;
        }
        if !ok { return; }
        SkipSpace();
        ghost var m := ReadMember(raw, b, d).value;
        PickMoreMembers(steps, acc, m, want, wanted, found, sel, node, raw, unquote);
        if i >= |raw| || (raw[i] != COMMA && raw[i] != RBRACE) {
          ok := false;
          return;
        }
        i := i + 1;
        if raw[i - 1] == RBRACE {
          depth := depth - 1;
          return;
        }
        b := i;
        SkipSpace();
        OntoMore(acc, m, ReadMembers(raw, b, d));
        acc := acc + [m];
      }
    }
  }

  lemma NumberExpDigits(n: NumberText)
    requires IsNumber(n)
    ensures n.exp.Exp? ==> AllDigits(n.exp.digits)
  {
  }

  // ----- what a pass over a collection has picked so far -----

  lemma KeyBody(raw: bytes, i: nat)
    requires i < |raw| && ReadString(raw, i).Done?
    ensures var r := ReadString(raw, i); var key := raw[i..r.next]; |key| >= 2 && key[1..|key| - 1] == r.value
  {
  }

  lemma ScalarSelectsNothing(steps: seq<Step<NumberText>>, t: Cst, unquote: bytes -> bytes)
    requires Scannable(steps) && steps != [] && !t.Array? && !t.Object?
    ensures Select(steps, Decode(t, unquote)) == None
  {
  }

  /** The element an index step wants, among those passed. */
  ghost function ItemSelected(steps: seq<Step<NumberText>>, acc: seq<Item>, want: int, unquote: bytes -> bytes): Option<Doc>
    requires Scannable(steps) && (want >= 0 ==> steps != [])
  {
    if 0 <= want < |acc| then Select(steps[1..], Decode(acc[want].value, unquote)) else None
  }

  ghost predicate PickedItem(steps: seq<Step<NumberText>>, acc: seq<Item>, want: int,
                             found: bool, sel: Span, node: Cst, raw: bytes, unquote: bytes -> bytes) {
    Scannable(steps) && (want >= 0 ==> steps != [])
    && Picked(ItemSelected(steps, acc, want, unquote), found, sel, node, raw, unquote)
  }

  lemma NothingPickedYet(steps: seq<Step<NumberText>>, acc: seq<Item>, want: int,
                         sel: Span, node: Cst, raw: bytes, unquote: bytes -> bytes)
    requires Scannable(steps) && (want >= 0 ==> steps != []) && acc == []
    ensures PickedItem(steps, acc, want, false, sel, node, raw, unquote)
  {
  }

  lemma PickMore(steps: seq<Step<NumberText>>, acc: seq<Item>, m: Item, want: int,
                 found: bool, sel: Span, node: Cst, raw: bytes, unquote: bytes -> bytes)
    requires Scannable(steps) && (want >= 0 ==> steps != [])
    requires if want == |acc| then Picked(Select(steps[1..], Decode(m.value, unquote)), found, sel, node, raw, unquote)
             else PickedItem(steps, acc, want, found, sel, node, raw, unquote)
    ensures PickedItem(steps, acc + [m], want, found, sel, node, raw, unquote)
  {
    hide Picked, Select, Decode;
    assert want == |acc| ==> (acc + [m])[want] == m;
  }

  lemma ArrayPicked(steps: seq<Step<NumberText>>, acc: seq<Item>, want: int,
                    found: bool, sel: Span, node: Cst, raw: bytes, unquote: bytes -> bytes)
    requires PickedItem(steps, acc, want, found, sel, node, raw, unquote)
    requires steps != [] && want == if steps[0].Index? then steps[0].index else -1
    ensures Picked(Select(steps, Decode(Array([], acc), unquote)), found, sel, node, raw, unquote)
  {
    hide Picked;
  }

  lemma EmptyArrayPicked(steps: seq<Step<NumberText>>, t: Cst, sel: Span, node: Cst, raw: bytes, unquote: bytes -> bytes)
    requires Scannable(steps) && steps != [] && t.Array? && t.items == []
    ensures Picked(Select(steps, Decode(t, unquote)), false, sel, node, raw, unquote)
  {
  }

  /** The member a child step wants, among those passed: the last one of that name. */
  ghost function MemberSelected(steps: seq<Step<NumberText>>, acc: seq<Member>, want: bytes, wanted: bool,
                                unquote: bytes -> bytes): Option<Doc>
    requires Scannable(steps) && (wanted ==> steps != [])
  {
    var members := DecodeMembers(acc, unquote);
    if wanted && want in members then Select(steps[1..], members[want]) else None
  }

  ghost predicate PickedMember(steps: seq<Step<NumberText>>, acc: seq<Member>, want: bytes, wanted: bool,
                               found: bool, sel: Span, node: Cst, raw: bytes, unquote: bytes -> bytes) {
    Scannable(steps) && (wanted ==> steps != [])
    && Picked(MemberSelected(steps, acc, want, wanted, unquote), found, sel, node, raw, unquote)
  }

  lemma NoMemberPickedYet(steps: seq<Step<NumberText>>, want: bytes, wanted: bool,
                          sel: Span, node: Cst, raw: bytes, unquote: bytes -> bytes)
    requires Scannable(steps) && (wanted ==> steps != [])
    ensures PickedMember(steps, [], want, wanted, false, sel, node, raw, unquote)
  {
  }

  lemma PickMoreMembers(steps: seq<Step<NumberText>>, acc: seq<Member>, m: Member, want: bytes, wanted: bool,
                        found: bool, sel: Span, node: Cst, raw: bytes, unquote: bytes -> bytes)
    requires Scannable(steps) && (wanted ==> steps != [])
    requires if wanted && unquote(m.key) == want
             then Picked(Select(steps[1..], Decode(m.value, unquote)), found, sel, node, raw, unquote)
             else PickedMember(steps, acc, want, wanted, found, sel, node, raw, unquote)
    ensures PickedMember(steps, acc + [m], want, wanted, found, sel, node, raw, unquote)
  {
    hide Picked, Select, Decode;
    assert (acc + [m])[..|acc + [m]| - 1] == acc;
  }

  lemma ObjectPicked(steps: seq<Step<NumberText>>, acc: seq<Member>, want: bytes, wanted: bool,
                     found: bool, sel: Span, node: Cst, raw: bytes, unquote: bytes -> bytes)
    requires PickedMember(steps, acc, want, wanted, found, sel, node, raw, unquote)
    requires steps != [] && (wanted <==> steps[0].Child?) && (wanted ==> want == steps[0].name)
    ensures Picked(Select(steps, Decode(Object([], acc), unquote)), found, sel, node, raw, unquote)
  {
    hide Picked, DecodeMembers;
  }

  lemma EmptyObjectPicked(steps: seq<Step<NumberText>>, t: Cst, sel: Span, node: Cst, raw: bytes, unquote: bytes -> bytes)
    requires Scannable(steps) && steps != [] && t.Object? && t.members == []
    ensures Picked(Select(steps, Decode(t, unquote)), false, sel, node, raw, unquote)
  {
    assert DecodeMembers(t.members, unquote) == map[];
  }

  // ----- the two entry points -----

  /** json.Unmarshal into an untyped value. */
  function Unmarshal(raw: bytes, unquote: bytes -> bytes): Option<Doc> {
    match ReadDocument(raw)
    case None => None
    case Some(t) => Some(Decode(t, unquote))
  }

  /** A document is valid exactly when the grammar of RFC 8259 derives it, and then in one way. */
  lemma UnmarshalIffDerivable(raw: bytes, unquote: bytes -> bytes)
    ensures Unmarshal(raw, unquote).Some? <==> exists before, t, after :: IsDocument(before, t, after, raw)
    ensures forall before, t, after :: IsDocument(before, t, after, raw) ==> Unmarshal(raw, unquote) == Some(Decode(t, unquote))
  {
    hide ReadDocument, IsDocument, Decode;
    ReadDocumentSound(raw);
    forall before, t, after | IsDocument(before, t, after, raw)
      ensures ReadDocument(raw) == Some(t)
    {
      ReadDocumentComplete(before, t, after, raw);
    }
  }

  lemma NodeIsDocument(t: Cst)
    requires Wf(t) && Fits(t, 0)
    ensures ReadDocument(Text(t)) == Some(t)
  {
    hide Wf, Fits, Text, ReadDocument;
    assert Text(t) == [] + Text(t) + [];
    assert IsDocument([], t, [], Text(t));
    ReadDocumentComplete([], t, [], Text(t));
  }

  method DecodeNode(node: bytes, unquote: bytes -> bytes, ghost t: Cst) returns (v: Doc)
    requires Wf(t) && Fits(t, 0) && node == Text(t) && CopiesPlain(unquote)
    ensures v == Decode(t, unquote)
  {
    hide Wf, Fits, ReadDocument, CopiesPlain;
    TextStart(t);
    NodeIsDocument(t);
    if node[0] == QUOTE {
      QuotedStart(t);
      var body := node[1..|node| - 1];
      PlainCopied(body, unquote);
      if Plain(body) { return JStr(body); }
    }
    var parsed := Unmarshal(node, unquote);
    return match parsed case Some(x) => x case None => JNull;
  }

  lemma PlainCopied(body: bytes, unquote: bytes -> bytes)
    requires CopiesPlain(unquote)
    ensures Plain(body) ==> unquote(body) == body
  {
  }

  lemma QuotedStart(t: Cst)
    requires Wf(t) && Text(t) != [] && Text(t)[0] == QUOTE
    ensures t.Str? && |Text(t)| >= 2 && Text(t)[1..|Text(t)| - 1] == t.chars
  {
    match t
    case Str(chars) => assert Text(t) == [QUOTE] + chars + [QUOTE];
    case _ =>
  }

  lemma Inside(open: byte, body: bytes, close: byte)
    ensures var s := [open] + (body + [close]); s[1..|s| - 1] == body
  {
  }

  lemma NotBlank(s: bytes, a: bytes, b: bytes, c: bytes)
    requires s == a + (b + c) && b != [] && !IsSpace(b[0])
    ensures !AllSpace(s)
  {
    assert s[|a|] == b[0];
  }

  lemma ItemsNotBlank(items: seq<Item>)
    requires items != [] && Wf(items[0].value)
    ensures !AllSpace(ItemsText(items))
  {
    var m := items[0];
    TextStart(m.value);
    var rest := if |items| == 1 then [] else [COMMA] + ItemsText(items[1..]);
    hide Text, Wf;
    assert ItemsText(items) == ItemText(m) + rest;
    NotBlank(ItemsText(items), m.before, Text(m.value), m.after + rest);
  }

  lemma MembersNotBlank(members: seq<Member>)
    requires members != []
    ensures !AllSpace(MembersText(members))
  {
    hide Text;
    var m := members[0];
    var rest := if |members| == 1 then [] else [COMMA] + MembersText(members[1..]);
    var tail := m.preColon + ([COLON] + (m.postColon + (Text(m.value) + m.after)));
    assert MembersText(members) == (m.before + (Quoted(m.key) + tail)) + rest;
    NotBlank(MembersText(members), m.before, Quoted(m.key), tail + rest);
  }

  /** The bytes between the brackets of a collection are all space exactly when it is empty. */
  lemma BlankIffEmpty(t: Cst)
    requires Wf(t) && (t.Array? || t.Object?)
    ensures |Text(t)| >= 2
    ensures AllSpace(Text(t)[1..|Text(t)| - 1]) <==> (if t.Array? then t.items == [] else t.members == [])
  {
    hide ItemsText, MembersText, AllSpace;
    match t
    case Array(pad, items) =>
      Inside(LBRACKET, if items == [] then pad else ItemsText(items), RBRACKET);
      if items != [] { ItemsNotBlank(items); }
    case Object(pad, members) =>
      Inside(LBRACE, if members == [] then pad else MembersText(members), RBRACE);
      if members != [] { MembersNotBlank(members); }
    case _ =>
  }

  lemma {:induction false} DecodedMembersEmpty(members: seq<Member>, unquote: bytes -> bytes)
    ensures DecodeMembers(members, unquote) == map[] <==> members == []
  {
    if members != [] {
      var last := members[|members| - 1];
      assert unquote(last.key) in DecodeMembers(members, unquote);
    }
  }

  lemma NonEmptyByKind(t: Cst, unquote: bytes -> bytes)
    requires Wf(t)
    ensures NonEmptyNode(Decode(t, unquote)) <==>
            if Text(t) != [] && Text(t)[0] == LOWER_N then false
            else if t.Array? then t.items != []
            else if t.Object? then t.members != []
            else true
    ensures Text(t) != [] && (Text(t)[0] in {LBRACKET, LBRACE} <==> t.Array? || t.Object?)
  {
    TextStart(t);
    match t
    case Number(n) =>
      assert NumberSpelling(n)[0] == if n.minus then MINUS else n.whole[0];
    case Object(_, members) =>
      DecodedMembersEmpty(members, unquote);
    case _ =>
  }

  method NonEmptyRaw(node: bytes, unquote: bytes -> bytes, ghost t: Cst) returns (b: bool)
    requires Wf(t) && node == Text(t)
    ensures b <==> NonEmptyNode(Decode(t, unquote))
  {
    NonEmptyByKind(t, unquote);
    hide Wf, Decode, Text, NonEmptyNode;
    if node[0] == LOWER_N {
      return false;
    } else if node[0] == LBRACKET || node[0] == LBRACE {
      BlankIffEmpty(t);
      var body := node[1..|node| - 1];
      for k := 0 to |body|
        invariant forall h :: 0 <= h < k ==> IsSpace(body[h])
      {
        if !IsSpace(body[k]) { return true; }
      }
      return false;
    } else {
      return true;
    }
  }

  /** One pass over the document: valid or not, and the range of the selected node. */
  method Scan(p: Path<NumberText>, raw: bytes, unquote: bytes -> bytes)
    returns (sel: Span, found: bool, valid: bool, ghost node: Cst)
    requires WellFormedPath(p) && CopiesPlain(unquote)
    ensures valid <==> p.scannable && Unmarshal(raw, unquote).Some?
    ensures valid ==> Picked(Select(p.steps, Unmarshal(raw, unquote).value), found, sel, node, raw, unquote)
  {
    hide Picked, Decode, SpaceEnd, ReadValue, Select, CopiesPlain;
    node := Word([]);
    if !p.scannable { return Span(0, 0), false, false, node; }
    var s := new Scanner(raw, unquote);
    s.SkipSpace();
    sel, found, valid, node := s.Value(p.steps, true);
    if !valid { return Span(0, 0), false, false, node; }
    s.SkipSpace();
    if s.i != |s.raw| { return Span(0, 0), false, false, node; }
  }

  /** The node the scan reports is what the tree evaluation returns for the same document. */
  lemma PickedIsEval(p: Path<NumberText>, doc: Doc)
    requires WellFormedPath(p) && p.scannable
    ensures EvalResult(p, doc) ==
            match Select(p.steps, doc)
            case None => Result(false, true, None, [])
            case Some(x) => Result(true, true, Some(x), [])
  {
    hide Walk, Select;
    WalkIsSelect(p.steps, doc);
    assert Definite(p.steps);
  }

  lemma NonEmptyReached(p: Path<NumberText>, doc: Doc)
    requires WellFormedPath(p) && p.scannable
    ensures (exists x :: Reaches(p.steps, doc, x) && x != JNull && x != JArr([]) && x != JObj(map[]))
       <==> Select(p.steps, doc).Some? && NonEmptyNode(Select(p.steps, doc).value)
  {
    hide Select, Reaches;
    SelectIsReached(p, doc);
  }

  lemma SelectIsReached(p: Path<NumberText>, doc: Doc)
    requires WellFormedPath(p) && p.scannable
    ensures forall x :: Select(p.steps, doc) == Some(x) <==> Reaches(p.steps, doc, x)
  {
    hide Select, Reaches;
    forall x ensures Select(p.steps, doc) == Some(x) <==> Reaches(p.steps, doc, x) { SelectReaches(p.steps, doc, x); }
  }

  /** The bare form, answered over the undecoded document. */
  method MatchBytes(p: Path<NumberText>, raw: bytes, unquote: bytes -> bytes) returns (matched: bool, ok: bool)
    requires WellFormedPath(p) && CopiesPlain(unquote)
    ensures ok <==> p.scannable && Unmarshal(raw, unquote).Some?
    ensures matched <==> ok && Matches(EvalResult(p, Unmarshal(raw, unquote).value))
    ensures matched <==> ok && exists x ::
              Reaches(p.steps, Unmarshal(raw, unquote).value, x) && x != JNull && x != JArr([]) && x != JObj(map[])
  {
    hide Unmarshal, Select, Decode, Text, Wf, Fits, EvalResult, WellFormedPath, Reaches;
    var sel, found, valid, node := Scan(p, raw, unquote);
    if !valid { return false, false; }
    PickedIsEval(p, Unmarshal(raw, unquote).value);
    NonEmptyReached(p, Unmarshal(raw, unquote).value);
    if !found { return false, true; }
    matched := NonEmptyRaw(raw[sel.start..sel.end], unquote, node);
    return matched, true;
  }

  /** The nested form: the result a tree evaluation would have produced. */
  method EvalBytes(p: Path<NumberText>, raw: bytes, unquote: bytes -> bytes) returns (r: Result<NumberText>, ok: bool)
    requires WellFormedPath(p) && CopiesPlain(unquote)
    ensures ok <==> p.scannable && Unmarshal(raw, unquote).Some?
    ensures ok ==> r == EvalResult(p, Unmarshal(raw, unquote).value)
    ensures ok ==> r.definite && r.hits == [] && (r.found <==> r.node.Some?)
    ensures ok ==> forall x :: r.node == Some(x) <==> Reaches(p.steps, Unmarshal(raw, unquote).value, x)
  {
    hide Unmarshal, Select, Decode, Text, Wf, Fits, EvalResult, WellFormedPath, Reaches;
    var sel, found, valid, node := Scan(p, raw, unquote);
    if !valid { return Result(false, false, None, []), false; }
    PickedIsEval(p, Unmarshal(raw, unquote).value);
    SelectIsReached(p, Unmarshal(raw, unquote).value);
    if !found { return Result(false, true, None, []), true; }
    var v := DecodeNode(raw[sel.start..sel.end], unquote, node);
    return Result(true, true, Some(v), []), true;
  }
}
