/** Criteria over the values of one key: any-of belongs to the whole criterion, not to its leaves. */
module KeyCriteria {
  import opened Bytes
  import opened JsonGrammar
  import opened JsonScan

  /**
   A criterion. `AnyValue` is equalTo, contains, matches and the date-time comparisons;
   `NegatedValue` is doesNotContain and doesNotMatch, over the predicate it negates.
   */
  datatype Criterion =
    | AnyValue(pred: bytes -> bool)
    | NegatedValue(pred: bytes -> bool)
    | Absent
    | EqualToJson(same: Doc -> bool, confirm: bytes -> bool)
    | MatchesJsonPath(path: Evaluator, inner: Option<Criterion>, negate: bool)
    | MatchesJsonSchema(valid: Doc -> bool)
    | EqualToXml(read: XmlReader, equal: Xml -> bool)
    | MatchesXPath(reader: XmlReader, nodes: Xml -> seq<bytes>, within: Option<Criterion>)
    | And(parts: seq<Criterion>)
    | Or(parts: seq<Criterion>)
    | Not(part: Criterion)

  /** A compiled path: its bare answer, what it selects, and the text of a selected value. */
  datatype Evaluator = Evaluator(matches: Doc -> bool, select: Doc -> Option<seq<Doc>>, render: Doc -> bytes)

  /** A parsed XML document, known by the text it was parsed from and nothing else. */
  datatype Xml = Xml(text: bytes)

  /** XML parsing: None where a text is not well formed. */
  type XmlReader = bytes -> Option<Xml>

  // ----- meaning -----

  /** The criterion holds of this one value. */
  ghost predicate Holds(c: Criterion, v: bytes, unquote: bytes -> bytes)
    decreases c
  {
    match c
    case AnyValue(pred) => pred(v)
    case NegatedValue(pred) => !pred(v)
    case Absent => false
    case EqualToJson(same, confirm) =>
      Unmarshal(v, unquote).Some? && same(Unmarshal(v, unquote).value) && confirm(v)
    case MatchesJsonPath(_, _, negate) =>
      negate != (Unmarshal(v, unquote).Some? && HoldsOnDocument(c, Unmarshal(v, unquote).value, unquote))
    case MatchesJsonSchema(valid) => Unmarshal(v, unquote).Some? && valid(Unmarshal(v, unquote).value)
    case EqualToXml(read, equal) => read(v).Some? && equal(read(v).value)
    case MatchesXPath(reader, _, _) => reader(v).Some? && HoldsOnNodes(c, reader(v).value, unquote)
    case And(parts) => forall i :: 0 <= i < |parts| ==> Holds(parts[i], v, unquote)
    case Or(parts) => exists i :: 0 <= i < |parts| && Holds(parts[i], v, unquote)
    case Not(part) => !Holds(part, v, unquote)
  }

  /** The path selects something non-empty, or some selected non-null value the inner criterion holds of. */
  ghost predicate HoldsOnDocument(c: Criterion, doc: Doc, unquote: bytes -> bytes)
    requires c.MatchesJsonPath?
    decreases c, 0
  {
    match c.inner
    case None => c.path.matches(doc)
    case Some(inner) =>
      var selected := c.path.select(doc);
      selected.Some?
      && (exists i :: 0 <= i < |selected.value|
            && !selected.value[i].JNull? && Holds(inner, c.path.render(selected.value[i]), unquote))
  }

  /** The expression selects a node, one whose text the inner criterion holds of where there is one. */
  ghost predicate HoldsOnNodes(c: Criterion, doc: Xml, unquote: bytes -> bytes)
    requires c.MatchesXPath?
    decreases c, 0
  {
    match c.within
    case None => c.nodes(doc) != []
    case Some(inner) => exists i :: 0 <= i < |c.nodes(doc)| && Holds(inner, c.nodes(doc)[i], unquote)
  }

  /** A key that is not there. Strict absence fails every combinator before its operands are asked. */
  ghost predicate HoldsAbsent(c: Criterion, strict: bool) {
    match c
    case AnyValue(_) => false
    case NegatedValue(_) => !strict
    case Absent => true
    case EqualToJson(_, _) => false
    case MatchesJsonPath(_, _, negate) => negate
    case MatchesJsonSchema(_) => false
    case EqualToXml(_, _) => false
    case MatchesXPath(_, _, _) => false
    case And(parts) => !strict && forall i :: 0 <= i < |parts| ==> HoldsAbsent(parts[i], strict)
    case Or(parts) => !strict && exists i :: 0 <= i < |parts| && HoldsAbsent(parts[i], strict)
    case Not(part) => !strict && !HoldsAbsent(part, strict)
  }

  /** A key that is there and carries no value. */
  ghost predicate HoldsEmpty(c: Criterion) {
    match c
    case AnyValue(_) => false
    case NegatedValue(_) => true
    case Absent => false
    case EqualToJson(_, _) => false
    case MatchesJsonPath(_, _, negate) => negate
    case MatchesJsonSchema(_) => false
    case EqualToXml(_, _) => false
    case MatchesXPath(_, _, _) => false
    case And(parts) => forall i :: 0 <= i < |parts| ==> HoldsEmpty(parts[i])
    case Or(parts) => exists i :: 0 <= i < |parts| && HoldsEmpty(parts[i])
    case Not(part) => !HoldsEmpty(part)
  }

  /** What a key is bound to. */
  datatype Binding = Binding(present: bool, values: seq<bytes>, strict: bool)

  /** Some single value satisfies the whole criterion. */
  ghost predicate Satisfies(c: Criterion, b: Binding, unquote: bytes -> bytes) {
    if !b.present then HoldsAbsent(c, b.strict)
    else if b.values == [] then HoldsEmpty(c)
    else exists k :: 0 <= k < |b.values| && Holds(c, b.values[k], unquote)
  }

  // ----- the subjects -----

  datatype JsonState = Unparsed | Parsed(doc: Doc) | Invalid

  /** The memo agrees with the first value. */
  predicate MemoOf(state: JsonState, b: Binding, unquote: bytes -> bytes) {
    var doc := if b.present && b.values != [] then Unmarshal(b.values[0], unquote) else None;
    match state
    case Unparsed => true
    case Parsed(d) => doc == Some(d)
    case Invalid => doc == None
  }

  /** A header, query parameter, cookie or form field, its JSON reading memoized. */
  class KeyValues {
    const unquote: bytes -> bytes
    var present: bool
    var values: seq<bytes>
    var strictAbsence: bool
    var state: JsonState

    ghost predicate Valid()
      reads this
    {
      MemoOf(state, Bound(), unquote)
    }

    ghost function Bound(): Binding
      reads this
    {
      Binding(present, values, strictAbsence)
    }

    constructor (unquote: bytes -> bytes, values: seq<bytes>)
      ensures Valid() && Bound() == Binding(true, values, false) && this.unquote == unquote
    {
      this.unquote := unquote;
      this.present, this.values, this.strictAbsence, this.state := true, values, false, Unparsed;
    }

    method Set(present: bool, values: seq<bytes>)
      modifies this
      ensures Valid() && Bound() == Binding(present, values, false)
    {
      this.present, this.values, strictAbsence, state := present, values, false, Unparsed;
    }

    method SetStrictAbsence(present: bool, values: seq<bytes>)
      modifies this
      ensures Valid() && Bound() == Binding(present, values, true)
    {
      Set(present, values);
      strictAbsence := true;
    }

    /** Parsed at most once, however many criteria ask. */
    method Json() returns (doc: Option<Doc>)
      requires Valid()
      modifies this`state
      ensures Valid()
      ensures doc == if present && values != [] then Unmarshal(values[0], unquote) else None
    {
      hide Unmarshal;
      if state == Unparsed {
        state := Invalid;
        if present && |values| > 0 {
          var parsed := Unmarshal(values[0], unquote);
          if parsed.Some? { state := Parsed(parsed.value); }
        }
      }
      doc := if state.Parsed? then Some(state.doc) else None;
    }
  }

  /** One value of a repeated key, refilled by the combinator that owns it. */
  class SingleValue {
    const unquote: bytes -> bytes
    var value: bytes
    var state: JsonState

    ghost predicate Valid()
      reads this
    {
      MemoOf(state, Bound(), unquote)
    }

    ghost function Bound(): Binding
      reads this
    {
      Binding(true, [value], false)
    }

    constructor (unquote: bytes -> bytes)
      ensures Valid() && this.unquote == unquote
    {
      this.unquote, value, state := unquote, [], Unparsed;
    }

    method Set(v: bytes)
      modifies this
      ensures Valid() && Bound() == Binding(true, [v], false)
    {
      value, state := v, Unparsed;
    }

    method Json() returns (doc: Option<Doc>)
      requires Valid()
      modifies this`state
      ensures Valid() && doc == Unmarshal(value, unquote)
    {
      hide Unmarshal;
      if state == Unparsed {
        state := Invalid;
        var parsed := Unmarshal(value, unquote);
        if parsed.Some? { state := Parsed(parsed.value); }
      }
      doc := if state.Parsed? then Some(state.doc) else None;
    }
  }

  /** What a criterion is applied to. Only a key can be bound to a second value. */
  datatype Subject = Key(key: KeyValues) | View(view: SingleValue) {
    ghost function Object(): object {
      match this case Key(k) => k case View(v) => v
    }

    ghost predicate Valid()
      reads Object()
    {
      match this case Key(k) => k.Valid() case View(v) => v.Valid()
    }

    ghost function Bound(): Binding
      reads Object()
    {
      match this case Key(k) => k.Bound() case View(v) => v.Bound()
    }

    function Unquote(): bytes -> bytes {
      match this case Key(k) => k.unquote case View(v) => v.unquote
    }

    function Present(): bool
      reads if Key? then {key} else {}
    {
      match this case Key(k) => k.present case View(_) => true
    }

    function Values(): seq<bytes>
      reads if Key? then {key as object} else {view}
    {
      match this case Key(k) => k.values case View(v) => [v.value]
    }

    function AbsenceFails(): bool
      reads if Key? then {key} else {}
    {
      match this case Key(k) => k.strictAbsence case View(_) => false
    }

    /** The values a whole criterion must be applied to one at a time. */
    function PerValueScope(): Option<seq<bytes>>
      reads if Key? then {key} else {}
    {
      match this
      case Key(k) => if !k.present || |k.values| < 2 then None else Some(k.values)
      case View(_) => None
    }

    method Json() returns (doc: Option<Doc>)
      requires Valid()
      modifies Object()
      ensures Valid() && Bound() == old(Bound())
      ensures doc == if Bound().present && Bound().values != [] then Unmarshal(Bound().values[0], Unquote()) else None
    {
      hide Unmarshal, MemoOf;
      match this
      case Key(k) => doc := k.Json();
      case View(v) => doc := v.Json();
    }
  }

  // ----- the matchers -----

  method MatchAnyValue(s: Subject, pred: bytes -> bool) returns (b: bool)
    requires s.Valid()
    ensures forall u :: b == Satisfies(AnyValue(pred), s.Bound(), u)
    ensures b <==> s.Bound().present && exists k :: 0 <= k < |s.Bound().values| && pred(s.Bound().values[k])
  {
    if !s.Present() { return false; }
    var values := s.Values();
    if |values| == 0 { return false; }
    for k := 0 to |values|
      invariant forall h :: 0 <= h < k ==> !pred(values[h])
    {
      if pred(values[k]) { return true; }
    }
    return false;
  }

  method MatchNegatedValue(s: Subject, pred: bytes -> bool) returns (b: bool)
    requires s.Valid()
    ensures forall u :: b == Satisfies(NegatedValue(pred), s.Bound(), u)
    ensures b <==> if !s.Bound().present then !s.Bound().strict
                   else s.Bound().values == [] || exists k :: 0 <= k < |s.Bound().values| && !pred(s.Bound().values[k])
  {
    if !s.Present() { return !s.AbsenceFails(); }
    var values := s.Values();
    if |values| == 0 { return true; }
    for k := 0 to |values|
      invariant forall h :: 0 <= h < k ==> pred(values[h])
    {
      if !pred(values[k]) { return true; }
    }
    return false;
  }

  method Match(c: Criterion, s: Subject) returns (b: bool)
    requires s.Valid()
    modifies s.Object()
    ensures s.Valid() && s.Bound() == old(s.Bound())
    ensures b <==> Satisfies(c, s.Bound(), s.Unquote())
    decreases c, 4
  {
    match c
    case AnyValue(pred) => b := MatchAnyValue(s, pred);
    case NegatedValue(pred) => b := MatchNegatedValue(s, pred);
    case Absent => b := !s.Present();
    case EqualToJson(_, _) => b := MatchDocument(c, s);
    case MatchesJsonPath(_, _, _) => b := MatchDocument(c, s);
    case MatchesJsonSchema(_) => b := MatchDocument(c, s);
    case EqualToXml(_, _) => b := MatchDocument(c, s);
    case MatchesXPath(_, _, _) => b := MatchDocument(c, s);
    case And(_) => b := MatchCombined(c, s);
    case Or(_) => b := MatchCombined(c, s);
    case Not(_) => b := MatchCombined(c, s);
  }

  predicate Combinator(c: Criterion) { c.And? || c.Or? || c.Not? }

  predicate ReadsDocument(c: Criterion) {
    c.EqualToJson? || c.MatchesJsonPath? || c.MatchesJsonSchema? || c.EqualToXml? || c.MatchesXPath?
  }

  /** Strict absence first, then one value at a time, then the criterion itself. */
  method MatchCombined(c: Criterion, s: Subject) returns (b: bool)
    requires Combinator(c) && s.Valid()
    modifies s.Object()
    ensures s.Valid() && s.Bound() == old(s.Bound())
    ensures b <==> Satisfies(c, s.Bound(), s.Unquote())
    decreases c, 3
  {
    hide Holds, MemoOf, Unmarshal;
    if !s.Present() {
      if s.AbsenceFails() { return false; }
      b := MatchOne(c, s);
      return;
    }
    var values := s.PerValueScope();
    if values.Some? {
      b := MatchEach(c, values.value, s.Unquote());
      return;
    }
    b := MatchOne(c, s);
  }

  method MatchDocument(c: Criterion, s: Subject) returns (b: bool)
    requires ReadsDocument(c) && s.Valid()
    modifies s.Object()
    ensures s.Valid() && s.Bound() == old(s.Bound())
    ensures b <==> Satisfies(c, s.Bound(), s.Unquote())
    decreases c, 3
  {
    hide Holds, MemoOf, Unmarshal;
    var values := s.PerValueScope();
    if values.Some? {
      b := MatchEach(c, values.value, s.Unquote());
      return;
    }
    b := MatchOne(c, s);
  }

  method MatchEach(c: Criterion, values: seq<bytes>, unquote: bytes -> bytes) returns (b: bool)
    requires Combinator(c) || ReadsDocument(c)
    ensures b <==> exists k :: 0 <= k < |values| && Holds(c, values[k], unquote)
    decreases c, 2
  {
    hide Holds, MemoOf;
    var view := new SingleValue(unquote);
    for k := 0 to |values|
      invariant fresh(view) && view.Valid() && view.unquote == unquote
      invariant forall h :: 0 <= h < k ==> !Holds(c, values[h], unquote)
    {
      view.Set(values[k]);
      b := MatchOne(c, View(view));
      OneValue(c, values[k], unquote);
      if b { return true; }
    }
    return false;
  }

  lemma OneValue(c: Criterion, v: bytes, unquote: bytes -> bytes)
    ensures Satisfies(c, Binding(true, [v], false), unquote) <==> Holds(c, v, unquote)
  {
    var b := Binding(true, [v], false);
    assert b.values[0] == v;
  }

  /** A subject of at most one value. */
  method MatchOne(c: Criterion, s: Subject) returns (b: bool)
    requires (Combinator(c) || ReadsDocument(c)) && s.Valid()
    requires s.Bound().present ==> |s.Bound().values| <= 1
    requires Combinator(c) && !s.Bound().present ==> !s.Bound().strict
    modifies s.Object()
    ensures s.Valid() && s.Bound() == old(s.Bound())
    ensures b <==> Satisfies(c, s.Bound(), s.Unquote())
    decreases c, 1
  {
    hide MemoOf, Unmarshal;
    ghost var bound, unquote := s.Bound(), s.Unquote();
    match c
    case And(parts) =>
      for i := 0 to |parts|
        invariant s.Valid() && s.Bound() == bound
        invariant forall h :: 0 <= h < i ==> Satisfies(parts[h], bound, unquote)
      {
        b := Match(parts[i], s);
        if !b { AndFails(c, i, bound, unquote); return false; }
      }
      AndHolds(c, bound, unquote);
      return true;
    case Or(parts) =>
      for i := 0 to |parts|
        invariant s.Valid() && s.Bound() == bound
        invariant forall h :: 0 <= h < i ==> !Satisfies(parts[h], bound, unquote)
      {
        b := Match(parts[i], s);
        if b { OrHolds(c, i, bound, unquote); return true; }
      }
      OrFails(c, bound, unquote);
      return false;
    case Not(part) =>
      b := Match(part, s);
      b := !b;
      NotFlips(c, bound, unquote);
    case EqualToJson(same, confirm) =>
      if !s.Present() { return false; }
      var doc := s.Json();
      if doc.None? { return false; }
      if !same(doc.value) { return false; }
      return confirm(s.Values()[0]);
    case MatchesJsonPath(_, _, negate) =>
      b := Evaluate(c, s);
      if negate { b := !b; }
    case MatchesJsonSchema(valid) =>
      var doc := s.Json();
      if doc.None? { return false; }
      return valid(doc.value);
    case EqualToXml(read, equal) =>
      var doc := SubjectXml(s, read);
      return doc.Some? && equal(doc.value);
    case MatchesXPath(reader, _, _) =>
      var doc := SubjectXml(s, reader);
      if doc.None? { return false; }
      b := SelectsNode(c, doc.value, s.Unquote());
  }

  /** A key's XML reading is its first value's; it has no memo. */
  method SubjectXml(s: Subject, read: XmlReader) returns (doc: Option<Xml>)
    requires s.Valid()
    ensures doc == if s.Bound().present && s.Bound().values != [] then read(s.Bound().values[0]) else None
  {
    if !s.Present() { return None; }
    var values := s.Values();
    if |values| == 0 { return None; }
    return read(values[0]);
  }

  method SelectsNode(c: Criterion, doc: Xml, unquote: bytes -> bytes) returns (b: bool)
    requires c.MatchesXPath?
    ensures b <==> HoldsOnNodes(c, doc, unquote)
    decreases c, 0
  {
    hide Holds, MemoOf;
    var nodes := c.nodes(doc);
    for i := 0 to |nodes|
      invariant match c.within case None => i == 0 case Some(inner) => forall h :: 0 <= h < i ==> !Holds(inner, nodes[h], unquote)
    {
      if c.within.None? { return true; }
      var view := new SingleValue(unquote);
      view.Set(nodes[i]);
      assert View(view).Object() == view;
      b := Match(c.within.value, View(view));
      OneValue(c.within.value, nodes[i], unquote);
      if b { return true; }
    }
    return false;
  }

  /** The operands see the same single value, the same absence. */
  predicate Single(b: Binding) { if b.present then |b.values| <= 1 else !b.strict }

  lemma AndFails(c: Criterion, i: nat, b: Binding, unquote: bytes -> bytes)
    requires c.And? && i < |c.parts| && Single(b) && !Satisfies(c.parts[i], b, unquote)
    ensures !Satisfies(c, b, unquote)
  {
  }

  lemma AndHolds(c: Criterion, b: Binding, unquote: bytes -> bytes)
    requires c.And? && Single(b) && forall i :: 0 <= i < |c.parts| ==> Satisfies(c.parts[i], b, unquote)
    ensures Satisfies(c, b, unquote)
  {
    if b.present && b.values != [] {
      forall i | 0 <= i < |c.parts| ensures Holds(c.parts[i], b.values[0], unquote) {
        assert Satisfies(c.parts[i], b, unquote);
      }
      assert Holds(c, b.values[0], unquote);
    } else {
      assert forall i :: 0 <= i < |c.parts| ==>
        Satisfies(c.parts[i], b, unquote) == if b.present then HoldsEmpty(c.parts[i]) else HoldsAbsent(c.parts[i], b.strict);
    }
  }

  lemma OrHolds(c: Criterion, i: nat, b: Binding, unquote: bytes -> bytes)
    requires c.Or? && i < |c.parts| && Single(b) && Satisfies(c.parts[i], b, unquote)
    ensures Satisfies(c, b, unquote)
  {
    if b.present && b.values != [] {
      assert Holds(c.parts[i], b.values[0], unquote);
      assert Holds(c, b.values[0], unquote);
    }
  }

  lemma OrFails(c: Criterion, b: Binding, unquote: bytes -> bytes)
    requires c.Or? && Single(b) && forall i :: 0 <= i < |c.parts| ==> !Satisfies(c.parts[i], b, unquote)
    ensures !Satisfies(c, b, unquote)
  {
    assert forall i :: 0 <= i < |c.parts| ==>
      Satisfies(c.parts[i], b, unquote) ==
      if !b.present then HoldsAbsent(c.parts[i], b.strict)
      else if b.values == [] then HoldsEmpty(c.parts[i])
      else Holds(c.parts[i], b.values[0], unquote);
  }

  lemma NotFlips(c: Criterion, b: Binding, unquote: bytes -> bytes)
    requires c.Not? && Single(b)
    ensures Satisfies(c, b, unquote) <==> !Satisfies(c.part, b, unquote)
  {
    if b.present && b.values != [] {
      assert |b.values| == 1;
      assert Holds(c, b.values[0], unquote) <==> !Holds(c.part, b.values[0], unquote);
    }
  }

  method Evaluate(c: Criterion, s: Subject) returns (b: bool)
    requires c.MatchesJsonPath? && s.Valid() && (s.Bound().present ==> |s.Bound().values| <= 1)
    modifies s.Object()
    ensures s.Valid() && s.Bound() == old(s.Bound())
    ensures b <==> s.Bound().present && s.Bound().values != []
                   && Unmarshal(s.Bound().values[0], s.Unquote()).Some?
                   && HoldsOnDocument(c, Unmarshal(s.Bound().values[0], s.Unquote()).value, s.Unquote())
    decreases c, 0
  {
    hide MemoOf, Unmarshal, Holds;
    if !s.Present() { return false; }
    var doc := s.Json();
    if doc.None? { return false; }
    ghost var subject := s.Object();
    match c.inner
    case None => return c.path.matches(doc.value);
    case Some(inner) =>
      var selected := c.path.select(doc.value);
      if selected.None? { return false; }
      var values := selected.value;
      for i := 0 to |values|
        invariant s.Valid() && s.Bound() == old(s.Bound())
        invariant forall h :: 0 <= h < i ==> values[h].JNull? || !Holds(inner, c.path.render(values[h]), s.Unquote())
      {
        if !values[i].JNull? {
          var key := new KeyValues(s.Unquote(), [c.path.render(values[i])]);
          assert Key(key).Object() == key && key != subject;
          b := Match(inner, Key(key));
          OneValue(inner, c.path.render(values[i]), s.Unquote());
          if b { return true; }
        }
      }
      return false;
  }

  // ----- consequences -----

  /** The any-of rule: a key matches exactly when one of its values alone would. */
  lemma AnyOf(c: Criterion, b: Binding, unquote: bytes -> bytes)
    requires b.present && b.values != []
    ensures Satisfies(c, b, unquote) <==>
            exists k :: 0 <= k < |b.values| && Satisfies(c, b.(values := [b.values[k]]), unquote)
  {
    hide Holds;
    forall k | 0 <= k < |b.values|
      ensures Satisfies(c, b.(values := [b.values[k]]), unquote) <==> Holds(c, b.values[k], unquote)
    {
      assert b.(values := [b.values[k]]).values[0] == b.values[k];
    }
  }

  /** The values agree about a criterion. */
  ghost predicate Agree(c: Criterion, values: seq<bytes>, unquote: bytes -> bytes) {
    forall i :: 0 <= i < |values| ==> Holds(c, values[i], unquote) == Holds(c, values[0], unquote)
  }

  /** So negation is complement only while the values agree. */
  lemma NotIsComplementIffAgree(c: Criterion, b: Binding, unquote: bytes -> bytes)
    requires b.present && b.values != []
    ensures (Satisfies(Not(c), b, unquote) <==> !Satisfies(c, b, unquote)) <==> Agree(c, b.values, unquote)
  {
    forall v ensures Holds(Not(c), v, unquote) <==> !Holds(c, v, unquote) {}
    FlippedIsComplementIffAgree(Not(c), c, b, unquote);
  }

  /** The same of the negated leaves. */
  lemma NegatedIsComplementIffAgree(pred: bytes -> bool, b: Binding, unquote: bytes -> bytes)
    requires b.present && b.values != []
    ensures (Satisfies(NegatedValue(pred), b, unquote) <==> !Satisfies(AnyValue(pred), b, unquote))
       <==> Agree(AnyValue(pred), b.values, unquote)
  {
    forall v ensures Holds(NegatedValue(pred), v, unquote) <==> !Holds(AnyValue(pred), v, unquote) {}
    FlippedIsComplementIffAgree(NegatedValue(pred), AnyValue(pred), b, unquote);
  }

  lemma FlippedIsComplementIffAgree(flipped: Criterion, c: Criterion, b: Binding, unquote: bytes -> bytes)
    requires b.present && b.values != []
    requires forall v :: Holds(flipped, v, unquote) <==> !Holds(c, v, unquote)
    ensures (Satisfies(flipped, b, unquote) <==> !Satisfies(c, b, unquote)) <==> Agree(c, b.values, unquote)
  {
    hide Holds;
    var vs := b.values;
    if Holds(c, vs[0], unquote) {
      assert Satisfies(c, b, unquote);
    } else {
      assert Holds(flipped, vs[0], unquote);
      assert Satisfies(flipped, b, unquote);
    }
  }

  /** Strict absence fails everything but a bare absent, and a negated path. */
  lemma StrictAbsence(c: Criterion)
    ensures HoldsAbsent(c, true) <==> c.Absent? || (c.MatchesJsonPath? && c.negate)
  {
  }

  /** The text of a node is one value, bound on its own. */
  function Alone(v: bytes): Binding { Binding(true, [v], false) }

  /** What the document leaves ask of one value. */
  lemma DocumentLeaf(c: Criterion, v: bytes, unquote: bytes -> bytes)
    ensures c.EqualToJson? ==>
              (Satisfies(c, Alone(v), unquote) <==> exists doc :: Unmarshal(v, unquote) == Some(doc) && c.same(doc) && c.confirm(v))
    ensures c.MatchesJsonSchema? ==> (Satisfies(c, Alone(v), unquote) <==> exists doc :: Unmarshal(v, unquote) == Some(doc) && c.valid(doc))
    ensures c.EqualToXml? ==> (Satisfies(c, Alone(v), unquote) <==> exists doc :: c.read(v) == Some(doc) && c.equal(doc))
    ensures c.MatchesJsonPath? && c.negate ==>
              (Satisfies(c, Alone(v), unquote) <==> !Satisfies(c.(negate := false), Alone(v), unquote))
    ensures c.MatchesJsonPath? && !c.negate && c.inner.None? ==>
              (Satisfies(c, Alone(v), unquote) <==> exists doc :: Unmarshal(v, unquote) == Some(doc) && c.path.matches(doc))
    ensures c.MatchesXPath? && c.within.None? ==>
              (Satisfies(c, Alone(v), unquote) <==> exists doc :: c.reader(v) == Some(doc) && c.nodes(doc) != [])
  {
    hide Unmarshal;
    OneValue(c, v, unquote);
    if c.MatchesJsonPath? && c.negate { NegatedPath(c, v, unquote); }
  }

  lemma NegatedPath(c: Criterion, v: bytes, unquote: bytes -> bytes)
    requires c.MatchesJsonPath? && c.negate
    ensures Satisfies(c, Alone(v), unquote) <==> !Satisfies(c.(negate := false), Alone(v), unquote)
  {
    hide Unmarshal;
    OneValue(c, v, unquote);
    OneValue(c.(negate := false), v, unquote);
  }

  /** And with a criterion inside: that some node selected, which is not null, has a text the criterion accepts alone. */
  lemma InnerPathLeaf(c: Criterion, v: bytes, unquote: bytes -> bytes)
    requires c.MatchesJsonPath? && !c.negate && c.inner.Some?
    ensures Satisfies(c, Alone(v), unquote) <==>
            exists doc, nodes, x :: Unmarshal(v, unquote) == Some(doc) && c.path.select(doc) == Some(nodes) && x in nodes && x != JNull
              && Satisfies(c.inner.value, Alone(c.path.render(x)), unquote)
  {
    OneValue(c, v, unquote);
    forall x ensures Satisfies(c.inner.value, Alone(c.path.render(x)), unquote) <==> Holds(c.inner.value, c.path.render(x), unquote) {
      OneValue(c.inner.value, c.path.render(x), unquote);
    }
    hide Unmarshal, Satisfies;
    if Holds(c, v, unquote) {
      var doc := Unmarshal(v, unquote).value;
      var nodes := c.path.select(doc).value;
      var i :| 0 <= i < |nodes| && !nodes[i].JNull? && Holds(c.inner.value, c.path.render(nodes[i]), unquote);
      assert nodes[i] in nodes && nodes[i] != JNull;
    }
    if doc, nodes, x :|
      Unmarshal(v, unquote) == Some(doc) && c.path.select(doc) == Some(nodes) && x in nodes && x != JNull
      && Satisfies(c.inner.value, Alone(c.path.render(x)), unquote)
    {
      var i :| 0 <= i < |nodes| && nodes[i] == x;
      assert HoldsOnDocument(c, doc, unquote);
    }
  }

  lemma InnerXPathLeaf(c: Criterion, v: bytes, unquote: bytes -> bytes)
    requires c.MatchesXPath? && c.within.Some?
    ensures Satisfies(c, Alone(v), unquote) <==>
            exists doc, x :: c.reader(v) == Some(doc) && x in c.nodes(doc) && Satisfies(c.within.value, Alone(x), unquote)
  {
    OneValue(c, v, unquote);
    forall x ensures Satisfies(c.within.value, Alone(x), unquote) <==> Holds(c.within.value, x, unquote) {
      OneValue(c.within.value, x, unquote);
    }
    hide Satisfies;
    if Holds(c, v, unquote) {
      var doc := c.reader(v).value;
      var i :| 0 <= i < |c.nodes(doc)| && Holds(c.within.value, c.nodes(doc)[i], unquote);
      assert c.nodes(doc)[i] in c.nodes(doc);
    }
    if doc, x :| c.reader(v) == Some(doc) && x in c.nodes(doc) && Satisfies(c.within.value, Alone(x), unquote) {
      var i :| 0 <= i < |c.nodes(doc)| && c.nodes(doc)[i] == x;
      assert HoldsOnNodes(c, doc, unquote);
    }
  }

  // ----- one truth table for a value, for no value and for no key -----

  /** The connectives over whatever the leaves say. */
  ghost predicate Truth(c: Criterion, leaf: Criterion -> bool) {
    match c
    case And(parts) => forall i :: 0 <= i < |parts| ==> Truth(parts[i], leaf)
    case Or(parts) => !forall i :: 0 <= i < |parts| ==> !Truth(parts[i], leaf)
    case Not(part) => !Truth(part, leaf)
    case _ => leaf(c)
  }

  /** The leaves that say no to something. */
  predicate Negated(c: Criterion) { c.NegatedValue? || (c.MatchesJsonPath? && c.negate) }

  /**
   A criterion is its connectives over its leaves. On a key without a value the negated leaves
   hold and no others, and on a key that is not there also a bare absent.
   */
  lemma {:induction false} OneTruth(c: Criterion, v: bytes, unquote: bytes -> bytes, onValue: Criterion -> bool,
                                    onAbsent: Criterion -> bool)
    requires forall l :: onValue(l) <==> Holds(l, v, unquote)
    requires forall l :: onAbsent(l) <==> Negated(l) || l.Absent?
    ensures Holds(c, v, unquote) <==> Truth(c, onValue)
    ensures HoldsEmpty(c) <==> Truth(c, Negated)
    ensures HoldsAbsent(c, false) <==> Truth(c, onAbsent)
    decreases c
  {
    match c
    case And(parts) =>
      forall i | 0 <= i < |parts|
        ensures Holds(parts[i], v, unquote) <==> Truth(parts[i], onValue)
        ensures (HoldsEmpty(parts[i]) <==> Truth(parts[i], Negated)) && (HoldsAbsent(parts[i], false) <==> Truth(parts[i], onAbsent))
      {
        OneTruth(parts[i], v, unquote, onValue, onAbsent);
      }
    case Or(parts) =>
      forall i | 0 <= i < |parts|
        ensures Holds(parts[i], v, unquote) <==> Truth(parts[i], onValue)
        ensures (HoldsEmpty(parts[i]) <==> Truth(parts[i], Negated)) && (HoldsAbsent(parts[i], false) <==> Truth(parts[i], onAbsent))
      {
        OneTruth(parts[i], v, unquote, onValue, onAbsent);
      }
    case Not(part) => OneTruth(part, v, unquote, onValue, onAbsent);
    case _ =>
  }
}
