/** Writing a value as JSON and decoding it gives the value back. */
module JsonRoundTrip {
  import opened Bytes
  import opened JsonGrammar
  import opened JsonReader
  import opened JsonScan
  import opened ExactNumbers

  // ----- writing -----

  /** The parts with commas between them. */
  function Joined(parts: seq<bytes>): bytes {
    if parts == [] then [] else if |parts| == 1 then parts[0] else parts[0] + (Ascii(",") + Joined(parts[1..]))
  }

  function InQuotes(s: bytes): bytes { Ascii("\"") + (s + Ascii("\"")) }

  predicate Distinct(names: seq<bytes>) { forall i, k :: 0 <= i < k < |names| ==> names[i] != names[k] }

  function Pairs(names: seq<bytes>, parts: seq<bytes>): seq<bytes>
    requires |parts| == |names|
  {
    seq(|names|, i requires 0 <= i < |names| => InQuotes(names[i]) + (Ascii(":") + parts[i]))
  }

  /** These bytes write the value, without white space and with its members in some order. */
  ghost predicate Spells(raw: bytes, v: Doc)
    decreases v
  {
    match v
    case JNull => raw == Ascii("null")
    case JBool(b) => raw == if b then Ascii("true") else Ascii("false")
    case JNum(n) => raw == NumberSpelling(n)
    case JStr(s) => raw == InQuotes(s)
    case JArr(elems) =>
      exists parts: seq<bytes> ::
        |parts| == |elems| && raw == Ascii("[") + (Joined(parts) + Ascii("]"))
        && forall i :: 0 <= i < |elems| ==> Spells(parts[i], elems[i])
    case JObj(members) =>
      exists names: seq<bytes>, parts: seq<bytes> ::
        |parts| == |names| && Distinct(names) && (forall k :: k in members <==> k in names)
        && raw == Ascii("{") + (Joined(Pairs(names, parts)) + Ascii("}"))
        && forall i :: 0 <= i < |names| && names[i] in members ==> Spells(parts[i], members[names[i]])
  }

  /** Printable ASCII that needs no escape. */
  predicate Bare(s: bytes) { forall k :: 0 <= k < |s| ==> 32 <= s[k] < 128 && s[k] != QUOTE && s[k] != BACKSLASH }

  /** Bare strings, numbers a decode does not refuse, and no deeper than the limit. */
  predicate Writable(v: Doc, depth: nat) {
    match v
    case JNum(n) => IsNumber(n) && InRange(n)
    case JStr(s) => Bare(s)
    case JArr(elems) => depth < 10000 && forall i :: 0 <= i < |elems| ==> Writable(elems[i], depth + 1)
    case JObj(members) => depth < 10000 && forall k :: k in members ==> Bare(k) && Writable(members[k], depth + 1)
    case _ => true
  }

  // ----- and reading back -----

  /** The bytes are the text of a derivation of the value. */
  ghost predicate Derives(t: Cst, raw: bytes, v: Doc, depth: nat, unquote: bytes -> bytes) {
    Text(t) == raw && Wf(t) && Fits(t, depth) && Decode(t, unquote) == v
  }

  lemma {:induction false} BareIsChars(s: bytes)
    requires Bare(s)
    ensures IsChars(s) && Plain(s)
  {
    if s != [] { BareIsChars(s[1..]); }
  }

  lemma Words()
    ensures Ascii("null") == NULL_WORD && Ascii("true") == TRUE_WORD && Ascii("false") == FALSE_WORD
    ensures Ascii("\"") == [QUOTE] && Ascii(",") == [COMMA] && Ascii(":") == [COLON]
    ensures Ascii("[") == [LBRACKET] && Ascii("]") == [RBRACKET] && Ascii("{") == [LBRACE] && Ascii("}") == [RBRACE]
  {
  }

  lemma {:induction false} DerivationOf(raw: bytes, v: Doc, depth: nat, unquote: bytes -> bytes) returns (t: Cst)
    requires Spells(raw, v) && Writable(v, depth) && CopiesPlain(unquote)
    ensures Derives(t, raw, v, depth, unquote)
    decreases v, 1
  {
    Words();
    hide Ascii;
    match v
    case JNull => t := Word(NULL_WORD);
    case JBool(b) => t := Word(if b then TRUE_WORD else FALSE_WORD);
    case JNum(n) => t := Number(n);
    case JStr(s) =>
      t := Str(s);
      BareIsChars(s);
    case JArr(elems) => t := ArrayOf(raw, elems, depth, unquote);
    case JObj(members) => t := ObjectOf(raw, v, depth, unquote);
  }

  /** The parts an array is written from. */
  ghost predicate JoinedFrom(parts: seq<bytes>, raw: bytes, elems: seq<Doc>) {
    |parts| == |elems| && raw == Ascii("[") + (Joined(parts) + Ascii("]")) && forall i :: 0 <= i < |elems| ==> Spells(parts[i], elems[i])
  }

  /** One item for each part, with nothing around it. */
  ghost predicate ItemsOf(items: seq<Item>, parts: seq<bytes>, elems: seq<Doc>, depth: nat, unquote: bytes -> bytes)
    requires |items| <= |elems| == |parts|
  {
    forall i :: 0 <= i < |items| ==>
      items[i].before == [] == items[i].after && Derives(items[i].value, parts[i], elems[i], depth + 1, unquote)
  }

  lemma {:induction false} ArrayOf(raw: bytes, elems: seq<Doc>, depth: nat, unquote: bytes -> bytes) returns (t: Cst)
    requires Spells(raw, JArr(elems)) && Writable(JArr(elems), depth) && CopiesPlain(unquote)
    ensures Derives(t, raw, JArr(elems), depth, unquote)
    decreases elems
  {
    hide Spells, Writable, Derives, CopiesPlain, JoinedFrom;
    var parts := PartsOfArray(raw, elems, depth);
    var items: seq<Item> := [];
    while |items| < |elems|
      invariant |items| <= |elems| && ItemsOf(items, parts, elems, depth, unquote)
    {
      var value := DerivationOf(parts[|items|], elems[|items|], depth + 1, unquote);
      items := items + [Item([], value, [])];
    }
    t := Array([], items);
    ArrayDerives(items, parts, raw, elems, depth, unquote);
  }

  lemma PartsOfArray(raw: bytes, elems: seq<Doc>, depth: nat) returns (parts: seq<bytes>)
    requires Spells(raw, JArr(elems)) && Writable(JArr(elems), depth)
    ensures JoinedFrom(parts, raw, elems) && |parts| == |elems| && depth < MAX_DEPTH
    ensures forall i :: 0 <= i < |elems| ==> Spells(parts[i], elems[i]) && Writable(elems[i], depth + 1)
  {
    hide Ascii, Joined;
    parts :| |parts| == |elems| && raw == Ascii("[") + (Joined(parts) + Ascii("]"))
      && forall i :: 0 <= i < |elems| ==> Spells(parts[i], elems[i]);
  }

  lemma ArrayDerives(items: seq<Item>, parts: seq<bytes>, raw: bytes, elems: seq<Doc>, depth: nat, unquote: bytes -> bytes)
    requires JoinedFrom(parts, raw, elems) && |items| == |elems| && depth < MAX_DEPTH && ItemsOf(items, parts, elems, depth, unquote)
    ensures Derives(Array([], items), raw, JArr(elems), depth, unquote)
  {
    Words();
    hide Ascii, Joined, Spells, Wf, Fits;
    if items != [] { ItemsJoined(items, parts); } else { NothingJoined(); }
    assert Decode(Array([], items), unquote).elems == elems;
    WholeArray(items, depth);
  }

  lemma NothingJoined()
    ensures Joined([]) == []
  {
  }

  lemma WholeArray(items: seq<Item>, depth: nat)
    requires depth < MAX_DEPTH
    requires forall i :: 0 <= i < |items| ==> items[i].before == [] == items[i].after && Wf(items[i].value) && Fits(items[i].value, depth + 1)
    ensures Wf(Array([], items)) && Fits(Array([], items), depth)
  {
  }

  lemma {:induction false} ItemsJoined(items: seq<Item>, parts: seq<bytes>)
    requires |items| == |parts| > 0
    requires forall i :: 0 <= i < |items| ==> items[i].before == [] == items[i].after && Text(items[i].value) == parts[i]
    ensures ItemsText(items) == Joined(parts)
  {
    Words();
    hide Ascii, Text;
    assert ItemText(items[0]) == [] + (parts[0] + []) == parts[0];
    if |items| > 1 { ItemsJoined(items[1..], parts[1..]); }
  }

  /** The names and the parts an object is written from. */
  ghost predicate WrittenFrom(names: seq<bytes>, parts: seq<bytes>, raw: bytes, v: Doc)
    requires v.JObj?
  {
    |parts| == |names| && Distinct(names) && (forall k :: k in v.members <==> k in names)
    && raw == Ascii("{") + (Joined(Pairs(names, parts)) + Ascii("}"))
    && forall i :: 0 <= i < |names| && names[i] in v.members ==> Spells(parts[i], v.members[names[i]])
  }

  /** One member for each name, with nothing around it. */
  ghost predicate MembersOf(members: seq<Member>, names: seq<bytes>, parts: seq<bytes>, v: Doc, depth: nat, unquote: bytes -> bytes)
    requires v.JObj? && |members| <= |names| == |parts|
  {
    forall i :: 0 <= i < |members| ==>
      members[i] == Member([], names[i], [], [], members[i].value, []) && names[i] in v.members
      && Derives(members[i].value, parts[i], v.members[names[i]], depth + 1, unquote)
  }

  lemma {:induction false} ObjectOf(raw: bytes, v: Doc, depth: nat, unquote: bytes -> bytes) returns (t: Cst)
    requires v.JObj? && Spells(raw, v) && Writable(v, depth) && CopiesPlain(unquote)
    ensures Derives(t, raw, v, depth, unquote)
    decreases v, 0
  {
    hide Spells, Writable, Derives, CopiesPlain, WrittenFrom;
    var names, parts := NamesAndParts(raw, v);
    var members: seq<Member> := [];
    PartsOf(names, parts, raw, v, depth);
    while |members| < |names|
      invariant |members| <= |names| && MembersOf(members, names, parts, v, depth, unquote)
    {
      var i := |members|;
      var value := DerivationOf(parts[i], v.members[names[i]], depth + 1, unquote);
      members := members + [Member([], names[i], [], [], value, [])];
    }
    t := Object([], members);
    ObjectDerives(members, names, parts, raw, v, depth, unquote);
  }

  lemma NamesAndParts(raw: bytes, v: Doc) returns (names: seq<bytes>, parts: seq<bytes>)
    requires v.JObj? && Spells(raw, v)
    ensures WrittenFrom(names, parts, raw, v)
  {
    hide Ascii, Joined, Pairs, InQuotes;
    names, parts :| |parts| == |names| && Distinct(names) && (forall k :: k in v.members <==> k in names)
      && raw == Ascii("{") + (Joined(Pairs(names, parts)) + Ascii("}"))
      && forall i :: 0 <= i < |names| && names[i] in v.members ==> Spells(parts[i], v.members[names[i]]);
  }

  lemma PartsOf(names: seq<bytes>, parts: seq<bytes>, raw: bytes, v: Doc, depth: nat)
    requires v.JObj? && WrittenFrom(names, parts, raw, v) && Writable(v, depth)
    ensures |parts| == |names|
    ensures forall i :: 0 <= i < |names| ==>
              names[i] in v.members && Spells(parts[i], v.members[names[i]]) && Writable(v.members[names[i]], depth + 1)
  {
    hide Spells, Ascii, Joined, Pairs;
    assert forall i :: 0 <= i < |names| ==> names[i] in names;
  }

  lemma ObjectDerives(members: seq<Member>, names: seq<bytes>, parts: seq<bytes>, raw: bytes, v: Doc, depth: nat,
                      unquote: bytes -> bytes)
    requires v.JObj? && WrittenFrom(names, parts, raw, v) && |members| == |names| == |parts| && Writable(v, depth) && CopiesPlain(unquote)
    requires MembersOf(members, names, parts, v, depth, unquote)
    ensures Derives(Object([], members), raw, v, depth, unquote)
  {
    Words();
    BareNames(v, depth, names);
    hide Ascii, Joined, Spells, Wf, Fits, Pairs, InQuotes, Writable, CopiesPlain;
    if members != [] { MembersJoined(members, names, parts); } else { NoPairs(); }
    WholeObject(members, depth);
    hide Text;
    EachMember(members, v.members, unquote);
  }

  lemma NoPairs()
    ensures Joined(Pairs([], [])) == []
  {
  }

  lemma BareNames(v: Doc, depth: nat, names: seq<bytes>)
    requires v.JObj? && Writable(v, depth) && forall k :: k in v.members <==> k in names
    ensures forall i :: 0 <= i < |names| ==> Bare(names[i])
  {
  }

  lemma WholeObject(members: seq<Member>, depth: nat)
    requires depth < MAX_DEPTH
    requires forall i :: 0 <= i < |members| ==>
               && members[i] == Member([], members[i].key, [], [], members[i].value, [])
               && Bare(members[i].key) && Wf(members[i].value) && Fits(members[i].value, depth + 1)
    ensures Wf(Object([], members)) && Fits(Object([], members), depth)
  {
    forall i | 0 <= i < |members| ensures IsChars(members[i].key) { BareIsChars(members[i].key); }
  }

  lemma {:induction false} MembersJoined(members: seq<Member>, names: seq<bytes>, parts: seq<bytes>)
    requires |members| == |names| == |parts| > 0
    requires forall i :: 0 <= i < |members| ==>
               members[i] == Member([], names[i], [], [], members[i].value, []) && Text(members[i].value) == parts[i]
    ensures MembersText(members) == Joined(Pairs(names, parts))
  {
    Words();
    hide Ascii, Text;
    var pairs := Pairs(names, parts);
    assert MemberText(members[0]) == pairs[0] by {
      assert parts[0] + [] == parts[0];
    }
    if |members| > 1 {
      MembersJoined(members[1..], names[1..], parts[1..]);
      assert pairs[1..] == Pairs(names[1..], parts[1..]);
    }
  }

  /** A repeated key keeps its last member. */
  lemma {:induction false} LastMemberKept(members: seq<Member>, unquote: bytes -> bytes, k: nat)
    requires k < |members| && forall j :: k < j < |members| ==> unquote(members[j].key) != unquote(members[k].key)
    ensures unquote(members[k].key) in DecodeMembers(members, unquote)
    ensures DecodeMembers(members, unquote)[unquote(members[k].key)] == Decode(members[k].value, unquote)
  {
    var n := |members| - 1;
    if k < n { LastMemberKept(members[..n], unquote, k); }
  }

  lemma {:induction false} OnlyMemberKeys(members: seq<Member>, unquote: bytes -> bytes, key: bytes)
    requires key in DecodeMembers(members, unquote)
    ensures exists k :: 0 <= k < |members| && unquote(members[k].key) == key
  {
    var n := |members| - 1;
    if unquote(members[n].key) != key {
      OnlyMemberKeys(members[..n], unquote, key);
      var k :| 0 <= k < n && unquote(members[..n][k].key) == key;
      assert unquote(members[k].key) == key;
    }
  }

  lemma EachMember(members: seq<Member>, v: map<bytes, Doc>, unquote: bytes -> bytes)
    requires CopiesPlain(unquote)
    requires forall i, k :: 0 <= i < k < |members| ==> members[i].key != members[k].key
    requires forall i :: 0 <= i < |members| ==>
               Bare(members[i].key) && members[i].key in v && Decode(members[i].value, unquote) == v[members[i].key]
    requires forall key :: key in v ==> exists i :: 0 <= i < |members| && members[i].key == key
    ensures DecodeMembers(members, unquote) == v
  {
    hide Decode, DecodeMembers;
    forall i | 0 <= i < |members| ensures unquote(members[i].key) == members[i].key { BareIsChars(members[i].key); }
    var m := DecodeMembers(members, unquote);
    forall key | key in v ensures key in m && m[key] == v[key] {
      var k :| 0 <= k < |members| && members[k].key == key;
      LastMemberKept(members, unquote, k);
    }
    forall key | key in m ensures key in v { OnlyMemberKeys(members, unquote, key); }
    assert m.Keys == v.Keys;
  }

  /** What is written of a value decodes to it, with white space around it or without. */
  lemma ReadsBack(raw: bytes, v: Doc, before: bytes, after: bytes, unquote: bytes -> bytes)
    requires Spells(raw, v) && Writable(v, 0) && CopiesPlain(unquote) && AllSpace(before) && AllSpace(after)
    ensures Unmarshal(before + raw + after, unquote) == Some(v)
  {
    hide Spells, Writable, CopiesPlain, Text, Wf, Fits, Decode, Unmarshal;
    var t := DerivationOf(raw, v, 0, unquote);
    assert IsDocument(before, t, after, before + raw + after);
    UnmarshalIffDerivable(before + raw + after, unquote);
  }
}
