/** The parser of core/src/json.c accepts nothing but the texts of the grammar, so the two agree;
    and exactly the texts without vertical tab and form feed keep to the white space of RFC 8259. */
module JsonAccepted {
  import opened Bytes
  import opened JsonGrammar
  import opened JsonNumbers
  import opened JsonText

  // ---------------------------------------------------------------------
  // Everything that is read is in the grammar.
  // ---------------------------------------------------------------------

  lemma {:induction false} SpaceTaken(s: seq<byte>) returns (w: seq<byte>)
    ensures Blank(w, true) && s == w + SkipSpace(s)
    decreases |s|
  {
    if s != [] && IsSpace(s[0]) {
      var v := SpaceTaken(s[1..]);
      w := [s[0]] + v;
      Regroup([s[0]], v, SkipSpace(s));
      assert s == [s[0]] + s[1..];
    } else {
      w := [];
    }
  }

  lemma QuadTaken(s: seq<byte>)
    requires HexQuad(s).Some?
    ensures HexQuad(s[..4]) == HexQuad(s) && s == s[..4] + s[4..]
  {
  }

  lemma UnitTaken(s: seq<byte>) returns (c: Char)
    requires UnicodeEscape(s).Bytes? && !(0xD800 <= HexQuad(s).value <= 0xDBFF)
    ensures ProperChar(c) && CharMeaning(c) == UnicodeEscape(s).bytes
    ensures [ESCAPE, 117] + s == SpellChar(c) + UnicodeEscape(s).rest
  {
    QuadTaken(s);
    c := Unit(s[..4]);
    Regroup([ESCAPE, 117], s[..4], s[4..]);
  }

  lemma PairTaken(s: seq<byte>) returns (c: Char)
    requires UnicodeEscape(s).Bytes? && 0xD800 <= HexQuad(s).value <= 0xDBFF
    ensures ProperChar(c) && CharMeaning(c) == UnicodeEscape(s).bytes
    ensures [ESCAPE, 117] + s == SpellChar(c) + UnicodeEscape(s).rest
  {
    var high, low, u, rest := s[..4], s[6..][..4], [ESCAPE, 117], s[10..];
    QuadTaken(s);
    QuadTaken(s[6..]);
    c := Pair(high, low);
    assert s[4..] == u + s[6..] && s[6..][4..] == rest;
    Regroup(u, low, rest);
    Regroup(high, u + low, rest);
    Regroup(u, high + (u + low), rest);
  }

  lemma CharTaken(s: seq<byte>) returns (c: Char)
    requires s != [] && s[0] != QUOTE && StringPiece(s).Bytes?
    ensures ProperChar(c) && CharMeaning(c) == StringPiece(s).bytes && s == SpellChar(c) + StringPiece(s).rest
  {
    if s[0] != ESCAPE {
      c := Plain(s[0]);
    } else if s[1] != 117 {
      c := Short(s[1]);
      assert s == [s[0], s[1]] + s[2..];
    } else {
      assert s == [ESCAPE, 117] + s[2..];
      if 0xD800 <= HexQuad(s[2..]).value <= 0xDBFF {
        c := PairTaken(s[2..]);
      } else {
        c := UnitTaken(s[2..]);
      }
    }
  }

  lemma {:induction false} CharsTaken(s: seq<byte>, p: Piece, read: CText) returns (chars: seq<Char>)
    requires p == StringRest(s, read) && p.Bytes?
    ensures ProperChars(chars) && p.bytes == read + StringMeaning(chars) && s == SpellChars(chars) + ([QUOTE] + p.rest)
    decreases |s|
  {
    if s[0] == QUOTE {
      chars := [];
      assert read + StringMeaning(chars) == read && s == [QUOTE] + s[1..];
    } else {
      var c := CharTaken(s);
      var b, more := CharMeaning(c), StringPiece(s).rest;
      var rest := CharsTaken(more, p, read + b);
      chars := [c] + rest;
      assert chars[1..] == rest;
      Regroup(read, b, StringMeaning(rest));
      Regroup(SpellChar(c), SpellChars(rest), [QUOTE] + p.rest);
    }
  }

  lemma StringTaken(s: seq<byte>) returns (chars: seq<Char>)
    requires QuotedString(s).Bytes?
    ensures ProperChars(chars) && QuotedString(s).bytes == StringMeaning(chars)
    ensures s == SpellString(chars) + QuotedString(s).rest
  {
    var rest := QuotedString(s).rest;
    chars := CharsTaken(s[1..], QuotedString(s), []);
    assert [] + StringMeaning(chars) == StringMeaning(chars);
    Regroup(SpellChars(chars), [QUOTE], rest);
    Regroup([QUOTE], SpellChars(chars) + [QUOTE], rest);
    assert s == [QUOTE] + s[1..];
  }

  lemma NumberTaken(s: seq<byte>, token: seq<byte>, rest: seq<byte>)
    requires NumberRest(s) == Some(rest) && token == s[..|s| - |rest|]
    ensures IsNumber(token) && s == token + rest
  {
    TokenIsNumber(s);
    NumberIsScanned(token);
  }

  /** What a value of the grammar is once it has been read from `s`: the space before it and its tree. */
  ghost predicate Reads(s: seq<byte>, p: Parsed, depth: nat, nodes: nat, finite: seq<byte> -> bool, w: seq<byte>,
                        x: Syntax)
    requires p.Ok?
  {
    && Blank(w, true) && Proper(x, depth, true, finite) && s == w + (Spell(x) + p.rest)
    && Meaning(x) == p.value && p.nodes + Nodes(p.value) == nodes
  }

  lemma ScalarTaken(s: seq<byte>, p: Parsed, depth: nat, nodes: nat, finite: seq<byte> -> bool) returns (x: Syntax)
    requires s != [] && depth <= MAX_DEPTH && p == Scalar(s, nodes, finite) && p.Ok?
    ensures !x.List? && Proper(x, depth, true, finite) && s == Spell(x) + p.rest && Meaning(x) == p.value
    ensures p.nodes + Nodes(p.value) == nodes + 1
  {
    ScalarCases(s, p, nodes, finite);
    if p.value.String? {
      var chars := StringTaken(s);
      x := Str(chars);
    } else if p.value.Number? {
      NumberTaken(s, p.value.token, p.rest);
      x := Num(p.value.token);
    } else {
      x := Word(p.value);
    }
  }

  lemma ScalarCases(s: seq<byte>, p: Parsed, nodes: nat, finite: seq<byte> -> bool)
    requires s != [] && p == Scalar(s, nodes, finite) && p.Ok?
    ensures p.nodes == nodes && !p.value.Array? && !p.value.Object?
    ensures p.value.String? ==> QuotedString(s) == Piece.Bytes(p.value.text, p.rest)
    ensures p.value.Number? ==>
              NumberRest(s) == Some(p.rest) && p.value.token == s[..|s| - |p.rest|] && finite(p.value.token)
    ensures p.value.Null? || p.value.Bool? ==> s == Spell(Word(p.value)) + p.rest
  {
  }

  lemma {:induction false} ValueTaken(s: seq<byte>, p: Parsed, depth: nat, nodes: nat, finite: seq<byte> -> bool)
    returns (w: seq<byte>, x: Syntax)
    requires p == Value(s, depth, nodes, finite) && p.Ok?
    ensures Reads(s, p, depth, nodes, finite, w, x)
    decreases |s|, 0
  {
    w := SpaceTaken(s);
    var r := SkipSpace(s);
    if r[0] == OPEN_OBJECT || r[0] == OPEN_ARRAY {
      var object_ := r[0] == OPEN_OBJECT;
      var lead, items := ChildrenTaken(r[1..], p, object_, depth, nodes - 1, finite);
      x := List(object_, lead, items);
      ListNodes(x);
      ListTaken(r, p.rest, x);
    } else {
      x := ScalarTaken(r, p, depth, nodes - 1, finite);
    }
  }

  lemma ListTaken(r: seq<byte>, rest: seq<byte>, x: Syntax)
    requires x.List? && r != [] && r[0] == Open(x.object_)
    requires r[1..] == x.lead + (SpellItems(x.object_, x.items) + ([Close(x.object_)] + rest))
    ensures r == Spell(x) + rest
  {
    var m, c := SpellItems(x.object_, x.items), [Close(x.object_)];
    Regroup(m, c, rest);
    Regroup(x.lead, m + c, rest);
    Regroup([Open(x.object_)], x.lead + (m + c), rest);
    HeadJoins(r);
  }

  lemma ListIs(object_: bool, lead: seq<byte>, items: seq<Item>, depth: nat, finite: seq<byte> -> bool)
    requires depth <= MAX_DEPTH && Blank(lead, true) && AllProper(object_, items, depth + 1, true, finite)
    requires Distinct(Keys(object_, items))
    ensures Proper(List(object_, lead, items), depth, true, finite)
    ensures Meaning(List(object_, lead, items)) == Collection(object_, Keys(object_, items), Meanings(items))
  {
  }

  lemma {:induction false} ChildrenTaken(s: seq<byte>, p: Parsed, object_: bool, depth: nat, nodes: nat,
                                         finite: seq<byte> -> bool) returns (lead: seq<byte>, items: seq<Item>)
    requires depth <= MAX_DEPTH && p == Children(s, object_, depth, nodes, finite) && p.Ok?
    ensures Proper(List(object_, lead, items), depth, true, finite)
    ensures s == lead + (SpellItems(object_, items) + ([Close(object_)] + p.rest))
    ensures p.value == Meaning(List(object_, lead, items)) && p.nodes + SumNodes(Meanings(items)) == nodes
    decreases |s|, 3
  {
    lead := SpaceTaken(s);
    var r := SkipSpace(s);
    if r[0] == Close(object_) {
      items := [];
      HeadJoins(r);
      EmptyJoins(r);
    } else {
      items := ItemsTaken(r, p, object_, depth, nodes, [], [], finite);
      EmptyJoins(Keys(object_, items));
      EmptyJoins(Meanings(items));
    }
    ListIs(object_, lead, items, depth, finite);
  }

  lemma KeyTaken(s: seq<byte>, object_: bool) returns (key: seq<Char>, gap: seq<byte>)
    requires KeyPart(s, object_).Bytes?
    ensures ProperChars(key) && Blank(gap, true) && (!object_ ==> key == [] && gap == [])
    ensures KeyPart(s, object_).bytes == if object_ then StringMeaning(key) else []
    ensures var rest := KeyPart(s, object_).rest;
            s == if object_ then SpellString(key) + (gap + ([COLON] + rest)) else rest
  {
    key, gap := [], [];
    if object_ {
      key := StringTaken(s);
      gap := SpaceTaken(QuotedString(s).rest);
      var r := SkipSpace(QuotedString(s).rest);
      assert r == [r[0]] + r[1..];
    }
  }

  lemma KeyJoins(s: seq<byte>, object_: bool, item: Item, y: seq<byte>)
    requires s == if object_ then SpellString(item.key) + (item.gap + ([COLON] + (item.ahead + y))) else item.ahead + y
    ensures s == SpellKey(object_, item) + y
  {
    if object_ {
      Regroup([COLON], item.ahead, y);
      Regroup(item.gap, [COLON] + item.ahead, y);
      Regroup(SpellString(item.key), item.gap + ([COLON] + item.ahead), y);
    }
  }

  lemma MoreJoins(r: seq<byte>, object_: bool, item: Item, rest: seq<Item>, items: seq<Item>, tail: seq<byte>)
    requires items == [item] + rest && (rest == [] ==> item.next == [])
    requires r == if rest == [] then tail else [COMMA] + (item.next + (SpellItems(object_, rest) + tail))
    ensures r == SpellMore(object_, items) + tail
  {
    assert items[1..] == rest;
    Regroup(item.next, SpellItems(object_, rest), tail);
    Regroup([COMMA], item.next + SpellItems(object_, rest), tail);
  }

  lemma ConsProper(object_: bool, item: Item, rest: seq<Item>, items: seq<Item>, depth: nat, wide: bool,
                   finite: seq<byte> -> bool)
    requires items == [item] + rest && (rest == [] ==> item.next == [])
    requires ProperItem(object_, item, wide) && Proper(item.value, depth, wide, finite)
    requires AllProper(object_, rest, depth, wide, finite)
    ensures AllProper(object_, items, depth, wide, finite)
  {
    assert forall i :: 1 <= i < |items| ==> items[i] == rest[i - 1];
  }

  lemma SpaceAhead(s: seq<byte>, ahead: seq<byte>, y: seq<byte>)
    requires s == ahead + y && Blank(ahead, true)
    ensures ahead != [] ==> s != [] && IsSpace(s[0])
  {
    if ahead != [] { assert s[0] == ahead[0]; }
  }

  lemma ConsTotals(object_: bool, keys: seq<CText>, read: seq<Json>, item: Item, rest: seq<Item>, items: seq<Item>)
    requires items == [item] + rest && (!object_ ==> keys == [])
    ensures keys + Keys(object_, items) ==
            (if object_ then keys + [StringMeaning(item.key)] else keys) + Keys(object_, rest)
    ensures read + Meanings(items) == read + [Meaning(item.value)] + Meanings(rest)
    ensures SumNodes(Meanings(items)) == Nodes(Meaning(item.value)) + SumNodes(Meanings(rest))
  {
    assert items[1..] == rest;
    KeysHead(object_, keys, items);
    MeaningsHead(read, items);
  }

  lemma DistinctSnoc(keys: seq<CText>, key: CText)
    requires Distinct(keys) && key !in keys
    ensures Distinct(keys + [key])
  {
  }

  /** One round of the member loop, read backwards from its success. */
  lemma RoundTaken(s: seq<byte>, p: Parsed, object_: bool, depth: nat, nodes: nat, keys: seq<CText>, read: seq<Json>,
                   finite: seq<byte> -> bool)
    returns (child: Json, s2: seq<byte>, left: nat, keys': seq<CText>, read': seq<Json>)
    requires p == Items(s, object_, depth, nodes, keys, read, finite) && p.Ok?
    ensures s != [] && KeyPart(s, object_).Bytes?
    ensures Value(KeyPart(s, object_).rest, depth + 1, nodes, finite) == Ok(child, s2, left)
    ensures keys' == (if object_ then keys + [KeyPart(s, object_).bytes] else keys) && read' == read + [child]
    ensures object_ ==> KeyPart(s, object_).bytes !in keys
    ensures SkipSpace(s2) != []
    ensures SkipSpace(s2)[0] == Close(object_) ==> p == Ok(Collection(object_, keys', read'), SkipSpace(s2)[1..], left)
    ensures SkipSpace(s2)[0] != Close(object_) ==>
              SkipSpace(s2)[0] == COMMA
              && p == Items(SkipSpace(SkipSpace(s2)[1..]), object_, depth, left, keys', read', finite)
  {
    var v := Value(KeyPart(s, object_).rest, depth + 1, nodes, finite);
    child, s2, left := v.value, v.rest, v.nodes;
    keys', read' := if object_ then keys + [KeyPart(s, object_).bytes] else keys, read + [child];
  }

  lemma {:induction false} ItemTaken(s: seq<byte>, v: Parsed, object_: bool, depth: nat, nodes: nat,
                                     finite: seq<byte> -> bool)
    returns (item: Item)
    requires KeyPart(s, object_).Bytes? && (s != [] ==> !IsSpace(s[0]))
    requires v == Value(KeyPart(s, object_).rest, depth + 1, nodes, finite) && v.Ok?
    ensures ProperItem(object_, item, true) && Proper(item.value, depth + 1, true, finite) && item.next == []
    ensures s == SpellKey(object_, item) + (Spell(item.value) + (item.trail + SkipSpace(v.rest)))
    ensures v.value == Meaning(item.value) && v.nodes + Nodes(v.value) == nodes
    ensures object_ ==> KeyPart(s, object_).bytes == StringMeaning(item.key)
    decreases |s|, 1
  {
    var key, gap := KeyTaken(s, object_);
    var ahead, x := ValueTaken(KeyPart(s, object_).rest, v, depth + 1, nodes, finite);
    if !object_ { SpaceAhead(s, ahead, Spell(x) + v.rest); }
    var trail := SpaceTaken(v.rest);
    item := Item(key, gap, ahead, x, trail, []);
    KeyJoins(s, object_, item, Spell(x) + v.rest);
  }

  /** What is left after an item: the end, or a comma and more items. */
  ghost predicate Follows(r: seq<byte>, object_: bool, item: Item, rest: seq<Item>, tail: seq<byte>)
  {
    && (rest == [] ==> item.next == [])
    && r == if rest == [] then tail else [COMMA] + (item.next + (SpellItems(object_, rest) + tail))
  }

  lemma ItemsJoin(s: seq<byte>, r: seq<byte>, object_: bool, item: Item, rest: seq<Item>, items: seq<Item>,
                  tail: seq<byte>)
    requires items == [item] + rest && Follows(r, object_, item, rest, tail)
    requires s == SpellKey(object_, item) + (Spell(item.value) + (item.trail + r))
    ensures s == SpellItems(object_, items) + tail
  {
    MoreJoins(r, object_, item, rest, items, tail);
    ItemSplit(object_, items, tail);
  }

  lemma ItemsEnd(s: seq<byte>, r: seq<byte>, object_: bool, item: Item, rest: seq<Item>, items: seq<Item>,
        tail: seq<byte>, depth: nat, keys: seq<CText>, keys': seq<CText>, read: seq<Json>, finite: seq<byte> -> bool)
    requires items == [item] + rest && Follows(r, object_, item, rest, tail)
    requires s == SpellKey(object_, item) + (Spell(item.value) + (item.trail + r))
    requires ProperItem(object_, item, true) && Proper(item.value, depth, true, finite)
    requires AllProper(object_, rest, depth, true, finite) && Distinct(keys' + Keys(object_, rest))
    requires keys' == if object_ then keys + [StringMeaning(item.key)] else keys
    requires !object_ ==> keys == []
    ensures s == SpellItems(object_, items) + tail
    ensures AllProper(object_, items, depth, true, finite) && Distinct(keys + Keys(object_, items))
    ensures keys + Keys(object_, items) == keys' + Keys(object_, rest)
    ensures read + Meanings(items) == read + [Meaning(item.value)] + Meanings(rest)
    ensures SumNodes(Meanings(items)) == Nodes(Meaning(item.value)) + SumNodes(Meanings(rest))
  {
    ItemsJoin(s, r, object_, item, rest, items, tail);
    ConsProper(object_, item, rest, items, depth, true, finite);
    ConsTotals(object_, keys, read, item, rest, items);
  }

  lemma {:induction false} ItemsTaken(s: seq<byte>, p: Parsed, object_: bool, depth: nat, nodes: nat, keys: seq<CText>,
                                      read: seq<Json>, finite: seq<byte> -> bool) returns (items: seq<Item>)
    requires depth <= MAX_DEPTH && p == Items(s, object_, depth, nodes, keys, read, finite) && p.Ok?
    requires Distinct(keys) && (!object_ ==> keys == []) && (s != [] ==> !IsSpace(s[0]))
    ensures items != [] && AllProper(object_, items, depth + 1, true, finite) && Distinct(keys + Keys(object_, items))
    ensures s == SpellItems(object_, items) + ([Close(object_)] + p.rest)
    ensures p.value == Collection(object_, keys + Keys(object_, items), read + Meanings(items))
    ensures p.nodes + SumNodes(Meanings(items)) == nodes
    decreases |s|, 2
  {
    var child, s2, left, keys', read' := RoundTaken(s, p, object_, depth, nodes, keys, read, finite);
    var item := ItemTaken(s, Ok(child, s2, left), object_, depth, nodes, finite);
    assert Distinct(keys') by { if object_ { DistinctSnoc(keys, StringMeaning(item.key)); } }
    var r, rest, tail := SkipSpace(s2), [], [Close(object_)] + p.rest;
    HeadJoins(r);
    EmptyJoins(keys');
    if r[0] != Close(object_) {
      var next := SpaceTaken(r[1..]);
      rest := ItemsTaken(SkipSpace(r[1..]), p, object_, depth, left, keys', read', finite);
      item := item.(next := next);
    }
    items := [item] + rest;
    ItemsEnd(s, r, object_, item, rest, items, tail, depth + 1, keys, keys', read, finite);
  }

  // ---------------------------------------------------------------------
  // The parser and the grammar agree.
  // ---------------------------------------------------------------------

  lemma AcceptedIsDocument(text: seq<byte>, v: Json, finite: seq<byte> -> bool)
    requires Parse(text, finite) == Some(v)
    ensures Document(text, v, true, finite) && Nodes(v) <= MAX_NODES
  {
    var p := Value(text, 0, MAX_NODES, finite);
    var before, x := ValueTaken(text, p, 0, MAX_NODES, finite);
    var after := SpaceTaken(p.rest);
    assert after + [] == after;
    assert DocumentAs(text, v, true, finite, before, x, after);
  }

  lemma DocumentIsAccepted(text: seq<byte>, v: Json, finite: seq<byte> -> bool)
    requires Document(text, v, true, finite) && Nodes(v) <= MAX_NODES
    ensures Parse(text, finite) == Some(v)
  {
    var before, x, after :| DocumentAs(text, v, true, finite, before, x, after);
    ValueReads(text, before, x, 0, MAX_NODES, after, finite);
    SkipBlank(after, []);
    assert after + [] == after;
  }

  /** A text is accepted with a value exactly when it is a text of the grammar, with C's white space,
      that means this value, and the value has at most a million nodes. */
  lemma ParseIsGrammar(text: seq<byte>, v: Json, finite: seq<byte> -> bool)
    ensures Parse(text, finite) == Some(v) <==> Document(text, v, true, finite) && Nodes(v) <= MAX_NODES
  {
    if Parse(text, finite) == Some(v) { AcceptedIsDocument(text, v, finite); }
    if Document(text, v, true, finite) && Nodes(v) <= MAX_NODES { DocumentIsAccepted(text, v, finite); }
  }

  // ---------------------------------------------------------------------
  // White space by section 2 of RFC 8259.
  // ---------------------------------------------------------------------

  /** Neither vertical tab nor form feed. */
  predicate Clean(s: seq<byte>)
  {
    forall i :: 0 <= i < |s| ==> s[i] != 11 && s[i] != 12
  }

  lemma CleanJoins(a: seq<byte>, b: seq<byte>)
    ensures Clean(a + b) <==> Clean(a) && Clean(b)
  {
    if Clean(a + b) {
      assert forall i :: 0 <= i < |a| ==> a[i] == (a + b)[i];
      assert forall i :: 0 <= i < |b| ==> b[i] == (a + b)[|a| + i];
    }
  }

  lemma BlankStrictly(w: seq<byte>)
    requires Blank(w, true)
    ensures Blank(w, false) <==> Clean(w)
  {
  }

  lemma QuadIsClean(quad: seq<byte>)
    requires |quad| == 4 && HexQuad(quad).Some?
    ensures Clean(quad)
  {
    assert forall i :: 0 <= i < 4 ==> HexValue(quad[i]).Some?;
  }

  lemma CharIsClean(c: Char)
    requires ProperChar(c)
    ensures Clean(SpellChar(c))
  {
    var u: seq<byte> := [ESCAPE, 117];
    match c
    case Plain(_) =>
    case Short(_) =>
    case Unit(quad) =>
      QuadIsClean(quad);
      CleanJoins(u, quad);
    case Pair(high, low) =>
      QuadIsClean(high);
      QuadIsClean(low);
      CleanJoins(u, low);
      CleanJoins(high, u + low);
      CleanJoins(u, high + (u + low));
  }

  lemma {:induction false} CharsAreClean(chars: seq<Char>)
    requires ProperChars(chars)
    ensures Clean(SpellChars(chars))
  {
    if chars != [] {
      CharIsClean(chars[0]);
      CharsAreClean(chars[1..]);
      CleanJoins(SpellChar(chars[0]), SpellChars(chars[1..]));
    }
  }

  lemma StringIsClean(chars: seq<Char>)
    requires ProperChars(chars)
    ensures Clean(SpellString(chars))
  {
    CharsAreClean(chars);
    CleanJoins(SpellChars(chars), [QUOTE]);
    CleanJoins([QUOTE], SpellChars(chars) + [QUOTE]);
  }

  lemma ExponentIsClean(s: seq<byte>)
    requires IsExponent(s)
    ensures Clean(s)
  {
    if s != [] {
      if AllDigits(s[1..]) {
        CleanJoins([s[0]], s[1..]);
        assert s == [s[0]] + s[1..];
      } else {
        CleanJoins([s[0], s[1]], s[2..]);
        assert s == [s[0], s[1]] + s[2..];
      }
    }
  }

  lemma NumberIsClean(token: seq<byte>)
    requires IsNumber(token)
    ensures Clean(token)
  {
    var minus, whole, fraction, exponent :| Parts(token, minus, whole, fraction, exponent);
    ExponentIsClean(exponent);
    assert Clean(fraction) by {
      if fraction != [] {
        CleanJoins([fraction[0]], fraction[1..]);
        assert fraction == [fraction[0]] + fraction[1..];
      }
    }
    CleanJoins(fraction, exponent);
    CleanJoins(whole, fraction + exponent);
    CleanJoins(minus, whole + (fraction + exponent));
  }

  lemma KeyStrictly(object_: bool, item: Item)
    requires ProperItem(object_, item, true)
    ensures Clean(SpellKey(object_, item)) <==> Blank(item.gap, false) && Blank(item.ahead, false)
  {
    BlankStrictly(item.gap);
    BlankStrictly(item.ahead);
    if object_ {
      StringIsClean(item.key);
      CleanJoins([COLON], item.ahead);
      CleanJoins(item.gap, [COLON] + item.ahead);
      CleanJoins(SpellString(item.key), item.gap + ([COLON] + item.ahead));
    }
  }

  lemma ItemStrictly(object_: bool, items: seq<Item>, depth: nat, finite: seq<byte> -> bool)
    requires items != [] && AllProper(object_, items, depth, true, finite)
    ensures Clean(SpellItems(object_, items)) <==>
            ProperItem(object_, items[0], false) && Clean(Spell(items[0].value))
                && Clean(SpellItems(object_, items[1..]))
  {
    var item, rest := items[0], SpellItems(object_, items[1..]);
    var v, m := Spell(item.value), SpellMore(object_, items);
    KeyStrictly(object_, item);
    BlankStrictly(item.trail);
    BlankStrictly(item.next);
    if |items| > 1 {
      CleanJoins(item.next, rest);
      CleanJoins([COMMA], item.next + rest);
    }
    CleanJoins(item.trail, m);
    CleanJoins(v, item.trail + m);
    CleanJoins(SpellKey(object_, item), v + (item.trail + m));
  }

  lemma {:induction false} ItemsStrictly(object_: bool, items: seq<Item>, depth: nat, finite: seq<byte> -> bool)
    requires AllProper(object_, items, depth, true, finite)
    ensures AllProper(object_, items, depth, false, finite) <==> Clean(SpellItems(object_, items))
    decreases items
  {
    if items != [] {
      RestProper(object_, items, depth, finite);
      ItemStrictly(object_, items, depth, finite);
      SpellsStrictly(items[0].value, depth, finite);
      ItemsStrictly(object_, items[1..], depth, finite);
      AllProperSplit(object_, items, depth, finite);
    }
  }

  lemma AllProperSplit(object_: bool, items: seq<Item>, depth: nat, finite: seq<byte> -> bool)
    requires items != [] && AllProper(object_, items, depth, true, finite)
    ensures AllProper(object_, items, depth, false, finite) <==>
            ProperItem(object_, items[0], false) && Proper(items[0].value, depth, false, finite)
            && AllProper(object_, items[1..], depth, false, finite)
  {
    assert forall i :: 1 <= i < |items| ==> items[i] == items[1..][i - 1];
    assert forall i :: 0 <= i < |items| - 1 ==> items[1..][i] == items[i + 1];
  }

  /** A tree spells without vertical tab and form feed exactly when all its space is of section 2. */
  lemma {:induction false} SpellsStrictly(x: Syntax, depth: nat, finite: seq<byte> -> bool)
    requires Proper(x, depth, true, finite)
    ensures Proper(x, depth, false, finite) <==> Clean(Spell(x))
    decreases x
  {
    match x
    case Word(_) =>
    case Num(token) => NumberIsClean(token);
    case Str(chars) => StringIsClean(chars);
    case List(object_, lead, items) =>
      ItemsStrictly(object_, items, depth + 1, finite);
      ListStrictly(object_, lead, items, depth, finite);
      ListCleanly(object_, lead, items);
      BlankStrictly(lead);
  }

  lemma ListStrictly(object_: bool, lead: seq<byte>, items: seq<Item>, depth: nat, finite: seq<byte> -> bool)
    requires Proper(List(object_, lead, items), depth, true, finite)
    ensures Proper(List(object_, lead, items), depth, false, finite) <==>
            Blank(lead, false) && AllProper(object_, items, depth + 1, false, finite)
  {
  }

  lemma ListCleanly(object_: bool, lead: seq<byte>, items: seq<Item>)
    ensures Clean(Spell(List(object_, lead, items))) <==> Clean(lead) && Clean(SpellItems(object_, items))
  {
    var m := SpellItems(object_, items);
    CleanJoins(m, [Close(object_)]);
    CleanJoins(lead, m + [Close(object_)]);
    CleanJoins([Open(object_)], lead + (m + [Close(object_)]));
  }

  lemma {:induction false} ProperWidens(x: Syntax, depth: nat, finite: seq<byte> -> bool)
    requires Proper(x, depth, false, finite)
    ensures Proper(x, depth, true, finite)
    decreases x
  {
    if x.List? {
      forall i | 0 <= i < |x.items| ensures Proper(x.items[i].value, depth + 1, true, finite) {
        ProperWidens(x.items[i].value, depth + 1, finite);
      }
    }
  }

  /** C's white space admits more than section 2 of RFC 8259 exactly where it is a vertical tab or
      form feed: a text of the wider grammar is one of the narrower iff it holds neither byte. */
  lemma StrictExactlyWhen(text: seq<byte>, v: Json, finite: seq<byte> -> bool)
    ensures Document(text, v, false, finite) <==> Document(text, v, true, finite) && Clean(text)
  {
    if before, x, after :| DocumentAs(text, v, true, finite, before, x, after) && Clean(text) {
      DocumentStrictly(before, x, after, finite);
      assert DocumentAs(text, v, false, finite, before, x, after);
    }
    if before, x, after :| DocumentAs(text, v, false, finite, before, x, after) {
      ProperWidens(x, 0, finite);
      DocumentStrictly(before, x, after, finite);
      assert DocumentAs(text, v, true, finite, before, x, after);
    }
  }

  lemma DocumentStrictly(before: seq<byte>, x: Syntax, after: seq<byte>, finite: seq<byte> -> bool)
    requires Blank(before, true) && Blank(after, true) && Proper(x, 0, true, finite)
    ensures Clean(before + (Spell(x) + after)) <==>
            Blank(before, false) && Blank(after, false) && Proper(x, 0, false, finite)
  {
    BlankStrictly(before);
    BlankStrictly(after);
    SpellsStrictly(x, 0, finite);
    CleanJoins(Spell(x), after);
    CleanJoins(before, Spell(x) + after);
  }

  /** Such a text: a vertical tab in front of `true`. */
  lemma VerticalTabAccepted(finite: seq<byte> -> bool)
    ensures Parse([11] + TRUE_WORD, finite) == Some(Bool(true))
    ensures !exists v :: Document([11] + TRUE_WORD, v, false, finite)
  {
    var text, x := [11] + TRUE_WORD, Word(Bool(true));
    assert Proper(x, 0, true, finite) && TRUE_WORD + [] == TRUE_WORD;
    assert DocumentAs(text, Bool(true), true, finite, [11], x, []);
    DocumentIsAccepted(text, Bool(true), finite);
    assert text[0] == 11;
    forall v ensures !Document(text, v, false, finite) { StrictExactlyWhen(text, v, finite); }
  }
}
