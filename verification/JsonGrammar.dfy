/** The JSON grammar of sections 2 to 7 of RFC 8259 on bytes, without NUL and lone surrogates, stated
    apart from the parser as syntax trees and the texts they are spelt as; and the proof that the
    parser of core/src/json.c reads every such text as what it means. */
module JsonGrammar {
  import opened Bytes
  import opened JsonNumbers
  import opened JsonText
  import Utf8

  // ---------------------------------------------------------------------
  // The grammar.
  // ---------------------------------------------------------------------

  /** White space: the four bytes of section 2, with `wide` also the vertical tab and form feed
      that C's `isspace` adds. */
  predicate IsBlank(b: byte, wide: bool)
  {
    b == 32 || b == 9 || b == 10 || b == 13 || (wide && (b == 11 || b == 12))
  }

  predicate Blank(s: seq<byte>, wide: bool)
  {
    forall i :: 0 <= i < |s| ==> IsBlank(s[i], wide)
  }

  /** The characters of a string (section 7): as themselves, by a two-character escape, by one
      `\u` escape, or by two for a surrogate pair. */
  datatype Char = Plain(b: byte) | Short(letter: byte) | Unit(quad: seq<byte>) | Pair(high: seq<byte>, low: seq<byte>)

  function SpellChar(c: Char): seq<byte>
  {
    match c
    case Plain(b) => [b]
    case Short(letter) => [ESCAPE, letter]
    case Unit(quad) => [ESCAPE, 117] + quad
    case Pair(high, low) => [ESCAPE, 117] + (high + ([ESCAPE, 117] + low))
  }

  function ShortFor(letter: byte): Option<byte>
  {
    if letter == QUOTE || letter == ESCAPE || letter == 47 then Some(letter)
    else if letter == 98 then Some(8)
    else if letter == 102 then Some(12)
    else if letter == 110 then Some(10)
    else if letter == 114 then Some(13)
    else if letter == 116 then Some(9)
    else None
  }

  predicate IsQuad(quad: seq<byte>, from: nat, upTo: nat)
  {
    |quad| == 4 && HexQuad(quad).Some? && from <= HexQuad(quad).value <= upTo
  }

  /** Code points other than NUL. */
  predicate ProperChar(c: Char)
  {
    match c
    case Plain(b) => b >= 0x20 && b != QUOTE && b != ESCAPE
    case Short(letter) => ShortFor(letter).Some?
    case Unit(quad) => IsQuad(quad, 1, 0xD7FF) || IsQuad(quad, 0xE000, 0xFFFF)
    case Pair(high, low) => IsQuad(high, 0xD800, 0xDBFF) && IsQuad(low, 0xDC00, 0xDFFF)
  }

  function Encoded(c: Utf8.scalar): CText
  {
    Emit(c, []).bytes
  }

  function CharMeaning(c: Char): CText
  {
    if !ProperChar(c) then []
    else
    match c
    case Plain(b) => [b]
    case Short(letter) => [ShortFor(letter).value]
    case Unit(quad) => Encoded(HexQuad(quad).value)
    case Pair(high, low) => Encoded(0x10000 + (HexQuad(high).value - 0xD800) * 1024 + (HexQuad(low).value - 0xDC00))
  }

  predicate ProperChars(chars: seq<Char>)
  {
    forall i :: 0 <= i < |chars| ==> ProperChar(chars[i])
  }

  function SpellChars(chars: seq<Char>): seq<byte>
  {
    if chars == [] then [] else SpellChar(chars[0]) + SpellChars(chars[1..])
  }

  function SpellString(chars: seq<Char>): seq<byte>
  {
    [QUOTE] + (SpellChars(chars) + [QUOTE])
  }

  function StringMeaning(chars: seq<Char>): CText
  {
    if chars == [] then [] else CharMeaning(chars[0]) + StringMeaning(chars[1..])
  }

  /** A value as a text divides it up.  `List` is an array or an object; `lead` is the space after
      its opening bracket. */
  datatype Syntax =
    | Word(word: Json)
    | Num(token: seq<byte>)
    | Str(chars: seq<Char>)
    | List(object_: bool, lead: seq<byte>, items: seq<Item>)

  /** An element; in an object with its key and the space on both sides of the colon.  `trail` is
      the space after the value, `next` that after the comma. */
  datatype Item = Item(key: seq<Char>, gap: seq<byte>, ahead: seq<byte>, value: Syntax, trail: seq<byte>,
                       next: seq<byte>)

  function Open(object_: bool): byte
  {
    if object_ then OPEN_OBJECT else OPEN_ARRAY
  }

  /** The text of a tree. */
  function Spell(x: Syntax): seq<byte>
    decreases x, 0
  {
    match x
    case Word(word) => if word == Bool(true) then TRUE_WORD else if word == Bool(false) then FALSE_WORD else NULL_WORD
    case Num(token) => token
    case Str(chars) => SpellString(chars)
    case List(object_, lead, items) => [Open(object_)] + (lead + (SpellItems(object_, items) + [Close(object_)]))
  }

  function SpellItems(object_: bool, items: seq<Item>): seq<byte>
    decreases items
  {
    if items == [] then []
    else
      SpellKey(object_, items[0]) + (Spell(items[0].value) + (items[0].trail + SpellMore(object_, items)))
  }

  /** From the first comma on. */
  function SpellMore(object_: bool, items: seq<Item>): seq<byte>
    requires items != []
    decreases items, 0
  {
    if |items| == 1 then [] else [COMMA] + (items[0].next + SpellItems(object_, items[1..]))
  }

  function SpellKey(object_: bool, item: Item): seq<byte>
  {
    if object_ then SpellString(item.key) + (item.gap + ([COLON] + item.ahead)) else item.ahead
  }

  /** The keys of an object; an array has none. */
  function Keys(object_: bool, items: seq<Item>): (keys: seq<CText>)
    ensures |keys| == if object_ then |items| else 0
  {
    if !object_ || items == [] then [] else [StringMeaning(items[0].key)] + Keys(object_, items[1..])
  }

  /** What a tree stands for. */
  function Meaning(x: Syntax): Json
    decreases x, 0
  {
    match x
    case Word(word) => word
    case Num(token) => Number(token)
    case Str(chars) => String(StringMeaning(chars))
    case List(object_, lead, items) => Collection(object_, Keys(object_, items), Meanings(items))
  }

  function Meanings(items: seq<Item>): (ms: seq<Json>)
    ensures |ms| == |items|
    decreases items
  {
    if items == [] then [] else [Meaning(items[0].value)] + Meanings(items[1..])
  }

  /** Trees of the grammar within the parser's limit on depth, with distinct keys, and with numbers
      that are finite. */
  ghost predicate Proper(x: Syntax, depth: nat, wide: bool, finite: seq<byte> -> bool)
    decreases x
  {
    && depth <= MAX_DEPTH
    && match x
       case Word(word) => word.Null? || word.Bool?
       case Num(token) => IsNumber(token) && finite(token)
       case Str(chars) => ProperChars(chars)
       case List(object_, lead, items) =>
         && Blank(lead, wide) && Distinct(Keys(object_, items)) && (items != [] ==> items[|items| - 1].next == [])
         && forall i :: 0 <= i < |items| ==>
              ProperItem(object_, items[i], wide) && Proper(items[i].value, depth + 1, wide, finite)
  }

  predicate ProperItem(object_: bool, item: Item, wide: bool)
  {
    && ProperChars(item.key) && Blank(item.gap, wide) && Blank(item.ahead, wide) && Blank(item.trail, wide)
    && Blank(item.next, wide) && (!object_ ==> item.key == [] && item.gap == item.ahead == [])
  }

  ghost predicate AllProper(object_: bool, items: seq<Item>, depth: nat, wide: bool, finite: seq<byte> -> bool)
  {
    && (items != [] ==> items[|items| - 1].next == [])
    && forall i :: 0 <= i < |items| ==>
         ProperItem(object_, items[i], wide) && Proper(items[i].value, depth, wide, finite)
  }

  /** `text` is a JSON text and means `v`. */
  ghost predicate Document(text: seq<byte>, v: Json, wide: bool, finite: seq<byte> -> bool)
  {
    exists before, x, after :: DocumentAs(text, v, wide, finite, before, x, after)
  }

  ghost predicate DocumentAs(text: seq<byte>, v: Json, wide: bool, finite: seq<byte> -> bool, before: seq<byte>,
                             x: Syntax, after: seq<byte>)
  {
    && Blank(before, wide) && Blank(after, wide) && text == before + (Spell(x) + after)
    && Proper(x, 0, wide, finite) && Meaning(x) == v
  }

  // ---------------------------------------------------------------------
  // Every text of the grammar is read as what it means.
  // ---------------------------------------------------------------------

  lemma {:induction false} SkipBlank(w: seq<byte>, s: seq<byte>)
    requires Blank(w, true) && (s != [] ==> !IsSpace(s[0]))
    ensures SkipSpace(w + s) == s
  {
    if w == [] {
      assert w + s == s;
    } else {
      assert (w + s)[1..] == w[1..] + s;
      SkipBlank(w[1..], s);
    }
  }

  lemma QuadExtends(quad: seq<byte>, post: seq<byte>)
    requires |quad| == 4
    ensures HexQuad(quad + post) == HexQuad(quad) && (quad + post)[4..] == post
  {
  }

  lemma CharReads(c: Char, post: seq<byte>)
    requires ProperChar(c)
    ensures SpellChar(c) != [] && SpellChar(c)[0] != QUOTE
    ensures StringPiece(SpellChar(c) + post) == Piece.Bytes(CharMeaning(c), post)
  {
    match c
    case Plain(b) => PlainReads(b, post);
    case Short(letter) => ShortReads(letter, post);
    case Unit(quad) => UnitReads(quad, post);
    case Pair(high, low) => PairReads(high, low, post);
  }

  lemma PlainReads(b: byte, post: seq<byte>)
    requires ProperChar(Plain(b))
    ensures StringPiece(SpellChar(Plain(b)) + post) == Piece.Bytes([b], post)
  {
    assert ([b] + post)[1..] == post;
  }

  lemma ShortReads(letter: byte, post: seq<byte>)
    requires ShortFor(letter).Some?
    ensures StringPiece(SpellChar(Short(letter)) + post) == Piece.Bytes([ShortFor(letter).value], post)
  {
    assert ([ESCAPE, letter] + post)[2..] == post;
  }

  lemma EscapeOpens(s: seq<byte>, inside: seq<byte>)
    requires s == [ESCAPE, 117] + inside
    ensures StringPiece(s) == UnicodeEscape(inside)
  {
    assert s[2..] == inside;
  }

  lemma UnitReads(quad: seq<byte>, post: seq<byte>)
    requires ProperChar(Unit(quad))
    ensures StringPiece(SpellChar(Unit(quad)) + post) == Piece.Bytes(CharMeaning(Unit(quad)), post)
  {
    EscapeOpens(SpellChar(Unit(quad)) + post, quad + post);
    QuadExtends(quad, post);
  }

  lemma PairInside(high: seq<byte>, low: seq<byte>, post: seq<byte>)
    requires ProperChar(Pair(high, low))
    ensures UnicodeEscape(high + ([ESCAPE, 117] + (low + post))) == Piece.Bytes(CharMeaning(Pair(high, low)), post)
  {
    var rest := [ESCAPE, 117] + (low + post);
    var s := high + rest;
    QuadExtends(high, rest);
    QuadExtends(low, post);
    assert s[4] == rest[0] && s[5] == rest[1] && s[6..] == low + post && s[10..] == post;
  }

  lemma PairReads(high: seq<byte>, low: seq<byte>, post: seq<byte>)
    requires ProperChar(Pair(high, low))
    ensures StringPiece(SpellChar(Pair(high, low)) + post) == Piece.Bytes(CharMeaning(Pair(high, low)), post)
  {
    PairInside(high, low, post);
    var u: seq<byte> := [ESCAPE, 117];
    Regroup(u, low, post);
    Regroup(high, u + low, post);
    Regroup(u, high + (u + low), post);
    EscapeOpens(SpellChar(Pair(high, low)) + post, high + (u + (low + post)));
  }

  lemma StringStep(s: seq<byte>, b: CText, rest: seq<byte>, read: CText)
    requires s != [] && s[0] != QUOTE && StringPiece(s) == Piece.Bytes(b, rest)
    ensures StringRest(s, read) == StringRest(rest, read + b)
  {
  }

  lemma CharsSplit(chars: seq<Char>, post: seq<byte>)
    requires chars != []
    ensures SpellChars(chars) + post == SpellChar(chars[0]) + (SpellChars(chars[1..]) + post)
  {
  }

  lemma {:induction false} CharsRead(s: seq<byte>, p: Piece, chars: seq<Char>, post: seq<byte>, read: CText)
    requires ProperChars(chars) && s == SpellChars(chars) + ([QUOTE] + post) && p == StringRest(s, read)
    ensures p == Piece.Bytes(read + StringMeaning(chars), post)
    decreases |chars|
  {
    if chars == [] {
      assert s == [QUOTE] + post && s[1..] == post;
      assert read + StringMeaning(chars) == read;
    } else {
      var b, rest, more := CharMeaning(chars[0]), chars[1..], SpellChars(chars[1..]) + ([QUOTE] + post);
      CharsSplit(chars, [QUOTE] + post);
      CharStep(chars[0], more, read);
      CharsRead(more, p, rest, post, read + b);
      Regroup(read, b, StringMeaning(rest));
    }
  }

  lemma CharStep(c: Char, more: seq<byte>, read: CText)
    requires ProperChar(c)
    ensures StringRest(SpellChar(c) + more, read) == StringRest(more, read + CharMeaning(c))
  {
    CharReads(c, more);
    assert (SpellChar(c) + more)[0] == SpellChar(c)[0];
    StringStep(SpellChar(c) + more, CharMeaning(c), more, read);
  }

  lemma StringReads(chars: seq<Char>, post: seq<byte>)
    requires ProperChars(chars)
    ensures QuotedString(SpellString(chars) + post) == Piece.Bytes(StringMeaning(chars), post)
  {
    var s := SpellString(chars) + post;
    assert s[1..] == SpellChars(chars) + ([QUOTE] + post);
    CharsRead(s[1..], QuotedString(s), chars, post, []);
    assert [] + StringMeaning(chars) == StringMeaning(chars);
  }

  /** The first byte of a value tells it apart from space and closing brackets. */
  predicate StartsValue(b: byte)
  {
    !IsSpace(b) && b != CLOSE_ARRAY && b != CLOSE_OBJECT
  }

  lemma NumberStarts(token: seq<byte>)
    requires IsNumber(token)
    ensures NumberRest(token) == Some([]) && token != [] && (token[0] == 45 || IsDigit(token[0]))
  {
    NumberIsScanned(token);
  }

  lemma SpellStarts(x: Syntax, depth: nat, finite: seq<byte> -> bool)
    requires Proper(x, depth, true, finite)
    ensures Spell(x) != [] && StartsValue(Spell(x)[0])
    ensures !x.List? ==> Spell(x)[0] != OPEN_ARRAY && Spell(x)[0] != OPEN_OBJECT
  {
    if x.Num? { NumberStarts(x.token); }
  }

  lemma WordReads(word: Json, nodes: nat, post: seq<byte>, finite: seq<byte> -> bool)
    requires word.Null? || word.Bool?
    ensures Scalar(Spell(Word(word)) + post, nodes, finite) == Ok(word, post, nodes)
  {
    var w := Spell(Word(word));
    var s := w + post;
    assert w <= s && s[|w|..] == post && s[0] == w[0];
    assert TRUE_WORD[0] != FALSE_WORD[0] && TRUE_WORD[0] != NULL_WORD[0] && FALSE_WORD[0] != NULL_WORD[0];
    if TRUE_WORD <= s { assert TRUE_WORD[0] == s[0]; }
    if FALSE_WORD <= s { assert FALSE_WORD[0] == s[0]; }
  }

  lemma NumberReads(token: seq<byte>, nodes: nat, post: seq<byte>, finite: seq<byte> -> bool)
    requires IsNumber(token) && finite(token) && StopsNumber(post)
    ensures Scalar(token + post, nodes, finite) == Ok(Number(token), post, nodes)
  {
    var s := token + post;
    NumberStarts(token);
    NumberExtend(token, post);
    EmptyJoins(post);
    assert s[0] == token[0] && s[..|s| - |post|] == token;
    NumberScalar(s, token, post, nodes, finite);
  }

  lemma NumberScalar(s: seq<byte>, token: seq<byte>, rest: seq<byte>, nodes: nat, finite: seq<byte> -> bool)
    requires s != [] && (s[0] == 45 || IsDigit(s[0])) && NumberRest(s) == Some(rest)
    requires |rest| <= |s| && token == s[..|s| - |rest|] && finite(token)
    ensures Scalar(s, nodes, finite) == Ok(Number(token), rest, nodes)
  {
    assert s[0] != TRUE_WORD[0] && s[0] != FALSE_WORD[0] && s[0] != NULL_WORD[0];
  }

  lemma ScalarReads(x: Syntax, depth: nat, nodes: nat, post: seq<byte>, finite: seq<byte> -> bool)
    requires Proper(x, depth, true, finite) && !x.List? && StopsNumber(post)
    ensures Scalar(Spell(x) + post, nodes, finite) == Ok(Meaning(x), post, nodes)
  {
    match x
    case Word(word) => WordReads(word, nodes, post, finite);
    case Num(token) => NumberReads(token, nodes, post, finite);
    case Str(chars) => StringReads(chars, post);
  }

  /** A value is read after the space in front of it. */
  lemma ValueStep(s: seq<byte>, w: seq<byte>, x: Syntax, post: seq<byte>, depth: nat, nodes: nat,
                  finite: seq<byte> -> bool)
    requires Proper(x, depth, true, finite) && Blank(w, true) && s == w + (Spell(x) + post) && nodes > 0
    ensures x.List? ==>
              Value(s, depth, nodes, finite) ==
              Children(x.lead + (SpellItems(x.object_, x.items) + ([Close(x.object_)] + post)), x.object_, depth,
                       nodes - 1, finite)
    ensures !x.List? ==> Value(s, depth, nodes, finite) == Scalar(Spell(x) + post, nodes - 1, finite)
  {
    SpellStarts(x, depth, finite);
    assert (Spell(x) + post)[0] == Spell(x)[0];
    SkipBlank(w, Spell(x) + post);
    if x.List? { ListOpens(x.object_, x.lead, x.items, post); }
  }

  /** Reading a value gives what it means, leaves the text after it, and spends exactly as many
      nodes as the value has. */
  lemma {:induction false} ValueReads(s: seq<byte>, w: seq<byte>, x: Syntax, depth: nat, nodes: nat, post: seq<byte>,
                                      finite: seq<byte> -> bool)
    requires Proper(x, depth, true, finite) && Blank(w, true) && Nodes(Meaning(x)) <= nodes && StopsNumber(post)
    requires s == w + (Spell(x) + post)
    ensures Value(s, depth, nodes, finite) == Ok(Meaning(x), post, nodes - Nodes(Meaning(x)))
    decreases x, 0
  {
    ValueStep(s, w, x, post, depth, nodes, finite);
    if x.List? {
      ListValueReads(Value(s, depth, nodes, finite), x, depth, nodes, post, finite);
    } else {
      ScalarReads(x, depth, nodes - 1, post, finite);
    }
  }

  lemma {:induction false} ListValueReads(p: Parsed, x: Syntax, depth: nat, nodes: nat, post: seq<byte>,
                                          finite: seq<byte> -> bool)
    requires x.List? && Proper(x, depth, true, finite) && Nodes(Meaning(x)) <= nodes
    requires p == Children(x.lead + (SpellItems(x.object_, x.items) + ([Close(x.object_)] + post)), x.object_, depth,
                           nodes - 1, finite)
    ensures p == Ok(Meaning(x), post, nodes - Nodes(Meaning(x)))
    decreases x.items, 4
  {
    ListNodes(x);
    ListParts(x, depth, finite);
    var inside := x.lead + (SpellItems(x.object_, x.items) + ([Close(x.object_)] + post));
    ListReads(inside, p, x.object_, x.lead, x.items, depth, nodes - 1, post, finite);
  }

  lemma ListParts(x: Syntax, depth: nat, finite: seq<byte> -> bool)
    requires x.List? && Proper(x, depth, true, finite)
    ensures Blank(x.lead, true) && AllProper(x.object_, x.items, depth + 1, true, finite)
    ensures Unseen(x.object_, [], x.items)
  {
    assert [] + Keys(x.object_, x.items) == Keys(x.object_, x.items);
    DistinctUnseen(x.object_, [], x.items);
  }

  lemma ListNodes(x: Syntax)
    requires x.List?
    ensures Meaning(x) == Collection(x.object_, Keys(x.object_, x.items), Meanings(x.items))
    ensures Nodes(Meaning(x)) == 1 + SumNodes(Meanings(x.items))
  {
  }

  lemma ListOpens(object_: bool, lead: seq<byte>, items: seq<Item>, post: seq<byte>)
    ensures var s := Spell(List(object_, lead, items)) + post;
            s[0] == Open(object_) && s[1..] == lead + (SpellItems(object_, items) + ([Close(object_)] + post))
  {
    var inside := lead + (SpellItems(object_, items) + [Close(object_)]);
    assert Spell(List(object_, lead, items)) == [Open(object_)] + inside;
    assert ([Open(object_)] + inside + post)[1..] == inside + post;
  }

  lemma ItemsStart(object_: bool, items: seq<Item>, depth: nat, post: seq<byte>, finite: seq<byte> -> bool)
    requires items != [] && AllProper(object_, items, depth, true, finite)
    ensures var s := SpellItems(object_, items) + post; s != [] && StartsValue(s[0])
  {
    SpellStarts(items[0].value, depth, finite);
    if object_ {
      assert SpellItems(object_, items)[0] == SpellKey(object_, items[0])[0] == QUOTE;
    } else {
      assert SpellItems(object_, items)[0] == Spell(items[0].value)[0];
    }
  }

  lemma {:induction false} ListReads(s: seq<byte>, p: Parsed, object_: bool, lead: seq<byte>, items: seq<Item>,
                                     depth: nat, nodes: nat, post: seq<byte>, finite: seq<byte> -> bool)
    requires Blank(lead, true) && AllProper(object_, items, depth + 1, true, finite) && Unseen(object_, [], items)
    requires SumNodes(Meanings(items)) <= nodes
    requires s == lead + (SpellItems(object_, items) + ([Close(object_)] + post))
    requires p == Children(s, object_, depth, nodes, finite)
    ensures p == Ok(Collection(object_, Keys(object_, items), Meanings(items)), post, nodes - SumNodes(Meanings(items)))
    decreases items, 3
  {
    var body := SpellItems(object_, items) + ([Close(object_)] + post);
    if items == [] {
      assert body == [Close(object_)] + post && body[1..] == post;
      SkipBlank(lead, body);
    } else {
      ItemsStart(object_, items, depth + 1, [Close(object_)] + post, finite);
      SkipBlank(lead, body);
      assert [] + Keys(object_, items) == Keys(object_, items) && [] + Meanings(items) == Meanings(items);
      ItemsRead(body, p, object_, [], [], items, depth, nodes, post, finite);
    }
  }

  /** One round of the member loop, once its parts are known. */
  lemma ItemsStep(s: seq<byte>, object_: bool, depth: nat, nodes: nat, keys: seq<CText>, items: seq<Json>,
                  finite: seq<byte> -> bool, key: CText, s1: seq<byte>, child: Json, s2: seq<byte>, left: nat,
                  r: seq<byte>, keys': seq<CText>, items': seq<Json>)
    requires s != [] && KeyPart(s, object_) == Piece.Bytes(key, s1)
    requires Value(s1, depth + 1, nodes, finite) == Ok(child, s2, left)
    requires !(object_ && key in keys) && SkipSpace(s2) == r && r != []
    requires keys' == (if object_ then keys + [key] else keys) && items' == items + [child]
    ensures r[0] == Close(object_) ==>
              Items(s, object_, depth, nodes, keys, items, finite) ==
                  Ok(Collection(object_, keys', items'), r[1..], left)
    ensures r[0] == COMMA ==>
              Items(s, object_, depth, nodes, keys, items, finite)
              == Items(SkipSpace(r[1..]), object_, depth, left, keys', items', finite)
  {
  }

  lemma ItemSplit(object_: bool, items: seq<Item>, tail: seq<byte>)
    requires items != []
    ensures SpellItems(object_, items) + tail ==
            SpellKey(object_, items[0]) + (Spell(items[0].value) + (items[0].trail
              + (SpellMore(object_, items) + tail)))
  {
    var k, v, w, m := SpellKey(object_, items[0]), Spell(items[0].value), items[0].trail, SpellMore(object_, items);
    assert k + (v + (w + m)) + tail == k + (v + (w + (m + tail)));
  }

  lemma KeyReads(object_: bool, item: Item, post: seq<byte>)
    requires ProperItem(object_, item, true)
    ensures KeyPart(SpellKey(object_, item) + post, object_) ==
            Piece.Bytes(if object_ then StringMeaning(item.key) else [], item.ahead + post)
  {
    if object_ {
      var more := [COLON] + (item.ahead + post);
      assert SpellKey(object_, item) + post == SpellString(item.key) + (item.gap + more);
      StringReads(item.key, item.gap + more);
      SkipBlank(item.gap, more);
      assert more[1..] == item.ahead + post;
    }
  }

  /** What follows an item: space, then the end of the list or a comma and the next item. */
  lemma MoreReads(object_: bool, items: seq<Item>, r: seq<byte>, depth: nat, post: seq<byte>, finite: seq<byte> -> bool)
    requires items != [] && AllProper(object_, items, depth, true, finite)
    requires r == SpellMore(object_, items) + ([Close(object_)] + post)
    ensures r != [] && !IsSpace(r[0]) && StopsNumber(r)
    ensures |items| == 1 ==> r[0] == Close(object_) && r[1..] == post
    ensures |items| > 1 ==>
        r[0] == COMMA && SkipSpace(r[1..]) == SpellItems(object_, items[1..]) + ([Close(object_)] + post)
  {
    var tail := [Close(object_)] + post;
    if |items| == 1 {
      assert r == tail;
    } else {
      var body := SpellItems(object_, items[1..]) + tail;
      assert r == [COMMA] + (items[0].next + body);
      assert r[1..] == items[0].next + body;
      RestProper(object_, items, depth, finite);
      ItemsStart(object_, items[1..], depth, tail, finite);
      SkipBlank(items[0].next, body);
    }
  }

  lemma RestProper(object_: bool, items: seq<Item>, depth: nat, finite: seq<byte> -> bool)
    requires items != [] && AllProper(object_, items, depth, true, finite)
    ensures AllProper(object_, items[1..], depth, true, finite)
  {
  }

  lemma TrailReads(trail: seq<byte>, r: seq<byte>)
    requires Blank(trail, true) && r != [] && !IsSpace(r[0]) && StopsNumber(r)
    ensures SkipSpace(trail + r) == r && StopsNumber(trail + r)
  {
    SkipBlank(trail, r);
    if trail != [] { assert (trail + r)[0] == trail[0]; }
  }

  lemma DistinctAhead<T>(a: seq<T>, x: T, b: seq<T>)
    requires Distinct(a + ([x] + b))
    ensures x !in a
  {
    var all := a + ([x] + b);
    assert all[|a|] == x;
    assert forall i :: 0 <= i < |a| ==> all[i] == a[i];
  }

  /** No key of the items repeats one before it. */
  predicate Unseen(object_: bool, keys: seq<CText>, items: seq<Item>)
    decreases |items|
  {
    !object_ || items == [] ||
    (StringMeaning(items[0].key) !in keys && Unseen(object_, keys + [StringMeaning(items[0].key)], items[1..]))
  }

  lemma {:induction false} DistinctUnseen(object_: bool, keys: seq<CText>, items: seq<Item>)
    requires Distinct(keys + Keys(object_, items))
    ensures Unseen(object_, keys, items)
    decreases |items|
  {
    if object_ && items != [] {
      var key: CText, rest := StringMeaning(items[0].key), Keys(object_, items[1..]);
      assert Keys(object_, items) == [key] + rest;
      DistinctAhead(keys, key, rest);
      Regroup(keys, [key], rest);
      DistinctUnseen(object_, keys + [key], items[1..]);
    }
  }

  lemma KeysHead(object_: bool, keys: seq<CText>, items: seq<Item>)
    requires items != []
    ensures object_ ==> keys + [StringMeaning(items[0].key)] + Keys(object_, items[1..]) == keys + Keys(object_, items)
    ensures object_ && |items| == 1 ==> keys + [StringMeaning(items[0].key)] == keys + Keys(object_, items)
    ensures !object_ ==> Keys(object_, items) == Keys(object_, items[1..]) == []
  {
    if object_ {
      var key: CText, rest := StringMeaning(items[0].key), Keys(object_, items[1..]);
      assert Keys(object_, items) == [key] + rest;
      Regroup(keys, [key], rest);
      if |items| == 1 { assert rest == [] && [key] + rest == [key]; }
    }
  }

  lemma MeaningsHead(read: seq<Json>, items: seq<Item>)
    requires items != []
    ensures read + [Meaning(items[0].value)] + Meanings(items[1..]) == read + Meanings(items)
    ensures SumNodes(Meanings(items)) == Nodes(Meaning(items[0].value)) + SumNodes(Meanings(items[1..]))
    ensures |items| == 1 ==> read + Meanings(items) == read + [Meaning(items[0].value)]
    ensures |items| == 1 ==> SumNodes(Meanings(items)) == Nodes(Meaning(items[0].value))
  {
    var head, rest := [Meaning(items[0].value)], Meanings(items[1..]);
    assert Meanings(items) == head + rest;
    assert (head + rest)[1..] == rest;
    Regroup(read, head, rest);
    if |items| == 1 { assert rest == [] && head + rest == head; }
  }

  /** Where the parts of an item end. */
  lemma {:induction false} ItemParts(s: seq<byte>, s2: seq<byte>, r: seq<byte>, object_: bool, items: seq<Item>,
                                     depth: nat, nodes: nat, post: seq<byte>, finite: seq<byte> -> bool)
    requires items != [] && AllProper(object_, items, depth + 1, true, finite)
        && Nodes(Meaning(items[0].value)) <= nodes
    requires s == SpellItems(object_, items) + ([Close(object_)] + post)
    requires r == SpellMore(object_, items) + ([Close(object_)] + post) && s2 == items[0].trail + r
    ensures var item := items[0];
            var s1 := item.ahead + (Spell(item.value) + s2);
            && s != [] && KeyPart(s, object_) == Piece.Bytes(if object_ then StringMeaning(item.key) else [], s1)
            && Value(s1, depth + 1, nodes, finite) == Ok(Meaning(item.value), s2, nodes - Nodes(Meaning(item.value)))
            && SkipSpace(s2) == r
    decreases items, 0
  {
    var item := items[0];
    ItemSplit(object_, items, [Close(object_)] + post);
    KeyReads(object_, item, Spell(item.value) + s2);
    MoreReads(object_, items, r, depth + 1, post, finite);
    TrailReads(item.trail, r);
    ValueReads(item.ahead + (Spell(item.value) + s2), item.ahead, item.value, depth + 1, nodes, s2, finite);
    ItemsStart(object_, items, depth + 1, [Close(object_)] + post, finite);
  }

  /** One round of the loop reads the first item, and goes on with the others. */
  lemma {:induction false} ItemRound(s: seq<byte>, p: Parsed, object_: bool, keys: seq<CText>, read: seq<Json>,
                                     items: seq<Item>, depth: nat, nodes: nat, post: seq<byte>,
                                     finite: seq<byte> -> bool,
                                     key: CText, next: seq<byte>, keys': seq<CText>, read': seq<Json>, left: nat)
    requires items != [] && AllProper(object_, items, depth + 1, true, finite)
        && Nodes(Meaning(items[0].value)) <= nodes
    requires key == if object_ then StringMeaning(items[0].key) else []
    requires object_ ==> key !in keys
    requires s == SpellItems(object_, items) + ([Close(object_)] + post)
    requires next == SpellItems(object_, items[1..]) + ([Close(object_)] + post)
    requires p == Items(s, object_, depth, nodes, keys, read, finite)
    requires keys' == (if object_ then keys + [key] else keys) && read' == read + [Meaning(items[0].value)]
    requires left == nodes - Nodes(Meaning(items[0].value))
    ensures |items| == 1 ==> p == Ok(Collection(object_, keys', read'), post, left)
    ensures |items| > 1 ==> p == Items(next, object_, depth, left, keys', read', finite)
    decreases items, 1
  {
    var item := items[0];
    var r := SpellMore(object_, items) + ([Close(object_)] + post);
    var s2 := item.trail + r;
    ItemParts(s, s2, r, object_, items, depth, nodes, post, finite);
    MoreReads(object_, items, r, depth + 1, post, finite);
    ItemsStep(s, object_, depth, nodes, keys, read, finite, key, item.ahead + (Spell(item.value) + s2),
              Meaning(item.value), s2, left, r, keys', read');
  }

  lemma {:induction false} ItemsRead(s: seq<byte>, p: Parsed, object_: bool, keys: seq<CText>, read: seq<Json>,
                                     items: seq<Item>, depth: nat, nodes: nat, post: seq<byte>,
                                     finite: seq<byte> -> bool)
    requires items != [] && AllProper(object_, items, depth + 1, true, finite) && SumNodes(Meanings(items)) <= nodes
    requires Unseen(object_, keys, items) && (!object_ ==> keys == [])
    requires s == SpellItems(object_, items) + ([Close(object_)] + post)
    requires p == Items(s, object_, depth, nodes, keys, read, finite)
    ensures p == Ok(Collection(object_, keys + Keys(object_, items), read + Meanings(items)), post,
                    nodes - SumNodes(Meanings(items)))
    decreases items, 2
  {
    var rest, next := items[1..], SpellItems(object_, items[1..]) + ([Close(object_)] + post);
    var key: CText := if object_ then StringMeaning(items[0].key) else [];
    var keys', read' := if object_ then keys + [key] else keys, read + [Meaning(items[0].value)];
    var left := nodes - Nodes(Meaning(items[0].value));
    MeaningsHead(read, items);
    ItemRound(s, p, object_, keys, read, items, depth, nodes, post, finite, key, next, keys', read', left);
    if |items| > 1 {
      RestProper(object_, items, depth + 1, finite);
      ItemsRead(next, p, object_, keys', read', rest, depth, left, post, finite);
    }
    KeysHead(object_, keys, items);
    if !object_ { assert keys + Keys(object_, items) == keys; }
  }
}
