/** Printing and parsing are inverse on well-formed values, and only well-formed
    values are accepted. */
module JsonRoundTrip {
  import opened Bytes
  import opened JsonAccepted
  import opened JsonGrammar
  import opened JsonNumbers
  import opened JsonText
  import Utf8

  // ---------------------------------------------------------------------
  // The printed form is a text of the grammar.
  // ---------------------------------------------------------------------

  function PrintedChar(b: byte): Char
  {
    if b == QUOTE || b == ESCAPE then Short(b)
    else if b == 8 then Short(98)
    else if b == 12 then Short(102)
    else if b == 10 then Short(110)
    else if b == 13 then Short(114)
    else if b == 9 then Short(116)
    else if b < 0x20 then Unit([48, 48, HexDigit(b / 16), HexDigit(b % 16)])
    else Plain(b)
  }

  lemma PrintedCharIs(b: byte)
    requires b != 0
    ensures var c := PrintedChar(b); ProperChar(c) && SpellChar(c) == EscapeByte(b) && CharMeaning(c) == [b]
  {
    if PrintedChar(b).Unit? {
      assert HexValue(HexDigit(b / 16)) == Some(b / 16) && HexValue(HexDigit(b % 16)) == Some(b % 16);
      assert HexQuad(PrintedChar(b).quad) == Some(b);
      assert Utf8.Encode(b) == [b];
    }
  }

  function PrintedChars(text: seq<byte>): seq<Char>
  {
    if text == [] then [] else [PrintedChar(text[0])] + PrintedChars(text[1..])
  }

  lemma {:induction false} PrintedCharsAre(text: CText)
    ensures var chars := PrintedChars(text);
            ProperChars(chars) && SpellChars(chars) == EscapeBytes(text) && StringMeaning(chars) == text
    decreases |text|
  {
    if text != [] {
      PrintedCharIs(text[0]);
      PrintedCharsAre(text[1..]);
      assert PrintedChars(text)[1..] == PrintedChars(text[1..]);
      assert text == [text[0]] + text[1..];
    }
  }

  lemma QuoteIsSpelt(text: CText)
    ensures SpellString(PrintedChars(text)) == Quote(text)
  {
    PrintedCharsAre(text);
    Regroup([QUOTE], EscapeBytes(text), [QUOTE]);
  }

  /** Reading back what the escaper wrote. */
  lemma EscapeReads(text: CText, post: seq<byte>, read: CText)
    ensures StringRest(EscapeBytes(text) + [QUOTE] + post, read) == Piece.Bytes(read + text, post)
  {
    PrintedCharsAre(text);
    Regroup(EscapeBytes(text), [QUOTE], post);
    var s := EscapeBytes(text) + [QUOTE] + post;
    CharsRead(s, StringRest(s, read), PrintedChars(text), post, read);
  }

  lemma QuoteReads(text: CText, post: seq<byte>)
    ensures QuotedString(Quote(text) + post) == Piece.Bytes(text, post)
  {
    PrintedCharsAre(text);
    QuoteIsSpelt(text);
    StringReads(PrintedChars(text), post);
  }

  /** The syntax tree behind the printed form: no space anywhere. */
  function Printed(t: Json): Syntax
    decreases t, 0
  {
    match t
    case Number(token) => Num(token)
    case String(text) => Str(PrintedChars(text))
    case Array(items) => List(false, [], PrintedItems(false, [], items))
    case Object(keys, items) => List(true, [], PrintedItems(true, keys, items))
    case _ => Word(t)
  }

  function PrintedItems(object_: bool, keys: seq<CText>, items: seq<Json>): (printed: seq<Item>)
    ensures |printed| == |items|
    decreases items, 1
  {
    if items == [] then []
    else
      [Item(if object_ && keys != [] then PrintedChars(keys[0]) else [], [], [], Printed(items[0]), [], [])]
      + PrintedItems(object_, if keys == [] then [] else keys[1..], items[1..])
  }

  ghost predicate AllWellFormed(items: seq<Json>, depth: nat, finite: seq<byte> -> bool)
  {
    forall i :: 0 <= i < |items| ==> WellFormed(items[i], depth, finite)
  }

  /** The tree is a proper one, spelt as the value is printed, and means the value. */
  ghost predicate Prints(t: Json, depth: nat, finite: seq<byte> -> bool)
  {
    Proper(Printed(t), depth, false, finite) && Spell(Printed(t)) == Print(t) && Meaning(Printed(t)) == t
  }

  lemma {:induction false} PrintedIs(t: Json, depth: nat, finite: seq<byte> -> bool)
    requires WellFormed(t, depth, finite)
    ensures Prints(t, depth, finite)
    decreases t, 0
  {
    match t
    case Number(token) => NumberIsScanned(token);
    case String(text) => PrintedCharsAre(text); QuoteIsSpelt(text);
    case Array(items) =>
      PrintedItemsAre(false, [], items, depth + 1, finite);
      ListIsProper(false, PrintedItems(false, [], items), depth, finite);
      ListPrints(false, [], items);
    case Object(keys, items) =>
      PrintedItemsAre(true, keys, items, depth + 1, finite);
      ListIsProper(true, PrintedItems(true, keys, items), depth, finite);
      ListPrints(true, keys, items);
    case _ =>
  }

  /** The printed items of a list are proper ones, spelt as printed, and mean the list. */
  ghost predicate PrintsItems(object_: bool, keys: seq<CText>, items: seq<Json>, depth: nat,
                              finite: seq<byte> -> bool)
  {
    var printed := PrintedItems(object_, keys, items);
    && AllProper(object_, printed, depth, false, finite)
    && SpellItems(object_, printed) == PrintItems(object_, keys, items)
    && Keys(object_, printed) == keys && Meanings(printed) == items
  }

  lemma ListIsProper(object_: bool, items: seq<Item>, depth: nat, finite: seq<byte> -> bool)
    requires depth <= MAX_DEPTH && Distinct(Keys(object_, items)) && AllProper(object_, items, depth + 1, false, finite)
    ensures Proper(List(object_, [], items), depth, false, finite)
  {
  }

  lemma ListPrints(object_: bool, keys: seq<CText>, items: seq<Json>)
    requires SpellItems(object_, PrintedItems(object_, keys, items)) == PrintItems(object_, keys, items)
    ensures Spell(List(object_, [], PrintedItems(object_, keys, items))) ==
            [Open(object_)] + PrintItems(object_, keys, items) + [Close(object_)]
  {
    var m := PrintItems(object_, keys, items);
    assert [] + (m + [Close(object_)]) == m + [Close(object_)];
    Regroup([Open(object_)], m, [Close(object_)]);
  }

  lemma KeyIsSpelt(object_: bool, keys: seq<CText>, items: seq<Json>)
    requires items != [] && (object_ <==> keys != [])
    ensures var item := PrintedItems(object_, keys, items)[0];
            && ProperItem(object_, item, false) && SpellKey(object_, item) == PrintKey(object_, keys)
            && item.value == Printed(items[0]) && item.trail == item.next == []
            && (object_ ==> StringMeaning(item.key) == keys[0])
  {
    if object_ {
      PrintedCharsAre(keys[0]);
      QuoteIsSpelt(keys[0]);
      assert [] + ([COLON] + []) == [COLON];
    }
  }

  lemma {:induction false} PrintedItemsAre(object_: bool, keys: seq<CText>, items: seq<Json>, depth: nat,
                                           finite: seq<byte> -> bool)
    requires AllWellFormed(items, depth, finite) && |keys| == if object_ then |items| else 0
    ensures PrintsItems(object_, keys, items, depth, finite)
    decreases items, 1
  {
    if items != [] {
      var printed, ks, rest := PrintedItems(object_, keys, items), if keys == [] then [] else keys[1..], items[1..];
      var more := PrintedItems(object_, ks, rest);
      assert printed[1..] == more && printed == [printed[0]] + more;
      KeyIsSpelt(object_, keys, items);
      PrintedIs(items[0], depth, finite);
      PrintedItemsAre(object_, ks, rest, depth, finite);
      ItemsPrint(object_, keys, items, printed);
      ConsProper(object_, printed[0], more, printed, depth, false, finite);
      PrintedTotals(object_, keys, items, printed);
    }
  }

  lemma {:induction false} PrintedTotals(object_: bool, keys: seq<CText>, items: seq<Json>, printed: seq<Item>)
    requires |items| == |printed| > 0 && |keys| == if object_ then |items| else 0
    requires object_ ==> StringMeaning(printed[0].key) == keys[0] && Keys(object_, printed[1..]) == keys[1..]
    requires Meaning(printed[0].value) == items[0] && Meanings(printed[1..]) == items[1..]
    ensures Keys(object_, printed) == keys && Meanings(printed) == items
  {
    assert items == [items[0]] + items[1..];
    assert object_ ==> keys == [keys[0]] + keys[1..];
  }

  lemma ItemsPrint(object_: bool, keys: seq<CText>, items: seq<Json>, printed: seq<Item>)
    requires |items| == |printed| > 0
    requires SpellKey(object_, printed[0]) == PrintKey(object_, keys) && printed[0].trail == printed[0].next == []
    requires Spell(printed[0].value) == Print(items[0])
    requires SpellItems(object_, printed[1..]) == PrintItems(object_, if keys == [] then [] else keys[1..], items[1..])
    ensures SpellItems(object_, printed) == PrintItems(object_, keys, items)
  {
    var m := SpellMore(object_, printed);
    EmptyJoins(m);
    EmptyJoins(SpellItems(object_, printed[1..]));
    Regroup(PrintKey(object_, keys), Print(items[0]), m);
  }

  // ---------------------------------------------------------------------
  // The round trip.
  // ---------------------------------------------------------------------

  /** Parsing the printed form of a well-formed value gives the value back, leaves the
      text after it, and spends exactly as many nodes as it has. */
  lemma PrintReads(t: Json, depth: nat, nodes: nat, post: seq<byte>, finite: seq<byte> -> bool)
    requires WellFormed(t, depth, finite) && Nodes(t) <= nodes && StopsNumber(post)
    ensures Value(Print(t) + post, depth, nodes, finite) == Ok(t, post, nodes - Nodes(t))
  {
    PrintedIs(t, depth, finite);
    ProperWidens(Printed(t), depth, finite);
    assert [] + (Print(t) + post) == Print(t) + post;
    ValueReads(Print(t) + post, [], Printed(t), depth, nodes, post, finite);
  }

  /** A whole document round-trips, and what is printed needs no wider white space. */
  lemma ParsePrinted(t: Json, finite: seq<byte> -> bool)
    requires WellFormed(t, 0, finite) && Nodes(t) <= MAX_NODES
    ensures Parse(Print(t), finite) == Some(t) && Document(Print(t), t, false, finite)
  {
    PrintedIs(t, 0, finite);
    assert [] + (Print(t) + []) == Print(t);
    assert DocumentAs(Print(t), t, false, finite, [], Printed(t), []);
    StrictExactlyWhen(Print(t), t, finite);
    DocumentIsAccepted(Print(t), t, finite);
  }

  // ---------------------------------------------------------------------
  // Only well-formed values are accepted.
  // ---------------------------------------------------------------------

  lemma {:induction false} ProperMeans(x: Syntax, depth: nat, finite: seq<byte> -> bool)
    requires Proper(x, depth, true, finite)
    ensures WellFormed(Meaning(x), depth, finite)
    decreases x
  {
    match x
    case Num(token) => NumberIsScanned(token);
    case List(object_, lead, items) =>
      forall i | 0 <= i < |items| ensures WellFormed(Meanings(items)[i], depth + 1, finite) {
        ProperMeans(items[i].value, depth + 1, finite);
        MeaningAt(items, i);
      }
    case _ =>
  }

  lemma {:induction false} MeaningAt(items: seq<Item>, i: nat)
    requires i < |items|
    ensures Meanings(items)[i] == Meaning(items[i].value)
    decreases i
  {
    if i > 0 {
      MeaningAt(items[1..], i - 1);
    }
  }

  lemma ValueSound(s: seq<byte>, depth: nat, nodes: nat, finite: seq<byte> -> bool)
    requires Value(s, depth, nodes, finite).Ok?
    ensures var p := Value(s, depth, nodes, finite);
            WellFormed(p.value, depth, finite) && p.nodes == nodes - Nodes(p.value)
  {
    var w, x := ValueTaken(s, Value(s, depth, nodes, finite), depth, nodes, finite);
    ProperMeans(x, depth, finite);
  }

  /** Every accepted document is a well-formed value within the node budget: bounded
      nesting, no duplicate key at any depth, and (by the type of texts) no NUL. */
  lemma ParseAccepts(text: seq<byte>, finite: seq<byte> -> bool)
    requires Parse(text, finite).Some?
    ensures WellFormed(Parse(text, finite).value, 0, finite) && Nodes(Parse(text, finite).value) <= MAX_NODES
  {
    ValueSound(text, 0, MAX_NODES, finite);
  }

  /** The accepted values are exactly the well-formed ones within the budget. */
  lemma AcceptedExactly(t: Json, finite: seq<byte> -> bool)
    ensures (exists text :: Parse(text, finite) == Some(t)) <==> WellFormed(t, 0, finite) && Nodes(t) <= MAX_NODES
  {
    if text :| Parse(text, finite) == Some(t) {
      ParseAccepts(text, finite);
    }
    if WellFormed(t, 0, finite) && Nodes(t) <= MAX_NODES {
      ParsePrinted(t, finite);
    }
  }
}
