/** JSON values, their printed form, and the grammar that core/src/json.c accepts
    (RFC 8259, with the white space of C's `isspace`). */
module JsonText {
  import opened Bytes
  import Utf8

  const MAX_DEPTH: nat := 128
  const MAX_NODES: nat := 1_000_000

  const QUOTE: byte := 34
  const ESCAPE: byte := 92
  const COMMA: byte := 44
  const COLON: byte := 58
  const OPEN_ARRAY: byte := 91
  const CLOSE_ARRAY: byte := 93
  const OPEN_OBJECT: byte := 123
  const CLOSE_OBJECT: byte := 125

  const TRUE_WORD: seq<byte> := [116, 114, 117, 101]
  const FALSE_WORD: seq<byte> := [102, 97, 108, 115, 101]
  const NULL_WORD: seq<byte> := [110, 117, 108, 108]

  /** Strings and keys are C strings, so they hold no NUL.  A number is its token;
      what `strtod` makes of it is not interpreted. */
  datatype Json =
    | Null
    | Bool(value: bool)
    | Number(token: seq<byte>)
    | String(text: CText)
    | Array(items: seq<Json>)
    | Object(keys: seq<CText>, members: seq<Json>)

  function Collection(object_: bool, keys: seq<CText>, items: seq<Json>): Json
  {
    if object_ then Object(keys, items) else Array(items)
  }

  /** The values a parse at this depth can produce: bounded nesting, distinct keys, and
      number tokens of the grammar that `strtod` reads as finite. */
  ghost predicate WellFormed(t: Json, depth: nat, finite: seq<byte> -> bool)
    decreases t
  {
    && depth <= MAX_DEPTH
    && match t
       case Null => true
       case Bool(_) => true
       case Number(token) => NumberRest(token) == Some([]) && finite(token)
       case String(_) => true
       case Array(items) => forall i :: 0 <= i < |items| ==> WellFormed(items[i], depth + 1, finite)
       case Object(keys, items) =>
         && |keys| == |items| && Distinct(keys)
         && forall i :: 0 <= i < |items| ==> WellFormed(items[i], depth + 1, finite)
  }

  /** The number of values in a tree, itself included. */
  function Nodes(t: Json): (n: nat)
    ensures n >= 1
    decreases t, 0
  {
    match t
    case Array(items) => 1 + SumNodes(items)
    case Object(_, items) => 1 + SumNodes(items)
    case _ => 1
  }

  function SumNodes(ts: seq<Json>): nat
    decreases ts
  {
    if ts == [] then 0 else Nodes(ts[0]) + SumNodes(ts[1..])
  }

  // ---------------------------------------------------------------------
  // Printing.
  // ---------------------------------------------------------------------

  function HexDigit(v: nat): byte
    requires v < 16
  {
    if v < 10 then 48 + v else 87 + v
  }

  /** What `owc_json_escape_string` writes for one byte. */
  function EscapeByte(b: byte): seq<byte>
  {
    if b == QUOTE || b == ESCAPE then [ESCAPE, b]
    else if b == 8 then [ESCAPE, 98]
    else if b == 12 then [ESCAPE, 102]
    else if b == 10 then [ESCAPE, 110]
    else if b == 13 then [ESCAPE, 114]
    else if b == 9 then [ESCAPE, 116]
    else if b < 0x20 then [ESCAPE, 117, 48, 48, HexDigit(b / 16), HexDigit(b % 16)]
    else [b]
  }

  function EscapeBytes(s: seq<byte>): seq<byte>
  {
    if s == [] then [] else EscapeByte(s[0]) + EscapeBytes(s[1..])
  }

  function Quote(s: seq<byte>): seq<byte>
  {
    [QUOTE] + EscapeBytes(s) + [QUOTE]
  }

  /** The compact printed form. */
  function Print(t: Json): seq<byte>
    decreases t, 0
  {
    match t
    case Null => NULL_WORD
    case Bool(b) => if b then TRUE_WORD else FALSE_WORD
    case Number(token) => token
    case String(s) => Quote(s)
    case Array(items) => [OPEN_ARRAY] + PrintItems(false, [], items) + [CLOSE_ARRAY]
    case Object(keys, items) => [OPEN_OBJECT] + PrintItems(true, keys, items) + [CLOSE_OBJECT]
  }

  function PrintItems(object_: bool, keys: seq<CText>, items: seq<Json>): seq<byte>
    decreases items, 1
  {
    if items == [] then []
    else
      PrintKey(object_, keys) + Print(items[0])
      + (if |items| == 1 then [] else [COMMA] + PrintItems(object_, if keys == [] then [] else keys[1..], items[1..]))
  }

  function PrintKey(object_: bool, keys: seq<CText>): seq<byte>
  {
    if object_ && keys != [] then Quote(keys[0]) + [COLON] else []
  }

  // ---------------------------------------------------------------------
  // The grammar.  Every function takes the text still to be read and gives
  // what is left of it.
  // ---------------------------------------------------------------------

  datatype Parsed = Ok(value: Json, rest: seq<byte>, nodes: nat) | Error

  predicate IsSpace(b: byte) { b == 32 || 9 <= b <= 13 }

  function SkipSpace(s: seq<byte>): (r: seq<byte>)
    ensures |r| <= |s|
    ensures r != [] ==> !IsSpace(r[0])
  {
    if s != [] && IsSpace(s[0]) then SkipSpace(s[1..]) else s
  }

  predicate IsDigit(b: byte) { 48 <= b <= 57 }

  function HexValue(b: byte): Option<nat>
  {
    if 48 <= b <= 57 then Some(b - 48)
    else if 97 <= b <= 102 then Some(b - 97 + 10)
    else if 65 <= b <= 70 then Some(b - 65 + 10)
    else None
  }

  /** Four hexadecimal digits. */
  function HexQuad(s: seq<byte>): (q: Option<nat>)
    ensures q.Some? ==> |s| >= 4 && q.value < 65536
  {
    if |s| < 4 then None
    else
      match (HexValue(s[0]), HexValue(s[1]), HexValue(s[2]), HexValue(s[3]))
      case (Some(a), Some(b), Some(c), Some(d)) => Some(((a * 16 + b) * 16 + c) * 16 + d)
      case _ => None
  }

  datatype Piece = Bytes(bytes: CText, rest: seq<byte>) | Bad

  /** A `\u` escape, after the `u`; a high surrogate takes a second escape with it. */
  function UnicodeEscape(s: seq<byte>): (p: Piece)
    ensures p.Bytes? ==> |p.rest| < |s|
  {
    match HexQuad(s)
    case None => Bad
    case Some(code) =>
      if 0xD800 <= code <= 0xDBFF then
        if |s| < 10 || s[4] != ESCAPE || s[5] != 117 then Bad
        else
          match HexQuad(s[6..])
          case None => Bad
          case Some(low) =>
            if low < 0xDC00 || low > 0xDFFF then Bad
            else Emit(0x10000 + (code - 0xD800) * 1024 + (low - 0xDC00), s[10..])
      else if code == 0 || 0xDC00 <= code <= 0xDFFF then Bad
      else Emit(code, s[4..])
  }

  function Emit(c: Utf8.scalar, rest: seq<byte>): (p: Piece)
    ensures p.Bytes? && p.rest == rest
  {
    EncodingHasNoNul(c);
    Bytes(Utf8.Encode(c), rest)
  }

  lemma EncodingHasNoNul(c: Utf8.scalar)
    ensures 0 !in Utf8.Encode(c)
  {
    var e := Utf8.Encode(c);
    assert forall i :: 0 <= i < |e| ==> e[i] != 0;
  }

  /** One character of a string, already known not to be the closing quote. */
  function StringPiece(s: seq<byte>): (p: Piece)
    requires s != []
    ensures p.Bytes? ==> |p.rest| < |s|
  {
    if s[0] < 0x20 then Bad
    else if s[0] != ESCAPE then Bytes([s[0]], s[1..])
    else if |s| < 2 then Bad
    else if s[1] == QUOTE || s[1] == ESCAPE || s[1] == 47 then Bytes([s[1]], s[2..])
    else if s[1] == 98 then Bytes([8], s[2..])
    else if s[1] == 102 then Bytes([12], s[2..])
    else if s[1] == 110 then Bytes([10], s[2..])
    else if s[1] == 114 then Bytes([13], s[2..])
    else if s[1] == 116 then Bytes([9], s[2..])
    else if s[1] == 117 then UnicodeEscape(s[2..])
    else Bad
  }

  /** The rest of a string after its opening quote, added to what was read before. */
  function StringRest(s: seq<byte>, read: CText): (p: Piece)
    ensures p.Bytes? ==> |p.rest| < |s|
    decreases |s|
  {
    if s == [] then Bad
    else if s[0] == QUOTE then Bytes(read, s[1..])
    else
      match StringPiece(s)
      case Bad => Bad
      case Bytes(b, rest) => StringRest(rest, read + b)
  }

  function QuotedString(s: seq<byte>): (p: Piece)
    ensures p.Bytes? ==> |p.rest| < |s|
  {
    if s == [] || s[0] != QUOTE then Bad else StringRest(s[1..], [])
  }

  function Digits(s: seq<byte>): (r: seq<byte>)
    ensures |r| <= |s|
  {
    if s != [] && IsDigit(s[0]) then Digits(s[1..]) else s
  }

  function SignRest(s: seq<byte>): seq<byte>
  {
    if s != [] && s[0] == 45 then s[1..] else s
  }

  function IntegerRest(s: seq<byte>): Option<seq<byte>>
  {
    if s == [] then None
    else if s[0] == 48 then Some(s[1..])
    else if 49 <= s[0] <= 57 then Some(Digits(s))
    else None
  }

  function SomeDigits(s: seq<byte>): Option<seq<byte>>
  {
    if s == [] || !IsDigit(s[0]) then None else Some(Digits(s))
  }

  function FractionRest(s: seq<byte>): Option<seq<byte>>
  {
    if s != [] && s[0] == 46 then SomeDigits(s[1..]) else Some(s)
  }

  function ExponentRest(s: seq<byte>): Option<seq<byte>>
  {
    if s != [] && (s[0] == 101 || s[0] == 69) then
      SomeDigits(if |s| > 1 && (s[1] == 43 || s[1] == 45) then s[2..] else s[1..])
    else Some(s)
  }

  /** `parse_number_token`: what is left after the longest number at the front. */
  function NumberRest(s: seq<byte>): (r: Option<seq<byte>>)
    ensures r.Some? ==> |r.value| < |s|
  {
    match IntegerRest(SignRest(s))
    case None => None
    case Some(a) =>
      match FractionRest(a)
      case None => None
      case Some(b) => ExponentRest(b)
  }

  /** `parse_value`. */
  function Value(s0: seq<byte>, depth: nat, nodes: nat, finite: seq<byte> -> bool): (p: Parsed)
    ensures p.Ok? ==> |p.rest| < |s0| && p.nodes < nodes
    decreases |s0|, 0
  {
    var s := SkipSpace(s0);
    if nodes == 0 || depth > MAX_DEPTH || s == [] then Error
    else if s[0] == OPEN_OBJECT then Children(s[1..], true, depth, nodes - 1, finite)
    else if s[0] == OPEN_ARRAY then Children(s[1..], false, depth, nodes - 1, finite)
    else Scalar(s, nodes - 1, finite)
  }

  function Scalar(s: seq<byte>, nodes: nat, finite: seq<byte> -> bool): (p: Parsed)
    requires s != []
    ensures p.Ok? ==> |p.rest| < |s| && p.nodes == nodes
  {
    if s[0] == QUOTE then
      match QuotedString(s)
      case Bad => Error
      case Bytes(b, rest) => Ok(String(b), rest, nodes)
    else if TRUE_WORD <= s then Ok(Bool(true), s[4..], nodes)
    else if FALSE_WORD <= s then Ok(Bool(false), s[5..], nodes)
    else if NULL_WORD <= s then Ok(Null, s[4..], nodes)
    else
      match NumberRest(s)
      case None => Error
      case Some(rest) =>
        var token := s[..|s| - |rest|];
        if finite(token) then Ok(Number(token), rest, nodes) else Error
  }

  /** `parse_collection` after the opening bracket. */
  function Children(s0: seq<byte>, object_: bool, depth: nat, nodes: nat, finite: seq<byte> -> bool): (p: Parsed)
    ensures p.Ok? ==> |p.rest| < |s0| && p.nodes <= nodes
    decreases |s0|, 2
  {
    var s := SkipSpace(s0);
    if s != [] && s[0] == Close(object_) then Ok(Collection(object_, [], []), s[1..], nodes)
    else Items(s, object_, depth, nodes, [], [], finite)
  }

  function Close(object_: bool): byte
  {
    if object_ then CLOSE_OBJECT else CLOSE_ARRAY
  }

  /** A key and its colon, or nothing in an array. */
  function KeyPart(s: seq<byte>, object_: bool): (p: Piece)
    ensures p.Bytes? ==> |p.rest| <= |s|
  {
    if !object_ then Bytes([], s)
    else
      match QuotedString(s)
      case Bad => Bad
      case Bytes(key, rest) =>
        var r := SkipSpace(rest);
        if r == [] || r[0] != COLON then Bad else Bytes(key, r[1..])
  }

  /** The loop over members, with those read so far. */
  function Items(s: seq<byte>, object_: bool, depth: nat, nodes: nat, keys: seq<CText>, items: seq<Json>,
                 finite: seq<byte> -> bool): (p: Parsed)
    ensures p.Ok? ==> |p.rest| < |s| && p.nodes < nodes
    decreases |s|, 1
  {
    if s == [] then Error
    else
      match KeyPart(s, object_)
      case Bad => Error
      case Bytes(key, s1) =>
        match Value(s1, depth + 1, nodes, finite)
        case Error => Error
        case Ok(child, s2, left) =>
          if object_ && key in keys then Error
          else
            var keys', items' := if object_ then keys + [key] else keys, items + [child];
            var r := SkipSpace(s2);
            if r == [] then Error
            else if r[0] == Close(object_) then Ok(Collection(object_, keys', items'), r[1..], left)
            else if r[0] != COMMA then Error
            else Items(SkipSpace(r[1..]), object_, depth, left, keys', items', finite)
  }

  /** `owc_json_parse`: one value and nothing after it but white space. */
  function Parse(text: seq<byte>, finite: seq<byte> -> bool): Option<Json>
  {
    match Value(text, 0, MAX_NODES, finite)
    case Error => None
    case Ok(v, rest, _) => if SkipSpace(rest) == [] then Some(v) else None
  }
}
