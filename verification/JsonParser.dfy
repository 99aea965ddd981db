/** The recursive parser of core/src/json.c: a cursor and a node budget advanced in place. */
module JsonParser {
  import opened Bytes
  import opened JsonText
  import KeySet

  datatype Separator = Closed | More | Broken

  class Parser {
    const text: seq<byte>
    const finite: seq<byte> -> bool
    var cursor: nat
    var nodesLeft: nat

    constructor (text: seq<byte>, finite: seq<byte> -> bool)
      ensures this.text == text && this.finite == finite
      ensures cursor == 0 && nodesLeft == MAX_NODES
    {
      this.text, this.finite := text, finite;
      cursor, nodesLeft := 0, MAX_NODES;
    }

    /** The text still to be read. */
    ghost function Rest(): seq<byte>
      reads this
      requires cursor <= |text|
    {
      text[cursor..]
    }

    /** How a call that could also fail relates to the grammar. */
    ghost predicate Follows(p: Parsed, result: Option<Json>)
      reads this
      requires cursor <= |text|
    {
      match p
      case Error => result == None
      case Ok(v, rest, nodes) => result == Some(v) && Rest() == rest && nodesLeft == nodes
    }

    method SkipWs()
      requires cursor <= |text|
      modifies this`cursor
      ensures old(cursor) <= cursor <= |text| && Rest() == SkipSpace(old(Rest()))
    {
      ghost var s := Rest();
      while cursor < |text| && IsSpace(text[cursor])
        invariant old(cursor) <= cursor <= |text|
        invariant SkipSpace(s) == SkipSpace(text[cursor..])
      {
        assert text[cursor..][1..] == text[cursor + 1..];
        cursor := cursor + 1;
      }
    }

    method ParseHexQuad() returns (code: Option<nat>)
      requires cursor <= |text|
      modifies this`cursor
      ensures old(cursor) <= cursor <= |text| && code == HexQuad(old(Rest()))
      ensures code.Some? ==> cursor == old(cursor) + 4 && code.value < 65536
    {
      ghost var s := Rest();
      if |text| - cursor < 4 { return None; }
      var value: nat, i := 0, 0;
      ghost var start := cursor;
      while i < 4
        invariant 0 <= i <= 4 && cursor == start + i <= |text| && |s| >= 4 && s == text[start..]
        invariant forall j :: 0 <= j < i ==> HexValue(s[j]).Some?
        invariant value == HexPrefix(s, i)
      {
        assert s[i] == text[cursor];
        var digit := HexValue(text[cursor]);
        cursor := cursor + 1;
        if digit.None? { return None; }
        value, i := value * 16 + digit.value, i + 1;
      }
      HexPrefixIsQuad(s);
      return Some(value);
    }

    /** A quoted string, from its opening quote on. */
    method ParseString() returns (result: Option<CText>)
      requires cursor <= |text|
      modifies this`cursor
      ensures cursor <= |text|
      ensures match QuotedString(old(Rest()))
              case Bad => result == None
              case Bytes(b, rest) => result == Some(b) && Rest() == rest && cursor > old(cursor)
    {
      var buffer: CText := [];
      if cursor >= |text| { return None; }
      cursor := cursor + 1;
      if text[cursor - 1] != QUOTE { return None; }
      ghost var first := text[cursor..];
      assert old(Rest())[1..] == first;
      while cursor < |text|
        invariant old(cursor) < cursor <= |text|
        invariant StringRest(first, []) == StringRest(text[cursor..], buffer)
        decreases |text| - cursor
      {
        ghost var s := text[cursor..];
        if text[cursor] == QUOTE {
          cursor := cursor + 1;
          assert s[1..] == text[cursor..];
          return Some(buffer);
        }
        var piece := ParsePiece();
        if piece.None? { return None; }
        buffer := buffer + piece.value;
      }
      return None;
    }

    /** One character or escape. */
    method ParsePiece() returns (piece: Option<CText>)
      requires cursor < |text|
      modifies this`cursor
      ensures cursor <= |text|
      ensures match StringPiece(old(Rest()))
              case Bad => piece == None
              case Bytes(b, rest) => piece == Some(b) && Rest() == rest && cursor > old(cursor)
    {
      ghost var s := Rest();
      var ch := text[cursor];
      cursor := cursor + 1;
      assert s[1..] == text[cursor..];
      if ch < 0x20 { return None; }
      if ch != ESCAPE { return Some([ch]); }
      if cursor >= |text| { return None; }
      ch := text[cursor];
      assert s[1] == ch;
      cursor := cursor + 1;
      assert s[2..] == text[cursor..];
      if ch == QUOTE || ch == ESCAPE || ch == 47 { return Some([ch]); }
      if ch == 98 { return Some([8]); }
      if ch == 102 { return Some([12]); }
      if ch == 110 { return Some([10]); }
      if ch == 114 { return Some([13]); }
      if ch == 116 { return Some([9]); }
      if ch != 117 { return None; }
      piece := ParseUnicode();
    }

    /** After `\u`. */
    method ParseUnicode() returns (piece: Option<CText>)
      requires cursor <= |text|
      modifies this`cursor
      ensures old(cursor) <= cursor <= |text|
      ensures match UnicodeEscape(old(Rest()))
              case Bad => piece == None
              case Bytes(b, rest) => piece == Some(b) && Rest() == rest
    {
      ghost var s := Rest();
      var quad := ParseHexQuad();
      if quad.None? { return None; }
      var code := quad.value;
      if 0xD800 <= code <= 0xDBFF {
        assert s[4..] == text[cursor..];
        if |text| - cursor < 6 || text[cursor] != ESCAPE || text[cursor + 1] != 117 { return None; }
        assert s[4] == text[cursor] && s[5] == text[cursor + 1];
        cursor := cursor + 2;
        assert s[6..] == text[cursor..];
        ghost var middle := cursor;
        var low := ParseHexQuad();
        if low.None? || low.value < 0xDC00 || low.value > 0xDFFF { return None; }
        code := 0x10000 + (code - 0xD800) * 1024 + (low.value - 0xDC00);
        assert s[10..] == text[cursor..];
      } else if code == 0 || 0xDC00 <= code <= 0xDFFF {
        return None;
      } else {
        assert s[4..] == text[cursor..];
      }
      return Some(Emit(code, []).bytes);
    }

    method TakeDigits()
      requires cursor <= |text|
      modifies this`cursor
      ensures old(cursor) <= cursor <= |text| && Rest() == Digits(old(Rest()))
    {
      ghost var s := Rest();
      while cursor < |text| && IsDigit(text[cursor])
        invariant old(cursor) <= cursor <= |text|
        invariant Digits(s) == Digits(text[cursor..])
      {
        assert text[cursor..][1..] == text[cursor + 1..];
        cursor := cursor + 1;
      }
    }

    method ParseInteger() returns (ok: bool)
      requires cursor <= |text|
      modifies this`cursor
      ensures cursor <= |text| && (ok <==> IntegerRest(old(Rest())).Some?)
      ensures ok ==> Rest() == IntegerRest(old(Rest())).value && cursor > old(cursor)
    {
      ghost var t := Rest();
      if cursor >= |text| { return false; }
      assert t[1..] == text[cursor + 1..];
      if text[cursor] == 48 {
        cursor := cursor + 1;
      } else {
        if text[cursor] < 49 || text[cursor] > 57 { return false; }
        cursor := cursor + 1;
        TakeDigits();
      }
      return true;
    }

    method ParseFraction() returns (ok: bool)
      requires cursor <= |text|
      modifies this`cursor
      ensures old(cursor) <= cursor <= |text| && (ok <==> FractionRest(old(Rest())).Some?)
      ensures ok ==> Rest() == FractionRest(old(Rest())).value
    {
      ghost var a := Rest();
      if cursor < |text| && text[cursor] == 46 {
        cursor := cursor + 1;
        assert Rest() == a[1..];
        if cursor >= |text| || !IsDigit(text[cursor]) { return false; }
        TakeDigits();
      }
      return true;
    }

    method ParseExponent() returns (ok: bool)
      requires cursor <= |text|
      modifies this`cursor
      ensures old(cursor) <= cursor <= |text| && (ok <==> ExponentRest(old(Rest())).Some?)
      ensures ok ==> Rest() == ExponentRest(old(Rest())).value
    {
      ghost var b := Rest();
      if cursor < |text| && (text[cursor] == 101 || text[cursor] == 69) {
        cursor := cursor + 1;
        assert Rest() == b[1..];
        if cursor < |text| && (text[cursor] == 43 || text[cursor] == 45) {
          assert b[1] == text[cursor];
          cursor := cursor + 1;
          assert Rest() == b[2..];
        }
        if cursor >= |text| || !IsDigit(text[cursor]) { return false; }
        TakeDigits();
      }
      return true;
    }

    /** `parse_number_token`, moving the cursor past the token. */
    method ParseNumberToken() returns (ok: bool)
      requires cursor <= |text|
      modifies this`cursor
      ensures cursor <= |text|
      ensures ok <==> NumberRest(old(Rest())).Some?
      ensures ok ==> Rest() == NumberRest(old(Rest())).value && cursor > old(cursor)
    {
      ghost var s := Rest();
      if cursor < |text| && text[cursor] == 45 { cursor := cursor + 1; }
      assert Rest() == SignRest(s);
      ok := ParseInteger();
      if ok { ok := ParseFraction(); }
      if ok { ok := ParseExponent(); }
    }

    method Match(word: seq<byte>) returns (ok: bool)
      requires cursor <= |text|
      modifies this`cursor
      ensures cursor <= |text| && (ok <==> word <= old(Rest()))
      ensures ok ==> Rest() == old(Rest())[|word|..] && cursor == old(cursor) + |word|
      ensures !ok ==> cursor == old(cursor)
    {
      if |text| - cursor >= |word| && text[cursor..cursor + |word|] == word {
        assert Rest()[..|word|] == word;
        cursor := cursor + |word|;
        return true;
      }
      assert |word| <= |Rest()| ==> text[cursor..cursor + |word|] == Rest()[..|word|];
      return false;
    }

    method ParseNumber() returns (token: Option<seq<byte>>)
      requires cursor <= |text|
      modifies this`cursor
      ensures cursor <= |text|
      ensures match NumberRest(old(Rest()))
              case None => token == None
              case Some(rest) =>
                var t := old(Rest())[..|old(Rest())| - |rest|];
                && token == (if finite(t) then Some(t) else None)
                && Rest() == rest && cursor > old(cursor)
    {
      ghost var s := Rest();
      var start := cursor;
      var ok := ParseNumberToken();
      if !ok { return None; }
      assert text[start..cursor] == s[..|s| - |Rest()|];
      return if finite(text[start..cursor]) then Some(text[start..cursor]) else None;
    }

    method ParseScalar() returns (result: Option<Json>)
      requires cursor < |text|
      modifies this`cursor
      ensures cursor <= |text| && Follows(Scalar(old(Rest()), nodesLeft, finite), result)
      ensures result.Some? ==> cursor > old(cursor)
    {
      if text[cursor] == QUOTE {
        var t := ParseString();
        if t.None? { return None; }
        return Some(String(t.value));
      }
      var ok := Match(TRUE_WORD);
      if ok { return Some(Bool(true)); }
      ok := Match(FALSE_WORD);
      if ok { return Some(Bool(false)); }
      ok := Match(NULL_WORD);
      if ok { return Some(Null); }
      var token := ParseNumber();
      if token.None? { return None; }
      return Some(Number(token.value));
    }

    /** `parse_value`. */
    method ParseValue(depth: nat) returns (result: Option<Json>)
      requires cursor <= |text|
      modifies this`cursor, this`nodesLeft
      ensures cursor <= |text| && Follows(Value(old(Rest()), depth, old(nodesLeft), finite), result)
      ensures result.Some? ==> cursor > old(cursor)
      decreases |text| - cursor, 1
    {
      SkipWs();
      if nodesLeft == 0 || depth > MAX_DEPTH || cursor >= |text| { return None; }
      nodesLeft := nodesLeft - 1;
      ghost var s := Rest();
      if text[cursor] == OPEN_OBJECT {
        result := ParseCollection(depth, true);
      } else if text[cursor] == OPEN_ARRAY {
        result := ParseCollection(depth, false);
      } else {
        result := ParseScalar();
      }
    }

    /** `parse_collection`, on its opening bracket. */
    method ParseCollection(depth: nat, object_: bool) returns (result: Option<Json>)
      requires cursor < |text|
      modifies this`cursor, this`nodesLeft
      ensures cursor <= |text| && Follows(Children(old(Rest())[1..], object_, depth, old(nodesLeft), finite), result)
      ensures result.Some? ==> cursor > old(cursor)
      decreases |text| - cursor, 0
    {
      assert Rest()[1..] == text[cursor + 1..];
      cursor := cursor + 1;
      SkipWs();
      if cursor < |text| && text[cursor] == Close(object_) {
        assert Rest()[1..] == text[cursor + 1..];
        cursor := cursor + 1;
        return Some(Collection(object_, [], []));
      }
      var keys: seq<CText>, items: seq<Json> := [], [];
      var table := new KeySet.Keys();
      ghost var s0, n0 := Rest(), nodesLeft;
      while cursor < |text|
        invariant old(cursor) < cursor <= |text|
        invariant fresh(table) && table.Valid(if object_ then keys else [])
            && (table.slots != null ==> fresh(table.slots))
        invariant Items(s0, object_, depth, n0, [], [], finite) ==
            Items(Rest(), object_, depth, nodesLeft, keys, items, finite)
        decreases |text| - cursor
      {
        var key: CText, child := ParseEntry(depth, object_, keys, items);
        if child.None? { return None; }
        if object_ {
          var granted: bool := *;
          var duplicate := table.Duplicate(keys, key, granted);
          if duplicate { return None; }
          keys := keys + [key];
        }
        items := items + [child.value];
        var separator := ParseSeparator(object_);
        if separator.Broken? { return None; }
        if separator.Closed? { return Some(Collection(object_, keys, items)); }
      }
      return None;
    }

    /** What follows a member: the closing bracket, or a comma and more. */
    method ParseSeparator(object_: bool) returns (separator: Separator)
      requires cursor <= |text|
      modifies this`cursor
      ensures old(cursor) <= cursor <= |text|
      ensures var r := SkipSpace(old(Rest()));
              match separator
              case Closed => r != [] && r[0] == Close(object_) && Rest() == r[1..]
              case More => r != [] && r[0] != Close(object_) && r[0] == COMMA && Rest() == SkipSpace(r[1..])
              case Broken => r == [] || (r[0] != Close(object_) && r[0] != COMMA)
    {
      SkipWs();
      if cursor >= |text| { return Broken; }
      ghost var r := Rest();
      assert r[1..] == text[cursor + 1..];
      if text[cursor] == Close(object_) {
        cursor := cursor + 1;
        return Closed;
      }
      if text[cursor] != COMMA { return Broken; }
      cursor := cursor + 1;
      SkipWs();
      return More;
    }

    /** One member: in an object its key and colon, then its value. */
    method ParseEntry(depth: nat, object_: bool, ghost keys: seq<CText>, ghost items: seq<Json>)
      returns (key: CText, child: Option<Json>)
      requires cursor < |text|
      modifies this`cursor, this`nodesLeft
      ensures cursor <= |text|
      ensures child.None? ==> Items(old(Rest()), object_, depth, old(nodesLeft), keys, items, finite) == Error
      ensures child.Some? ==> cursor > old(cursor)
      ensures child.Some? ==>
                Items(old(Rest()), object_, depth, old(nodesLeft), keys, items, finite) ==
                AfterEntry(object_, depth, keys, items, key, child.value, Rest(), nodesLeft, finite)
      decreases |text| - cursor, 2
    {
      key, child := [], None;
      if object_ {
        var k := ParseKey();
        if k.None? { return; }
        key := k.value;
      }
      child := ParseValue(depth + 1);
    }

    /** A key and its colon. */
    method ParseKey() returns (key: Option<CText>)
      requires cursor < |text|
      modifies this`cursor
      ensures cursor <= |text|
      ensures match KeyPart(old(Rest()), true)
              case Bad => key == None
              case Bytes(k, rest) => key == Some(k) && Rest() == rest && cursor > old(cursor)
    {
      key := ParseString();
      if key.None? { return None; }
      SkipWs();
      if cursor >= |text| { return None; }
      ghost var r := Rest();
      assert r[1..] == text[cursor + 1..];
      cursor := cursor + 1;
      if text[cursor - 1] != COLON { return None; }
    }
  }

  /** What the member loop does once a member has been read. */
  ghost function AfterEntry(object_: bool, depth: nat, keys: seq<CText>, items: seq<Json>, key: CText, child: Json,
                            rest: seq<byte>, left: nat, finite: seq<byte> -> bool): Parsed
  {
    if object_ && key in keys then Error
    else
      var keys', items' := if object_ then keys + [key] else keys, items + [child];
      var r := SkipSpace(rest);
      if r == [] then Error
      else if r[0] == Close(object_) then Ok(Collection(object_, keys', items'), r[1..], left)
      else if r[0] != COMMA then Error
      else Items(SkipSpace(r[1..]), object_, depth, left, keys', items', finite)
  }

  /** The value of the first `i` digits. */
  ghost function HexPrefix(s: seq<byte>, i: nat): nat
    requires i <= |s| && forall j :: 0 <= j < i ==> HexValue(s[j]).Some?
  {
    if i == 0 then 0 else HexPrefix(s, i - 1) * 16 + HexValue(s[i - 1]).value
  }

  lemma HexPrefixIsQuad(s: seq<byte>)
    requires |s| >= 4 && forall j :: 0 <= j < 4 ==> HexValue(s[j]).Some?
    ensures HexQuad(s) == Some(HexPrefix(s, 4))
  {
    assert HexPrefix(s, 1) == HexValue(s[0]).value;
    assert HexPrefix(s, 2) == HexPrefix(s, 1) * 16 + HexValue(s[1]).value;
    assert HexPrefix(s, 3) == HexPrefix(s, 2) * 16 + HexValue(s[2]).value;
  }

  /** `owc_json_parse`, whatever the table allocations do. */
  method ParseDocument(text: seq<byte>, finite: seq<byte> -> bool) returns (result: Option<Json>)
    ensures result == Parse(text, finite)
  {
    var p := new Parser(text, finite);
    assert text[0..] == text;
    result := p.ParseValue(0);
    p.SkipWs();
    if result.Some? && p.cursor != |text| { result := None; }
  }

  /** `owc_json_escape_string` for a string value, quotes included. */
  method EscapeString(value: CText) returns (text: seq<byte>)
    ensures text == Quote(value)
  {
    text := [QUOTE];
    var p := 0;
    assert value[0..] == value;
    while At(value, p) != 0
      invariant 0 <= p <= |value|
      invariant [QUOTE] + EscapeBytes(value) == text + EscapeBytes(value[p..])
      decreases |value| - p
    {
      ghost var before := text;
      text := text + EscapeByte(value[p]);
      assert value[p..][1..] == value[p + 1..];
      assert before + (EscapeByte(value[p]) + EscapeBytes(value[p + 1..])) == text + EscapeBytes(value[p + 1..]);
      p := p + 1;
    }
    assert text + [] == text;
    text := text + [QUOTE];
  }
}
