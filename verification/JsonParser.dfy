/** The parser with the library's shared offset and loops, proved to compute what the grammar says. */
module JsonParser {
  import opened Texts
  import opened OrderedObjects
  import opened JsonValues
  import opened JsonGrammar

  lemma NonHexStep(t: string, o: nat, n: nat)
    ensures FirstNonHex(t, o, n) == if n == 0 || o >= |t| || !IsHexDigit(t[o]) then 0 else 1 + FirstNonHex(t, o + 1, n - 1)
  {
  }

  lemma ExtendSlice(s: string, a: nat, b: nat)
    requires a <= b < |s|
    ensures s[a..b] + [s[b]] == s[a..b + 1]
  {
  }

  /** The four hexadecimal digits after a backslash and the `u` at `o`; all six characters are kept as they are. */
  method UnicodeEscape(t: string, o: nat) returns (r: Scan)
    requires 0 < o < |t| && t[o - 1] == '\\' && t[o] == 'u'
    ensures var bad := FirstNonHex(t, o + 1, 4);
            r == (if bad == 4 then Closed(t[o - 1..o + 5], o + 5)
                  else if o + 1 + bad >= |t| then Unterminated
                  else BadUnicode(o))
  {
    hide FirstNonHex, IsHexDigit;
    var val := "\\u";
    assert val == t[o - 1..o + 1];
    var i := 1;
    while i <= 4
      invariant 1 <= i <= 5 && o + i <= |t|
      invariant val == t[o - 1..o + i]
      invariant FirstNonHex(t, o + 1, 4) == (i - 1) + FirstNonHex(t, o + i, 5 - i)
    {
      NonHexStep(t, o + i, 5 - i);
      if o + i == |t| { return Unterminated; }
      var c := t[o + i];
      if !IsHexDigit(c) { return BadUnicode(o); }
      ExtendSlice(t, o - 1, o + i);
      val := val + [c];
      i := i + 1;
    }
    NonHexStep(t, o + 5, 0);
    r := Closed(val, o + 5);
  }

  lemma ArrayBegins(t: string, o: nat, st: Status)
    requires o < |t|
    ensures var first := SkipSpace(t, o + 1);
            ParseArray(t, o, st) == if first == |t| then Stuck
                                    else if t[first] == ']' then Done(Arr([]), first + 1, st)
                                    else ParseItems(t, first, st, [])
  {
    hide ParseItems;
  }

  /** One pass of the loop over the items. */
  lemma ItemsGoOn(t: string, o: nat, st: Status, items: seq<Json>)
    requires o <= |t|
    ensures match ParseNext(t, o, st)
            case Stuck => ParseItems(t, o, st, items) == Stuck
            case Done(v, o1, s1) =>
              var end := SkipSpace(t, o1);
              ParseItems(t, o, st, items) == if end == |t| then Stuck
                                             else if t[end] == ',' then ParseItems(t, end + 1, s1, items + [v])
                                             else if t[end] == ']' then Done(Arr(items + [v]), end + 1, s1)
                                             else Done(Arr([]), end, ArrayError)
  {
    hide ParseNext;
  }

  class Parser {
    const text: string
    var offset: nat
    var status: Status

    constructor (text: string)
      ensures this.text == text && offset == 0 && status == Success
    {
      this.text := text;
      offset, status := 0, Success;
    }

    /** The call returned `r` with this state, as the grammar's outcome `o` says; `None` where it is stuck. */
    ghost predicate Yields(r: Option<Json>, o: Outcome<Json>)
      reads this
    {
      match o
      case Stuck => r.None?
      case Done(v, o', st) => r == Some(v) && offset == o' && status == st
    }

    method ConsumeSpace() returns (inside: bool)
      requires offset <= |text|
      modifies this`offset
      ensures offset == SkipSpace(text, old(offset))
      ensures inside == (offset < |text|)
    {
      while offset < |text| && IsSpace(text[offset])
        invariant offset <= |text|
        invariant SkipSpace(text, offset) == SkipSpace(text, old(offset))
      {
        offset := offset + 1;
      }
      inside := offset < |text|;
    }

    method ParseString() returns (r: Option<Json>)
      requires offset < |text|
      modifies this
      ensures Yields(r, JsonGrammar.ParseString(text, old(offset), old(status)))
    {
      var val := "";
      ghost var start := offset + 1;
      offset := offset + 1;
      while offset < |text| && text[offset] != '\"'
        invariant offset <= |text| && status == old(status)
        invariant ScanString(text, offset, val) == ScanString(text, start, "")
        decreases |text| - offset
      {
        if text[offset] == '\\' {
          var more := EscapeSequence();
          match more
          case Unterminated => return None;
          case BadUnicode(_) =>
            status := StringError;
            return Some(Leaf(Str("")));
          case Closed(s, _) => val := val + s;
        } else {
          val := val + [text[offset]];
          offset := offset + 1;
        }
      }
      if offset == |text| { return None; }
      offset := offset + 1;
      match Classify(val)
      case Undefined => return None;
      case Value(v) => return Some(Leaf(v));
    }

    /** The escape sequence at the offset; on success the offset moves past it. */
    method EscapeSequence() returns (r: Scan)
      requires offset < |text| && text[offset] == '\\'
      modifies this`offset
      ensures r == EscapeAt(text, old(offset))
      ensures !r.Unterminated? ==> offset == r.offset
    {
      offset := offset + 1;
      if offset == |text| { return Unterminated; }
      if text[offset] == 'u' {
        r := UnicodeEscape(text, offset);
        if r.Closed? { offset := r.offset; }
      } else {
        r := Closed([Unescaped(text[offset])], offset + 1);
        offset := offset + 1;
      }
    }

    method ParseNumber() returns (r: Option<Json>)
      requires offset < |text|
      modifies this
      ensures Yields(r, JsonGrammar.ParseNumber(text, old(offset), old(status)))
    {
      ghost var start := offset;
      var val := "";
      var isDouble := false;
      while offset < |text| && NumberChar(text[offset])
        invariant start <= offset <= |text| && status == old(status)
        invariant val == text[start..offset] && isDouble == ('.' in val)
        invariant ScanNumber(text, offset) == ScanNumber(text, start)
        decreases |text| - offset
      {
        if text[offset] == '.' { isDouble := true; }
        val := val + [text[offset]];
        offset := offset + 1;
      }
      if offset == |text| { return None; }
      var c := text[offset];
      offset := offset + 1;
      if c == 'e' || c == 'E' { return None; }
      if !Terminator(c) {
        status := NumberError;
        return Some(Leaf(Null));
      }
      offset := offset - 1;
      if isDouble { return None; }
      match StringToLong(val)
      case Throws => return None;
      case Long(n) => return Some(Leaf(Int(n)));
    }

    method ParseBool() returns (r: Option<Json>)
      requires offset < |text|
      modifies this
      ensures Yields(r, JsonGrammar.ParseBool(text, old(offset), old(status)))
    {
      if At(text, offset, "true") {
        offset := offset + 4;
        return Some(Leaf(Bool(true)));
      } else if At(text, offset, "false") {
        offset := offset + 5;
        return Some(Leaf(Bool(false)));
      }
      status := BoolError;
      r := Some(Leaf(Null));
    }

    method ParseNull() returns (r: Option<Json>)
      requires offset < |text|
      modifies this
      ensures Yields(r, JsonGrammar.ParseNull(text, old(offset), old(status)))
    {
      if At(text, offset, "null") {
        offset := offset + 4;
      } else {
        status := NullError;
      }
      r := Some(Leaf(Null));
    }

    method ParseArray() returns (r: Option<Json>)
      requires offset < |text|
      modifies this
      ensures Yields(r, JsonGrammar.ParseArray(text, old(offset), old(status)))
      decreases |text| - offset, 0
    {
      hide ParseItems, JsonGrammar.ParseArray, JsonGrammar.ParseNext;
      ghost var o, st := offset, status;
      ArrayBegins(text, o, st);
      var items: seq<Json> := [];
      offset := offset + 1;
      var inside := ConsumeSpace();
      if !inside { return None; }
      if text[offset] == ']' {
        offset := offset + 1;
        return Some(Arr(items));
      }
      while true
        invariant o < offset <= |text|
        invariant ParseItems(text, offset, status, items) == JsonGrammar.ParseArray(text, o, st)
        decreases |text| - offset
      {
        ItemsGoOn(text, offset, status, items);
        var v := ParseNext();
        if v.None? { return None; }
        inside := ConsumeSpace();
        if !inside { return None; }
        if text[offset] == ',' {
          items := items + [v.value];
          offset := offset + 1;
        } else if text[offset] == ']' {
          items := items + [v.value];
          offset := offset + 1;
          return Some(Arr(items));
        } else {
          status := ArrayError;
          return Some(Arr([]));
        }
      }
    }

    method ParseObject() returns (r: Option<Json>)
      requires offset < |text|
      modifies this
      ensures Yields(r, JsonGrammar.ParseObject(text, old(offset), old(status)))
      decreases |text| - offset, 0
    {
      ghost var o, st := offset, status;
      offset := offset + 1;
      var kind := ObjectKind(text, offset);
      var obj := New(kind);
      offset := offset + MarkerLength(kind);
      var inside := ConsumeSpace();
      if !inside { return None; }
      if text[offset] == '}' {
        offset := offset + 1;
        return Some(obj);
      }
      while true
        invariant o < offset <= |text| && (obj.Obj? || obj.Ordered?)
        invariant ParseMembers(text, offset, status, obj) == JsonGrammar.ParseObject(text, o, st)
        decreases |text| - offset
      {
        var more;
        more, r, obj := ParseMember(obj);
        if !more { return; }
      }
    }

    /** One pass of the loop above; `more` tells that a comma was read. */
    method ParseMember(obj: Json) returns (more: bool, r: Option<Json>, obj': Json)
      requires offset <= |text| && (obj.Obj? || obj.Ordered?)
      modifies this
      ensures match JsonGrammar.ParseMember(text, old(offset), old(status), obj)
              case More(o, end, st) => more && obj' == o && offset == end && status == st
              case Finished(result) => !more && Yields(r, result)
      decreases |text| - offset, 2
    {
      hide JsonGrammar.ParseNext, JsonGrammar.AfterMember, SkipSpace, SetMember, ToString;
      more, r, obj' := false, None, obj;
      var key := ParseNext();
      if key.None? { return; }
      var inside := ConsumeSpace();
      if !inside { return; }
      if text[offset] != ':' {
        status := ObjectError;
        r := Some(obj);
        return;
      }
      offset := offset + 1;
      inside := ConsumeSpace();
      if !inside { return; }
      var v := ParseNext();
      if v.None? { return; }
      obj' := SetMember(obj, ToString(key.value), v.value);
      more, r := AfterMember(obj');
    }

    method AfterMember(obj: Json) returns (more: bool, r: Option<Json>)
      requires offset <= |text| && (obj.Obj? || obj.Ordered?)
      modifies this
      ensures match JsonGrammar.AfterMember(text, old(offset), old(status), obj)
              case More(_, end, st) => more && offset == end && status == st
              case Finished(result) => !more && Yields(r, result)
    {
      more, r := false, None;
      var inside := ConsumeSpace();
      if !inside { return; }
      if text[offset] == ',' {
        offset := offset + 1;
        more := true;
      } else if text[offset] == '}' {
        offset := offset + 1;
        r := Some(obj);
      } else {
        status := ObjectError;
        r := Some(obj);
      }
    }

    method ParseNext() returns (r: Option<Json>)
      requires offset <= |text|
      modifies this
      ensures Yields(r, JsonGrammar.ParseNext(text, old(offset), old(status)))
      decreases |text| - offset, 1
    {
      var inside := ConsumeSpace();
      if !inside { return None; }
      var value := text[offset];
      if value == '[' {
        r := ParseArray();
      } else if value == '{' {
        r := ParseObject();
      } else if value == '\"' {
        r := ParseString();
      } else if value == 't' || value == 'f' {
        r := ParseBool();
      } else if value == 'n' {
        r := ParseNull();
      } else if IsDigit(value) || value == '-' {
        r := ParseNumber();
      } else {
        status := StartingError;
        r := Some(Leaf(Null));
      }
    }
  }

  /** `JSON::Load`: the first value of the text, and Null for an empty text. */
  method Load(data: string) returns (r: Option<Json>, status: Status)
    ensures data == "" ==> r == Some(Leaf(Null)) && status == Success
    ensures data != "" ==>
      match ParseNext(data, 0, Success)
      case Stuck => r.None?
      case Done(v, _, st) => r == Some(v) && status == st
  {
    if data == "" {
      return Some(Leaf(Null)), Success;
    }
    var p := new Parser(data);
    r := p.ParseNext();
    status := p.status;
  }
}
