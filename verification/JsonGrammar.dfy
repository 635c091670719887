/**
 What the recursive-descent parser computes, as functions of the text and an offset. `Stuck`
 stands for what the model does not follow: reading past the end of the text, an exception from
 `std::stol`, undefined behaviour on a malformed typed literal, and floating-point numbers.
 */
module JsonGrammar {
  import opened Texts
  import opened SortedMaps
  import opened Escapes
  import opened OrderedObjects
  import opened JsonValues

  datatype Status =
    | Success | StartingError | ObjectError | ArrayError | StringError | NumberError | BoolError | NullError

  datatype Outcome<+T> = Done(val: T, offset: nat, status: Status) | Stuck

  /** `consume_ws`; a result equal to the length means that it ran off the text. */
  function SkipSpace(t: string, o: nat): (r: nat)
    requires o <= |t|
    ensures o <= r <= |t|
    ensures r < |t| ==> !IsSpace(t[r])
    ensures forall i :: o <= i < r ==> IsSpace(t[i])
    decreases |t| - o
  {
    if o < |t| && IsSpace(t[o]) then SkipSpace(t, o + 1) else o
  }

  // ---------------------------------------------------------------- strings

  predicate IsHexDigit(c: char) {
    '0' <= c <= '9' || 'a' <= c <= 'f' || 'A' <= c <= 'F'
  }

  /** What a backslash followed by `c` (other than `u`) adds; an unknown letter leaves the backslash. */
  function Unescaped(c: char): char {
    if c == '\"' || c == '\\' || c == '/' then c
    else if c == 'b' then BACKSPACE
    else if c == 'f' then FORM_FEED
    else if c == 'n' then '\n'
    else if c == 'r' then '\r'
    else if c == 't' then '\t'
    else '\\'
  }

  datatype Scan = Closed(s: string, offset: nat) | BadUnicode(offset: nat) | Unterminated

  /** One escape sequence, at its backslash: what it adds and the offset after it. */
  function EscapeAt(t: string, o: nat): (r: Scan)
    requires o < |t|
    ensures r.Closed? ==> o + 2 <= r.offset <= |t|
    ensures r.BadUnicode? ==> o <= r.offset <= |t|
  {
    if o + 1 >= |t| then Unterminated
    else if t[o + 1] != 'u' then Closed([Unescaped(t[o + 1])], o + 2)
    else
      var bad := FirstNonHex(t, o + 2, 4);
      if bad == 4 then Closed(t[o..o + 6], o + 6)
      else if o + 2 + bad >= |t| then Unterminated
      else BadUnicode(o + 1)
  }

  /** The characters from `o` on, up to the closing quote, added to `acc`. */
  function ScanString(t: string, o: nat, acc: string): (r: Scan)
    requires o <= |t|
    ensures !r.Unterminated? ==> o <= r.offset <= |t|
    decreases |t| - o
  {
    if o >= |t| then Unterminated
    else if t[o] == '\"' then Closed(acc, o + 1)
    else if t[o] != '\\' then ScanString(t, o + 1, acc + [t[o]])
    else
      match EscapeAt(t, o)
      case Closed(s, o') => ScanString(t, o', acc + s)
      case bad => bad
  }

  /** How many of the next `n` characters are there and are hexadecimal digits. */
  function FirstNonHex(t: string, o: nat, n: nat): (k: nat)
    ensures k <= n
    ensures o <= |t| ==> o + k <= |t|
    ensures k < n ==> o + k >= |t| || !IsHexDigit(t[o + k])
    decreases n
  {
    if n == 0 || o >= |t| || !IsHexDigit(t[o]) then 0 else 1 + FirstNonHex(t, o + 1, n - 1)
  }

  function HexValue(c: char): (v: nat)
    ensures v < 16
  {
    if '0' <= c <= '9' then c as int - '0' as int
    else if 'A' <= c <= 'F' then c as int - 'A' as int + 10
    else if 'a' <= c <= 'f' then c as int - 'a' as int + 10
    else 0
  }

  function Zeros(n: nat): (r: seq<byte>)
    ensures |r| == n
  {
    seq(n, _ => 0)
  }

  /** `_hexstring_to_bytes` on an even number of characters: a NUL stops it, the rest stays zero. */
  function HexBytes(s: string): (r: seq<byte>)
    ensures |r| == |s| / 2
  {
    if |s| < 2 then []
    else if s[0] == 0 as char || s[1] == 0 as char then Zeros(|s| / 2)
    else [HexValue(s[0]) * 16 + HexValue(s[1])] + HexBytes(s[2..])
  }

  datatype Literal = Value(s: Scalar) | Undefined

  /** The value of a scanned string: a typed literal if it has a tag and a usable payload. */
  function Classify(s: string): Literal {
    if StartsWith(s, HASH_TAG) then
      if (|s| - 6) % 2 != 0 then Value(Str(s))
      else if (|s| - 6) / 2 < HASH_LENGTH then Undefined
      else Value(Hash(HexBytes(s[6..])[..HASH_LENGTH]))
    else if StartsWith(s, BUFF_TAG) then
      if (|s| - 6) % 2 == 0 then Value(Buffer(HexBytes(s[6..])))
      else if |s| == 7 then Value(Buffer([]))
      else Undefined
    else Value(Str(s))
  }

  /** `parse_string`, at an opening quote. */
  function ParseString(t: string, o: nat, st: Status): (r: Outcome<Json>)
    requires o < |t|
    ensures r.Done? ==> o < r.offset <= |t|
  {
    match ScanString(t, o + 1, "")
    case Unterminated => Stuck
    case BadUnicode(o') => Done(Leaf(Str("")), o', StringError)
    case Closed(s, o') =>
      match Classify(s)
      case Undefined => Stuck
      case Value(v) => Done(Leaf(v), o', st)
  }

  // ---------------------------------------------------------------- numbers and words

  predicate NumberChar(c: char) {
    c == '-' || IsDigit(c) || c == '.'
  }

  function ScanNumber(t: string, o: nat): (r: nat)
    requires o <= |t|
    ensures o <= r <= |t|
    ensures r < |t| ==> !NumberChar(t[r])
    ensures forall i :: o <= i < r ==> NumberChar(t[i])
    decreases |t| - o
  {
    if o < |t| && NumberChar(t[o]) then ScanNumber(t, o + 1) else o
  }

  /** A character that may follow a number. */
  predicate Terminator(c: char) {
    IsSpace(c) || c == ',' || c == ']' || c == '}'
  }

  /** The value of the leading digits of `s`, added to `acc`. */
  function DigitsValue(s: string, acc: nat): nat {
    if s == "" || !IsDigit(s[0]) then acc
    else DigitsValue(s[1..], acc * 10 + (s[0] as int - '0' as int))
  }

  datatype Long = Long(n: int) | Throws

  /** `std::stol` on a string of digits and dashes. */
  function StringToLong(s: string): Long {
    var negative := s != "" && s[0] == '-';
    var digits := if negative then s[1..] else s;
    if digits == "" || !IsDigit(digits[0]) then Throws
    else
      var v: int := DigitsValue(digits, 0);
      var n := if negative then -v else v;
      if -LONG_MAX - 1 <= n <= LONG_MAX then Long(n) else Throws
  }

  /** `parse_number`, at a digit or a dash. */
  function ParseNumber(t: string, o: nat, st: Status): (r: Outcome<Json>)
    requires o < |t|
    ensures r.Done? ==> o <= r.offset <= |t|
  {
    var e := ScanNumber(t, o);
    if e >= |t| || t[e] == 'e' || t[e] == 'E' then Stuck
    else if !Terminator(t[e]) then Done(Leaf(Null), e + 1, NumberError)
    else if '.' in t[o..e] then Stuck
    else
      match StringToLong(t[o..e])
      case Throws => Stuck
      case Long(n) => Done(Leaf(Int(n)), e, st)
  }

  function ParseBool(t: string, o: nat, st: Status): (r: Outcome<Json>)
    requires o < |t|
    ensures r.Done? ==> o <= r.offset <= |t|
  {
    if At(t, o, "true") then Done(Leaf(Bool(true)), o + 4, st)
    else if At(t, o, "false") then Done(Leaf(Bool(false)), o + 5, st)
    else Done(Leaf(Null), o, BoolError)
  }

  function ParseNull(t: string, o: nat, st: Status): (r: Outcome<Json>)
    requires o < |t|
    ensures r.Done? ==> o <= r.offset <= |t|
  {
    if At(t, o, "null") then Done(Leaf(Null), o + 4, st) else Done(Leaf(Null), o, NullError)
  }

  // ---------------------------------------------------------------- containers

  /** `JSON::ToString`, which the object parser applies to the parsed key. */
  function ToString(v: Json): string {
    match v
    case Leaf(Str(s)) => Escape(s)
    case Leaf(Hash(h)) => Hex(h)
    case Leaf(Buffer(bs)) => Hex(bs)
    case Leaf(Int(n)) => Number(n)
    case _ => ""
  }

  function New(kind: Kind): Json {
    match kind
    case Items => Arr([])
    case Plain => Obj([])
    case Fio => Ordered(false, Empty())
    case Flat => Ordered(true, Empty())
  }

  /** `object[key] = value` */
  function SetMember(obj: Json, key: string, v: Json): (r: Json)
    requires obj.Obj? || obj.Ordered?
    ensures r.Obj? || r.Ordered?
  {
    match obj
    case Obj(members) => Obj(Put(members, key, v))
    case Ordered(flat, maps) => Ordered(flat, AssignMaps(maps, key, v, Leaf(Null)))
  }

  function ObjectKind(t: string, o: nat): (kind: Kind)
    ensures !kind.Items?
  {
    if At(t, o, "fio") then Fio else if At(t, o, "flat") then Flat else Plain
  }

  function MarkerLength(kind: Kind): nat {
    match kind
    case Fio => 3
    case Flat => 4
    case _ => 0
  }

  /** `parse_object`, at an opening brace. */
  function ParseObject(t: string, o: nat, st: Status): (r: Outcome<Json>)
    requires o < |t|
    ensures r.Done? ==> o < r.offset <= |t|
    decreases |t| - o, 0
  {
    var kind := ObjectKind(t, o + 1);
    var first := SkipSpace(t, o + 1 + MarkerLength(kind));
    if first == |t| then Stuck
    else if t[first] == '}' then Done(New(kind), first + 1, st)
    else ParseMembers(t, first, st, New(kind))
  }

  datatype Step = More(obj: Json, offset: nat, status: Status) | Finished(result: Outcome<Json>)

  /** What follows a member: a comma, the closing brace, or an error. */
  function AfterMember(t: string, o: nat, st: Status, obj: Json): (r: Step)
    requires o <= |t| && (obj.Obj? || obj.Ordered?)
    ensures r.More? ==> o < r.offset <= |t| && r.obj == obj
    ensures r.Finished? && r.result.Done? ==> o <= r.result.offset <= |t|
  {
    var end := SkipSpace(t, o);
    if end == |t| then Finished(Stuck)
    else if t[end] == ',' then More(obj, end + 1, st)
    else if t[end] == '}' then Finished(Done(obj, end + 1, st))
    else Finished(Done(obj, end, ObjectError))
  }

  /** One pass of the loop of `parse_object`: a key, a colon, a value and what follows. */
  function ParseMember(t: string, o: nat, st: Status, obj: Json): (r: Step)
    requires o <= |t| && (obj.Obj? || obj.Ordered?)
    ensures r.More? ==> o < r.offset <= |t| && (r.obj.Obj? || r.obj.Ordered?)
    ensures r.Finished? && r.result.Done? ==> o <= r.result.offset <= |t|
    decreases |t| - o, 2
  {
    match ParseNext(t, o, st)
    case Stuck => Finished(Stuck)
    case Done(key, o1, s1) =>
      var colon := SkipSpace(t, o1);
      if colon == |t| then Finished(Stuck)
      else if t[colon] != ':' then Finished(Done(obj, colon, ObjectError))
      else
        var begin := SkipSpace(t, colon + 1);
        if begin == |t| then Finished(Stuck)
        else
          match ParseNext(t, begin, s1)
          case Stuck => Finished(Stuck)
          case Done(v, o2, s2) =>
            AfterMember(t, o2, s2, SetMember(obj, ToString(key), v))
  }

  /** The loop of `parse_object`. */
  function ParseMembers(t: string, o: nat, st: Status, obj: Json): (r: Outcome<Json>)
    requires o <= |t| && (obj.Obj? || obj.Ordered?)
    ensures r.Done? ==> o <= r.offset <= |t|
    decreases |t| - o, 3
  {
    match ParseMember(t, o, st, obj)
    case Finished(result) => result
    case More(obj', o', st') => ParseMembers(t, o', st', obj')
  }

  /** `parse_array`, at an opening bracket. */
  function ParseArray(t: string, o: nat, st: Status): (r: Outcome<Json>)
    requires o < |t|
    ensures r.Done? ==> o < r.offset <= |t|
    decreases |t| - o, 0
  {
    var first := SkipSpace(t, o + 1);
    if first == |t| then Stuck
    else if t[first] == ']' then Done(Arr([]), first + 1, st)
    else ParseItems(t, first, st, [])
  }

  /** The loop of `parse_array`; a malformed array yields an empty one. */
  function ParseItems(t: string, o: nat, st: Status, items: seq<Json>): (r: Outcome<Json>)
    requires o <= |t|
    ensures r.Done? ==> o <= r.offset <= |t|
    decreases |t| - o, 2
  {
    match ParseNext(t, o, st)
    case Stuck => Stuck
    case Done(v, o1, s1) =>
      var end := SkipSpace(t, o1);
      if end == |t| then Stuck
      else if t[end] == ',' then ParseItems(t, end + 1, s1, items + [v])
      else if t[end] == ']' then Done(Arr(items + [v]), end + 1, s1)
      else Done(Arr([]), end, ArrayError)
  }

  /** `parse_next` */
  function ParseNext(t: string, o: nat, st: Status): (r: Outcome<Json>)
    requires o <= |t|
    ensures r.Done? ==> o <= r.offset <= |t|
    decreases |t| - o, 1
  {
    var b := SkipSpace(t, o);
    if b == |t| then Stuck
    else if t[b] == '[' then ParseArray(t, b, st)
    else if t[b] == '{' then ParseObject(t, b, st)
    else if t[b] == '\"' then ParseString(t, b, st)
    else if t[b] == 't' || t[b] == 'f' then ParseBool(t, b, st)
    else if t[b] == 'n' then ParseNull(t, b, st)
    else if IsDigit(t[b]) || t[b] == '-' then ParseNumber(t, b, st)
    else Done(Leaf(Null), b, StartingError)
  }
}
