/**
 `RawJSONPathScanner`: where each piece of JSON ends, as a function of the buffer and
 the index. `None` stands for a thrown `invalidJSON`.
 */
module ScannerSpec {
  import opened Wrappers
  import opened JsonGrammar

  predicate Sees(bytes: seq<byte>, i: nat, b: byte) {
    i < |bytes| && bytes[i] == b
  }

  function BlanksEnd(bytes: seq<byte>, i: nat): (j: nat)
    ensures i <= j
    ensures i <= |bytes| ==> j <= |bytes|
    decreases |bytes| - i
  {
    if i < |bytes| && IsBlank(bytes[i]) then BlanksEnd(bytes, i + 1) else i
  }

  function DigitsEnd(bytes: seq<byte>, i: nat): (j: nat)
    ensures i <= j
    ensures i <= |bytes| ==> j <= |bytes|
    decreases |bytes| - i
  {
    if i < |bytes| && IsDigit(bytes[i]) then DigitsEnd(bytes, i + 1) else i
  }

  /** The end of a string literal, from an index behind its opening quote. */
  function UnitsEnd(bytes: seq<byte>, i: nat): (r: Option<nat>)
    ensures r.Some? ==> i < r.value <= |bytes|
    decreases |bytes| - i
  {
    if i >= |bytes| then None
    else if bytes[i] == QUOTE then Some(i + 1)
    else if bytes[i] == BACKSLASH then
      if i + 1 >= |bytes| then None
      else if bytes[i + 1] != LOWER_U then UnitsEnd(bytes, i + 2)
      else if i + 6 <= |bytes| then UnitsEnd(bytes, i + 6)
      else None
    else if bytes[i] >= 0x20 then UnitsEnd(bytes, i + 1)
    else None
  }

  function StringEnd(bytes: seq<byte>, i: nat): (r: Option<nat>)
    ensures r.Some? ==> i < r.value <= |bytes|
  {
    if Sees(bytes, i, QUOTE) then UnitsEnd(bytes, i + 1) else None
  }

  function LiteralEnd(bytes: seq<byte>, i: nat, name: seq<byte>): (r: Option<nat>)
    ensures r.Some? ==> r.value == i + |name| <= |bytes|
  {
    if At(bytes, i, name) then Some(i + |name|) else None
  }

  function IntegerEnd(bytes: seq<byte>, i: nat): (r: Option<nat>)
    ensures r.Some? ==> i < r.value <= |bytes|
  {
    if i >= |bytes| || !IsDigit(bytes[i]) then None
    else if bytes[i] == ZERO then Some(i + 1)
    else Some(DigitsEnd(bytes, i + 1))
  }

  /** One digit or more, as a fraction and an exponent demand. */
  function SomeDigitsEnd(bytes: seq<byte>, i: nat): (r: Option<nat>)
    ensures r.Some? ==> i < r.value <= |bytes|
  {
    if i < |bytes| && IsDigit(bytes[i]) then Some(DigitsEnd(bytes, i)) else None
  }

  function FractionEnd(bytes: seq<byte>, i: nat): (r: Option<nat>)
    ensures r.Some? && i <= |bytes| ==> i <= r.value <= |bytes|
  {
    if Sees(bytes, i, DOT) then SomeDigitsEnd(bytes, i + 1) else Some(i)
  }

  function SignEnd(bytes: seq<byte>, i: nat): (j: nat)
    ensures i <= j <= i + 1
  {
    if Sees(bytes, i, PLUS) || Sees(bytes, i, MINUS) then i + 1 else i
  }

  function ExponentEnd(bytes: seq<byte>, i: nat): (r: Option<nat>)
    ensures r.Some? && i <= |bytes| ==> i <= r.value <= |bytes|
  {
    if Sees(bytes, i, LOWER_E) || Sees(bytes, i, UPPER_E) then SomeDigitsEnd(bytes, SignEnd(bytes, i + 1)) else Some(i)
  }

  function UnsignedEnd(bytes: seq<byte>, i: nat): (r: Option<nat>)
    ensures r.Some? ==> i < r.value <= |bytes|
  {
    match IntegerEnd(bytes, i)
    case None => None
    case Some(f) =>
      match FractionEnd(bytes, f)
      case None => None
      case Some(e) => ExponentEnd(bytes, e)
  }

  function NumberEnd(bytes: seq<byte>, i: nat): (r: Option<nat>)
    ensures r.Some? ==> i < r.value <= |bytes|
  {
    UnsignedEnd(bytes, if Sees(bytes, i, MINUS) then i + 1 else i)
  }

  function ValueEnd(bytes: seq<byte>, i: nat): (r: Option<nat>)
    ensures r.Some? ==> i < r.value <= |bytes|
    decreases |bytes| - i, 2
  {
    var k := BlanksEnd(bytes, i);
    if k >= |bytes| then None
    else if bytes[k] == LBRACE then ObjectEnd(bytes, k)
    else if bytes[k] == LBRACKET then ArrayEnd(bytes, k)
    else if bytes[k] == QUOTE then StringEnd(bytes, k)
    else if bytes[k] == TRUE_NAME[0] then LiteralEnd(bytes, k, TRUE_NAME)
    else if bytes[k] == FALSE_NAME[0] then LiteralEnd(bytes, k, FALSE_NAME)
    else if bytes[k] == NULL_NAME[0] then LiteralEnd(bytes, k, NULL_NAME)
    else NumberEnd(bytes, k)
  }

  function ObjectEnd(bytes: seq<byte>, i: nat): (r: Option<nat>)
    ensures r.Some? ==> i < r.value <= |bytes|
    decreases |bytes| - i, 1
  {
    if !Sees(bytes, i, LBRACE) then None
    else
      var k := BlanksEnd(bytes, i + 1);
      if Sees(bytes, k, RBRACE) then Some(k + 1) else MembersEnd(bytes, k)
  }

  /** The index behind the colon of the member that starts at `i`. */
  function LabelEnd(bytes: seq<byte>, i: nat): (r: Option<nat>)
    ensures r.Some? ==> i < r.value <= |bytes|
  {
    match StringEnd(bytes, BlanksEnd(bytes, i))
    case None => None
    case Some(e) =>
      var c := BlanksEnd(bytes, e);
      if Sees(bytes, c, COLON) then Some(c + 1) else None
  }

  /** The index behind the member that starts at `i` and the blanks that follow it. */
  function MemberEnd(bytes: seq<byte>, i: nat): (r: Option<nat>)
    ensures r.Some? ==> i < r.value <= |bytes|
    decreases |bytes| - i, 2
  {
    match LabelEnd(bytes, i)
    case None => None
    case Some(c) => ItemEnd(bytes, c)
  }

  /** The index behind the value that starts at `i` and the blanks that follow it. */
  function ItemEnd(bytes: seq<byte>, i: nat): (r: Option<nat>)
    ensures r.Some? ==> i < r.value <= |bytes|
    decreases |bytes| - i, 3
  {
    match ValueEnd(bytes, i)
    case None => None
    case Some(v) => Some(BlanksEnd(bytes, v))
  }

  /** The end of an object from the start of one of its members. */
  function MembersEnd(bytes: seq<byte>, i: nat): (r: Option<nat>)
    ensures r.Some? ==> i < r.value <= |bytes|
    decreases |bytes| - i, 4
  {
    if i >= |bytes| then None
    else match MemberEnd(bytes, i)
      case None => None
      case Some(k) =>
        if Sees(bytes, k, RBRACE) then Some(k + 1)
        else if Sees(bytes, k, COMMA) then MembersEnd(bytes, k + 1)
        else None
  }

  function ArrayEnd(bytes: seq<byte>, i: nat): (r: Option<nat>)
    ensures r.Some? ==> i < r.value <= |bytes|
    decreases |bytes| - i, 1
  {
    if !Sees(bytes, i, LBRACKET) then None
    else
      var k := BlanksEnd(bytes, i + 1);
      if Sees(bytes, k, RBRACKET) then Some(k + 1) else ItemsEnd(bytes, k)
  }

  /** The end of an array from the start of one of its elements. */
  function ItemsEnd(bytes: seq<byte>, i: nat): (r: Option<nat>)
    ensures r.Some? ==> i < r.value <= |bytes|
    decreases |bytes| - i, 4
  {
    if i >= |bytes| then None
    else match ItemEnd(bytes, i)
      case None => None
      case Some(k) =>
        if Sees(bytes, k, RBRACKET) then Some(k + 1)
        else if Sees(bytes, k, COMMA) then ItemsEnd(bytes, k + 1)
        else None
  }

  // ---------- the key path search ----------

  datatype Search = Invalid | Missing | Found(lo: nat, hi: nat)

  function RangeLength(r: Search): Option<nat>
    requires r.Found? ==> r.lo <= r.hi
  {
    if r.Found? then Some(r.hi - r.lo) else None
  }

  /** `findInObject` on the object, if any, that starts at `i` or behind blanks. */
  function FindInObject<K(==)>(bytes: seq<byte>, i: nat, decode: seq<byte> -> Option<K>, path: seq<K>): (r: Search)
    requires path != []
    ensures r.Found? ==> r.lo < r.hi <= |bytes|
    decreases |path|, 2, 0
  {
    var k := BlanksEnd(bytes, i);
    if !Sees(bytes, k, LBRACE) then Missing
    else
      var m := BlanksEnd(bytes, k + 1);
      if Sees(bytes, m, RBRACE) then Missing else FindInMembers(bytes, m, decode, path)
  }

  /** The decoded key of the member that starts at `i`. */
  function KeyAt<K>(bytes: seq<byte>, i: nat, decode: seq<byte> -> Option<K>): Option<K> {
    var k := BlanksEnd(bytes, i);
    match StringEnd(bytes, k)
    case None => None
    case Some(e) => decode(bytes[k..e])
  }

  /** The search inside the value at `i`, whose key is the head of the path. */
  function FindInValue<K(==)>(bytes: seq<byte>, i: nat, decode: seq<byte> -> Option<K>, path: seq<K>): (r: Search)
    requires path != []
    ensures r.Found? ==> r.lo < r.hi <= |bytes|
    decreases |path|, 0, 0
  {
    if |path| > 1 then FindInObject(bytes, i, decode, path[1..])
    else match ValueEnd(bytes, i)
      case None => Invalid
      case Some(v) => Found(i, v)
  }

  function FindInMembers<K(==)>(bytes: seq<byte>, i: nat, decode: seq<byte> -> Option<K>, path: seq<K>): (r: Search)
    requires path != []
    ensures r.Found? ==> r.lo < r.hi <= |bytes|
    decreases |path|, 1, |bytes| - i
  {
    if i >= |bytes| || KeyAt(bytes, i, decode).None? || LabelEnd(bytes, i).None? then Invalid
    else
      var start := BlanksEnd(bytes, LabelEnd(bytes, i).value);
      var found := if KeyAt(bytes, i, decode).value == path[0] then FindInValue(bytes, start, decode, path) else Missing;
      if !found.Missing? then found
      else match ItemEnd(bytes, start)
        case None => Invalid
        case Some(k) => AfterMember(bytes, k, decode, path)
  }

  /** The search behind a member whose value did not answer the path. */
  function AfterMember<K(==)>(bytes: seq<byte>, i: nat, decode: seq<byte> -> Option<K>, path: seq<K>): (r: Search)
    requires path != []
    ensures r.Found? ==> r.lo < r.hi <= |bytes|
    decreases |path|, 1, |bytes| - i
  {
    if Sees(bytes, i, RBRACE) then Missing
    else if Sees(bytes, i, COMMA) then FindInMembers(bytes, i + 1, decode, path)
    else Invalid
  }
}
