/**
 Concrete syntax of the JSON texts that `RawJSONPathScanner` reads: the grammar of
 sections 2 to 7 of RFC 8259 with every optional blank kept in the tree, so that a
 tree prints to exactly one byte sequence.

 `WellFormed` is the grammar as the scanner reads it: RFC 8259, where moreover an
 escape may carry any byte and `\u` any four bytes. Every RFC 8259 text is well-formed.
 */
module JsonGrammar {

  newtype byte = b: int | 0 <= b < 256

  const QUOTE: byte := 0x22
  const BACKSLASH: byte := 0x5C
  const LBRACE: byte := 0x7B
  const RBRACE: byte := 0x7D
  const LBRACKET: byte := 0x5B
  const RBRACKET: byte := 0x5D
  const COLON: byte := 0x3A
  const COMMA: byte := 0x2C
  const MINUS: byte := 0x2D
  const PLUS: byte := 0x2B
  const DOT: byte := 0x2E
  const ZERO: byte := 0x30
  const NINE: byte := 0x39
  const LOWER_E: byte := 0x65
  const UPPER_E: byte := 0x45
  const LOWER_U: byte := 0x75

  /** The literal names `null`, `true` and `false`. */
  const NULL_NAME: seq<byte> := [0x6E, 0x75, 0x6C, 0x6C]
  const TRUE_NAME: seq<byte> := [0x74, 0x72, 0x75, 0x65]
  const FALSE_NAME: seq<byte> := [0x66, 0x61, 0x6C, 0x73, 0x65]

  predicate IsBlank(b: byte) {
    b == 0x20 || b == 0x0A || b == 0x0D || b == 0x09
  }

  predicate IsDigit(b: byte) {
    ZERO <= b <= NINE
  }

  /** The bytes of the grammar as ASCII characters. */
  lemma BytesAreText(b: byte)
    ensures IsBlank(b) <==> b as int as char in {' ', '\t', '\n', '\r'}
    ensures IsDigit(b) <==> '0' <= b as int as char <= '9'
    ensures [QUOTE as int as char, BACKSLASH as int as char] == "\"\\"
    ensures [LBRACE as int as char, RBRACE as int as char, LBRACKET as int as char, RBRACKET as int as char] == "{}[]"
    ensures [COLON as int as char, COMMA as int as char, DOT as int as char] == ":,."
    ensures [PLUS as int as char, MINUS as int as char] == "+-"
    ensures [LOWER_E as int as char, UPPER_E as int as char, LOWER_U as int as char, ZERO as int as char] == "eEu0"
  {
  }

  function Text(bytes: seq<byte>): string {
    seq(|bytes|, k requires 0 <= k < |bytes| => bytes[k] as int as char)
  }

  lemma NamesAreText()
    ensures Text(NULL_NAME) == "null" && Text(TRUE_NAME) == "true" && Text(FALSE_NAME) == "false"
  {
  }

  predicate Blanks(s: seq<byte>) {
    forall k :: 0 <= k < |s| ==> IsBlank(s[k])
  }

  predicate Digits(s: seq<byte>) {
    forall k :: 0 <= k < |s| ==> IsDigit(s[k])
  }

  /** One unit between the quotes of a string literal. */
  datatype StringUnit =
    | Plain(b: byte)
    | Escape(b: byte)
    | Unicode(h0: byte, h1: byte, h2: byte, h3: byte)

  /** A number by the texts of its four parts; all but `integer` may be empty. */
  datatype Number = Number(sign: seq<byte>, integer: seq<byte>, fraction: seq<byte>, exponent: seq<byte>)

  datatype Value =
    | Null
    | True
    | False
    | Num(number: Number)
    | Str(units: seq<StringUnit>)
    | EmptyArray(blanks: seq<byte>)
    | Array(items: Items)
    | EmptyObject(blanks: seq<byte>)
    | Object(members: Members)

  datatype Items =
    | LastItem(before: seq<byte>, value: Value, after: seq<byte>)
    | MoreItems(before: seq<byte>, value: Value, after: seq<byte>, rest: Items)

  datatype Member =
    Member(before: seq<byte>, key: seq<StringUnit>, beforeColon: seq<byte>, afterColon: seq<byte>, value: Value, after: seq<byte>)

  datatype Members =
    | LastMember(member: Member)
    | MoreMembers(member: Member, rest: Members)

  // ---------- printing ----------

  function PrintUnit(u: StringUnit): seq<byte> {
    match u
    case Plain(b) => [b]
    case Escape(b) => [BACKSLASH, b]
    case Unicode(h0, h1, h2, h3) => [BACKSLASH, LOWER_U, h0, h1, h2, h3]
  }

  function PrintUnits(us: seq<StringUnit>): seq<byte> {
    if us == [] then [] else PrintUnit(us[0]) + PrintUnits(us[1..])
  }

  function PrintString(us: seq<StringUnit>): seq<byte> {
    [QUOTE] + (PrintUnits(us) + [QUOTE])
  }

  function PrintNumber(n: Number): seq<byte> {
    n.sign + (n.integer + (n.fraction + n.exponent))
  }

  function PrintValue(v: Value): seq<byte> {
    match v
    case Null => NULL_NAME
    case True => TRUE_NAME
    case False => FALSE_NAME
    case Num(n) => PrintNumber(n)
    case Str(us) => PrintString(us)
    case EmptyArray(ws) => [LBRACKET] + (ws + [RBRACKET])
    case Array(items) => [LBRACKET] + PrintItems(items)
    case EmptyObject(ws) => [LBRACE] + (ws + [RBRACE])
    case Object(members) => [LBRACE] + PrintMembers(members)
  }

  /** The elements of an array together with its closing bracket. */
  function PrintItems(items: Items): seq<byte> {
    items.before + (PrintValue(items.value) + (items.after +
      (match items
       case LastItem(_, _, _) => [RBRACKET]
       case MoreItems(_, _, _, rest) => [COMMA] + PrintItems(rest))))
  }

  /** Everything of a member that precedes its value. */
  function PrintLabel(m: Member): seq<byte> {
    m.before + (PrintString(m.key) + (m.beforeColon + ([COLON] + m.afterColon)))
  }

  /** The members of an object together with its closing brace. */
  function PrintMembers(ms: Members): seq<byte> {
    PrintLabel(ms.member) + (PrintValue(ms.member.value) + (ms.member.after +
      (match ms
       case LastMember(_) => [RBRACE]
       case MoreMembers(_, rest) => [COMMA] + PrintMembers(rest))))
  }

  // ---------- well-formedness ----------

  predicate UnitOk(u: StringUnit) {
    match u
    case Plain(b) => b >= 0x20 && b != QUOTE && b != BACKSLASH
    case Escape(b) => b != LOWER_U
    case Unicode(_, _, _, _) => true
  }

  predicate UnitsOk(us: seq<StringUnit>) {
    forall k :: 0 <= k < |us| ==> UnitOk(us[k])
  }

  predicate IntegerOk(ds: seq<byte>) {
    ds == [ZERO] || (ds != [] && Digits(ds) && ds[0] != ZERO)
  }

  predicate FractionOk(f: seq<byte>) {
    f == [] || (f[0] == DOT && f[1..] != [] && Digits(f[1..]))
  }

  /** The length of the exponent mark and its optional sign. */
  function ExponentHead(e: seq<byte>): nat
    requires e != []
  {
    if |e| > 1 && (e[1] == PLUS || e[1] == MINUS) then 2 else 1
  }

  predicate ExponentOk(e: seq<byte>) {
    e == [] || ((e[0] == LOWER_E || e[0] == UPPER_E) && e[ExponentHead(e)..] != [] && Digits(e[ExponentHead(e)..]))
  }

  predicate NumberOk(n: Number) {
    (n.sign == [] || n.sign == [MINUS]) && IntegerOk(n.integer) && FractionOk(n.fraction) && ExponentOk(n.exponent)
  }

  predicate WellFormed(v: Value) {
    match v
    case Null => true
    case True => true
    case False => true
    case Num(n) => NumberOk(n)
    case Str(us) => UnitsOk(us)
    case EmptyArray(ws) => Blanks(ws)
    case Array(items) => ItemsOk(items)
    case EmptyObject(ws) => Blanks(ws)
    case Object(members) => MembersOk(members)
  }

  predicate ItemsOk(items: Items) {
    && Blanks(items.before) && WellFormed(items.value) && Blanks(items.after)
    && (items.MoreItems? ==> ItemsOk(items.rest))
  }

  predicate MemberOk(m: Member) {
    && Blanks(m.before) && UnitsOk(m.key) && Blanks(m.beforeColon) && Blanks(m.afterColon)
    && WellFormed(m.value) && Blanks(m.after)
  }

  predicate MembersOk(ms: Members) {
    && MemberOk(ms.member)
    && (ms.MoreMembers? ==> MembersOk(ms.rest))
  }

  // ---------- placing printed text in a buffer ----------

  /** Names the offsets at which the verifier is to look into `At`. */
  predicate Offset(k: nat) {
    true
  }

  /** The bytes `s` stand in `bytes` at index `i`. */
  predicate At(bytes: seq<byte>, i: nat, s: seq<byte>) {
    i + |s| <= |bytes| && forall k: nat {:trigger Offset(k)} :: k < |s| ==> bytes[i + k] == s[k]
  }

  lemma AtSlice(bytes: seq<byte>, i: nat, s: seq<byte>)
    ensures At(bytes, i, s) <==> i + |s| <= |bytes| && bytes[i..i + |s|] == s
  {
    if At(bytes, i, s) {
      forall k: nat | k < |s|
        ensures bytes[i..i + |s|][k] == s[k]
      {
        assert Offset(k);
      }
    }
    if i + |s| <= |bytes| && bytes[i..i + |s|] == s {
      assert forall k: nat {:trigger Offset(k)} :: k < |s| ==> bytes[i + k] == bytes[i..i + |s|][k];
    }
  }

  lemma AtConcat(bytes: seq<byte>, i: nat, s: seq<byte>, t: seq<byte>)
    ensures At(bytes, i, s + t) <==> At(bytes, i, s) && At(bytes, i + |s|, t)
  {
    AtSlice(bytes, i, s + t);
    AtSlice(bytes, i, s);
    AtSlice(bytes, i + |s|, t);
    if i + |s| + |t| <= |bytes| {
      assert bytes[i..i + |s + t|] == bytes[i..i + |s|] + bytes[i + |s|..i + |s| + |t|];
      assert s == (s + t)[..|s|] && t == (s + t)[|s|..];
    }
  }

  lemma AtFirst(bytes: seq<byte>, i: nat, s: seq<byte>)
    requires s != []
    ensures At(bytes, i, s) <==> i < |bytes| && bytes[i] == s[0] && At(bytes, i + 1, s[1..])
  {
    assert s == [s[0]] + s[1..];
    AtConcat(bytes, i, [s[0]], s[1..]);
    assert Offset(0);
  }

  lemma AtFour(bytes: seq<byte>, i: nat, s: seq<byte>, t: seq<byte>, u: seq<byte>, v: seq<byte>)
    ensures At(bytes, i, s + (t + (u + v))) <==>
            At(bytes, i, s) && At(bytes, i + |s|, t) && At(bytes, i + |s| + |t|, u) && At(bytes, i + |s| + |t| + |u|, v)
  {
    AtConcat(bytes, i, s, t + (u + v));
    AtConcat(bytes, i + |s|, t, u + v);
    AtConcat(bytes, i + |s| + |t|, u, v);
  }

  /** Three texts, one byte and a rest, laid end to end. */
  lemma AtThenByte(bytes: seq<byte>, i: nat, s: seq<byte>, t: seq<byte>, u: seq<byte>, d: byte, rest: seq<byte>, k: nat)
    requires k == i + |s| + |t| + |u|
    ensures At(bytes, i, s + (t + (u + ([d] + rest)))) <==>
              At(bytes, i, s) && At(bytes, i + |s|, t) && At(bytes, i + |s| + |t|, u)
              && k < |bytes| && bytes[k] == d && At(bytes, k + 1, rest)
    ensures i + |s + (t + (u + ([d] + rest)))| == k + 1 + |rest|
  {
    AtFour(bytes, i, s, t, u, [d] + rest);
    AtConcat(bytes, k, [d], rest);
    AtFirst(bytes, k, [d]);
  }
}
