/**
 The scanner reads exactly the grammar: it stops behind one printed value, and
 wherever it stops a well-formed value was printed.
 */
module ScannerGrammar {
  import opened Wrappers
  import opened JsonGrammar
  import opened ScannerSpec

  /** The byte at `j`, if any, cannot continue the number `n` printed before it. */
  predicate Stops(n: Number, bytes: seq<byte>, j: nat) {
    j < |bytes| ==>
      && (n.exponent != [] || n.fraction != [] || n.integer != [ZERO] ==> !IsDigit(bytes[j]))
      && (n.exponent == [] ==> bytes[j] != LOWER_E && bytes[j] != UPPER_E)
      && (n.exponent == [] && n.fraction == [] ==> bytes[j] != DOT)
  }

  /** `v` is printed at `i`, and what follows is not a continuation of it. */
  predicate Printed(bytes: seq<byte>, i: nat, v: Value) {
    && WellFormed(v)
    && At(bytes, i, PrintValue(v))
    && (v.Num? ==> Stops(v.number, bytes, i + |PrintValue(v)|))
  }

  // ---------- runs of blanks and digits ----------

  lemma {:induction false} BlanksComplete(bytes: seq<byte>, i: nat, ws: seq<byte>)
    requires Blanks(ws) && At(bytes, i, ws)
    requires i + |ws| < |bytes| ==> !IsBlank(bytes[i + |ws|])
    ensures BlanksEnd(bytes, i) == i + |ws|
    decreases |ws|
  {
    if ws != [] {
      AtFirst(bytes, i, ws);
      BlanksComplete(bytes, i + 1, ws[1..]);
    }
  }

  lemma {:induction false} BlanksSound(bytes: seq<byte>, i: nat)
    requires i <= |bytes|
    ensures var j := BlanksEnd(bytes, i);
            Blanks(bytes[i..j]) && (j < |bytes| ==> !IsBlank(bytes[j]))
    decreases |bytes| - i
  {
    if i < |bytes| && IsBlank(bytes[i]) {
      BlanksSound(bytes, i + 1);
      assert bytes[i..BlanksEnd(bytes, i)] == [bytes[i]] + bytes[i + 1..BlanksEnd(bytes, i)];
    }
  }

  lemma {:induction false} DigitsComplete(bytes: seq<byte>, i: nat, ds: seq<byte>)
    requires Digits(ds) && At(bytes, i, ds)
    requires i + |ds| < |bytes| ==> !IsDigit(bytes[i + |ds|])
    ensures DigitsEnd(bytes, i) == i + |ds|
    decreases |ds|
  {
    if ds != [] {
      AtFirst(bytes, i, ds);
      DigitsComplete(bytes, i + 1, ds[1..]);
    }
  }

  lemma {:induction false} DigitsSound(bytes: seq<byte>, i: nat)
    requires i <= |bytes|
    ensures var j := DigitsEnd(bytes, i);
            Digits(bytes[i..j]) && (j < |bytes| ==> !IsDigit(bytes[j]))
    decreases |bytes| - i
  {
    if i < |bytes| && IsDigit(bytes[i]) {
      DigitsSound(bytes, i + 1);
      assert bytes[i..DigitsEnd(bytes, i)] == [bytes[i]] + bytes[i + 1..DigitsEnd(bytes, i)];
    }
  }

  // ---------- strings ----------

  lemma {:induction false} UnitsComplete(bytes: seq<byte>, i: nat, us: seq<StringUnit>)
    requires UnitsOk(us) && At(bytes, i, PrintUnits(us) + [QUOTE])
    ensures UnitsEnd(bytes, i) == Some(i + |PrintUnits(us)| + 1)
    decreases |us|
  {
    if us != [] {
      var head, tail := PrintUnit(us[0]), PrintUnits(us[1..]) + [QUOTE];
      assert PrintUnits(us) + [QUOTE] == head + tail;
      AtConcat(bytes, i, head, tail);
      AtSlice(bytes, i, head);
      assert bytes[i..i + |head|][0] == bytes[i] && (|head| > 1 ==> bytes[i..i + |head|][1] == bytes[i + 1]);
      UnitsComplete(bytes, i + |head|, us[1..]);
    } else {
      assert PrintUnits(us) + [QUOTE] == [QUOTE];
      AtFirst(bytes, i, [QUOTE]);
    }
  }

  /** The unit that the scanner steps over at `i`. */
  lemma FirstUnit(bytes: seq<byte>, i: nat) returns (u: StringUnit)
    requires UnitsEnd(bytes, i).Some? && bytes[i] != QUOTE
    ensures UnitOk(u) && At(bytes, i, PrintUnit(u))
    ensures UnitsEnd(bytes, i) == UnitsEnd(bytes, i + |PrintUnit(u)|)
  {
    u := if bytes[i] != BACKSLASH then Plain(bytes[i])
         else if bytes[i + 1] != LOWER_U then Escape(bytes[i + 1])
         else Unicode(bytes[i + 2], bytes[i + 3], bytes[i + 4], bytes[i + 5]);
    assert bytes[i..i + |PrintUnit(u)|] == PrintUnit(u);
    AtSlice(bytes, i, PrintUnit(u));
  }

  lemma {:induction false} UnitsSound(bytes: seq<byte>, i: nat) returns (us: seq<StringUnit>)
    requires UnitsEnd(bytes, i).Some?
    ensures UnitsOk(us) && At(bytes, i, PrintUnits(us) + [QUOTE])
    ensures UnitsEnd(bytes, i) == Some(i + |PrintUnits(us)| + 1)
    decreases |bytes| - i
  {
    if bytes[i] == QUOTE {
      us := [];
      AtFirst(bytes, i, [QUOTE]);
    } else {
      var u := FirstUnit(bytes, i);
      var rest := UnitsSound(bytes, i + |PrintUnit(u)|);
      us := [u] + rest;
      assert us[1..] == rest;
      assert PrintUnits(us) + [QUOTE] == PrintUnit(u) + (PrintUnits(rest) + [QUOTE]);
      AtConcat(bytes, i, PrintUnit(u), PrintUnits(rest) + [QUOTE]);
    }
  }

  lemma StringComplete(bytes: seq<byte>, i: nat, us: seq<StringUnit>)
    requires UnitsOk(us) && At(bytes, i, PrintString(us))
    ensures StringEnd(bytes, i) == Some(i + |PrintString(us)|)
    ensures bytes[i] == QUOTE
  {
    AtConcat(bytes, i, [QUOTE], PrintUnits(us) + [QUOTE]);
    AtFirst(bytes, i, [QUOTE]);
    UnitsComplete(bytes, i + 1, us);
  }

  lemma StringSound(bytes: seq<byte>, i: nat) returns (us: seq<StringUnit>)
    requires StringEnd(bytes, i).Some?
    ensures UnitsOk(us) && At(bytes, i, PrintString(us))
    ensures StringEnd(bytes, i) == Some(i + |PrintString(us)|)
  {
    us := UnitsSound(bytes, i + 1);
    AtConcat(bytes, i, [QUOTE], PrintUnits(us) + [QUOTE]);
    AtFirst(bytes, i, [QUOTE]);
  }

  // ---------- numbers ----------

  // Each part of a number that stands between `i` and `j` and ends there.

  predicate IntegerRead(bytes: seq<byte>, i: nat, ds: seq<byte>, j: nat) {
    && IntegerOk(ds) && At(bytes, i, ds) && j == i + |ds|
    && (ds != [ZERO] && j < |bytes| ==> !IsDigit(bytes[j]))
  }

  predicate FractionRead(bytes: seq<byte>, i: nat, f: seq<byte>, j: nat) {
    && FractionOk(f) && At(bytes, i, f) && j == i + |f|
    && (f != [] && j < |bytes| ==> !IsDigit(bytes[j]))
    && (f == [] ==> !Sees(bytes, i, DOT))
  }

  predicate ExponentRead(bytes: seq<byte>, i: nat, e: seq<byte>, j: nat) {
    && ExponentOk(e) && At(bytes, i, e) && j == i + |e|
    && (e != [] && j < |bytes| ==> !IsDigit(bytes[j]))
    && (e == [] ==> !Sees(bytes, i, LOWER_E) && !Sees(bytes, i, UPPER_E))
  }

  lemma IntegerComplete(bytes: seq<byte>, i: nat, ds: seq<byte>)
    requires IntegerRead(bytes, i, ds, i + |ds|)
    ensures IntegerEnd(bytes, i) == Some(i + |ds|)
  {
    AtFirst(bytes, i, ds);
    if ds != [ZERO] {
      DigitsComplete(bytes, i + 1, ds[1..]);
    }
  }

  lemma IntegerSound(bytes: seq<byte>, i: nat)
    requires IntegerEnd(bytes, i).Some?
    ensures var j := IntegerEnd(bytes, i).value; IntegerRead(bytes, i, bytes[i..j], j)
  {
    var j := IntegerEnd(bytes, i).value;
    AtSlice(bytes, i, bytes[i..j]);
    if bytes[i] == ZERO {
      assert bytes[i..j] == [ZERO];
    } else {
      DigitsSound(bytes, i + 1);
      assert bytes[i..j] == [bytes[i]] + bytes[i + 1..j];
    }
  }

  lemma FractionComplete(bytes: seq<byte>, i: nat, f: seq<byte>)
    requires FractionRead(bytes, i, f, i + |f|)
    ensures FractionEnd(bytes, i) == Some(i + |f|)
  {
    if f != [] {
      AtFirst(bytes, i, f);
      AtFirst(bytes, i + 1, f[1..]);
      DigitsComplete(bytes, i + 1, f[1..]);
    }
  }

  lemma FractionSound(bytes: seq<byte>, i: nat)
    requires i <= |bytes| && FractionEnd(bytes, i).Some?
    ensures var j := FractionEnd(bytes, i).value; FractionRead(bytes, i, bytes[i..j], j)
  {
    var j := FractionEnd(bytes, i).value;
    AtSlice(bytes, i, bytes[i..j]);
    if Sees(bytes, i, DOT) {
      DigitsSound(bytes, i + 1);
      assert bytes[i..j] == [DOT] + bytes[i + 1..j];
    }
  }

  lemma ExponentComplete(bytes: seq<byte>, i: nat, e: seq<byte>)
    requires ExponentRead(bytes, i, e, i + |e|)
    ensures ExponentEnd(bytes, i) == Some(i + |e|)
  {
    if e != [] {
      var h := ExponentHead(e);
      assert e == e[..h] + e[h..];
      AtConcat(bytes, i, e[..h], e[h..]);
      AtFirst(bytes, i, e);
      AtFirst(bytes, i + 1, e[1..]);
      AtFirst(bytes, i + h, e[h..]);
      assert SignEnd(bytes, i + 1) == i + h;
      DigitsComplete(bytes, i + h, e[h..]);
    }
  }

  lemma ExponentSound(bytes: seq<byte>, i: nat)
    requires i <= |bytes| && ExponentEnd(bytes, i).Some?
    ensures var j := ExponentEnd(bytes, i).value; ExponentRead(bytes, i, bytes[i..j], j)
  {
    var j := ExponentEnd(bytes, i).value;
    var e := bytes[i..j];
    AtSlice(bytes, i, e);
    if Sees(bytes, i, LOWER_E) || Sees(bytes, i, UPPER_E) {
      var s := SignEnd(bytes, i + 1);
      DigitsSound(bytes, s);
      assert e[s - i..] == bytes[s..j];
    }
  }

  /** The parts of a number that is printed at `i` and stops. */
  lemma NumberSplit(bytes: seq<byte>, i: nat, n: Number, s: nat, f: nat, e: nat, j: nat)
    requires s == i + |n.sign| && f == s + |n.integer| && e == f + |n.fraction| && j == e + |n.exponent|
    requires NumberOk(n) && At(bytes, i, PrintNumber(n)) && Stops(n, bytes, j)
    ensures At(bytes, i, n.sign) && IntegerRead(bytes, s, n.integer, f)
    ensures FractionRead(bytes, f, n.fraction, e) && ExponentRead(bytes, e, n.exponent, j)
  {
    AtFour(bytes, i, n.sign, n.integer, n.fraction, n.exponent);
    if n.fraction != [] {
      AtFirst(bytes, f, n.fraction);
    }
    if n.exponent != [] {
      AtFirst(bytes, e, n.exponent);
    }
  }

  /** Its converse: parts that are read add up to a number that stops. */
  lemma NumberJoin(bytes: seq<byte>, i: nat, n: Number, s: nat, f: nat, e: nat, j: nat)
    requires s == i + |n.sign| && (n.sign == [] || n.sign == [MINUS]) && At(bytes, i, n.sign)
    requires IntegerRead(bytes, s, n.integer, f) && FractionRead(bytes, f, n.fraction, e) && ExponentRead(bytes, e, n.exponent, j)
    ensures NumberOk(n) && At(bytes, i, PrintNumber(n)) && Stops(n, bytes, j) && j == i + |PrintNumber(n)|
  {
    AtFour(bytes, i, n.sign, n.integer, n.fraction, n.exponent);
  }

  lemma UnsignedComplete(bytes: seq<byte>, n: Number, s: nat, f: nat, e: nat, j: nat)
    requires IntegerRead(bytes, s, n.integer, f) && FractionRead(bytes, f, n.fraction, e) && ExponentRead(bytes, e, n.exponent, j)
    ensures UnsignedEnd(bytes, s) == Some(j) && IsDigit(bytes[s])
  {
    IntegerComplete(bytes, s, n.integer);
    FractionComplete(bytes, f, n.fraction);
    ExponentComplete(bytes, e, n.exponent);
  }

  lemma NumberComplete(bytes: seq<byte>, i: nat, n: Number)
    requires NumberOk(n) && At(bytes, i, PrintNumber(n)) && Stops(n, bytes, i + |PrintNumber(n)|)
    ensures NumberEnd(bytes, i) == Some(i + |PrintNumber(n)|)
    ensures bytes[i] == MINUS || IsDigit(bytes[i])
  {
    var s := i + |n.sign|;
    var f := s + |n.integer|;
    var e := f + |n.fraction|;
    var j := e + |n.exponent|;
    NumberSplit(bytes, i, n, s, f, e, j);
    UnsignedComplete(bytes, n, s, f, e, j);
    if n.sign != [] {
      AtFirst(bytes, i, n.sign);
    }
  }

  lemma UnsignedSound(bytes: seq<byte>, s: nat) returns (f: nat, e: nat, j: nat)
    requires UnsignedEnd(bytes, s).Some?
    ensures s <= f <= e <= j <= |bytes| && UnsignedEnd(bytes, s) == Some(j)
    ensures IntegerRead(bytes, s, bytes[s..f], f) && FractionRead(bytes, f, bytes[f..e], e) && ExponentRead(bytes, e, bytes[e..j], j)
  {
    f := IntegerEnd(bytes, s).value;
    e := FractionEnd(bytes, f).value;
    j := ExponentEnd(bytes, e).value;
    IntegerSound(bytes, s);
    FractionSound(bytes, f);
    ExponentSound(bytes, e);
  }

  lemma NumberSound(bytes: seq<byte>, i: nat) returns (n: Number)
    requires NumberEnd(bytes, i).Some?
    ensures NumberOk(n) && At(bytes, i, PrintNumber(n)) && Stops(n, bytes, i + |PrintNumber(n)|)
    ensures NumberEnd(bytes, i) == Some(i + |PrintNumber(n)|)
  {
    var s := if Sees(bytes, i, MINUS) then i + 1 else i;
    var f, e, j := UnsignedSound(bytes, s);
    n := Number(if s == i then [] else [MINUS], bytes[s..f], bytes[f..e], bytes[e..j]);
    if s != i {
      AtFirst(bytes, i, n.sign);
    }
    NumberJoin(bytes, i, n, s, f, e, j);
  }

  // ---------- values ----------

  predicate StartsValue(b: byte) {
    b in {LBRACE, LBRACKET, QUOTE, TRUE_NAME[0], FALSE_NAME[0], NULL_NAME[0], MINUS} || IsDigit(b)
  }

  predicate Delimiter(b: byte) {
    b in {COMMA, RBRACKET, RBRACE}
  }

  lemma ValueStarts(v: Value)
    requires WellFormed(v)
    ensures PrintValue(v) != [] && StartsValue(PrintValue(v)[0])
  {
    if v.Num? {
      assert PrintNumber(v.number)[0] == if v.number.sign == [] then v.number.integer[0] else MINUS;
    }
  }

  /** Blanks that something other than a blank ends. */
  lemma BlanksBefore(bytes: seq<byte>, i: nat, ws: seq<byte>, t: seq<byte>)
    requires Blanks(ws) && At(bytes, i, ws) && At(bytes, i + |ws|, t) && t != [] && !IsBlank(t[0])
    ensures BlanksEnd(bytes, i) == i + |ws| && bytes[i + |ws|] == t[0]
  {
    AtFirst(bytes, i + |ws|, t);
    BlanksComplete(bytes, i, ws);
  }

  lemma {:induction false} BlanksTwice(bytes: seq<byte>, i: nat)
    ensures BlanksEnd(bytes, BlanksEnd(bytes, i)) == BlanksEnd(bytes, i)
    ensures ValueEnd(bytes, BlanksEnd(bytes, i)) == ValueEnd(bytes, i)
    ensures LabelEnd(bytes, BlanksEnd(bytes, i)) == LabelEnd(bytes, i)
    decreases |bytes| - i
  {
    if i < |bytes| && IsBlank(bytes[i]) {
      BlanksTwice(bytes, i + 1);
    }
  }

  // One step of each function, for use where its argument is a printed text.

  lemma ValueStep(bytes: seq<byte>, i: nat)
    requires i < |bytes| && !IsBlank(bytes[i])
    ensures bytes[i] == LBRACE ==> ValueEnd(bytes, i) == ObjectEnd(bytes, i)
    ensures bytes[i] == LBRACKET ==> ValueEnd(bytes, i) == ArrayEnd(bytes, i)
    ensures bytes[i] == QUOTE ==> ValueEnd(bytes, i) == StringEnd(bytes, i)
    ensures bytes[i] == TRUE_NAME[0] ==> ValueEnd(bytes, i) == LiteralEnd(bytes, i, TRUE_NAME)
    ensures bytes[i] == FALSE_NAME[0] ==> ValueEnd(bytes, i) == LiteralEnd(bytes, i, FALSE_NAME)
    ensures bytes[i] == NULL_NAME[0] ==> ValueEnd(bytes, i) == LiteralEnd(bytes, i, NULL_NAME)
    ensures bytes[i] == MINUS || IsDigit(bytes[i]) ==> ValueEnd(bytes, i) == NumberEnd(bytes, i)
  {
  }

  lemma BlanksBeforeItems(bytes: seq<byte>, i: nat)
    ensures ItemsEnd(bytes, BlanksEnd(bytes, i)) == ItemsEnd(bytes, i)
  {
    BlanksTwice(bytes, i);
  }

  lemma BlanksBeforeMembers(bytes: seq<byte>, i: nat)
    ensures MembersEnd(bytes, BlanksEnd(bytes, i)) == MembersEnd(bytes, i)
  {
    BlanksTwice(bytes, i);
  }

  lemma ArrayStep(bytes: seq<byte>, i: nat)
    requires Sees(bytes, i, LBRACKET)
    ensures var k := BlanksEnd(bytes, i + 1);
            ArrayEnd(bytes, i) == if Sees(bytes, k, RBRACKET) then Some(k + 1) else ItemsEnd(bytes, i + 1)
  {
    BlanksBeforeItems(bytes, i + 1);
  }

  lemma ObjectStep(bytes: seq<byte>, i: nat)
    requires Sees(bytes, i, LBRACE)
    ensures var k := BlanksEnd(bytes, i + 1);
            ObjectEnd(bytes, i) == if Sees(bytes, k, RBRACE) then Some(k + 1) else MembersEnd(bytes, i + 1)
  {
    BlanksBeforeMembers(bytes, i + 1);
  }

  lemma LastItemStep(bytes: seq<byte>, i: nat, k: nat)
    requires ItemEnd(bytes, i) == Some(k) && Sees(bytes, k, RBRACKET)
    ensures ItemsEnd(bytes, i) == Some(k + 1)
  {
  }

  lemma MoreItemsStep(bytes: seq<byte>, i: nat, k: nat)
    requires ItemEnd(bytes, i) == Some(k) && Sees(bytes, k, COMMA)
    ensures ItemsEnd(bytes, i) == ItemsEnd(bytes, k + 1)
  {
  }

  lemma LastMemberStep(bytes: seq<byte>, i: nat, c: nat, k: nat)
    requires LabelEnd(bytes, i) == Some(c) && ItemEnd(bytes, c) == Some(k) && Sees(bytes, k, RBRACE)
    ensures MembersEnd(bytes, i) == Some(k + 1)
  {
  }

  lemma MoreMembersStep(bytes: seq<byte>, i: nat, c: nat, k: nat)
    requires LabelEnd(bytes, i) == Some(c) && ItemEnd(bytes, c) == Some(k) && Sees(bytes, k, COMMA)
    ensures MembersEnd(bytes, i) == MembersEnd(bytes, k + 1)
  {
  }

  /** `before`, a value and `after` stand at `i`, and a delimiter follows at `k`. */
  predicate ItemAt(bytes: seq<byte>, i: nat, before: seq<byte>, v: Value, after: seq<byte>, k: nat) {
    && Blanks(before) && WellFormed(v) && Blanks(after)
    && At(bytes, i, before)
    && At(bytes, i + |before|, PrintValue(v))
    && At(bytes, i + |before| + |PrintValue(v)|, after)
    && k == i + |before| + |PrintValue(v)| + |after|
    && k < |bytes| && Delimiter(bytes[k])
  }

  lemma ItemStops(bytes: seq<byte>, i: nat, before: seq<byte>, v: Value, after: seq<byte>, k: nat)
    requires ItemAt(bytes, i, before, v, after, k)
    ensures Printed(bytes, i + |before|, v)
    ensures BlanksEnd(bytes, i) == i + |before|
    ensures BlanksEnd(bytes, i + |before| + |PrintValue(v)|) == k
    ensures StartsValue(bytes[i + |before|])
  {
    ValueStarts(v);
    BlanksBefore(bytes, i, before, PrintValue(v));
    BlanksComplete(bytes, i + |before| + |PrintValue(v)|, after);
  }

  lemma {:induction false} ItemComplete(bytes: seq<byte>, i: nat, before: seq<byte>, v: Value, after: seq<byte>, k: nat)
    requires ItemAt(bytes, i, before, v, after, k)
    ensures ItemEnd(bytes, i) == Some(k)
    ensures ValueEnd(bytes, i + |before|) == Some(i + |before| + |PrintValue(v)|)
    decreases v, 2
  {
    ItemStops(bytes, i, before, v, after, k);
    ValueComplete(bytes, i + |before|, v);
    BlanksTwice(bytes, i);
  }

  /** How the printed elements of an array lie in the buffer; `k` is the delimiter behind the first. */
  lemma ItemsLayout(bytes: seq<byte>, i: nat, items: Items) returns (k: nat)
    requires ItemsOk(items) && At(bytes, i, PrintItems(items))
    ensures ItemAt(bytes, i, items.before, items.value, items.after, k)
    ensures items.LastItem? ==> bytes[k] == RBRACKET && i + |PrintItems(items)| == k + 1
    ensures items.MoreItems? ==> bytes[k] == COMMA && At(bytes, k + 1, PrintItems(items.rest))
    ensures items.MoreItems? ==> i + |PrintItems(items)| == k + 1 + |PrintItems(items.rest)|
  {
    var tail := match items case LastItem(_, _, _) => [RBRACKET] case MoreItems(_, _, _, rest) => [COMMA] + PrintItems(rest);
    assert PrintItems(items) == items.before + (PrintValue(items.value) + (items.after + tail));
    AtFour(bytes, i, items.before, PrintValue(items.value), items.after, tail);
    k := i + |items.before| + |PrintValue(items.value)| + |items.after|;
    AtFirst(bytes, k, tail);
    if items.MoreItems? {
      assert tail[1..] == PrintItems(items.rest);
    }
  }

  lemma FirstItem(bytes: seq<byte>, i: nat, items: Items) returns (k: nat)
    requires ItemsOk(items) && At(bytes, i, PrintItems(items))
    ensures ItemEnd(bytes, i) == Some(k) && !Sees(bytes, BlanksEnd(bytes, i), RBRACKET)
    ensures items.LastItem? ==> Sees(bytes, k, RBRACKET) && i + |PrintItems(items)| == k + 1
    ensures items.MoreItems? ==> Sees(bytes, k, COMMA) && At(bytes, k + 1, PrintItems(items.rest))
    ensures items.MoreItems? ==> i + |PrintItems(items)| == k + 1 + |PrintItems(items.rest)|
    decreases items, 0
  {
    k := ItemsLayout(bytes, i, items);
    ItemStops(bytes, i, items.before, items.value, items.after, k);
    ItemComplete(bytes, i, items.before, items.value, items.after, k);
  }

  lemma FirstItemStep(bytes: seq<byte>, i: nat, items: Items) returns (k: nat)
    requires ItemsOk(items) && At(bytes, i, PrintItems(items))
    ensures !Sees(bytes, BlanksEnd(bytes, i), RBRACKET)
    ensures items.LastItem? ==> ItemsEnd(bytes, i) == Some(i + |PrintItems(items)|)
    ensures items.MoreItems? ==> ItemsEnd(bytes, i) == ItemsEnd(bytes, k) && At(bytes, k, PrintItems(items.rest))
    ensures items.MoreItems? ==> i + |PrintItems(items)| == k + |PrintItems(items.rest)|
    decreases items, 1
  {
    k := FirstItem(bytes, i, items);
    if items.MoreItems? {
      MoreItemsStep(bytes, i, k);
    } else {
      LastItemStep(bytes, i, k);
    }
    k := k + 1;
  }

  lemma {:induction false} ItemsComplete(bytes: seq<byte>, i: nat, items: Items)
    requires ItemsOk(items) && At(bytes, i, PrintItems(items))
    ensures ItemsEnd(bytes, i) == Some(i + |PrintItems(items)|)
    ensures !Sees(bytes, BlanksEnd(bytes, i), RBRACKET)
    decreases items, 2
  {
    var k := FirstItemStep(bytes, i, items);
    if items.MoreItems? {
      ItemsComplete(bytes, k, items.rest);
    }
  }

  /** How a printed key and colon lie in the buffer. */
  lemma LabelLayout(bytes: seq<byte>, i: nat, m: Member, q: nat, b: nat, c: nat)
    requires At(bytes, i, PrintLabel(m))
    requires q == i + |m.before| && b == q + |PrintString(m.key)| && c == b + |m.beforeColon|
    ensures At(bytes, i, m.before) && At(bytes, q, PrintString(m.key)) && At(bytes, b, m.beforeColon)
    ensures At(bytes, c, [COLON]) && At(bytes, c + 1, m.afterColon) && c + 1 + |m.afterColon| == i + |PrintLabel(m)|
  {
    AtConcat(bytes, i, m.before, PrintString(m.key) + (m.beforeColon + ([COLON] + m.afterColon)));
    AtConcat(bytes, q, PrintString(m.key), m.beforeColon + ([COLON] + m.afterColon));
    AtConcat(bytes, b, m.beforeColon, [COLON] + m.afterColon);
    AtConcat(bytes, c, [COLON], m.afterColon);
  }

  lemma KeyComplete(bytes: seq<byte>, i: nat, m: Member, q: nat, b: nat)
    requires MemberOk(m) && At(bytes, i, m.before) && At(bytes, q, PrintString(m.key))
    requires q == i + |m.before| && b == q + |PrintString(m.key)|
    ensures b <= |bytes| && BlanksEnd(bytes, i) == q && StringEnd(bytes, q) == Some(b)
    ensures bytes[q..b] == PrintString(m.key) && bytes[q] == QUOTE
  {
    AtSlice(bytes, q, PrintString(m.key));
    StringComplete(bytes, q, m.key);
    BlanksBefore(bytes, i, m.before, PrintString(m.key));
  }

  lemma LabelComplete(bytes: seq<byte>, i: nat, m: Member) returns (q: nat, b: nat, c: nat)
    requires MemberOk(m) && At(bytes, i, PrintLabel(m))
    ensures i <= q <= b <= |bytes| && BlanksEnd(bytes, i) == q && StringEnd(bytes, q) == Some(b)
    ensures bytes[q..b] == PrintString(m.key) && bytes[q] == QUOTE
    ensures LabelEnd(bytes, i) == Some(c)
    ensures At(bytes, c, m.afterColon) && c + |m.afterColon| == i + |PrintLabel(m)|
  {
    q := i + |m.before|;
    b := q + |PrintString(m.key)|;
    c := b + |m.beforeColon|;
    LabelLayout(bytes, i, m, q, b, c);
    KeyComplete(bytes, i, m, q, b);
    BlanksBefore(bytes, b, m.beforeColon, [COLON]);
    LabelEndsAt(bytes, i, q, b, c);
    c := c + 1;
  }

  lemma LabelEndsAt(bytes: seq<byte>, i: nat, q: nat, b: nat, c: nat)
    requires BlanksEnd(bytes, i) == q && StringEnd(bytes, q) == Some(b) && BlanksEnd(bytes, b) == c && Sees(bytes, c, COLON)
    ensures LabelEnd(bytes, i) == Some(c + 1)
  {
  }

  function Closer(ms: Members): byte {
    if ms.LastMember? then RBRACE else COMMA
  }

  function RestText(ms: Members): seq<byte> {
    if ms.LastMember? then [] else PrintMembers(ms.rest)
  }

  lemma MembersShape(ms: Members)
    ensures PrintMembers(ms) ==
              PrintLabel(ms.member) + (PrintValue(ms.member.value) + (ms.member.after + ([Closer(ms)] + RestText(ms))))
  {
    if ms.LastMember? {
      assert [RBRACE] + [] == [RBRACE];
    }
  }

  /** How printed members lie in the buffer: `c` is behind the first label, `k` the delimiter behind the first member. */
  lemma MembersLayout(bytes: seq<byte>, i: nat, ms: Members) returns (c: nat, k: nat)
    requires MembersOk(ms) && At(bytes, i, PrintMembers(ms))
    ensures At(bytes, i, PrintLabel(ms.member)) && c == i + |PrintLabel(ms.member)|
    ensures ItemAt(bytes, c, [], ms.member.value, ms.member.after, k)
    ensures ms.LastMember? ==> bytes[k] == RBRACE && i + |PrintMembers(ms)| == k + 1
    ensures ms.MoreMembers? ==> bytes[k] == COMMA && At(bytes, k + 1, PrintMembers(ms.rest))
    ensures ms.MoreMembers? ==> i + |PrintMembers(ms)| == k + 1 + |PrintMembers(ms.rest)|
  {
    var m := ms.member;
    c := i + |PrintLabel(m)|;
    k := c + |PrintValue(m.value)| + |m.after|;
    MembersShape(ms);
    AtThenByte(bytes, i, PrintLabel(m), PrintValue(m.value), m.after, Closer(ms), RestText(ms), k);
  }

  lemma ItemWidened(bytes: seq<byte>, i: nat, before: seq<byte>, v: Value, after: seq<byte>, k: nat)
    requires ItemAt(bytes, i + |before|, [], v, after, k) && Blanks(before) && At(bytes, i, before)
    ensures ItemAt(bytes, i, before, v, after, k)
  {
  }

  lemma ItemNarrowed(bytes: seq<byte>, i: nat, before: seq<byte>, v: Value, after: seq<byte>, k: nat)
    requires ItemAt(bytes, i, before, v, after, k)
    ensures Blanks(before) && WellFormed(v) && Blanks(after) && At(bytes, i, before)
    ensures ItemAt(bytes, i + |before|, [], v, after, k)
  {
  }

  lemma FirstMember(bytes: seq<byte>, i: nat, ms: Members) returns (c: nat, k: nat)
    requires MembersOk(ms) && At(bytes, i, PrintMembers(ms))
    ensures LabelEnd(bytes, i) == Some(c) && ItemEnd(bytes, c) == Some(k) && !Sees(bytes, BlanksEnd(bytes, i), RBRACE)
    ensures ms.LastMember? ==> Sees(bytes, k, RBRACE) && i + |PrintMembers(ms)| == k + 1
    ensures ms.MoreMembers? ==> Sees(bytes, k, COMMA) && At(bytes, k + 1, PrintMembers(ms.rest))
    ensures ms.MoreMembers? ==> i + |PrintMembers(ms)| == k + 1 + |PrintMembers(ms.rest)|
    decreases ms, 0
  {
    var m := ms.member;
    var q, b, v;
    v, k := MembersLayout(bytes, i, ms);
    q, b, c := LabelComplete(bytes, i, m);
    ItemWidened(bytes, c, m.afterColon, m.value, m.after, k);
    ItemComplete(bytes, c, m.afterColon, m.value, m.after, k);
  }

  lemma FirstMemberStep(bytes: seq<byte>, i: nat, ms: Members) returns (k: nat)
    requires MembersOk(ms) && At(bytes, i, PrintMembers(ms))
    ensures !Sees(bytes, BlanksEnd(bytes, i), RBRACE)
    ensures ms.LastMember? ==> MembersEnd(bytes, i) == Some(i + |PrintMembers(ms)|)
    ensures ms.MoreMembers? ==> MembersEnd(bytes, i) == MembersEnd(bytes, k) && At(bytes, k, PrintMembers(ms.rest))
    ensures ms.MoreMembers? ==> i + |PrintMembers(ms)| == k + |PrintMembers(ms.rest)|
    decreases ms, 1
  {
    var c;
    c, k := FirstMember(bytes, i, ms);
    if ms.MoreMembers? {
      MoreMembersStep(bytes, i, c, k);
    } else {
      LastMemberStep(bytes, i, c, k);
    }
    k := k + 1;
  }

  lemma {:induction false} MembersComplete(bytes: seq<byte>, i: nat, ms: Members)
    requires MembersOk(ms) && At(bytes, i, PrintMembers(ms))
    ensures MembersEnd(bytes, i) == Some(i + |PrintMembers(ms)|)
    ensures !Sees(bytes, BlanksEnd(bytes, i), RBRACE)
    decreases ms, 2
  {
    var k := FirstMemberStep(bytes, i, ms);
    if ms.MoreMembers? {
      MembersComplete(bytes, k, ms.rest);
    }
  }

  lemma EmptyArrayComplete(bytes: seq<byte>, i: nat, ws: seq<byte>)
    requires Blanks(ws) && At(bytes, i, [LBRACKET] + (ws + [RBRACKET]))
    ensures ArrayEnd(bytes, i) == Some(i + |ws| + 2)
  {
    AtConcat(bytes, i, [LBRACKET], ws + [RBRACKET]);
    AtFirst(bytes, i, [LBRACKET]);
    AtConcat(bytes, i + 1, ws, [RBRACKET]);
    BlanksBefore(bytes, i + 1, ws, [RBRACKET]);
    ArrayStep(bytes, i);
  }

  lemma EmptyObjectComplete(bytes: seq<byte>, i: nat, ws: seq<byte>)
    requires Blanks(ws) && At(bytes, i, [LBRACE] + (ws + [RBRACE]))
    ensures ObjectEnd(bytes, i) == Some(i + |ws| + 2)
  {
    AtConcat(bytes, i, [LBRACE], ws + [RBRACE]);
    AtFirst(bytes, i, [LBRACE]);
    AtConcat(bytes, i + 1, ws, [RBRACE]);
    BlanksBefore(bytes, i + 1, ws, [RBRACE]);
    ObjectStep(bytes, i);
  }

  lemma ArrayLayout(bytes: seq<byte>, i: nat, items: Items)
    requires Printed(bytes, i, Array(items))
    ensures Sees(bytes, i, LBRACKET) && ItemsOk(items) && At(bytes, i + 1, PrintItems(items))
    ensures |PrintValue(Array(items))| == 1 + |PrintItems(items)|
  {
    AtConcat(bytes, i, [LBRACKET], PrintItems(items));
    AtFirst(bytes, i, [LBRACKET]);
  }

  lemma ObjectLayout(bytes: seq<byte>, i: nat, members: Members)
    requires Printed(bytes, i, Object(members))
    ensures Sees(bytes, i, LBRACE) && MembersOk(members) && At(bytes, i + 1, PrintMembers(members))
    ensures |PrintValue(Object(members))| == 1 + |PrintMembers(members)|
  {
    AtConcat(bytes, i, [LBRACE], PrintMembers(members));
    AtFirst(bytes, i, [LBRACE]);
  }

  lemma ContainerComplete(bytes: seq<byte>, i: nat, v: Value)
    requires v.Array? || v.Object?
    requires Printed(bytes, i, v)
    ensures v.Array? ==> ArrayEnd(bytes, i) == Some(i + |PrintValue(v)|)
    ensures v.Object? ==> ObjectEnd(bytes, i) == Some(i + |PrintValue(v)|)
    decreases v, 0
  {
    match v
    case Array(items) =>
      ArrayLayout(bytes, i, items);
      ItemsComplete(bytes, i + 1, items);
      ArrayStep(bytes, i);
    case Object(members) =>
      ObjectLayout(bytes, i, members);
      MembersComplete(bytes, i + 1, members);
      ObjectStep(bytes, i);
  }

  lemma ScalarComplete(bytes: seq<byte>, i: nat, v: Value)
    requires v.Null? || v.True? || v.False? || v.Num? || v.Str?
    requires Printed(bytes, i, v) && i < |bytes| && bytes[i] == PrintValue(v)[0]
    ensures ValueEnd(bytes, i) == Some(i + |PrintValue(v)|)
  {
    match v
    case Null =>
      ValueStep(bytes, i);
    case True =>
      ValueStep(bytes, i);
    case False =>
      ValueStep(bytes, i);
    case Num(n) =>
      NumberComplete(bytes, i, n);
      ValueStep(bytes, i);
    case Str(us) =>
      StringComplete(bytes, i, us);
      ValueStep(bytes, i);
  }

  /** `skipValue` consumes exactly one printed value. */
  lemma {:induction false} ValueComplete(bytes: seq<byte>, i: nat, v: Value)
    requires Printed(bytes, i, v)
    ensures ValueEnd(bytes, i) == Some(i + |PrintValue(v)|)
    decreases v, 1
  {
    ValueStarts(v);
    AtFirst(bytes, i, PrintValue(v));
    match v
    case EmptyArray(ws) =>
      EmptyArrayComplete(bytes, i, ws);
      ValueStep(bytes, i);
    case EmptyObject(ws) =>
      EmptyObjectComplete(bytes, i, ws);
      ValueStep(bytes, i);
    case Array(_) =>
      ContainerComplete(bytes, i, v);
      ValueStep(bytes, i);
    case Object(_) =>
      ContainerComplete(bytes, i, v);
      ValueStep(bytes, i);
    case _ =>
      ScalarComplete(bytes, i, v);
  }

  // ---------- whatever the scanner accepts was printed ----------

  lemma PlaceItems(bytes: seq<byte>, i: nat, items: Items, k: nat)
    requires ItemAt(bytes, i, items.before, items.value, items.after, k)
    requires items.LastItem? ==> bytes[k] == RBRACKET
    requires items.MoreItems? ==> bytes[k] == COMMA && ItemsOk(items.rest) && At(bytes, k + 1, PrintItems(items.rest))
    ensures ItemsOk(items) && At(bytes, i, PrintItems(items))
    ensures i + |PrintItems(items)| == k + 1 + if items.LastItem? then 0 else |PrintItems(items.rest)|
  {
    var tail := match items case LastItem(_, _, _) => [RBRACKET] case MoreItems(_, _, _, rest) => [COMMA] + PrintItems(rest);
    assert PrintItems(items) == items.before + (PrintValue(items.value) + (items.after + tail));
    if items.MoreItems? {
      assert tail[1..] == PrintItems(items.rest);
    }
    AtFirst(bytes, k, tail);
    AtFour(bytes, i, items.before, PrintValue(items.value), items.after, tail);
  }

  lemma PlaceLabel(bytes: seq<byte>, i: nat, m: Member, q: nat, b: nat, c: nat)
    requires q == i + |m.before| && b == q + |PrintString(m.key)| && c == b + |m.beforeColon|
    requires At(bytes, i, m.before) && At(bytes, q, PrintString(m.key)) && At(bytes, b, m.beforeColon)
    requires Sees(bytes, c, COLON) && At(bytes, c + 1, m.afterColon)
    ensures At(bytes, i, PrintLabel(m)) && i + |PrintLabel(m)| == c + 1 + |m.afterColon|
  {
    AtFirst(bytes, c, [COLON]);
    AtConcat(bytes, c, [COLON], m.afterColon);
    AtFour(bytes, i, m.before, PrintString(m.key), m.beforeColon, [COLON] + m.afterColon);
  }

  lemma PlaceLastMember(bytes: seq<byte>, i: nat, m: Member, k: nat)
    requires At(bytes, i, PrintLabel(m)) && At(bytes, i + |PrintLabel(m)|, PrintValue(m.value))
    requires At(bytes, i + |PrintLabel(m)| + |PrintValue(m.value)|, m.after)
    requires k == i + |PrintLabel(m)| + |PrintValue(m.value)| + |m.after| && Sees(bytes, k, RBRACE)
    ensures At(bytes, i, PrintMembers(LastMember(m))) && i + |PrintMembers(LastMember(m))| == k + 1
  {
    AtThenByte(bytes, i, PrintLabel(m), PrintValue(m.value), m.after, RBRACE, [], k);
    assert [RBRACE] + [] == [RBRACE];
  }

  lemma PlaceMoreMembers(bytes: seq<byte>, i: nat, m: Member, rest: Members, k: nat)
    requires At(bytes, i, PrintLabel(m)) && At(bytes, i + |PrintLabel(m)|, PrintValue(m.value))
    requires At(bytes, i + |PrintLabel(m)| + |PrintValue(m.value)|, m.after)
    requires k == i + |PrintLabel(m)| + |PrintValue(m.value)| + |m.after| && Sees(bytes, k, COMMA)
    requires At(bytes, k + 1, PrintMembers(rest))
    ensures At(bytes, i, PrintMembers(MoreMembers(m, rest)))
    ensures i + |PrintMembers(MoreMembers(m, rest))| == k + 1 + |PrintMembers(rest)|
  {
    AtThenByte(bytes, i, PrintLabel(m), PrintValue(m.value), m.after, COMMA, PrintMembers(rest), k);
  }

  /** Blanks, a value and blanks up to a delimiter. */
  lemma ItemSound(bytes: seq<byte>, i: nat) returns (before: seq<byte>, v: Value, after: seq<byte>)
    requires ItemEnd(bytes, i).Some?
    requires ItemEnd(bytes, i).value < |bytes| && Delimiter(bytes[ItemEnd(bytes, i).value])
    ensures ItemAt(bytes, i, before, v, after, ItemEnd(bytes, i).value)
    decreases |bytes| - i, 3
  {
    before, v := ValueSound(bytes, i);
    var j := ValueEnd(bytes, i).value;
    BlanksSound(bytes, j);
    after := bytes[j..BlanksEnd(bytes, j)];
    AtSlice(bytes, j, after);
  }

  lemma ItemsSound(bytes: seq<byte>, i: nat) returns (items: Items)
    requires ItemsEnd(bytes, i).Some?
    ensures ItemsOk(items) && At(bytes, i, PrintItems(items))
    ensures ItemsEnd(bytes, i) == Some(i + |PrintItems(items)|)
    decreases |bytes| - i, 4
  {
    var k := ItemEnd(bytes, i).value;
    var before, v, after := ItemSound(bytes, i);
    if Sees(bytes, k, RBRACKET) {
      LastItemStep(bytes, i, k);
      items := LastItem(before, v, after);
    } else {
      MoreItemsStep(bytes, i, k);
      var rest := ItemsSound(bytes, k + 1);
      items := MoreItems(before, v, after, rest);
    }
    PlaceItems(bytes, i, items, k);
  }

  /** A key, its colon and the blanks around them, all but the blanks before the value. */
  lemma LabelSound(bytes: seq<byte>, i: nat, afterColon: seq<byte>, v: Value, after: seq<byte>) returns (m: Member)
    requires LabelEnd(bytes, i).Some? && At(bytes, LabelEnd(bytes, i).value, afterColon)
    requires Blanks(afterColon) && WellFormed(v) && Blanks(after)
    ensures m.afterColon == afterColon && m.value == v && m.after == after
    ensures MemberOk(m) && At(bytes, i, PrintLabel(m))
    ensures i + |PrintLabel(m)| == LabelEnd(bytes, i).value + |afterColon|
  {
    var q := BlanksEnd(bytes, i);
    var b := StringEnd(bytes, q).value;
    var c := BlanksEnd(bytes, b);
    BlanksSound(bytes, i);
    BlanksSound(bytes, b);
    var key := StringSound(bytes, q);
    m := Member(bytes[i..q], key, bytes[b..c], afterColon, v, after);
    AtSlice(bytes, i, m.before);
    AtSlice(bytes, b, m.beforeColon);
    PlaceLabel(bytes, i, m, q, b, c);
  }

  /** The first member of what `MembersEnd` accepts, up to the delimiter at `k`. */
  lemma MemberSound(bytes: seq<byte>, i: nat, c: nat, k: nat) returns (m: Member)
    requires LabelEnd(bytes, i) == Some(c) && ItemEnd(bytes, c) == Some(k) && k < |bytes| && Delimiter(bytes[k])
    ensures MemberOk(m) && At(bytes, i, PrintLabel(m)) && ItemAt(bytes, i + |PrintLabel(m)|, [], m.value, m.after, k)
    decreases |bytes| - i, 3
  {
    var afterColon, v, after := ItemSound(bytes, c);
    ItemNarrowed(bytes, c, afterColon, v, after, k);
    m := LabelSound(bytes, i, afterColon, v, after);
  }

  lemma FirstMemberSound(bytes: seq<byte>, i: nat) returns (m: Member, k: nat)
    requires MembersEnd(bytes, i).Some?
    ensures MemberOk(m) && At(bytes, i, PrintLabel(m)) && ItemAt(bytes, i + |PrintLabel(m)|, [], m.value, m.after, k)
    ensures i < k && (bytes[k] == RBRACE || bytes[k] == COMMA)
    ensures bytes[k] == RBRACE ==> MembersEnd(bytes, i) == Some(k + 1)
    ensures bytes[k] == COMMA ==> MembersEnd(bytes, i) == MembersEnd(bytes, k + 1)
    decreases |bytes| - i, 4
  {
    var c := LabelEnd(bytes, i).value;
    k := ItemEnd(bytes, c).value;
    m := MemberSound(bytes, i, c, k);
  }

  /** The members that `MembersEnd` stepped over. */
  predicate MembersBetween(bytes: seq<byte>, i: nat, ms: Members, j: nat) {
    MembersOk(ms) && At(bytes, i, PrintMembers(ms)) && j == i + |PrintMembers(ms)|
  }

  lemma LastMemberSound(bytes: seq<byte>, i: nat, m: Member, k: nat)
    requires MemberOk(m) && At(bytes, i, PrintLabel(m)) && ItemAt(bytes, i + |PrintLabel(m)|, [], m.value, m.after, k)
    requires bytes[k] == RBRACE
    ensures MembersBetween(bytes, i, LastMember(m), k + 1)
  {
    PlaceLastMember(bytes, i, m, k);
  }

  lemma MoreMembersSound(bytes: seq<byte>, i: nat, m: Member, k: nat, rest: Members, j: nat)
    requires MemberOk(m) && At(bytes, i, PrintLabel(m)) && ItemAt(bytes, i + |PrintLabel(m)|, [], m.value, m.after, k)
    requires bytes[k] == COMMA && MembersBetween(bytes, k + 1, rest, j)
    ensures MembersBetween(bytes, i, MoreMembers(m, rest), j)
  {
    PlaceMoreMembers(bytes, i, m, rest, k);
  }

  lemma MembersSound(bytes: seq<byte>, i: nat) returns (ms: Members)
    requires MembersEnd(bytes, i).Some?
    ensures MembersBetween(bytes, i, ms, MembersEnd(bytes, i).value)
    decreases |bytes| - i, 5
  {
    var m, k := FirstMemberSound(bytes, i);
    if bytes[k] == RBRACE {
      ms := LastMember(m);
      LastMemberSound(bytes, i, m, k);
    } else {
      var rest := MembersSound(bytes, k + 1);
      ms := MoreMembers(m, rest);
      MoreMembersSound(bytes, i, m, k, rest, MembersEnd(bytes, i).value);
    }
  }

  lemma EmptyArraySound(bytes: seq<byte>, i: nat) returns (v: Value)
    requires Sees(bytes, i, LBRACKET) && Sees(bytes, BlanksEnd(bytes, i + 1), RBRACKET)
    ensures Printed(bytes, i, v) && i + |PrintValue(v)| == BlanksEnd(bytes, i + 1) + 1
  {
    var k := BlanksEnd(bytes, i + 1);
    BlanksSound(bytes, i + 1);
    var ws := bytes[i + 1..k];
    AtSlice(bytes, i + 1, ws);
    AtFirst(bytes, i, [LBRACKET]);
    AtFirst(bytes, k, [RBRACKET]);
    AtConcat(bytes, i + 1, ws, [RBRACKET]);
    AtConcat(bytes, i, [LBRACKET], ws + [RBRACKET]);
    v := EmptyArray(ws);
  }

  lemma ArraySound(bytes: seq<byte>, i: nat) returns (v: Value)
    requires ArrayEnd(bytes, i).Some?
    ensures Printed(bytes, i, v) && ArrayEnd(bytes, i) == Some(i + |PrintValue(v)|)
    decreases |bytes| - i, 1
  {
    var k := BlanksEnd(bytes, i + 1);
    ArrayStep(bytes, i);
    AtFirst(bytes, i, [LBRACKET]);
    if Sees(bytes, k, RBRACKET) {
      v := EmptyArraySound(bytes, i);
    } else {
      var items := ItemsSound(bytes, i + 1);
      AtConcat(bytes, i, [LBRACKET], PrintItems(items));
      v := Array(items);
    }
  }

  lemma EmptyObjectSound(bytes: seq<byte>, i: nat) returns (v: Value)
    requires Sees(bytes, i, LBRACE) && Sees(bytes, BlanksEnd(bytes, i + 1), RBRACE)
    ensures Printed(bytes, i, v) && i + |PrintValue(v)| == BlanksEnd(bytes, i + 1) + 1
  {
    var k := BlanksEnd(bytes, i + 1);
    BlanksSound(bytes, i + 1);
    var ws := bytes[i + 1..k];
    AtSlice(bytes, i + 1, ws);
    AtFirst(bytes, i, [LBRACE]);
    AtFirst(bytes, k, [RBRACE]);
    AtConcat(bytes, i + 1, ws, [RBRACE]);
    AtConcat(bytes, i, [LBRACE], ws + [RBRACE]);
    v := EmptyObject(ws);
  }

  lemma PlaceObject(bytes: seq<byte>, i: nat, members: Members)
    requires Sees(bytes, i, LBRACE) && MembersOk(members) && At(bytes, i + 1, PrintMembers(members))
    ensures Printed(bytes, i, Object(members)) && |PrintValue(Object(members))| == 1 + |PrintMembers(members)|
  {
    AtFirst(bytes, i, [LBRACE]);
    AtConcat(bytes, i, [LBRACE], PrintMembers(members));
  }

  lemma ObjectSound(bytes: seq<byte>, i: nat) returns (v: Value)
    requires ObjectEnd(bytes, i).Some?
    ensures Printed(bytes, i, v) && ObjectEnd(bytes, i) == Some(i + |PrintValue(v)|)
    decreases |bytes| - i, 1
  {
    var k := BlanksEnd(bytes, i + 1);
    ObjectStep(bytes, i);
    if Sees(bytes, k, RBRACE) {
      v := EmptyObjectSound(bytes, i);
    } else {
      var members := MembersSound(bytes, i + 1);
      PlaceObject(bytes, i, members);
      v := Object(members);
    }
  }

  lemma ScalarSound(bytes: seq<byte>, i: nat) returns (v: Value)
    requires i < |bytes| && !IsBlank(bytes[i]) && bytes[i] != LBRACE && bytes[i] != LBRACKET
    requires ValueEnd(bytes, i).Some?
    ensures Printed(bytes, i, v) && ValueEnd(bytes, i) == Some(i + |PrintValue(v)|)
  {
    if bytes[i] == QUOTE {
      var us := StringSound(bytes, i);
      v := Str(us);
    } else if bytes[i] == TRUE_NAME[0] {
      v := True;
    } else if bytes[i] == FALSE_NAME[0] {
      v := False;
    } else if bytes[i] == NULL_NAME[0] {
      v := Null;
    } else {
      var n := NumberSound(bytes, i);
      v := Num(n);
    }
  }

  lemma ValueSound(bytes: seq<byte>, i: nat) returns (ws: seq<byte>, v: Value)
    requires ValueEnd(bytes, i).Some?
    ensures Blanks(ws) && At(bytes, i, ws) && Printed(bytes, i + |ws|, v)
    ensures ValueEnd(bytes, i) == Some(i + |ws| + |PrintValue(v)|)
    decreases |bytes| - i, 2
  {
    var k := BlanksEnd(bytes, i);
    BlanksSound(bytes, i);
    BlanksTwice(bytes, i);
    ws := bytes[i..k];
    AtSlice(bytes, i, ws);
    ValueStep(bytes, k);
    if bytes[k] == LBRACE {
      v := ObjectSound(bytes, k);
    } else if bytes[k] == LBRACKET {
      v := ArraySound(bytes, k);
    } else {
      v := ScalarSound(bytes, k);
    }
  }

  lemma ValueBehindBlanks(bytes: seq<byte>, i: nat)
    ensures ValueEnd(bytes, i) == ValueEnd(bytes, BlanksEnd(bytes, i))
  {
    BlanksTwice(bytes, i);
  }

  lemma SpacedValueComplete(bytes: seq<byte>, i: nat, ws: seq<byte>, v: Value)
    requires Blanks(ws) && At(bytes, i, ws) && Printed(bytes, i + |ws|, v)
    ensures ValueEnd(bytes, i) == Some(i + |ws| + |PrintValue(v)|)
  {
    ValueStarts(v);
    BlanksBefore(bytes, i, ws, PrintValue(v));
    ValueBehindBlanks(bytes, i);
    ValueComplete(bytes, i + |ws|, v);
  }

  /** Blanks and one well-formed value stand between `i` and `j`, and a number is not cut short. */
  predicate ValueBetween(bytes: seq<byte>, i: nat, ws: seq<byte>, v: Value, j: nat) {
    Blanks(ws) && At(bytes, i, ws) && Printed(bytes, i + |ws|, v) && j == i + |ws| + |PrintValue(v)|
  }

  /** `skipValue` accepts exactly the grammar: it steps from `i` to `j` if and only if a value stands between them. */
  lemma SkipValueIsGrammar(bytes: seq<byte>, i: nat, j: nat)
    ensures ValueEnd(bytes, i) == Some(j) <==> exists ws, v :: ValueBetween(bytes, i, ws, v, j)
  {
    if ValueEnd(bytes, i) == Some(j) {
      var ws, v := ValueSound(bytes, i);
      assert ValueBetween(bytes, i, ws, v, j);
    }
    if ws, v :| ValueBetween(bytes, i, ws, v, j) {
      SpacedValueComplete(bytes, i, ws, v);
    }
  }
}
