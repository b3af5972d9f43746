/** The scanner itself: loops that move an index over the buffer. */
module JsonScanner {
  import opened Wrappers
  import opened JsonGrammar
  import Spec = ScannerSpec

  /** What a round of a search loop gives: the answer, or the next index. */
  datatype Step = Stop(result: Spec.Search) | Next(index: nat)

  datatype RawJsonPathScanner = RawJsonPathScanner(bytes: seq<byte>) {

    method SkipBlanks(start: nat) returns (index: nat)
      ensures index == Spec.BlanksEnd(bytes, start)
    {
      index := start;
      while index < |bytes| && IsBlank(bytes[index])
        invariant Spec.BlanksEnd(bytes, index) == Spec.BlanksEnd(bytes, start)
      {
        index := index + 1;
      }
    }

    method SkipDigits(start: nat) returns (index: nat)
      ensures index == Spec.DigitsEnd(bytes, start)
    {
      index := start;
      while index < |bytes| && IsDigit(bytes[index])
        invariant Spec.DigitsEnd(bytes, index) == Spec.DigitsEnd(bytes, start)
      {
        index := index + 1;
      }
    }

    method SkipString(start: nat) returns (r: Option<nat>)
      ensures r == Spec.StringEnd(bytes, start)
    {
      if !Spec.Sees(bytes, start, QUOTE) {
        return None;
      }
      var index := start + 1;
      while index < |bytes|
        invariant Spec.UnitsEnd(bytes, index) == Spec.StringEnd(bytes, start)
      {
        var b := bytes[index];
        index := index + 1;
        if b == QUOTE {
          return Some(index);
        }
        if b == BACKSLASH {
          if index >= |bytes| {
            return None;
          }
          var escaped := bytes[index];
          index := index + 1;
          if escaped == LOWER_U {
            if index + 4 > |bytes| {
              return None;
            }
            index := index + 4;
          }
        } else if b < 0x20 {
          return None;
        }
      }
      return None;
    }

    method SkipInteger(start: nat) returns (r: Option<nat>)
      ensures r == Spec.IntegerEnd(bytes, start)
    {
      if start >= |bytes| {
        return None;
      }
      if bytes[start] == ZERO {
        return Some(start + 1);
      }
      if !(ZERO < bytes[start] <= NINE) {
        return None;
      }
      var index := SkipDigits(start + 1);
      return Some(index);
    }

    method SkipFraction(start: nat) returns (r: Option<nat>)
      ensures r == Spec.FractionEnd(bytes, start)
    {
      if start >= |bytes| || bytes[start] != DOT {
        return Some(start);
      }
      if start + 1 >= |bytes| || !IsDigit(bytes[start + 1]) {
        return None;
      }
      var index := SkipDigits(start + 1);
      return Some(index);
    }

    method SkipExponent(start: nat) returns (r: Option<nat>)
      ensures r == Spec.ExponentEnd(bytes, start)
    {
      if start >= |bytes| || (bytes[start] != LOWER_E && bytes[start] != UPPER_E) {
        return Some(start);
      }
      var index := start + 1;
      if index < |bytes| && (bytes[index] == PLUS || bytes[index] == MINUS) {
        index := index + 1;
      }
      if index >= |bytes| || !IsDigit(bytes[index]) {
        return None;
      }
      index := SkipDigits(index);
      return Some(index);
    }

    method SkipNumber(start: nat) returns (r: Option<nat>)
      ensures r == Spec.NumberEnd(bytes, start)
    {
      var index := start;
      if index < |bytes| && bytes[index] == MINUS {
        index := index + 1;
      }
      r := SkipInteger(index);
      if r.Some? {
        r := SkipFraction(r.value);
        if r.Some? {
          r := SkipExponent(r.value);
        }
      }
    }

    method ConsumeLiteral(name: seq<byte>, start: nat) returns (r: Option<nat>)
      requires start <= |bytes|
      ensures r == Spec.LiteralEnd(bytes, start, name)
    {
      var index := start;
      for k := 0 to |name|
        invariant index == start + k <= |bytes|
        invariant At(bytes, start, name) <==> At(bytes, index, name[k..])
      {
        AtFirst(bytes, index, name[k..]);
        if !Spec.Sees(bytes, index, name[k]) {
          return None;
        }
        index := index + 1;
        assert name[k..][1..] == name[k + 1..];
      }
      return Some(index);
    }

    method SkipValue(start: nat) returns (r: Option<nat>)
      ensures r == Spec.ValueEnd(bytes, start)
      decreases |bytes| - start, 2
    {
      var index := SkipBlanks(start);
      if index >= |bytes| {
        return None;
      }
      if bytes[index] == LBRACE {
        r := SkipObject(index);
      } else if bytes[index] == LBRACKET {
        r := SkipArray(index);
      } else if bytes[index] == QUOTE {
        r := SkipString(index);
      } else if bytes[index] == TRUE_NAME[0] {
        r := ConsumeLiteral(TRUE_NAME, index);
      } else if bytes[index] == FALSE_NAME[0] {
        r := ConsumeLiteral(FALSE_NAME, index);
      } else if bytes[index] == NULL_NAME[0] {
        r := ConsumeLiteral(NULL_NAME, index);
      } else {
        r := SkipNumber(index);
      }
    }

    /** One key and its colon: the index behind the colon. */
    method SkipLabel(start: nat) returns (r: Option<nat>)
      ensures r == Spec.LabelEnd(bytes, start)
    {
      var quote := SkipBlanks(start);
      var literal := SkipString(quote);
      if literal.None? {
        return None;
      }
      var colon := SkipBlanks(literal.value);
      return if Spec.Sees(bytes, colon, COLON) then Some(colon + 1) else None;
    }

    method SkipItem(start: nat) returns (r: Option<nat>)
      ensures r == Spec.ItemEnd(bytes, start)
      decreases |bytes| - start, 3
    {
      var value := SkipValue(start);
      if value.None? {
        return None;
      }
      var index := SkipBlanks(value.value);
      return Some(index);
    }

    method SkipMember(start: nat) returns (r: Option<nat>)
      ensures r == Spec.MemberEnd(bytes, start)
      decreases |bytes| - start, 2
    {
      var colon := SkipLabel(start);
      if colon.None? {
        return None;
      }
      r := SkipItem(colon.value);
    }

    method SkipObject(start: nat) returns (r: Option<nat>)
      ensures r == Spec.ObjectEnd(bytes, start)
      decreases |bytes| - start, 1
    {
      if !Spec.Sees(bytes, start, LBRACE) {
        return None;
      }
      var index := SkipBlanks(start + 1);
      if Spec.Sees(bytes, index, RBRACE) {
        return Some(index + 1);
      }
      ghost var answer := Spec.MembersEnd(bytes, index);
      while index < |bytes|
        invariant start < index
        invariant Spec.MembersEnd(bytes, index) == answer
        decreases |bytes| - index
      {
        var next := SkipMember(index);
        if next.None? {
          return None;
        }
        if Spec.Sees(bytes, next.value, RBRACE) {
          return Some(next.value + 1);
        }
        if !Spec.Sees(bytes, next.value, COMMA) {
          return None;
        }
        index := next.value + 1;
      }
      return None;
    }

    method SkipArray(start: nat) returns (r: Option<nat>)
      ensures r == Spec.ArrayEnd(bytes, start)
      decreases |bytes| - start, 1
    {
      if !Spec.Sees(bytes, start, LBRACKET) {
        return None;
      }
      var index := SkipBlanks(start + 1);
      if Spec.Sees(bytes, index, RBRACKET) {
        return Some(index + 1);
      }
      ghost var answer := Spec.ItemsEnd(bytes, index);
      while index < |bytes|
        invariant start < index
        invariant Spec.ItemsEnd(bytes, index) == answer
        decreases |bytes| - index
      {
        var next := SkipItem(index);
        if next.None? {
          return None;
        }
        if Spec.Sees(bytes, next.value, RBRACKET) {
          return Some(next.value + 1);
        }
        if !Spec.Sees(bytes, next.value, COMMA) {
          return None;
        }
        index := next.value + 1;
      }
      return None;
    }

    /** One key and its colon: the key and the index behind the colon. */
    method ReadLabel<K>(start: nat, decode: seq<byte> -> Option<K>) returns (r: Option<(K, nat)>)
      ensures r.Some? <==> Spec.KeyAt(bytes, start, decode).Some? && Spec.LabelEnd(bytes, start).Some?
      ensures r.Some? ==> Spec.KeyAt(bytes, start, decode) == Some(r.value.0)
      ensures r.Some? ==> Spec.LabelEnd(bytes, start) == Some(r.value.1)
    {
      var quote := SkipBlanks(start);
      var literal := SkipString(quote);
      if literal.None? {
        return None;
      }
      var key := decode(bytes[quote..literal.value]);
      if key.None? {
        return None;
      }
      var colon := SkipBlanks(literal.value);
      if !Spec.Sees(bytes, colon, COLON) {
        return None;
      }
      return Some((key.value, colon + 1));
    }

    method FindInValue<K(==)>(start: nat, decode: seq<byte> -> Option<K>, path: seq<K>) returns (r: Spec.Search)
      requires path != []
      ensures r == Spec.FindInValue(bytes, start, decode, path)
      decreases |path|, 0
    {
      if |path| == 1 {
        var end := SkipValue(start);
        return if end.None? then Spec.Invalid else Spec.Found(start, end.value);
      }
      r := FindInObject(start, decode, path[1..]);
    }

    method FindInObject<K(==)>(start: nat, decode: seq<byte> -> Option<K>, path: seq<K>) returns (r: Spec.Search)
      requires path != []
      ensures r == Spec.FindInObject(bytes, start, decode, path)
      decreases |path|, 3
    {
      var index := SkipBlanks(start);
      if !Spec.Sees(bytes, index, LBRACE) {
        return Spec.Missing;
      }
      index := SkipBlanks(index + 1);
      if Spec.Sees(bytes, index, RBRACE) {
        return Spec.Missing;
      }
      r := FindInMembers(index, decode, path);
    }

    /** One round of the loop over the members: an answer, or where the next member starts. */
    method FindInMember<K(==)>(index: nat, decode: seq<byte> -> Option<K>, path: seq<K>) returns (step: Step)
      requires path != [] && index < |bytes|
      ensures step.Stop? ==> Spec.FindInMembers(bytes, index, decode, path) == step.result
      ensures step.Next? ==> index < step.index && Spec.FindInMembers(bytes, index, decode, path) == Spec.FindInMembers(bytes, step.index, decode, path)
      decreases |path|, 1
    {
      var keyed := ReadLabel(index, decode);
      if keyed.None? {
        return Stop(Spec.Invalid);
      }
      var valueStart := SkipBlanks(keyed.value.1);
      if keyed.value.0 == path[0] {
        var found := FindInValue(valueStart, decode, path);
        if !found.Missing? {
          return Stop(found);
        }
      }
      var next := SkipItem(valueStart);
      if next.None? {
        return Stop(Spec.Invalid);
      }
      assert Spec.FindInMembers(bytes, index, decode, path) == Spec.AfterMember(bytes, next.value, decode, path);
      if Spec.Sees(bytes, next.value, RBRACE) {
        return Stop(Spec.Missing);
      }
      if !Spec.Sees(bytes, next.value, COMMA) {
        return Stop(Spec.Invalid);
      }
      return Next(next.value + 1);
    }

    /** The loop over the members of an object. */
    method FindInMembers<K(==)>(start: nat, decode: seq<byte> -> Option<K>, path: seq<K>) returns (r: Spec.Search)
      requires path != []
      ensures r == Spec.FindInMembers(bytes, start, decode, path)
      decreases |path|, 2
    {
      var index := start;
      ghost var answer := Spec.FindInMembers(bytes, index, decode, path);
      while index < |bytes|
        invariant Spec.FindInMembers(bytes, index, decode, path) == answer
        decreases |bytes| - index
      {
        var step := FindInMember(index, decode, path);
        if step.Stop? {
          return step.result;
        }
        index := step.index;
      }
      return Spec.Invalid;
    }

    /** `valueRange(at:)`; its caller never passes an empty path. */
    method ValueRange<K(==)>(decode: seq<byte> -> Option<K>, path: seq<K>) returns (r: Spec.Search)
      requires path != []
      ensures r == Spec.FindInObject(bytes, Spec.BlanksEnd(bytes, 0), decode, path)
    {
      var index := SkipBlanks(0);
      r := FindInObject(index, decode, path);
    }
  }

  /** The length in bytes of the value at a key path; a throw and a missing value are both nil. */
  method RawJsonValueByteCount<K(==)>(data: seq<byte>, decode: seq<byte> -> Option<K>, path: seq<K>) returns (count: Option<nat>)
    ensures path == [] ==> count == None
    ensures path != [] ==> count == Spec.RangeLength(Spec.FindInObject(data, Spec.BlanksEnd(data, 0), decode, path))
  {
    if path == [] {
      return None;
    }
    var range := RawJsonPathScanner(data).ValueRange(decode, path);
    return if range.Found? then Some(range.hi - range.lo) else None;
  }
}
