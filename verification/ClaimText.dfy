/** The text of the claim file: how it is written and how it is read back. */
module ClaimText {
  import opened Wrappers

  const PAIR_OT := "pair_ot"
  const CLAIM_URL := "claim_url"
  const EXPIRES_AT := "expires_at"
  const STUB := "needs_refresh=true"

  /** Date formatting, left open: reading a formatted date gives it back to the second. */
  datatype Dates = Dates(format: real -> string, parse: string -> Option<real>, toSecond: real -> real)

  ghost predicate Lawful(dates: Dates) {
    forall t :: '\n' !in dates.format(t) && dates.parse(dates.format(t)) == Some(dates.toSecond(t))
  }

  datatype Record = Record(pairOT: string, claimURL: string, expiresAt: real)

  function Line(key: string, value: string): string {
    key + ['='] + value
  }

  function Body(pairOT: string, claimURL: string, expires: string): string {
    Line(PAIR_OT, pairOT) + ['\n'] + (Line(CLAIM_URL, claimURL) + ['\n'] + (Line(EXPIRES_AT, expires) + ['\n']))
  }

  /** The lines of the file, as they are written. */
  lemma BodyText(pairOT: string, claimURL: string, expires: string)
    ensures Body(pairOT, claimURL, expires) ==
              "pair_ot=" + pairOT + "\n" + ("claim_url=" + claimURL + "\n" + ("expires_at=" + expires + "\n"))
  {
    assert PAIR_OT + ['='] == "pair_ot=";
    assert CLAIM_URL + ['='] == "claim_url=";
    assert EXPIRES_AT + ['='] == "expires_at=";
    assert ['\n'] == "\n";
  }

  // ---------- reading ----------

  function IndexOf(text: string, c: char): (n: nat)
    ensures n <= |text| && (n < |text| ==> text[n] == c) && forall i :: 0 <= i < n ==> text[i] != c
  {
    if text == [] || text[0] == c then 0 else 1 + IndexOf(text[1..], c)
  }

  /** The non-empty lines. */
  function Lines(text: string): seq<string>
    decreases |text|
  {
    if text == [] then []
    else
      var n := IndexOf(text, '\n');
      var rest := if n < |text| then Lines(text[n + 1..]) else [];
      if n == 0 then rest else [text[..n]] + rest
  }

  /** What stands before and after the first `=`. */
  function KeyValue(line: string): Option<(string, string)> {
    var n := IndexOf(line, '=');
    if n == |line| then None else Some((line[..n], line[n + 1..]))
  }

  /** A later line overrides an earlier one with the same key. */
  function Values(lines: seq<string>): map<string, string> {
    if lines == [] then map[]
    else
      var before, pair := Values(lines[..|lines| - 1]), KeyValue(lines[|lines| - 1]);
      if pair.None? then before else before[pair.value.0 := pair.value.1]
  }

  predicate Space(c: char) {
    || '\t' <= c <= '\r' || c == ' ' || c == '\U{0085}' || c == '\U{00A0}' || c == '\U{1680}'
    || '\U{2000}' <= c <= '\U{200A}' || c == '\U{2028}' || c == '\U{2029}' || c == '\U{202F}' || c == '\U{205F}' || c == '\U{3000}'
  }

  function Trim(text: string): string
    decreases |text|
  {
    if text == [] then []
    else if Space(text[0]) then Trim(text[1..])
    else if Space(text[|text| - 1]) then Trim(text[..|text| - 1])
    else text
  }

  datatype ReadResult = Absent | Found(record: Record) | InvalidBody

  function RecordOf(values: map<string, string>, dates: Dates): ReadResult {
    if PAIR_OT in values && CLAIM_URL in values && EXPIRES_AT in values && dates.parse(values[EXPIRES_AT]).Some?
    then Found(Record(values[PAIR_OT], values[CLAIM_URL], dates.parse(values[EXPIRES_AT]).value))
    else InvalidBody
  }

  function Parse(content: Option<string>, dates: Dates): ReadResult {
    if content.None? || Trim(content.value) == STUB then Absent
    else RecordOf(Values(Lines(content.value)), dates)
  }

  predicate Says(line: string, key: string, value: string) {
    '=' !in key && line == key + "=" + value
  }

  lemma KeyValueMeans(line: string, key: string, value: string)
    ensures KeyValue(line) == Some((key, value)) <==> Says(line, key, value)
  {
    if KeyValue(line) == Some((key, value)) {
      assert line == line[..|key|] + [line[|key|]] + line[|key| + 1..];
    }
    if Says(line, key, value) {
      assert line == key + ['='] + value;
      IndexOfFirst(key, '=', value);
      assert line[..|key|] == key && line[|key| + 1..] == value;
    }
  }

  predicate LastSays(lines: seq<string>, key: string, value: string, i: nat) {
    && i < |lines| && Says(lines[i], key, value)
    && forall j :: i < j < |lines| ==> KeyValue(lines[j]).None? || KeyValue(lines[j]).value.0 != key
  }

  /** A key has the value that the last line with this key gives it. */
  lemma {:induction false} LastLineWins(lines: seq<string>, key: string, value: string)
    ensures (key in Values(lines) && Values(lines)[key] == value) <==> exists i :: LastSays(lines, key, value, i)
    decreases |lines|
  {
    if lines != [] {
      var n := |lines| - 1;
      LastLineWins(lines[..n], key, value);
      KeyValueMeans(lines[n], key, value);
      if LastSays(lines, key, value, n) {
        assert key in Values(lines);
      } else if KeyValue(lines[n]).None? || KeyValue(lines[n]).value.0 != key {
        forall i | LastSays(lines[..n], key, value, i)
          ensures LastSays(lines, key, value, i)
        {
        }
        forall i | LastSays(lines, key, value, i)
          ensures LastSays(lines[..n], key, value, i)
        {
        }
      }
    }
  }

  // ---------- reading back what was written ----------

  lemma IndexOfFirst(before: string, c: char, after: string)
    requires c !in before
    ensures IndexOf(before + [c] + after, c) == |before|
  {
    var text := before + [c] + after;
    assert text[|before|] == c;
    assert forall i :: 0 <= i < |before| ==> text[i] == before[i];
  }

  lemma LinesCons(line: string, rest: string)
    requires line != [] && '\n' !in line
    ensures Lines(line + ['\n'] + rest) == [line] + Lines(rest)
  {
    var text := line + ['\n'] + rest;
    IndexOfFirst(line, '\n', rest);
    assert text[..|line|] == line;
    assert text[|line| + 1..] == rest;
  }

  lemma KeyValueOf(key: string, value: string)
    requires '=' !in key
    ensures KeyValue(Line(key, value)) == Some((key, value))
  {
    IndexOfFirst(key, '=', value);
    assert Line(key, value)[..|key|] == key;
    assert Line(key, value)[|key| + 1..] == value;
  }

  lemma LineIsOneLine(key: string, value: string)
    requires '\n' !in key && '\n' !in value
    ensures '\n' !in Line(key, value)
  {
  }

  lemma BodyLines(pairOT: string, claimURL: string, expires: string)
    requires '\n' !in pairOT && '\n' !in claimURL && '\n' !in expires
    ensures Lines(Body(pairOT, claimURL, expires)) ==
              [Line(PAIR_OT, pairOT), Line(CLAIM_URL, claimURL), Line(EXPIRES_AT, expires)]
  {
    var a, b, c := Line(PAIR_OT, pairOT), Line(CLAIM_URL, claimURL), Line(EXPIRES_AT, expires);
    LineIsOneLine(PAIR_OT, pairOT);
    LineIsOneLine(CLAIM_URL, claimURL);
    LineIsOneLine(EXPIRES_AT, expires);
    LinesCons(c, []);
    assert c + ['\n'] + [] == c + ['\n'];
    LinesCons(b, c + ['\n']);
    LinesCons(a, b + ['\n'] + (c + ['\n']));
  }

  lemma ThreeValues(a: string, b: string, c: string, x: (string, string), y: (string, string), z: (string, string))
    requires KeyValue(a) == Some(x) && KeyValue(b) == Some(y) && KeyValue(c) == Some(z)
    ensures Values([a, b, c]) == map[][x.0 := x.1][y.0 := y.1][z.0 := z.1]
  {
    assert Values([a]) == map[][x.0 := x.1];
    assert [a, b][..1] == [a];
    assert Values([a, b]) == map[][x.0 := x.1][y.0 := y.1];
    assert [a, b, c][..2] == [a, b];
  }

  lemma BodyValues(pairOT: string, claimURL: string, expires: string)
    requires '\n' !in pairOT && '\n' !in claimURL && '\n' !in expires
    ensures Values(Lines(Body(pairOT, claimURL, expires))) ==
              map[PAIR_OT := pairOT, CLAIM_URL := claimURL, EXPIRES_AT := expires]
  {
    BodyLines(pairOT, claimURL, expires);
    KeyValueOf(PAIR_OT, pairOT);
    KeyValueOf(CLAIM_URL, claimURL);
    KeyValueOf(EXPIRES_AT, expires);
    ThreeValues(Line(PAIR_OT, pairOT), Line(CLAIM_URL, claimURL), Line(EXPIRES_AT, expires),
                (PAIR_OT, pairOT), (CLAIM_URL, claimURL), (EXPIRES_AT, expires));
  }

  lemma {:induction false} TrimKeepsFirst(text: string)
    requires text != [] && !Space(text[0])
    ensures Trim(text) != [] && Trim(text)[0] == text[0]
    decreases |text|
  {
    if Space(text[|text| - 1]) {
      TrimKeepsFirst(text[..|text| - 1]);
    }
  }

  /** What was written is read back, the expiry to the second. */
  lemma WrittenIsRead(pairOT: string, claimURL: string, expires: real, dates: Dates)
    requires Lawful(dates) && '\n' !in pairOT && '\n' !in claimURL
    ensures Parse(Some(Body(pairOT, claimURL, dates.format(expires))), dates) ==
              Found(Record(pairOT, claimURL, dates.toSecond(expires)))
  {
    var body := Body(pairOT, claimURL, dates.format(expires));
    assert body[0] == 'p';
    TrimKeepsFirst(body);
    assert STUB[0] == 'n';
    BodyValues(pairOT, claimURL, dates.format(expires));
  }

  /** The stub reads as no pairing at all. */
  lemma StubIsAbsent(dates: Dates)
    ensures Parse(Some(STUB + ['\n']), dates) == Absent
  {
    var text := STUB + ['\n'];
    assert text[0] == 'n' && text[|text| - 1] == '\n';
    assert text[..|text| - 1] == STUB;
    assert STUB[|STUB| - 1] == 'e';
    assert Trim(STUB) == STUB;
  }
}
