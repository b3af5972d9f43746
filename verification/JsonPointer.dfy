/** Error pointers: tokens escaped by two string replacements, decoded by section 4 of RFC 6901. */
module JsonPointer {
  import opened Wrappers

  /** `replacingOccurrences(of:with:)` for a pattern of one character. */
  function ReplaceChar(s: string, c: char, with: string): string {
    if s == "" then "" else (if s[0] == c then with else [s[0]]) + ReplaceChar(s[1..], c, with)
  }

  /** The same for a pattern of two characters. */
  function ReplacePair(s: string, c: char, d: char, with: char): string {
    if |s| >= 2 && s[0] == c && s[1] == d then [with] + ReplacePair(s[2..], c, d, with)
    else if s == "" then ""
    else [s[0]] + ReplacePair(s[1..], c, d, with)
  }

  function Escape(token: string): string {
    ReplaceChar(ReplaceChar(token, '~', "~0"), '/', "~1")
  }

  /** Section 4 of RFC 6901: first `~1`, then `~0`. */
  function Unescape(text: string): string {
    ReplacePair(ReplacePair(text, '~', '1', '/'), '~', '0', '~')
  }

  function Append(pointer: string, token: string): string {
    pointer + "/" + Escape(token)
  }

  /** The pointer built by appending the tokens of `path` to `pointer`. */
  function AppendAll(pointer: string, path: seq<string>): string {
    if path == [] then pointer else Append(AppendAll(pointer, path[..|path| - 1]), path[|path| - 1])
  }

  // ---------- escaping ----------

  function EscapeChar(c: char): string {
    if c == '~' then "~0" else if c == '/' then "~1" else [c]
  }

  function EscapeChars(token: string): string {
    if token == "" then "" else EscapeChar(token[0]) + EscapeChars(token[1..])
  }

  lemma {:induction false} ReplaceCharConcat(s: string, t: string, c: char, with: string)
    ensures ReplaceChar(s + t, c, with) == ReplaceChar(s, c, with) + ReplaceChar(t, c, with)
    decreases |s|
  {
    if s == "" {
      assert s + t == t;
    } else {
      assert (s + t)[1..] == s[1..] + t;
      ReplaceCharConcat(s[1..], t, c, with);
    }
  }

  /** Replacing over the whole string twice escapes each character once. */
  lemma {:induction false} EscapeIsPerCharacter(token: string)
    ensures Escape(token) == EscapeChars(token)
  {
    if token != "" {
      var head := if token[0] == '~' then "~0" else [token[0]];
      EscapeIsPerCharacter(token[1..]);
      ReplaceCharConcat(head, ReplaceChar(token[1..], '~', "~0"), '/', "~1");
      assert head[1..] == if token[0] == '~' then "0" else "";
      assert ReplaceChar(head, '/', "~1") == EscapeChar(token[0]);
    }
  }

  lemma {:induction false} EscapedHasNoSlash(token: string)
    ensures '/' !in EscapeChars(token)
  {
    if token != "" {
      EscapedHasNoSlash(token[1..]);
    }
  }

  lemma {:induction false} UndoSlash(token: string)
    ensures ReplacePair(EscapeChars(token), '~', '1', '/') == ReplaceChar(token, '~', "~0")
  {
    if token != "" {
      UndoSlash(token[1..]);
      var tail := EscapeChars(token[1..]);
      if token[0] == '/' {
        assert EscapeChars(token)[2..] == tail;
      } else if token[0] == '~' {
        assert EscapeChars(token)[1..] == ['0'] + tail;
        assert (['0'] + tail)[1..] == tail;
      } else {
        assert EscapeChars(token)[1..] == tail;
      }
    }
  }

  lemma {:induction false} UndoTilde(token: string)
    ensures ReplacePair(ReplaceChar(token, '~', "~0"), '~', '0', '~') == token
  {
    if token != "" {
      UndoTilde(token[1..]);
      var text := ReplaceChar(token, '~', "~0");
      if token[0] == '~' {
        assert text[2..] == ReplaceChar(token[1..], '~', "~0");
      } else {
        assert text[1..] == ReplaceChar(token[1..], '~', "~0");
      }
    }
  }

  lemma EscapeRoundTrip(token: string)
    ensures Unescape(Escape(token)) == token && '/' !in Escape(token)
  {
    EscapeIsPerCharacter(token);
    EscapedHasNoSlash(token);
    UndoSlash(token);
    UndoTilde(token);
  }

  // ---------- pointers ----------

  /** Where the last reference token starts: behind the last slash. */
  function LastSlash(s: string): (r: Option<nat>)
    ensures r.Some? ==> r.value < |s| && s[r.value] == '/' && '/' !in s[r.value + 1..]
    ensures r.None? ==> '/' !in s
  {
    if s == "" then None
    else if s[|s| - 1] == '/' then Some(|s| - 1)
    else
      assert s == s[..|s| - 1] + [s[|s| - 1]];
      match LastSlash(s[..|s| - 1])
      case None => None
      case Some(k) =>
        assert s[k + 1..] == s[..|s| - 1][k + 1..] + [s[|s| - 1]];
        Some(k)
  }

  /** The reference tokens of a pointer; `None` if it is not one. */
  function Decode(pointer: string): Option<seq<string>>
    decreases |pointer|
  {
    if pointer == "" then Some([])
    else match LastSlash(pointer)
      case None => None
      case Some(k) =>
        match Decode(pointer[..k])
        case None => None
        case Some(path) => Some(path + [Unescape(pointer[k + 1..])])
  }

  lemma {:induction false} LastSlashOf(a: string, b: string)
    requires '/' !in b
    ensures LastSlash(a + "/" + b) == Some(|a|)
    decreases |b|
  {
    var s := a + "/" + b;
    if b == "" {
      assert s == a + "/";
    } else {
      var n := |b| - 1;
      assert s[..|s| - 1] == a + "/" + b[..n];
      assert s[|s| - 1] == b[n];
      LastSlashOf(a, b[..n]);
    }
  }

  /** A pointer decodes to the tokens it was built from. */
  lemma {:induction false} PointerRoundTrip(path: seq<string>)
    ensures Decode(AppendAll("", path)) == Some(path)
    decreases |path|
  {
    if path != [] {
      var init, last := path[..|path| - 1], path[|path| - 1];
      PointerRoundTrip(init);
      EscapeRoundTrip(last);
      var pointer := AppendAll("", path);
      LastSlashOf(AppendAll("", init), Escape(last));
      assert pointer[..|AppendAll("", init)|] == AppendAll("", init);
      assert pointer[|AppendAll("", init)| + 1..] == Escape(last);
      assert path == init + [last];
    }
  }

  /** Different paths never share a pointer. */
  lemma PointersDistinct(p: seq<string>, q: seq<string>)
    requires AppendAll("", p) == AppendAll("", q)
    ensures p == q
  {
    PointerRoundTrip(p);
    PointerRoundTrip(q);
  }

  lemma {:induction false} AppendAllConcat(pointer: string, p: seq<string>, q: seq<string>)
    ensures AppendAll(AppendAll(pointer, p), q) == AppendAll(pointer, p + q)
    decreases |q|
  {
    if q == [] {
      assert p + q == p;
    } else {
      AppendAllConcat(pointer, p, q[..|q| - 1]);
      assert (p + q)[..|p + q| - 1] == p + q[..|q| - 1];
    }
  }
}
