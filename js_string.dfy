/**
 * The JavaScript string operations the core relies on: `String.prototype.trim`
 * (also what a Mongoose `trim: true` setter applies), `startsWith`, and the
 * quoting `JSON.stringify` applies to a string value.
 */
module JsString {
  import opened Wrappers

  /** WhiteSpace and LineTerminator code points of ECMAScript: what `trim` removes. */
  predicate IsWhitespace(c: char)
  {
    ('\t' <= c <= '\r') || c == ' ' || c == '\U{00A0}' || c == '\U{1680}'
    || ('\U{2000}' <= c <= '\U{200A}') || c == '\U{2028}' || c == '\U{2029}'
    || c == '\U{202F}' || c == '\U{205F}' || c == '\U{3000}' || c == '\U{FEFF}'
  }

  ghost predicate AllWhitespace(s: string)
  {
    forall i :: 0 <= i < |s| ==> IsWhitespace(s[i])
  }

  /** No whitespace at either end: what a trimmed string looks like. */
  predicate Trimmed(s: string)
  {
    s == [] || (!IsWhitespace(s[0]) && !IsWhitespace(s[|s| - 1]))
  }

  /** `s.trimStart()`. */
  function TrimStart(s: string): string
  {
    if s != [] && IsWhitespace(s[0]) then TrimStart(s[1..]) else s
  }

  /** `s.trimEnd()`. */
  function TrimEnd(s: string): string
  {
    if s != [] && IsWhitespace(s[|s| - 1]) then TrimEnd(s[..|s| - 1]) else s
  }

  /** `s.trim()`. */
  function Trim(s: string): string
  {
    TrimEnd(TrimStart(s))
  }

  /** `!s.trim()`: nothing but whitespace (see `BlankIsTrimEmpty`). */
  predicate Blank(s: string)
  {
    s == [] || (IsWhitespace(s[0]) && Blank(s[1..]))
  }

  lemma {:induction false} BlankIsAllWhitespace(s: string)
    ensures Blank(s) <==> AllWhitespace(s)
  {
    if s != [] {
      BlankIsAllWhitespace(s[1..]);
      assert forall i :: 0 <= i < |s[1..]| ==> s[1..][i] == s[i + 1];
    }
  }

  /** `trimStart` drops a blank prefix and stops at the first other character. */
  lemma {:induction false} TrimStartShape(s: string)
    ensures |TrimStart(s)| <= |s| && TrimStart(s) == s[|s| - |TrimStart(s)|..]
    ensures Blank(s[..|s| - |TrimStart(s)|])
    ensures TrimStart(s) == [] || !IsWhitespace(TrimStart(s)[0])
  {
    if s != [] && IsWhitespace(s[0]) {
      TrimStartShape(s[1..]);
      var k := |s| - |TrimStart(s)|;
      assert s[..k][1..] == s[1..][..k - 1];
    } else {
      assert s[..0] == [];
    }
  }

  /** `trimStart` leaves nothing exactly when the string is blank. */
  lemma {:induction false} TrimStartEmpty(s: string)
    ensures TrimStart(s) == [] <==> Blank(s)
  {
    if s != [] && IsWhitespace(s[0]) {
      TrimStartEmpty(s[1..]);
    }
  }

  /** `trimEnd` drops an all-whitespace suffix and stops at the last other character. */
  lemma {:induction false} TrimEndShape(s: string)
    ensures |TrimEnd(s)| <= |s| && TrimEnd(s) == s[..|TrimEnd(s)|]
    ensures AllWhitespace(s[|TrimEnd(s)|..])
    ensures TrimEnd(s) == [] || !IsWhitespace(TrimEnd(s)[|TrimEnd(s)| - 1])
  {
    if s != [] && IsWhitespace(s[|s| - 1]) {
      var p := s[..|s| - 1];
      TrimEndShape(p);
      var k := |TrimEnd(s)|;
      assert s[k..] == p[k..] + [s[|s| - 1]];
      assert s[..k] == p[..k];
    }
  }

  /** What `trim` returns has no whitespace at either end. */
  lemma TrimTrimmed(s: string)
    ensures Trimmed(Trim(s))
  {
    var t := TrimStart(s);
    TrimStartShape(s);
    TrimEndShape(t);
    if Trim(s) != [] {
      assert Trim(s)[0] == t[0];
    }
  }

  /** `trim` cuts one contiguous piece out of `s`, drops only whitespace, and leaves none at either end. */
  lemma TrimSpec(s: string)
    ensures Trimmed(Trim(s))
    ensures exists i, j :: 0 <= i <= j <= |s| && Trim(s) == s[i..j]
                           && AllWhitespace(s[..i]) && AllWhitespace(s[j..])
  {
    TrimTrimmed(s);
    var t := TrimStart(s);
    var r := TrimEnd(t);
    TrimStartShape(s);
    TrimEndShape(t);
    var i := |s| - |t|;
    var j := i + |r|;
    BlankIsAllWhitespace(s[..i]);
    assert r == s[i..j];
    assert s[j..] == t[|r|..];
  }

  /** A string with no whitespace at its ends is its own trim. */
  lemma TrimOfTrimmed(s: string)
    requires Trimmed(s)
    ensures Trim(s) == s
  {
  }

  /** Trimming twice is trimming once: a stored trimmed value is stable under the setter. */
  lemma TrimIdempotent(s: string)
    ensures Trim(Trim(s)) == Trim(s)
  {
    TrimTrimmed(s);
    TrimOfTrimmed(Trim(s));
  }

  /** `!s.trim()` holds exactly for the blank strings. */
  lemma BlankIsTrimEmpty(s: string)
    ensures Blank(s) <==> Trim(s) == ""
  {
    var t := TrimStart(s);
    TrimStartEmpty(s);
    TrimStartShape(s);
    TrimEndShape(t);
  }

  /** A string that is empty after trimming is entirely whitespace, and conversely. */
  lemma TrimEmpty(s: string)
    ensures Trim(s) == "" <==> AllWhitespace(s)
  {
    BlankIsTrimEmpty(s);
    BlankIsAllWhitespace(s);
  }

  /** `s.startsWith(prefix)`. */
  predicate StartsWith(s: string, prefix: string)
  {
    |prefix| <= |s| && s[..|prefix|] == prefix
  }

  /** Two prefixes of one string are prefixes of each other: a string cannot start with two different words of equal length. */
  lemma StartsWithBoth(s: string, p: string, q: string)
    requires StartsWith(s, p) && StartsWith(s, q) && |p| == |q|
    ensures p == q
  {
  }

  // ---- JSON.stringify on a string value ----

  /** The lowercase hexadecimal digit of a value below 16. */
  function HexDigit(d: nat): (c: char)
    requires d < 16
    ensures ('0' <= c <= '9') || ('a' <= c <= 'f')
  {
    if d < 10 then (48 + d) as char else (87 + d) as char
  }

  function HexValue(c: char): (r: Option<nat>)
    ensures r.Some? ==> r.value < 16
  {
    if '0' <= c <= '9' then Some(c as int - 48)
    else if 'a' <= c <= 'f' then Some(c as int - 87)
    else None
  }

  lemma HexRoundTrip(d: nat)
    requires d < 16
    ensures HexValue(HexDigit(d)) == Some(d)
  {
  }

  /** How `JSON.stringify` writes one code point inside a string literal. */
  function EscapeChar(c: char): (r: string)
    ensures |r| >= 1
  {
    if c == '"' then "\\\""
    else if c == '\\' then "\\\\"
    else if c == '\U{0008}' then "\\b"
    else if c == '\t' then "\\t"
    else if c == '\n' then "\\n"
    else if c == '\U{000C}' then "\\f"
    else if c == '\r' then "\\r"
    else if (c as int) < 0x20 then ['\\', 'u', '0', '0', HexDigit(c as int / 16), HexDigit(c as int % 16)]
    else [c]
  }

  function Escape(s: string): string
  {
    if s == [] then [] else EscapeChar(s[0]) + Escape(s[1..])
  }

  /** `JSON.stringify(s)` for a string `s`. */
  function JsonQuote(s: string): (r: string)
    ensures |r| >= 2 && r[0] == '"' && r[|r| - 1] == '"'
  {
    "\"" + Escape(s) + "\""
  }

  /**
   * Reads the body of a JSON string literal up to its closing quote: the
   * decoded text and what follows the quote, or `None` when the text is not
   * a well-formed literal body.
   */
  function ReadBody(s: string): Option<(string, string)>
    decreases |s|
  {
    if s == [] then None
    else if s[0] == '"' then Some(([], s[1..]))
    else if s[0] != '\\' then
      match ReadBody(s[1..]) case None => None case Some((t, r)) => Some(([s[0]] + t, r))
    else if |s| < 2 then None
    else
      var e := s[1];
      if e == 'u' then
        if |s| < 6 || s[2] != '0' || s[3] != '0' then None
        else match (HexValue(s[4]), HexValue(s[5]))
          case (Some(h), Some(l)) =>
            (match ReadBody(s[6..]) case None => None case Some((t, r)) => Some(([(16 * h + l) as char] + t, r)))
          case _ => None
      else
        var c := if e == '"' then Some('"') else if e == '\\' then Some('\\')
                 else if e == 'b' then Some('\U{0008}') else if e == 't' then Some('\t')
                 else if e == 'n' then Some('\n') else if e == 'f' then Some('\U{000C}')
                 else if e == 'r' then Some('\r') else None;
        match c
        case None => None
        case Some(ch) => match ReadBody(s[2..]) case None => None case Some((t, r)) => Some(([ch] + t, r))
  }

  /** A JSON string literal at the start of `s`: its value and the rest of `s`. */
  function ReadString(s: string): Option<(string, string)>
  {
    if s != [] && s[0] == '"' then ReadBody(s[1..]) else None
  }

  lemma ReadBodyChar(c: char, rest: string, t: string, r: string)
    requires ReadBody(rest) == Some((t, r))
    ensures ReadBody(EscapeChar(c) + rest) == Some(([c] + t, r))
  {
    var e := EscapeChar(c) + rest;
    if (c as int) < 0x20 && !(c in "\U{0008}\t\n\U{000C}\r") {
      var h, l := c as int / 16, c as int % 16;
      HexRoundTrip(h);
      HexRoundTrip(l);
      assert e[6..] == rest;
    } else if c in "\"\\\U{0008}\t\n\U{000C}\r" {
      assert e[2..] == rest;
    } else {
      assert e[1..] == rest;
    }
  }

  /** Reading back what `Escape` wrote, up to the closing quote, gives the original string and leaves the rest. */
  lemma {:induction false} ReadEscape(s: string, rest: string)
    ensures ReadBody(Escape(s) + "\"" + rest) == Some((s, rest))
  {
    if s == [] {
      assert Escape(s) + "\"" + rest == "\"" + rest;
      assert ("\"" + rest)[1..] == rest;
    } else {
      ReadEscape(s[1..], rest);
      assert Escape(s) + "\"" + rest == EscapeChar(s[0]) + (Escape(s[1..]) + "\"" + rest);
      ReadBodyChar(s[0], Escape(s[1..]) + "\"" + rest, s[1..], rest);
      assert [s[0]] + s[1..] == s;
    }
  }

  /** The literal `JSON.stringify` writes reads back as the original string, whatever follows it. */
  lemma ReadJsonQuote(s: string, rest: string)
    ensures ReadString(JsonQuote(s) + rest) == Some((s, rest))
  {
    var w := JsonQuote(s) + rest;
    assert w[1..] == Escape(s) + "\"" + rest;
    ReadEscape(s, rest);
  }

  /** Distinct strings give distinct JSON literals. */
  lemma JsonQuoteInjective(s: string, t: string)
    requires JsonQuote(s) == JsonQuote(t)
    ensures s == t
  {
    ReadJsonQuote(s, "");
    ReadJsonQuote(t, "");
    assert JsonQuote(s) + "" == JsonQuote(s);
    assert JsonQuote(t) + "" == JsonQuote(t);
  }
}
