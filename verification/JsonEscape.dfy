/** The shell function json_escape of scripts/notify.sh, against the JSON decoding of string bodies. */
module JsonEscape {
  import opened Options

  /** Every occurrence of a character replaced by a text. */
  function ReplaceAll(s: string, c: char, with: string): string {
    if s == [] then [] else (if s[0] == c then with else [s[0]]) + ReplaceAll(s[1..], c, with)
  }

  function EscapeChar(c: char): string {
    if c == '\\' then "\\\\" else if c == '\"' then "\\\"" else if c == '\n' then "\\n" else [c]
  }

  /** One pass over the text. */
  function Escape(s: string): string {
    if s == [] then [] else EscapeChar(s[0]) + Escape(s[1..])
  }

  /** The three replacements of the script, backslashes first. */
  method Run(message: string) returns (s: string)
    ensures s == Escape(message)
  {
    s := message;
    s := ReplaceAll(s, '\\', "\\\\");
    s := ReplaceAll(s, '\"', "\\\"");
    s := ReplaceAll(s, '\n', "\\n");
    ThreePassesAreOne(message);
  }

  lemma {:induction false} ReplaceAllAppend(a: string, b: string, c: char, with: string)
    ensures ReplaceAll(a + b, c, with) == ReplaceAll(a, c, with) + ReplaceAll(b, c, with)
  {
    if a == [] {
      assert a + b == b;
    } else {
      ReplaceAllAppend(a[1..], b, c, with);
      assert (a + b)[0] == a[0] && (a + b)[1..] == a[1..] + b;
      var first := if a[0] == c then with else [a[0]];
      Associate(first, ReplaceAll(a[1..], c, with), ReplaceAll(b, c, with));
    }
  }

  lemma Associate(x: string, y: string, z: string)
    ensures x + (y + z) == (x + y) + z
  {
  }

  function Passes(s: string): string {
    ReplaceAll(ReplaceAll(ReplaceAll(s, '\\', "\\\\"), '\"', "\\\""), '\n', "\\n")
  }

  lemma PassesOneChar(c: char)
    ensures Passes([c]) == EscapeChar(c)
  {
    assert ReplaceAll([c], '\\', "\\\\") == (if c == '\\' then "\\\\" else [c]);
    Untouched("\\\\", '\"', "\\\"");
    Untouched("\\\\", '\n', "\\n");
    Untouched("\\\"", '\n', "\\n");
    assert ReplaceAll([c], '\"', "\\\"") == (if c == '\"' then "\\\"" else [c]);
    assert ReplaceAll([c], '\n', "\\n") == (if c == '\n' then "\\n" else [c]);
  }

  lemma {:induction false} Untouched(s: string, c: char, with: string)
    requires c !in s
    ensures ReplaceAll(s, c, with) == s
  {
    if s != [] {
      Untouched(s[1..], c, with);
    }
  }

  /** In this order the three replacements do not disturb one another's results. */
  lemma {:induction false} ThreePassesAreOne(s: string)
    ensures Passes(s) == Escape(s)
  {
    if s != [] {
      var a, b := [s[0]], s[1..];
      assert s == a + b;
      PassesOneChar(s[0]);
      ThreePassesAreOne(b);
      ReplaceAllAppend(a, b, '\\', "\\\\");
      var a1, b1 := ReplaceAll(a, '\\', "\\\\"), ReplaceAll(b, '\\', "\\\\");
      ReplaceAllAppend(a1, b1, '\"', "\\\"");
      ReplaceAllAppend(ReplaceAll(a1, '\"', "\\\""), ReplaceAll(b1, '\"', "\\\""), '\n', "\\n");
    }
  }

  /** The character a two-character escape stands for (section 7 of RFC 8259); the form with u is not modelled. */
  function Unescaped(c: char): Option<char> {
    if c in {'\"', '\\', '/'} then Some(c)
    else if c == 'b' then Some('\U{08}')
    else if c == 'f' then Some('\U{0C}')
    else if c == 'n' then Some('\n')
    else if c == 'r' then Some('\r')
    else if c == 't' then Some('\t')
    else None
  }

  /** The text a JSON string body denotes; quotes and control characters may not stand unescaped. */
  function Decode(body: string): Option<string> {
    if body == [] then Some([])
    else if body[0] == '\\' then
      if |body| >= 2 && Unescaped(body[1]).Some? && Decode(body[2..]).Some?
      then Some([Unescaped(body[1]).value] + Decode(body[2..]).value) else None
    else if body[0] == '\"' || body[0] < ' ' then None
    else if Decode(body[1..]).Some? then Some([body[0]] + Decode(body[1..]).value)
    else None
  }

  predicate OnlyNewlineControls(s: string) {
    forall i :: 0 <= i < |s| && s[i] < ' ' ==> s[i] == '\n'
  }

  lemma DecodeOneChar(c: char, rest: string)
    ensures Decode(EscapeChar(c) + rest)
         == if Decode(rest).None? || (c < ' ' && c != '\n') then None else Some([c] + Decode(rest).value)
  {
    var body := EscapeChar(c) + rest;
    if |EscapeChar(c)| == 2 {
      assert body[0] == '\\' && body[2..] == rest && Unescaped(body[1]) == Some(c);
    } else {
      assert body[0] == c && body[1..] == rest;
    }
  }

  /** Decoding gives the message back exactly if it has no control character but newlines; else the body is no JSON. */
  lemma {:induction false} DecodeEscape(s: string)
    ensures Decode(Escape(s)) == if OnlyNewlineControls(s) then Some(s) else None
  {
    hide Decode, EscapeChar;
    if s == [] {
      DecodeNothing();
    } else {
      var c, rest := s[0], s[1..];
      DecodeEscape(rest);
      DecodeOneChar(c, Escape(rest));
      assert s == [c] + rest && forall i :: 1 <= i < |s| ==> s[i] == rest[i - 1];
    }
  }

  lemma DecodeNothing()
    ensures Decode([]) == Some([])
  {
  }
}
