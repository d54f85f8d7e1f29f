/** The .env printer and parser of the command line. */
module Dotenv {
  datatype Result<T> = Ok(value: T) | Err(error: Error)

  /** `line` counts from 1. */
  datatype Error =
    | NotKeyValue(line: nat)
    | EmptyKey(line: nat)
    | SpaceInKey(line: nat)
    | BadValue(line: nat)
    | Unterminated

  // ---------- strings ----------

  /** `unicode.IsSpace`. */
  predicate IsSpace(c: char) {
    || c == '\t' || c == '\n' || c == '\U{0B}' || c == '\U{0C}' || c == '\r' || c == ' '
    || c == '\U{85}' || c == '\U{A0}' || c == '\U{1680}'
    || '\U{2000}' <= c <= '\U{200A}'
    || c == '\U{2028}' || c == '\U{2029}' || c == '\U{202F}' || c == '\U{205F}' || c == '\U{3000}'
  }

  function DropLeft(s: string): string {
    if s != [] && IsSpace(s[0]) then DropLeft(s[1..]) else s
  }

  function DropRight(s: string): string {
    if s != [] && IsSpace(s[|s| - 1]) then DropRight(s[..|s| - 1]) else s
  }

  /** `strings.TrimSpace`. */
  function Trim(s: string): string {
    DropRight(DropLeft(s))
  }

  /** `strings.TrimRight(s, "\r")`. */
  function TrimCR(s: string): string {
    if s != [] && s[|s| - 1] == '\r' then TrimCR(s[..|s| - 1]) else s
  }

  predicate HasPrefix(s: string, p: string) {
    p <= s
  }

  function TrimPrefix(s: string, p: string): string {
    if HasPrefix(s, p) then s[|p|..] else s
  }

  /** The index of the first `c`, or the length. */
  function IndexOf(s: string, c: char): (i: nat)
    ensures i <= |s| && (i < |s| ==> s[i] == c) && forall j :: 0 <= j < i ==> s[j] != c
  {
    if s == [] || s[0] == c then 0 else 1 + IndexOf(s[1..], c)
  }

  /** The index of the first " #", or the length. */
  function CommentStart(s: string): (i: nat)
    ensures i <= |s|
  {
    if s == [] then 0
    else if HasPrefix(s, " #") then 0
    else 1 + CommentStart(s[1..])
  }

  /** The lines of a text; an empty last line is not one. */
  function Lines(text: string): seq<string>
    decreases |text|
  {
    if text == [] then [] else
      var i := IndexOf(text, '\n');
      if i == |text| then [text] else [text[..i]] + Lines(text[i + 1..])
  }

  // ---------- parsing ----------

  function Prepend(s: string, r: Result<string>): Result<string> {
    match r
    case Ok(v) => Ok(s + v)
    case Err(e) => Err(e)
  }

  /** What follows the opening quote, up to the closing one. */
  function Body(s: string, quote: char): Result<string> {
    if s == [] then Err(Unterminated)
    else if s[0] == '\\' && quote == '"' && |s| > 1 then Prepend(s[..2], Body(s[2..], quote))
    else if s[0] == quote then Ok("")
    else Prepend(s[..1], Body(s[1..], quote))
  }

  function Unescaped(c: char): string {
    match c
    case 'n' => "\n"
    case 'r' => "\r"
    case 't' => "\t"
    case '\\' => "\\"
    case '"' => "\""
    case _ => ['\\', c]
  }

  function Unescape(s: string): string {
    if s == [] then ""
    else if s[0] != '\\' || |s| == 1 then s[..1] + Unescape(s[1..])
    else Unescaped(s[1]) + Unescape(s[2..])
  }

  function Value(rest: string): Result<string> {
    var v := Trim(rest);
    if v == "" then Ok("")
    else if v[0] == '"' then
      (match Body(v[1..], '"')
       case Ok(body) => Ok(Unescape(body))
       case Err(e) => Err(e))
    else if v[0] == '\'' then Body(v[1..], '\'')
    else Ok(Trim(v[..CommentStart(v)]))
  }

  datatype Line = Skip | Pair(key: string, value: string) | Bad(error: Error)

  function ParseLine(text: string, n: nat): Line {
    var line := Trim(TrimCR(text));
    if line == "" || HasPrefix(line, "#") then Skip else
      var pair := Trim(TrimPrefix(line, "export "));
      var i := IndexOf(pair, '=');
      if i == |pair| then Bad(NotKeyValue(n)) else
        var key := Trim(pair[..i]);
        if key == "" then Bad(EmptyKey(n))
        else if ' ' in key || '\t' in key then Bad(SpaceInKey(n))
        else
          match Value(pair[i + 1..])
          case Ok(v) => Pair(key, v)
          case Err(_) => Bad(BadValue(n))
  }

  function ParseLines(lines: seq<string>): Result<map<string, string>> {
    if lines == [] then Ok(map[]) else
      var rest := ParseLines(lines[..|lines| - 1]);
      if rest.Err? then rest else
        match ParseLine(lines[|lines| - 1], |lines|)
        case Skip => rest
        case Pair(k, v) => Ok(rest.value[k := v])
        case Bad(e) => Err(e)
  }

  function Parse(text: string): Result<map<string, string>> {
    ParseLines(Lines(text))
  }

  // ---------- printing ----------

  predicate NeedsQuoting(c: char) {
    c in " \t\n\r\"'#\\"
  }

  predicate IsQuoted(v: string) {
    exists i :: 0 <= i < |v| && NeedsQuoting(v[i])
  }

  function Escaped(c: char): string {
    match c
    case '\\' => "\\\\"
    case '"' => "\\\""
    case '\n' => "\\n"
    case '\r' => "\\r"
    case '\t' => "\\t"
    case _ => [c]
  }

  function Escape(v: string): string {
    if v == [] then "" else Escaped(v[0]) + Escape(v[1..])
  }

  function Quote(v: string): string {
    if IsQuoted(v) then "\"" + Escape(v) + "\"" else v
  }

  function PrintedLine(key: string, value: string): string {
    key + "=" + Quote(value)
  }

  /** `env pull`: one line for each key, in the given order. */
  function Printed(m: map<string, string>, keys: seq<string>): string
    requires forall k :: k in keys ==> k in m
  {
    if keys == [] then ""
    else Printed(m, keys[..|keys| - 1]) + PrintedLine(keys[|keys| - 1], m[keys[|keys| - 1]]) + "\n"
  }

  // ---------- the loops of the source ----------

  method PrintVars(m: map<string, string>, keys: seq<string>) returns (out: string)
    requires forall k :: k in keys ==> k in m
    ensures out == Printed(m, keys)
  {
    out := "";
    for i := 0 to |keys|
      invariant out == Printed(m, keys[..i])
    {
      assert keys[..i + 1][..i] == keys[..i];
      var quoted := QuoteEnvValue(m[keys[i]]);
      out := out + (keys[i] + "=" + quoted) + "\n";
    }
    assert keys[..|keys|] == keys;
  }

  method QuotedBody(v: string, quote: char) returns (r: Result<string>)
    requires v != ""
    ensures r == Body(v[1..], quote)
  {
    var b, i := "", 1;
    assert Body(v[1..], quote).Ok? ==> "" + Body(v[1..], quote).value == Body(v[1..], quote).value;
    while i < |v|
      invariant 1 <= i <= |v|
      invariant Body(v[1..], quote) == Prepend(b, Body(v[i..], quote))
    {
      var c := v[i];
      BodyStep(v, i, quote, b);
      if c == '\\' && quote == '"' && i + 1 < |v| {
        b := b + [c];
        i := i + 1;
        b := b + [v[i]];
        i := i + 1;
        continue;
      }
      if c == quote {
        return Ok(b);
      }
      b := b + [c];
      i := i + 1;
    }
    return Err(Unterminated);
  }

  lemma BodyStep(v: string, i: nat, quote: char, b: string)
    requires i < |v|
    ensures var now, c := Prepend(b, Body(v[i..], quote)), v[i];
            if c == '\\' && quote == '"' && i + 1 < |v|
            then now == Prepend(b + [c] + [v[i + 1]], Body(v[i + 2..], quote))
            else if c == quote then now == Ok(b)
            else now == Prepend(b + [c], Body(v[i + 1..], quote))
  {
    var s := v[i..];
    assert s[1..] == v[i + 1..] && s[..1] == [v[i]];
    if i + 1 < |v| {
      assert s[2..] == v[i + 2..] && s[..2] == [v[i], v[i + 1]];
      if Body(s[2..], quote).Ok? {
        assert b + (s[..2] + Body(s[2..], quote).value) == (b + [v[i]] + [v[i + 1]]) + Body(s[2..], quote).value;
      }
    }
    if Body(s[1..], quote).Ok? {
      assert b + (s[..1] + Body(s[1..], quote).value) == (b + [v[i]]) + Body(s[1..], quote).value;
    }
    assert b + "" == b;
  }

  method UnescapeDouble(s: string) returns (b: string)
    ensures b == Unescape(s)
  {
    b := "";
    var i := 0;
    while i < |s|
      invariant 0 <= i <= |s|
      invariant Unescape(s) == b + Unescape(s[i..])
    {
      UnescapeStep(s, i, b);
      if s[i] != '\\' || i + 1 >= |s| {
        b := b + [s[i]];
        i := i + 1;
        continue;
      }
      i := i + 1;
      match s[i] {
        case 'n' => b := b + "\n";
        case 'r' => b := b + "\r";
        case 't' => b := b + "\t";
        case '\\' => b := b + "\\";
        case '"' => b := b + "\"";
        case _ =>
          b := b + ['\\'] + [s[i]];
      }
      i := i + 1;
    }
  }

  lemma UnescapeStep(s: string, i: nat, b: string)
    requires i < |s|
    ensures if s[i] != '\\' || i + 1 >= |s| then b + Unescape(s[i..]) == b + [s[i]] + Unescape(s[i + 1..])
            else b + Unescape(s[i..]) == b + Unescaped(s[i + 1]) + Unescape(s[i + 2..])
  {
    var t := s[i..];
    assert t[1..] == s[i + 1..] && t[..1] == [s[i]];
    if i + 1 < |s| {
      assert t[2..] == s[i + 2..];
    }
  }

  method QuoteEnvValue(v: string) returns (r: string)
    ensures r == Quote(v)
  {
    if v == "" {
      return "";
    }
    if !IsQuoted(v) {
      return v;
    }
    var b := "\"";
    for i := 0 to |v|
      invariant b + Escape(v[i..]) == "\"" + Escape(v)
    {
      assert v[i..][1..] == v[i + 1..];
      assert b + (Escaped(v[i]) + Escape(v[i + 1..])) == (b + Escaped(v[i])) + Escape(v[i + 1..]);
      match v[i] {
        case '\\' => b := b + "\\\\";
        case '"' => b := b + "\\\"";
        case '\n' => b := b + "\\n";
        case '\r' => b := b + "\\r";
        case '\t' => b := b + "\\t";
        case _ => b := b + [v[i]];
      }
    }
    return b + "\"";
  }

  method DotenvValue(rest: string) returns (r: Result<string>)
    ensures r == Value(rest)
  {
    var v := Trim(rest);
    if v == "" {
      return Ok("");
    }
    if v[0] == '"' {
      var body := QuotedBody(v, '"');
      if body.Err? {
        return body;
      }
      var text := UnescapeDouble(body.value);
      return Ok(text);
    }
    if v[0] == '\'' {
      r := QuotedBody(v, '\'');
      return;
    }
    var i := CommentStart(v);
    assert v[..|v|] == v;
    if i < |v| {
      v := v[..i];
    }
    return Ok(Trim(v));
  }

  /** One turn of the loop of `parseDotenv`. */
  method ReadLine(text: string, n: nat) returns (r: Line)
    ensures r == ParseLine(text, n)
  {
    hide Value, Trim, TrimCR;
    var trimmed := Trim(TrimCR(text));
    if trimmed == "" || HasPrefix(trimmed, "#") {
      return Skip;
    }
    trimmed := Trim(TrimPrefix(trimmed, "export "));
    var i := IndexOf(trimmed, '=');
    if i == |trimmed| {
      return Bad(NotKeyValue(n));
    }
    var key, rest := Trim(trimmed[..i]), trimmed[i + 1..];
    if key == "" {
      return Bad(EmptyKey(n));
    }
    if ' ' in key || '\t' in key {
      return Bad(SpaceInKey(n));
    }
    var value := DotenvValue(rest);
    if value.Err? {
      return Bad(BadValue(n));
    }
    return Pair(key, value.value);
  }

  method ParseDotenv(text: string) returns (r: Result<map<string, string>>)
    ensures r == Parse(text)
  {
    hide ParseLine;
    var lines, out := Lines(text), map[];
    for n := 0 to |lines|
      invariant ParseLines(lines[..n]) == Ok(out)
    {
      assert lines[..n + 1][..n] == lines[..n];
      PrefixFails(lines, n + 1);
      var line := ReadLine(lines[n], n + 1);
      match line {
        case Skip =>
        case Pair(k, v) => out := out[k := v];
        case Bad(e) => return Err(e);
      }
    }
    assert lines[..|lines|] == lines;
    return Ok(out);
  }

  lemma {:induction false} PrefixFails(lines: seq<string>, n: nat)
    requires n <= |lines|
    ensures ParseLines(lines[..n]).Err? ==> ParseLines(lines) == ParseLines(lines[..n])
    decreases |lines|
  {
    if n == |lines| {
      assert lines[..n] == lines;
    } else {
      var front := lines[..|lines| - 1];
      assert front[..n] == lines[..n];
      PrefixFails(front, n);
    }
  }
}
