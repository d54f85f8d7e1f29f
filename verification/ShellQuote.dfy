/** Rendering an argument list as one shell command, against the token recognition and quoting
    rules of the POSIX Shell Command Language (IEEE Std 1003.1, XCU, sections 2.2 and 2.3). */
module ShellQuote {
  import opened Options

  // ---------- the source ----------

  predicate ShellSafe(c: char) {
    || c == '-' || c == '_' || c == '.' || c == '/' || c == ':' || c == '='
    || 'a' <= c <= 'z' || 'A' <= c <= 'Z' || '0' <= c <= '9'
  }

  predicate AllSafe(s: string) {
    forall i :: 0 <= i < |s| ==> ShellSafe(s[i])
  }

  /** `strings.ReplaceAll` of each single quote by quote, escaped quote, quote. */
  function ReplaceQuotes(s: string): string {
    if s == "" then "" else (if s[0] == '\'' then "'\\''" else s[..1]) + ReplaceQuotes(s[1..])
  }

  function Quoted(s: string): string {
    if s != "" && AllSafe(s) then s else "'" + ReplaceQuotes(s) + "'"
  }

  /** `strings.Join(parts, " ")`. */
  function JoinBlanks(parts: seq<string>): string {
    if parts == [] then ""
    else if |parts| == 1 then parts[0]
    else parts[0] + " " + JoinBlanks(parts[1..])
  }

  function QuotedAll(args: seq<string>): (parts: seq<string>)
    ensures |parts| == |args| && forall i :: 0 <= i < |args| ==> parts[i] == Quoted(args[i])
  {
    if args == [] then [] else [Quoted(args[0])] + QuotedAll(args[1..])
  }

  method Quote(s: string) returns (r: string)
    ensures r == Quoted(s)
  {
    if s == "" {
      assert ReplaceQuotes("") == "";
      return "''";
    }
    for i := 0 to |s|
      invariant forall j :: 0 <= j < i ==> ShellSafe(s[j])
    {
      if !ShellSafe(s[i]) {
        return "'" + ReplaceQuotes(s) + "'";
      }
    }
    return s;
  }

  method Join(args: seq<string>) returns (r: string)
    ensures r == JoinBlanks(QuotedAll(args))
  {
    var parts := [];
    for i := 0 to |args|
      invariant |parts| == i && forall j :: 0 <= j < i ==> parts[j] == Quoted(args[j])
    {
      var q := Quote(args[i]);
      parts := parts + [q];
    }
    assert parts == QuotedAll(args);
    r := JoinBlanks(parts);
  }

  // ---------- the shell's rules ----------

  datatype Mode = Unquoted | Single | Double

  predicate IsBlank(c: char) {
    c == ' ' || c == '\t'
  }

  /** Unquoted, these begin an operator, an expansion, a pattern or the end of the command. */
  predicate IsSpecial(c: char) {
    || c == '|' || c == '&' || c == ';' || c == '<' || c == '>' || c == '(' || c == ')' || c == '$' || c == '`'
    || c == '\n' || c == '*' || c == '?' || c == '[' || c == '~' || c == '!' || c == '{' || c == '}'
  }

  predicate EscapedInDouble(c: char) {
    c == '$' || c == '`' || c == '"' || c == '\\'
  }

  function Grow(cur: Option<string>, c: char): Option<string> {
    Some((if cur.Some? then cur.value else "") + [c])
  }

  function Open(cur: Option<string>): Option<string> {
    if cur.Some? then cur else Some("")
  }

  function Deliver(cur: Option<string>, words: Option<seq<string>>): Option<seq<string>> {
    if cur.Some? && words.Some? then Some([cur.value] + words.value) else words
  }

  /** The words of a command after token recognition and quote removal; `cur` is the word being
      read. None when the command is unterminated or more than plain words. */
  function Words(s: string, cur: Option<string>, mode: Mode): Option<seq<string>>
    decreases |s|
  {
    if s == [] then
      if mode == Unquoted then Deliver(cur, Some([])) else None
    else
      var c := s[0];
      match mode
      case Single => if c == '\'' then Words(s[1..], cur, Unquoted) else Words(s[1..], Grow(cur, c), Single)
      case Double =>
        if c == '"' then Words(s[1..], cur, Unquoted)
        else if c == '$' || c == '`' then None
        else if c == '\\' && |s| > 1 && s[1] == '\n' then Words(s[2..], cur, Double)
        else if c == '\\' && |s| > 1 && EscapedInDouble(s[1]) then Words(s[2..], Grow(cur, s[1]), Double)
        else Words(s[1..], Grow(cur, c), Double)
      case Unquoted =>
        if IsBlank(c) then Deliver(cur, Words(s[1..], None, Unquoted))
        else if c == '\'' then Words(s[1..], Open(cur), Single)
        else if c == '"' then Words(s[1..], Open(cur), Double)
        else if c == '\\' then
          if |s| == 1 then None
          else if s[1] == '\n' then Words(s[2..], cur, Unquoted)
          else Words(s[2..], Grow(cur, s[1]), Unquoted)
        else if IsSpecial(c) || (c == '#' && cur.None?) then None
        else Words(s[1..], Grow(cur, c), Unquoted)
  }

  // ---------- round trip ----------

  /** A safe character stands for itself. */
  lemma SafeChar(c: char, rest: string, cur: Option<string>)
    requires ShellSafe(c)
    ensures Words([c] + rest, cur, Unquoted) == Words(rest, Grow(cur, c), Unquoted)
  {
    assert ([c] + rest)[1..] == rest;
  }

  lemma {:induction false} SafeWord(s: string, rest: string, cur: string)
    requires AllSafe(s)
    ensures Words(s + rest, Some(cur), Unquoted) == Words(rest, Some(cur + s), Unquoted)
  {
    if s == "" {
      assert s + rest == rest && cur + s == cur;
    } else {
      assert s + rest == [s[0]] + (s[1..] + rest);
      SafeChar(s[0], s[1..] + rest, Some(cur));
      SafeWord(s[1..], rest, cur + [s[0]]);
      assert cur + [s[0]] + s[1..] == cur + s;
    }
  }

  /** The closing quote, an escaped quote and an opening quote add one quote to the word. */
  lemma QuoteInside(rest: string, cur: string)
    ensures Words("'\\''" + rest, Some(cur), Single) == Words(rest, Some(cur + "'"), Single)
  {
    var s, escaped, open := "'\\''" + rest, "\\''" + rest, "'" + rest;
    assert s[1..] == escaped && escaped[2..] == open && open[1..] == rest;
    assert Words(s, Some(cur), Single) == Words(escaped, Some(cur), Unquoted);
    assert Words(escaped, Some(cur), Unquoted) == Words(open, Some(cur + "'"), Unquoted);
    assert Words(open, Some(cur + "'"), Unquoted) == Words(rest, Some(cur + "'"), Single);
  }

  lemma OtherInside(c: char, rest: string, cur: string)
    requires c != '\''
    ensures Words([c] + rest, Some(cur), Single) == Words(rest, Some(cur + [c]), Single)
  {
    assert ([c] + rest)[1..] == rest;
  }

  lemma CloseQuote(rest: string, cur: string)
    ensures Words("'" + rest, Some(cur), Single) == Words(rest, Some(cur), Unquoted)
  {
    assert ("'" + rest)[1..] == rest;
  }

  lemma {:induction false} QuotedBody(s: string, rest: string, cur: string)
    ensures Words(ReplaceQuotes(s) + "'" + rest, Some(cur), Single) == Words(rest, Some(cur + s), Unquoted)
  {
    hide Words;
    if s == "" {
      assert ReplaceQuotes(s) + "'" + rest == "'" + rest && cur + s == cur;
      CloseQuote(rest, cur);
    } else {
      var tail := ReplaceQuotes(s[1..]) + "'" + rest;
      if s[0] == '\'' {
        assert ReplaceQuotes(s) + "'" + rest == "'\\''" + tail;
        QuoteInside(tail, cur);
      } else {
        assert ReplaceQuotes(s) + "'" + rest == [s[0]] + tail;
        OtherInside(s[0], tail, cur);
      }
      QuotedBody(s[1..], rest, cur + [s[0]]);
      assert cur + [s[0]] + s[1..] == cur + s;
    }
  }

  /** Whatever follows, a quoted argument is read as that argument. */
  lemma QuotedIsOneWord(s: string, rest: string)
    ensures Words(Quoted(s) + rest, None, Unquoted) == Words(rest, Some(s), Unquoted)
  {
    hide ReplaceQuotes;
    if s != "" && AllSafe(s) {
      assert s + rest == [s[0]] + (s[1..] + rest);
      SafeChar(s[0], s[1..] + rest, None);
      assert "" + [s[0]] == [s[0]];
      SafeWord(s[1..], rest, [s[0]]);
      assert [s[0]] + s[1..] == s;
    } else {
      var inner := ReplaceQuotes(s) + "'" + rest;
      assert Quoted(s) + rest == "'" + inner && ("'" + inner)[1..] == inner;
      assert Words("'" + inner, None, Unquoted) == Words(inner, Some(""), Single);
      QuotedBody(s, rest, "");
      assert "" + s == s;
    }
  }

  lemma BlankEndsWord(s: string, rest: string)
    ensures Words(" " + rest, Some(s), Unquoted) == Deliver(Some(s), Words(rest, None, Unquoted))
  {
    assert (" " + rest)[1..] == rest;
  }

  /** The shell reads back exactly the arguments, for every argument list. */
  lemma {:induction false} ShellRoundTrip(args: seq<string>)
    ensures Words(JoinBlanks(QuotedAll(args)), None, Unquoted) == Some(args)
  {
    hide Quoted;
    if args == [] {
    } else if |args| == 1 {
      QuotedIsOneWord(args[0], "");
      assert Quoted(args[0]) + "" == Quoted(args[0]);
      assert args == [args[0]] + [];
    } else {
      var rest := JoinBlanks(QuotedAll(args[1..]));
      ShellRoundTrip(args[1..]);
      assert JoinBlanks(QuotedAll(args)) == Quoted(args[0]) + (" " + rest) by {
        assert QuotedAll(args)[1..] == QuotedAll(args[1..]);
      }
      QuotedIsOneWord(args[0], " " + rest);
      BlankEndsWord(args[0], rest);
      assert args == [args[0]] + args[1..];
    }
  }

  /** So two argument lists never give the same command. */
  lemma JoinIsInjective(a: seq<string>, b: seq<string>)
    requires JoinBlanks(QuotedAll(a)) == JoinBlanks(QuotedAll(b))
    ensures a == b
  {
    ShellRoundTrip(a);
    ShellRoundTrip(b);
  }

  lemma {:induction false} ReplacedFits(s: string)
    ensures |ReplaceQuotes(s)| >= |s|
  {
    if s != "" {
      ReplacedFits(s[1..]);
    }
  }

  /** An argument is left bare exactly when it is not empty and holds only letters, digits and
      `-_./:=`; otherwise it is put between single quotes. */
  lemma LeftBareIff(s: string)
    ensures Quoted(s) == s <==>
              s != "" && forall c :: c in s ==>
                'a' <= c <= 'z' || 'A' <= c <= 'Z' || '0' <= c <= '9' || c in {'-', '_', '.', '/', ':', '='}
    ensures Quoted(s) != s ==> |Quoted(s)| >= |s| + 2 && Quoted(s)[0] == '\'' && Quoted(s)[|Quoted(s)| - 1] == '\''
  {
    ReplacedFits(s);
    if s != "" && AllSafe(s) {
      forall c | c in s ensures ShellSafe(c) {
        var i :| 0 <= i < |s| && s[i] == c;
      }
    } else if s != "" {
      var i :| 0 <= i < |s| && !ShellSafe(s[i]);
      assert s[i] in s;
    }
  }
}
