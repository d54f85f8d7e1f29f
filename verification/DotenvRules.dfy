/** The rules of the .env format, told of the characters of a line: what each line is read as, and
    which lines are errors. */
module DotenvRules {
  import opened Dotenv
  import opened DotenvRoundTrip

  ghost predicate Spaces(s: string) {
    forall i :: 0 <= i < |s| ==> IsSpace(s[i])
  }

  // ---------- trimming ----------

  lemma {:induction false} DropLeftSpaces(a: string, s: string)
    requires Spaces(a) && (s == "" || !IsSpace(s[0]))
    ensures DropLeft(a + s) == s
  {
    if a != "" {
      assert (a + s)[1..] == a[1..] + s;
      DropLeftSpaces(a[1..], s);
    } else {
      assert a + s == s;
    }
  }

  lemma {:induction false} DropRightSpaces(b: string)
    requires Spaces(b)
    ensures DropRight(b) == ""
  {
    if b != "" {
      DropRightSpaces(b[..|b| - 1]);
    }
  }

  /** Trimming takes the spaces at both ends, and nothing else. */
  lemma TrimIs(a: string, core: string, b: string)
    requires Spaces(a) && Spaces(b) && Trimmed(core)
    ensures Trim(a + core + b) == core
  {
    if core == "" {
      assert a + core + b == (a + b) + "";
      DropLeftSpaces(a + b, "");
    } else {
      assert a + core + b == a + (core + b);
      DropLeftSpaces(a, core + b);
      DropRightAfter(core, b);
      DropRightSpaces(b);
      assert core + "" == core;
    }
  }

  /** Every text is spaces, what trimming leaves, and spaces. */
  lemma {:induction false} TrimSplits(s: string) returns (a: string, b: string)
    ensures s == a + Trim(s) + b && Spaces(a) && Spaces(b) && Trimmed(Trim(s))
    decreases |s|
  {
    if s == "" {
      a, b := "", "";
    } else if IsSpace(s[0]) {
      a, b := TrimSplits(s[1..]);
      a := [s[0]] + a;
      assert s == [s[0]] + s[1..];
    } else if IsSpace(s[|s| - 1]) {
      var front := s[..|s| - 1];
      a, b := TrimSplits(front);
      TrimWithoutLast(s);
      b := b + [s[|s| - 1]];
      assert s == front + [s[|s| - 1]];
    } else {
      a, b := "", "";
      TrimmedIsFixed(s);
      assert s == "" + s + "";
    }
  }

  lemma {:induction false} TrimIgnoresCR(s: string)
    ensures Trim(TrimCR(s)) == Trim(s)
  {
    if s != [] && s[|s| - 1] == '\r' {
      TrimIgnoresCR(s[..|s| - 1]);
      TrimWithoutLast(s);
    }
  }

  // ---------- lines that are skipped ----------

  /** Blank lines and comments add nothing. */
  lemma SkipsBlank(a: string, comment: string, n: nat)
    requires Spaces(a)
    ensures ParseLine(a, n) == Skip && ParseLine(a + "#" + comment, n) == Skip
  {
    TrimIs(a, "", "");
    assert a + "" + "" == a;
    TrimIgnoresCR(a);
    var text := a + "#" + comment;
    TrimIgnoresCR(text);
    assert text == a + ("#" + comment);
    DropLeftSpaces(a, "#" + comment);
    DropRightAfter("#", comment);
    assert Trim(text) == "#" + DropRight(comment);
    assert Trim(text)[..1] == "#";
  }

  // ---------- the part that holds key and value ----------

  /** The text, spaces around it aside, is `pair`, or `export`, a blank and `pair`. */
  ghost predicate Carries(text: string, pair: string) {
    && Trimmed(pair) && pair != ""
    && exists a, b, s :: Spaces(a) && Spaces(b) && Spaces(s) && CarriesBetween(text, pair, a, b, s)
  }

  ghost predicate CarriesBetween(text: string, pair: string, a: string, b: string, s: string) {
    || (text == a + pair + b && !HasPrefix(pair, "#") && !HasPrefix(pair, "export "))
    || text == a + ("export " + s + pair) + b
  }

  lemma PlainCore(a: string, pair: string, b: string)
    requires Trimmed(pair) && pair != "" && Spaces(a) && Spaces(b)
    requires !HasPrefix(pair, "#") && !HasPrefix(pair, "export ")
    ensures Trim(a + pair + b) == pair && Trim(TrimPrefix(pair, "export ")) == pair
  {
    TrimIs(a, pair, b);
    TrimmedIsFixed(pair);
  }

  lemma ExportCore(a: string, s: string, pair: string, b: string)
    requires Trimmed(pair) && pair != "" && Spaces(a) && Spaces(b) && Spaces(s)
    ensures var core := "export " + s + pair;
            && Trim(a + core + b) == core && !HasPrefix(core, "#")
            && Trim(TrimPrefix(core, "export ")) == pair
  {
    var core := "export " + s + pair;
    assert core[0] == 'e' && core[|core| - 1] == pair[|pair| - 1];
    TrimIs(a, core, b);
    assert core[..7] == "export " && core[7..] == s + pair;
    TrimIs(s, pair, "");
    assert s + pair + "" == s + pair;
    assert core[..1] == "e";
  }

  lemma CoreOf(text: string, pair: string)
    requires Carries(text, pair)
    ensures var core := Trim(TrimCR(text));
            core != "" && !HasPrefix(core, "#") && Trim(TrimPrefix(core, "export ")) == pair
  {
    hide Trim, TrimCR, TrimPrefix, HasPrefix;
    TrimIgnoresCR(text);
    var a, b, s :| Spaces(a) && Spaces(b) && Spaces(s) && CarriesBetween(text, pair, a, b, s);
    if text == a + ("export " + s + pair) + b {
      ExportCore(a, s, pair, b);
    } else {
      PlainCore(a, pair, b);
    }
  }

  lemma FirstOf(k0: string, c: char, rest: string)
    requires c !in k0
    ensures IndexOf(k0 + [c] + rest, c) == |k0|
  {
    var s := k0 + [c] + rest;
    var i := IndexOf(s, c);
    assert s[|k0|] == c;
    assert forall j :: 0 <= j < |k0| ==> s[j] == k0[j];
  }

  /** No `=`: an error of its own. */
  lemma NoEquals(text: string, pair: string, n: nat)
    requires Carries(text, pair) && '=' !in pair
    ensures ParseLine(text, n) == Bad(NotKeyValue(n))
  {
    hide Trim, TrimCR, Value;
    CoreOf(text, pair);
    forall i | 0 <= i < |pair| ensures pair[i] != '=' {
      assert pair[i] in pair;
    }
  }

  /** `pair` is a key, spaces, `=` and `rest`. */
  ghost predicate Splits(pair: string, key: string, rest: string) {
    Trimmed(key) && '=' !in key && exists s :: Spaces(s) && pair == key + s + "=" + rest
  }

  lemma SplitAt(text: string, pair: string, key: string, rest: string, n: nat)
    requires Carries(text, pair) && Splits(pair, key, rest)
    ensures ParseLine(text, n) ==
              if key == "" then Bad(EmptyKey(n))
              else if ' ' in key || '\t' in key then Bad(SpaceInKey(n))
              else match Value(rest) case Ok(v) => Pair(key, v) case Err(_) => Bad(BadValue(n))
  {
    hide Trim, TrimCR, Value;
    CoreOf(text, pair);
    var s :| Spaces(s) && pair == key + s + "=" + rest;
    forall i | 0 <= i < |s| ensures s[i] != '=' {
      assert IsSpace(s[i]);
    }
    FirstOf(key + s, '=', rest);
    assert pair[..|key + s|] == key + s && pair[|key + s| + 1..] == rest;
    TrimIs("", key, s);
    assert "" + key + s == key + s;
  }

  /** Nothing before the `=`: an error of its own. */
  lemma EmptyKeyIsBad(text: string, pair: string, rest: string, n: nat)
    requires Carries(text, pair) && Splits(pair, "", rest)
    ensures ParseLine(text, n) == Bad(EmptyKey(n))
  {
    SplitAt(text, pair, "", rest, n);
  }

  /** A blank or a tab in the key: an error of its own. */
  lemma SpaceInKeyIsBad(text: string, pair: string, key: string, rest: string, n: nat)
    requires Carries(text, pair) && Splits(pair, key, rest) && key != "" && (' ' in key || '\t' in key)
    ensures ParseLine(text, n) == Bad(SpaceInKey(n))
  {
    SplitAt(text, pair, key, rest, n);
  }

  ghost predicate KeyOk(key: string) {
    key != "" && ' ' !in key && '\t' !in key
  }

  // ---------- bare values ----------

  /** Somewhere in `s` a blank is followed by `#`. */
  ghost predicate HasMark(s: string) {
    exists i :: 0 <= i < |s| - 1 && s[i] == ' ' && s[i + 1] == '#'
  }

  lemma MarkFirst(s: string)
    ensures HasPrefix(s, " #") <==> |s| >= 2 && s[0] == ' ' && s[1] == '#'
  {
    if |s| >= 2 {
      assert s[..2] == [s[0], s[1]];
    }
  }

  lemma {:induction false} CommentAfter(v: string, c: string)
    requires !HasMark(v) && (c == "" || HasPrefix(c, " #"))
    ensures CommentStart(v + c) == |v|
  {
    if v != "" {
      var s := v + c;
      assert s[1..] == v[1..] + c;
      assert !HasMark(v[1..]) by {
        forall i | 0 <= i < |v[1..]| - 1 ensures !(v[1..][i] == ' ' && v[1..][i + 1] == '#') {
          assert v[i + 1] == v[1..][i] && v[i + 2] == v[1..][i + 1];
        }
      }
      MarkFirst(s);
      assert |v| > 1 ==> s[0 + 1] == v[0 + 1];
      CommentAfter(v[1..], c);
    } else {
      assert v + c == c;
    }
  }

  /** What may follow a bare value: nothing, or spaces, a blank, `#` and anything. */
  ghost predicate Comment(c: string) {
    c == "" || exists s, rest :: Spaces(s) && c == s + " #" + rest
  }

  ghost predicate Bare(v: string) {
    Trimmed(v) && v != "" && v[0] != '"' && v[0] != '\'' && !HasMark(v)
  }

  lemma LastOfPair(pair: string, key: string, rest: string)
    requires Trimmed(pair) && Splits(pair, key, rest) && rest != ""
    ensures !IsSpace(rest[|rest| - 1])
  {
    assert pair[|pair| - 1] == rest[|rest| - 1];
  }

  lemma BareIs(s: string, v: string, c: string)
    requires Spaces(s) && Bare(v) && Comment(c) && (c != "" ==> !IsSpace(c[|c| - 1]))
    ensures Value(s + v + c) == Ok(v)
  {
    var core := v + c;
    assert core[0] == v[0] && core[|core| - 1] == if c == "" then v[|v| - 1] else c[|c| - 1];
    TrimIs(s, core, "");
    assert s + core + "" == s + v + c;
    hide Trim, CommentStart;
    if c == "" {
      CommentAfter(v, "");
      assert v + "" == v && v[..|v|] == v;
      TrimmedIsFixed(v);
    } else {
      var t, rest :| Spaces(t) && c == t + " #" + rest;
      NoMarkInSpaces(v, t);
      CommentAfter(v + t, " #" + rest);
      assert core == (v + t) + (" #" + rest);
      assert core[..|v + t|] == v + t;
      TrimIs("", v, t);
      assert "" + v + t == v + t;
    }
  }

  lemma NoMarkInSpaces(v: string, t: string)
    requires !HasMark(v) && Spaces(t)
    ensures !HasMark(v + t)
  {
    var s := v + t;
    forall i | 0 <= i < |s| - 1 ensures !(s[i] == ' ' && s[i + 1] == '#') {
      if i + 1 < |v| {
        assert v[i] == s[i] && v[i + 1] == s[i + 1];
      } else {
        assert s[i + 1] == t[i + 1 - |v|] && IsSpace(t[i + 1 - |v|]);
      }
    }
  }

  /** A bare value is what stands before a comment; a `#` with no blank before it is kept. So is
      one that follows the `=` and spaces only. */
  lemma BareValueIsRead(text: string, pair: string, key: string, s: string, v: string, c: string, n: nat)
    requires Carries(text, pair) && Splits(pair, key, s + v + c) && KeyOk(key)
    requires Spaces(s) && Bare(v) && Comment(c)
    ensures ParseLine(text, n) == Pair(key, v)
  {
    LastOfPair(pair, key, s + v + c);
    BareIs(s, v, c);
    SplitAt(text, pair, key, s + v + c, n);
  }

  lemma CarriesItself(text: string)
    requires Trimmed(text) && text != "" && !HasPrefix(text, "#") && !HasPrefix(text, "export ")
    ensures Carries(text, text)
  {
    assert text == "" + text + "" && Spaces("");
    assert CarriesBetween(text, text, "", "", "");
  }

  lemma NotPrefixed(s: string, p: string)
    requires p != "" && TrimPrefix(s, p) == s
    ensures !HasPrefix(s, p)
  {
    assert HasPrefix(s, p) ==> |TrimPrefix(s, p)| < |s|;
  }

  lemma PlainPair(key: string, rest: string)
    requires GoodKey(key) && rest != "" && !IsSpace(rest[|rest| - 1])
    ensures Carries(key + "=" + rest, key + "=" + rest) && Splits(key + "=" + rest, key, rest) && KeyOk(key)
  {
    var text := key + "=" + rest;
    assert text[0] == key[0] && text[|text| - 1] == rest[|rest| - 1] && text[..1] == [key[0]];
    hide Carries;
    NoExport(key, rest);
    NotPrefixed(text, "export ");
    CarriesItself(text);
    assert Spaces("") && text == key + "" + "=" + rest;
    assert forall i :: 0 <= i < |key| ==> key[i] != '=' && key[i] != ' ' && key[i] != '\t';
    assert !IsSpace(key[|key| - 1]);
  }

  /** A comment right after the `=` is no comment: it becomes the value. */
  lemma CommentBecomesValue(key: string, c: string, n: nat)
    requires GoodKey(key) && Trimmed(c) && !HasMark("#" + c)
    ensures ParseLine(key + "= #" + c, n) == Pair(key, "#" + c)
  {
    hide GoodKey, Carries, Splits, ParseLine, HasMark;
    var v := "#" + c;
    assert v[|v| - 1] == if c == "" then '#' else c[|c| - 1];
    assert key + "= #" + c == key + "=" + (" " + v) && " " + v + "" == " " + v;
    PlainPair(key, " " + v);
    assert Spaces(" ") && Comment("") && Bare(v);
    BareValueIsRead(key + "=" + (" " + v), key + "=" + (" " + v), key, " ", v, "", n);
  }

  /** Nothing after the `=` is the empty value. */
  lemma EmptyValueIsRead(text: string, pair: string, key: string, n: nat)
    requires Carries(text, pair) && Splits(pair, key, "") && KeyOk(key)
    ensures ParseLine(text, n) == Pair(key, "")
  {
    TrimmedIsFixed("");
    SplitAt(text, pair, key, "", n);
  }

  // ---------- single quotes ----------

  lemma {:induction false} SingleBody(body: string, tail: string)
    requires '\'' !in body
    ensures Body(body + "'" + tail, '\'') == Ok(body) && Body(body, '\'') == Err(Unterminated)
  {
    if body != "" {
      assert body[0] in body;
      assert (body + "'" + tail)[1..] == body[1..] + "'" + tail;
      assert (body + "'" + tail)[..1] == body[..1] && body == body[..1] + body[1..];
      SingleBody(body[1..], tail);
    } else {
      assert body + "'" + tail == "'" + tail;
    }
  }

  /** Between single quotes all is literal, and what follows them is ignored. */
  lemma SingleQuotedIsLiteral(text: string, pair: string, key: string, s: string, body: string, tail: string, n: nat)
    requires Carries(text, pair) && Splits(pair, key, s + "'" + body + "'" + tail) && KeyOk(key)
    requires Spaces(s) && '\'' !in body
    ensures ParseLine(text, n) == Pair(key, body)
  {
    var rest, v := s + "'" + body + "'" + tail, "'" + body + "'" + tail;
    LastOfPair(pair, key, rest);
    QuotedTrims(s, v, rest);
    SingleBody(body, tail);
    assert v[1..] == body + "'" + tail;
    SplitAt(text, pair, key, rest, n);
  }

  lemma QuotedTrims(s: string, v: string, rest: string)
    requires Spaces(s) && v != "" && !IsSpace(v[0]) && !IsSpace(v[|v| - 1]) && rest == s + v
    ensures Trim(rest) == v
  {
    TrimIs(s, v, "");
    assert s + v + "" == s + v;
  }

  /** A single quote that is never closed: an error of its own. */
  lemma OpenSingleQuoteIsBad(text: string, pair: string, key: string, s: string, body: string, n: nat)
    requires Carries(text, pair) && Splits(pair, key, s + "'" + body) && KeyOk(key)
    requires Spaces(s) && '\'' !in body
    ensures ParseLine(text, n) == Bad(BadValue(n))
  {
    var rest, v := s + "'" + body, "'" + body;
    LastOfPair(pair, key, rest);
    QuotedTrims(s, v, rest);
    SingleBody(body, "");
    assert v[1..] == body;
    SplitAt(text, pair, key, rest, n);
  }

  // ---------- double quotes ----------

  /** What can stand between double quotes: characters, and backslashes each with the next one. */
  datatype Piece = Plain(c: char) | Backslash(c: char)

  ghost predicate Pieces(ps: seq<Piece>) {
    forall p :: p in ps && p.Plain? ==> p.c != '"' && p.c != '\\'
  }

  function Spelled(ps: seq<Piece>): string {
    if ps == [] then ""
    else (if ps[0].Plain? then [ps[0].c] else ['\\', ps[0].c]) + Spelled(ps[1..])
  }

  /** A line feed, a carriage return, a tab, a backslash and a quote have escapes; any other
      backslash stays, with what follows it. */
  function Meaning(ps: seq<Piece>): string {
    if ps == [] then "" else
      (match ps[0]
       case Plain(c) => [c]
       case Backslash(c) =>
         if c == 'n' then "\n"
         else if c == 'r' then "\r"
         else if c == 't' then "\t"
         else if c == '\\' || c == '"' then [c]
         else ['\\', c]) + Meaning(ps[1..])
  }

  lemma {:induction false} DoubleBody(ps: seq<Piece>, tail: string)
    requires Pieces(ps)
    ensures Body(Spelled(ps) + "\"" + tail, '"') == Ok(Spelled(ps))
  {
    var text := Spelled(ps) + "\"" + tail;
    if ps != [] {
      assert ps[0] in ps;
      DoubleBody(ps[1..], tail);
      var k := if ps[0].Plain? then 1 else 2;
      assert text[k..] == Spelled(ps[1..]) + "\"" + tail;
      assert text[..k] + Spelled(ps[1..]) == Spelled(ps);
    } else {
      assert text == "\"" + tail;
    }
  }

  lemma UnescapePlain(c: char, rest: string)
    requires c != '\\'
    ensures Unescape([c] + rest) == [c] + Unescape(rest)
  {
    assert ([c] + rest)[1..] == rest;
  }

  lemma UnescapePair(c: char, rest: string)
    ensures Unescape(['\\', c] + rest) == Unescaped(c) + Unescape(rest)
  {
    assert (['\\', c] + rest)[2..] == rest;
  }

  lemma {:induction false} UnescapedIs(ps: seq<Piece>)
    requires Pieces(ps)
    ensures Unescape(Spelled(ps)) == Meaning(ps)
  {
    hide Unescape;
    if ps != [] {
      assert ps[0] in ps;
      UnescapedIs(ps[1..]);
      if ps[0].Plain? {
        UnescapePlain(ps[0].c, Spelled(ps[1..]));
      } else {
        UnescapePair(ps[0].c, Spelled(ps[1..]));
      }
    } else {
      UnescapeNothing();
    }
  }

  lemma UnescapeNothing()
    ensures Unescape("") == ""
  {
  }

  /** Between double quotes escapes mean what they mean, and what follows the quotes is ignored. */
  lemma DoubleQuotedIsRead(text: string, pair: string, key: string, s: string, ps: seq<Piece>, tail: string, n: nat)
    requires Carries(text, pair) && Splits(pair, key, s + "\"" + Spelled(ps) + "\"" + tail) && KeyOk(key)
    requires Spaces(s) && Pieces(ps)
    ensures ParseLine(text, n) == Pair(key, Meaning(ps))
  {
    var rest, v := s + "\"" + Spelled(ps) + "\"" + tail, "\"" + Spelled(ps) + "\"" + tail;
    LastOfPair(pair, key, rest);
    QuotedTrims(s, v, rest);
    DoubleBody(ps, tail);
    UnescapedIs(ps);
    assert v[1..] == Spelled(ps) + "\"" + tail;
    SplitAt(text, pair, key, rest, n);
  }

  lemma {:induction false} OpenBody(ps: seq<Piece>, end: string)
    requires Pieces(ps) && (end == "" || end == "\\")
    ensures Body(Spelled(ps) + end, '"') == Err(Unterminated)
  {
    var text := Spelled(ps) + end;
    if ps != [] {
      assert ps[0] in ps;
      OpenBody(ps[1..], end);
      var k := if ps[0].Plain? then 1 else 2;
      assert text[k..] == Spelled(ps[1..]) + end;
    } else if end != "" {
      assert text[1..] == "";
    }
  }

  /** A double quote that is never closed: an error of its own. */
  lemma OpenDoubleQuoteIsBad(text: string, pair: string, key: string, s: string, ps: seq<Piece>, end: string, n: nat)
    requires Carries(text, pair) && Splits(pair, key, s + "\"" + Spelled(ps) + end) && KeyOk(key)
    requires Spaces(s) && Pieces(ps) && (end == "" || end == "\\")
    ensures ParseLine(text, n) == Bad(BadValue(n))
  {
    var rest, v := s + "\"" + Spelled(ps) + end, "\"" + Spelled(ps) + end;
    LastOfPair(pair, key, rest);
    QuotedTrims(s, v, rest);
    OpenBody(ps, end);
    assert v[1..] == Spelled(ps) + end;
    SplitAt(text, pair, key, rest, n);
  }

  // ---------- what is printed ----------

  lemma {:induction false} EscapeFits(v: string)
    ensures |Escape(v)| >= |v|
  {
    if v != "" {
      EscapeFits(v[1..]);
    }
  }

  /** A value is printed bare exactly when it holds no blank, tab, line feed, carriage return, quote,
      `#` or backslash; otherwise it is printed between double quotes. */
  lemma PrintedBareIff(v: string)
    ensures Quote(v) == v <==> forall c :: c in v ==> c !in {' ', '\t', '\n', '\r', '"', '\'', '#', '\\'}
    ensures Quote(v) != v ==> |Quote(v)| >= |v| + 2 && Quote(v)[0] == '"' && Quote(v)[|Quote(v)| - 1] == '"'
  {
    EscapeFits(v);
    if IsQuoted(v) {
      var i :| 0 <= i < |v| && NeedsQuoting(v[i]);
      assert v[i] in v;
      assert v[i] in {' ', '\t', '\n', '\r', '"', '\'', '#', '\\'};
    } else {
      forall c | c in v ensures c !in {' ', '\t', '\n', '\r', '"', '\'', '#', '\\'} {
        var i :| 0 <= i < |v| && v[i] == c;
        assert !NeedsQuoting(v[i]);
      }
    }
  }

  // ---------- spaces ----------

  /** The spaces that are trimmed, by code point: those of Unicode's White_Space property. */
  lemma SpacesAre(c: char)
    ensures IsSpace(c) <==>
              || 9 <= c as int <= 13 || 0x2000 <= c as int <= 0x200A
              || c as int in {32, 0x85, 0xA0, 0x1680, 0x2028, 0x2029, 0x202F, 0x205F, 0x3000}
  {
  }
}
