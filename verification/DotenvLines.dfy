/** Every line of a .env file has one of the forms of the rules, so that each error comes for
    exactly its lines; and what a whole file is read as. */
module DotenvLines {
  import opened Dotenv
  import opened DotenvRoundTrip
  import opened DotenvRules

  ghost predicate IsComment(text: string) {
    exists a, rest :: Spaces(a) && text == a + "#" + rest
  }

  ghost predicate BareForm(rest: string) {
    exists s, v, c :: Spaces(s) && Bare(v) && Comment(c) && rest == s + v + c
  }

  ghost predicate SingleForm(rest: string) {
    exists s, body, tail :: Spaces(s) && '\'' !in body && rest == s + "'" + body + "'" + tail
  }

  ghost predicate OpenSingle(rest: string) {
    exists s, body :: Spaces(s) && '\'' !in body && rest == s + "'" + body
  }

  ghost predicate DoubleForm(rest: string) {
    exists s, ps, tail :: Spaces(s) && Pieces(ps) && rest == s + "\"" + Spelled(ps) + "\"" + tail
  }

  ghost predicate OpenDouble(rest: string) {
    exists s, ps, end :: Spaces(s) && Pieces(ps) && (end == "" || end == "\\") && rest == s + "\"" + Spelled(ps) + end
  }

  /** A quote that is never closed. */
  ghost predicate OpenQuote(rest: string) {
    OpenSingle(rest) || OpenDouble(rest)
  }

  // ---------- every right-hand side ----------

  lemma {:induction false} SplitPieces(t: string) returns (ps: seq<Piece>, closed: bool, rest: string)
    ensures Pieces(ps) && t == Spelled(ps) + rest
    ensures if closed then HasPrefix(rest, "\"") else rest == "" || rest == "\\"
  {
    if t == "" || t == "\\" {
      ps, closed, rest := [], false, t;
    } else if t[0] == '"' {
      ps, closed, rest := [], true, t;
      assert t[..1] == "\"";
    } else {
      var p, k := if t[0] == '\\' then Backslash(t[1]) else Plain(t[0]), if t[0] == '\\' then 2 else 1;
      ps, closed, rest := SplitPieces(t[k..]);
      ps := [p] + ps;
      assert ps[1..] == ps[1..] && Spelled(ps) == t[..k] + Spelled(ps[1..]);
      assert t == t[..k] + t[k..];
    }
  }

  lemma {:induction false} FirstMark(v: string) returns (i: nat)
    requires HasMark(v)
    ensures i + 1 < |v| && v[i] == ' ' && v[i + 1] == '#' && !HasMark(v[..i])
  {
    if v[0] == ' ' && v[1] == '#' {
      i := 0;
    } else {
      var j :| 0 <= j < |v| - 1 && v[j] == ' ' && v[j + 1] == '#';
      assert v[1..][j - 1] == ' ' && v[1..][j - 1 + 1] == '#';
      i := FirstMark(v[1..]);
      i := i + 1;
      forall k | 0 <= k < i - 1 ensures !(v[..i][k] == ' ' && v[..i][k + 1] == '#') {
        if k > 0 {
          assert v[..i][k] == v[1..][..i - 1][k - 1] && v[..i][k + 1] == v[1..][..i - 1][k - 1 + 1];
        }
      }
    }
  }

  lemma NoMarkInPrefix(v: string, n: nat)
    requires n <= |v| && !HasMark(v)
    ensures !HasMark(v[..n])
  {
    forall i | 0 <= i < n - 1 ensures !(v[..n][i] == ' ' && v[..n][i + 1] == '#') {
      assert v[i] == v[..n][i] && v[i + 1] == v[..n][i + 1];
    }
  }

  /** Only behind, when the text begins with something else than a space. */
  lemma {:induction false} TrimBehind(s: string) returns (b: string)
    requires s != "" && !IsSpace(s[0])
    ensures s == Trim(s) + b && Spaces(b) && Trimmed(Trim(s)) && Trim(s) != ""
    decreases |s|
  {
    if IsSpace(s[|s| - 1]) {
      var front := s[..|s| - 1];
      b := TrimBehind(front);
      TrimWithoutLast(s);
      b := b + [s[|s| - 1]];
      assert s == front + [s[|s| - 1]];
    } else {
      b := "";
      TrimmedIsFixed(s);
    }
  }

  /** Only before, when it ends with something else. */
  lemma {:induction false} TrimBefore(s: string) returns (a: string)
    requires s != "" && !IsSpace(s[|s| - 1])
    ensures s == a + Trim(s) && Spaces(a) && Trimmed(Trim(s)) && Trim(s) != ""
    decreases |s|
  {
    if IsSpace(s[0]) {
      a := TrimBefore(s[1..]);
      a := [s[0]] + a;
      assert s == [s[0]] + s[1..];
    } else {
      a := "";
      TrimmedIsFixed(s);
    }
  }

  lemma BareSplits(s: string, v: string)
    requires Spaces(s) && Trimmed(v) && v != "" && v[0] != '"' && v[0] != '\''
    ensures BareForm(s + v)
  {
    if HasMark(v) {
      var i := FirstMark(v);
      var head := v[..i];
      assert i > 0;
      assert head[0] == v[0];
      var t := TrimBehind(head);
      var core := Trim(head);
      assert core == head[..|core|];
      NoMarkInPrefix(head, |core|);
      var c := t + " #" + v[i + 2..];
      assert v == head + " #" + v[i + 2..];
      assert core[0] == v[0];
      assert Bare(core) && Comment(c) && s + v == s + core + c;
    } else {
      assert Comment("") && s + v == s + v + "";
    }
  }

  lemma QuotedSplits(s: string, v: string)
    requires Spaces(s) && v != "" && (v[0] == '"' || v[0] == '\'')
    ensures SingleForm(s + v) || DoubleForm(s + v) || OpenQuote(s + v)
  {
    var t := v[1..];
    assert v == [v[0]] + t;
    if v[0] == '\'' {
      var i := IndexOf(t, '\'');
      var body := t[..i];
      assert '\'' !in body;
      if i < |t| {
        assert t == body + "'" + t[i + 1..];
        assert s + v == s + "'" + body + "'" + t[i + 1..];
      } else {
        assert body == t;
        assert s + v == s + "'" + body;
      }
    } else {
      var ps, closed, rest := SplitPieces(t);
      if closed {
        assert rest == "\"" + rest[1..];
        assert s + v == s + "\"" + Spelled(ps) + "\"" + rest[1..];
      } else {
        assert s + v == s + "\"" + Spelled(ps) + rest;
      }
    }
  }

  /** A right-hand side that does not end in a space is empty, bare, quoted, or an open quote. */
  lemma RestHasForm(rest: string)
    requires rest == "" || !IsSpace(rest[|rest| - 1])
    ensures rest == "" || BareForm(rest) || SingleForm(rest) || DoubleForm(rest) || OpenQuote(rest)
  {
    if rest != "" {
      var a := TrimBefore(rest);
      var v := Trim(rest);
      if v[0] == '"' || v[0] == '\'' {
        QuotedSplits(a, v);
      } else {
        BareSplits(a, v);
      }
    }
  }

  // ---------- every line ----------

  /** The key and what follows the first `=`. */
  lemma PairSplits(pair: string) returns (key: string, rest: string)
    requires Trimmed(pair) && pair != "" && '=' in pair
    ensures Splits(pair, key, rest) && (rest == "" || !IsSpace(rest[|rest| - 1]))
  {
    var i := IndexOf(pair, '=');
    assert i < |pair| by {
      var j :| 0 <= j < |pair| && pair[j] == '=';
    }
    var k0 := pair[..i];
    rest := pair[i + 1..];
    assert pair == k0 + "=" + rest;
    assert rest != "" ==> rest[|rest| - 1] == pair[|pair| - 1];
    var s := "";
    if k0 == "" {
      key := "";
    } else {
      assert k0[0] == pair[0];
      s := TrimBehind(k0);
      key := Trim(k0);
      assert forall x :: x in key ==> x in k0;
    }
    assert '=' !in key && pair == key + s + "=" + rest;
  }

  ghost predicate CarriesSome(text: string) {
    exists pair :: Carries(text, pair)
  }

  lemma CarriesWithin(text: string, a: string, core: string, b: string)
    requires text == a + core + b && Spaces(a) && Spaces(b) && Trimmed(core) && core != "" && !HasPrefix(core, "#")
    ensures CarriesSome(text)
  {
    if HasPrefix(core, "export ") {
      var after := core[7..];
      assert core == "export " + after;
      assert after != "" by {
        assert core[6] == "export "[6] == ' ';
      }
      assert after[|after| - 1] == core[|core| - 1];
      var s := TrimBefore(after);
      assert core == "export " + s + Trim(after);
      assert CarriesBetween(text, Trim(after), a, b, s);
      assert Carries(text, Trim(after));
    } else {
      assert Spaces("") && CarriesBetween(text, core, a, b, "");
      assert Carries(text, core);
    }
  }

  /** Every line is blank, a comment, or carries a pair. */
  lemma LineHasForm(text: string)
    ensures Spaces(text) || IsComment(text) || CarriesSome(text)
  {
    var a, b := TrimSplits(text);
    var core := Trim(text);
    if core == "" {
      assert text == a + b;
    } else if HasPrefix(core, "#") {
      assert core == "#" + core[1..];
      assert text == a + "#" + (core[1..] + b);
    } else {
      CarriesWithin(text, a, core, b);
    }
  }

  // ---------- which lines are errors ----------

  ghost predicate Unsplit(text: string) {
    exists pair :: Carries(text, pair) && '=' !in pair
  }

  ghost predicate Keyless(text: string) {
    exists pair, rest :: Carries(text, pair) && Splits(pair, "", rest)
  }

  ghost predicate Spaced(text: string) {
    exists pair, key, rest ::
      Carries(text, pair) && Splits(pair, key, rest) && key != "" && (' ' in key || '\t' in key)
  }

  ghost predicate Unclosed(text: string) {
    exists pair, key, rest :: Carries(text, pair) && Splits(pair, key, rest) && KeyOk(key) && OpenQuote(rest)
  }

  ghost predicate Reads(text: string) {
    exists pair, key, rest :: Carries(text, pair) && Splits(pair, key, rest) && KeyOk(key) &&
      (rest == "" || BareForm(rest) || SingleForm(rest) || DoubleForm(rest))
  }

  lemma SkippedIs(text: string, n: nat)
    requires Spaces(text) || IsComment(text)
    ensures ParseLine(text, n) == Skip
  {
    if Spaces(text) {
      SkipsBlank(text, "", n);
    } else {
      var a, rest :| Spaces(a) && text == a + "#" + rest;
      SkipsBlank(a, rest, n);
    }
  }

  lemma UnclosedIsBad(text: string, pair: string, key: string, rest: string, n: nat)
    requires Carries(text, pair) && Splits(pair, key, rest) && KeyOk(key) && OpenQuote(rest)
    ensures ParseLine(text, n) == Bad(BadValue(n))
  {
    if OpenSingle(rest) {
      var s, body :| Spaces(s) && '\'' !in body && rest == s + "'" + body;
      OpenSingleQuoteIsBad(text, pair, key, s, body, n);
    } else {
      var s, ps, end :| Spaces(s) && Pieces(ps) && (end == "" || end == "\\") && rest == s + "\"" + Spelled(ps) + end;
      OpenDoubleQuoteIsBad(text, pair, key, s, ps, end, n);
    }
  }

  lemma ReadIsPair(text: string, pair: string, key: string, rest: string, n: nat)
    requires Carries(text, pair) && Splits(pair, key, rest) && KeyOk(key)
    requires rest == "" || BareForm(rest) || SingleForm(rest) || DoubleForm(rest)
    ensures ParseLine(text, n).Pair?
  {
    if rest == "" {
      EmptyValueIsRead(text, pair, key, n);
    } else if BareForm(rest) {
      var s, v, c :| Spaces(s) && Bare(v) && Comment(c) && rest == s + v + c;
      BareValueIsRead(text, pair, key, s, v, c, n);
    } else if SingleForm(rest) {
      var s, body, tail :| Spaces(s) && '\'' !in body && rest == s + "'" + body + "'" + tail;
      SingleQuotedIsLiteral(text, pair, key, s, body, tail, n);
    } else {
      var s, ps, tail :| Spaces(s) && Pieces(ps) && rest == s + "\"" + Spelled(ps) + "\"" + tail;
      DoubleQuotedIsRead(text, pair, key, s, ps, tail, n);
    }
  }

  /** Each form of a line decides what it is read as. */
  lemma FormsDecide(text: string, n: nat)
    ensures Spaces(text) || IsComment(text) ==> ParseLine(text, n) == Skip
    ensures Unsplit(text) ==> ParseLine(text, n) == Bad(NotKeyValue(n))
    ensures Keyless(text) ==> ParseLine(text, n) == Bad(EmptyKey(n))
    ensures Spaced(text) ==> ParseLine(text, n) == Bad(SpaceInKey(n))
    ensures Unclosed(text) ==> ParseLine(text, n) == Bad(BadValue(n))
    ensures Reads(text) ==> ParseLine(text, n).Pair?
  {
    hide ParseLine, Carries, Splits, OpenQuote, BareForm, SingleForm, DoubleForm, IsComment;
    if Spaces(text) || IsComment(text) { SkippedIs(text, n); }
    if pair :| Carries(text, pair) && '=' !in pair { NoEquals(text, pair, n); }
    if pair, rest :| Carries(text, pair) && Splits(pair, "", rest) { EmptyKeyIsBad(text, pair, rest, n); }
    if pair, key, rest :| Carries(text, pair) && Splits(pair, key, rest) && key != "" && (' ' in key || '\t' in key) {
      SpaceInKeyIsBad(text, pair, key, rest, n);
    }
    if pair, key, rest :| Carries(text, pair) && Splits(pair, key, rest) && KeyOk(key) && OpenQuote(rest) {
      UnclosedIsBad(text, pair, key, rest, n);
    }
    if Reads(text) {
      var pair, key, rest :| Carries(text, pair) && Splits(pair, key, rest) && KeyOk(key) &&
                             (rest == "" || BareForm(rest) || SingleForm(rest) || DoubleForm(rest));
      ReadIsPair(text, pair, key, rest, n);
    }
  }

  lemma SomeFormHolds(text: string)
    ensures || Spaces(text) || IsComment(text) || Unsplit(text) || Keyless(text) || Spaced(text)
            || Unclosed(text) || Reads(text)
  {
    hide Splits, OpenQuote, BareForm, SingleForm, DoubleForm, IsComment;
    LineHasForm(text);
    if CarriesSome(text) {
      var pair :| Carries(text, pair);
      if '=' in pair {
        var key, rest := PairSplits(pair);
        RestHasForm(rest);
      }
    }
  }

  /** Exactly which lines are skipped, which are errors, and which. */
  lemma LineIff(text: string, n: nat)
    ensures ParseLine(text, n) == Skip <==> Spaces(text) || IsComment(text)
    ensures ParseLine(text, n) == Bad(NotKeyValue(n)) <==> Unsplit(text)
    ensures ParseLine(text, n) == Bad(EmptyKey(n)) <==> Keyless(text)
    ensures ParseLine(text, n) == Bad(SpaceInKey(n)) <==> Spaced(text)
    ensures ParseLine(text, n) == Bad(BadValue(n)) <==> Unclosed(text)
    ensures ParseLine(text, n).Pair? <==> Reads(text)
  {
    hide ParseLine, Spaces, IsComment, Unsplit, Keyless, Spaced, Unclosed, Reads;
    FormsDecide(text, n);
    SomeFormHolds(text);
  }

  // ---------- whole files ----------

  /** The last of the lines that sets the key. */
  ghost predicate LastSets(lines: seq<string>, i: nat, key: string)
    requires i < |lines|
  {
    && ParseLine(lines[i], i + 1).Pair? && ParseLine(lines[i], i + 1).key == key
    && forall j :: i < j < |lines| && ParseLine(lines[j], j + 1).Pair? ==> ParseLine(lines[j], j + 1).key != key
  }

  ghost predicate Fails(lines: seq<string>, i: nat)
    requires i < |lines|
  {
    ParseLine(lines[i], i + 1).Bad?
  }

  /** No line before `i` is an error, but line `i` is. */
  ghost predicate FirstFails(lines: seq<string>, i: nat)
    requires i < |lines|
  {
    Fails(lines, i) && forall j :: 0 <= j < i ==> !Fails(lines, j)
  }

  lemma FailsFront(lines: seq<string>, i: nat)
    requires i < |lines| - 1
    ensures Fails(lines[..|lines| - 1], i) == Fails(lines, i)
    ensures FirstFails(lines[..|lines| - 1], i) == FirstFails(lines, i)
  {
    var front := lines[..|lines| - 1];
    forall j | 0 <= j <= i ensures Fails(front, j) == Fails(lines, j) {
      assert front[j] == lines[j];
    }
  }

  lemma {:induction false} FileFails(lines: seq<string>)
    ensures ParseLines(lines).Ok? ==> forall i :: 0 <= i < |lines| ==> !Fails(lines, i)
    ensures ParseLines(lines).Err? ==>
              exists i :: 0 <= i < |lines| && FirstFails(lines, i) &&
                          ParseLines(lines) == Err(ParseLine(lines[i], i + 1).error)
  {
    hide ParseLine;
    if lines != [] {
      var n := |lines| - 1;
      var front := lines[..n];
      FileFails(front);
      forall i | 0 <= i < n ensures Fails(front, i) == Fails(lines, i) && FirstFails(front, i) == FirstFails(lines, i) {
        FailsFront(lines, i);
      }
      if ParseLines(front).Err? {
        var i :| 0 <= i < n && FirstFails(front, i) && ParseLines(front) == Err(ParseLine(front[i], i + 1).error);
        assert FirstFails(lines, i) && front[i] == lines[i];
      } else if ParseLines(lines).Err? {
        assert FirstFails(lines, n);
      }
    }
  }

  lemma SetsFront(lines: seq<string>, i: nat, key: string)
    requires i < |lines| - 1
    ensures var n := |lines| - 1;
            var last := ParseLine(lines[n], n + 1);
            LastSets(lines, i, key) <==> LastSets(lines[..n], i, key) && !(last.Pair? && last.key == key)
  {
    hide ParseLine;
    var front := lines[..|lines| - 1];
    assert forall j :: 0 <= j < |front| ==> front[j] == lines[j];
  }

  lemma {:induction false} FileHolds(lines: seq<string>, key: string)
    requires ParseLines(lines).Ok?
    ensures key in ParseLines(lines).value ==>
              exists i :: 0 <= i < |lines| && LastSets(lines, i, key) &&
                          ParseLines(lines).value[key] == ParseLine(lines[i], i + 1).value
    ensures key !in ParseLines(lines).value ==> forall i :: 0 <= i < |lines| ==> !LastSets(lines, i, key)
  {
    hide ParseLine;
    if lines != [] {
      var n := |lines| - 1;
      var front, last := lines[..n], ParseLine(lines[n], n + 1);
      FileHolds(front, key);
      forall i | 0 <= i < n
        ensures LastSets(lines, i, key) <==> LastSets(front, i, key) && !(last.Pair? && last.key == key)
      {
        SetsFront(lines, i, key);
      }
      if last.Pair? && last.key == key {
        assert LastSets(lines, n, key);
      } else if key in ParseLines(front).value {
        var i :| 0 <= i < n && LastSets(front, i, key) &&
                 ParseLines(front).value[key] == ParseLine(front[i], i + 1).value;
        assert LastSets(lines, i, key) && front[i] == lines[i];
      }
    }
  }

  /** What a successful parse says of one key: the value of the last line that sets it. */
  ghost predicate Holds(lines: seq<string>, read: map<string, string>, key: string) {
    if key in read then
      exists i :: 0 <= i < |lines| && LastSets(lines, i, key) && read[key] == ParseLine(lines[i], i + 1).value
    else forall i :: 0 <= i < |lines| ==> !LastSets(lines, i, key)
  }

  /** A file is read as an error exactly when some line is one, and then as the first such line's;
      otherwise each key has the value of the last line that sets it, and no other key is set. */
  lemma FileIs(text: string)
    ensures var lines := Lines(text);
            match Parse(text)
            case Err(e) => exists i :: 0 <= i < |lines| && FirstFails(lines, i) && ParseLine(lines[i], i + 1) == Bad(e)
            case Ok(read) =>
              (forall i :: 0 <= i < |lines| ==> !Fails(lines, i)) && forall key :: Holds(lines, read, key)
  {
    hide ParseLine, Lines;
    var lines := Lines(text);
    FileFails(lines);
    if Parse(text).Ok? {
      forall key ensures Holds(lines, Parse(text).value, key) {
        FileHolds(lines, key);
      }
    } else {
      var i :| 0 <= i < |lines| && FirstFails(lines, i) && ParseLines(lines) == Err(ParseLine(lines[i], i + 1).error);
      assert Parse(text).error == ParseLine(lines[i], i + 1).error && FirstFails(Lines(text), i);
    }
  }

  /** The lines of a text are what its line feeds part; the last needs none. */
  lemma LastLineNeedsNoBreak(text: string, line: string)
    requires text == [] || text[|text| - 1] == '\n'
    requires NoBreak(line)
    ensures Lines(text + line + "\n") == Lines(text) + [line]
    ensures line != "" ==> Lines(text + line) == Lines(text) + [line]
  {
    LinesAppend(text, line);
    if line != "" {
      OpenLine(text, line);
    }
  }

  lemma {:induction false} OpenLine(text: string, line: string)
    requires text == [] || text[|text| - 1] == '\n'
    requires NoBreak(line) && line != ""
    ensures Lines(text + line) == Lines(text) + [line]
    decreases |text|
  {
    hide Lines;
    NoLines();
    if text == [] {
      assert text + line == line;
      LoneLine(line);
    } else {
      var i := IndexOf(text, '\n');
      var first, rest := text[..i], text[i + 1..];
      assert text == first + "\n" + rest;
      assert text + line == first + "\n" + (rest + line);
      LinesFirst(first, rest);
      LinesFirst(first, rest + line);
      OpenLine(rest, line);
    }
  }

  lemma LoneLine(line: string)
    requires NoBreak(line) && line != ""
    ensures Lines(line) == [line]
  {
  }
}
