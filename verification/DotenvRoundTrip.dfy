/** What the printer writes, the parser reads back. */
module DotenvRoundTrip {
  import opened Dotenv

  /** No space at either end. */
  predicate Trimmed(s: string) {
    s == [] || (!IsSpace(s[0]) && !IsSpace(s[|s| - 1]))
  }

  /** A key the line format can carry. */
  ghost predicate GoodKey(k: string) {
    k != "" && k[0] != '#' && forall i :: 0 <= i < |k| ==> !IsSpace(k[i]) && k[i] != '='
  }

  /** A value whose printed form keeps it: quoted, or without a space at its ends. Only a space
      other than blank, tab, LF and CR can stand at the end of an unquoted value. */
  predicate Survives(v: string) {
    IsQuoted(v) || Trimmed(v)
  }

  /** In particular every value without such other spaces. */
  lemma CommonSpacesSurvive(v: string)
    requires forall i :: 0 <= i < |v| && IsSpace(v[i]) ==> v[i] == ' ' || v[i] == '\t' || v[i] == '\n' || v[i] == '\r'
    ensures Survives(v)
  {
    if v != [] && IsSpace(v[0]) {
      assert NeedsQuoting(v[0]);
    }
    if v != [] && IsSpace(v[|v| - 1]) {
      assert NeedsQuoting(v[|v| - 1]);
    }
  }

  // ---------- trimming ----------

  lemma TrimmedIsFixed(s: string)
    ensures Trim(s) == s <==> Trimmed(s)
  {
    DropLeftShrinks(s);
    DropRightShrinks(DropLeft(s));
    DropRightShrinks(s);
  }

  lemma {:induction false} DropLeftShrinks(s: string)
    ensures |DropLeft(s)| <= |s|
    ensures s != [] && IsSpace(s[0]) ==> |DropLeft(s)| < |s|
  {
    if s != [] && IsSpace(s[0]) {
      DropLeftShrinks(s[1..]);
    }
  }

  lemma {:induction false} DropRightShrinks(s: string)
    ensures |DropRight(s)| <= |s|
    ensures s != [] && IsSpace(s[|s| - 1]) ==> |DropRight(s)| < |s|
  {
    if s != [] && IsSpace(s[|s| - 1]) {
      DropRightShrinks(s[..|s| - 1]);
    }
  }

  lemma {:induction false} DropRightAfter(a: string, b: string)
    requires a != "" && !IsSpace(a[|a| - 1])
    ensures DropRight(a + b) == a + DropRight(b)
  {
    if b != [] && IsSpace(b[|b| - 1]) {
      assert (a + b)[..|a + b| - 1] == a + b[..|b| - 1];
      DropRightAfter(a, b[..|b| - 1]);
    } else if b == [] {
      assert a + b == a;
    }
  }

  lemma {:induction false} DropRightTwice(s: string)
    ensures DropRight(DropRight(s)) == DropRight(s)
  {
    if s != [] && IsSpace(s[|s| - 1]) {
      DropRightTwice(s[..|s| - 1]);
    }
  }

  /** Trimming the line first does not change the trimmed value. */
  lemma {:induction false} TrimDropRight(s: string)
    ensures Trim(DropRight(s)) == Trim(s)
    decreases |s|
  {
    if s != [] && IsSpace(s[|s| - 1]) {
      var front := s[..|s| - 1];
      TrimDropRight(front);
      TrimWithoutLast(s);
    }
  }

  lemma {:induction false} TrimWithoutLast(s: string)
    requires s != [] && IsSpace(s[|s| - 1])
    ensures Trim(s) == Trim(s[..|s| - 1])
  {
    if IsSpace(s[0]) {
      if |s| > 1 {
        assert s[1..][..|s[1..]| - 1] == s[..|s| - 1][1..];
        TrimWithoutLast(s[1..]);
      }
    }
  }

  // ---------- values ----------

  lemma EscapedChar(c: char)
    ensures || (Escaped(c) == [c] && c != '\\' && c != '"')
            || (|Escaped(c)| == 2 && Escaped(c)[0] == '\\' && Unescaped(Escaped(c)[1]) == [c])
    ensures forall i :: 0 <= i < |Escaped(c)| ==> Escaped(c)[i] != '\n' && Escaped(c)[i] != '\r'
  {
  }

  /** The closing quote found is the one the printer wrote. */
  lemma {:induction false} BodyOfEscape(v: string)
    ensures Body(Escape(v) + "\"", '"') == Ok(Escape(v))
  {
    if v != [] {
      var e, rest := Escaped(v[0]), Escape(v[1..]) + "\"";
      BodyOfEscape(v[1..]);
      EscapedChar(v[0]);
      var s := Escape(v) + "\"";
      assert s == e + rest;
      assert s[..|e|] == e && s[|e|..] == rest;
    } else {
      assert Escape(v) + "\"" == "\"";
    }
  }

  lemma {:induction false} UnescapeOfEscape(v: string)
    ensures Unescape(Escape(v)) == v
  {
    if v != [] {
      var e, rest := Escaped(v[0]), Escape(v[1..]);
      UnescapeOfEscape(v[1..]);
      EscapedChar(v[0]);
      assert (e + rest)[|e|..] == rest;
      assert (e + rest)[..1] == e[..1];
    }
  }

  lemma {:induction false} NoComment(v: string)
    requires forall i :: 0 <= i < |v| ==> v[i] != ' '
    ensures CommentStart(v) == |v|
  {
    if v != [] {
      assert |v| > 1 ==> v[..2][0] == v[0];
      NoComment(v[1..]);
    }
  }

  lemma QuotedValue(v: string)
    requires IsQuoted(v)
    ensures Value(Quote(v)) == Ok(v)
  {
    var q := Quote(v);
    TrimmedIsFixed(q);
    assert q[1..] == Escape(v) + "\"";
    BodyOfEscape(v);
    UnescapeOfEscape(v);
  }

  lemma TrimTwice(s: string)
    ensures Trim(Trim(s)) == Trim(s) && (Trim(s) != "" ==> Trim(s)[0] in s)
    ensures forall x :: x in Trim(s) ==> x in s
  {
    DropLeftHas(s);
    DropRightHas(DropLeft(s));
    TrimmedIsFixed(Trim(s));
  }

  lemma {:induction false} DropLeftHas(s: string)
    ensures forall x :: x in DropLeft(s) ==> x in s
    ensures DropLeft(s) == [] || !IsSpace(DropLeft(s)[0])
  {
    if s != [] && IsSpace(s[0]) {
      DropLeftHas(s[1..]);
    }
  }

  lemma {:induction false} DropRightHas(s: string)
    ensures forall x :: x in DropRight(s) ==> x in s
    ensures DropRight(s) == [] || (!IsSpace(DropRight(s)[|DropRight(s)| - 1]) && DropRight(s)[0] == s[0])
  {
    if s != [] && IsSpace(s[|s| - 1]) {
      DropRightHas(s[..|s| - 1]);
    }
  }

  /** A bare value comes back trimmed. */
  lemma BareValue(v: string)
    requires !IsQuoted(v)
    ensures Value(Quote(v)) == Ok(Trim(v))
  {
    var t := Trim(v);
    TrimTwice(v);
    forall x | x in t ensures !NeedsQuoting(x) {
      var i :| 0 <= i < |v| && v[i] == x;
    }
    if t != "" {
      assert !NeedsQuoting(t[0]);
      forall i | 0 <= i < |t| ensures t[i] != ' ' {
        assert t[i] in t;
      }
      NoComment(t);
      assert t[..|t|] == t;
    }
  }

  /** A printed value is read back unchanged exactly when it survives. */
  lemma ValueRoundTrip(v: string)
    ensures Value(Quote(v)) == Ok(v) <==> Survives(v)
  {
    if IsQuoted(v) {
      QuotedValue(v);
    } else {
      BareValue(v);
      TrimmedIsFixed(v);
    }
  }

  // ---------- lines ----------

  /** What the parser makes of a printed value. */
  function Readback(v: string): string {
    if IsQuoted(v) then v else Trim(v)
  }

  lemma TrimLine(key: string, q: string)
    requires GoodKey(key) && (q == "" || q[|q| - 1] != '\r')
    ensures Trim(TrimCR(key + "=" + q)) == key + "=" + DropRight(q)
  {
    var line := key + "=" + q;
    assert line[0] == key[0] && !IsSpace(key[0]);
    assert line[|line| - 1] == if q == "" then '=' else q[|q| - 1];
    DropRightAfter(key + "=", q);
  }

  lemma NoExport(key: string, rest: string)
    requires GoodKey(key)
    ensures TrimPrefix(key + "=" + rest, "export ") == key + "=" + rest
  {
    var line := key + "=" + rest;
    if |line| >= 7 {
      var head := line[..7];
      if |key| < 7 {
        assert head[|key|] == '=';
      } else {
        assert head[6] == key[6] && !IsSpace(key[6]);
      }
      assert head != "export ";
    }
  }

  lemma FirstEquals(key: string, rest: string)
    requires GoodKey(key)
    ensures IndexOf(key + "=" + rest, '=') == |key|
  {
    var line := key + "=" + rest;
    var i := IndexOf(line, '=');
    assert line[|key|] == '=';
    assert forall j :: 0 <= j < |key| ==> line[j] == key[j];
  }

  lemma QuoteHasNoBreak(v: string)
    ensures forall i :: 0 <= i < |Quote(v)| ==> Quote(v)[i] != '\n' && Quote(v)[i] != '\r'
  {
    if IsQuoted(v) {
      EscapeHasNoBreak(v);
    } else {
      forall i | 0 <= i < |v| ensures v[i] != '\n' && v[i] != '\r' {
        assert !NeedsQuoting(v[i]);
      }
    }
  }

  lemma {:induction false} EscapeHasNoBreak(v: string)
    ensures forall i :: 0 <= i < |Escape(v)| ==> Escape(v)[i] != '\n' && Escape(v)[i] != '\r'
  {
    if v != [] {
      EscapedChar(v[0]);
      EscapeHasNoBreak(v[1..]);
    }
  }

  lemma ValueOk(v: string)
    ensures Value(Quote(v)) == Ok(Readback(v))
  {
    if IsQuoted(v) { QuotedValue(v); } else { BareValue(v); }
  }

  /** What one printed line is read as. */
  lemma LineRoundTrip(key: string, v: string, n: nat)
    requires GoodKey(key)
    ensures ParseLine(PrintedLine(key, v), n) == Pair(key, Readback(v))
  {
    hide Value, ParseLine, GoodKey, Trim, TrimCR, DropRight;
    var q := Quote(v);
    QuoteHasNoBreak(v);
    TrimLine(key, q);
    ValueOfTrimmed(q);
    ValueOk(v);
    LineOfTrimmed(key, q, n);
  }

  lemma ValueOfTrimmed(q: string)
    ensures Value(DropRight(q)) == Value(q)
  {
    TrimDropRight(q);
  }

  /** A line is read as its trimmed form is. */
  lemma LineOfTrimmed(key: string, q: string, n: nat)
    requires GoodKey(key) && Trim(TrimCR(key + "=" + q)) == key + "=" + DropRight(q)
    requires Value(DropRight(q)).Ok?
    ensures ParseLine(key + "=" + q, n) == Pair(key, Value(DropRight(q)).value)
  {
    hide Value;
    var rest := DropRight(q);
    var line := key + "=" + rest;
    TrimTwice(TrimCR(key + "=" + q));
    NoExport(key, rest);
    FirstEquals(key, rest);
    TrimmedIsFixed(key);
    assert line[..|key|] == key && line[|key| + 1..] == rest;
    assert line[0] == key[0];
    assert forall i :: 0 <= i < |key| ==> key[i] != ' ' && key[i] != '\t';
  }

  // ---------- whole files ----------

  ghost predicate NoBreak(s: string) {
    forall i :: 0 <= i < |s| ==> s[i] != '\n'
  }

  lemma IndexOfBreak(line: string, rest: string)
    requires NoBreak(line)
    ensures IndexOf(line + "\n" + rest, '\n') == |line|
  {
    var text := line + "\n" + rest;
    assert forall j :: 0 <= j < |line| ==> text[j] == line[j];
    assert text[|line|] == '\n';
  }

  /** A line put after a text that ends its last line is one more line. */
  lemma {:induction false} LinesAppend(text: string, line: string)
    requires text == [] || text[|text| - 1] == '\n'
    requires NoBreak(line)
    ensures Lines(text + line + "\n") == Lines(text) + [line]
    decreases |text|
  {
    hide Lines;
    NoLines();
    if text == [] {
      assert text + line + "\n" == line + "\n" + "";
      LinesFirst(line, "");
    } else {
      var i := IndexOf(text, '\n');
      var first, rest := text[..i], text[i + 1..];
      assert text == first + "\n" + rest;
      assert text + line + "\n" == first + "\n" + (rest + line + "\n");
      LinesFirst(first, rest);
      LinesFirst(first, rest + line + "\n");
      LinesAppend(rest, line);
    }
  }

  lemma LinesFirst(line: string, rest: string)
    requires NoBreak(line)
    ensures Lines(line + "\n" + rest) == [line] + Lines(rest)
  {
    var text := line + "\n" + rest;
    IndexOfBreak(line, rest);
    assert text[..|line|] == line && text[|line| + 1..] == rest;
  }

  lemma PrintedLineNoBreak(key: string, v: string)
    requires GoodKey(key)
    ensures NoBreak(PrintedLine(key, v))
  {
    QuoteHasNoBreak(v);
    var line := key + "=" + Quote(v);
    forall i | 0 <= i < |line| ensures line[i] != '\n' {
      if i < |key| {
        assert line[i] == key[i];
      } else if i > |key| {
        assert line[i] == Quote(v)[i - |key| - 1];
      }
    }
  }

  /** The file printed for some keys is read as those keys with their values. */
  lemma {:induction false} FileRoundTrip(m: map<string, string>, keys: seq<string>)
    requires forall k :: k in keys ==> k in m && GoodKey(k)
    ensures Parse(Printed(m, keys)) == Ok(map k | k in keys :: Readback(m[k]))
    ensures keys != [] ==> Printed(m, keys) != "" && Printed(m, keys)[|Printed(m, keys)| - 1] == '\n'
  {
    hide Lines, GoodKey, PrintedLine, ParseLine, Readback;
    if keys == [] {
      NoLines();
      assert (map k | k in keys :: Readback(m[k])) == map[];
    } else {
      var front, last := keys[..|keys| - 1], keys[|keys| - 1];
      FileRoundTrip(m, front);
      PrintedLineNoBreak(last, m[last]);
      LinesAppend(Printed(m, front), PrintedLine(last, m[last]));
      var lines := Lines(Printed(m, keys));
      assert lines[..|lines| - 1] == Lines(Printed(m, front));
      LineRoundTrip(last, m[last], |lines|);
      assert (map k | k in keys :: Readback(m[k])) == (map k | k in front :: Readback(m[k]))[last := Readback(m[last])];
    }
  }

  lemma NoLines()
    ensures Lines("") == []
  {
  }

  /** The .env round trip: for every map with keys the format can carry, in whatever order they
      are printed, the file is read back as the same map exactly when every value survives. */
  lemma DotenvRoundTrips(m: map<string, string>, keys: seq<string>)
    requires forall k :: k in keys <==> k in m
    requires forall k :: k in m ==> GoodKey(k)
    ensures Parse(Printed(m, keys)).Ok?
    ensures Parse(Printed(m, keys)) == Ok(m) <==> forall k :: k in m ==> Survives(m[k])
  {
    hide GoodKey, Survives, Readback, Parse, Printed;
    FileRoundTrip(m, keys);
    var read := map k | k in keys :: Readback(m[k]);
    forall k | k in m ensures Readback(m[k]) == m[k] <==> Survives(m[k]) {
      ReadbackSame(m[k]);
    }
    if read == m {
      forall k | k in m ensures Survives(m[k]) {
        assert read[k] == m[k];
      }
    }
  }

  lemma ReadbackSame(v: string)
    ensures Readback(v) == v <==> Survives(v)
  {
    TrimmedIsFixed(v);
  }

  /** A no-break space at the start of a bare value does not come back. */
  lemma EdgeSpaceIsLost(key: string)
    requires GoodKey(key)
    ensures var v := "\U{A0}x";
            !Survives(v) && Parse(Printed(map[key := v], [key])) == Ok(map[key := "x"])
  {
    var v := "\U{A0}x";
    assert !IsQuoted(v) && v[1..] == "x";
    assert DropLeft(v) == DropLeft("x") == "x";
    FileRoundTrip(map[key := v], [key]);
    assert (map k | k in [key] :: Readback(map[key := v][k])) == map[key := "x"];
  }
}
