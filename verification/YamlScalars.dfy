/** What inline text reads as: plain text with colons and hashes in it, the null spellings, quoted strings and
    flow collections; and the lines the reader rejects. */
module YamlScalars {
  import opened Common
  import opened YamlText
  import opened YamlParser
  import opened YamlRoundTrip
  import opened YamlLayout

  // ---------------------------------------------------------------- text in its place

  /** The value of text that is not empty after trimming, on line `number`. */
  function TextValue(rd: Reader, text: string, number: int, tail: seq<Line>): Parse<Value> {
    match rd.ParseScalar(text)
    case Some(v) => Done(v, tail)
    case None => Fail(number, BadFlow)
  }

  /** An item is read as its text, if that starts no mapping. */
  lemma ItemText(rd: Reader, text: string, n: nat, number: int, tail: seq<Line>)
    requires text != "" && rd.MappingStart(text) == None
    ensures rd.Item([Line(n, "- " + text, number)] + tail, n) == TextValue(rd, text, number, tail)
  {
    DashStrips(text);
    assert ([Line(n, "- " + text, number)] + tail)[1..] == tail;
  }

  /** In a sequence a dash needs no blank after it. */
  lemma DashedText(rd: Reader, text: string, n: nat, number: int, tail: seq<Line>)
    requires text != "" && text[0] != ' ' && rd.MappingStart(text) == None
    ensures rd.Item([Line(n, "-" + text, number)] + tail, n) == TextValue(rd, text, number, tail)
  {
    assert ("-" + text)[1..] == text;
    assert ([Line(n, "-" + text, number)] + tail)[1..] == tail;
  }

  /** The text after a key is the key's value. */
  lemma EntryText(rd: Reader, st: Style, key: string, text: string, n: nat, number: int, tail: seq<Line>)
    requires text != "" && !IsSpace(text[0]) && !IsSpace(text[|text| - 1])
    ensures rd.Entry([Line(n, st.Tok(key) + ": " + text, number)] + tail, n) ==
      match TextValue(rd, text, number, tail)
      case Done(v, rest) => Done((key, v), rest)
      case Fail(k, c) => Fail(k, c)
  {
    var line, r := st.Tok(key) + ": " + text, " " + text;
    KeyTokReads(rd, st, key);
    assert line == st.Tok(key) + ":" + r;
    assert line == st.Tok(key) + (":" + r);
    ScanKeyTok(st, key, line, ":" + r);
    SplitAt(rd, line, st.Tok(key), r);
    TrimSpaceKeeps(text);
    assert ([Line(n, line, number)] + tail)[1..] == tail;
  }

  // ---------------------------------------------------------------- plain text

  /** No colon in plain text ends a key. */
  lemma PlainHasNoKey(rd: Reader, t: string)
    requires PlainText(t)
    ensures rd.SplitKeyAt(t) == KeyError(NoColon) && rd.MappingStart(t) == None
  {
    assert t[0..|t|] == t;
    ScanPlain(KeyEnd, t, 0, t);
  }

  /** Plain text is read as itself, as an item with or without a blank after the dash, and after a key. */
  lemma PlainReads(rd: Reader, st: Style, key: string, t: string, n: nat, number: int, tail: seq<Line>)
    requires Plain(t)
    ensures rd.Item([Line(n, "- " + t, number)] + tail, n) == Done(Str(t), tail)
    ensures rd.Item([Line(n, "-" + t, number)] + tail, n) == Done(Str(t), tail)
    ensures rd.Entry([Line(n, st.Tok(key) + ": " + t, number)] + tail, n) == Done((key, Str(t)), tail)
  {
    PlainHasNoKey(rd, t);
    TokUnquotes(rd, Style(1, false, false, false), t);
    ItemText(rd, t, n, number, tail);
    DashedText(rd, t, n, number, tail);
    EntryText(rd, st, key, t, n, number, tail);
  }

  /** A port mapping is a string. */
  lemma PortMappingReads(rd: Reader, n: nat, number: int, tail: seq<Line>)
    ensures rd.Item([Line(n, "- 8080:80", number)] + tail, n) == Done(Str("8080:80"), tail)
  {
    var t := "8080:80";
    forall i | 0 <= i < |t|
      ensures PlainAt(t, i)
    {
      assert t[i] == ':' ==> i == 4;
    }
    assert "- " + t == "- 8080:80";
    PlainReads(rd, Style(1, false, false, false), "ports", t, n, number, tail);
  }

  /** A line of plain text where a key is due is an error. */
  lemma MissingColonRejected(rd: Reader, t: string, n: nat, number: int, tail: seq<Line>, acc: map<string, Value>)
    requires PlainText(t)
    ensures rd.Entries([Line(n, t, number)] + tail, n, acc) == Fail(number, NoColon)
  {
    PlainHasNoKey(rd, t);
    FirstKept(t, "");
    assert t + "" == t;
  }

  /** So is a line that starts with the colon; after a dash it is a string. */
  lemma EmptyKeyRejected(rd: Reader, text: string, n: nat, number: int, tail: seq<Line>, acc: map<string, Value>)
    requires text == "" || text[0] == ' ' || text[0] == '\t'
    ensures rd.Entries([Line(n, ":" + text, number)] + tail, n, acc) == Fail(number, EmptyKey)
    ensures rd.MappingStart(":" + text) == None
  {
    var line := ":" + text;
    assert Scan(KeyEnd, line, 0, false, false) == Some(0);
    assert TrimSpace(line[..0]) == "";
  }

  // ---------------------------------------------------------------- scalars

  predicate IsFlow(s: string) { s != "" && ((s[0] == '{' && s[|s| - 1] == '}') || (s[0] == '[' && s[|s| - 1] == ']')) }

  predicate IsQuoted(s: string) {
    |s| >= 2 && ((s[0] == '"' && s[|s| - 1] == '"') || (s[0] == '\'' && s[|s| - 1] == '\''))
  }

  predicate IsNull(s: string) { s in {"null", "~", "Null", "NULL"} }

  /** Text is null exactly in one of four spellings, or as a flow collection the library reads so. */
  lemma NullSpellings(rd: Reader, text: string)
    ensures rd.ParseScalar(text) == Some(Null) <==>
            IsNull(TrimSpace(text)) || (IsFlow(TrimSpace(text)) && rd.flow(TrimSpace(text)) == Some(Null))
  {
  }

  /** Text in brackets is the library's business; if the library refuses it, its line is an error. */
  lemma FlowReads(rd: Reader, s: string, n: nat, number: int, tail: seq<Line>)
    requires IsFlow(s)
    ensures rd.ParseScalar(s) == rd.flow(s)
    ensures rd.Item([Line(n, "- " + s, number)] + tail, n) ==
            if rd.flow(s).Some? then Done(rd.flow(s).value, tail) else Fail(number, BadFlow)
  {
    TrimSpaceKeeps(s);
    ItemText(rd, s, n, number, tail);
  }

  /** A double-quoted string is what the library makes of it, or itself if the library refuses it. */
  lemma DoubleQuotesRead(rd: Reader, s: string)
    requires |s| >= 2 && s[0] == '"' && s[|s| - 1] == '"'
    ensures rd.ParseScalar(s) == Some(Str(rd.Unquote(s)))
    ensures rd.Unquote(s) == if rd.unquoteDouble(s).Some? then rd.unquoteDouble(s).value else s
  {
    TrimSpaceKeeps(s);
  }

  /** Everything else is the string it is: numbers, booleans, and text with a bracket or quote at one end only. */
  lemma OtherTextReads(rd: Reader, s: string)
    requires s != "" && !IsSpace(s[0]) && !IsSpace(s[|s| - 1]) && !IsFlow(s) && !IsQuoted(s) && !IsNull(s)
    ensures rd.ParseScalar(s) == Some(Str(s)) && rd.Unquote(s) == s
  {
    TrimSpaceKeeps(s);
  }

  // ---------------------------------------------------------------- double quotes in a document

  /** The inside of a double-quoted string: a quote appears only after a backslash, which takes the next
      character with it. */
  predicate Escaped(b: string) {
    b == "" || if b[0] == '\\' then |b| > 1 && Escaped(b[2..]) else b[0] != '"' && Escaped(b[1..])
  }

  lemma {:induction false} ScanEscaped(mark: Mark, line: string, i: nat, b: string)
    requires Escaped(b) && OccursAt(line, i, b) && i + |b| < |line|
    ensures Scan(mark, line, i, false, true) == Scan(mark, line, i + |b|, false, true)
    decreases |b|
  {
    if b != "" {
      var step := if b[0] == '\\' then 2 else 1;
      assert line[i] == line[i..i + |b|][0];
      SubSlice(line, i, i + |b|, step, |b|);
      assert b[step..|b|] == b[step..];
      ScanEscaped(mark, line, i + step, b[step..]);
    }
  }

  /** No comment starts and no key ends inside double quotes. */
  lemma ScanDouble(mark: Mark, line: string, i: nat, b: string)
    requires Escaped(b) && OccursAt(line, i, "\"" + b + "\"")
    ensures Scan(mark, line, i, false, false) == Scan(mark, line, i + |b| + 2, false, false)
  {
    var q := "\"" + b + "\"";
    assert line[i] == line[i..i + |q|][0] && line[i + |q| - 1] == line[i..i + |q|][|q| - 1];
    SubSlice(line, i, i + |q|, 1, |q| - 1);
    assert q[1..|q| - 1] == b;
    ScanEscaped(mark, line, i + 1, b);
  }

  lemma ScanBlankDouble(line: string, i: nat, b: string, r: string)
    requires Escaped(b) && r == " \"" + b + "\"" && OccursAt(line, i, r)
    ensures Scan(Comment, line, i, false, false) == Scan(Comment, line, i + |r|, false, false)
  {
    var q := "\"" + b + "\"";
    assert r == " " + q;
    assert line[i] == line[i..i + |r|][0];
    ScanOver(Comment, line, i, i + 1);
    SubSlice(line, i, i + |r|, 1, |r|);
    assert r[1..|r|] == q;
    ScanDouble(Comment, line, i + 1, b);
  }

  lemma DoubleRowPassed(st: Style, key: string, b: string, raw: string, t: string, r: string)
    requires Escaped(b) && t == st.Tok(key) + ":" && r == " \"" + b + "\"" && RowParts(raw, 0, t, r)
    ensures PassedOver(raw)
  {
    forall line: string | OccursAt(line, 0, raw)
      ensures Scan(Comment, line, 0, false, false) == Scan(Comment, line, |raw|, false, false)
    {
      PartsOccur(line, raw, 0, t, r);
      KeyScans(st, line, 0, key);
      ScanBlankDouble(line, |t|, b, r);
    }
  }

  /** A key with a double-quoted value, on a line with any trailer, reads as that string. */
  lemma DoubleQuotedDocument(rd: Reader, st: Style, key: string, b: string, q: string, row: Row, trailer: Trailer)
    requires Escaped(b) && '\n' !in b && '\n' !in key && trailer.Valid()
    requires q == "\"" + b + "\"" && row == Row(0, st.Tok(key) + ": " + q)
    ensures rd.Tree(Joined(RawLines([row], [trailer]))) == Done(Dict(map[key := Str(rd.Unquote(q))]), [])
  {
    Regroup(st.Tok(key), b);
    DoubleRowClean(st, key, b, row, st.Tok(key) + ":", " \"" + b + "\"");
    TreeOfRows(rd, [row], [trailer]);
    DoubleEntryReads(rd, st, key, q, Line(0, row.content, 1));
    OneRow(row);
  }

  lemma Regroup(t: string, b: string)
    ensures t + ": " + ("\"" + b + "\"") == (t + ":") + (" \"" + b + "\"")
  {
  }

  lemma OneRow(row: Row)
    ensures Numbered([row], 1) == [Line(row.indent, row.content, 1)]
  {
    assert [row][1..] == [];
  }

  lemma DoubleEntryReads(rd: Reader, st: Style, key: string, q: string, l: Line)
    requires |q| >= 2 && q[0] == '"' && q[|q| - 1] == '"' && l == Line(0, st.Tok(key) + ": " + q, 1)
    ensures rd.Block([l], 0) == Done(Dict(map[key := Str(rd.Unquote(q))]), [])
  {
    DoubleQuotesRead(rd, q);
    EntryText(rd, st, key, q, 0, 1, []);
    assert [l] + [] == [l];
    KeyLineIsNoItem(st, key, q, l.content);
    LoneEntry(rd, l, key, Str(rd.Unquote(q)));
  }

  lemma KeyLineIsNoItem(st: Style, key: string, q: string, content: string)
    requires content == st.Tok(key) + ": " + q
    ensures !IsItem(content)
  {
    TokShape(st, key);
    FirstKept(st.Tok(key), ": " + q);
    assert content == st.Tok(key) + (": " + q);
  }

  lemma LoneEntry(rd: Reader, l: Line, key: string, v: Value)
    requires l.indent == 0 && !IsItem(l.content) && rd.Entry([l], 0) == Done((key, v), [])
    ensures rd.Block([l], 0) == Done(Dict(map[key := v]), [])
  {
    EntriesStep(rd, [l], 0, map[], key, v, []);
    assert map[][key := v] == map[key := v];
  }

  lemma DoubleRowClean(st: Style, key: string, b: string, row: Row, t: string, r: string)
    requires Escaped(b) && '\n' !in b && '\n' !in key && t == st.Tok(key) + ":" && r == " \"" + b + "\""
    requires row.indent == 0 && row.content == t + r
    ensures AllClean([row])
  {
    KeyPartShape(st, key, t);
    DoublePartShape(b, r);
    JoinedVisible(t, r);
    AtColumnZero(row);
    DoubleRowPassed(st, key, b, Raw(row), t, r);
  }

  lemma AtColumnZero(row: Row)
    requires row.indent == 0
    ensures Raw(row) == row.content
  {
  }

  lemma KeyPartShape(st: Style, key: string, t: string)
    requires '\n' !in key && t == st.Tok(key) + ":"
    ensures |t| > 1 && !IsSpace(t[0]) && '\n' !in t && ':' in t
  {
    TokShape(st, key);
    assert t[|t| - 1] == ':';
  }

  lemma DoublePartShape(b: string, r: string)
    requires '\n' !in b && r == " \"" + b + "\""
    ensures r != "" && !IsSpace(r[|r| - 1]) && '\n' !in r
  {
    assert r[|r| - 1] == '"';
  }

  lemma JoinedVisible(t: string, r: string)
    requires |t| > 1 && r != "" && !IsSpace(t[0]) && !IsSpace(r[|r| - 1]) && '\n' !in t && '\n' !in r && ':' in t
    ensures Visible(t + r) && RowParts(t + r, 0, t, r)
  {
    var c := t + r;
    var k :| 0 <= k < |t| && t[k] == ':';
    assert c[0] == t[0] && c[|c| - 1] == r[|r| - 1] && c[k] == ':';
  }
}
