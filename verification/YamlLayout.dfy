/** From printed rows to text and back: indentation, trailing comments, carriage returns and
    line splitting, and the end-to-end round trip. */
module YamlLayout {
  import opened Common
  import opened YamlText
  import opened YamlParser
  import opened YamlRoundTrip

  /** What may trail a row without meaning anything: blanks, a comment, a carriage return. */
  datatype Trailer = Trailer(gap: nat, comment: Option<string>, cr: bool) {
    predicate Valid() { comment.Some? ==> gap >= 1 && '\n' !in comment.value }

    function End(): string { (if comment.Some? then comment.value else "") + (if cr then "\r" else "") }

    function Text(): string {
      Spaces(gap) + (if comment.Some? then "#" else "") + End()
    }
  }

  function Raw(row: Row): string { Spaces(row.indent) + row.content }

  function RawLines(rows: seq<Row>, trailers: seq<Trailer>): (raws: seq<string>)
    requires |rows| == |trailers|
    ensures |raws| == |rows| && forall i :: 0 <= i < |rows| ==> raws[i] == Raw(rows[i]) + trailers[i].Text()
  {
    seq(|rows|, i requires 0 <= i < |rows| => Raw(rows[i]) + trailers[i].Text())
  }

  /** Each line ended by a line break. */
  function Joined(raws: seq<string>): string {
    if raws == [] then "" else raws[0] + "\n" + Joined(raws[1..])
  }

  // ---------------------------------------------------------------- splitting

  lemma {:induction false} SplitFirst(line: string, text: string)
    requires '\n' !in line
    ensures Split(line + "\n" + text) == [line] + Split(text)
    decreases |line|
  {
    var all := line + "\n" + text;
    if line == [] {
      assert all[1..] == text;
    } else {
      assert all[1..] == line[1..] + "\n" + text;
      assert '\n' !in line[1..];
      SplitFirst(line[1..], text);
      assert [line[0]] + line[1..] == line;
      assert ([line[1..]] + Split(text))[1..] == Split(text);
    }
  }

  lemma {:induction false} SplitJoined(raws: seq<string>)
    requires forall i :: 0 <= i < |raws| ==> '\n' !in raws[i]
    ensures Split(Joined(raws)) == raws + [""]
    decreases |raws|
  {
    if raws != [] {
      var rest := raws[1..];
      SplitFirst(raws[0], Joined(rest));
      SplitJoined(rest);
      assert raws == [raws[0]] + rest;
    }
  }

  // ---------------------------------------------------------------- trimming

  lemma {:induction false} TrimRightAll(a: string, b: string, p: char -> bool)
    requires a != [] && !p(a[|a| - 1]) && forall c :: c in b ==> p(c)
    ensures TrimRight(a + b, p) == a
    decreases |b|
  {
    if b == [] {
      assert a + b == a;
    } else {
      assert (a + b)[..|a + b| - 1] == a + b[..|b| - 1];
      assert b[|b| - 1] in b;
      TrimRightAll(a, b[..|b| - 1], p);
    }
  }

  lemma {:induction false} TrimRightStops(a: string, b: string, p: char -> bool) returns (k: nat)
    requires a != [] && !p(a[|a| - 1])
    ensures k <= |b| && TrimRight(a + b, p) == a + b[..k]
    decreases |b|
  {
    k := |b|;
    if b == [] {
      assert a + b == a && a + b[..0] == a;
    } else if p(b[|b| - 1]) {
      var b' := b[..|b| - 1];
      assert (a + b)[..|a + b| - 1] == a + b';
      k := TrimRightStops(a, b', p);
      assert b'[..k] == b[..k];
    } else {
      assert b[..|b|] == b;
    }
  }

  lemma {:induction false} LeadingSpacesOf(n: nat, s: string)
    requires s != [] && s[0] != ' '
    ensures LeadingSpaces(Spaces(n) + s) == n
    ensures !IsSpace(s[0]) ==> TrimLeft(Spaces(n) + s, IsSpace) == s
    decreases n
  {
    var t := Spaces(n) + s;
    if n == 0 {
      assert t == s;
    } else {
      assert t[1..] == Spaces(n - 1) + s;
      LeadingSpacesOf(n - 1, s);
    }
  }

  // ---------------------------------------------------------------- one line

  /** In any line that begins with `raw`, comment scanning reaches the end of `raw` outside quotes. */
  ghost predicate PassedOver(raw: string) {
    forall line: string :: OccursAt(line, 0, raw) ==>
      Scan(Comment, line, 0, false, false) == Scan(Comment, line, |raw|, false, false)
  }

  /** Text with visible ends on one line that is no document marker. */
  ghost predicate Visible(content: string) {
    && content != "" && !IsSpace(content[0]) && !IsSpace(content[|content| - 1])
    && '\n' !in content && content != "---" && content != "..."
  }

  /** A row whose text the comment scanner passes over whole and whose ends are not blank. */
  ghost predicate Inked(row: Row) {
    && row.content != "" && !IsSpace(row.content[0]) && !IsSpace(row.content[|row.content| - 1])
    && PassedOver(Raw(row))
  }

  ghost predicate Clean(row: Row) { Visible(row.content) && PassedOver(Raw(row)) }

  ghost predicate AllClean(rows: seq<Row>) { forall k :: 0 <= k < |rows| ==> Clean(rows[k]) }

  lemma StripsAt(line: string, kept: string, tail: string)
    requires line == kept + tail
    requires Scan(Comment, line, 0, false, false) == Scan(Comment, line, |kept|, false, false)
    requires tail == "" || Comment.At(line, |kept|)
    ensures StripComment(line) == kept
  {
    assert line[..|kept|] == kept;
  }

  /** A clean row followed by blanks is still passed over whole. */
  lemma ScanBlanks(row: Row, gap: nat, tail: string)
    requires Inked(row)
    ensures var kept := Raw(row) + Spaces(gap);
      Scan(Comment, kept + tail, 0, false, false) == Scan(Comment, kept + tail, |kept|, false, false)
  {
    var kept := Raw(row) + Spaces(gap);
    var line := Raw(row) + (Spaces(gap) + tail);
    assert kept + tail == line;
    assert line[0..|Raw(row)|] == Raw(row);
    assert forall k :: |Raw(row)| <= k < |kept| ==> line[k] == Spaces(gap)[k - |Raw(row)|];
    ScanOver(Comment, line, |Raw(row)|, |kept|);
  }

  lemma KeptEndsVisibly(row: Row, gap: nat)
    requires Inked(row)
    ensures var kept := Raw(row) + Spaces(gap); kept != "" && !IsCR(kept[|kept| - 1])
  {
    var kept := Raw(row) + Spaces(gap);
    if gap == 0 {
      assert kept[|kept| - 1] == row.content[|row.content| - 1];
    }
  }

  /** Comment stripping leaves the row and the blanks after it. */
  lemma StripsTrailer(row: Row, t: Trailer)
    requires Inked(row) && t.Valid()
    ensures StripComment(TrimRight(Raw(row) + t.Text(), IsCR)) == Raw(row) + Spaces(t.gap)
  {
    if t.comment.Some? {
      StripsComment(row, t);
    } else {
      StripsBlanks(row, t);
    }
  }

  lemma StripsComment(row: Row, t: Trailer)
    requires Inked(row) && t.Valid() && t.comment.Some?
    ensures StripComment(TrimRight(Raw(row) + t.Text(), IsCR)) == Raw(row) + Spaces(t.gap)
  {
    var kept := Raw(row) + Spaces(t.gap);
    var a, e := kept + "#", t.End();
    assert Raw(row) + t.Text() == a + e;
    var k := TrimRightStops(a, e, IsCR);
    var tail := "#" + e[..k];
    assert a + e[..k] == kept + tail;
    ScanBlanks(row, t.gap, tail);
    assert (kept + tail)[|kept| - 1] == ' ';
    StripsAt(kept + tail, kept, tail);
  }

  lemma StripsBlanks(row: Row, t: Trailer)
    requires Inked(row) && t.Valid() && t.comment.None?
    ensures StripComment(TrimRight(Raw(row) + t.Text(), IsCR)) == Raw(row) + Spaces(t.gap)
  {
    var kept := Raw(row) + Spaces(t.gap);
    assert Raw(row) + t.Text() == kept + t.End();
    KeptEndsVisibly(row, t.gap);
    TrimRightAll(kept, t.End(), IsCR);
    ScanBlanks(row, t.gap, "");
    assert kept + "" == kept;
    StripsAt(kept, kept, "");
  }

  lemma LineSurvives(row: Row, t: Trailer, number: int)
    requires Clean(row) && t.Valid()
    ensures TokenOf(Raw(row) + t.Text(), number) == Kept(Line(row.indent, row.content, number))
  {
    StripsTrailer(row, t);
    var n, c, g := row.indent, row.content, Spaces(t.gap);
    assert Raw(row) + g == Spaces(n) + (c + g);
    StrippedToken(n, c, g);
  }

  lemma StrippedToken(n: nat, c: string, g: string)
    requires c != "" && !IsSpace(c[0]) && !IsSpace(c[|c| - 1]) && forall x :: x in g ==> x == ' '
    ensures var line := Spaces(n) + (c + g);
      && TrimSpace(line) == c && line[..1] != "\t"
      && LeadingSpaces(line) == n && TrimRight(line[n..], IsBlank) == c
  {
    var line := Spaces(n) + (c + g);
    LeadingSpacesOf(n, c + g);
    TrimRightAll(c, g, IsSpace);
    TrimRightAll(c, g, IsBlank);
    assert line[n..] == c + g;
    assert line[0] == if n > 0 then ' ' else c[0];
  }

  lemma Assoc(a: seq<Line>, b: seq<Line>, c: seq<Line>)
    ensures a + b + c == a + (b + c)
  {
  }

  lemma NumberedFrom(rows: seq<Row>, i: nat)
    requires i < |rows|
    ensures Numbered(rows[i..], |rows|)
            == [Line(rows[i].indent, rows[i].content, i + 1)] + Numbered(rows[i + 1..], |rows|)
  {
    var tail := rows[i..];
    assert tail[1..] == rows[i + 1..] && tail[0] == rows[i];
  }

  lemma {:induction false} TokenizeRaw(rows: seq<Row>, trailers: seq<Trailer>, raws: seq<string>, i: nat, kept: seq<Line>)
    requires |rows| == |trailers| && i <= |rows| && raws == RawLines(rows, trailers) + [""]
    requires AllClean(rows) && forall t :: t in trailers ==> t.Valid()
    ensures Tokenize(raws, i, kept) == Lines(kept + Numbered(rows[i..], |rows|))
    decreases |rows| - i
  {
    if i < |rows| {
      assert raws[i] == Raw(rows[i]) + trailers[i].Text();
      LineSurvives(rows[i], trailers[i], i + 1);
      var line := Line(rows[i].indent, rows[i].content, i + 1);
      TokenizeRaw(rows, trailers, raws, i + 1, kept + [line]);
      NumberedFrom(rows, i);
      Assoc(kept, [line], Numbered(rows[i + 1..], |rows|));
    } else {
      assert raws[i] == "" && TokenOf("", i + 1) == Skipped;
      assert kept + [] == kept;
    }
  }

  // ---------------------------------------------------------------- printed rows are clean

  lemma ScanInline(st: Style, line: string, i: nat, d: Doc)
    requires OccursAt(line, i, st.Inline(d))
    ensures Scan(Comment, line, i, false, false) == Scan(Comment, line, i + |st.Inline(d)|, false, false)
  {
    if d.Scalar? {
      ScanScalar(st, line, i, d.text);
    } else {
      InlineChars(line, i, st.Inline(d));
      ScanOver(Comment, line, i, i + |st.Inline(d)|);
    }
  }

  lemma ScanScalar(st: Style, line: string, i: nat, text: string)
    requires OccursAt(line, i, " " + st.Tok(text))
    ensures Scan(Comment, line, i, false, false) == Scan(Comment, line, i + 1 + |st.Tok(text)|, false, false)
  {
    var t := st.Tok(text);
    var r := " " + t;
    assert line[i] == line[i..i + |r|][0];
    ScanOver(Comment, line, i, i + 1);
    SubSlice(line, i, i + |r|, 1, |r|);
    assert r[1..|r|] == t;
    ScanTok(st, Comment, line, i + 1, text);
  }

  lemma InlineChars(line: string, i: nat, r: string)
    requires OccursAt(line, i, r)
    ensures forall k :: i <= k < i + |r| ==> line[k] == r[k - i]
  {
    forall k | i <= k < i + |r|
      ensures line[k] == r[k - i]
    {
      assert line[k] == line[i..i + |r|][k - i];
    }
  }

  lemma InlineShape(st: Style, d: Doc)
    requires d.Scalar? ==> '\n' !in d.text
    ensures var r := st.Inline(d); '\n' !in r && (r != "" ==> r[0] == ' ' && !IsSpace(r[|r| - 1]))
  {
    if d.Scalar? {
      TokShape(st, d.text);
    }
  }

  /** Scanning passes over a key and its colon. */
  lemma KeyScans(st: Style, line: string, i: nat, key: string)
    requires OccursAt(line, i, st.Tok(key) + ":")
    ensures Scan(Comment, line, i, false, false) == Scan(Comment, line, i + |st.Tok(key)| + 1, false, false)
  {
    var t := st.Tok(key);
    var seg := line[i..i + |t + ":"|];
    assert line[i..i + |t|] == seg[..|t|] == t;
    assert line[i + |t|] == seg[|t|] == ':';
    ScanTok(st, Comment, line, i, key);
    ScanOver(Comment, line, i + |t|, i + |t| + 1);
  }

  /** A row is indentation and perhaps a dash, then perhaps a key with its colon, then inline text. */
  ghost predicate RowParts(raw: string, i: nat, t: string, r: string) {
    && |raw| == i + |t| + |r| && raw[i..i + |t|] == t && raw[i + |t|..] == r
    && forall k :: 0 <= k < i ==> raw[k] == ' ' || raw[k] == '-'
  }

  lemma PartsOf(n: nat, head: string, t: string, r: string)
    requires head == "" || head == "-" || head == "- "
    ensures RowParts(Spaces(n) + (head + (t + r)), n + |head|, t, r)
  {
  }

  lemma PartsOccur(line: string, raw: string, i: nat, t: string, r: string)
    requires OccursAt(line, 0, raw) && RowParts(raw, i, t, r)
    ensures OccursAt(line, i, t) && OccursAt(line, i + |t|, r)
    ensures Scan(Comment, line, 0, false, false) == Scan(Comment, line, i, false, false)
  {
    assert line[i..i + |t|] == line[0..|raw|][i..i + |t|];
    assert line[i + |t|..i + |t| + |r|] == line[0..|raw|][i + |t|..];
    assert forall k :: 0 <= k < i ==> line[k] == line[0..|raw|][k];
    ScanOver(Comment, line, 0, i);
  }

  lemma KeyRowText(st: Style, head: string, key: string, d: Doc)
    requires head == "" || head == "- "
    requires '\n' !in key && (d.Scalar? ==> '\n' !in d.text)
    ensures Visible(head + st.KeyText(key, d))
  {
    var t, r := st.Tok(key), st.Inline(d);
    var content := head + st.KeyText(key, d);
    TokShape(st, key);
    InlineShape(st, d);
    assert content[0] == if head == "" then t[0] else '-';
    assert content[|content| - 1] == if r == "" then ':' else r[|r| - 1];
    assert content[|head + t|] == ':';
  }

  lemma KeyRowLine(st: Style, line: string, i: nat, key: string, d: Doc, t: string, r: string)
    requires t == st.Tok(key) + ":" && r == st.Inline(d) && OccursAt(line, i, t) && OccursAt(line, i + |t|, r)
    ensures Scan(Comment, line, i, false, false) == Scan(Comment, line, i + |t| + |r|, false, false)
  {
    KeyScans(st, line, i, key);
    ScanInline(st, line, i + |t|, d);
  }

  lemma KeyRowPassed(st: Style, raw: string, i: nat, key: string, d: Doc, t: string, r: string)
    requires t == st.Tok(key) + ":" && r == st.Inline(d) && RowParts(raw, i, t, r)
    ensures PassedOver(raw)
  {
    forall line: string | OccursAt(line, 0, raw)
      ensures Scan(Comment, line, 0, false, false) == Scan(Comment, line, |raw|, false, false)
    {
      PartsOccur(line, raw, i, t, r);
      KeyRowLine(st, line, i, key, d, t, r);
    }
  }

  lemma KeyRowClean(st: Style, n: nat, head: string, key: string, d: Doc)
    requires head == "" || head == "- "
    requires '\n' !in key && (d.Scalar? ==> '\n' !in d.text)
    ensures Clean(Row(n, head + st.KeyText(key, d)))
  {
    var t, r := st.Tok(key) + ":", st.Inline(d);
    KeyRowText(st, head, key, d);
    PartsOf(n, head, t, r);
    KeyRowPassed(st, Spaces(n) + (head + (t + r)), n + |head|, key, d, t, r);
  }

  lemma DashRowPassed(st: Style, raw: string, i: nat, d: Doc)
    requires RowParts(raw, i, "", st.Inline(d))
    ensures PassedOver(raw)
  {
    forall line: string | OccursAt(line, 0, raw)
      ensures Scan(Comment, line, 0, false, false) == Scan(Comment, line, |raw|, false, false)
    {
      PartsOccur(line, raw, i, "", st.Inline(d));
      ScanInline(st, line, i, d);
    }
  }

  lemma DashRowText(st: Style, d: Doc)
    requires d.Scalar? ==> '\n' !in d.text
    ensures Visible("-" + st.Inline(d))
  {
    var r := st.Inline(d);
    var content := "-" + r;
    InlineShape(st, d);
    assert content[|content| - 1] == if r == "" then '-' else r[|r| - 1];
    assert r != "" ==> content[1] == ' ';
  }

  lemma DashRowClean(st: Style, n: nat, d: Doc)
    requires d.Scalar? ==> '\n' !in d.text
    ensures Clean(Row(n, "-" + st.Inline(d)))
  {
    var r := st.Inline(d);
    DashRowText(st, d);
    PartsOf(n, "-", "", r);
    assert "" + r == r;
    DashRowPassed(st, Spaces(n) + ("-" + r), n + 1, d);
  }

  lemma {:induction false} BelowClean(st: Style, d: Doc, m: nat, post: seq<Row>)
    requires OneLine(d) && AllClean(post)
    ensures AllClean(st.Below(d, m, post))
    decreases d, 1
  {
    if d.SeqDoc? {
      ItemsClean(st, d.items, m + st.step, post);
    } else if d.MapDoc? {
      EntriesClean(st, d.entries, m + st.step, post);
    }
  }

  lemma {:induction false} EntriesClean(st: Style, es: DocEntries, n: nat, post: seq<Row>)
    requires EntriesOneLine(es) && AllClean(post)
    ensures AllClean(st.PrintEntries(es, n, post))
    decreases es
  {
    var after := if es.NextEntry? then st.PrintEntries(es.more, n, post) else post;
    if es.NextEntry? {
      EntriesClean(st, es.more, n, post);
    }
    BelowClean(st, es.doc, n, after);
    EntryRowClean(st, n, es.key, es.doc);
  }

  lemma EntryRowClean(st: Style, n: nat, key: string, d: Doc)
    requires '\n' !in key && (d.Scalar? ==> '\n' !in d.text)
    ensures Clean(Row(n, st.KeyText(key, d)))
  {
    KeyRowClean(st, n, "", key, d);
    assert "" + st.KeyText(key, d) == st.KeyText(key, d);
  }

  lemma {:induction false} ItemClean(st: Style, d: Doc, n: nat, post: seq<Row>)
    requires OneLine(d) && AllClean(post)
    ensures AllClean(st.PrintItem(d, n, post))
    decreases d, 2
  {
    if st.OnDashLine(d) {
      var es := d.entries;
      var after := if es.NextEntry? then st.PrintEntries(es.more, n + 2, post) else post;
      if es.NextEntry? {
        EntriesClean(st, es.more, n + 2, post);
      }
      BelowClean(st, es.doc, n + 2, after);
      KeyRowClean(st, n, "- ", es.key, es.doc);
    } else {
      BelowClean(st, d, n, post);
      DashRowClean(st, n, d);
    }
  }

  lemma {:induction false} ItemsClean(st: Style, items: DocItems, n: nat, post: seq<Row>)
    requires ItemsOneLine(items) && AllClean(post)
    ensures AllClean(st.PrintItems(items, n, post))
    decreases items
  {
    var after := if items.NextItem? then st.PrintItems(items.more, n, post) else post;
    if items.NextItem? {
      ItemsClean(st, items.more, n, post);
    }
    ItemClean(st, items.doc, n, after);
  }

  // ---------------------------------------------------------------- the theorem

  lemma RawIsOneLine(row: Row, t: Trailer)
    requires Clean(row) && t.Valid()
    ensures '\n' !in Raw(row) + t.Text()
  {
  }

  /** The whole reader on the text of clean rows is the block reader on those rows. */
  lemma TreeOfRows(rd: Reader, rows: seq<Row>, trailers: seq<Trailer>)
    requires rows != [] && AllClean(rows) && |trailers| == |rows| && forall t :: t in trailers ==> t.Valid()
    ensures rd.Tree(Joined(RawLines(rows, trailers))) == rd.Block(Numbered(rows, |rows|), 0)
  {
    var raws := RawLines(rows, trailers);
    forall i | 0 <= i < |raws|
      ensures '\n' !in raws[i]
    {
      RawIsOneLine(rows[i], trailers[i]);
    }
    SplitJoined(raws);
    TokenizeRaw(rows, trailers, raws + [""], 0, []);
    assert rows[0..] == rows && [] + Numbered(rows, |rows|) == Numbered(rows, |rows|);
  }

  /** Reading the printed text of any document gives back its tree and leaves no line unread:
      for every nesting step, with mappings inside sequences compact or not, null spelled or
      implied, strings plain or single-quoted, any text without a line break as key or scalar,
      and any trailing blanks, comments and carriage returns on every line. */
  lemma RoundTrip(rd: Reader, st: Style, d: Doc, trailers: seq<Trailer>)
    requires (d.SeqDoc? || d.MapDoc?) && OneLine(d) && st.step >= 1
    requires |trailers| == |st.Print(d, 0, [])| && forall t :: t in trailers ==> t.Valid()
    ensures rd.Tree(Joined(RawLines(st.Print(d, 0, []), trailers))) == Done(ValueOf(d), [])
  {
    var rows := st.Print(d, 0, []);
    if d.SeqDoc? {
      ItemsClean(st, d.items, 0, []);
    } else {
      EntriesClean(st, d.entries, 0, []);
    }
    BlockReads(rd, st, d, 0, [], |rows|);
    TreeOfRows(rd, rows, trailers);
  }

  /** A document whose printed text reads back as v, whatever ends its lines. */
  ghost predicate ReadsBack(rd: Reader, st: Style, d: Doc, v: Value) {
    (d.SeqDoc? || d.MapDoc?) &&
    forall trailers: seq<Trailer> ::
      |trailers| == |st.Print(d, 0, [])| && (forall t :: t in trailers ==> t.Valid()) ==>
        rd.Tree(Joined(RawLines(st.Print(d, 0, []), trailers))) == Done(v, [])
  }

  /** Every tree of non-empty collections, one-line strings and nulls, a collection at the top, has a
      document that reads back as it in every layout. */
  lemma EveryTreeReadsBack(rd: Reader, st: Style, v: Value)
    requires Writable(v) && (v.List? || v.Dict?) && st.step >= 1
    ensures exists d: Doc :: OneLine(d) && ValueOf(d) == v && ReadsBack(rd, st, d, v)
  {
    var d := Written(v);
    forall trailers: seq<Trailer> |
      |trailers| == |st.Print(d, 0, [])| && (forall t :: t in trailers ==> t.Valid())
      ensures rd.Tree(Joined(RawLines(st.Print(d, 0, []), trailers))) == Done(v, [])
    {
      RoundTrip(rd, st, d, trailers);
    }
    assert ReadsBack(rd, st, d, v);
  }
}
