/** A block-style printer for trees and the proof that the reader undoes it, from the
    printed text to the tree. */
module YamlRoundTrip {
  import opened Common
  import opened YamlText
  import opened YamlParser

  // ---------------------------------------------------------------- documents

  /** A tree as it is written down: entries in order, collections never empty. */
  datatype Doc = NullDoc | Scalar(text: string) | SeqDoc(items: DocItems) | MapDoc(entries: DocEntries)
  datatype DocItems = LastItem(doc: Doc) | NextItem(doc: Doc, more: DocItems)
  datatype DocEntries = LastEntry(key: string, doc: Doc) | NextEntry(key: string, doc: Doc, more: DocEntries)

  function ValueOf(d: Doc): Value {
    match d
    case NullDoc => Null
    case Scalar(s) => Str(s)
    case SeqDoc(items) => List(ItemValues(items, []))
    case MapDoc(entries) => Dict(EntryValues(entries, map[]))
  }

  function ItemValues(items: DocItems, acc: seq<Value>): seq<Value> {
    match items
    case LastItem(d) => acc + [ValueOf(d)]
    case NextItem(d, more) => ItemValues(more, acc + [ValueOf(d)])
  }

  /** A key written twice keeps its last value, as in the reader. */
  function EntryValues(entries: DocEntries, acc: map<string, Value>): map<string, Value> {
    match entries
    case LastEntry(k, d) => acc[k := ValueOf(d)]
    case NextEntry(k, d, more) => EntryValues(more, acc[k := ValueOf(d)])
  }

  /** No key and no scalar contains a line break. */
  predicate OneLine(d: Doc) {
    match d
    case NullDoc => true
    case Scalar(s) => '\n' !in s
    case SeqDoc(items) => ItemsOneLine(items)
    case MapDoc(entries) => EntriesOneLine(entries)
  }

  predicate ItemsOneLine(items: DocItems) {
    OneLine(items.doc) && (items.NextItem? ==> ItemsOneLine(items.more))
  }

  predicate EntriesOneLine(entries: DocEntries) {
    '\n' !in entries.key && OneLine(entries.doc) && (entries.NextEntry? ==> EntriesOneLine(entries.more))
  }

  /** A tree of non-empty collections, strings without line breaks and nulls. */
  predicate Writable(v: Value) {
    match v
    case Null => true
    case Str(s) => '\n' !in s
    case List(items) => items != [] && forall i :: 0 <= i < |items| ==> Writable(items[i])
    case Dict(entries) => entries.Keys != {} && forall k :: k in entries ==> '\n' !in k && Writable(entries[k])
  }

  /** Every such tree can be written down. */
  lemma {:induction false} Written(v: Value) returns (d: Doc)
    requires Writable(v)
    ensures OneLine(d) && ValueOf(d) == v && (d.SeqDoc? <==> v.List?) && (d.MapDoc? <==> v.Dict?)
    decreases v, 1
  {
    match v
    case Null => d := NullDoc;
    case Str(s) => d := Scalar(s);
    case List(items) =>
      var ds := WrittenItems(v, 0);
      assert items[..0] == [];
      d := SeqDoc(ds);
    case Dict(entries) =>
      var es := WrittenEntries(v, entries.Keys, map[]);
      d := MapDoc(es);
  }

  lemma {:induction false} WrittenItems(v: Value, i: nat) returns (ds: DocItems)
    requires v.List? && Writable(v) && i < |v.items|
    ensures ItemsOneLine(ds) && ItemValues(ds, v.items[..i]) == v.items
    decreases v, 0, |v.items| - i
  {
    var d := Written(v.items[i]);
    assert v.items[..i] + [v.items[i]] == v.items[..i + 1];
    if i == |v.items| - 1 {
      ds := LastItem(d);
    } else {
      var more := WrittenItems(v, i + 1);
      ds := NextItem(d, more);
    }
  }

  lemma {:induction false} WrittenEntries(v: Value, rest: set<string>, acc: map<string, Value>) returns (es: DocEntries)
    requires v.Dict? && Writable(v) && rest != {} && rest <= v.entries.Keys
    requires acc.Keys == v.entries.Keys - rest && forall k :: k in acc ==> acc[k] == v.entries[k]
    ensures EntriesOneLine(es) && EntryValues(es, acc) == v.entries
    decreases v, 0, |rest|
  {
    var k :| k in rest;
    var d := Written(v.entries[k]);
    if rest == {k} {
      es := LastEntry(k, d);
      assert acc[k := v.entries[k]] == v.entries;
    } else {
      var more := WrittenEntries(v, rest - {k}, acc[k := v.entries[k]]);
      es := NextEntry(k, d, more);
    }
  }

  /** And nothing else is. */
  lemma {:induction false} OnlyWritable(d: Doc)
    requires OneLine(d)
    ensures Writable(ValueOf(d))
    decreases d
  {
    match d
    case NullDoc =>
    case Scalar(s) =>
    case SeqDoc(items) => OnlyWritableItems(items, []);
    case MapDoc(entries) => OnlyWritableEntries(entries, map[]);
  }

  lemma {:induction false} OnlyWritableItems(items: DocItems, acc: seq<Value>)
    requires ItemsOneLine(items) && forall i :: 0 <= i < |acc| ==> Writable(acc[i])
    ensures Writable(List(ItemValues(items, acc)))
    decreases items
  {
    OnlyWritable(items.doc);
    if items.NextItem? {
      OnlyWritableItems(items.more, acc + [ValueOf(items.doc)]);
    }
  }

  lemma {:induction false} OnlyWritableEntries(entries: DocEntries, acc: map<string, Value>)
    requires EntriesOneLine(entries) && forall k :: k in acc ==> '\n' !in k && Writable(acc[k])
    ensures Writable(Dict(EntryValues(entries, acc)))
    decreases entries
  {
    OnlyWritable(entries.doc);
    if entries.NextEntry? {
      OnlyWritableEntries(entries.more, acc[entries.key := ValueOf(entries.doc)]);
    } else {
      assert entries.key in acc[entries.key := ValueOf(entries.doc)].Keys;
    }
  }

  // ---------------------------------------------------------------- printing

  /** Character i needs no quotes: it is no quote and no odd white space, a colon stands before a visible
      character and a hash after one. */
  predicate PlainAt(s: string, i: nat)
    requires i < |s|
  {
    && s[i] != '"' && s[i] != '\'' && (IsSpace(s[i]) ==> s[i] == ' ' || s[i] == '\t')
    && (s[i] == ':' ==> i + 1 < |s| && s[i + 1] != ' ' && s[i + 1] != '\t')
    && (s[i] == '#' ==> i > 0 && s[i - 1] != ' ' && s[i - 1] != '\t')
  }

  /** Text that needs no quotes; a dash may start it before anything but a blank. */
  predicate PlainText(s: string) {
    && s != "" && (forall i {:trigger PlainAt(s, i)} :: 0 <= i < |s| ==> PlainAt(s, i))
    && !IsSpace(s[0]) && !IsSpace(s[|s| - 1]) && s[0] != '{' && s[0] != '['
    && (s[0] == '-' ==> |s| > 1 && s[1] != ' ')
  }

  predicate Plain(s: string) {
    PlainText(s) && s != "null" && s != "~" && s != "Null" && s != "NULL"
  }

  function Spaces(n: nat): (s: string)
    ensures |s| == n && forall i :: 0 <= i < n ==> s[i] == ' '
  {
    seq(n, _ => ' ')
  }

  /** A printed line: its indentation and what follows it. */
  datatype Row = Row(indent: nat, content: string)

  /** The rows as tokenised lines, the last one numbered `last`. */
  function Numbered(rows: seq<Row>, last: int): (ls: seq<Line>)
    ensures |ls| == |rows|
  {
    if rows == [] then []
    else [Line(rows[0].indent, rows[0].content, last + 1 - |rows|)] + Numbered(rows[1..], last)
  }

  /** Layout choices the reader must not depend on: the nesting step, whether a mapping inside
      a sequence starts on its dash line, whether null is spelled out, whether every string is quoted. */
  datatype Style = Style(step: nat, compact: bool, spellNull: bool, quoteAll: bool) {

    function Tok(s: string): string { if Plain(s) && !quoteAll then s else Quoted(s) }

    function Put(indent: nat, content: string, post: seq<Row>): seq<Row> {
      [Row(indent, content)] + post
    }

    /** What follows "key:" or "-" on the same line. */
    function Inline(d: Doc): string {
      match d
      case NullDoc => if spellNull then " null" else ""
      case Scalar(s) => " " + Tok(s)
      case _ => ""
    }

    function KeyText(key: string, d: Doc): string { Tok(key) + ":" + Inline(d) }

    /** The lines below a "key:" or "-" whose logical column is m, then `post`. */
    function Below(d: Doc, m: nat, post: seq<Row>): seq<Row>
      decreases d, 1
    {
      if d.SeqDoc? || d.MapDoc? then Print(d, m + step, post) else post
    }

    /** A collection as a block at the given indent, then `post`. */
    function Print(d: Doc, n: nat, post: seq<Row>): seq<Row>
      requires d.SeqDoc? || d.MapDoc?
      decreases d, 0
    {
      match d
      case SeqDoc(items) => PrintItems(items, n, post)
      case MapDoc(entries) => PrintEntries(entries, n, post)
    }

    function PrintEntries(es: DocEntries, n: nat, post: seq<Row>): seq<Row>
      decreases es
    {
      var after := if es.NextEntry? then PrintEntries(es.more, n, post) else post;
      Put(n, KeyText(es.key, es.doc), Below(es.doc, n, after))
    }

    predicate OnDashLine(d: Doc) { compact && d.MapDoc? && d.entries.key != "" }

    function PrintItem(d: Doc, n: nat, post: seq<Row>): seq<Row>
      decreases d, 2
    {
      if OnDashLine(d) then
        var es := d.entries;
        var after := if es.NextEntry? then PrintEntries(es.more, n + 2, post) else post;
        Put(n, "- " + KeyText(es.key, es.doc), Below(es.doc, n + 2, after))
      else
        Put(n, "-" + Inline(d), Below(d, n, post))
    }

    function PrintItems(items: DocItems, n: nat, post: seq<Row>): seq<Row>
      decreases items
    {
      var after := if items.NextItem? then PrintItems(items.more, n, post) else post;
      PrintItem(items.doc, n, after)
    }
  }

  // ---------------------------------------------------------------- tokens survive the scanner

  ghost predicate OccursAt(line: string, i: nat, tok: string) {
    i + |tok| <= |line| && line[i..i + |tok|] == tok
  }

  lemma {:induction false} ScanOver(mark: Mark, line: string, i: nat, j: nat)
    requires i <= j <= |line|
    requires forall k :: i <= k < j ==> line[k] != '"' && line[k] != '\'' && !mark.At(line, k)
    ensures Scan(mark, line, i, false, false) == Scan(mark, line, j, false, false)
    decreases j - i
  {
    if i < j {
      ScanOver(mark, line, i + 1, j);
    }
  }

  lemma {:induction false} ScanDoubled(mark: Mark, line: string, i: nat, s: string)
    requires OccursAt(line, i, Doubled(s))
    ensures Scan(mark, line, i, true, false) == Scan(mark, line, i + |Doubled(s)|, true, false)
    decreases |s|
  {
    if s != [] {
      var d := Doubled(s);
      var step := if s[0] == '\'' then 2 else 1;
      assert line[i..i + |d|][step..] == line[i + step..i + |d|];
      assert d[step..] == Doubled(s[1..]);
      ScanDoubled(mark, line, i + step, s[1..]);
      assert line[i] == line[i..i + |d|][0];
      if step == 2 {
        assert line[i + 1] == line[i..i + |d|][1];
      }
    }
  }

  lemma SubSlice(line: string, i: nat, j: nat, a: nat, b: nat)
    requires i <= j <= |line| && a <= b <= j - i
    ensures line[i..j][a..b] == line[i + a..i + b]
  {
    assert forall k :: 0 <= k < b - a ==> line[i..j][a..b][k] == line[i + a + k];
  }

  lemma ScanQuoted(mark: Mark, line: string, i: nat, s: string)
    requires OccursAt(line, i, Quoted(s))
    ensures Scan(mark, line, i, false, false) == Scan(mark, line, i + |Quoted(s)|, false, false)
  {
    var q := Quoted(s);
    assert line[i] == line[i..i + |q|][0];
    assert line[i + |q| - 1] == line[i..i + |q|][|q| - 1];
    SubSlice(line, i, i + |q|, 1, |q| - 1);
    assert q[1..|q| - 1] == Doubled(s);
    ScanDoubled(mark, line, i + 1, s);
  }

  /** A printed key or scalar is passed over whole: no comment starts and no key ends inside it. */
  lemma ScanTok(st: Style, mark: Mark, line: string, i: nat, s: string)
    requires OccursAt(line, i, st.Tok(s))
    ensures Scan(mark, line, i, false, false) == Scan(mark, line, i + |st.Tok(s)|, false, false)
  {
    var t := st.Tok(s);
    if Plain(s) && !st.quoteAll {
      ScanPlain(mark, line, i, s);
    } else {
      ScanQuoted(mark, line, i, s);
    }
  }

  lemma ScanPlain(mark: Mark, line: string, i: nat, s: string)
    requires PlainText(s) && OccursAt(line, i, s)
    ensures Scan(mark, line, i, false, false) == Scan(mark, line, i + |s|, false, false)
  {
    forall k | i <= k < i + |s|
      ensures line[k] == s[k - i]
    {
      assert line[k] == line[i..i + |s|][k - i];
    }
    forall k | i <= k < i + |s|
      ensures line[k] != '"' && line[k] != '\'' && !mark.At(line, k)
    {
      PlainUnmarked(mark, line, i, s, k);
    }
    ScanOver(mark, line, i, i + |s|);
  }

  lemma PlainUnmarked(mark: Mark, line: string, i: nat, s: string, k: nat)
    requires PlainText(s) && i <= k < i + |s| <= |line| && forall j :: i <= j < i + |s| ==> line[j] == s[j - i]
    ensures line[k] != '"' && line[k] != '\'' && !mark.At(line, k)
  {
    assert PlainAt(s, k - i);
    if line[k] == ':' {
      assert line[k + 1] == s[k + 1 - i];
    } else if line[k] == '#' {
      assert line[k - 1] == s[k - 1 - i];
    }
  }

  lemma TrimSpaceKeeps(s: string)
    requires s != [] && !IsSpace(s[0]) && !IsSpace(s[|s| - 1])
    ensures TrimSpace(s) == s && TrimSpace(" " + s) == s
  {
    assert (" " + s)[1..] == s;
  }

  /** Text that starts neither an item nor a flow collection, whatever follows it. */
  predicate NoItem(t: string) { t != "" && t[0] != '{' && t[0] != '[' && (t[0] == '-' ==> |t| > 1 && t[1] != ' ') }

  lemma TokShape(st: Style, s: string)
    ensures var t := st.Tok(s);
      && t != "" && !IsSpace(t[0]) && !IsSpace(t[|t| - 1])
      && NoItem(t) && TrimSpace(t) == t && TrimSpace(" " + t) == t
      && ('\n' !in s ==> '\n' !in t)
  {
    DoubledKeepsLine(s);
    TrimSpaceKeeps(st.Tok(s));
  }

  lemma {:induction false} DoubledKeepsLine(s: string)
    ensures '\n' !in s ==> '\n' !in Doubled(s)
  {
    if s != [] {
      DoubledKeepsLine(s[1..]);
      assert '\n' !in s ==> '\n' !in s[1..];
    }
  }

  lemma TokUnquotes(rd: Reader, st: Style, s: string)
    ensures rd.Unquote(st.Tok(s)) == s
    ensures rd.ParseScalar(st.Tok(s)) == Some(Str(s))
  {
    var t := st.Tok(s);
    TokShape(st, s);
    if Plain(s) && !st.quoteAll {
      assert PlainAt(s, 0);
    } else {
      assert t[1..|t| - 1] == Doubled(s);
      CollapsedDoubled(s);
    }
  }

  /** The inline text as a reader sees it after trimming, and its value. */
  lemma InlineReads(rd: Reader, st: Style, d: Doc)
    ensures TrimSpace(st.Inline(d)) == if st.Inline(d) == "" then "" else st.Inline(d)[1..]
    ensures st.Inline(d) != "" ==> st.Inline(d)[0] == ' ' && TrimSpace(st.Inline(d)) != ""
    ensures st.Inline(d) != "" ==> rd.ParseScalar(TrimSpace(st.Inline(d))) == Some(ValueOf(d))
    ensures st.Inline(d) != "" ==> rd.MappingStart(TrimSpace(st.Inline(d))) == None
  {
    match d
    case Scalar(s) =>
      TokShape(st, s);
      TokUnquotes(rd, st, s);
      assert (" " + st.Tok(s))[1..] == st.Tok(s);
      assert st.Tok(s)[0..|st.Tok(s)|] == st.Tok(s);
      ScanTok(st, KeyEnd, st.Tok(s), 0, s);
    case NullDoc =>
      TrimSpaceKeeps("null");
      assert " " + "null" == " null" && " null"[1..] == "null";
      ScanOver(KeyEnd, "null", 0, 4);
    case _ =>
  }

  lemma SplitAt(rd: Reader, line: string, t: string, r: string)
    requires line == t + ":" + r && (r == "" || r[0] == ' ') && t != "" && TrimSpace(t) == t
    requires Scan(KeyEnd, line, 0, false, false) == Scan(KeyEnd, line, |t|, false, false)
    ensures rd.SplitKeyAt(line) == Key(rd.Unquote(t), TrimSpace(r))
  {
    assert line[|t|] == ':' && (r != "" ==> line[|t| + 1] == r[0]);
    assert KeyEnd.At(line, |t|);
    assert line[..|t|] == t && line[|t| + 1..] == r;
  }

  /** Splitting a printed key line gives back the key and the inline text. */
  lemma SplitKeyPrinted(rd: Reader, st: Style, key: string, d: Doc)
    ensures rd.SplitKeyAt(st.KeyText(key, d)) == Key(key, TrimSpace(st.Inline(d)))
  {
    KeyTokReads(rd, st, key);
    InlineStart(st, d);
    var line := st.KeyText(key, d);
    assert line == st.Tok(key) + (":" + st.Inline(d));
    ScanKeyTok(st, key, line, ":" + st.Inline(d));
    SplitAt(rd, line, st.Tok(key), st.Inline(d));
  }

  lemma KeyTokReads(rd: Reader, st: Style, key: string)
    ensures st.Tok(key) != "" && TrimSpace(st.Tok(key)) == st.Tok(key) && rd.Unquote(st.Tok(key)) == key
  {
    TokShape(st, key);
    TokUnquotes(rd, st, key);
  }

  lemma InlineStart(st: Style, d: Doc)
    ensures st.Inline(d) == "" || st.Inline(d)[0] == ' '
  {
  }

  lemma ScanKeyTok(st: Style, key: string, line: string, rest: string)
    requires line == st.Tok(key) + rest
    ensures Scan(KeyEnd, line, 0, false, false) == Scan(KeyEnd, line, |st.Tok(key)|, false, false)
  {
    var t := st.Tok(key);
    assert line[0..|t|] == t;
    ScanTok(st, KeyEnd, line, 0, key);
  }

  // ---------------------------------------------------------------- the parser undoes the printer

  ghost predicate EndsBlock(post: seq<Row>, n: nat) { post == [] || post[0].indent < n }

  lemma {:induction false} ValueReads(rd: Reader, st: Style, d: Doc, number: int, m: nat, post: seq<Row>, last: int)
    requires st.step >= 1 && EndsBlock(post, m + 1)
    ensures rd.EntryValue(TrimSpace(st.Inline(d)), number, Numbered(st.Below(d, m, post), last), m)
            == Done(ValueOf(d), Numbered(post, last))
    decreases d, 2
  {
    InlineReads(rd, st, d);
    if d.SeqDoc? || d.MapDoc? {
      BlockReads(rd, st, d, m + st.step, post, last);
    }
  }

  /** Reading a printed block gives its tree and stops exactly at the lines after it. */
  lemma {:induction false} BlockReads(rd: Reader, st: Style, d: Doc, n: nat, post: seq<Row>, last: int)
    requires (d.SeqDoc? || d.MapDoc?) && st.step >= 1 && EndsBlock(post, n)
    ensures rd.Block(Numbered(st.Print(d, n, post), last), n) == Done(ValueOf(d), Numbered(post, last))
    ensures st.Print(d, n, post) != [] && st.Print(d, n, post)[0].indent == n
    decreases d, 1
  {
    match d
    case SeqDoc(items) => ItemsRead(rd, st, items, n, post, last, []);
    case MapDoc(entries) => EntriesRead(rd, st, entries, n, post, last, map[]);
  }

  lemma NumberedPut(st: Style, n: nat, content: string, post: seq<Row>, last: int)
    ensures Numbered(st.Put(n, content, post), last) == [Line(n, content, last - |post|)] + Numbered(post, last)
  {
    assert st.Put(n, content, post)[1..] == post;
  }

  /** One printed entry: its line splits into key and text, and its value is read up to `after`. */
  lemma {:induction false} EntryReads(rd: Reader, st: Style, es: DocEntries, n: nat, after: seq<Row>, last: int)
    requires st.step >= 1 && EndsBlock(after, n + 1)
    ensures rd.Entry(Numbered(st.Put(n, st.KeyText(es.key, es.doc), st.Below(es.doc, n, after)), last), n)
            == Done((es.key, ValueOf(es.doc)), Numbered(after, last))
    decreases es, 0
  {
    var content, below := st.KeyText(es.key, es.doc), st.Below(es.doc, n, after);
    NumberedPut(st, n, content, below, last);
    SplitKeyPrinted(rd, st, es.key, es.doc);
    ValueReads(rd, st, es.doc, last - |below|, n, after, last);
  }

  lemma EntriesStep(rd: Reader, ls: seq<Line>, n: nat, acc: map<string, Value>, key: string, v: Value, rest: seq<Line>)
    requires ls != [] && ls[0].indent == n && !IsItem(ls[0].content) && rd.Entry(ls, n) == Done((key, v), rest)
    ensures rd.Entries(ls, n, acc) == rd.Entries(rest, n, acc[key := v])
    ensures rd.MoreEntries(ls, n, acc) == rd.MoreEntries(rest, n, acc[key := v])
  {
  }

  lemma {:induction false} EntriesRead(rd: Reader, st: Style, es: DocEntries, n: nat, post: seq<Row>, last: int,
                                       acc: map<string, Value>)
    requires st.step >= 1 && EndsBlock(post, n)
    ensures var ls := Numbered(st.PrintEntries(es, n, post), last);
      && rd.Entries(ls, n, acc) == Done(EntryValues(es, acc), Numbered(post, last))
      && rd.MoreEntries(ls, n, acc) == Done(EntryValues(es, acc), Numbered(post, last))
    ensures var rows := st.PrintEntries(es, n, post);
      rows != [] && rows[0].indent == n && !IsItem(rows[0].content)
    decreases es, 1
  {
    var after := if es.NextEntry? then st.PrintEntries(es.more, n, post) else post;
    KeyTextStarts(st, es.key, es.doc);
    if es.NextEntry? {
      EntriesRead(rd, st, es.more, n, post, last, acc[es.key := ValueOf(es.doc)]);
    }
    EntryReads(rd, st, es, n, after, last);
    EntriesStep(rd, Numbered(st.PrintEntries(es, n, post), last), n, acc, es.key, ValueOf(es.doc), Numbered(after, last));
  }

  lemma DashStrips(item: string)
    ensures var content := "- " + item;
      IsItem(content) && StartsWith(content, '-') && StripDash(content) == item
  {
    assert ("- " + item)[2..] == item;
  }

  lemma KeyTextStarts(st: Style, key: string, d: Doc)
    ensures var text := st.KeyText(key, d);
      text != "" && !IsItem(text) && !StartsWith(text, '{') && !StartsWith(text, '[')
  {
    TokShape(st, key);
    FirstKept(st.Tok(key), ":" + st.Inline(d));
    assert st.KeyText(key, d) == st.Tok(key) + (":" + st.Inline(d));
  }

  lemma FirstKept(t: string, rest: string)
    requires NoItem(t)
    ensures var text := t + rest;
      text != "" && !IsItem(text) && !StartsWith(text, '{') && !StartsWith(text, '[')
  {
    var text := t + rest;
    assert text[0] == t[0] && (|t| > 1 ==> text[1] == t[1]);
  }

  /** The dash line of a compact mapping is recognised as the start of a mapping. */
  lemma DashLineSplits(rd: Reader, st: Style, key: string, d: Doc)
    requires key != ""
    ensures var content := "- " + st.KeyText(key, d);
      && IsItem(content) && StartsWith(content, '-') && StripDash(content) != ""
      && rd.MappingStart(StripDash(content)) == Some((key, TrimSpace(st.Inline(d))))
  {
    DashStrips(st.KeyText(key, d));
    KeyTextStarts(st, key, d);
    SplitKeyPrinted(rd, st, key, d);
  }

  /** How the item routine treats a dash line that starts a mapping. */
  lemma ItemOfMapping(rd: Reader, l: Line, tail: seq<Line>, n: nat, key: string, text: string, v: Value, mid: seq<Line>,
                      m: map<string, Value>, rest: seq<Line>)
    requires StartsWith(l.content, '-') && StripDash(l.content) != ""
    requires rd.MappingStart(StripDash(l.content)) == Some((key, text))
    requires rd.EntryValue(text, l.number, tail, n + 2) == Done(v, mid)
    requires rd.MoreEntries(mid, n + 2, map[key := v]) == Done(m, rest)
    ensures rd.Item([l] + tail, n) == Done(Dict(m), rest)
  {
    assert ([l] + tail)[1..] == tail;
  }

  /** The entries below the dash line complete the mapping. */
  lemma {:induction false} RestOfMappingReads(rd: Reader, st: Style, es: DocEntries, n: nat, post: seq<Row>, last: int)
    requires st.step >= 1 && EndsBlock(post, n + 1)
    ensures var after := if es.NextEntry? then st.PrintEntries(es.more, n + 2, post) else post;
      && EndsBlock(after, n + 3)
      && rd.MoreEntries(Numbered(after, last), n + 2, map[es.key := ValueOf(es.doc)])
         == Done(EntryValues(es, map[]), Numbered(post, last))
    decreases es, 1
  {
    var acc := map[es.key := ValueOf(es.doc)];
    assert map[][es.key := ValueOf(es.doc)] == acc;
    if es.NextEntry? {
      EntriesRead(rd, st, es.more, n + 2, post, last, acc);
    }
  }

  /** A mapping that starts on its dash line. */
  lemma {:induction false} DashMappingReads(rd: Reader, st: Style, es: DocEntries, n: nat, post: seq<Row>, last: int,
                                            after: seq<Row>, below: seq<Row>)
    requires st.step >= 1 && es.key != "" && EndsBlock(post, n + 1)
    requires after == (if es.NextEntry? then st.PrintEntries(es.more, n + 2, post) else post)
    requires below == st.Below(es.doc, n + 2, after)
    ensures rd.Item([Line(n, "- " + st.KeyText(es.key, es.doc), last - |below|)] + Numbered(below, last), n)
            == Done(Dict(EntryValues(es, map[])), Numbered(post, last))
    decreases es, 2
  {
    var l := Line(n, "- " + st.KeyText(es.key, es.doc), last - |below|);
    DashLineSplits(rd, st, es.key, es.doc);
    RestOfMappingReads(rd, st, es, n, post, last);
    ValueReads(rd, st, es.doc, l.number, n + 2, after, last);
    ItemOfMapping(rd, l, Numbered(below, last), n, es.key, TrimSpace(st.Inline(es.doc)), ValueOf(es.doc),
                  Numbered(after, last), EntryValues(es, map[]), Numbered(post, last));
  }

  lemma {:induction false} ItemReads(rd: Reader, st: Style, d: Doc, n: nat, post: seq<Row>, last: int)
    requires st.step >= 1 && EndsBlock(post, n + 1)
    ensures var rows := st.PrintItem(d, n, post);
      && rows != [] && rows[0].indent == n && IsItem(rows[0].content) && StartsWith(rows[0].content, '-')
      && rd.Item(Numbered(rows, last), n) == Done(ValueOf(d), Numbered(post, last))
    decreases d, 4
  {
    if st.OnDashLine(d) {
      DashItemReads(rd, st, d, n, post, last, st.PrintItem(d, n, post));
    } else {
      BulletItemReads(rd, st, d, n, post, last, st.PrintItem(d, n, post));
    }
  }

  lemma {:induction false} DashItemReads(rd: Reader, st: Style, d: Doc, n: nat, post: seq<Row>, last: int,
                                         rows: seq<Row>)
    requires st.step >= 1 && EndsBlock(post, n + 1) && st.OnDashLine(d) && rows == st.PrintItem(d, n, post)
    ensures rows != [] && rows[0].indent == n && IsItem(rows[0].content) && StartsWith(rows[0].content, '-')
    ensures rd.Item(Numbered(rows, last), n) == Done(ValueOf(d), Numbered(post, last))
    decreases d, 3
  {
    var es := d.entries;
    var after := if es.NextEntry? then st.PrintEntries(es.more, n + 2, post) else post;
    var below := st.Below(es.doc, n + 2, after);
    DashLineSplits(rd, st, es.key, es.doc);
    NumberedPut(st, n, "- " + st.KeyText(es.key, es.doc), below, last);
    DashMappingReads(rd, st, es, n, post, last, after, below);
  }

  lemma {:induction false} BulletItemReads(rd: Reader, st: Style, d: Doc, n: nat, post: seq<Row>, last: int,
                                           rows: seq<Row>)
    requires st.step >= 1 && EndsBlock(post, n + 1) && !st.OnDashLine(d) && rows == st.PrintItem(d, n, post)
    ensures rows != [] && rows[0].indent == n && IsItem(rows[0].content) && StartsWith(rows[0].content, '-')
    ensures rd.Item(Numbered(rows, last), n) == Done(ValueOf(d), Numbered(post, last))
    decreases d, 3
  {
    var below := st.Below(d, n, post);
    var number, tail := last - |below|, Numbered(below, last);
    ValueReads(rd, st, d, number, n, post, last);
    PlainItemReads(rd, st, d, n, number, tail, Numbered(post, last));
    BulletLines(st, d, n, post, last, rows, below);
  }

  lemma BulletLines(st: Style, d: Doc, n: nat, post: seq<Row>, last: int, rows: seq<Row>, below: seq<Row>)
    requires !st.OnDashLine(d) && rows == st.PrintItem(d, n, post) && below == st.Below(d, n, post)
    ensures rows == [Row(n, "-" + st.Inline(d))] + below
    ensures Numbered(rows, last) == [Line(n, "-" + st.Inline(d), last - |below|)] + Numbered(below, last)
  {
    NumberedPut(st, n, "-" + st.Inline(d), below, last);
  }

  lemma PlainItemReads(rd: Reader, st: Style, d: Doc, n: nat, number: int, tail: seq<Line>, rest: seq<Line>)
    requires !st.OnDashLine(d)
    requires rd.EntryValue(TrimSpace(st.Inline(d)), number, tail, n) == Done(ValueOf(d), rest)
    ensures var content := "-" + st.Inline(d);
      && IsItem(content) && StartsWith(content, '-')
      && rd.Item([Line(n, content, number)] + tail, n) == Done(ValueOf(d), rest)
  {
    var text := st.Inline(d);
    InlineReads(rd, st, d);
    assert StripDash("-" + text) == TrimSpace(text);
    assert ([Line(n, "-" + text, number)] + tail)[1..] == tail;
  }

  lemma ItemsStep(rd: Reader, ls: seq<Line>, n: nat, acc: seq<Value>, v: Value, rest: seq<Line>)
    requires ls != [] && ls[0].indent == n && StartsWith(ls[0].content, '-') && rd.Item(ls, n) == Done(v, rest)
    ensures rd.Items(ls, n, acc) == rd.Items(rest, n, acc + [v])
  {
  }

  lemma {:induction false} ItemsRead(rd: Reader, st: Style, items: DocItems, n: nat, post: seq<Row>, last: int,
                                     acc: seq<Value>)
    requires st.step >= 1 && EndsBlock(post, n)
    ensures rd.Items(Numbered(st.PrintItems(items, n, post), last), n, acc)
            == Done(ItemValues(items, acc), Numbered(post, last))
    ensures var rows := st.PrintItems(items, n, post); rows != [] && rows[0].indent == n && IsItem(rows[0].content)
    decreases items
  {
    var after := if items.NextItem? then st.PrintItems(items.more, n, post) else post;
    if items.NextItem? {
      ItemsRead(rd, st, items.more, n, post, last, acc + [ValueOf(items.doc)]);
    }
    ItemReads(rd, st, items.doc, n, after, last);
    ItemsStep(rd, Numbered(st.PrintItems(items, n, post), last), n, acc, ValueOf(items.doc), Numbered(after, last));
  }
}
