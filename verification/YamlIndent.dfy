/** What the reader does with indentation its printer never writes: sequences at the column of
    their key, lines deeper than their block, and lines a block leaves over. */
module YamlIndent {
  import opened YamlText
  import opened YamlParser
  import opened YamlRoundTrip
  import opened YamlLayout

  // ---------------------------------------------------------------- leftovers

  /** A mapping that ends before the lines do stopped at a shallower line, or at an item of its own column. */
  lemma {:induction false} EntriesLeftover(rd: Reader, ls: seq<Line>, n: nat, acc: map<string, Value>)
    ensures var p := rd.Entries(ls, n, acc);
      p.Done? && p.rest != [] ==> p.rest[0].indent < n || (p.rest[0].indent == n && IsItem(p.rest[0].content))
    decreases |ls|
  {
    if ls != [] && ls[0].indent == n && !IsItem(ls[0].content) {
      var e := rd.Entry(ls, n);
      if e.Done? {
        EntriesLeftover(rd, e.rest, n, acc[e.value.0 := e.value.1]);
      }
    }
  }

  /** A sequence that ends before the lines do stopped at a shallower line, or at a line of its own
      column that does not start with a dash. */
  lemma {:induction false} ItemsLeftover(rd: Reader, ls: seq<Line>, n: nat, acc: seq<Value>)
    ensures var p := rd.Items(ls, n, acc);
      p.Done? && p.rest != [] ==>
        p.rest[0].indent < n || (p.rest[0].indent == n && !StartsWith(p.rest[0].content, '-'))
    decreases |ls|
  {
    if ls != [] && ls[0].indent == n && StartsWith(ls[0].content, '-') {
      var v := rd.Item(ls, n);
      if v.Done? {
        ItemsLeftover(rd, v.rest, n, acc + [v.value]);
      }
    }
  }

  /** On any lines, what a top-level block leaves over, and so what the reader silently ignores, starts
      in column zero: with an item after a mapping, or without a dash after a sequence. */
  lemma TopLeftover(rd: Reader, ls: seq<Line>)
    requires ls != []
    ensures var p := rd.Block(ls, 0);
      p.Done? && p.rest != [] ==>
        && p.rest[0].indent == 0
        && (p.value.Dict? ==> IsItem(p.rest[0].content))
        && (p.value.List? ==> !StartsWith(p.rest[0].content, '-'))
        && (p.value.Dict? || p.value.List?)
  {
    EntriesLeftover(rd, ls, 0, map[]);
    ItemsLeftover(rd, ls, 0, []);
  }

  /** Whatever the value of an entry leaves over below the entry's mapping is an error there. */
  lemma LeftoverRejected(rd: Reader, ls: seq<Line>, n: nat, acc: map<string, Value>)
    requires ls != [] && ls[0].indent == n && !IsItem(ls[0].content)
    requires rd.Entry(ls, n).Done? && rd.Entry(ls, n).rest != [] && rd.Entry(ls, n).rest[0].indent > n
    ensures var rest := rd.Entry(ls, n).rest;
      rd.Entries(ls, n, acc) == Fail(rest[0].number, UnexpectedIndent(rest[0].indent, n))
  {
    var e := rd.Entry(ls, n);
    EntriesStep(rd, ls, n, acc, e.value.0, e.value.1, e.rest);
  }

  // ---------------------------------------------------------------- sequences at their key's column

  /** A key line followed by anything: inline text is the value, otherwise the lines below decide. */
  lemma KeyLineReads(rd: Reader, st: Style, key: string, d: Doc, n: nat, number: int, tail: seq<Line>)
    ensures var p := rd.EntryValue(TrimSpace(st.Inline(d)), number, tail, n);
      p.Done? ==> rd.Entry([Line(n, st.KeyText(key, d), number)] + tail, n) == Done((key, p.value), p.rest)
  {
    var ls := [Line(n, st.KeyText(key, d), number)] + tail;
    assert ls[1..] == tail;
    SplitKeyPrinted(rd, st, key, d);
  }

  lemma NoValueAtOrLeft(rd: Reader, number: int, tail: seq<Line>, n: nat)
    requires tail != [] && tail[0].indent <= n
    ensures rd.EntryValue(TrimSpace(""), number, tail, n) == Done(Null, tail)
  {
    assert TrimSpace("") == "";
  }

  lemma NumberedHead(rows: seq<Row>, last: int)
    requires rows != []
    ensures Numbered(rows, last) != [] && Numbered(rows, last)[0].indent == rows[0].indent
    ensures Numbered(rows, last)[0].content == rows[0].content && Numbered(rows, last)[0].number == last + 1 - |rows|
  {
  }

  /** A sequence printed below its key is read back as the key's value exactly when it is indented
      deeper than the key; otherwise the key gets null and the sequence is left over. */
  lemma SequenceReadIffDeeper(rd: Reader, st: Style, key: string, items: DocItems, n: nat, c: nat, post: seq<Row>,
                              number: int, last: int)
    requires st.step >= 1 && EndsBlock(post, c)
    ensures var tail := Numbered(st.PrintItems(items, c, post), last);
      var e := rd.Entry([Line(n, st.KeyText(key, SeqDoc(items)), number)] + tail, n);
      && (e == Done((key, ValueOf(SeqDoc(items))), Numbered(post, last)) <==> c > n)
      && (c <= n ==> e == Done((key, Null), tail))
  {
    var d := SeqDoc(items);
    var tail := Numbered(st.PrintItems(items, c, post), last);
    ItemsRead(rd, st, items, c, post, last, []);
    NumberedHead(st.PrintItems(items, c, post), last);
    KeyLineReads(rd, st, key, d, n, number, tail);
    if c > n {
      DeeperValue(rd, tail, n, c, ItemValues(items, []), Numbered(post, last), number);
    } else {
      NoValueAtOrLeft(rd, number, tail, n);
    }
  }

  lemma DeeperValue(rd: Reader, tail: seq<Line>, n: nat, c: nat, vs: seq<Value>, rest: seq<Line>, number: int)
    requires tail != [] && tail[0].indent == c > n && IsItem(tail[0].content)
    requires rd.Items(tail, c, []) == Done(vs, rest)
    ensures rd.EntryValue(TrimSpace(""), number, tail, n) == Done(List(vs), rest)
  {
    assert TrimSpace("") == "";
    assert rd.Nested(tail, n) == rd.Block(tail, c) == Done(List(vs), rest);
  }

  /** A mapping whose only key has its sequence at the key's own column gives null and leaves the
      sequence, with everything after it, unread. */
  lemma UnindentedSequenceLeft(rd: Reader, st: Style, key: string, d: Doc, n: nat, number: int, tail: seq<Line>)
    requires d.SeqDoc? && tail != [] && tail[0].indent == n && IsItem(tail[0].content)
    ensures rd.Block([Line(n, st.KeyText(key, d), number)] + tail, n) == Done(Dict(map[key := Null]), tail)
  {
    NoValueAtOrLeft(rd, number, tail, n);
    KeyLineReads(rd, st, key, d, n, number, tail);
    KeyTextStarts(st, key, d);
    LoneEntryBlock(rd, Line(n, st.KeyText(key, d), number), tail, n, key);
  }

  lemma LoneEntryBlock(rd: Reader, l: Line, tail: seq<Line>, n: nat, key: string)
    requires l.indent == n && !IsItem(l.content) && rd.Entry([l] + tail, n) == Done((key, Null), tail)
    requires rd.Entries(tail, n, map[key := Null]) == Done(map[key := Null], tail)
    ensures rd.Block([l] + tail, n) == Done(Dict(map[key := Null]), tail)
  {
    assert map[][key := Null] == map[key := Null];
    EntriesStep(rd, [l] + tail, n, map[], key, Null, tail);
  }

  /** Below an outer key the same layout is rejected: what the inner mapping leaves over is too deep
      for the outer one. */
  lemma NestedUnindentedRejected(rd: Reader, st: Style, outer: string, key: string, d: Doc, n: nat, m: nat,
                                 number: int, tail: seq<Line>)
    requires n < m && d.SeqDoc? && tail != [] && tail[0].indent == m && IsItem(tail[0].content)
    ensures rd.Block([Line(n, st.KeyText(outer, d), number - 1)] + ([Line(m, st.KeyText(key, d), number)] + tail), n)
            == Fail(tail[0].number, UnexpectedIndent(m, n))
  {
    var inner := [Line(m, st.KeyText(key, d), number)] + tail;
    var ls := [Line(n, st.KeyText(outer, d), number - 1)] + inner;
    UnindentedSequenceLeft(rd, st, key, d, m, number, tail);
    assert rd.EntryValue(TrimSpace(""), number - 1, inner, n) == rd.Block(inner, m) by {
      assert TrimSpace("") == "";
    }
    KeyLineReads(rd, st, outer, d, n, number - 1, inner);
    KeyTextStarts(st, outer, d);
    LeftoverRejected(rd, ls, n, map[]);
  }

  /** So it is inside a mapping that started on its dash line, whose keys stand two columns in. */
  lemma DashUnindentedRejected(rd: Reader, st: Style, key: string, d: Doc, n: nat, number: int, tail: seq<Line>,
                               acc: seq<Value>)
    requires key != "" && d.SeqDoc? && tail != [] && tail[0].indent == n + 2 && IsItem(tail[0].content)
    ensures rd.Items([Line(n, "- " + st.KeyText(key, d), number)] + tail, n, acc)
            == Fail(tail[0].number, UnexpectedIndent(n + 2, n))
  {
    var l := Line(n, "- " + st.KeyText(key, d), number);
    DashLineSplits(rd, st, key, d);
    NoValueAtOrLeft(rd, number, tail, n + 2);
    ItemOfMapping(rd, l, tail, n, key, TrimSpace(st.Inline(d)), Null, tail, map[key := Null], tail);
    ItemsStep(rd, [l] + tail, n, acc, Dict(map[key := Null]), tail);
  }

  /** At the top of a document the sequence is ignored without an error. */
  lemma TopSequenceIgnored(rd: Reader, st: Style, key: string, items: DocItems, trailers: seq<Trailer>)
    requires st.step >= 1 && '\n' !in key && ItemsOneLine(items)
    requires var rows := st.Put(0, st.KeyText(key, SeqDoc(items)), st.PrintItems(items, 0, []));
      |trailers| == |rows| && forall t :: t in trailers ==> t.Valid()
    ensures var rows := st.Put(0, st.KeyText(key, SeqDoc(items)), st.PrintItems(items, 0, []));
      rd.Tree(Joined(RawLines(rows, trailers))) == Done(Dict(map[key := Null]), Numbered(rows, |rows|)[1..])
  {
    var d, below := SeqDoc(items), st.PrintItems(items, 0, []);
    var rows := st.Put(0, st.KeyText(key, d), below);
    var tail := Numbered(below, |rows|);
    UnindentedRowsClean(st, 0, key, items);
    TreeOfRows(rd, rows, trailers);
    ItemsRead(rd, st, items, 0, [], |rows|, []);
    NumberedPut(st, 0, st.KeyText(key, d), below, |rows|);
    NumberedHead(below, |rows|);
    UnindentedSequenceLeft(rd, st, key, d, 0, 1, tail);
    assert Numbered(rows, |rows|)[1..] == tail;
  }

  /** Below another key the document is rejected at the first line of the sequence. */
  lemma NestedSequenceRejected(rd: Reader, st: Style, outer: string, key: string, items: DocItems, m: nat,
                               trailers: seq<Trailer>)
    requires st.step >= 1 && m > 0 && '\n' !in outer && '\n' !in key && ItemsOneLine(items)
    requires var rows := NestedRows(st, outer, key, items, m);
      |trailers| == |rows| && forall t :: t in trailers ==> t.Valid()
    ensures rd.Tree(Joined(RawLines(NestedRows(st, outer, key, items, m), trailers))) == Fail(3, UnexpectedIndent(m, 0))
  {
    var d, below := SeqDoc(items), st.PrintItems(items, m, []);
    var inner := st.Put(m, st.KeyText(key, d), below);
    var rows := NestedRows(st, outer, key, items, m);
    var tail := Numbered(below, |rows|);
    UnindentedRowsClean(st, m, key, items);
    KeyRowClean(st, 0, "", outer, d);
    assert "" + st.KeyText(outer, d) == st.KeyText(outer, d);
    TreeOfRows(rd, rows, trailers);
    ItemsRead(rd, st, items, m, [], |rows|, []);
    NumberedPut(st, 0, st.KeyText(outer, d), inner, |rows|);
    NumberedPut(st, m, st.KeyText(key, d), below, |rows|);
    NumberedHead(below, |rows|);
    NestedUnindentedRejected(rd, st, outer, key, d, 0, m, 2, tail);
  }

  /** outer: / key: / the sequence at the column of key. */
  function NestedRows(st: Style, outer: string, key: string, items: DocItems, m: nat): seq<Row> {
    st.Put(0, st.KeyText(outer, SeqDoc(items)), st.Put(m, st.KeyText(key, SeqDoc(items)), st.PrintItems(items, m, [])))
  }

  lemma UnindentedRowsClean(st: Style, n: nat, key: string, items: DocItems)
    requires '\n' !in key && ItemsOneLine(items)
    ensures AllClean(st.Put(n, st.KeyText(key, SeqDoc(items)), st.PrintItems(items, n, [])))
  {
    ItemsClean(st, items, n, []);
    KeyRowClean(st, n, "", key, SeqDoc(items));
    assert "" + st.KeyText(key, SeqDoc(items)) == st.KeyText(key, SeqDoc(items));
  }

  // ---------------------------------------------------------------- lines that are too deep

  predicate LastInline(es: DocEntries) { if es.NextEntry? then LastInline(es.more) else es.doc.Scalar? }

  /** A line indented deeper than the mapping it follows, after an inline value, is an error that
      names that line and both indentations. */
  lemma {:induction false} OverIndentedRejected(rd: Reader, st: Style, es: DocEntries, n: nat, post: seq<Row>, last: int,
                                                acc: map<string, Value>)
    requires st.step >= 1 && LastInline(es) && post != [] && post[0].indent > n
    ensures rd.Entries(Numbered(st.PrintEntries(es, n, post), last), n, acc)
            == Fail(last + 1 - |post|, UnexpectedIndent(post[0].indent, n))
    ensures var rows := st.PrintEntries(es, n, post); rows != [] && rows[0].indent == n
    decreases es
  {
    var after := if es.NextEntry? then st.PrintEntries(es.more, n, post) else post;
    KeyTextStarts(st, es.key, es.doc);
    if es.NextEntry? {
      OverIndentedRejected(rd, st, es.more, n, post, last, acc[es.key := ValueOf(es.doc)]);
      EntryReads(rd, st, es, n, after, last);
    } else {
      InlineEntryReads(rd, st, es.key, es.doc, n, post, last);
      assert st.Below(es.doc, n, post) == post;
    }
    EntriesStep(rd, Numbered(st.PrintEntries(es, n, post), last), n, acc, es.key, ValueOf(es.doc), Numbered(after, last));
  }

  lemma InlineEntryReads(rd: Reader, st: Style, key: string, d: Doc, n: nat, post: seq<Row>, last: int)
    requires d.Scalar?
    ensures rd.Entry(Numbered(st.Put(n, st.KeyText(key, d), post), last), n)
            == Done((key, ValueOf(d)), Numbered(post, last))
  {
    NumberedPut(st, n, st.KeyText(key, d), post, last);
    InlineReads(rd, st, d);
    KeyLineReads(rd, st, key, d, n, last - |post|, Numbered(post, last));
  }
}
