/** Lines that carry nothing: blank lines, comment lines and document markers may stand anywhere in a text
    without changing what is read, and a tab in the first column is refused. */
module YamlSkips {
  import opened Common
  import opened YamlText
  import opened YamlParser
  import opened YamlRoundTrip
  import opened YamlLayout

  // ---------------------------------------------------------------- which lines carry nothing

  predicate AllBlank(s: string) { forall c :: c in s ==> c == ' ' || c == '\t' }

  lemma {:induction false} TrimBlank(s: string)
    requires AllBlank(s)
    ensures TrimLeft(s, IsSpace) == "" && TrimSpace(s) == ""
  {
    if s != "" {
      assert s[0] in s && forall c :: c in s[1..] ==> c in s;
      TrimBlank(s[1..]);
    }
  }

  /** Blanks and tabs, and perhaps a comment after them, are skipped. */
  lemma BlankSkipped(ws: string, comment: Option<string>, number: int)
    requires AllBlank(ws)
    ensures TokenOf(ws + (if comment.Some? then "#" + comment.value else ""), number) == Skipped
  {
    assert forall k :: 0 <= k < |ws| ==> ws[k] in ws;
    if comment.Some? {
      var a := ws + "#";
      assert ws + ("#" + comment.value) == a + comment.value;
      var k := TrimRightStops(a, comment.value, IsCR);
      var line := ws + ("#" + comment.value[..k]);
      assert a + comment.value[..k] == line;
      assert forall j :: 0 <= j < |ws| ==> line[j] == ws[j];
      ScanOver(Comment, line, 0, |ws|);
      StripsAt(line, ws, "#" + comment.value[..k]);
    } else {
      assert ws + "" == ws;
      assert TrimRight(ws, IsCR) == ws;
      ScanOver(Comment, ws, 0, |ws|);
      StripsAt(ws, ws, "");
      assert ws + "" == ws;
    }
    TrimBlank(ws);
  }

  /** A document marker is skipped, at any indentation and with any trailer. */
  lemma MarkerSkipped(n: nat, marker: string, t: Trailer, number: int)
    requires (marker == "---" || marker == "...") && t.Valid()
    ensures TokenOf(Spaces(n) + marker + t.Text(), number) == Skipped
  {
    var row := Row(n, marker);
    MarkerInked(row);
    StripsTrailer(row, t);
    var g := Spaces(t.gap);
    assert Raw(row) + g == Spaces(n) + (marker + g);
    StrippedToken(n, marker, g);
  }

  lemma MarkerInked(row: Row)
    requires row.content == "---" || row.content == "..."
    ensures Inked(row)
  {
    var raw := Raw(row);
    forall line: string | OccursAt(line, 0, raw)
      ensures Scan(Comment, line, 0, false, false) == Scan(Comment, line, |raw|, false, false)
    {
      InlineChars(line, 0, raw);
      ScanOver(Comment, line, 0, |raw|);
    }
  }

  lemma {:induction false} TrimLeftEnds(s: string)
    requires s != "" && !IsSpace(s[|s| - 1])
    ensures TrimLeft(s, IsSpace) != "" && TrimLeft(s, IsSpace)[|TrimLeft(s, IsSpace)| - 1] == s[|s| - 1]
  {
    if IsSpace(s[0]) {
      TrimLeftEnds(s[1..]);
    }
  }

  /** A line without quotes or hashes that starts with a tab and ends visibly is refused. */
  lemma TabRefused(text: string, number: int)
    requires text != "" && !IsSpace(text[|text| - 1]) && forall c :: c in text ==> c !in {'"', '\'', '#'}
    ensures TokenOf("\t" + text, number) == TabIndent
  {
    var line := "\t" + text;
    assert TrimRight(line, IsCR) == line;
    assert forall k :: 0 <= k < |line| ==> k == 0 || line[k] in text;
    ScanOver(Comment, line, 0, |line|);
    StripsAt(line, line, "");
    TrimLeftEnds(line);
  }

  ghost predicate TabAt(raws: seq<string>, i: nat) { i < |raws| && TokenOf(raws[i], i + 1) == TabIndent }

  function Added(kept: seq<Line>, token: Token): seq<Line> { if token.Kept? then kept + [token.line] else kept }

  /** The tokeniser on lines already turned into tokens. */
  function Collect(tokens: seq<Token>, i: nat, kept: seq<Line>): Tokens
    requires i <= |tokens|
    decreases |tokens| - i
  {
    if i == |tokens| then Lines(kept)
    else if tokens[i].TabIndent? then TabError(i + 1)
    else Collect(tokens, i + 1, Added(kept, tokens[i]))
  }

  lemma TokenizeStep(raws: seq<string>, i: nat, kept: seq<Line>, token: Token)
    requires i < |raws| && token == TokenOf(raws[i], i + 1)
    ensures Tokenize(raws, i, kept) ==
            if token.TabIndent? then TabError(i + 1) else Tokenize(raws, i + 1, Added(kept, token))
  {
  }

  ghost predicate TokensOf(raws: seq<string>, tokens: seq<Token>) {
    |tokens| == |raws| && forall j :: 0 <= j < |raws| ==> tokens[j] == TokenOf(raws[j], j + 1)
  }

  function AllTokens(raws: seq<string>): (tokens: seq<Token>)
    ensures TokensOf(raws, tokens)
  {
    seq(|raws|, i requires 0 <= i < |raws| => TokenOf(raws[i], i + 1))
  }

  lemma {:induction false} TokenizeCollects(raws: seq<string>, tokens: seq<Token>, i: nat, kept: seq<Line>, r: Tokens)
    requires TokensOf(raws, tokens) && i <= |raws| && r == Tokenize(raws, i, kept)
    ensures r == Collect(tokens, i, kept)
    decreases |raws| - i
  {
    if i < |raws| {
      TokenizeStep(raws, i, kept, tokens[i]);
      if !tokens[i].TabIndent? {
        TokenizeCollects(raws, tokens, i + 1, Added(kept, tokens[i]), r);
      }
    }
  }

  lemma {:induction false} CollectStops(tokens: seq<Token>, i: nat, k: nat, kept: seq<Line>)
    requires i <= k < |tokens| && tokens[k].TabIndent? && forall j :: i <= j < k ==> !tokens[j].TabIndent?
    ensures Collect(tokens, i, kept) == TabError(k + 1)
    decreases k - i
  {
    if i < k {
      CollectStops(tokens, i + 1, k, Added(kept, tokens[i]));
    }
  }

  /** The first such line of a text is the one reported. */
  lemma FirstTabReported(raws: seq<string>, k: nat)
    requires TabAt(raws, k) && forall j: nat :: j < k ==> !TabAt(raws, j)
    ensures Tokenize(raws, 0, []) == TabError(k + 1)
  {
    var tokens := AllTokens(raws);
    forall j: nat | j < k
      ensures !tokens[j].TabIndent?
    {
      assert !TabAt(raws, j);
    }
    TokenizeCollects(raws, tokens, 0, [], Tokenize(raws, 0, []));
    CollectStops(tokens, 0, k, []);
  }

  // ---------------------------------------------------------------- numbers do not matter

  /** The same lines, perhaps with other numbers. */
  ghost predicate Renumbered(a: seq<Line>, b: seq<Line>) {
    |a| == |b| && forall i :: 0 <= i < |a| ==> a[i].indent == b[i].indent && a[i].content == b[i].content
  }

  ghost predicate SameTokens(p: Tokens, q: Tokens) {
    match p
    case Lines(ls) => q.Lines? && Renumbered(ls, q.lines)
    case TabError(_) => q.TabError?
  }

  lemma {:induction false} TokenizeAligned(a: seq<string>, i: nat, kept: seq<Line>,
                                           b: seq<string>, j: nat, kept': seq<Line>)
    requires i <= |a| && j <= |b| && a[i..] == b[j..] && Renumbered(kept, kept')
    ensures SameTokens(Tokenize(a, i, kept), Tokenize(b, j, kept'))
    decreases |a| - i
  {
    assert |a| - i == |b| - j;
    if i < |a| {
      assert a[i] == a[i..][0] == b[j..][0] == b[j];
      assert a[i + 1..] == a[i..][1..] == b[j..][1..] == b[j + 1..];
      match TokenOf(a[i], i + 1)
      case Skipped => TokenizeAligned(a, i + 1, kept, b, j + 1, kept');
      case Kept(line) =>
        TokenizeAligned(a, i + 1, kept + [line], b, j + 1, kept' + [Line(line.indent, line.content, j + 1)]);
      case TabIndent =>
    }
  }

  /** A skipped line may be left out. */
  lemma {:induction false} TokenizeSkips(a: seq<string>, x: string, b: seq<string>, i: nat, kept: seq<Line>)
    requires i <= |a| && TokenOf(x, 0) == Skipped
    ensures SameTokens(Tokenize(a + [x] + b, i, kept), Tokenize(a + b, i, kept))
    decreases |a| - i
  {
    var long, short := a + [x] + b, a + b;
    if i < |a| {
      assert long[i] == a[i] == short[i];
      match TokenOf(a[i], i + 1)
      case Skipped => TokenizeSkips(a, x, b, i + 1, kept);
      case Kept(line) => TokenizeSkips(a, x, b, i + 1, kept + [line]);
      case TabIndent =>
    } else {
      assert long[i] == x && TokenOf(x, i + 1) == Skipped;
      assert long[i + 1..] == b && short[i..] == b;
      TokenizeAligned(long, i + 1, kept, short, i, kept);
    }
  }

  /** The same value from renumbered lines, or the same error. */
  ghost predicate SameParse<T>(p: Parse<T>, q: Parse<T>) {
    match p
    case Done(v, rest) => q.Done? && q.value == v && Renumbered(rest, q.rest)
    case Fail(_, c) => q.Fail? && q.cause == c
  }

  lemma RenumberedTail(a: seq<Line>, b: seq<Line>)
    requires Renumbered(a, b) && a != []
    ensures b != [] && Renumbered(a[1..], b[1..]) && a[0].indent == b[0].indent && a[0].content == b[0].content
  {
  }

  lemma {:induction false} BlockSame(rd: Reader, a: seq<Line>, b: seq<Line>, n: nat)
    requires Renumbered(a, b)
    ensures SameParse(rd.Block(a, n), rd.Block(b, n))
    decreases |a|, 2
  {
    if a != [] && a[0].indent >= n {
      RenumberedTail(a, b);
      if IsItem(a[0].content) {
        ItemsSame(rd, a, b, n, []);
      } else {
        EntriesSame(rd, a, b, n, map[]);
      }
    }
  }

  lemma {:induction false} NestedSame(rd: Reader, a: seq<Line>, b: seq<Line>, parent: nat)
    requires Renumbered(a, b)
    ensures SameParse(rd.Nested(a, parent), rd.Nested(b, parent))
    decreases |a|, 3
  {
    if a != [] && a[0].indent > parent {
      BlockSame(rd, a, b, a[0].indent);
    }
  }

  lemma {:induction false} EntryValueSame(rd: Reader, text: string, m: int, k: int, a: seq<Line>, b: seq<Line>,
                                          parent: nat)
    requires Renumbered(a, b)
    ensures SameParse(rd.EntryValue(text, m, a, parent), rd.EntryValue(text, k, b, parent))
    decreases |a|, 4
  {
    if text == "" {
      NestedSame(rd, a, b, parent);
    }
  }

  lemma {:induction false} EntrySame(rd: Reader, a: seq<Line>, b: seq<Line>, parent: nat)
    requires Renumbered(a, b) && a != []
    ensures b != [] && SameParse(rd.Entry(a, parent), rd.Entry(b, parent))
    decreases |a|, 0
  {
    RenumberedTail(a, b);
    match rd.SplitKeyAt(a[0].content)
    case KeyError(c) =>
    case Key(key, text) => EntryValueSame(rd, text, a[0].number, b[0].number, a[1..], b[1..], parent);
  }

  lemma {:induction false} EntriesSame(rd: Reader, a: seq<Line>, b: seq<Line>, n: nat, acc: map<string, Value>)
    requires Renumbered(a, b)
    ensures SameParse(rd.Entries(a, n, acc), rd.Entries(b, n, acc))
    decreases |a|, 1
  {
    if a != [] && a[0].indent == n && !IsItem(a[0].content) {
      RenumberedTail(a, b);
      EntrySame(rd, a, b, n);
      var e := rd.Entry(a, n);
      if e.Done? {
        EntriesSame(rd, e.rest, rd.Entry(b, n).rest, n, acc[e.value.0 := e.value.1]);
      }
    }
  }

  lemma {:induction false} MoreEntriesSame(rd: Reader, a: seq<Line>, b: seq<Line>, n: nat, acc: map<string, Value>)
    requires Renumbered(a, b)
    ensures SameParse(rd.MoreEntries(a, n, acc), rd.MoreEntries(b, n, acc))
    decreases |a|, 1
  {
    if a != [] && a[0].indent == n && !IsItem(a[0].content) {
      RenumberedTail(a, b);
      EntrySame(rd, a, b, n);
      var e := rd.Entry(a, n);
      if e.Done? {
        MoreEntriesSame(rd, e.rest, rd.Entry(b, n).rest, n, acc[e.value.0 := e.value.1]);
      }
    }
  }

  lemma {:induction false} ItemSame(rd: Reader, a: seq<Line>, b: seq<Line>, n: nat)
    requires Renumbered(a, b) && a != [] && StartsWith(a[0].content, '-')
    ensures b != [] && StartsWith(b[0].content, '-') && SameParse(rd.Item(a, n), rd.Item(b, n))
    decreases |a|, 0
  {
    RenumberedTail(a, b);
    var item := StripDash(a[0].content);
    if item == "" {
      NestedSame(rd, a[1..], b[1..], n);
    } else {
      match rd.MappingStart(item)
      case None =>
      case Some((key, text)) =>
        EntryValueSame(rd, text, a[0].number, b[0].number, a[1..], b[1..], n + 2);
        var p, q := rd.EntryValue(text, a[0].number, a[1..], n + 2), rd.EntryValue(text, b[0].number, b[1..], n + 2);
        if p.Done? {
          MoreEntriesSame(rd, p.rest, q.rest, n + 2, map[key := p.value]);
        }
    }
  }

  lemma {:induction false} ItemsSame(rd: Reader, a: seq<Line>, b: seq<Line>, n: nat, acc: seq<Value>)
    requires Renumbered(a, b)
    ensures SameParse(rd.Items(a, n, acc), rd.Items(b, n, acc))
    decreases |a|, 1
  {
    if a != [] && a[0].indent == n && StartsWith(a[0].content, '-') {
      RenumberedTail(a, b);
      ItemSame(rd, a, b, n);
      var v := rd.Item(a, n);
      if v.Done? {
        ItemsSame(rd, v.rest, rd.Item(b, n).rest, n, acc + [v.value]);
      }
    }
  }

  // ---------------------------------------------------------------- the theorem

  ghost predicate OneLiners(raws: seq<string>) { forall i :: 0 <= i < |raws| ==> '\n' !in raws[i] }

  ghost predicate SkipAt(raws: seq<string>, i: nat) { i < |raws| && TokenOf(raws[i], 0) == Skipped }

  lemma SkipToken(raws: seq<string>, tokens: seq<Token>, i: nat)
    requires TokensOf(raws, tokens) && SkipAt(raws, i)
    ensures tokens[i].Skipped?
  {
    assert tokens[i] == TokenOf(raws[i], i + 1);
  }

  lemma {:induction false} CollectSkips(tokens: seq<Token>, i: nat, kept: seq<Line>)
    requires i <= |tokens| && forall j :: 0 <= j < |tokens| ==> tokens[j].Skipped?
    ensures Collect(tokens, i, kept) == Lines(kept)
    decreases |tokens| - i
  {
    if i < |tokens| {
      CollectSkips(tokens, i + 1, kept);
    }
  }

  lemma AllSkipped(raws: seq<string>)
    requires forall j: nat :: j < |raws| ==> SkipAt(raws, j)
    ensures Tokenize(raws, 0, []) == Lines([])
  {
    var tokens := AllTokens(raws);
    forall j: nat | j < |raws|
      ensures tokens[j].Skipped?
    {
      SkipToken(raws, tokens, j);
    }
    TokenizeCollects(raws, tokens, 0, [], Tokenize(raws, 0, []));
    CollectSkips(tokens, 0, []);
  }

  lemma LastEmpty(raws: seq<string>)
    requires forall j: nat :: j < |raws| ==> SkipAt(raws, j)
    ensures forall j: nat :: j < |raws + [""]| ==> SkipAt(raws + [""], j)
  {
    forall j: nat | j < |raws + [""]|
      ensures SkipAt(raws + [""], j)
    {
      if j < |raws| {
        assert SkipAt(raws, j) && (raws + [""])[j] == raws[j];
      } else {
        BlankSkipped("", None, 0);
        assert "" + "" == "" && (raws + [""])[j] == "";
      }
    }
  }

  /** A text of nothing but such lines, the empty text included, is an empty mapping. */
  lemma NothingReads(rd: Reader, raws: seq<string>)
    requires OneLiners(raws) && forall j: nat :: j < |raws| ==> SkipAt(raws, j)
    ensures rd.Tree(Joined(raws)) == Done(Dict(map[]), [])
  {
    SplitJoined(raws);
    LastEmpty(raws);
    AllSkipped(raws + [""]);
  }

  /** A blank line, comment line or marker anywhere in any text changes neither the tree nor the error. */
  lemma SkippedAnywhere(rd: Reader, a: seq<string>, x: string, b: seq<string>)
    requires OneLiners(a + [x] + b) && TokenOf(x, 0) == Skipped
    ensures SameParse(rd.Tree(Joined(a + [x] + b)), rd.Tree(Joined(a + b)))
  {
    var long, short := a + [x] + b, a + b;
    forall i | 0 <= i < |short|
      ensures '\n' !in short[i]
    {
      assert short[i] == if i < |a| then long[i] else long[i + 1];
    }
    SplitJoined(long);
    SplitJoined(short);
    assert long + [""] == a + [x] + (b + [""]) && short + [""] == a + (b + [""]);
    TokenizeSkips(a, x, b + [""], 0, []);
    var p, q := Tokenize(long + [""], 0, []), Tokenize(short + [""], 0, []);
    if p.Lines? && p.lines != [] {
      BlockSame(rd, p.lines, q.lines, 0);
    }
  }
}
