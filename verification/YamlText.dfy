/** Character-level part of the compose YAML reader: trimming, the quote-aware scanner
    behind comment stripping and key splitting, and tokenising text into lines.
    Text is a sequence of Unicode scalar values. */
module YamlText {
  import opened Common

  /** Unicode white space, as the trimming functions of the Go library see it. */
  predicate IsSpace(c: char) {
    || c == ' ' || '\t' <= c <= '\r' || c == '\U{85}' || c == '\U{A0}' || c == '\U{1680}'
    || '\U{2000}' <= c <= '\U{200A}' || c == '\U{2028}' || c == '\U{2029}' || c == '\U{202F}'
    || c == '\U{205F}' || c == '\U{3000}'
  }

  predicate IsCR(c: char) { c == '\r' }

  predicate IsBlank(c: char) { c == ' ' }

  function TrimLeft(s: string, p: char -> bool): string {
    if s != [] && p(s[0]) then TrimLeft(s[1..], p) else s
  }

  function TrimRight(s: string, p: char -> bool): string {
    if s != [] && p(s[|s| - 1]) then TrimRight(s[..|s| - 1], p) else s
  }

  function TrimSpace(s: string): string { TrimRight(TrimLeft(s, IsSpace), IsSpace) }

  function Split(text: string): (lines: seq<string>)
    ensures lines != []
  {
    if text == [] then [[]]
    else
      var rest := Split(text[1..]);
      if text[0] == '\n' then [[]] + rest else [[text[0]] + rest[0]] + rest[1..]
  }

  // ---------------------------------------------------------------- the quote-aware scanner

  /** What a scan looks for outside quotes. */
  datatype Mark = Comment | KeyEnd {
    predicate At(line: string, i: nat) {
      i < |line| &&
      match this
      case Comment => line[i] == '#' && (i == 0 || line[i - 1] == ' ' || line[i - 1] == '\t')
      case KeyEnd => line[i] == ':' && (i + 1 == |line| || line[i + 1] == ' ' || line[i + 1] == '\t')
    }
  }

  /** The first mark at or after i, given whether a single or double quote is open. */
  function Scan(mark: Mark, line: string, i: nat, inSingle: bool, inDouble: bool): (r: Option<nat>)
    ensures r.Some? ==> i <= r.value && mark.At(line, r.value)
    decreases |line| - i
  {
    if i >= |line| then None
    else if line[i] == '\\' && inDouble && i + 1 < |line| then Scan(mark, line, i + 2, inSingle, inDouble)
    else if line[i] == '"' && !inSingle then Scan(mark, line, i + 1, inSingle, !inDouble)
    else if line[i] == '\'' && !inDouble then Scan(mark, line, i + 1, !inSingle, inDouble)
    else if !inSingle && !inDouble && mark.At(line, i) then Some(i)
    else Scan(mark, line, i + 1, inSingle, inDouble)
  }

  /** The quoting in force before character i, and whether the character is an escaped one. */
  datatype Quoting = Quoting(inSingle: bool, inDouble: bool, escaped: bool)

  function QuotingAt(line: string, i: nat): Quoting
    requires i <= |line|
  {
    if i == 0 then Quoting(false, false, false)
    else
      var q, c := QuotingAt(line, i - 1), line[i - 1];
      if q.escaped then q.(escaped := false)
      else if c == '\\' && q.inDouble && i < |line| then q.(escaped := true)
      else if c == '"' && !q.inSingle then q.(inDouble := !q.inDouble)
      else if c == '\'' && !q.inDouble then q.(inSingle := !q.inSingle)
      else q
  }

  /** Outside quotes, a '#' that starts the line or follows a blank, or a ':' that ends it or precedes one. */
  predicate Bare(mark: Mark, line: string, k: nat) {
    && k < |line| && QuotingAt(line, k) == Quoting(false, false, false)
    && match mark
       case Comment => line[k] == '#' && (k > 0 ==> line[k - 1] in {' ', '\t'})
       case KeyEnd => line[k] == ':' && (k + 1 < |line| ==> line[k + 1] in {' ', '\t'})
  }

  /** The outcome of a scan from i on. */
  ghost predicate FoundFrom(mark: Mark, line: string, i: nat, r: Option<nat>) {
    match r
    case Some(k) => i <= k && Bare(mark, line, k) && forall j: nat :: i <= j < k ==> !Bare(mark, line, j)
    case None => forall j: nat :: i <= j < |line| ==> !Bare(mark, line, j)
  }

  lemma FoundEarlier(mark: Mark, line: string, i: nat, n: nat, r: Option<nat>)
    requires FoundFrom(mark, line, n, r) && i <= n && forall j: nat :: i <= j < n ==> !Bare(mark, line, j)
    ensures FoundFrom(mark, line, i, r)
  {
  }

  lemma {:induction false} ScanFrom(mark: Mark, line: string, i: nat, inSingle: bool, inDouble: bool)
    requires i <= |line| && QuotingAt(line, i) == Quoting(inSingle, inDouble, false)
    ensures FoundFrom(mark, line, i, Scan(mark, line, i, inSingle, inDouble))
    decreases |line| - i
  {
    if i < |line| {
      var c, r := line[i], Scan(mark, line, i, inSingle, inDouble);
      assert Bare(mark, line, i) <==> !inSingle && !inDouble && mark.At(line, i);
      if c == '\\' && inDouble && i + 1 < |line| {
        assert QuotingAt(line, i + 1) == Quoting(inSingle, inDouble, true);
        ScanFrom(mark, line, i + 2, inSingle, inDouble);
        FoundEarlier(mark, line, i, i + 2, r);
      } else if c == '"' && !inSingle {
        ScanFrom(mark, line, i + 1, inSingle, !inDouble);
        FoundEarlier(mark, line, i, i + 1, r);
      } else if c == '\'' && !inDouble {
        ScanFrom(mark, line, i + 1, !inSingle, inDouble);
        FoundEarlier(mark, line, i, i + 1, r);
      } else if !(!inSingle && !inDouble && mark.At(line, i)) {
        ScanFrom(mark, line, i + 1, inSingle, inDouble);
        FoundEarlier(mark, line, i, i + 1, r);
      }
    }
  }

  /** A comment starts at the first such '#' and a key ends at the first such ':'; there is none exactly when
      the line has none. */
  lemma ScanFinds(mark: Mark, line: string)
    ensures match Scan(mark, line, 0, false, false)
      case Some(k) => Bare(mark, line, k) && forall j: nat :: j < k ==> !Bare(mark, line, j)
      case None => forall j: nat :: !Bare(mark, line, j)
  {
    ScanFrom(mark, line, 0, false, false);
  }

  method FindCommentStart(line: string) returns (idx: int)
    ensures match Scan(Comment, line, 0, false, false)
            case None => idx == -1
            case Some(k) => idx == k
  {
    var inSingle, inDouble := false, false;
    var i := 0;
    while i < |line|
      invariant Scan(Comment, line, i, inSingle, inDouble) == Scan(Comment, line, 0, false, false)
    {
      var c := line[i];
      if c == '\\' && inDouble && i + 1 < |line| {
        i := i + 1;
      } else if c == '"' && !inSingle {
        inDouble := !inDouble;
      } else if c == '\'' && !inDouble {
        inSingle := !inSingle;
      } else if c == '#' && !inSingle && !inDouble {
        if i == 0 || line[i - 1] == ' ' || line[i - 1] == '\t' {
          return i;
        }
      }
      i := i + 1;
    }
    return -1;
  }

  // ---------------------------------------------------------------- scalars and keys

  /** Single-quoted text with every apostrophe doubled. */
  function Doubled(s: string): string {
    if s == [] then [] else (if s[0] == '\'' then "''" else [s[0]]) + Doubled(s[1..])
  }

  /** Left-to-right replacement of '' by '. */
  function Collapsed(s: string): string {
    if |s| < 2 then s
    else if s[0] == '\'' && s[1] == '\'' then "'" + Collapsed(s[2..])
    else [s[0]] + Collapsed(s[1..])
  }

  function Quoted(s: string): string { "'" + Doubled(s) + "'" }

  lemma {:induction false} CollapsedDoubled(s: string)
    ensures Collapsed(Doubled(s)) == s
  {
    if s != [] {
      CollapsedDoubled(s[1..]);
      var d := Doubled(s[1..]);
      if s[0] == '\'' {
        assert ("''" + d)[2..] == d;
      } else {
        assert ([s[0]] + d)[1..] == d;
        assert |d| == 0 ==> s[1..] == [];
      }
    }
  }

  // ---------------------------------------------------------------- lines

  datatype Line = Line(indent: nat, content: string, number: int)

  datatype Token = Skipped | Kept(line: Line) | TabIndent

  function LeadingSpaces(s: string): (n: nat)
    ensures n <= |s|
  {
    if s != [] && s[0] == ' ' then 1 + LeadingSpaces(s[1..]) else 0
  }

  function StripComment(s: string): string {
    match Scan(Comment, s, 0, false, false)
    case None => s
    case Some(k) => s[..k]
  }

  function TokenOf(raw: string, number: int): Token {
    var line := StripComment(TrimRight(raw, IsCR));
    if TrimSpace(line) == "" then Skipped
    else if line[..1] == "\t" then TabIndent
    else
      var indent := LeadingSpaces(line);
      var content := TrimRight(line[indent..], IsBlank);
      if content == "" || content == "---" || content == "..." then Skipped
      else Kept(Line(indent, content, number))
  }

  datatype Tokens = Lines(lines: seq<Line>) | TabError(number: int)

  /** The tokeniser entered at raw line i with the lines kept so far. */
  function Tokenize(raws: seq<string>, i: nat, kept: seq<Line>): Tokens
    requires i <= |raws|
    decreases |raws| - i
  {
    if i == |raws| then Lines(kept)
    else match TokenOf(raws[i], i + 1)
      case TabIndent => TabError(i + 1)
      case Skipped => Tokenize(raws, i + 1, kept)
      case Kept(line) => Tokenize(raws, i + 1, kept + [line])
  }

  method TokenizeLine(raw: string, number: int) returns (token: Token)
    ensures token == TokenOf(raw, number)
  {
    var line := TrimRight(raw, IsCR);
    var idx := FindCommentStart(line);
    if idx >= 0 {
      line := line[..idx];
    }
    if TrimSpace(line) == "" {
      return Skipped;
    }
    if line[0] == '\t' {
      return TabIndent;
    }
    var indent := 0;
    while indent < |line| && line[indent] == ' '
      invariant indent <= |line| && indent + LeadingSpaces(line[indent..]) == LeadingSpaces(line)
    {
      indent := indent + 1;
    }
    var content := TrimRight(line[indent..], IsBlank);
    if content == "" || content == "---" || content == "..." {
      return Skipped;
    }
    return Kept(Line(indent, content, number));
  }

  method TokenizeYaml(data: string) returns (tokens: Tokens)
    ensures tokens == Tokenize(Split(data), 0, [])
  {
    var lines := [];
    var raws := Split(data);
    for i := 0 to |raws|
      invariant Tokenize(raws, i, lines) == Tokenize(raws, 0, [])
    {
      var token := TokenizeLine(raws[i], i + 1);
      match token
      case Skipped =>
      case TabIndent => return TabError(i + 1);
      case Kept(line) => lines := lines + [line];
    }
    return Lines(lines);
  }
}
