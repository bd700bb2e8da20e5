/** The indentation-driven recursive descent of the compose YAML reader.

    `Reader` gives the meaning of each parsing routine as a function from the remaining
    lines to a value and the lines left over; `Parser` is the cursor-moving program, proved
    to compute those functions.  Flow collections and double-quoted escapes are decoded by
    library code outside this model and enter as parameters. */
module YamlParser {
  import opened Common
  import opened YamlText

  /** A parsed tree.  Numbers and booleans stay strings. */
  datatype Value = Null | Str(text: string) | List(items: seq<Value>) | Dict(entries: map<string, Value>)

  datatype Cause = UnexpectedIndent(got: nat, expected: nat) | EmptyKey | NoColon | BadFlow | TabIndentation

  datatype KeySplit = Key(key: string, rest: string) | KeyError(cause: Cause)

  datatype Parse<+T> = Done(value: T, rest: seq<Line>) | Fail(number: int, cause: Cause)

  predicate IsItem(content: string) { content[..MinNat(2, |content|)] == "- " || content == "-" }

  function MinNat(a: nat, b: nat): nat { if a < b then a else b }

  predicate StartsWith(s: string, c: char) { s != [] && s[0] == c }

  predicate Wrapped(s: string, open: char, close: char) {
    |s| >= 2 && s[0] == open && s[|s| - 1] == close
  }

  /** The text after a dash and at most one space. */
  function StripDash(content: string): string
    requires StartsWith(content, '-')
  {
    if StartsWith(content[1..], ' ') then content[2..] else content[1..]
  }

  datatype Reader = Reader(flow: string -> Option<Value>, unquoteDouble: string -> Option<string>) {

    function Unquote(s: string): string {
      if Wrapped(s, '"', '"') && unquoteDouble(s).Some? then unquoteDouble(s).value
      else if Wrapped(s, '\'', '\'') then Collapsed(s[1..|s| - 1])
      else s
    }

    /** An inline value; None when a flow collection is malformed. */
    function ParseScalar(text: string): Option<Value> {
      var s := TrimSpace(text);
      if s == "" then Some(Str(""))
      else if Wrapped(s, '{', '}') || Wrapped(s, '[', ']') then flow(s)
      else if Wrapped(s, '"', '"') || Wrapped(s, '\'', '\'') then Some(Str(Unquote(s)))
      else if s == "null" || s == "~" || s == "Null" || s == "NULL" then Some(Null)
      else Some(Str(s))
    }

    function SplitKeyAt(line: string): KeySplit {
      match Scan(KeyEnd, line, 0, false, false)
      case None => KeyError(NoColon)
      case Some(i) =>
        var key := TrimSpace(line[..i]);
        if key == "" then KeyError(EmptyKey) else Key(Unquote(key), TrimSpace(line[i + 1..]))
    }

    method SplitKey(line: string) returns (r: KeySplit)
      ensures r == SplitKeyAt(line)
    {
      var inSingle, inDouble := false, false;
      var i := 0;
      while i < |line|
        invariant Scan(KeyEnd, line, i, inSingle, inDouble) == Scan(KeyEnd, line, 0, false, false)
      {
        var c := line[i];
        if c == '\\' && inDouble && i + 1 < |line| {
          i := i + 1;
        } else if c == '"' && !inSingle {
          inDouble := !inDouble;
        } else if c == '\'' && !inDouble {
          inSingle := !inSingle;
        } else if c == ':' && !inSingle && !inDouble {
          if i + 1 == |line| || line[i + 1] == ' ' || line[i + 1] == '\t' {
            var key := TrimSpace(line[..i]);
            if key == "" {
              return KeyError(EmptyKey);
            }
            return Key(Unquote(key), TrimSpace(line[i + 1..]));
          }
        }
        i := i + 1;
      }
      return KeyError(NoColon);
    }

    /** The mapping that starts on a dash line, if its text is one and its key is not empty. */
    function MappingStart(item: string): Option<(string, string)> {
      if StartsWith(item, '{') || StartsWith(item, '[') then None
      else match SplitKeyAt(item)
        case Key(key, rest) => if key != "" then Some((key, rest)) else None
        case KeyError(_) => None
    }

    function Block(ls: seq<Line>, indent: nat): (r: Parse<Value>)
      ensures r.Done? ==> |r.rest| <= |ls|
      decreases |ls|, 2
    {
      if ls == [] || ls[0].indent < indent then Done(Null, ls)
      else if IsItem(ls[0].content) then
        match Items(ls, indent, [])
        case Done(items, rest) => Done(List(items), rest)
        case Fail(n, c) => Fail(n, c)
      else
        match Entries(ls, indent, map[])
        case Done(entries, rest) => Done(Dict(entries), rest)
        case Fail(n, c) => Fail(n, c)
    }

    function Nested(ls: seq<Line>, parent: nat): (r: Parse<Value>)
      ensures r.Done? ==> |r.rest| <= |ls|
      decreases |ls|, 3
    {
      if ls == [] || ls[0].indent <= parent then Done(Null, ls) else Block(ls, ls[0].indent)
    }

    /** The value of a key whose line has `text` after the colon. */
    function EntryValue(text: string, number: int, ls: seq<Line>, parent: nat): (r: Parse<Value>)
      ensures r.Done? ==> |r.rest| <= |ls|
      decreases |ls|, 4
    {
      if text == "" then Nested(ls, parent)
      else match ParseScalar(text)
        case Some(v) => Done(v, ls)
        case None => Fail(number, BadFlow)
    }

    function Entry(ls: seq<Line>, parent: nat): (r: Parse<(string, Value)>)
      requires ls != []
      ensures r.Done? ==> |r.rest| < |ls|
      decreases |ls|, 0
    {
      match SplitKeyAt(ls[0].content)
      case KeyError(c) => Fail(ls[0].number, c)
      case Key(key, text) =>
        match EntryValue(text, ls[0].number, ls[1..], parent)
        case Done(v, rest) => Done((key, v), rest)
        case Fail(n, c) => Fail(n, c)
    }

    function Entries(ls: seq<Line>, indent: nat, acc: map<string, Value>): (r: Parse<map<string, Value>>)
      ensures r.Done? ==> |r.rest| <= |ls|
      decreases |ls|, 1
    {
      if ls == [] || ls[0].indent < indent then Done(acc, ls)
      else if ls[0].indent > indent then Fail(ls[0].number, UnexpectedIndent(ls[0].indent, indent))
      else if IsItem(ls[0].content) then Done(acc, ls)
      else match Entry(ls, indent)
        case Done((key, v), rest) => Entries(rest, indent, acc[key := v])
        case Fail(n, c) => Fail(n, c)
    }

    /** Further entries of a mapping that began on a dash line. */
    function MoreEntries(ls: seq<Line>, column: nat, acc: map<string, Value>): (r: Parse<map<string, Value>>)
      ensures r.Done? ==> |r.rest| <= |ls|
      decreases |ls|, 1
    {
      if ls == [] || ls[0].indent != column || IsItem(ls[0].content) then Done(acc, ls)
      else match Entry(ls, column)
        case Done((key, v), rest) => MoreEntries(rest, column, acc[key := v])
        case Fail(n, c) => Fail(n, c)
    }

    /** One sequence item whose dash line is at the head. */
    function Item(ls: seq<Line>, indent: nat): (r: Parse<Value>)
      requires ls != [] && StartsWith(ls[0].content, '-')
      ensures r.Done? ==> |r.rest| < |ls|
      decreases |ls|, 0
    {
      var item := StripDash(ls[0].content);
      if item == "" then Nested(ls[1..], indent)
      else match MappingStart(item)
        case Some((key, text)) => (
          match EntryValue(text, ls[0].number, ls[1..], indent + 2)
          case Fail(n, c) => Fail(n, c)
          case Done(v, rest) =>
            match MoreEntries(rest, indent + 2, map[key := v])
            case Fail(n, c) => Fail(n, c)
            case Done(entries, rest') => Done(Dict(entries), rest'))
        case None =>
          match ParseScalar(item)
          case Some(v) => Done(v, ls[1..])
          case None => Fail(ls[0].number, BadFlow)
    }

    function Items(ls: seq<Line>, indent: nat, acc: seq<Value>): (r: Parse<seq<Value>>)
      ensures r.Done? ==> |r.rest| <= |ls|
      decreases |ls|, 1
    {
      if ls == [] || ls[0].indent < indent then Done(acc, ls)
      else if ls[0].indent > indent then Fail(ls[0].number, UnexpectedIndent(ls[0].indent, indent))
      else if !StartsWith(ls[0].content, '-') then Done(acc, ls)
      else match Item(ls, indent)
        case Done(v, rest) => Items(rest, indent, acc + [v])
        case Fail(n, c) => Fail(n, c)
    }

    /** The whole reader; lines left over by the top-level block are ignored. */
    function Tree(data: string): Parse<Value> {
      match Tokenize(Split(data), 0, [])
      case TabError(n) => Fail(n, TabIndentation)
      case Lines(ls) => if ls == [] then Done(Dict(map[]), []) else Block(ls, 0)
    }
  }

  datatype Result<+T> = Ok(value: T) | Error(number: int, cause: Cause)

  /** The parser object: fixed lines and a cursor that only moves forward. */
  class Parser {
    const reader: Reader
    const lines: seq<Line>
    var pos: nat

    ghost predicate Valid()
      reads this
    {
      pos <= |lines|
    }

    /** The state after a routine whose meaning on the remaining lines was `p`. */
    ghost predicate After<T>(p: Parse<T>, r: Result<T>)
      reads this
    {
      match p
      case Done(v, rest) => r == Ok(v) && pos <= |lines| && lines[pos..] == rest
      case Fail(n, c) => r == Error(n, c)
    }

    constructor (reader: Reader, lines: seq<Line>)
      ensures this.reader == reader && this.lines == lines && pos == 0
    {
      this.reader, this.lines, pos := reader, lines, 0;
    }

    method ParseBlock(indent: nat) returns (r: Result<Value>)
      requires Valid()
      modifies this
      ensures Valid() && old(pos) <= pos
      ensures After(reader.Block(lines[old(pos)..], indent), r)
      decreases |lines| - pos, 2
    {
      if pos >= |lines| || lines[pos].indent < indent {
        return Ok(Null);
      }
      if IsItem(lines[pos].content) {
        var items := ParseSeq(indent);
        return match items case Ok(s) => Ok(List(s)) case Error(n, c) => Error(n, c);
      }
      var entries := ParseMap(indent);
      return match entries case Ok(m) => Ok(Dict(m)) case Error(n, c) => Error(n, c);
    }

    method ParseNestedBlock(parent: nat) returns (r: Result<Value>)
      requires Valid()
      modifies this
      ensures Valid() && old(pos) <= pos
      ensures After(reader.Nested(lines[old(pos)..], parent), r)
      decreases |lines| - pos, 3
    {
      if pos >= |lines| || lines[pos].indent <= parent {
        return Ok(Null);
      }
      r := ParseBlock(lines[pos].indent);
    }

    /** The value after a key: a nested block, or the inline text. */
    method ParseValue(text: string, number: int, parent: nat) returns (r: Result<Value>)
      requires Valid()
      modifies this
      ensures Valid() && old(pos) <= pos
      ensures After(reader.EntryValue(text, number, lines[old(pos)..], parent), r)
      decreases |lines| - pos, 4
    {
      if text == "" {
        r := ParseNestedBlock(parent);
        return;
      }
      match reader.ParseScalar(text)
      case Some(v) => return Ok(v);
      case None => return Error(number, BadFlow);
    }

    /** One "key: value" line and whatever hangs below it. */
    method ParseEntry(parent: nat) returns (r: Result<(string, Value)>)
      requires Valid() && pos < |lines|
      modifies this
      ensures Valid() && old(pos) <= pos && (r.Ok? ==> old(pos) < pos)
      ensures After(reader.Entry(lines[old(pos)..], parent), r)
      decreases |lines| - pos, 0
    {
      var line := lines[pos];
      var split := reader.SplitKey(line.content);
      if split.KeyError? {
        return Error(line.number, split.cause);
      }
      pos := pos + 1;
      var v := ParseValue(split.rest, line.number, parent);
      return match v case Ok(x) => Ok((split.key, x)) case Error(n, c) => Error(n, c);
    }

    method ParseMap(indent: nat) returns (r: Result<map<string, Value>>)
      requires Valid()
      modifies this
      ensures Valid() && old(pos) <= pos
      ensures After(reader.Entries(lines[old(pos)..], indent, map[]), r)
      decreases |lines| - pos, 1
    {
      var result: map<string, Value> := map[];
      while pos < |lines| && lines[pos].indent >= indent
        invariant Valid() && old(pos) <= pos
        invariant reader.Entries(lines[pos..], indent, result) == reader.Entries(lines[old(pos)..], indent, map[])
        decreases |lines| - pos
      {
        var line := lines[pos];
        if line.indent > indent {
          return Error(line.number, UnexpectedIndent(line.indent, indent));
        }
        if IsItem(line.content) {
          return Ok(result);
        }
        var e := ParseEntry(indent);
        if e.Error? {
          return Error(e.number, e.cause);
        }
        result := result[e.value.0 := e.value.1];
      }
      return Ok(result);
    }

    method ParseSeq(indent: nat) returns (r: Result<seq<Value>>)
      requires Valid()
      modifies this
      ensures Valid() && old(pos) <= pos
      ensures After(reader.Items(lines[old(pos)..], indent, []), r)
      decreases |lines| - pos, 1
    {
      var result: seq<Value> := [];
      while pos < |lines| && lines[pos].indent >= indent
        invariant Valid() && old(pos) <= pos
        invariant reader.Items(lines[pos..], indent, result) == reader.Items(lines[old(pos)..], indent, [])
        decreases |lines| - pos
      {
        if lines[pos].indent > indent {
          return Error(lines[pos].number, UnexpectedIndent(lines[pos].indent, indent));
        }
        if !StartsWith(lines[pos].content, '-') {
          return Ok(result);
        }
        var v := ParseItem(indent);
        if v.Error? {
          return Error(v.number, v.cause);
        }
        result := result + [v.value];
      }
      return Ok(result);
    }

    method ParseItem(indent: nat) returns (r: Result<Value>)
      requires Valid() && pos < |lines| && StartsWith(lines[pos].content, '-')
      modifies this
      ensures Valid() && old(pos) < pos
      ensures After(reader.Item(lines[old(pos)..], indent), r)
      decreases |lines| - pos, 0
    {
      var line := lines[pos];
      var item := StripDash(line.content);
      pos := pos + 1;
      if item == "" {
        r := ParseNestedBlock(indent);
        return;
      }
      match reader.MappingStart(item)
      case Some((key, text)) =>
        var v := ParseValue(text, line.number, indent + 2);
        if v.Error? {
          return v;
        }
        var more := ParseMoreEntries(indent + 2, map[key := v.value]);
        return match more case Ok(m) => Ok(Dict(m)) case Error(n, c) => Error(n, c);
      case None =>
        match reader.ParseScalar(item)
        case Some(v) => return Ok(v);
        case None => return Error(line.number, BadFlow);
    }

    method ParseMoreEntries(column: nat, first: map<string, Value>) returns (r: Result<map<string, Value>>)
      requires Valid()
      modifies this
      ensures Valid() && old(pos) <= pos
      ensures After(reader.MoreEntries(lines[old(pos)..], column, first), r)
      decreases |lines| - pos, 5
    {
      var sub := first;
      while pos < |lines| && lines[pos].indent == column && !IsItem(lines[pos].content)
        invariant Valid() && old(pos) <= pos
        invariant reader.MoreEntries(lines[pos..], column, sub) == reader.MoreEntries(lines[old(pos)..], column, first)
        decreases |lines| - pos
      {
        var e := ParseEntry(column);
        if e.Error? {
          return Error(e.number, e.cause);
        }
        sub := sub[e.value.0 := e.value.1];
      }
      return Ok(sub);
    }
  }

  method ParseYamlTree(reader: Reader, data: string) returns (r: Result<Value>)
    ensures match reader.Tree(data)
            case Done(v, _) => r == Ok(v)
            case Fail(n, c) => r == Error(n, c)
  {
    var tokens := TokenizeYaml(data);
    if tokens.TabError? {
      return Error(tokens.number, TabIndentation);
    }
    if |tokens.lines| == 0 {
      return Ok(Dict(map[]));
    }
    var p := new Parser(reader, tokens.lines);
    assert tokens.lines[0..] == tokens.lines;
    r := p.ParseBlock(0);
  }
}
