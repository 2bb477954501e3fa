/** The RESP2 wire format of internal/resp: the reader, the printers, and the proof that the one undoes the
    other.  Each char of a string stands for one byte. */
module Resp {
  import opened Decimal

  datatype Value =
    | Array(items: seq<Value>)
    | Bulk(str: string)
    | Line(kind: char, str: string)  // kind is '+' or '-'
    | Integer(n: int64)

  /** The Str field of a value: arrays and integers leave it empty. */
  function Payload(v: Value): string {
    match v
    case Array(_) => ""
    case Bulk(str) => str
    case Line(_, str) => str
    case Integer(_) => ""
  }

  datatype Parsed<+T> = Got(value: T, rest: string) | Fail

  // ---------------------------------------------------------------- reading, as functions of the input

  /** ReadString('\n'): everything up to and including the first line feed. */
  function TakeLine(s: string): (r: Parsed<string>)
    ensures r.Got? ==> s == r.value + r.rest && |r.value| > 0 && r.value[|r.value| - 1] == '\n'
  {
    if s == "" then Fail
    else if s[0] == '\n' then Got(s[..1], s[1..])
    else
      match TakeLine(s[1..])
      case Fail => Fail
      case Got(line, rest) => Got([s[0]] + line, rest)
  }

  function TrimSuffix(s: string, c: char): string {
    if s != "" && s[|s| - 1] == c then s[..|s| - 1] else s
  }

  function ReadLine(s: string): (r: Parsed<string>)
    ensures r.Got? ==> |r.rest| < |s|
  {
    match TakeLine(s)
    case Fail => Fail
    case Got(line, rest) => Got(TrimSuffix(TrimSuffix(line, '\n'), '\r'), rest)
  }

  function ReadIntLine(s: string): (r: Parsed<int64>)
    ensures r.Got? ==> |r.rest| < |s|
  {
    match ReadLine(s)
    case Fail => Fail
    case Got(line, rest) =>
      match ParseInt(line)
      case None => Fail
      case Some(n) => Got(n, rest)
  }

  function ReadBulk(s: string, max: int): (r: Parsed<Value>)
    ensures r.Got? ==> |r.rest| < |s|
  {
    match ReadIntLine(s)
    case Fail => Fail
    case Got(n, rest) =>
      if n < 0 then Got(Bulk(""), rest)
      else if n > max || |rest| < n + 2 || rest[n..n + 2] != "\r\n" then Fail
      else Got(Bulk(rest[..n]), rest[n + 2..])
  }

  predicate IsSpace(c: char) {
    c == ' ' || c == '\t' || c == '\n' || c == '\r' || c == 11 as char || c == 12 as char
  }

  /** strings.Fields over ASCII white space; `word` is the field being collected. */
  function Fields(s: string, word: string): seq<string> {
    if s == "" then (if word == "" then [] else [word])
    else if IsSpace(s[0]) then (if word == "" then [] else [word]) + Fields(s[1..], "")
    else Fields(s[1..], word + [s[0]])
  }

  function Bulks(words: seq<string>): (vs: seq<Value>)
    ensures |vs| == |words| && forall i :: 0 <= i < |vs| ==> vs[i] == Bulk(words[i])
  {
    seq(|words|, i requires 0 <= i < |words| => Bulk(words[i]))
  }

  function ReadValue(s: string, max: int): (r: Parsed<Value>)
    ensures r.Got? ==> |r.rest| < |s|
    decreases |s|, 0
  {
    if s == "" then Fail
    else if s[0] == '*' then
      match ReadIntLine(s[1..])
      case Fail => Fail
      case Got(n, rest) =>
        if n < 0 then Got(Array([]), rest)
        else
          match ReadItems(rest, max, 0, n)
          case Fail => Fail
          case Got(items, tail) => Got(Array(items), tail)
    else if s[0] == '$' then ReadBulk(s[1..], max)
    else if s[0] == ':' then
      match ReadIntLine(s[1..])
      case Fail => Fail
      case Got(n, rest) => Got(Integer(n), rest)
    else if s[0] == '+' || s[0] == '-' then
      match ReadLine(s[1..])
      case Fail => Fail
      case Got(line, rest) => Got(Line(s[0], line), rest)
    else
      match TakeLine(s[1..])
      case Fail => Fail
      case Got(line, rest) => Got(Array(Bulks(Fields([s[0]] + line, ""))), rest)
  }

  /** The next n items of an array, of which `seen` payload bytes are already spent. */
  function ReadItems(s: string, max: int, seen: nat, n: nat): (r: Parsed<seq<Value>>)
    ensures r.Got? ==> |r.rest| <= |s|
    decreases |s|, n
  {
    if n == 0 then Got([], s)
    else
      match ReadValue(s, max - seen)
      case Fail => Fail
      case Got(v, rest) =>
        if seen + |Payload(v)| > max then Fail
        else Prepend([v], ReadItems(rest, max, seen + |Payload(v)|, n - 1))
  }

  function Prepend(vs: seq<Value>, r: Parsed<seq<Value>>): Parsed<seq<Value>> {
    match r
    case Fail => Fail
    case Got(more, rest) => Got(vs + more, rest)
  }

  // ---------------------------------------------------------------- the reader

  datatype Result<+T> = Ok(value: T) | Err

  class Reader {
    /** Input not yet consumed. */
    var rest: string

    constructor (input: string)
      ensures rest == input
    {
      rest := input;
    }

    method ReadLineText() returns (r: Result<string>)
      modifies this
      ensures match ReadLine(old(rest))
              case Fail => r == Err
              case Got(line, tail) => r == Ok(line) && rest == tail
    {
      match TakeLine(rest) {
        case Fail => return Err;
        case Got(line, tail) =>
          rest := tail;
          return Ok(TrimSuffix(TrimSuffix(line, '\n'), '\r'));
      }
    }

    method ReadInt() returns (r: Result<int64>)
      modifies this
      ensures match ReadIntLine(old(rest))
              case Fail => r == Err
              case Got(n, tail) => r == Ok(n) && rest == tail
    {
      var line := ReadLineText();
      match line {
        case Err => return Err;
        case Ok(text) =>
          match ParseInt(text) {
            case None => return Err;
            case Some(n) => return Ok(n);
          }
      }
    }

    /** Reads one value, leaving the input behind it.  After an error the connection is dropped, so
        nothing is promised about what is left. */
    method Read(max: int) returns (r: Result<Value>)
      modifies this
      ensures match ReadValue(old(rest), max)
              case Fail => r == Err
              case Got(v, tail) => r == Ok(v) && rest == tail
      decreases |rest|, 0
    {
      if rest == "" {
        return Err;
      }
      var prefix := rest[0];
      rest := rest[1..];
      if prefix == '*' {
        var count := ReadInt();
        if count.Err? {
          return Err;
        }
        if count.value < 0 {
          return Ok(Array([]));
        }
        r := ReadArray(max, count.value);
      } else if prefix == '$' {
        var size := ReadInt();
        if size.Err? {
          return Err;
        }
        var n := size.value;
        if n < 0 {
          return Ok(Bulk(""));
        }
        if n > max || |rest| < n + 2 || rest[n..n + 2] != "\r\n" {
          return Err;
        }
        var str := rest[..n];
        rest := rest[n + 2..];
        return Ok(Bulk(str));
      } else if prefix == ':' {
        var number := ReadInt();
        return if number.Err? then Err else Ok(Integer(number.value));
      } else if prefix == '+' || prefix == '-' {
        var line := ReadLineText();
        return if line.Err? then Err else Ok(Line(prefix, line.value));
      } else {
        match TakeLine(rest) {
          case Fail => return Err;
          case Got(line, tail) =>
            rest := tail;
            return Ok(Array(Bulks(Fields([prefix] + line, ""))));
        }
      }
    }

    method ReadArray(max: int, n: nat) returns (r: Result<Value>)
      modifies this
      ensures match ReadItems(old(rest), max, 0, n)
              case Fail => r == Err
              case Got(items, tail) => r == Ok(Array(items)) && rest == tail
      decreases |rest|, 1
    {
      hide ReadValue;
      var arr: seq<Value> := [];
      var seen: nat := 0;
      PrependNothing(ReadItems(rest, max, 0, n));
      var i := 0;
      while i < n
        invariant 0 <= i <= n && |rest| <= |old(rest)|
        invariant ReadItems(old(rest), max, 0, n) == Prepend(arr, ReadItems(rest, max, seen, n - i))
      {
        ghost var before := rest;
        var v := Read(max - seen);
        if v.Err? {
          return Err;
        }
        ghost var spent := seen;
        seen := seen + |Payload(v.value)|;
        if seen > max {
          return Err;
        }
        ghost var was := arr;
        arr := arr + [v.value];
        i := i + 1;
        assert ReadItems(before, max, spent, n - i + 1) == Prepend([v.value], ReadItems(rest, max, seen, n - i));
        PrependPrepend(was, [v.value], ReadItems(rest, max, seen, n - i));
      }
      assert arr + [] == arr;
      return Ok(Array(arr));
    }
  }

  lemma PrependNothing(r: Parsed<seq<Value>>)
    ensures Prepend([], r) == r
  {
    if r.Got? {
      assert [] + r.value == r.value;
    }
  }

  lemma PrependPrepend(a: seq<Value>, b: seq<Value>, r: Parsed<seq<Value>>)
    ensures Prepend(a, Prepend(b, r)) == Prepend(a + b, r)
  {
    match r
    case Fail =>
    case Got(more, rest) => assert a + (b + more) == a + b + more;
  }

  function ToStrings(items: seq<Value>): Option<seq<string>> {
    if items == [] then Some([])
    else if !(items[0].Bulk? || (items[0].Line? && items[0].kind == '+')) then None
    else
      match ToStrings(items[1..])
      case None => None
      case Some(more) => Some([Payload(items[0])] + more)
  }

  /** A command is taken if and only if all its items are bulk strings or status lines, and as their texts. */
  lemma {:induction false} TakenAsStrings(items: seq<Value>)
    ensures ToStrings(items).Some? <==>
            forall i :: 0 <= i < |items| ==> items[i].Bulk? || (items[i].Line? && items[i].kind == '+')
    ensures ToStrings(items).Some? ==>
      var args := ToStrings(items).value;
      |args| == |items| && forall i :: 0 <= i < |items| ==> args[i] == items[i].str
  {
    if items != [] {
      TakenAsStrings(items[1..]);
    }
  }

  lemma {:induction false} ToStringsNext(items: seq<Value>, v: Value)
    ensures ToStrings(items + [v]) ==
            if ToStrings(items).None? || ToStrings([v]).None? then None
            else Some(ToStrings(items).value + [Payload(v)])
  {
    if items == [] {
      assert items + [v] == [v] && [v][1..] == [];
      assert [Payload(v)] + [] == [Payload(v)] && [] + [Payload(v)] == [Payload(v)];
    } else {
      ToStringsNext(items[1..], v);
      assert (items + [v])[1..] == items[1..] + [v];
      if ToStrings(items[1..]).Some? {
        var more := ToStrings(items[1..]).value;
        assert [Payload(items[0])] + (more + [Payload(v)]) == [Payload(items[0])] + more + [Payload(v)];
      }
    }
  }

  /** One item that is no string spoils the whole array. */
  lemma {:induction false} ToStringsSpoiled(items: seq<Value>, i: nat)
    requires i <= |items| && ToStrings(items[..i]).None?
    ensures ToStrings(items).None?
  {
    if 0 < i {
      assert items[..i][1..] == items[1..][..i - 1];
      if ToStrings(items[..i][1..]).None? {
        ToStringsSpoiled(items[1..], i - 1);
      }
    }
  }

  method ArrayToStrings(v: Value) returns (r: Option<seq<string>>)
    ensures r == if v.Array? then ToStrings(v.items) else None
  {
    if !v.Array? {
      return None;
    }
    var out: seq<string> := [];
    for i := 0 to |v.items|
      invariant ToStrings(v.items[..i]) == Some(out)
    {
      var item := v.items[i];
      ToStringsNext(v.items[..i], item);
      assert v.items[..i + 1] == v.items[..i] + [item];
      if !item.Bulk? && !(item.Line? && item.kind == '+') {
        ToStringsSpoiled(v.items, i + 1);
        return None;
      }
      assert [item][1..] == [];
      out := out + [Payload(item)];
    }
    assert v.items[..|v.items|] == v.items;
    return Some(out);
  }

  // ---------------------------------------------------------------- printing

  function Print(v: Value): string {
    match v
    case Array(items) => "*" + FormatInt(|items|) + "\r\n" + PrintAll(items)
    case Bulk(str) => "$" + FormatInt(|str|) + "\r\n" + str + "\r\n"
    case Line(kind, str) => [kind] + str + "\r\n"
    case Integer(n) => ":" + FormatInt(n) + "\r\n"
  }

  function PrintAll(items: seq<Value>): string {
    if items == [] then "" else Print(items[0]) + PrintAll(items[1..])
  }

  /** resp.Array: the header and then the printed items. */
  method PrintArray(items: seq<Value>) returns (out: string)
    ensures out == Print(Array(items))
  {
    out := "*" + FormatInt(|items|) + "\r\n";
    ghost var header := out;
    for i := 0 to |items|
      invariant out + PrintAll(items[i..]) == header + PrintAll(items)
    {
      assert items[i..][1..] == items[i + 1..];
      ghost var was := out;
      out := out + Print(items[i]);
      assert out + PrintAll(items[i + 1..]) == was + PrintAll(items[i..]);
    }
  }

  // ---------------------------------------------------------------- what fits on the wire

  predicate NoLineFeed(s: string) {
    forall i :: 0 <= i < |s| ==> s[i] != '\n'
  }

  /** A value the reader accepts under the byte limit: bulk strings within what is left of it, status
      lines without a line feed, and lengths that are 64-bit integers. */
  predicate Fits(v: Value, max: int) {
    match v
    case Array(items) => |items| <= MAX_INT64 && ItemsFit(items, max, 0)
    case Bulk(str) => |str| <= max && |str| <= MAX_INT64
    case Line(kind, str) => (kind == '+' || kind == '-') && NoLineFeed(str)
    case Integer(_) => true
  }

  predicate ItemsFit(items: seq<Value>, max: int, seen: nat) {
    items == [] ||
    (&& Fits(items[0], max - seen)
     && seen + |Payload(items[0])| <= max
     && ItemsFit(items[1..], max, seen + |Payload(items[0])|))
  }

  // ---------------------------------------------------------------- round trip

  lemma {:induction false} TakeLineTrip(x: string, tail: string)
    requires NoLineFeed(x)
    ensures TakeLine(x + "\n" + tail) == Got(x + "\n", tail)
  {
    var s := x + "\n" + tail;
    if x == "" {
      assert s == "\n" + tail;
      assert s[..1] == "\n" && s[1..] == tail;
    } else {
      TakeLineTrip(x[1..], tail);
      assert s[1..] == x[1..] + "\n" + tail;
      assert [s[0]] + (x[1..] + "\n") == x + "\n";
    }
  }

  lemma LineTrip(x: string, tail: string)
    requires NoLineFeed(x)
    ensures ReadLine(x + "\r\n" + tail) == Got(x, tail)
  {
    var y := x + "\r";
    TakeLineTrip(y, tail);
    assert x + "\r\n" + tail == y + "\n" + tail;
    assert TrimSuffix(y + "\n", '\n') == y;
    assert TrimSuffix(y, '\r') == x;
  }

  lemma IntLineTrip(n: int64, tail: string)
    ensures ReadIntLine(FormatInt(n) + "\r\n" + tail) == Got(n, tail)
  {
    var text := FormatInt(n);
    assert NoLineFeed(text);
    LineTrip(text, tail);
    IntRoundTrip(n);
  }

  lemma BulkTrip(str: string, max: int, tail: string)
    requires |str| <= max && |str| <= MAX_INT64
    ensures ReadBulk(FormatInt(|str|) + "\r\n" + str + "\r\n" + tail, max) == Got(Bulk(str), tail)
  {
    var body := str + "\r\n" + tail;
    assert FormatInt(|str|) + "\r\n" + str + "\r\n" + tail == FormatInt(|str|) + "\r\n" + body;
    IntLineTrip(|str|, body);
    assert body[|str|..|str| + 2] == "\r\n";
    assert body[..|str|] == str && body[|str| + 2..] == tail;
  }

  /** What the printers print, the reader reads back, leaving the bytes behind it untouched: for every
      value that fits, nested arrays included. */
  lemma {:induction false} RoundTrip(v: Value, max: int, tail: string)
    requires Fits(v, max)
    ensures ReadValue(Print(v) + tail, max) == Got(v, tail)
    decreases v, 1
  {
    hide ReadIntLine, ReadBulk, ReadLine, ReadItems, TakeLine, FormatInt, ItemsFit, PrintAll;
    var s := Print(v) + tail;
    match v
    case Array(items) =>
      var n := |items|;
      var body := PrintAll(items) + tail;
      assert s[1..] == FormatInt(n) + "\r\n" + body;
      IntLineTrip(n, body);
      ItemsRoundTrip(items, max, 0, tail);
    case Bulk(str) =>
      assert s[1..] == FormatInt(|str|) + "\r\n" + str + "\r\n" + tail;
      BulkTrip(str, max, tail);
    case Line(kind, str) =>
      assert s[1..] == str + "\r\n" + tail;
      LineTrip(str, tail);
    case Integer(n) =>
      assert s[1..] == FormatInt(n) + "\r\n" + tail;
      IntLineTrip(n, tail);
  }

  lemma {:induction false} ItemsRoundTrip(items: seq<Value>, max: int, seen: nat, tail: string)
    requires ItemsFit(items, max, seen)
    ensures ReadItems(PrintAll(items) + tail, max, seen, |items|) == Got(items, tail)
    decreases items, 0
  {
    hide ReadValue, Print, Fits;
    if items == [] {
      assert PrintAll(items) + tail == tail;
    } else {
      var rest := PrintAll(items[1..]) + tail;
      assert PrintAll(items) + tail == Print(items[0]) + rest;
      RoundTrip(items[0], max - seen, rest);
      ItemsRoundTrip(items[1..], max, seen + |Payload(items[0])|, tail);
      assert [items[0]] + items[1..] == items;
    }
  }

  // ---------------------------------------------------------------- commands and pipelines

  /** A client's command: an array of bulk strings. */
  function Command(args: seq<string>): Value {
    Array(Bulks(args))
  }

  function ArgBytes(args: seq<string>): nat {
    if args == [] then 0 else |args[0]| + ArgBytes(args[1..])
  }

  function ReadCommand(s: string, max: int): (r: Parsed<seq<string>>)
    ensures r.Got? ==> |r.rest| < |s|
  {
    match ReadValue(s, max)
    case Fail => Fail
    case Got(v, rest) =>
      if !v.Array? then Fail
      else
        match ToStrings(v.items)
        case None => Fail
        case Some(args) => Got(args, rest)
  }

  function ReadCommands(s: string, max: int, n: nat): Parsed<seq<seq<string>>>
    decreases n
  {
    if n == 0 then Got([], s)
    else
      match ReadCommand(s, max)
      case Fail => Fail
      case Got(args, rest) =>
        match ReadCommands(rest, max, n - 1)
        case Fail => Fail
        case Got(more, tail) => Got([args] + more, tail)
  }

  function PrintCommands(cmds: seq<seq<string>>): string {
    if cmds == [] then "" else Print(Command(cmds[0])) + PrintCommands(cmds[1..])
  }

  lemma {:induction false} BulksFit(args: seq<string>, max: int, seen: nat)
    requires seen + ArgBytes(args) <= max && max <= MAX_INT64
    ensures ItemsFit(Bulks(args), max, seen)
    ensures ToStrings(Bulks(args)) == Some(args)
  {
    if args != [] {
      BulksFit(args[1..], max, seen + |args[0]|);
      assert Bulks(args)[0] == Bulk(args[0]) && Bulks(args)[1..] == Bulks(args[1..]);
      assert Fits(Bulks(args)[0], max - seen);
      assert [args[0]] + args[1..] == args;
    }
  }

  lemma CommandRoundTrip(args: seq<string>, max: int, tail: string)
    requires ArgBytes(args) <= max <= MAX_INT64 && |args| <= MAX_INT64
    ensures ReadCommand(Print(Command(args)) + tail, max) == Got(args, tail)
  {
    BulksFit(args, max, 0);
    RoundTrip(Command(args), max, tail);
  }

  /** A pipeline of commands, each within the byte limit, is read back as exactly those commands, whatever
      bytes follow it. */
  lemma {:induction false} PipelineRoundTrip(cmds: seq<seq<string>>, max: int, tail: string)
    requires max <= MAX_INT64
    requires forall i :: 0 <= i < |cmds| ==> ArgBytes(cmds[i]) <= max && |cmds[i]| <= MAX_INT64
    ensures ReadCommands(PrintCommands(cmds) + tail, max, |cmds|) == Got(cmds, tail)
  {
    hide ReadCommand, Print, Command, ArgBytes;
    if cmds == [] {
      assert PrintCommands(cmds) + tail == tail;
    } else {
      var rest := PrintCommands(cmds[1..]) + tail;
      assert PrintCommands(cmds) + tail == Print(Command(cmds[0])) + rest;
      CommandRoundTrip(cmds[0], max, rest);
      PipelineRoundTrip(cmds[1..], max, tail);
      assert [cmds[0]] + cmds[1..] == cmds;
    }
  }

  /** An accepted array never carries more payload bytes than the limit ... */
  lemma {:induction false} ItemsWithinLimit(s: string, max: int, seen: nat, n: nat)
    requires seen <= max
    requires ReadItems(s, max, seen, n).Got?
    ensures
      var items := ReadItems(s, max, seen, n).value;
      |items| == n && (ToStrings(items).Some? ==> seen + ArgBytes(ToStrings(items).value) <= max)
    decreases n
  {
    if n > 0 {
      var v, rest := ReadValue(s, max - seen).value, ReadValue(s, max - seen).rest;
      var spent := seen + |Payload(v)|;
      ItemsWithinLimit(rest, max, spent, n - 1);
      var more := ReadItems(rest, max, spent, n - 1).value;
      assert ReadItems(s, max, seen, n).value == [v] + more;
      assert ([v] + more)[1..] == more;
      if ToStrings([v] + more).Some? {
        var args := ToStrings([v] + more).value;
        assert args[1..] == ToStrings(more).value;
      }
    }
  }

  /** ... so every command accepted in array form has at most max argument bytes in total. */
  lemma CommandWithinLimit(s: string, max: nat)
    requires s != "" && s[0] == '*' && ReadCommand(s, max).Got?
    ensures ArgBytes(ReadCommand(s, max).value) <= max
  {
    var header := ReadIntLine(s[1..]);
    if header.value >= 0 {
      ItemsWithinLimit(header.rest, max, 0, header.value);
    }
  }

  // ---------------------------------------------------------------- inline commands, and lengths below zero

  predicate IsWord(w: string) {
    w != "" && forall i :: 0 <= i < |w| ==> !IsSpace(w[i])
  }

  /** White space, but not the end of the line. */
  predicate IsGap(g: string) {
    g != "" && forall i :: 0 <= i < |g| ==> IsSpace(g[i]) && g[i] != '\n'
  }

  /** The words with a gap after each. */
  function Spread(words: seq<string>, gaps: seq<string>): string
    requires |words| == |gaps|
  {
    if words == [] then "" else words[0] + (gaps[0] + Spread(words[1..], gaps[1..]))
  }

  lemma {:induction false} FieldsWord(w: string, word: string, rest: string)
    requires forall i :: 0 <= i < |w| ==> !IsSpace(w[i])
    ensures Fields(w + rest, word) == Fields(rest, word + w)
  {
    if w == "" {
      assert w + rest == rest && word + w == word;
    } else {
      FieldsWord(w[1..], word + [w[0]], rest);
      assert (w + rest)[1..] == w[1..] + rest && word + [w[0]] + w[1..] == word + w;
    }
  }

  lemma {:induction false} FieldsGap(g: string, rest: string)
    requires forall i :: 0 <= i < |g| ==> IsSpace(g[i])
    ensures Fields(g + rest, "") == Fields(rest, "")
  {
    if g == "" {
      assert g + rest == rest;
    } else {
      assert (g + rest)[1..] == g[1..] + rest;
      FieldsGap(g[1..], rest);
      assert [] + Fields(g[1..] + rest, "") == Fields(g[1..] + rest, "");
    }
  }

  lemma {:induction false} FieldsSpread(words: seq<string>, gaps: seq<string>, end: string)
    requires |words| == |gaps| && forall i :: 0 <= i < |words| ==> IsWord(words[i]) && IsGap(gaps[i])
    requires forall i :: 0 <= i < |end| ==> IsSpace(end[i])
    ensures Fields(Spread(words, gaps) + end, "") == words
  {
    if words == [] {
      FieldsGap(end, "");
      assert Spread(words, gaps) + end == end + "";
    } else {
      var w, g, rest := words[0], gaps[0], Spread(words[1..], gaps[1..]) + end;
      FieldsSpread(words[1..], gaps[1..], end);
      assert Spread(words, gaps) + end == w + (g + rest);
      FieldsWord(w, "", g + rest);
      assert "" + w == w && (g + rest)[1..] == g[1..] + rest && (g + rest)[0] == g[0];
      FieldsGap(g[1..], rest);
      assert [w] + words[1..] == words;
    }
  }

  lemma {:induction false} SpreadIsOneLine(words: seq<string>, gaps: seq<string>)
    requires |words| == |gaps| && forall i :: 0 <= i < |words| ==> IsWord(words[i]) && IsGap(gaps[i])
    ensures NoLineFeed(Spread(words, gaps))
  {
    if words != [] {
      SpreadIsOneLine(words[1..], gaps[1..]);
    }
  }

  /** A line that starts with none of the type marks is read as its words. */
  lemma InlineLine(line: string, max: int, tail: string)
    requires line != "" && NoLineFeed(line) && line[0] !in "*$:+-"
    ensures ReadValue(line + "\n" + tail, max) == Got(Command(Fields(line + "\n", "")), tail)
  {
    hide ReadItems, ReadIntLine, ReadLine, ReadBulk, Fields;
    TakeLineTrip(line[1..], tail);
    hide TakeLine;
    var s := line + "\n" + tail;
    assert s[0] == line[0] && s[1..] == line[1..] + "\n" + tail;
    assert [s[0]] + (line[1..] + "\n") == line + "\n";
  }

  /** A command typed as a line of words, with any white space after each, is read as those words. */
  lemma InlineRoundTrip(words: seq<string>, gaps: seq<string>, max: int, tail: string)
    requires |words| == |gaps| && forall i :: 0 <= i < |words| ==> IsWord(words[i]) && IsGap(gaps[i])
    requires words != [] && words[0] != "" && words[0][0] !in "*$:+-"
    ensures ReadCommand(Spread(words, gaps) + "\n" + tail, max) == Got(words, tail)
  {
    hide ReadValue, Fields, IsWord, IsGap, ToStrings;
    SpreadIsOneLine(words, gaps);
    FieldsSpread(words, gaps, "\n");
    BulksAreStrings(words);
    var line := Spread(words, gaps);
    assert line[0] == words[0][0];
    InlineLine(line, max, tail);
  }

  lemma {:induction false} BulksAreStrings(args: seq<string>)
    ensures ToStrings(Bulks(args)) == Some(args)
  {
    if args != [] {
      BulksAreStrings(args[1..]);
      assert Bulks(args)[0] == Bulk(args[0]) && Bulks(args)[1..] == Bulks(args[1..]);
      assert [args[0]] + args[1..] == args;
    }
  }

  /** A length below zero is the null bulk string or the null array, read as an empty one. */
  lemma NullIsEmpty(n: int64, max: int, tail: string)
    requires n < 0
    ensures ReadValue("$" + FormatInt(n) + "\r\n" + tail, max) == Got(Bulk(""), tail)
    ensures ReadValue("*" + FormatInt(n) + "\r\n" + tail, max) == Got(Array([]), tail)
  {
    hide FormatInt, ParseInt;
    IntLineTrip(n, tail);
    var line := FormatInt(n) + "\r\n" + tail;
    assert ("$" + FormatInt(n) + "\r\n" + tail)[1..] == line;
    assert ("*" + FormatInt(n) + "\r\n" + tail)[1..] == line;
  }
}
