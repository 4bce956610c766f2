/**
  Bracketed array literals of strings or integers, as JSON writes them:
  `["a", "b"]`, `[1, -2]`. Whitespace may surround every token.
 */
module JsonArray {

  import opened Results
  import opened Decimal

  datatype ItemKind = StringKind | IntKind

  datatype Item = Str(s: string) | Num(n: int)

  const MinInt64: int := -0x8000_0000_0000_0000
  const MaxInt64: int := 0x7fff_ffff_ffff_ffff

  predicate OfKind(item: Item, kind: ItemKind) {
    match kind
    case StringKind => item.Str?
    case IntKind => item.Num?
  }

  predicate AllOfKind(items: seq<Item>, kind: ItemKind) {
    forall i :: 0 <= i < |items| ==> OfKind(items[i], kind)
  }

  predicate IsWhitespace(c: char) {
    c == ' ' || c == '\t' || c == '\n' || c == '\r'
  }

  /** Drop leading whitespace. */
  function SkipWs(s: seq<char>): (r: seq<char>)
    ensures |r| <= |s|
    ensures |r| > 0 ==> !IsWhitespace(r[0])
    ensures |s| > 0 && !IsWhitespace(s[0]) ==> r == s
  {
    if |s| > 0 && IsWhitespace(s[0]) then SkipWs(s[1..]) else s
  }

  /** The character a backslash escape stands for; `\u` escapes are not read. */
  function Unescape(c: char): Option<char> {
    match c
    case '"' => Some('"')
    case '\\' => Some('\\')
    case '/' => Some('/')
    case 'b' => Some(8 as char)
    case 'f' => Some(12 as char)
    case 'n' => Some('\n')
    case 'r' => Some('\r')
    case 't' => Some('\t')
    case _ => None
  }

  /** A string literal's contents after its opening quote, and what follows the closing quote. */
  function StringBody(s: seq<char>): (r: Result<(string, seq<char>), string>)
    ensures r.Success? ==> |r.value.1| < |s|
    decreases |s|
  {
    if |s| == 0 then Failure("unexpected end of JSON input")
    else if s[0] == '"' then Success(([], s[1..]))
    else if s[0] == '\\' then
      if |s| < 2 then Failure("unexpected end of JSON input")
      else
        match Unescape(s[1])
        case None => Failure("invalid character in string escape code")
        case Some(c) =>
          var body :- StringBody(s[2..]);
          Success(([c] + body.0, body.1))
    else if s[0] < ' ' then Failure("invalid character in string literal")
    else
      var body :- StringBody(s[1..]);
      Success(([s[0]] + body.0, body.1))
  }

  /** An integer literal: optional minus, no superfluous leading zero, within 64 bits. */
  function ParseInt(s: seq<char>): (r: Result<(int, seq<char>), string>)
    ensures r.Success? ==> |r.value.1| < |s|
    ensures r.Success? ==> MinInt64 <= r.value.0 <= MaxInt64
  {
    var negative := |s| > 0 && s[0] == '-';
    var t := if negative then s[1..] else s;
    var k := DigitRun(t);
    if k == 0 then Failure("invalid character in numeric literal")
    else if k > 1 && t[0] == '0' then Failure("invalid character after leading zero")
    else
      var magnitude: int := DigitsValue(t[..k]);
      var v := if negative then -magnitude else magnitude;
      if v < MinInt64 || v > MaxInt64 then Failure("number out of range of int")
      else Success((v, t[k..]))
  }

  /** One array element of the requested kind. */
  function ParseItem(s: seq<char>, kind: ItemKind): (r: Result<(Item, seq<char>), string>)
    ensures r.Success? ==> |r.value.1| < |s| && OfKind(r.value.0, kind)
  {
    match kind
    case StringKind =>
      if |s| > 0 && s[0] == '"' then
        var body :- StringBody(s[1..]);
        Success((Str(body.0), body.1))
      else Failure("cannot unmarshal non-string into string element")
    case IntKind =>
      var n :- ParseInt(s);
      Success((Num(n.0), n.1))
  }

  /** Elements separated by commas up to and including the closing bracket. */
  function ParseElements(s: seq<char>, kind: ItemKind): (r: Result<(seq<Item>, seq<char>), string>)
    ensures r.Success? ==> |r.value.1| < |s| && AllOfKind(r.value.0, kind)
    decreases |s|
  {
    var first :- ParseItem(s, kind);
    var after := SkipWs(first.1);
    if |after| == 0 then Failure("unexpected end of JSON input")
    else if after[0] == ']' then Success(([first.0], after[1..]))
    else if after[0] == ',' then
      var more :- ParseElements(SkipWs(after[1..]), kind);
      Success(([first.0] + more.0, more.1))
    else Failure("invalid character after array element")
  }

  /** A whole array literal, with nothing but whitespace around it. */
  function ParseArray(s: seq<char>, kind: ItemKind): (r: Result<seq<Item>, string>)
    ensures r.Success? ==> AllOfKind(r.value, kind)
  {
    var t := SkipWs(s);
    if |t| == 0 || t[0] != '[' then Failure("expected the start of an array")
    else ParseArrayBody(SkipWs(t[1..]), kind)
  }

  /** What follows the opening bracket: a closing bracket or the elements. */
  function ParseArrayBody(u: seq<char>, kind: ItemKind): (r: Result<seq<Item>, string>)
    ensures r.Success? ==> AllOfKind(r.value, kind)
  {
    if |u| > 0 && u[0] == ']' then ExpectEnd([], u[1..])
    else
      match ParseElements(u, kind)
      case Failure(e) => Failure(e)
      case Success(parsed) => ExpectEnd(parsed.0, parsed.1)
  }

  /** Only whitespace may follow the closing bracket. */
  function ExpectEnd(items: seq<Item>, rest: seq<char>): Result<seq<Item>, string> {
    if |SkipWs(rest)| != 0 then Failure("invalid character after top-level value") else Success(items)
  }

  // Rendering, the inverse of parsing.

  function EscapeChar(c: char): seq<char> {
    if c == '"' || c == '\\' then ['\\', c] else [c]
  }

  function Escape(x: string): string {
    if |x| == 0 then [] else EscapeChar(x[0]) + Escape(x[1..])
  }

  function RenderInt(n: int): seq<char> {
    if n < 0 then ['-'] + NatToDigits(-n) else NatToDigits(n)
  }

  function RenderItem(item: Item): seq<char> {
    match item
    case Str(x) => ['"'] + Escape(x) + ['"']
    case Num(n) => RenderInt(n)
  }

  predicate AllWhitespace(gap: seq<char>) {
    forall i :: 0 <= i < |gap| ==> IsWhitespace(gap[i])
  }

  /** The items' literals separated by a comma and `gap`. */
  function Join(items: seq<Item>, gap: seq<char>): seq<char> {
    if |items| == 0 then []
    else if |items| == 1 then RenderItem(items[0])
    else RenderItem(items[0]) + [','] + gap + Join(items[1..], gap)
  }

  /** The literal of a list of items with `gap` after each comma; Go's encoder writes an empty gap. */
  function Render(items: seq<Item>, gap: seq<char>): seq<char> {
    ['['] + Join(items, gap) + [']']
  }

  /** Items that have a literal: strings without control characters, 64-bit integers. */
  predicate Renderable(item: Item) {
    match item
    case Str(x) => forall i :: 0 <= i < |x| ==> x[i] >= ' '
    case Num(n) => MinInt64 <= n <= MaxInt64
  }

  /** Text without quotes or backslashes is its own escape. */
  lemma {:induction false} EscapePlain(x: string)
    requires forall i :: 0 <= i < |x| ==> x[i] != '"' && x[i] != '\\'
    ensures Escape(x) == x
  {
    if |x| > 0 {
      EscapePlain(x[1..]);
      assert x == [x[0]] + x[1..];
    }
  }

  lemma {:induction false} StringBodyOfEscape(x: string, rest: seq<char>)
    requires forall i :: 0 <= i < |x| ==> x[i] >= ' '
    ensures StringBody(Escape(x) + ['"'] + rest) == Success((x, rest))
    decreases |x|
  {
    if |x| == 0 {
      assert Escape(x) + ['"'] + rest == ['"'] + rest;
    } else {
      var tail := Escape(x[1..]) + ['"'] + rest;
      StringBodyOfEscape(x[1..], rest);
      StringBodyStep(x[0], tail, x[1..], rest);
      assert Escape(x) + ['"'] + rest == EscapeChar(x[0]) + tail;
      assert [x[0]] + x[1..] == x;
    }
  }

  /** One more character, escaped if need be, in front of a string body. */
  lemma StringBodyStep(c: char, tail: seq<char>, body: string, rest: seq<char>)
    requires c >= ' ' && StringBody(tail) == Success((body, rest))
    ensures StringBody(EscapeChar(c) + tail) == Success(([c] + body, rest))
  {
    var s := EscapeChar(c) + tail;
    if c == '"' || c == '\\' {
      assert s[0] == '\\' && s[1] == c && s[2..] == tail;
    } else {
      assert s[0] == c && s[1..] == tail;
    }
  }

  lemma ParseIntOfRender(n: int, rest: seq<char>)
    requires MinInt64 <= n <= MaxInt64
    requires |rest| == 0 || !IsDigit(rest[0])
    ensures ParseInt(RenderInt(n) + rest) == Success((n, rest))
  {
    var m: nat := if n < 0 then -n else n;
    var ds := NatToDigits(m);
    DigitRunOf(ds, rest);
    DigitsRoundTrip(m);
    assert (ds + rest)[..|ds|] == ds;
    assert (ds + rest)[|ds|..] == rest;
    if n < 0 {
      ParseIntOfDigits(true, ds, rest);
      assert (if true then ['-'] else []) + ds + rest == RenderInt(n) + rest;
    } else {
      ParseIntOfDigits(false, ds, rest);
      assert (if false then ['-'] else []) + ds + rest == RenderInt(n) + rest;
    }
  }

  /** The parse of an optional minus sign, a digit run and a non-digit. */
  lemma ParseIntOfDigits(negative: bool, ds: seq<char>, rest: seq<char>)
    requires |ds| > 0 && AllDigits(ds) && DigitRun(ds + rest) == |ds|
    requires ds[0] == '0' ==> |ds| == 1
    requires (ds + rest)[..|ds|] == ds && (ds + rest)[|ds|..] == rest
    requires var v := if negative then -(DigitsValue(ds) as int) else DigitsValue(ds); MinInt64 <= v <= MaxInt64
    ensures ParseInt((if negative then ['-'] else []) + ds + rest) ==
      Success((if negative then -(DigitsValue(ds) as int) else DigitsValue(ds), rest))
  {
    var s := (if negative then ['-'] else []) + ds + rest;
    if negative {
      assert s[0] == '-';
      assert s[1..] == ds + rest;
    } else {
      assert s == ds + rest;
      assert s[0] == ds[0];
    }
  }

  /** A rendered item, followed by anything that is not a digit, reads back as the item. */
  lemma ParseItemOfRender(item: Item, kind: ItemKind, rest: seq<char>)
    requires OfKind(item, kind) && Renderable(item)
    requires |rest| == 0 || !IsDigit(rest[0])
    ensures ParseItem(RenderItem(item) + rest, kind) == Success((item, rest))
  {
    match item
    case Str(x) =>
      var s := RenderItem(item) + rest;
      assert s[1..] == Escape(x) + ['"'] + rest;
      StringBodyOfEscape(x, rest);
    case Num(n) =>
      ParseIntOfRender(n, rest);
  }

  lemma RenderItemStart(item: Item)
    ensures |RenderItem(item)| > 0
    ensures var c := RenderItem(item)[0]; c == '"' || c == '-' || IsDigit(c)
  {
    match item
    case Str(_) =>
    case Num(n) =>
  }

  /** The last element of an array literal. */
  lemma ParseElementsLast(s: seq<char>, kind: ItemKind, item: Item, afterItem: seq<char>, rest: seq<char>)
    requires ParseItem(s, kind) == Success((item, afterItem))
    requires SkipWs(afterItem) == [']'] + rest
    ensures ParseElements(s, kind) == Success(([item], rest))
  {
    assert ([']'] + rest)[1..] == rest;
  }

  /** An element followed by a comma and more elements. */
  lemma ParseElementsMore(s: seq<char>, kind: ItemKind, item: Item, afterItem: seq<char>, more: seq<char>, tail: seq<char>, items: seq<Item>, rest: seq<char>)
    requires ParseItem(s, kind) == Success((item, afterItem))
    requires SkipWs(afterItem) == [','] + more
    requires SkipWs(more) == tail
    requires ParseElements(tail, kind) == Success((items, rest))
    ensures ParseElements(s, kind) == Success(([item] + items, rest))
  {
    assert ([','] + more)[1..] == more;
  }

  /** Whitespace before a token is skipped. */
  lemma {:induction false} SkipWsGap(gap: seq<char>, t: seq<char>)
    requires AllWhitespace(gap) && |t| > 0 && !IsWhitespace(t[0])
    ensures SkipWs(gap + t) == t
    decreases |gap|
  {
    if |gap| > 0 {
      assert (gap + t)[1..] == gap[1..] + t;
      SkipWsGap(gap[1..], t);
    }
  }

  /** A joined list starts with a token, not with whitespace. */
  lemma JoinStart(items: seq<Item>, gap: seq<char>, rest: seq<char>)
    requires |items| > 0
    ensures var t := Join(items, gap) + rest; |t| > 0 && !IsWhitespace(t[0])
  {
    RenderItemStart(items[0]);
    assert Join(items, gap) == RenderItem(items[0]) + Join(items, gap)[|RenderItem(items[0])|..];
  }

  /** An item's literal and the closing bracket. */
  lemma ParseElementsSingle(item: Item, kind: ItemKind, rest: seq<char>)
    requires OfKind(item, kind) && Renderable(item)
    ensures ParseElements(RenderItem(item) + ([']'] + rest), kind) == Success(([item], rest))
  {
    ParseItemOfRender(item, kind, [']'] + rest);
    ParseElementsLast(RenderItem(item) + ([']'] + rest), kind, item, [']'] + rest, rest);
  }

  lemma {:induction false} ParseElementsOfJoin(items: seq<Item>, kind: ItemKind, gap: seq<char>, rest: seq<char>)
    requires |items| > 0 && AllOfKind(items, kind) && AllWhitespace(gap)
    requires forall i :: 0 <= i < |items| ==> Renderable(items[i])
    ensures ParseElements(Join(items, gap) + [']'] + rest, kind) == Success((items, rest))
    decreases |items|
  {
    if |items| == 1 {
      assert Join(items, gap) + [']'] + rest == RenderItem(items[0]) + ([']'] + rest);
      ParseElementsSingle(items[0], kind, rest);
      assert [items[0]] == items;
    } else {
      var tail := Join(items[1..], gap) + [']'] + rest;
      assert ParseElements(tail, kind) == Success((items[1..], rest)) by {
        forall i | 0 <= i < |items| - 1 ensures OfKind(items[1..][i], kind) && Renderable(items[1..][i]) {
          assert items[1..][i] == items[i + 1];
        }
        ParseElementsOfJoin(items[1..], kind, gap, rest);
      }
      JoinShape(items, gap, rest);
      ParseElementsCons(items[0], kind, gap, tail, items[1..], rest);
      assert [items[0]] + items[1..] == items;
    }
  }

  lemma Regroup(head: seq<char>, gap: seq<char>, more: seq<char>, rest: seq<char>)
    ensures head + [','] + gap + more + rest == head + ([','] + (gap + (more + rest)))
  {
  }

  /** A joined list of two or more: first literal, comma, gap, then the rest, which starts with a token. */
  lemma JoinShape(items: seq<Item>, gap: seq<char>, rest: seq<char>)
    requires |items| > 1
    ensures var tail := Join(items[1..], gap) + [']'] + rest;
      && Join(items, gap) + [']'] + rest == RenderItem(items[0]) + ([','] + (gap + tail))
      && |tail| > 0 && !IsWhitespace(tail[0])
  {
    Regroup(RenderItem(items[0]), gap, Join(items[1..], gap), [']'] + rest);
    JoinStart(items[1..], gap, [']'] + rest);
    assert Join(items[1..], gap) + [']'] + rest == Join(items[1..], gap) + ([']'] + rest);
  }

  /** An item's literal, a comma and whitespace in front of parsed elements. */
  lemma ParseElementsCons(item: Item, kind: ItemKind, gap: seq<char>, tail: seq<char>, items: seq<Item>, rest: seq<char>)
    requires OfKind(item, kind) && Renderable(item) && AllWhitespace(gap)
    requires |tail| > 0 && !IsWhitespace(tail[0])
    requires ParseElements(tail, kind) == Success((items, rest))
    ensures ParseElements(RenderItem(item) + ([','] + (gap + tail)), kind) == Success(([item] + items, rest))
  {
    var afterItem := [','] + (gap + tail);
    SkipWsGap(gap, tail);
    ParseItemOfRender(item, kind, afterItem);
    ParseElementsMore(RenderItem(item) + afterItem, kind, item, afterItem, gap + tail, tail, items, rest);
  }

  /** An array literal whose opening bracket is followed by its elements. */
  lemma ParseArrayOf(s: seq<char>, kind: ItemKind, body: seq<char>, items: seq<Item>)
    requires s == ['['] + body && |body| > 0 && body[0] != ']' && SkipWs(body) == body
    requires ParseElements(body, kind) == Success((items, []))
    ensures ParseArray(s, kind) == Success(items)
  {
    assert SkipWs(s) == s;
    assert s[1..] == body;
  }

  /** Reading back the literal of renderable items of one kind gives the items. */
  lemma ParseArrayOfRender(items: seq<Item>, kind: ItemKind, gap: seq<char>)
    requires AllOfKind(items, kind) && AllWhitespace(gap)
    requires forall i :: 0 <= i < |items| ==> Renderable(items[i])
    ensures ParseArray(Render(items, gap), kind) == Success(items)
  {
    var s := Render(items, gap);
    if |items| == 0 {
      assert s == ['['] + [']'];
      assert SkipWs(s) == s;
      assert s[1..] == [']'];
      assert SkipWs([']']) == [']'];
    } else {
      var body := Join(items, gap) + [']'];
      assert s == ['['] + body;
      assert body[0] != ']' && SkipWs(body) == body by {
        JoinStart(items, gap, [']']);
        RenderItemStart(items[0]);
        assert Join(items, gap) == RenderItem(items[0]) + Join(items, gap)[|RenderItem(items[0])|..];
      }
      assert ParseElements(body, kind) == Success((items, [])) by {
        ParseElementsOfJoin(items, kind, gap, []);
        assert Join(items, gap) + [']'] + [] == body;
      }
      ParseArrayOf(s, kind, body, items);
    }
  }
}
