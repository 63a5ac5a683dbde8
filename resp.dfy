/**
  The RESP decoder `parseRESP` (app/utils/respParser.js; app/main.js holds a verbatim copy,
  `parseResp`). The first character of the received text selects the kind of frame: simple
  string, integer, error, bulk string or array. Array elements are read by a cursor that a
  `for` loop moves through the text.

  `Decode` says what the decoder returns; `ParseResp` is the decoder written step by step, with
  the cursor loop, and is proved to return `Decode(data)`.
 */
module Resp {
  import opened Wrappers
  import opened Js

  /** What the decoder returns: a string, a number (possibly NaN), null, or an array of those. */
  datatype JsValue = Text(s: string) | Number(n: Num) | Null | List(items: seq<JsValue>)

  /** `data[offset]`; None stands for undefined (a NaN or out-of-range offset). */
  function CharAt(data: string, offset: Num): Option<char>
  {
    if offset.Int? && 0 <= offset.v < |data| then Some(data[offset.v]) else None
  }

  /** The text a template literal gives for `data[offset]`. */
  function Show(c: Option<char>): string {
    if c.Some? then [c.value] else "undefined"
  }

  /** `data.slice(1, -2)`: the text between the type prefix and the final two characters. */
  function Inner(data: string): string {
    Slice(data, 1, -2)
  }

  // ---------------------------------------------------------------- what the decoder returns

  /** One array element read at `offset`: its value and the offset of the next element. */
  function Element(data: string, offset: Num): (r: Result<(JsValue, Num), Fault>)
    ensures r.Ok? <==> CharAt(data, offset) == Some('$') || CharAt(data, offset) == Some(':')
                       || CharAt(data, offset) == Some('+')
    ensures r.Err? ==> r.error.Thrown?
  {
    var prefix := CharAt(data, offset);
    if prefix == Some('$') then Ok(BulkAt(data, offset.v))
    else if prefix == Some(':') then Ok(IntegerAt(data, offset.v))
    else if prefix == Some('+') then Ok(SimpleAt(data, offset.v))
    else Err(Thrown("Unsupported RESP type inside array: " + Show(prefix)))
  }

  /** A `$` element at `o`: the length line, then that many characters, then two more. */
  function BulkAt(data: string, o: nat): (JsValue, Num) {
    var lenEnd := IndexOfCrlf(data, o);
    BulkFrom(data, lenEnd, ParseInt(Slice(data, o + 1, lenEnd)))
  }

  /** The bulk payload after a length line that ends at `lenEnd` and declares `strLen`. */
  function BulkFrom(data: string, lenEnd: int, strLen: Num): (JsValue, Num) {
    if strLen == Int(-1) then (Null, Int(lenEnd + 2))
    else
      var strEnd := Plus(strLen, lenEnd + 2);
      (Text(Slice(data, lenEnd + 2, Bound(strEnd))), Plus(strEnd, 2))
  }

  /** A `:` element at `o`: the number up to the next CR LF. */
  function IntegerAt(data: string, o: nat): (JsValue, Num) {
    var end := IndexOfCrlf(data, o);
    (Number(ParseInt(Slice(data, o + 1, end))), Int(end + 2))
  }

  /** A `+` element at `o`: the text up to the next CR LF. */
  function SimpleAt(data: string, o: nat): (JsValue, Num) {
    var end := IndexOfCrlf(data, o);
    (Text(Slice(data, o + 1, end)), Int(end + 2))
  }

  /** The elements the loop reads from iteration `i` on, appended to those in `acc`. */
  function Elements(data: string, offset: Num, i: nat, arrLen: Num, acc: seq<JsValue>)
    : (r: Result<seq<JsValue>, Fault>)
    decreases Count(arrLen) - i
    ensures r.Ok? ==> acc <= r.value
    ensures r.Err? ==> r.error.Thrown?
  {
    if !Below(i, arrLen) then Ok(acc)
    else
      match Element(data, offset)
      case Err(f) => Err(f)
      case Ok(step) =>
        var rest := Elements(data, step.1, i + 1, arrLen, acc + [step.0]);
        assert rest.Ok? ==> acc <= acc + [step.0] <= rest.value;
        rest
  }

  /** The element count an array frame declares: the number before the first CR LF. */
  function ArrayLength(data: string): Num {
    ParseInt(Slice(data, 1, IndexOfCrlf(data, 0)))
  }

  function DecodeBulk(data: string): Result<JsValue, Fault> {
    var lines := SplitCrlf(data);
    var length := ParseInt(Slice(lines[0], 1, |lines[0]|));
    if length == Int(-1) then Ok(Null)
    else if |lines| < 2 then Err(TypeError)
    else Ok(Text(Slice(lines[1], 0, Bound(length))))
  }

  function DecodeArray(data: string): Result<JsValue, Fault> {
    ArrayFrom(data, IndexOfCrlf(data, 0), ArrayLength(data))
  }

  /** The array whose header ends with the CR LF at `e` and declares `arrLen` elements. */
  function ArrayFrom(data: string, e: int, arrLen: Num): Result<JsValue, Fault> {
    match Elements(data, Int(e + 2), 0, arrLen, [])
    case Ok(xs) => Ok(List(xs))
    case Err(f) => Err(f)
  }

  /** What `parseRESP` returns for the received text, or the exception it raises. */
  function Decode(data: string): (r: Result<JsValue, Fault>)
    ensures r.Ok? ==> |data| > 0 && data[0] in "+:$*"
    ensures |data| > 0 && data[0] in "+:" ==> r.Ok?
  {
    if |data| == 0 then Err(Thrown("Unknown RESP type"))
    else if data[0] == '+' then Ok(Text(Inner(data)))
    else if data[0] == ':' then Ok(Number(ParseInt(Inner(data))))
    else if data[0] == '-' then Err(Thrown(Inner(data)))
    else if data[0] == '$' then DecodeBulk(data)
    else if data[0] == '*' then DecodeArray(data)
    else Err(Thrown("Unknown RESP type"))
  }

  // ---------------------------------------------------------------- the decoder

  /** `parseRESP(buffer)`, on the text `buffer.toString()`. */
  method ParseResp(data: string) returns (r: Result<JsValue, Fault>)
    ensures r == Decode(data)
  {
    if |data| > 0 && data[0] == '+' {
      return Ok(Text(Slice(data, 1, -2)));
    }
    if |data| > 0 && data[0] == ':' {
      return Ok(Number(ParseInt(Slice(data, 1, -2))));
    }
    if |data| > 0 && data[0] == '-' {
      return Err(Thrown(Slice(data, 1, -2)));
    }
    if |data| > 0 && data[0] == '$' {
      var lines := SplitCrlf(data);
      var length := ParseInt(Slice(lines[0], 1, |lines[0]|));
      if length == Int(-1) {
        return Ok(Null);
      }
      if |lines| < 2 {
        return Err(TypeError);
      }
      return Ok(Text(Slice(lines[1], 0, Bound(length))));
    }
    if |data| > 0 && data[0] == '*' {
      r := ParseArray(data);
      DecodeStar(data);
      return;
    }
    return Err(Thrown("Unknown RESP type"));
  }

  /** The `*` branch: the element count from the header, then the loop that reads that many
      elements, each at the cursor the previous one left. */
  method ParseArray(data: string) returns (r: Result<JsValue, Fault>)
    requires |data| > 0 && data[0] == '*'
    ensures r == ArrayFrom(data, IndexOfCrlf(data, 0), ArrayLength(data))
  {
    var cursor := 1;
    var firstCrlf := IndexOfCrlf(data, 0);
    var arrLen := ParseInt(Slice(data, cursor, firstCrlf));
    var result: seq<JsValue> := [];
    var offset := Int(firstCrlf + 2);
    var i: nat := 0;
    while Below(i, arrLen)
      invariant Elements(data, offset, i, arrLen, result)
             == Elements(data, Int(firstCrlf + 2), 0, arrLen, [])
      decreases Count(arrLen) - i
    {
      var step := ReadElement(data, offset);
      if step.Err? {
        ElementsHalt(data, offset, i, arrLen, result, step.error);
        return Err(step.error);
      }
      var (value, next) := step.value;
      ElementsStep(data, offset, i, arrLen, result, value, next);
      result := result + [value];
      offset := next;
      i := i + 1;
    }
    return Ok(List(result));
  }

  /** The body of the decoder's `for` loop: the element at `offset`, and where the next begins. */
  method ReadElement(data: string, offset: Num) returns (step: Result<(JsValue, Num), Fault>)
    ensures step == Element(data, offset)
  {
    var prefix := CharAt(data, offset);
    if prefix == Some('$') {
      var lenEnd := IndexOfCrlf(data, offset.v);
      var strLen := ParseInt(Slice(data, offset.v + 1, lenEnd));
      ElementPrefix(data, offset.v);
      if strLen == Int(-1) {
        return Ok((Null, Int(lenEnd + 2)));
      }
      var strStart := lenEnd + 2;
      var strEnd := Plus(strLen, strStart);
      return Ok((Text(Slice(data, strStart, Bound(strEnd))), Plus(strEnd, 2)));
    } else if prefix == Some(':') {
      var end := IndexOfCrlf(data, offset.v);
      ElementPrefix(data, offset.v);
      return Ok((Number(ParseInt(Slice(data, offset.v + 1, end))), Int(end + 2)));
    } else if prefix == Some('+') {
      var end := IndexOfCrlf(data, offset.v);
      ElementPrefix(data, offset.v);
      return Ok((Text(Slice(data, offset.v + 1, end)), Int(end + 2)));
    }
    return Err(Thrown("Unsupported RESP type inside array: " + Show(prefix)));
  }

  // ---------------------------------------------------------------- frames, as a client writes them

  /** `$<length>\r\n<s>\r\n`: a bulk-string frame. */
  function BulkFrame(s: string): string {
    "$" + Decimal(|s|) + "\r\n" + s + "\r\n"
  }

  /** The bulk-string frames of `ss`, one after the other. */
  function Frames(ss: seq<string>): string {
    if |ss| == 0 then "" else BulkFrame(ss[0]) + Frames(ss[1..])
  }

  /** A command as a client sends it: an array frame of bulk strings. */
  function EncodeCommand(ss: seq<string>): string {
    "*" + Decimal(|ss|) + "\r\n" + Frames(ss)
  }

  /** The decoded form of a list of strings. */
  function Texts(ss: seq<string>): (vs: seq<JsValue>)
    ensures |vs| == |ss| && forall k :: 0 <= k < |ss| ==> vs[k] == Text(ss[k])
  {
    if |ss| == 0 then [] else [Text(ss[0])] + Texts(ss[1..])
  }

  /** The text strictly between the first character and the final two. */
  function Between(data: string): string {
    if |data| >= 3 then data[1..|data| - 2] else ""
  }

  // ---------------------------------------------------------------- scalar frames

  /** A `+` frame yields the text between the prefix and the final two characters. */
  lemma SimpleString(data: string)
    requires |data| >= 1 && data[0] == '+'
    ensures Decode(data) == Ok(Text(Between(data)))
  {
  }

  /** A `:` frame yields the integer parsed from that same text. */
  lemma IntegerFrame(data: string)
    requires |data| >= 1 && data[0] == ':'
    ensures Decode(data) == Ok(Number(ParseInt(Between(data))))
  {
  }

  /** An integer written as a `:` frame decodes back to itself. */
  lemma IntegerRoundTrip(n: int)
    ensures Decode(":" + IntText(n) + "\r\n") == Ok(Number(Int(n)))
  {
    var data := ":" + IntText(n) + "\r\n";
    assert data[0] != '+';
    assert data[1..|data| - 2] == IntText(n);
    ParseIntText(n);
  }

  /** A `-` frame always fails, with the text between the prefix and the final two characters. */
  lemma ErrorFrame(data: string)
    requires |data| >= 1 && data[0] == '-'
    ensures Decode(data) == Err(Thrown(Between(data)))
  {
  }

  /** Any other first character, or no character at all, is an unknown type. */
  lemma UnknownType(data: string)
    requires |data| == 0 || data[0] !in {'+', ':', '-', '$', '*'}
    ensures Decode(data) == Err(Thrown("Unknown RESP type"))
  {
  }

  // ---------------------------------------------------------------- bulk frames at top level

  /** A type prefix followed by digits holds no CR LF. */
  lemma HeaderNoCrlf(c: char, n: nat)
    ensures NoCrlf([c] + Decimal(n))
  {
    var h := [c] + Decimal(n);
    DecimalDigits(n);
    forall j | 0 <= j < |h|
      ensures !CrlfAt(h, j)
    {
      if j + 1 < |h| {
        assert h[j + 1] == Decimal(n)[j];
      }
    }
  }

  /** A text that starts with `$` is decoded as a bulk string. */
  lemma DecodeDollar(data: string)
    requires |data| > 0 && data[0] == '$'
    ensures Decode(data) == DecodeBulk(data)
  {
    assert data[0] != '+' && data[0] != ':' && data[0] != '-';
  }

  /** A null bulk string: declared length -1 yields null. */
  lemma BulkNull(rest: string)
    requires |rest| == 0 || CrlfAt(rest, 0)
    ensures Decode("$-1" + rest) == Ok(Null)
  {
    var data := "$-1" + rest;
    DecodeDollar(data);
    assert NoCrlf("$-1");
    FirstPiece("$-1", rest);
    assert Slice("$-1", 1, 3) == "-1" == IntText(-1);
    ParseIntText(-1);
  }

  /** Otherwise the result is the second CR LF separated line, cut to at most the declared length. */
  lemma BulkCut(n: nat, line: string, tail: string)
    requires NoCrlf(line)
    requires |tail| == 0 || CrlfAt(tail, 0)
    ensures Decode("$" + Decimal(n) + "\r\n" + line + tail)
         == Ok(Text(line[..if n < |line| then n else |line|]))
  {
    var h := "$" + Decimal(n);
    var data := "$" + Decimal(n) + "\r\n" + line + tail;
    var lines := SplitCrlf(data);
    DecodeDollar(data);
    assert lines[0] == h && |lines| >= 2 && lines[1] == line by {
      HeaderNoCrlf('$', n);
      FirstTwoPieces(h, line, tail);
    }
    assert ParseInt(Slice(h, 1, |h|)) == Int(n) by {
      var digits := Slice(h, 1, |h|);
      assert digits == Decimal(n);
      DecimalParses(n);
    }
  }

  /** A negative declared length other than -1 counts from the end of the second line: the line
      loses that many characters from its end, and is empty when it has no more than that. */
  lemma BulkNegative(n: nat, line: string, tail: string)
    requires n >= 2
    requires NoCrlf(line)
    requires |tail| == 0 || CrlfAt(tail, 0)
    ensures Decode("$-" + Decimal(n) + "\r\n" + line + tail)
         == Ok(Text(line[..if n <= |line| then |line| - n else 0]))
  {
    var h := "$-" + Decimal(n);
    var data := h + "\r\n" + line + tail;
    NegativeHeader(n);
    FirstTwoPieces(h, line, tail);
    BulkLines(data, Int(-(n as int)), line);
    assert Slice(line, 0, -(n as int)) == line[..if n <= |line| then |line| - n else 0];
  }

  /** The header `$-n` holds no CR LF, and declares the length -n. */
  lemma NegativeHeader(n: nat)
    requires n >= 1
    ensures NoCrlf("$-" + Decimal(n))
    ensures ParseInt(Slice("$-" + Decimal(n), 1, |"$-" + Decimal(n)|)) == Int(-(n as int))
  {
    var h := "$-" + Decimal(n);
    HeaderNoCrlf('-', n);
    PrefixNoCrlf('$', "-" + Decimal(n));
    assert h == ['$'] + ("-" + Decimal(n));
    assert Slice(h, 1, |h|) == "-" + Decimal(n) == IntText(-(n as int));
    ParseIntText(-(n as int));
  }

  /** A `$` text whose first line declares `len`, other than -1, and whose second line is `line`
      yields that line cut by `slice(0, len)`. */
  lemma BulkLines(data: string, len: Num, line: string)
    requires |data| > 0 && data[0] == '$'
    requires |SplitCrlf(data)| >= 2 && SplitCrlf(data)[1] == line
    requires ParseInt(Slice(SplitCrlf(data)[0], 1, |SplitCrlf(data)[0]|)) == len && len != Int(-1)
    ensures Decode(data) == Ok(Text(Slice(line, 0, Bound(len))))
  {
    DecodeDollar(data);
  }

  /** A declared length with no digits is NaN, and the result is the empty string. */
  lemma BulkNaN(h: string, line: string, tail: string)
    requires NoCrlf(h) && ParseInt(h) == NaN
    requires NoCrlf(line)
    requires |tail| == 0 || CrlfAt(tail, 0)
    ensures Decode("$" + h + "\r\n" + line + tail) == Ok(Text(""))
  {
    var dh := "$" + h;
    var data := dh + "\r\n" + line + tail;
    PrefixNoCrlf('$', h);
    FirstTwoPieces(dh, line, tail);
    assert Slice(dh, 1, |dh|) == h;
    BulkLines(data, NaN, line);
  }

  /** A character other than CR before a text without CR LF adds none. */
  lemma PrefixNoCrlf(c: char, s: string)
    requires c != '\r' && NoCrlf(s)
    ensures NoCrlf([c] + s)
  {
    forall j | 0 <= j < |[c] + s|
      ensures !CrlfAt([c] + s, j)
    {
      if j >= 1 {
        assert !CrlfAt(s, j - 1);
      }
    }
  }

  /** A bulk frame at top level is split at CR LF, so a payload holding a CR LF comes back cut at
      its first one; a payload without one comes back whole. */
  lemma BulkFrameTruncates(s: string)
    ensures Decode(BulkFrame(s)) == Ok(Text(SplitCrlf(s)[0]))
  {
    var line := SplitCrlf(s)[0];
    var rest := s[|line|..];
    FirstLine(s);
    assert BulkFrame(s) == "$" + Decimal(|s|) + "\r\n" + line + (rest + "\r\n") by {
      Regroup("$" + Decimal(|s|) + "\r\n", s, line, rest, "\r\n");
    }
    assert CrlfAt(rest + "\r\n", 0);
    assert line[..if |s| < |line| then |s| else |line|] == line;
    BulkCut(|s|, line, rest + "\r\n");
  }

  /** The first piece of a split is a prefix without CR LF, and what follows it, if anything,
      starts with CR LF. */
  lemma FirstLine(s: string)
    ensures |SplitCrlf(s)[0]| <= |s| && s[..|SplitCrlf(s)[0]|] == SplitCrlf(s)[0]
    ensures NoCrlf(SplitCrlf(s)[0])
    ensures |SplitCrlf(s)[0]| < |s| ==> CrlfAt(s, |SplitCrlf(s)[0]|)
  {
    var line := SplitCrlf(s)[0];
    IndexOfCrlfFirst(s, 0);
    forall j | 0 <= j < |line|
      ensures !CrlfAt(line, j)
    {
      assert CrlfAt(line, j) ==> CrlfAt(s, j);
    }
  }

  /** Splitting the middle of a concatenation in two. */
  lemma Regroup<T>(a: seq<T>, s: seq<T>, x: seq<T>, y: seq<T>, z: seq<T>)
    requires s == x + y
    ensures a + s + z == a + x + (y + z)
  {
  }

  /** A payload without CR LF comes back whole from a top-level bulk frame. */
  lemma BulkFrameRoundTrip(s: string)
    requires NoCrlf(s)
    ensures Decode(BulkFrame(s)) == Ok(Text(s))
  {
    assert IndexOfCrlf(s, 0) == -1;
    BulkFrameTruncates(s);
  }

  // ---------------------------------------------------------------- array elements

  /** A bulk element is measured by its declared length, not by searching for CR LF: the cursor
      moves to `lenEnd + 2 + strLen + 2`. */
  lemma BulkElementAdvance(data: string, o: nat, s: string)
    requires CharAt(data, Int(o)) == Some('$')
    requires 0 <= IndexOfCrlf(data, o)
    requires ParseInt(Slice(data, o + 1, IndexOfCrlf(data, o))) == Int(|s|)
    requires IndexOfCrlf(data, o) + 2 + |s| <= |data|
    requires data[IndexOfCrlf(data, o) + 2..IndexOfCrlf(data, o) + 2 + |s|] == s
    ensures Element(data, Int(o)) == Ok((Text(s), Int(IndexOfCrlf(data, o) + 2 + |s| + 2)))
  {
    var e := IndexOfCrlf(data, o);
    assert Element(data, Int(o)) == Ok(BulkAt(data, o)) by {
      ElementPrefix(data, o);
    }
    assert BulkAt(data, o) == BulkFrom(data, e, Int(|s|));
    assert BulkFrom(data, e, Int(|s|)) == (Text(s), Int(e + 2 + |s| + 2)) by {
      BulkPayload(data, e, s);
    }
  }

  /** A `$` element in general: a declared length of -1 yields null and moves the cursor past the
      length line alone; any other length `n`, negative ones included, slices the text after the
      length line up to `n` characters on and moves the cursor two past that point, backwards when
      `n` is negative enough; a length that is no number yields "" and leaves the cursor NaN. */
  lemma BulkElementCases(data: string, o: nat, lenEnd: int, len: Num)
    requires CharAt(data, Int(o)) == Some('$')
    requires lenEnd == IndexOfCrlf(data, o)
    requires ParseInt(Slice(data, o + 1, lenEnd)) == len
    ensures len == Int(-1) ==> Element(data, Int(o)) == Ok((Null, Int(lenEnd + 2)))
    ensures len.Int? && len != Int(-1) ==>
      Element(data, Int(o))
        == Ok((Text(Slice(data, lenEnd + 2, lenEnd + 2 + len.v)), Int(lenEnd + 2 + len.v + 2)))
    ensures len.NaN? ==> Element(data, Int(o)) == Ok((Text(""), NaN))
  {
    assert Element(data, Int(o)) == Ok(BulkFrom(data, lenEnd, len)) by {
      ElementPrefix(data, o);
    }
    BulkFromCases(data, lenEnd, len);
  }

  /** The three outcomes of a bulk length line ending at `e`. */
  lemma BulkFromCases(data: string, e: int, len: Num)
    requires e >= -1
    ensures len == Int(-1) ==> BulkFrom(data, e, len) == (Null, Int(e + 2))
    ensures len.Int? && len != Int(-1) ==>
      BulkFrom(data, e, len) == (Text(Slice(data, e + 2, e + 2 + len.v)), Int(e + 2 + len.v + 2))
    ensures len.NaN? ==> BulkFrom(data, e, len) == (Text(""), NaN)
  {
    if len.NaN? {
      assert Slice(data, e + 2, 0) == "";
    }
  }

  /** A declared length that is the payload's own length reads the payload and skips two more. */
  lemma BulkPayload(data: string, e: int, s: string)
    requires 0 <= e && e + 2 + |s| <= |data| && data[e + 2..e + 2 + |s|] == s
    ensures BulkFrom(data, e, Int(|s|)) == (Text(s), Int(e + 2 + |s| + 2))
  {
    var strEnd := Plus(Int(|s|), e + 2);
    assert strEnd == Int(e + 2 + |s|) && Bound(strEnd) == e + 2 + |s|;
    assert Slice(data, e + 2, Bound(strEnd)) == s;
    assert Int(|s|) != Int(-1);
  }

  /** The prefix character picks the kind of element. */
  lemma ElementPrefix(data: string, o: nat)
    ensures CharAt(data, Int(o)) == Some('$') ==> Element(data, Int(o)) == Ok(BulkAt(data, o))
    ensures CharAt(data, Int(o)) == Some(':') ==> Element(data, Int(o)) == Ok(IntegerAt(data, o))
    ensures CharAt(data, Int(o)) == Some('+') ==> Element(data, Int(o)) == Ok(SimpleAt(data, o))
  {
    assert '$' != ':' && '$' != '+' && ':' != '+';
  }

  /** A bulk frame read inside an array yields its payload whole, CR LF or not, and the cursor
      lands just after the frame, wherever the frame sits in the text. */
  lemma BulkElement(data: string, o: nat, s: string, next: nat)
    requires o + |BulkFrame(s)| <= |data| && data[o..o + |BulkFrame(s)|] == BulkFrame(s)
    requires next == o + |BulkFrame(s)|
    ensures Element(data, Int(o)) == Ok((Text(s), Int(next)))
  {
    BulkElementFacts(data, o, s);
    var digits := Slice(data, o + 1, IndexOfCrlf(data, o));
    assert digits == Decimal(|s|);
    DecimalParses(|s|);
    assert ParseInt(digits) == Int(|s|);
    BulkElementAdvance(data, o, s);
  }

  /** What the cursor finds at a bulk frame placed at `o`. */
  lemma BulkElementFacts(data: string, o: nat, s: string)
    requires o + |BulkFrame(s)| <= |data| && data[o..o + |BulkFrame(s)|] == BulkFrame(s)
    ensures IndexOfCrlf(data, o) == o + 1 + |Decimal(|s|)|
    ensures CharAt(data, Int(o)) == Some('$')
    ensures Slice(data, o + 1, o + 1 + |Decimal(|s|)|) == Decimal(|s|)
    ensures o + 1 + |Decimal(|s|)| + 2 + |s| <= |data|
    ensures data[o + 1 + |Decimal(|s|)| + 2..o + 1 + |Decimal(|s|)| + 2 + |s|] == s
    ensures o + 1 + |Decimal(|s|)| + 2 + |s| + 2 == o + |BulkFrame(s)|
  {
    var e := o + 1 + |Decimal(|s|)|;
    BulkFrameLayout(data, o, s);
    assert IndexOfCrlf(data, o) == e by {
      DecimalDigits(|s|);
      DigitsBeforeCrlf(data, o, e);
    }
  }

  /** Where the parts of a bulk frame sit once it is placed at `o`. */
  lemma BulkFrameLayout(data: string, o: nat, s: string)
    requires o + |BulkFrame(s)| <= |data| && data[o..o + |BulkFrame(s)|] == BulkFrame(s)
    ensures |BulkFrame(s)| == 1 + |Decimal(|s|)| + 2 + |s| + 2
    ensures data[o] == '$'
    ensures data[o + 1..o + 1 + |Decimal(|s|)|] == Decimal(|s|)
    ensures CrlfAt(data, o + 1 + |Decimal(|s|)|)
    ensures data[o + 1 + |Decimal(|s|)| + 2..o + 1 + |Decimal(|s|)| + 2 + |s|] == s
  {
    BulkFrameParts(s);
    LayoutHead(data, o, s);
    LayoutPayload(data, o, s);
  }

  /** The `$`, the length digits and the CR LF after them, in the text. */
  lemma LayoutHead(data: string, o: nat, s: string)
    requires o + |BulkFrame(s)| <= |data| && data[o..o + |BulkFrame(s)|] == BulkFrame(s)
    ensures data[o] == '$'
    ensures data[o + 1..o + 1 + |Decimal(|s|)|] == Decimal(|s|)
    ensures CrlfAt(data, o + 1 + |Decimal(|s|)|)
  {
    var d := Decimal(|s|);
    var f := BulkFrame(s);
    BulkFrameParts(s);
    assert data[o] == f[0] && data[o + 1 + |d|] == f[1 + |d|] && data[o + 2 + |d|] == f[2 + |d|] by {
      Inside(data, o, f, 0, |f|);
    }
    Inside(data, o, f, 1, 1 + |d|);
  }

  /** The payload, in the text. */
  lemma LayoutPayload(data: string, o: nat, s: string)
    requires o + |BulkFrame(s)| <= |data| && data[o..o + |BulkFrame(s)|] == BulkFrame(s)
    ensures data[o + 1 + |Decimal(|s|)| + 2..o + 1 + |Decimal(|s|)| + 2 + |s|] == s
  {
    var d := Decimal(|s|);
    BulkFrameParts(s);
    Inside(data, o, BulkFrame(s), 1 + |d| + 2, 1 + |d| + 2 + |s|);
  }

  /** The parts of a bulk frame: `$`, the decimal length, CR LF, the payload, CR LF. */
  lemma BulkFrameParts(s: string)
    ensures |BulkFrame(s)| == 1 + |Decimal(|s|)| + 2 + |s| + 2
    ensures BulkFrame(s)[0] == '$'
    ensures BulkFrame(s)[1..1 + |Decimal(|s|)|] == Decimal(|s|)
    ensures BulkFrame(s)[1 + |Decimal(|s|)|] == '\r' && BulkFrame(s)[1 + |Decimal(|s|)| + 1] == '\n'
    ensures BulkFrame(s)[1 + |Decimal(|s|)| + 2..1 + |Decimal(|s|)| + 2 + |s|] == s
  {
    var d := Decimal(|s|);
    var f := BulkFrame(s);
    assert f == (("$" + d) + "\r\n") + s + "\r\n";
    assert f[1..1 + |d|] == d;
    assert f[1 + |d| + 2..1 + |d| + 2 + |s|] == s;
  }

  /** A slice of a text found at `o` is found in the text itself, shifted by `o`. */
  lemma Inside<T>(data: seq<T>, o: nat, w: seq<T>, i: nat, j: nat)
    requires o + |w| <= |data| && data[o..o + |w|] == w && i <= j <= |w|
    ensures data[o + i..o + j] == w[i..j]
    ensures forall k :: i <= k < j ==> data[o + k] == w[k]
  {
    forall k | i <= k < j
      ensures data[o + k] == w[k]
    {
      assert data[o + k] == data[o..o + |w|][k];
    }
  }

  /** A prefix character followed by digits, then CR LF: that CR LF is the first one. */
  lemma DigitsBeforeCrlf(data: string, o: nat, e: nat)
    requires o < e && CrlfAt(data, e)
    requires data[o] != '\r' && AllDigits(data[o + 1..e])
    ensures IndexOfCrlf(data, o) == e
  {
    forall j | o <= j < e
      ensures !CrlfAt(data, j)
    {
      if j > o {
        assert data[j] == data[o + 1..e][j - o - 1];
      }
    }
    IndexOfCrlfIs(data, o, e);
  }

  /** A `+` element ends at the first CR LF after its prefix, holds no CR LF, and the cursor
      resumes two characters past it. */
  lemma SimpleElement(data: string, o: nat)
    requires CharAt(data, Int(o)) == Some('+')
    requires 0 <= IndexOfCrlf(data, o)
    ensures o < IndexOfCrlf(data, o) && NoCrlf(data[o + 1..IndexOfCrlf(data, o)])
    ensures Element(data, Int(o))
         == Ok((Text(data[o + 1..IndexOfCrlf(data, o)]), Int(IndexOfCrlf(data, o) + 2)))
  {
    var e := IndexOfCrlf(data, o);
    LineBounds(data, o);
    assert Element(data, Int(o)) == Ok(SimpleAt(data, o)) by {
      ElementPrefix(data, o);
    }
    assert Slice(data, o + 1, e) == data[o + 1..e];
  }

  /** A `:` element is the number parsed from the text up to the first CR LF after its prefix,
      and the cursor resumes two characters past that CR LF. */
  lemma IntegerElement(data: string, o: nat)
    requires CharAt(data, Int(o)) == Some(':')
    requires 0 <= IndexOfCrlf(data, o)
    ensures o < IndexOfCrlf(data, o) && NoCrlf(data[o + 1..IndexOfCrlf(data, o)])
    ensures Element(data, Int(o))
         == Ok((Number(ParseInt(data[o + 1..IndexOfCrlf(data, o)])), Int(IndexOfCrlf(data, o) + 2)))
  {
    var e := IndexOfCrlf(data, o);
    LineBounds(data, o);
    assert Element(data, Int(o)) == Ok(IntegerAt(data, o)) by {
      ElementPrefix(data, o);
    }
    assert Slice(data, o + 1, e) == data[o + 1..e];
  }

  /** The CR LF that ends a line element comes after its prefix, and none comes before it. */
  lemma LineBounds(data: string, o: nat)
    requires o < |data| && (data[o] == '+' || data[o] == ':')
    requires 0 <= IndexOfCrlf(data, o)
    ensures o < IndexOfCrlf(data, o) && NoCrlf(data[o + 1..IndexOfCrlf(data, o)])
  {
    assert data[o] != '\r';
    IndexOfCrlfFirst(data, o);
    CrlfFreeSlice(data, o + 1, IndexOfCrlf(data, o));
  }

  /** A stretch of text in which no CR LF starts holds none. */
  lemma CrlfFreeSlice(data: string, a: nat, b: nat)
    requires a <= b <= |data|
    requires forall j :: a <= j < b ==> !CrlfAt(data, j)
    ensures NoCrlf(data[a..b])
  {
    var t := data[a..b];
    forall j | 0 <= j < |t|
      ensures !CrlfAt(t, j)
    {
      assert CrlfAt(t, j) ==> CrlfAt(data, a + j);
    }
  }

  /** An element fails exactly when its prefix is none of `$`, `:` and `+`, which includes
      reading past the end of the text. */
  lemma UnsupportedElement(data: string, offset: Num)
    ensures var prefix := CharAt(data, offset);
      Element(data, offset).Err? <==> prefix != Some('$') && prefix != Some(':') && prefix != Some('+')
    ensures Element(data, offset).Err? ==>
      Element(data, offset).error == Thrown("Unsupported RESP type inside array: " + Show(CharAt(data, offset)))
    ensures offset.Int? && offset.v >= |data| ==> Element(data, offset).Err?
  {
  }

  // ---------------------------------------------------------------- array frames

  /** The loop appends exactly one element per remaining iteration. */
  lemma {:induction false} ElementsLength(data: string, offset: Num, i: nat, arrLen: Num, acc: seq<JsValue>)
    requires i <= Count(arrLen)
    decreases Count(arrLen) - i, 1
    ensures var r := Elements(data, offset, i, arrLen, acc);
      r.Ok? ==> |r.value| == |acc| + Count(arrLen) - i
  {
    if Below(i, arrLen) {
      var e := Element(data, offset);
      if e.Ok? {
        ElementsLengthStep(data, offset, i, arrLen, acc, e.value.0, e.value.1);
      } else {
        ElementsHalt(data, offset, i, arrLen, acc, e.error);
      }
    } else {
      assert Count(arrLen) == i;
    }
  }

  lemma {:induction false} ElementsLengthStep(data: string, offset: Num, i: nat, arrLen: Num,
                                              acc: seq<JsValue>, v: JsValue, next: Num)
    requires Below(i, arrLen) && Element(data, offset) == Ok((v, next))
    decreases Count(arrLen) - i, 0
    ensures var r := Elements(data, offset, i, arrLen, acc);
      r.Ok? ==> |r.value| == |acc| + Count(arrLen) - i
  {
    assert i + 1 <= Count(arrLen);
    assert |acc + [v]| == |acc| + 1;
    ElementsLength(data, next, i + 1, arrLen, acc + [v]);
    ElementsStep(data, offset, i, arrLen, acc, v, next);
  }

  /** On success an array frame yields exactly the declared number of elements; a count that is
      not a positive number (NaN included) yields an empty array. */
  lemma ArrayCount(data: string)
    requires |data| >= 1 && data[0] == '*'
    ensures Decode(data).Ok? ==>
      Decode(data).value.List? && |Decode(data).value.items| == Count(ArrayLength(data))
    ensures Count(ArrayLength(data)) == 0 ==> Decode(data) == Ok(List([]))
  {
    DecodeStar(data);
    ElementsLength(data, Int(IndexOfCrlf(data, 0) + 2), 0, ArrayLength(data), []);
  }

  /** One turn of the cursor loop: a successful element is appended and the cursor moves on. */
  lemma ElementsStep(data: string, offset: Num, i: nat, arrLen: Num, acc: seq<JsValue>,
                     v: JsValue, next: Num)
    requires Below(i, arrLen) && Element(data, offset) == Ok((v, next))
    ensures Elements(data, offset, i, arrLen, acc) == Elements(data, next, i + 1, arrLen, acc + [v])
  {
  }

  /** An element that fails stops the loop with its exception. */
  lemma ElementsHalt(data: string, offset: Num, i: nat, arrLen: Num, acc: seq<JsValue>, f: Fault)
    requires Below(i, arrLen) && Element(data, offset) == Err(f)
    ensures Elements(data, offset, i, arrLen, acc) == Err(f)
  {
  }

  /** A text that starts with `*` is decoded as an array. */
  lemma DecodeStar(data: string)
    requires |data| > 0 && data[0] == '*'
    ensures Decode(data) == ArrayFrom(data, IndexOfCrlf(data, 0), ArrayLength(data))
  {
    assert data[0] != '+' && data[0] != ':' && data[0] != '-' && data[0] != '$';
  }

  /** An array frame whose header declares `n` and whose elements read back as `xs`. */
  lemma ArrayDecodes(data: string, e: nat, n: nat, xs: seq<JsValue>)
    requires |data| > 0 && data[0] == '*'
    requires IndexOfCrlf(data, 0) == e && ArrayLength(data) == Int(n)
    requires Elements(data, Int(e + 2), 0, Int(n), []) == Ok(xs)
    ensures Decode(data) == Ok(List(xs))
  {
    DecodeStar(data);
  }

  /** A header whose digits spell `n` declares `n` elements. */
  lemma HeaderCount(data: string, e: nat, n: nat)
    requires 1 <= e <= |data| && IndexOfCrlf(data, 0) == e && data[1..e] == Decimal(n)
    ensures ArrayLength(data) == Int(n)
  {
    assert Slice(data, 1, e) == Decimal(n);
    DecimalParses(n);
  }

  /** The digits and the body of a header, found again in the text they make up. */
  lemma HeaderPieces<T>(c: T, d: seq<T>, m: seq<T>, body: seq<T>)
    ensures ([c] + d + m + body)[1..1 + |d|] == d
    ensures ([c] + d + m + body)[1 + |d| + |m|..1 + |d| + |m| + |body|] == body
  {
  }

  /** Where the frame of `ss[k]` starts, when the frames of `ss` start at `start`. */
  function FrameStart(start: nat, ss: seq<string>, k: nat): (o: nat)
    requires k <= |ss|
    decreases k
    ensures o >= start
  {
    if k == 0 then start else FrameStart(start + |BulkFrame(ss[0])|, ss[1..], k - 1)
  }

  /** The offsets at which the frames of `ss` start, and the one at which the last ends. */
  function FrameStarts(start: nat, ss: seq<string>): seq<nat>
  {
    seq(|ss| + 1, k requires 0 <= k <= |ss| => FrameStart(start, ss, k))
  }

  /** The frame of `ss[k]` sits at its start, and the next frame starts right after it. */
  lemma {:induction false} FrameSlice(data: string, start: nat, ss: seq<string>, k: nat)
    requires start + |Frames(ss)| <= |data| && data[start..start + |Frames(ss)|] == Frames(ss)
    requires k < |ss|
    decreases k
    ensures FrameStart(start, ss, k + 1) == FrameStart(start, ss, k) + |BulkFrame(ss[k])|
    ensures FrameStart(start, ss, k) + |BulkFrame(ss[k])| <= |data|
    ensures data[FrameStart(start, ss, k)..FrameStart(start, ss, k) + |BulkFrame(ss[k])|]
         == BulkFrame(ss[k])
  {
    if k == 0 {
      FramesFirst(data, start, ss);
    } else {
      var next := start + |BulkFrame(ss[0])|;
      assert next + |Frames(ss[1..])| <= |data|
          && data[next..next + |Frames(ss[1..])|] == Frames(ss[1..]) by {
        FramesFirst(data, start, ss);
      }
      FrameSlice(data, next, ss[1..], k - 1);
      assert ss[1..][k - 1] == ss[k];
    }
  }

  /** The `k`-th of the bulk frames placed at `start` reads as `ss[k]`, and the cursor lands on the
      next frame. */
  lemma FrameAt(data: string, start: nat, ss: seq<string>, k: nat)
    requires start + |Frames(ss)| <= |data| && data[start..start + |Frames(ss)|] == Frames(ss)
    requires k < |ss|
    ensures Element(data, Int(FrameStart(start, ss, k)))
         == Ok((Text(ss[k]), Int(FrameStart(start, ss, k + 1))))
  {
    FrameSlice(data, start, ss, k);
    BulkElement(data, FrameStart(start, ss, k), ss[k], FrameStart(start, ss, k + 1));
  }

  /** Bulk frames placed one after the other at `start` are read, in order, by the whole loop. */
  lemma FramesRead(data: string, start: nat, ss: seq<string>)
    requires start + |Frames(ss)| <= |data| && data[start..start + |Frames(ss)|] == Frames(ss)
    ensures Elements(data, Int(start), 0, Int(|ss|), []) == Ok(Texts(ss))
  {
    var offs := FrameStarts(start, ss);
    FramesEach(data, start, ss, offs);
    TextsRead(data, offs, ss);
  }

  /** Each of the bulk frames placed at `start` reads as its string and ends where the next starts. */
  lemma FramesEach(data: string, start: nat, ss: seq<string>, offs: seq<nat>)
    requires start + |Frames(ss)| <= |data| && data[start..start + |Frames(ss)|] == Frames(ss)
    requires offs == FrameStarts(start, ss)
    ensures |offs| == |ss| + 1 && offs[0] == start
    ensures forall k {:trigger Element(data, Int(offs[k]))} :: 0 <= k < |ss| ==>
      Element(data, Int(offs[k])) == Ok((Texts(ss)[k], Int(offs[k + 1])))
  {
    forall k | 0 <= k < |ss|
      ensures Element(data, Int(offs[k])) == Ok((Texts(ss)[k], Int(offs[k + 1])))
    {
      assert offs[k] == FrameStart(start, ss, k) && offs[k + 1] == FrameStart(start, ss, k + 1);
      FrameAt(data, start, ss, k);
    }
  }

  /** Frames that each read as their string are collected, in order, by the whole loop. */
  lemma TextsRead(data: string, offs: seq<nat>, ss: seq<string>)
    requires |offs| == |ss| + 1
    requires forall k {:trigger Element(data, Int(offs[k]))} :: 0 <= k < |ss| ==>
      Element(data, Int(offs[k])) == Ok((Texts(ss)[k], Int(offs[k + 1])))
    ensures Elements(data, Int(offs[0]), 0, Int(|ss|), []) == Ok(Texts(ss))
  {
    ElementsChain(data, offs, Texts(ss), 0);
    assert Texts(ss)[..0] == [];
  }

  /** Elements that each read as expected, every one ending where the next begins, are collected
      in order by the iterations of the loop from `j` on. */
  lemma {:induction false} ElementsChain(data: string, offs: seq<nat>, vs: seq<JsValue>, j: nat)
    requires |offs| == |vs| + 1 && j <= |vs|
    requires forall k {:trigger Element(data, Int(offs[k]))} :: 0 <= k < |vs| ==>
      Element(data, Int(offs[k])) == Ok((vs[k], Int(offs[k + 1])))
    decreases |vs| - j
    ensures Elements(data, Int(offs[j]), j, Int(|vs|), vs[..j]) == Ok(vs)
  {
    if j == |vs| {
      assert vs[..j] == vs;
    } else {
      assert Elements(data, Int(offs[j + 1]), j + 1, Int(|vs|), vs[..j + 1]) == Ok(vs) by {
        ElementsChain(data, offs, vs, j + 1);
      }
      assert vs[..j] + [vs[j]] == vs[..j + 1];
      ElementsStep(data, Int(offs[j]), j, Int(|vs|), vs[..j], vs[j], Int(offs[j + 1]));
    }
  }

  /** The first of the frames placed at `o`, and the frames of the other strings right after it. */
  lemma FramesFirst(data: string, o: nat, ss: seq<string>)
    requires |ss| > 0
    requires o + |Frames(ss)| <= |data| && data[o..o + |Frames(ss)|] == Frames(ss)
    ensures o + |BulkFrame(ss[0])| + |Frames(ss[1..])| <= |data|
    ensures data[o..o + |BulkFrame(ss[0])|] == BulkFrame(ss[0])
    ensures data[o + |BulkFrame(ss[0])|..o + |BulkFrame(ss[0])| + |Frames(ss[1..])|] == Frames(ss[1..])
  {
    Halves(data, o, BulkFrame(ss[0]), Frames(ss[1..]));
  }

  /** The two halves of a concatenation found at `o`. */
  lemma Halves<T>(data: seq<T>, o: nat, a: seq<T>, b: seq<T>)
    requires o + |a + b| <= |data| && data[o..o + |a + b|] == a + b
    ensures data[o..o + |a|] == a && data[o + |a|..o + |a| + |b|] == b
  {
    assert data[o..o + |a|] == data[o..o + |a + b|][..|a|];
    assert data[o + |a|..o + |a| + |b|] == data[o..o + |a + b|][|a|..];
  }

  /** `*N\r\n` followed by N bulk frames decodes back to exactly those N strings, even when some
      of them hold CR LF. */
  lemma CommandRoundTrip(ss: seq<string>)
    ensures Decode(EncodeCommand(ss)) == Ok(List(Texts(ss)))
  {
    ArrayHeader(|ss|, Frames(ss));
    FramesArray(EncodeCommand(ss), 1 + |Decimal(|ss|)|, ss);
  }

  /** A text that starts with an array header declaring `|ss|`, followed by the bulk frames of
      `ss`, decodes as the array of those strings. */
  lemma FramesArray(data: string, e: nat, ss: seq<string>)
    requires |data| > 0 && data[0] == '*'
    requires IndexOfCrlf(data, 0) == e && ArrayLength(data) == Int(|ss|)
    requires e + 2 + |Frames(ss)| <= |data| && data[e + 2..e + 2 + |Frames(ss)|] == Frames(ss)
    ensures Decode(data) == Ok(List(Texts(ss)))
  {
    var xs := Texts(ss);
    assert Elements(data, Int(e + 2), 0, Int(|ss|), []) == Ok(xs) by {
      FramesRead(data, e + 2, ss);
    }
    ArrayDecodes(data, e, |ss|, xs);
  }

  /** An array header declaring `n`, followed by any body: the count is read back and the
      elements start right after the header's CR LF. */
  lemma ArrayHeader(n: nat, body: string)
    ensures |"*" + Decimal(n) + "\r\n" + body| > 0 && ("*" + Decimal(n) + "\r\n" + body)[0] == '*'
    ensures IndexOfCrlf("*" + Decimal(n) + "\r\n" + body, 0) == 1 + |Decimal(n)|
    ensures ArrayLength("*" + Decimal(n) + "\r\n" + body) == Int(n)
    ensures 1 + |Decimal(n)| + 2 + |body| <= |"*" + Decimal(n) + "\r\n" + body|
    ensures ("*" + Decimal(n) + "\r\n" + body)[1 + |Decimal(n)| + 2..1 + |Decimal(n)| + 2 + |body|] == body
  {
    var h := "*" + Decimal(n);
    var data := h + "\r\n" + body;
    assert |h| == 1 + |Decimal(n)|;
    assert IndexOfCrlf(data, 0) == |h| by {
      HeaderNoCrlf('*', n);
      FirstCrlfAfter(h, body);
    }
    HeaderPieces('*', Decimal(n), "\r\n", body);
    HeaderCount(data, |h|, n);
  }
}
