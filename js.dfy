/**
  The JavaScript built-ins the server relies on, modelled on strings of characters:
  numbers that may be NaN, `String.prototype.slice`, `indexOf("\r\n")`, `split("\r\n")`,
  `parseInt(s, 10)`, `toUpperCase`, `includes` and the decimal text of a length.
 */
module Js {

  /** A JavaScript number as the server produces one: an integer, or NaN. */
  datatype Num = Int(v: int) | NaN

  /** An exception escaping the `data` handler: `throw new Error(message)`, or the TypeError
      raised by reading a property of undefined or null or calling a method a value lacks. */
  datatype Fault = Thrown(message: string) | TypeError

  /** `x + k`: NaN absorbs. */
  function Plus(x: Num, k: int): Num {
    match x
    case Int(v) => Int(v + k)
    case NaN => NaN
  }

  /** `x * k`: NaN absorbs. */
  function Times(x: Num, k: int): Num {
    match x
    case Int(v) => Int(v * k)
    case NaN => NaN
  }

  /** `i < x`: every comparison with NaN is false. */
  predicate Below(i: int, x: Num) {
    x.Int? && i < x.v
  }

  /** How many times `for (let i = 0; i < x; i++)` runs its body. */
  function Count(x: Num): nat {
    if x.Int? && x.v > 0 then x.v else 0
  }

  /** A slice bound as `slice` converts it: NaN counts as 0. */
  function Bound(x: Num): int {
    if x.NaN? then 0 else x.v
  }

  // ---------------------------------------------------------------- slice

  /** A relative index as `slice` resolves it against a length: negative counts from the end. */
  function Clamp(x: int, len: nat): (r: nat)
    ensures r <= len
    ensures 0 <= x <= len ==> r == x
    ensures x < 0 && 0 <= len + x ==> r == len + x
  {
    if x < 0 then (if len + x < 0 then 0 else len + x)
    else if x < len then x
    else len
  }

  /** `s.slice(start, end)`. */
  function Slice(s: string, start: int, end: int): (r: string)
    ensures 0 <= start <= end <= |s| ==> r == s[start..end]
    ensures 0 <= start && 0 <= end <= start ==> r == ""
    ensures 0 <= start <= |s| + end && end < 0 ==> r == s[start..|s| + end]
    ensures start < 0 && 0 <= |s| + start <= end <= |s| ==> r == s[|s| + start..end]
  {
    var a, b := Clamp(start, |s|), Clamp(end, |s|);
    if a < b then s[a..b] else ""
  }

  // ---------------------------------------------------------------- indexOf and split on CRLF

  /** Whether the two characters at `i` are CR LF. */
  predicate CrlfAt(s: string, i: int) {
    0 <= i && i + 1 < |s| && s[i] == '\r' && s[i + 1] == '\n'
  }

  /** Whether `s` contains no CR LF. */
  predicate NoCrlf(s: string) {
    forall j :: 0 <= j < |s| ==> !CrlfAt(s, j)
  }

  /** `s.indexOf("\r\n", from)`: the first CR LF at or after `from`, or -1. */
  function IndexOfCrlf(s: string, from: nat): (r: int)
    decreases |s| - from
    ensures r == -1 || (from <= r && CrlfAt(s, r))
  {
    if from + 1 >= |s| then -1
    else if s[from] == '\r' && s[from + 1] == '\n' then from
    else IndexOfCrlf(s, from + 1)
  }

  /** `indexOf` finds the first CR LF: there is none between `from` and what it returns, nor
      anywhere from `from` on when it returns -1. */
  lemma {:induction false} IndexOfCrlfFirst(s: string, from: nat)
    decreases |s| - from
    ensures var r := IndexOfCrlf(s, from);
      forall j :: from <= j && (r == -1 || j < r) ==> !CrlfAt(s, j)
  {
    if from + 1 < |s| && !(s[from] == '\r' && s[from + 1] == '\n') {
      IndexOfCrlfFirst(s, from + 1);
    }
  }

  /** A CR LF with none before it, from `from` on, is the one `indexOf` finds. */
  lemma {:induction false} IndexOfCrlfIs(s: string, from: nat, k: int)
    requires from <= k && CrlfAt(s, k)
    requires forall j :: from <= j < k ==> !CrlfAt(s, j)
    decreases k - from
    ensures IndexOfCrlf(s, from) == k
  {
    if from < k {
      assert !CrlfAt(s, from);
      IndexOfCrlfIs(s, from + 1, k);
    }
  }

  /** With no CR LF at or after `from`, `indexOf` finds none. */
  lemma {:induction false} IndexOfCrlfNone(s: string, from: nat)
    requires forall j :: from <= j ==> !CrlfAt(s, j)
    decreases |s| - from
    ensures IndexOfCrlf(s, from) == -1
  {
    if from + 1 < |s| {
      IndexOfCrlfNone(s, from + 1);
    }
  }

  /** When the text from `from` up to `k` holds no CR LF and the text ends at `k` or has one there,
      the search from `from` stops at `k`, or finds nothing when the text ends. */
  lemma IndexOfCrlfAt(s: string, from: nat, k: nat)
    requires from <= k <= |s|
    requires NoCrlf(s[from..k])
    requires k == |s| || CrlfAt(s, k)
    ensures IndexOfCrlf(s, from) == if k == |s| then -1 else k
  {
    forall j | from <= j < k
      ensures !CrlfAt(s, j)
    {
      if j + 1 < k {
        assert !CrlfAt(s[from..k], j - from);
      } else if k < |s| {
        assert s[j + 1] == '\r';
      }
    }
    if k < |s| {
      IndexOfCrlfIs(s, from, k);
    } else {
      IndexOfCrlfNone(s, from);
    }
  }

  /** `s.split("\r\n")`. */
  function SplitCrlf(s: string): (lines: seq<string>)
    ensures |lines| >= 1
  {
    SplitFrom(s, 0)
  }

  /** The pieces of `s[from..]` between CR LFs, found by searching `s` from `from` on. */
  function SplitFrom(s: string, from: nat): (lines: seq<string>)
    requires from <= |s|
    decreases |s| - from
    ensures |lines| >= 1
  {
    var i := IndexOfCrlf(s, from);
    if i < 0 then [s[from..]] else [s[from..i]] + SplitFrom(s, i + 2)
  }

  /** The first piece of the split from `from` is `a` when `a` sits there without CR LF and the text
      then ends or goes on with one; the pieces after it are the split from past that CR LF. */
  lemma FirstPieceFrom(s: string, from: nat, a: string)
    requires from + |a| <= |s| && s[from..from + |a|] == a && NoCrlf(a)
    requires from + |a| == |s| || CrlfAt(s, from + |a|)
    ensures SplitFrom(s, from)[0] == a
    ensures from + |a| == |s| <==> |SplitFrom(s, from)| == 1
    ensures from + |a| < |s| ==> SplitFrom(s, from) == [a] + SplitFrom(s, from + |a| + 2)
  {
    IndexOfCrlfAt(s, from, from + |a|);
  }

  /** The first piece of `a + b` is `a` when `a` holds no CR LF and `b` is empty or starts one. */
  lemma FirstPiece(a: string, b: string)
    requires NoCrlf(a)
    requires |b| == 0 || CrlfAt(b, 0)
    ensures SplitCrlf(a + b)[0] == a
  {
    assert (a + b)[0..|a|] == a;
    FirstPieceFrom(a + b, 0, a);
  }

  /** Splitting `a + "\r\n" + b + c`, with no CR LF in `a` or `b` and `c` empty or starting with
      one, gives `a` and then `b` as the first two pieces. */
  lemma FirstTwoPieces(a: string, b: string, c: string)
    requires NoCrlf(a) && NoCrlf(b)
    requires |c| == 0 || CrlfAt(c, 0)
    ensures |SplitCrlf(a + "\r\n" + b + c)| >= 2
    ensures SplitCrlf(a + "\r\n" + b + c)[0] == a && SplitCrlf(a + "\r\n" + b + c)[1] == b
  {
    var s := a + "\r\n" + b + c;
    var e := |a|;
    assert s[0..e] == a && CrlfAt(s, e) && s[e + 2..] == b + c by {
      assert s[0..] == a + "\r\n" + (b + c);
      Pieces(s, 0, a, "\r\n", b + c);
    }
    assert s[e + 2..e + 2 + |b|] == b && (e + 2 + |b| == |s| || CrlfAt(s, e + 2 + |b|)) by {
      assert s[e + 2..] == b + c + [];
      Pieces(s, e + 2, b, c, []);
    }
    FirstPieceFrom(s, 0, a);
    FirstPieceFrom(s, e + 2, b);
  }

  /** `lines.join("\r\n")`. */
  function JoinCrlf(lines: seq<string>): string
    requires |lines| >= 1
  {
    if |lines| == 1 then lines[0] else lines[0] + "\r\n" + JoinCrlf(lines[1..])
  }

  /** Joining the pieces of the split from `from` gives the text from `from` back. */
  lemma {:induction false} JoinSplitFrom(s: string, from: nat)
    requires from <= |s|
    decreases |s| - from
    ensures JoinCrlf(SplitFrom(s, from)) == s[from..]
  {
    var i := IndexOfCrlf(s, from);
    if i >= 0 {
      JoinSplitFrom(s, i + 2);
      assert s[from..] == s[from..i] + "\r\n" + s[i + 2..];
    }
  }

  /** Joining the pieces of a split gives the text back. */
  lemma JoinSplit(s: string)
    ensures JoinCrlf(SplitCrlf(s)) == s
  {
    JoinSplitFrom(s, 0);
  }

  /** The first CR LF of `a + "\r\n" + b`, when `a` holds none, is the one after `a`. */
  lemma FirstCrlfAfter(a: string, b: string)
    requires NoCrlf(a)
    ensures IndexOfCrlf(a + "\r\n" + b, 0) == |a|
  {
    var s := a + "\r\n" + b;
    assert s[0..|a|] == a;
    IndexOfCrlfAt(s, 0, |a|);
  }

  /** Lines without CR LF, joined by CR LF from `from` on, split back into the same lines. */
  lemma {:induction false} SplitJoinFrom(s: string, from: nat, lines: seq<string>)
    requires from <= |s| && |lines| >= 1
    requires s[from..] == JoinCrlf(lines)
    requires forall k :: 0 <= k < |lines| ==> NoCrlf(lines[k])
    decreases |lines|
    ensures SplitFrom(s, from) == lines
  {
    var a := lines[0];
    if |lines| == 1 {
      assert s[from..from + |a|] == a;
      FirstPieceFrom(s, from, a);
    } else {
      var rest := JoinCrlf(lines[1..]);
      var k := from + |a| + 2;
      assert s[from..from + |a|] == a && CrlfAt(s, from + |a|) && s[k..] == rest by {
        Pieces(s, from, a, "\r\n", rest);
      }
      FirstPieceFrom(s, from, a);
      SplitJoinFrom(s, k, lines[1..]);
      assert lines == [a] + lines[1..];
    }
  }

  /** Splitting lines joined by CR LF gives the lines back, when none of them holds a CR LF. */
  lemma SplitJoin(lines: seq<string>)
    requires |lines| >= 1
    requires forall k :: 0 <= k < |lines| ==> NoCrlf(lines[k])
    ensures SplitCrlf(JoinCrlf(lines)) == lines
  {
    SplitJoinFrom(JoinCrlf(lines), 0, lines);
  }

  /** Where the three parts of a suffix sit in the whole sequence. */
  lemma Pieces<T>(s: seq<T>, from: nat, a: seq<T>, b: seq<T>, c: seq<T>)
    requires from <= |s| && s[from..] == a + b + c
    ensures s[from..from + |a|] == a
    ensures s[from + |a|..from + |a| + |b|] == b
    ensures s[from + |a| + |b|..] == c
  {
    assert s[from..from + |a|] == s[from..][..|a|];
    assert s[from + |a|..from + |a| + |b|] == s[from..][|a|..|a| + |b|];
    assert s[from + |a| + |b|..] == s[from..][|a| + |b|..];
  }

  // ---------------------------------------------------------------- parseInt(s, 10)

  predicate IsDigit(c: char) {
    '0' <= c <= '9'
  }

  /** The characters `parseInt` skips before the number: white space and line terminators. */
  predicate IsSpace(c: char) {
    || c == '\t' || c == '\n' || c == '\U{B}' || c == '\U{C}' || c == '\r' || c == ' '
    || c == '\U{A0}' || c == '\U{1680}' || ('\U{2000}' <= c <= '\U{200A}')
    || c == '\U{2028}' || c == '\U{2029}' || c == '\U{202F}' || c == '\U{205F}'
    || c == '\U{3000}' || c == '\U{FEFF}'
  }

  function TrimStart(s: string): string {
    if |s| > 0 && IsSpace(s[0]) then TrimStart(s[1..]) else s
  }

  /** The length of the run of decimal digits that starts `s`. */
  function DigitRun(s: string): (n: nat)
    ensures n <= |s|
  {
    if |s| > 0 && IsDigit(s[0]) then 1 + DigitRun(s[1..]) else 0
  }

  /** The run is made of digits, and it stops at the end of the text or at a character that is
      not one. */
  lemma {:induction false} DigitRunSpec(s: string)
    ensures AllDigits(s[..DigitRun(s)])
    ensures DigitRun(s) < |s| ==> !IsDigit(s[DigitRun(s)])
  {
    if |s| > 0 && IsDigit(s[0]) {
      DigitRunSpec(s[1..]);
      assert s[..DigitRun(s)] == [s[0]] + s[1..][..DigitRun(s[1..])];
    }
  }

  predicate AllDigits(s: string) {
    forall i :: 0 <= i < |s| ==> IsDigit(s[i])
  }

  function DigitsValue(s: string): nat
    requires AllDigits(s)
  {
    if |s| == 0 then 0 else 10 * DigitsValue(s[..|s| - 1]) + (s[|s| - 1] as int - '0' as int)
  }

  /** `parseInt(s, 10)`: optional white space, an optional sign, then the longest run of digits;
      NaN when there is no digit. */
  function ParseInt(s: string): (r: Num)
    ensures |TrimStart(s)| == 0 ==> r == NaN
    ensures |TrimStart(s)| > 0 && IsDigit(TrimStart(s)[0]) ==> r.Int? && r.v >= 0
    ensures r.Int? && r.v < 0 ==> TrimStart(s)[0] == '-'
  {
    var t := TrimStart(s);
    var u := if |t| > 0 && (t[0] == '-' || t[0] == '+') then t[1..] else t;
    var n := DigitRun(u);
    DigitRunSpec(u);
    if n == 0 then NaN
    else if t[0] == '-' then Int(-(DigitsValue(u[..n]) as int))
    else Int(DigitsValue(u[..n]))
  }

  function DigitChar(d: nat): char
    requires d < 10
  {
    ('0' as int + d) as char
  }

  /** The decimal text of a non-negative integer, as `${n}` writes it. */
  function Decimal(n: nat): (r: string)
    ensures |r| >= 1
  {
    if n < 10 then [DigitChar(n)] else Decimal(n / 10) + [DigitChar(n % 10)]
  }

  /** The decimal text of a number is made of digits. */
  lemma {:induction false} DecimalDigits(n: nat)
    ensures AllDigits(Decimal(n))
  {
    if n >= 10 {
      DecimalDigits(n / 10);
    }
  }

  lemma {:induction false} DecimalValue(n: nat)
    ensures AllDigits(Decimal(n)) && DigitsValue(Decimal(n)) == n
  {
    DecimalDigits(n);
    if n >= 10 {
      DecimalValue(n / 10);
      var r := Decimal(n);
      assert r[..|r| - 1] == Decimal(n / 10);
    }
  }

  /** `parseInt` reads back the decimal text of `n`, whatever non-digit text follows it. */
  lemma ParseDecimal(n: nat, rest: string)
    requires |rest| == 0 || !IsDigit(rest[0])
    ensures ParseInt(Decimal(n) + rest) == Int(n)
  {
    var d := Decimal(n);
    var s := d + rest;
    DecimalValue(n);
    assert TrimStart(s) == s;
    assert DigitRun(s) == |d| by {
      DigitRunOf(d, rest);
    }
    assert s[..|d|] == d;
  }

  /** `parseInt` reads back the decimal text of `n`. */
  lemma DecimalParses(n: nat)
    ensures ParseInt(Decimal(n)) == Int(n)
  {
    ParseDecimal(n, "");
    assert Decimal(n) + "" == Decimal(n);
  }

  lemma {:induction false} DigitRunOf(d: string, rest: string)
    requires AllDigits(d)
    requires |rest| == 0 || !IsDigit(rest[0])
    ensures DigitRun(d + rest) == |d|
  {
    if |d| > 0 {
      assert (d + rest)[1..] == d[1..] + rest;
      DigitRunOf(d[1..], rest);
    } else {
      assert d + rest == rest;
    }
  }

  /** The decimal text of any integer, as `${n}` writes it: a minus sign before a negative one. */
  function IntText(n: int): string {
    if n < 0 then "-" + Decimal(-n) else Decimal(n)
  }

  /** `parseInt` reads back the decimal text of any integer. */
  lemma ParseIntText(n: int)
    ensures ParseInt(IntText(n)) == Int(n)
  {
    if n < 0 {
      var d := Decimal(-n);
      var s := "-" + d;
      DecimalValue(-n);
      assert TrimStart(s) == s;
      assert s[1..] == d;
      DigitRunOf(d, "");
      assert d + "" == d;
      assert d[..|d|] == d;
    } else {
      ParseDecimal(n, "");
      assert Decimal(n) + "" == Decimal(n);
    }
  }

  // ---------------------------------------------------------------- toUpperCase and includes

  /** The upper case of one character: a-z, and the two other characters whose upper case is a
      single ASCII letter (dotless i and long s). */
  function UpperChar(c: char): char {
    if 'a' <= c <= 'z' then (c as int - 32) as char
    else if c == '\U{131}' then 'I'
    else if c == '\U{17F}' then 'S'
    else c
  }

  /** `s.toUpperCase()`. */
  function Upper(s: string): (u: string)
    ensures |u| == |s|
  {
    if |s| == 0 then "" else [UpperChar(s[0])] + Upper(s[1..])
  }

  /** The characters whose upper case is the capital `w`: itself, its lower case, and dotless i
      for I and long s for S. */
  predicate SpellingOf(c: char, w: char) {
    || c == w
    || c as int == w as int + 32
    || (w == 'I' && c == '\U{131}')
    || (w == 'S' && c == '\U{17F}')
  }

  /** Upper-casing gives a word of capitals exactly from its spellings in any mix of cases: this
      is which spellings of a command name the server accepts. */
  lemma {:induction false} UpperSpelling(s: string, w: string)
    requires forall i :: 0 <= i < |w| ==> 'A' <= w[i] <= 'Z'
    decreases |s|
    ensures Upper(s) == w <==> |s| == |w| && forall i :: 0 <= i < |s| ==> SpellingOf(s[i], w[i])
  {
    if |s| > 0 && |w| > 0 {
      UpperSpelling(s[1..], w[1..]);
      assert UpperChar(s[0]) == w[0] <==> SpellingOf(s[0], w[0]);
      assert Upper(s) == w <==> UpperChar(s[0]) == w[0] && Upper(s[1..]) == w[1..] by {
        assert Upper(s) == [UpperChar(s[0])] + Upper(s[1..]);
        assert w == [w[0]] + w[1..];
      }
      if |s| == |w| && forall i :: 0 <= i < |s| ==> SpellingOf(s[i], w[i]) {
        forall i | 0 <= i < |s| - 1
          ensures SpellingOf(s[1..][i], w[1..][i])
        {
          assert SpellingOf(s[i + 1], w[i + 1]);
        }
      }
      if Upper(s) == w {
        forall i | 0 <= i < |s|
          ensures SpellingOf(s[i], w[i])
        {
          if i > 0 {
            assert SpellingOf(s[1..][i - 1], w[1..][i - 1]);
          }
        }
      }
    }
  }

  /** `s.includes(t)`. */
  function Includes(s: string, t: string): (r: bool)
    decreases |s|
    ensures r ==> |t| <= |s|
    ensures |t| <= |s| && s[..|t|] == t ==> r
  {
    |t| <= |s| && (s[..|t|] == t || Includes(s[1..], t))
  }

  /** Whether `t` occurs in `s` at position `i`. */
  predicate OccursAt(s: string, t: string, i: int) {
    0 <= i && i + |t| <= |s| && s[i..i + |t|] == t
  }

  /** An occurrence after the first character is an occurrence in the rest of the text. */
  lemma OccursShift(s: string, t: string, i: int)
    requires |s| > 0 && i >= 1
    ensures OccursAt(s, t, i) <==> OccursAt(s[1..], t, i - 1)
  {
    if i + |t| <= |s| {
      assert s[1..][i - 1..i - 1 + |t|] == s[i..i + |t|];
    }
  }

  /** `includes` holds exactly when `t` occurs somewhere in `s`. */
  lemma {:induction false} IncludesIff(s: string, t: string)
    decreases |s|
    ensures Includes(s, t) <==> exists i :: OccursAt(s, t, i)
  {
    if |t| <= |s| && s[..|t|] != t {
      IncludesIff(s[1..], t);
      if Includes(s, t) {
        var i :| OccursAt(s[1..], t, i);
        OccursShift(s, t, i + 1);
      } else if i :| OccursAt(s, t, i) {
        assert i != 0;
        OccursShift(s, t, i);
      }
    } else if |t| <= |s| {
      assert OccursAt(s, t, 0);
    }
  }
}
