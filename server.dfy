/**
  The `data` handler of the server (app/main.js): every chunk a client sends is decoded with
  `parseResp`, the first element of the result names the command, and PING, ECHO, SET and GET
  answer with the text written back to the connection. SET stores into the global `cache` Map
  and, with EX or PX, schedules the deletion of what it stored.

  `Respond` says what one chunk does to the cache and what it answers; the class `Cache` holds the
  Map and its method `Handle` is the handler written step by step, with the loops of SET and ECHO,
  proved to do what `Respond` says. The lemmas state the protocol facts, on the texts a client
  sends (`EncodeCommand`).
 */
module Server {
  import opened Wrappers
  import opened Js
  import opened Resp

  /** What `cache` maps a key to: `{value, expiryTimestamp}`. None stands for an undefined value
      and for a null expiry. */
  datatype Entry = Entry(value: Option<JsValue>, expiry: Option<Num>)

  /** The contents of the Map. Keys are compared as `Map` compares them: strings by their text,
      numbers by their value, so the string "5" and the number 5 are different keys. */
  type Store = map<JsValue, Entry>

  /** `setTimeout(() => cache.delete(key), delay)`, scheduled by SET with EX or PX. */
  datatype Timer = Timer(key: JsValue, delay: Num)

  /** What one chunk leads to: the text written back, if any, and the deletions scheduled; or the
      exception that escapes the handler. */
  datatype Reaction = Handled(reply: Option<string>, timers: seq<Timer>) | Crash(fault: Fault)

  // ---------------------------------------------------------------- values turned into text

  /** `String(n)` for a number the decoder produces. */
  function NumText(n: Num): string {
    match n
    case Int(v) => IntText(v)
    case NaN => "NaN"
  }

  /** `String(v)`: the text a template literal or `parseInt` makes of a value. */
  function ToText(v: JsValue): string
    decreases v, 1
  {
    match v
    case Text(s) => s
    case Number(n) => NumText(n)
    case Null => "null"
    case List(items) => CommaJoin(items)
  }

  /** The text `join` makes of one element: nothing for null. */
  function JoinPiece(v: JsValue): string
    decreases v, 2
  {
    if v.Null? then "" else ToText(v)
  }

  /** `items.join(",")`, which is how an array becomes text. */
  function CommaJoin(items: seq<JsValue>): string
    decreases items, 0
  {
    if |items| == 0 then ""
    else if |items| == 1 then JoinPiece(items[0])
    else JoinPiece(items[0]) + "," + CommaJoin(items[1..])
  }

  /** `parts.join('')`. */
  function JoinAll(parts: seq<JsValue>): string {
    if |parts| == 0 then "" else JoinPiece(parts[0]) + JoinAll(parts[1..])
  }

  /** `${v.length}`: the length of a string or an array, "undefined" for a number; reading a
      property of null throws. */
  function LengthText(v: JsValue): Result<string, Fault> {
    match v
    case Text(s) => Ok(Decimal(|s|))
    case List(items) => Ok(Decimal(|items|))
    case Number(_) => Ok("undefined")
    case Null => Err(TypeError)
  }

  // ---------------------------------------------------------------- what one chunk does

  /** The reaction to a command that writes `r`, or throws. */
  function Reply(r: Result<string, Fault>): Reaction {
    match r
    case Ok(w) => Handled(Some(w), [])
    case Err(f) => Crash(f)
  }

  /** The arguments of ECHO, each followed by CR LF. */
  function EchoBody(args: seq<JsValue>): string {
    if |args| == 0 then "" else JoinPiece(args[0]) + "\r\n" + EchoBody(args[1..])
  }

  /** What ECHO writes: a length line holding the length of the first argument only, then every
      argument followed by CR LF. Without an argument, reading its length throws. */
  function EchoReply(args: seq<JsValue>): (r: Result<string, Fault>)
    ensures r.Err? <==> |args| == 0 || args[0] == Null
    ensures r.Err? ==> r.error == TypeError
  {
    if |args| == 0 then Err(TypeError)
    else
      match LengthText(args[0])
      case Err(f) => Err(f)
      case Ok(n) => Ok("$" + n + "\r\n" + EchoBody(args))
  }

  /** `args[i]`; None stands for undefined, past the end. */
  function ValueAt(args: seq<JsValue>, i: nat): Option<JsValue>
  {
    if i < |args| then Some(args[i]) else None
  }

  /** The Map after the SET loop has stored, from index `i` on and two by two, each key below
      `limit` with the value after it and the expiry `expiry`. */
  function Stored(args: seq<JsValue>, i: nat, limit: nat, expiry: Option<Num>, cache: Store): Store
    requires limit <= |args|
    decreases limit - i
  {
    if i >= limit then cache
    else Stored(args, i + 2, limit, expiry, cache[args[i] := Entry(ValueAt(args, i + 1), expiry)])
  }

  /** The deletions the EX and PX loops schedule, from index `i` on and two by two below `limit`. */
  function Scheduled(args: seq<JsValue>, i: nat, limit: nat, delay: Num): seq<Timer>
    requires limit <= |args|
    decreases limit - i
  {
    if i >= limit then [] else [Timer(args[i], delay)] + Scheduled(args, i + 2, limit, delay)
  }

  /** SET on its arguments: the option is the second-to-last argument, tested for EX before PX by
      substring; the amount is the last one. Any other form stores every pair with no expiry, the
      last key getting undefined when the count is odd. Every form writes `+OK\r\n`. */
  function SetCommand(args: seq<JsValue>, cache: Store, now: int): (r: (Reaction, Store))
    ensures r.0.Crash? ==> r.1 == cache && r.0.fault == TypeError
    ensures r.0.Handled? ==> r.0.reply == Some("+OK\r\n")
  {
    var n := |args|;
    if n >= 2 && !args[n - 2].Text? then (Crash(TypeError), cache)
    else if n >= 2 && Includes(Upper(args[n - 2].s), "EX") then
      (Handled(Some("+OK\r\n"), Scheduled(args, 0, n - 2, Times(ParseInt(ToText(args[n - 1])), 1000))),
       Stored(args, 0, n - 2, Some(Plus(Times(ParseInt(ToText(args[n - 1])), 1000), now)), cache))
    else if n >= 2 && Includes(Upper(args[n - 2].s), "PX") then
      (Handled(Some("+OK\r\n"), Scheduled(args, 0, n - 2, ParseInt(ToText(args[n - 1])))),
       Stored(args, 0, n - 2, Some(Plus(ParseInt(ToText(args[n - 1])), now)), cache))
    else (Handled(Some("+OK\r\n"), []), Stored(args, 0, n, None, cache))
  }

  /** What GET writes: the stored value as a bulk string, whatever its expiry, or `$-1\r\n` when
      the key is absent. A stored undefined or null throws. */
  function GetCommand(args: seq<JsValue>, cache: Store): (r: Result<string, Fault>)
    ensures r.Err? <==> |args| > 0 && args[0] in cache && cache[args[0]].value in {None, Some(Null)}
    ensures r.Err? ==> r.error == TypeError
  {
    if |args| == 0 || args[0] !in cache then Ok("$-1\r\n")
    else
      match cache[args[0]].value
      case None => Err(TypeError)
      case Some(v) =>
        match LengthText(v)
        case Err(f) => Err(f)
        case Ok(n) => Ok("$" + n + "\r\n" + ToText(v) + "\r\n")
  }

  /** Whether the command is SET: its first element upper-cases to "SET". */
  predicate IsSet(cmd: seq<JsValue>) {
    |cmd| >= 1 && cmd[0].Text? && Upper(cmd[0].s) == "SET"
  }

  /** A decoded array: its first element, upper-cased, names the command; a first element that is
      missing or not a string has no `toUpperCase` and throws. Only SET stores or schedules. */
  function Dispatch(cmd: seq<JsValue>, cache: Store, now: int): (r: (Reaction, Store))
    ensures r.1 != cache ==> IsSet(cmd)
    ensures r.0.Handled? && r.0.timers != [] ==> IsSet(cmd)
    ensures r.0.Crash? ==> r.1 == cache && r.0.fault == TypeError
  {
    if |cmd| == 0 || !cmd[0].Text? then (Crash(TypeError), cache)
    else if Upper(cmd[0].s) == "PING" then (Handled(Some("+PONG\r\n"), []), cache)
    else if Upper(cmd[0].s) == "ECHO" then (Reply(EchoReply(cmd[1..])), cache)
    else if Upper(cmd[0].s) == "SET" then SetCommand(cmd[1..], cache, now)
    else if Upper(cmd[0].s) == "GET" then (Reply(GetCommand(cmd[1..], cache)), cache)
    else (Handled(None, []), cache)
  }

  /** The decoded value of a chunk. A string yields its first character, whose upper case is a
      single character and so names no command; an empty string, a number and null have no
      first element with a `toUpperCase` and throw. */
  function React(v: JsValue, cache: Store, now: int): (r: (Reaction, Store))
    ensures r.1 != cache ==> v.List? && IsSet(v.items)
    ensures r.0.Crash? ==> r.1 == cache && r.0.fault == TypeError
  {
    match v
    case List(items) => Dispatch(items, cache, now)
    case Text(s) => if |s| == 0 then (Crash(TypeError), cache) else (Handled(None, []), cache)
    case _ => (Crash(TypeError), cache)
  }

  /** One chunk received at time `now`: what is written back, and the Map afterwards. A chunk the
      decoder rejects throws, and an exception leaves the Map as it was. */
  function Respond(data: string, cache: Store, now: int): (r: (Reaction, Store))
    ensures r.0.Crash? ==> r.1 == cache
  {
    match Decode(data)
    case Err(f) => (Crash(f), cache)
    case Ok(v) => React(v, cache, now)
  }

  /** A timer firing: the key is deleted, whatever was stored under it since it was scheduled. */
  function Expired(cache: Store, key: JsValue): (c: Store)
    ensures key !in c
    ensures forall k :: k != key ==> (k in c <==> k in cache)
    ensures forall k :: k != key && k in c ==> c[k] == cache[k]
  {
    cache - {key}
  }

  // ---------------------------------------------------------------- the handler

  /** The global `cache` Map. */
  class Cache {
    var entries: Store

    /** `new Map()`. */
    constructor()
      ensures entries == map[]
    {
      entries := map[];
    }

    /** The callback of a timer SET scheduled: `cache.delete(key)`. */
    method Expire(key: JsValue)
      modifies this
      ensures entries == Expired(old(entries), key)
    {
      entries := entries - {key};
    }

    /** The `data` handler, for a chunk received at time `now`. */
    method Handle(data: string, now: int) returns (out: Reaction)
      modifies this
      ensures (out, entries) == Respond(data, old(entries), now)
    {
      var parsed := ParseResp(data);
      if parsed.Err? {
        return Crash(parsed.error);
      }
      match parsed.value
      case List(items) =>
        out := DispatchCommand(items, now);
      case Text(s) =>
        out := if |s| == 0 then Crash(TypeError) else Handled(None, []);
      case _ =>
        out := Crash(TypeError);
    }

    /** The chain of `if`s on the upper-cased first element of a decoded array. */
    method DispatchCommand(cmd: seq<JsValue>, now: int) returns (out: Reaction)
      modifies this
      ensures (out, entries) == Dispatch(cmd, old(entries), now)
    {
      if |cmd| == 0 || !cmd[0].Text? {
        return Crash(TypeError);
      }
      var name := Upper(cmd[0].s);
      if name == "PING" {
        return Handled(Some("+PONG\r\n"), []);
      }
      if name == "ECHO" {
        var reply := Echo(cmd[1..]);
        return Reply(reply);
      }
      if name == "SET" {
        out := Set(cmd[1..], now);
        return;
      }
      if name == "GET" {
        var args := cmd[1..];
        if |args| >= 1 && args[0] in entries {
          var entry := entries[args[0]];
          if entry.value.None? {
            return Crash(TypeError);
          }
          var length := LengthText(entry.value.value);
          if length.Err? {
            return Crash(length.error);
          }
          return Handled(Some("$" + length.value + "\r\n" + ToText(entry.value.value) + "\r\n"), []);
        }
        return Handled(Some("$-1\r\n"), []);
      }
      return Handled(None, []);
    }

    /** The SET branch, on the arguments after the command name. */
    method Set(args: seq<JsValue>, now: int) returns (out: Reaction)
      modifies this
      ensures (out, entries) == SetCommand(args, old(entries), now)
    {
      var n := |args|;
      if n >= 2 && !args[n - 2].Text? {
        return Crash(TypeError);
      }
      if n >= 2 && Includes(Upper(args[n - 2].s), "EX") {
        var ms := Times(ParseInt(ToText(args[n - 1])), 1000);
        var timers := StoreExpiring(args, n - 2, Plus(ms, now), ms);
        return Handled(Some("+OK\r\n"), timers);
      }
      if n >= 2 && Includes(Upper(args[n - 2].s), "PX") {
        var ms := ParseInt(ToText(args[n - 1]));
        var timers := StoreExpiring(args, n - 2, Plus(ms, now), ms);
        return Handled(Some("+OK\r\n"), timers);
      }
      var i := 0;
      while i < n
        invariant Stored(args, i, n, None, entries) == Stored(args, 0, n, None, old(entries))
        decreases n - i
      {
        entries := entries[args[i] := Entry(ValueAt(args, i + 1), None)];
        i := i + 2;
      }
      return Handled(Some("+OK\r\n"), []);
    }

    /** The EX and PX loops: each pair below `limit` is stored with the expiry `expiry`, and its
        deletion is scheduled after `delay`. */
    method StoreExpiring(args: seq<JsValue>, limit: nat, expiry: Num, delay: Num)
      returns (timers: seq<Timer>)
      requires limit + 2 <= |args|
      modifies this
      ensures entries == Stored(args, 0, limit, Some(expiry), old(entries))
      ensures timers == Scheduled(args, 0, limit, delay)
    {
      timers := [];
      var i := 0;
      while i < limit
        invariant Stored(args, i, limit, Some(expiry), entries)
               == Stored(args, 0, limit, Some(expiry), old(entries))
        invariant timers + Scheduled(args, i, limit, delay) == Scheduled(args, 0, limit, delay)
        decreases limit - i
      {
        var key := args[i];
        var value := args[i + 1];
        ExpiringStep(args, i, limit, delay, timers);
        entries := entries[key := Entry(Some(value), Some(expiry))];
        timers := timers + [Timer(key, delay)];
        i := i + 2;
      }
    }
  }

  /** One turn of the EX and PX loops: the pair at `i` is the next one stored and scheduled. */
  lemma ExpiringStep(args: seq<JsValue>, i: nat, limit: nat, delay: Num, timers: seq<Timer>)
    requires i < limit && limit + 2 <= |args|
    ensures ValueAt(args, i + 1) == Some(args[i + 1])
    ensures timers + [Timer(args[i], delay)] + Scheduled(args, i + 2, limit, delay)
         == timers + Scheduled(args, i, limit, delay)
  {
    var rest := Scheduled(args, i + 2, limit, delay);
    assert Scheduled(args, i, limit, delay) == [Timer(args[i], delay)] + rest;
    assert timers + [Timer(args[i], delay)] + rest == timers + ([Timer(args[i], delay)] + rest);
  }

  /** The ECHO branch: the length line, then `push(str, "\r\n")` for every argument, then `join('')`. */
  method Echo(args: seq<JsValue>) returns (reply: Result<string, Fault>)
    ensures reply == EchoReply(args)
  {
    if |args| == 0 {
      return Err(TypeError);
    }
    var length := LengthText(args[0]);
    if length.Err? {
      return Err(length.error);
    }
    var header := "$" + length.value + "\r\n";
    var parts := [Text(header)];
    var i := 0;
    assert JoinAll(parts) == header + EchoBody(args[..0]) by {
      assert args[..0] == [];
      JoinAllOne(Text(header));
      assert header + "" == header;
    }
    while i < |args|
      invariant i <= |args|
      invariant JoinAll(parts) == header + EchoBody(args[..i])
    {
      EchoStep(parts, header, args, i);
      parts := parts + [args[i], Text("\r\n")];
      i := i + 1;
    }
    assert args[..i] == args;
    return Ok(JoinAll(parts));
  }

  // ---------------------------------------------------------------- joining

  /** One turn of the ECHO loop: pushing an argument and CR LF extends the joined text by the
      body of that argument. */
  lemma EchoStep(parts: seq<JsValue>, header: string, args: seq<JsValue>, i: nat)
    requires i < |args|
    requires JoinAll(parts) == header + EchoBody(args[..i])
    ensures JoinAll(parts + [args[i], Text("\r\n")]) == header + EchoBody(args[..i + 1])
  {
    var piece := JoinPiece(args[i]) + "\r\n";
    assert JoinAll(parts + [args[i], Text("\r\n")]) == JoinAll(parts) + piece by {
      JoinAllPush(parts, args[i]);
    }
    assert EchoBody(args[..i + 1]) == EchoBody(args[..i]) + piece by {
      EchoBodySnoc(args, i);
    }
    assert header + EchoBody(args[..i]) + piece == header + (EchoBody(args[..i]) + piece);
  }

  /** Pushing a value and CR LF adds the value's text and CR LF to the joined text. */
  lemma JoinAllPush(parts: seq<JsValue>, x: JsValue)
    ensures JoinAll(parts + [x, Text("\r\n")]) == JoinAll(parts) + (JoinPiece(x) + "\r\n")
  {
    JoinAllConcat(parts, [x, Text("\r\n")]);
    assert [x, Text("\r\n")][1..] == [Text("\r\n")];
    JoinAllOne(Text("\r\n"));
  }

  /** One more argument adds its text and CR LF to the ECHO body. */
  lemma EchoBodySnoc(args: seq<JsValue>, i: nat)
    requires i < |args|
    ensures EchoBody(args[..i + 1]) == EchoBody(args[..i]) + (JoinPiece(args[i]) + "\r\n")
  {
    EchoBodyConcat(args[..i], [args[i]]);
    assert args[..i + 1] == args[..i] + [args[i]];
    assert [args[i]][1..] == [];
  }

  /** Joining one part gives its text. */
  lemma JoinAllOne(x: JsValue)
    ensures JoinAll([x]) == JoinPiece(x)
  {
    assert [x][1..] == [];
  }

  /** Joining two runs of parts is joining each. */
  lemma {:induction false} JoinAllConcat(xs: seq<JsValue>, ys: seq<JsValue>)
    decreases |xs|
    ensures JoinAll(xs + ys) == JoinAll(xs) + JoinAll(ys)
  {
    if |xs| > 0 {
      JoinAllConcat(xs[1..], ys);
      assert (xs + ys)[1..] == xs[1..] + ys;
    } else {
      assert xs + ys == ys;
    }
  }

  /** The ECHO body of two runs of arguments is the body of each. */
  lemma {:induction false} EchoBodyConcat(xs: seq<JsValue>, ys: seq<JsValue>)
    decreases |xs|
    ensures EchoBody(xs + ys) == EchoBody(xs) + EchoBody(ys)
  {
    if |xs| > 0 {
      EchoBodyConcat(xs[1..], ys);
      assert (xs + ys)[1..] == xs[1..] + ys;
    } else {
      assert xs + ys == ys;
    }
  }

  /** String arguments: the ECHO body is the arguments joined by CR LF, with a final CR LF. */
  lemma {:induction false} EchoBodyLines(ss: seq<string>)
    requires |ss| >= 1
    decreases |ss|
    ensures EchoBody(Texts(ss)) == JoinCrlf(ss) + "\r\n"
  {
    assert Texts(ss)[1..] == Texts(ss[1..]);
    assert Texts(ss)[0] == Text(ss[0]);
    assert JoinPiece(Text(ss[0])) == ss[0];
    if |ss| > 1 {
      EchoBodyLines(ss[1..]);
    }
  }

  /** Joining one more line by CR LF appends it after a CR LF. */
  lemma {:induction false} JoinCrlfSnoc(ss: seq<string>, x: string)
    requires |ss| >= 1
    decreases |ss|
    ensures JoinCrlf(ss + [x]) == JoinCrlf(ss) + "\r\n" + x
  {
    assert (ss + [x])[1..] == ss[1..] + [x];
    if |ss| > 1 {
      JoinCrlfSnoc(ss[1..], x);
    }
  }

  // ---------------------------------------------------------------- the stores of SET

  /** SET changes only the keys it names: a key at none of the even offsets from `i` below
      `limit` keeps its entry, or stays absent. */
  lemma {:induction false} StoredElsewhere(args: seq<JsValue>, i: nat, limit: nat,
                                           expiry: Option<Num>, cache: Store, k: JsValue)
    requires limit <= |args|
    requires forall j :: i <= j < limit && (j - i) % 2 == 0 ==> args[j] != k
    decreases limit - i
    ensures k in Stored(args, i, limit, expiry, cache) <==> k in cache
    ensures k in cache ==> Stored(args, i, limit, expiry, cache)[k] == cache[k]
  {
    if i < limit {
      var next := cache[args[i] := Entry(ValueAt(args, i + 1), expiry)];
      StoredElsewhere(args, i + 2, limit, expiry, next, k);
    }
  }

  /** The last pair naming a key wins: it maps to the value after its last even offset below
      `limit`, with the expiry of this SET. */
  lemma {:induction false} StoredLast(args: seq<JsValue>, i: nat, limit: nat,
                                      expiry: Option<Num>, cache: Store, j: nat)
    requires limit <= |args|
    requires i <= j < limit && (j - i) % 2 == 0
    requires forall m :: j < m < limit && (m - i) % 2 == 0 ==> args[m] != args[j]
    decreases limit - i
    ensures args[j] in Stored(args, i, limit, expiry, cache)
    ensures Stored(args, i, limit, expiry, cache)[args[j]] == Entry(ValueAt(args, j + 1), expiry)
  {
    var next := cache[args[i] := Entry(ValueAt(args, i + 1), expiry)];
    if j == i {
      StoredElsewhere(args, i + 2, limit, expiry, next, args[j]);
    } else {
      StoredLast(args, i + 2, limit, expiry, next, j);
    }
  }

  /** The EX and PX loops schedule one deletion per pair, of that pair's key, after `delay`. */
  lemma {:induction false} ScheduledPairs(args: seq<JsValue>, i: nat, limit: nat, delay: Num)
    requires i <= limit <= |args|
    decreases limit - i
    ensures |Scheduled(args, i, limit, delay)| == (limit - i + 1) / 2
    ensures forall p :: 0 <= p < |Scheduled(args, i, limit, delay)| ==>
      Scheduled(args, i, limit, delay)[p] == Timer(args[i + 2 * p], delay)
  {
    if i + 2 <= limit {
      ScheduledPairs(args, i + 2, limit, delay);
    }
  }

  /** SET leaves every key it does not name as it was, in every form. */
  lemma SetOnlyNamed(args: seq<JsValue>, cache: Store, now: int, k: JsValue)
    requires forall j :: 0 <= j < |args| && j % 2 == 0 ==> args[j] != k
    ensures k in SetCommand(args, cache, now).1 <==> k in cache
    ensures k in cache ==> SetCommand(args, cache, now).1[k] == cache[k]
  {
    var n := |args|;
    if n >= 2 {
      StoredElsewhere(args, 0, n - 2, None, cache, k);
      StoredElsewhere(args, 0, n - 2, Some(Plus(Times(ParseInt(ToText(args[n - 1])), 1000), now)), cache, k);
      StoredElsewhere(args, 0, n - 2, Some(Plus(ParseInt(ToText(args[n - 1])), now)), cache, k);
    }
    StoredElsewhere(args, 0, n, None, cache, k);
  }

  /** A plain SET with an odd number of arguments stores undefined under its last key, and a GET
      of that key then throws, reading the length of undefined. */
  lemma OddSetUndefined(args: seq<JsValue>, cache: Store, now: int)
    requires |args| % 2 == 1
    requires |args| < 2 || (args[|args| - 2].Text? && !Includes(Upper(args[|args| - 2].s), "EX")
                            && !Includes(Upper(args[|args| - 2].s), "PX"))
    ensures args[|args| - 1] in SetCommand(args, cache, now).1
    ensures SetCommand(args, cache, now).1[args[|args| - 1]] == Entry(None, None)
    ensures GetCommand([args[|args| - 1]], SetCommand(args, cache, now).1) == Err(TypeError)
  {
    var n := |args|;
    StoredLast(args, 0, n, None, cache, n - 1);
  }

  // ---------------------------------------------------------------- ECHO

  /** ECHO of strings writes a length line with the first string's length only, then every
      string followed by CR LF. */
  lemma EchoStrings(ss: seq<string>)
    requires |ss| >= 1
    ensures EchoReply(Texts(ss)) == Ok("$" + Decimal(|ss[0]|) + "\r\n" + JoinCrlf(ss) + "\r\n")
  {
    assert Texts(ss)[0] == Text(ss[0]);
    EchoBodyLines(ss);
    var h := "$" + Decimal(|ss[0]|) + "\r\n";
    assert h + (JoinCrlf(ss) + "\r\n") == h + JoinCrlf(ss) + "\r\n";
  }

  /** The body of an ECHO of strings without CR LF splits back into those strings, and an empty
      last piece after the final CR LF. */
  lemma EchoSplits(ss: seq<string>)
    requires |ss| >= 1
    requires forall k :: 0 <= k < |ss| ==> NoCrlf(ss[k])
    ensures SplitCrlf(EchoBody(Texts(ss))) == ss + [""]
  {
    var lines := ss + [""];
    forall k | 0 <= k < |lines|
      ensures NoCrlf(lines[k])
    {
      if k < |ss| {
        assert lines[k] == ss[k];
      }
    }
    SplitJoin(lines);
    assert JoinCrlf(lines) == EchoBody(Texts(ss)) by {
      EchoBodyLines(ss);
      JoinCrlfSnoc(ss, "");
      assert JoinCrlf(ss) + "\r\n" + "" == JoinCrlf(ss) + "\r\n";
    }
  }

  // ---------------------------------------------------------------- commands as a client sends them

  /** A command sent as an array of bulk strings is dispatched on exactly those strings. */
  lemma RespondCommand(ss: seq<string>, cache: Store, now: int)
    ensures Respond(EncodeCommand(ss), cache, now) == Dispatch(Texts(ss), cache, now)
  {
    CommandRoundTrip(ss);
  }

  /** A command whose name upper-cases to PING writes `+PONG\r\n`, whatever follows the name, and
      leaves the Map alone. */
  lemma PingWire(ss: seq<string>, cache: Store, now: int)
    requires |ss| >= 1 && Upper(ss[0]) == "PING"
    ensures Respond(EncodeCommand(ss), cache, now) == (Handled(Some("+PONG\r\n"), []), cache)
  {
    RespondCommand(ss, cache, now);
  }

  /** A command whose name is none of PING, ECHO, SET and GET writes nothing and leaves the Map
      alone. */
  lemma UnknownWire(ss: seq<string>, cache: Store, now: int)
    requires |ss| >= 1
    requires Upper(ss[0]) != "PING" && Upper(ss[0]) != "ECHO"
    requires Upper(ss[0]) != "SET" && Upper(ss[0]) != "GET"
    ensures Respond(EncodeCommand(ss), cache, now) == (Handled(None, []), cache)
  {
    RespondCommand(ss, cache, now);
  }

  /** ECHO with one string writes it back as a bulk string, which a client decodes back to the
      same string when it holds no CR LF. */
  lemma EchoWire(name: string, s: string, cache: Store, now: int)
    requires Upper(name) == "ECHO"
    ensures Respond(EncodeCommand([name, s]), cache, now) == (Handled(Some(BulkFrame(s)), []), cache)
    ensures NoCrlf(s) ==> Decode(BulkFrame(s)) == Ok(Text(s))
  {
    RespondCommand([name, s], cache, now);
    assert Texts([name, s])[1..] == Texts([s]);
    EchoStrings([s]);
    if NoCrlf(s) {
      BulkFrameRoundTrip(s);
    }
  }

  /** A command whose name upper-cases to SET runs the SET branch on the strings after the name. */
  lemma SetDispatch(ss: seq<string>, cache: Store, now: int)
    requires |ss| >= 1 && Upper(ss[0]) == "SET"
    ensures Respond(EncodeCommand(ss), cache, now) == SetCommand(Texts(ss[1..]), cache, now)
  {
    RespondCommand(ss, cache, now);
    assert Texts(ss)[0] == Text(ss[0]);
    assert Texts(ss)[1..] == Texts(ss[1..]);
  }

  /** `SET k v` whose key holds neither "ex" nor "px" in any case stores `v` under `k` with no
      expiry and writes `+OK\r\n`. */
  lemma SetWire(name: string, k: string, v: string, cache: Store, now: int)
    requires Upper(name) == "SET"
    requires !Includes(Upper(k), "EX") && !Includes(Upper(k), "PX")
    ensures Respond(EncodeCommand([name, k, v]), cache, now)
         == (Handled(Some("+OK\r\n"), []), cache[Text(k) := Entry(Some(Text(v)), None)])
  {
    SetDispatch([name, k, v], cache, now);
    assert Texts([name, k, v][1..]) == [Text(k), Text(v)];
  }

  /** The quirk of the option test: `SET k v` whose key holds "ex" or "px" in any case is read as
      an expiry form with no pair before the last two arguments, so it stores nothing. */
  lemma SetKeyQuirk(name: string, k: string, v: string, cache: Store, now: int)
    requires Upper(name) == "SET"
    requires Includes(Upper(k), "EX") || Includes(Upper(k), "PX")
    ensures Respond(EncodeCommand([name, k, v]), cache, now).1 == cache
    ensures Respond(EncodeCommand([name, k, v]), cache, now).0 == Handled(Some("+OK\r\n"), [])
  {
    SetDispatch([name, k, v], cache, now);
    assert Texts([name, k, v][1..]) == [Text(k), Text(v)];
  }

  /** The arguments `k v option t` of an expiring SET: the one pair before the option is stored
      with the expiry `now + delay`, and its deletion is scheduled after `delay`. */
  lemma SetPair(k: string, v: string, option: string, t: string, cache: Store, expiry: Num, delay: Num)
    ensures Stored([Text(k), Text(v), Text(option), Text(t)], 0, 2, Some(expiry), cache)
         == cache[Text(k) := Entry(Some(Text(v)), Some(expiry))]
    ensures Scheduled([Text(k), Text(v), Text(option), Text(t)], 0, 2, delay) == [Timer(Text(k), delay)]
  {
    var args := [Text(k), Text(v), Text(option), Text(t)];
    assert ValueAt(args, 1) == Some(Text(v));
    assert Scheduled(args, 2, 2, delay) == [];
  }

  /** `SET k v EX t` stores `v` under `k` until `now + t * 1000` and schedules the deletion of `k`
      after `t * 1000` milliseconds. */
  lemma SetExWire(name: string, k: string, v: string, option: string, t: string, cache: Store, now: int)
    requires Upper(name) == "SET" && Includes(Upper(option), "EX")
    ensures Respond(EncodeCommand([name, k, v, option, t]), cache, now)
         == (Handled(Some("+OK\r\n"), [Timer(Text(k), Times(ParseInt(t), 1000))]),
             cache[Text(k) := Entry(Some(Text(v)), Some(Plus(Times(ParseInt(t), 1000), now)))])
  {
    SetDispatch([name, k, v, option, t], cache, now);
    var args := [Text(k), Text(v), Text(option), Text(t)];
    assert Texts([name, k, v, option, t][1..]) == args;
    var ms := Times(ParseInt(t), 1000);
    assert SetCommand(args, cache, now)
        == (Handled(Some("+OK\r\n"), Scheduled(args, 0, 2, ms)), Stored(args, 0, 2, Some(Plus(ms, now)), cache));
    SetPair(k, v, option, t, cache, Plus(ms, now), ms);
  }

  /** `SET k v PX t`, with an option that holds PX but not EX, stores `v` under `k` until
      `now + t` and schedules the deletion of `k` after `t` milliseconds. */
  lemma SetPxWire(name: string, k: string, v: string, option: string, t: string, cache: Store, now: int)
    requires Upper(name) == "SET"
    requires !Includes(Upper(option), "EX") && Includes(Upper(option), "PX")
    ensures Respond(EncodeCommand([name, k, v, option, t]), cache, now)
         == (Handled(Some("+OK\r\n"), [Timer(Text(k), ParseInt(t))]),
             cache[Text(k) := Entry(Some(Text(v)), Some(Plus(ParseInt(t), now)))])
  {
    SetDispatch([name, k, v, option, t], cache, now);
    var args := [Text(k), Text(v), Text(option), Text(t)];
    assert Texts([name, k, v, option, t][1..]) == args;
    var ms := ParseInt(t);
    assert SetCommand(args, cache, now)
        == (Handled(Some("+OK\r\n"), Scheduled(args, 0, 2, ms)), Stored(args, 0, 2, Some(Plus(ms, now)), cache));
    SetPair(k, v, option, t, cache, Plus(ms, now), ms);
  }

  /** `GET k` for a stored string writes it as a bulk string, whatever its expiry, even a past one. */
  lemma GetHitWire(name: string, k: string, v: string, cache: Store, now: int)
    requires Upper(name) == "GET"
    requires Text(k) in cache && cache[Text(k)].value == Some(Text(v))
    ensures Respond(EncodeCommand([name, k]), cache, now) == (Handled(Some(BulkFrame(v)), []), cache)
  {
    RespondCommand([name, k], cache, now);
    assert Texts([name, k])[1..] == [Text(k)];
  }

  /** `GET k` for an absent key writes the null bulk string, which a client decodes as null. */
  lemma GetMissWire(name: string, k: string, cache: Store, now: int)
    requires Upper(name) == "GET"
    requires Text(k) !in cache
    ensures Respond(EncodeCommand([name, k]), cache, now) == (Handled(Some("$-1\r\n"), []), cache)
    ensures Decode("$-1\r\n") == Ok(Null)
  {
    RespondCommand([name, k], cache, now);
    assert Texts([name, k])[1..] == [Text(k)];
    assert "$-1\r\n" == "$-1" + "\r\n";
    BulkNull("\r\n");
  }

  /** `SET k`, with no value, stores undefined under `k` and writes `+OK\r\n`; a `GET k` then
      throws. */
  lemma SetWithoutValue(setName: string, getName: string, k: string, cache: Store, now: int, later: int)
    requires Upper(setName) == "SET" && Upper(getName) == "GET"
    ensures Respond(EncodeCommand([setName, k]), cache, now)
         == (Handled(Some("+OK\r\n"), []), cache[Text(k) := Entry(None, None)])
    ensures Respond(EncodeCommand([getName, k]), cache[Text(k) := Entry(None, None)], later)
         == (Crash(TypeError), cache[Text(k) := Entry(None, None)])
  {
    SetDispatch([setName, k], cache, now);
    assert Texts([setName, k][1..]) == [Text(k)];
    assert ValueAt([Text(k)], 1) == None;
    RespondCommand([getName, k], cache[Text(k) := Entry(None, None)], later);
    assert Texts([getName, k])[1..] == [Text(k)];
  }

  /** `SET k v` then `GET k`, with nothing deleted in between, writes `v` back as a bulk string. */
  lemma SetThenGet(setName: string, getName: string, k: string, v: string, cache: Store, now: int,
                   later: int)
    requires Upper(setName) == "SET" && Upper(getName) == "GET"
    requires !Includes(Upper(k), "EX") && !Includes(Upper(k), "PX")
    ensures Respond(EncodeCommand([getName, k]),
                    Respond(EncodeCommand([setName, k, v]), cache, now).1,
                    later).0
         == Handled(Some(BulkFrame(v)), [])
  {
    SetWire(setName, k, v, cache, now);
    GetHitWire(getName, k, v, cache[Text(k) := Entry(Some(Text(v)), None)], later);
  }

  /** A deletion scheduled by `SET k v EX t` still removes `k` after a later `SET k w` stored it
      with no expiry: once it fires, `GET k` finds nothing. */
  lemma TimerRace(setName: string, getName: string, option: string, k: string, v: string, w: string, t: string,
                  cache: Store, now: int, later: int)
    requires Upper(setName) == "SET" && Upper(getName) == "GET" && Includes(Upper(option), "EX")
    requires !Includes(Upper(k), "EX") && !Includes(Upper(k), "PX")
    ensures Respond(EncodeCommand([setName, k, v, option, t]), cache, now).0
         == Handled(Some("+OK\r\n"), [Timer(Text(k), Times(ParseInt(t), 1000))])
    ensures Respond(EncodeCommand([getName, k]),
                    Expired(Respond(EncodeCommand([setName, k, w]),
                                    Respond(EncodeCommand([setName, k, v, option, t]), cache, now).1,
                                    later).1,
                            Text(k)),
                    later).0
         == Handled(Some("$-1\r\n"), [])
  {
    SetExWire(setName, k, v, option, t, cache, now);
    var c1 := Respond(EncodeCommand([setName, k, v, option, t]), cache, now).1;
    SetWire(setName, k, w, c1, later);
    var c2 := Respond(EncodeCommand([setName, k, w]), c1, later).1;
    GetMissWire(getName, k, Expired(c2, Text(k)), later);
  }
}
