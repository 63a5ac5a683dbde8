# A verified model of a small RESP cache server

The server is a Node.js TCP server that speaks a subset of RESP2, the Redis
Serialization Protocol. This project models its two parts:

- **The decoder.** `parseRESP` is in `app/utils/respParser.js`. `app/main.js` holds a
  character-for-character copy named `parseResp`, and the model covers both. The first
  character selects the branch: simple string, integer, error, bulk string or array.
  An array is read by a `for` loop that moves an `offset` cursor through the text.
- **The `data` handler** in `app/main.js`. It decodes each chunk and upper-cases the
  first element. Then it answers PING, ECHO, SET and GET:
  - SET writes into the global `cache` Map. With EX or PX it also schedules a
    `setTimeout` that deletes the key.
  - GET reads the Map. It never looks at the stored expiry.

The model is in four modules:

- `wrappers.dfy` (`Wrappers`): `Option` and `Result`.
- `js.dfy` (`Js`): the JavaScript built-ins the server relies on, written out on strings
  of characters:
  - numbers that may be NaN;
  - `slice`;
  - `indexOf("\r\n")` and `split("\r\n")`;
  - `parseInt(s, 10)`;
  - `toUpperCase` and `includes`;
  - the decimal text of a number.
- `resp.dfy` (`Resp`): the decoder.
  - `Decode` says what `parseRESP` returns, or which exception it throws.
  - `ParseResp` is the decoder written step by step, with the cursor loop. It is proved
    equal to `Decode`.
  - `EncodeCommand` is the array of bulk strings a client sends.
- `server.dfy` (`Server`): the handler.
  - `Respond` says what one chunk does: the text written back, the deletions scheduled
    and the Map afterwards, or the exception that escapes.
  - The class `Cache` holds the Map. Its methods `Handle`, `DispatchCommand`, `Set`,
    `StoreExpiring` and `Expire` do the same work step by step, with the source's loops,
    and are proved to agree with `Respond`. The ECHO loop is the module-level method
    `Echo`, since it touches no state.
  - The lemmas state the protocol facts on the text a client actually sends.

The model keeps these behaviours of the code exactly as written:

- An exception is modelled as `Err`/`Crash`. This covers the `throw`s and every TypeError
  the handler can hit: `undefined.toUpperCase()`, `null.length`, a number without
  `toUpperCase`, and an undefined stored value in GET.
- The Map is keyed by decoded values. A string key and a number key are different keys,
  as they are in a JavaScript `Map`.
- SET tests the second-to-last argument with a case-insensitive *substring* match, EX
  before PX. So `SET k v` whose key contains "ex" stores nothing (`SetKeyQuirk`).
- The header ECHO writes holds only the first argument's length.
- The deletion callback deletes the key unconditionally, even after a later SET
  overwrote it (`TimerRace`).

## Model

| member | source | states |
|---|---|---|
| Resp.Decode | app/utils/respParser.js:1-73 | What `parseRESP` returns or throws, branch by branch. Its contract: only a text starting with `+ : $ *` can succeed, and one starting with `+` or `:` always does. |
| Resp.ParseResp | app/utils/respParser.js:1-73 | The decoder, with its cursor loop, returns exactly `Decode(data)`: the value, or the exception it throws, for every input. |
| Resp.ParseArray | app/utils/respParser.js:30-69 | The `*` branch, with its `for` loop over the declared count, returns exactly the array `Decode` gives, or the exception an element throws. |
| Resp.Element | app/utils/respParser.js:39-66 | One array element and the next offset. It succeeds exactly when the character at the cursor is `$`, `:` or `+`; otherwise it throws an Error. |
| Resp.Elements | app/utils/respParser.js:38-67 | The elements the loop reads from an iteration on. On success the elements read before are kept as a prefix; the only exception is an Error thrown by an element. |
| Resp.ReadElement | app/utils/respParser.js:39-66 | One turn of the loop reads the element at `offset` and returns the next offset, exactly as `Element` specifies. |
| Resp.SimpleString | app/utils/respParser.js:5-7 | A `+` input yields the text between the prefix and the final two characters. |
| Resp.IntegerFrame | app/utils/respParser.js:10-12 | A `:` input yields `parseInt` of that same span. |
| Resp.IntegerRoundTrip | app/utils/respParser.js:10-12 | `:n\r\n` decodes back to the integer `n`, for any integer. |
| Resp.ErrorFrame | app/utils/respParser.js:15-17 | A `-` input always fails. The message is the text between the prefix and the final two characters. |
| Resp.UnknownType | app/utils/respParser.js:72 | Empty input, or a first character other than `+ : - $ *`, throws "Unknown RESP type". |
| Resp.BulkNull | app/utils/respParser.js:20-24 | A `$` frame declaring length -1 yields null. |
| Resp.BulkCut | app/utils/respParser.js:20-27 | A non-negative declared length written in decimal yields the second CRLF-separated line, cut to at most that length. |
| Resp.BulkNegative | app/utils/respParser.js:20-27 | A negative declared length other than -1 counts from the end: the second line loses that many characters, and is empty when it has no more. |
| Resp.BulkNaN | app/utils/respParser.js:20-27 | A declared length without digits is NaN and yields the empty string. |
| Resp.BulkLines | app/utils/respParser.js:21-26 | A `$` text whose first line declares a length other than -1 yields `slice(0, length)` of its second line. |
| Resp.BulkFrameTruncates | app/utils/respParser.js:20-27 | A top-level bulk frame whose payload holds CRLF comes back cut at the payload's first CRLF. |
| Resp.BulkFrameRoundTrip | app/utils/respParser.js:20-27 | A top-level bulk frame whose payload has no CRLF decodes back to that payload. |
| Resp.ArrayCount | app/utils/respParser.js:33-38 | On success the `*` branch returns a list of exactly the declared count of elements. A count that is not a positive number, NaN included, yields the empty list. |
| Resp.UnsupportedElement | app/utils/respParser.js:64-66 | An element fails exactly when its prefix is none of `$ : +`, with the source's message. Reading past the end of the text always fails. |
| Resp.BulkElementCases | app/utils/respParser.js:40-53 | A bulk element whose length reads -1 yields null and moves the cursor to `lenEnd+2`. Any other length `n`, negative included, yields `slice(lenEnd+2, lenEnd+2+n)` and moves the cursor to `lenEnd+2+n+2`. A length that is no number yields "" and a NaN cursor. |
| Resp.BulkElementAdvance | app/utils/respParser.js:40-53 | A bulk element is measured by its declared length, not by a CRLF search. The cursor moves to `lenEnd+2+strLen+2`. |
| Resp.BulkElement | app/utils/respParser.js:40-53 | A bulk frame placed anywhere in the text is read as its payload, even one that holds CRLF. The cursor lands right after the frame. |
| Resp.SimpleElement | app/utils/respParser.js:59-63 | A `+` element ends at the next CRLF after its prefix and holds no CRLF. The cursor resumes two characters past that CRLF. |
| Resp.IntegerElement | app/utils/respParser.js:54-58 | A `:` element is `parseInt` of the text up to the next CRLF. The cursor resumes two characters past it. |
| Resp.ElementsStep | app/utils/respParser.js:38-63 | One loop turn appends the element it read and moves the cursor on. The rest of the loop then continues from there. |
| Resp.ElementsHalt | app/utils/respParser.js:64-66 | A failing element ends the whole loop with that element's exception. |
| Resp.FramesRead | app/utils/respParser.js:38-67 | Bulk frames placed one after another are collected by the loop, in order, as exactly their strings. |
| Resp.CommandRoundTrip | app/utils/respParser.js:30-69 | `*N\r\n` followed by N bulk frames decodes back to exactly those N strings, even when some of them hold CRLF. |
| Js.IndexOfCrlf | app/utils/respParser.js:32 | `indexOf("\r\n", from)` is -1 or a position at or after `from` where CR LF stands. |
| Js.SplitCrlf | app/utils/respParser.js:21 | `split("\r\n")` always gives at least one piece. |
| Js.ParseInt | app/utils/respParser.js:11 | `parseInt(s, 10)`: blank text gives NaN, a text starting with a digit after white space gives a non-negative number, and a negative result needs a minus sign. |
| Js.Slice | app/utils/respParser.js:6 | `slice` returns the characters between its bounds. A negative start or end counts from the end, and crossed bounds give the empty string. |
| Js.IndexOfCrlfFirst | app/utils/respParser.js:42 | `indexOf("\r\n", from)` returns the first CRLF at or after `from`, or -1 when there is none. |
| Js.JoinSplit | app/utils/respParser.js:21 | Joining the pieces of `split("\r\n")` with CRLF gives the text back. |
| Js.SplitJoin | app/utils/respParser.js:21 | Splitting lines without CRLF, once joined by CRLF, gives the same lines back. |
| Js.DigitRunSpec | app/utils/respParser.js:11 | `parseInt` reads the longest run of digits: digits only, stopping at the end or at a non-digit. |
| Js.ParseIntText | app/utils/respParser.js:11 | `parseInt` reads back the decimal text of any integer, sign included. |
| Js.ParseDecimal | app/utils/respParser.js:22 | A length written in decimal reads back as that length, whatever non-digit follows it. |
| Js.Upper | app/main.js:86 | The model's `Upper` keeps the length of the text. JavaScript's `toUpperCase` can lengthen it ("ß" becomes "SS"); see `Js.Upper` under "## Left out". |
| Js.UpperSpelling | app/main.js:86 | A text upper-cases to a word of capitals, such as PING, exactly when it has the same length and each character is the capital, its lower case, or dotless i for I and long s for S. So `ping`, `PiNg` and `pıng` all name PING. |
| Js.Includes | app/main.js:103 | `includes` holds only for a text no longer than the searched one, and always for a prefix of it. |
| Js.IncludesIff | app/main.js:103 | `includes` holds exactly when the text occurs at some position, in both directions. |
| Server.Cache.constructor | app/main.js:4 | The cache starts as an empty Map. |
| Server.Cache.Handle | app/main.js:82-146 | Handling a chunk writes the reply, schedules the timers and leaves the Map exactly as `Respond` says. |
| Server.Cache.DispatchCommand | app/main.js:86-145 | The chain of command tests on the upper-cased first element does exactly what `Dispatch` says. |
| Server.Cache.Set | app/main.js:100-135 | The SET branch, with its three loops, leaves the Map and the timers as `SetCommand` says. |
| Server.Cache.StoreExpiring | app/main.js:103-125 | The EX and PX loops store every pair before the last two with the given expiry. They schedule one deletion per pair, in order. |
| Server.Cache.Expire | app/main.js:110-112 | The timer callback deletes the key, whatever is stored under it by then. |
| Server.Echo | app/main.js:90-98 | The ECHO loop, pushing each argument and CRLF and then joining, writes exactly `EchoReply(args)`. |
| Server.React | app/main.js:84-145 | The handler on a decoded value. Only an array whose first element upper-cases to SET changes the Map; every exception is a TypeError and leaves the Map as it was. |
| Server.EchoReply | app/main.js:90-97 | What ECHO writes. It throws, a TypeError, exactly when there is no argument or the first one is null. |
| Server.GetCommand | app/main.js:137-144 | What GET writes. It throws, a TypeError, exactly when the key is stored with an undefined or null value; an absent key never throws. |
| Server.Respond | app/main.js:82-84 | An exception, from the decoder or from a command, leaves the Map as it was. |
| Server.Dispatch | app/main.js:86-145 | Only a command whose name upper-cases to SET changes the Map or schedules a deletion. Every exception is a TypeError and leaves the Map as it was. |
| Server.SetCommand | app/main.js:100-135 | A SET that throws stores nothing and throws a TypeError. A SET that returns writes `+OK\r\n`. |
| Server.Expired | app/main.js:110-112 | After the deletion the key is absent. Every other key keeps its entry. |
| Server.StoredElsewhere | app/main.js:106-131 | The SET loops leave unchanged, or still absent, every key they do not name. |
| Server.StoredLast | app/main.js:106-131 | The last pair naming a key wins. The key maps to the value after it, with this SET's expiry. |
| Server.ScheduledPairs | app/main.js:106-113 | EX and PX schedule one deletion per stored pair, of that pair's key, with the same delay. |
| Server.SetOnlyNamed | app/main.js:100-135 | In every form, SET changes only keys it names at a pair position. |
| Server.OddSetUndefined | app/main.js:127-131 | A plain SET with an odd number of arguments stores undefined under its last key, and a GET of that key then throws a TypeError. |
| Server.EchoStrings | app/main.js:90-97 | ECHO of strings writes a length line carrying only the first argument's length, then every argument followed by CRLF. |
| Server.EchoSplits | app/main.js:93-97 | The ECHO body of CRLF-free strings splits back into exactly those strings, then an empty piece. |
| Server.RespondCommand | app/main.js:84 | A command sent as an array of bulk strings is dispatched on exactly those strings. |
| Server.PingWire | app/main.js:86-88 | A name that upper-cases to PING gets `+PONG\r\n` whatever the other elements are. The Map is unchanged. |
| Server.UnknownWire | app/main.js:86-145 | A name other than PING, ECHO, SET and GET gets no reply and no change. |
| Server.EchoWire | app/main.js:90-97 | `ECHO s` replies `$len(s)\r\ns\r\n`, which a client decodes back to `s` when `s` holds no CRLF. |
| Server.SetWire | app/main.js:126-133 | `SET k v` stores `v` under `k` with null expiry and replies `+OK\r\n`, when `k` contains neither "ex" nor "px". |
| Server.SetKeyQuirk | app/main.js:103-125 | `SET k v` whose key contains "ex" or "px", in any case, takes an expiry branch. That branch has no pair to store, so nothing is stored. |
| Server.SetExWire | app/main.js:103-113 | With an option containing EX, `SET k v option t` stores `v` with expiry `now + t*1000`. It schedules the deletion of `k` after `t*1000` ms. |
| Server.SetPxWire | app/main.js:114-125 | With an option containing PX but not EX, the expiry is `now + t` and the deletion comes after `t` ms. |
| Server.GetHitWire | app/main.js:137-141 | `GET k` of a stored string replies `$len(v)\r\nv\r\n`, whatever the stored expiry. |
| Server.GetMissWire | app/main.js:142-144 | `GET k` of an absent key replies `$-1\r\n`, which a client decodes as null. |
| Server.SetThenGet | app/main.js:126-141 | `SET k v` then `GET k`, with no deletion between them, replies the bulk encoding of `v` when `k` contains neither "ex" nor "px" in any case. |
| Server.SetWithoutValue | app/main.js:127-141 | `SET k` stores undefined under `k` and replies `+OK\r\n`; a following `GET k` throws a TypeError and changes nothing. |
| Server.TimerRace | app/main.js:106-131 | A deletion scheduled by `SET k v EX t` still removes `k` after a later plain `SET k w`. A following `GET k` then replies `$-1\r\n`. |

## Left out

- Sockets are not modelled: `net.createServer`, `connection.on("data")`, `connection.write`
  and `server.listen`. A reply is returned as a value instead of being written.
- `Date.now()` is the parameter `now`.
- `setTimeout` is recorded as a `Timer` of the key and the raw delay. When the callback runs
  is not modelled; running it is `Cache.Expire`. Node replaces every delay outside
  1..2147483647 ms by 1 ms: NaN, zero, negative and too large delays alike. So
  `SET k v EX 2147484` deletes `k` after 1 ms. The `Timer` keeps the delay as the source computes
  it, and this replacement is not modelled.
- `buffer.toString()` is not modelled: the input is a sequence of characters, and UTF-8
  decoding is left out.
- Resp.Decode: a Dafny `char` is one Unicode scalar value, and JavaScript indexes strings by
  UTF-16 code units. So `data[offset]`, the `slice` bounds, the `indexOf` positions and a
  declared bulk length count scalar values here. The model agrees with JavaScript on text
  inside the Basic Multilingual Plane. It differs when a character outside it, such as an emoji,
  comes before or inside a counted span. In `*1\r\n$2\r\n😀\r\n`, JavaScript reads the
  element as "😀", because the emoji is two code units. The model reads "😀" followed by CR,
  because it counts the emoji as one character.
- Server.LengthText: `.length` is counted in characters. JavaScript counts UTF-16 code units,
  so ECHO and GET headers differ for characters outside the Basic Multilingual Plane.
- Js.ParseInt: the result is an unbounded integer. JavaScript numbers are doubles, so a
  long digit run loses precision, and `* 1000` can round. A run of 309 or more digits gives
  `Infinity` in JavaScript. Used as an array count, `Infinity` keeps the element loop going
  forever. Take `*+` followed by 400 nines, CRLF and `+x`. The `+` element at offset 404 has
  no CRLF after it, so the cursor goes back to offset 1, another `+` element, and the cycle
  repeats until memory runs out. The model counts 10^400 - 1 turns and then returns a list.
  `-0` is read as 0; the Map treats the two as one key, and both print as "0".
- Server.NumText: an integer is written in plain decimal. JavaScript switches to exponent
  notation from 1e21 on.
- Js.Upper: only ASCII letters, dotless i and long s are upper-cased, the characters whose
  upper case is a single ASCII letter. Every other character keeps its own code. The handler
  only compares upper-cased text with ASCII names and with "EX" and "PX".
- The Map's insertion order is not modelled, because the handler never observes it.
- `parsedData.splice(0, 1)` is modelled as taking the arguments after the first element.
  The decoded array is not used again afterwards, so the in-place edit is not observable.
- Server.Respond: an exception that escapes the `data` listener is not caught anywhere, so
  Node ends the process. After a `Crash`, no later chunk is handled and the unchanged Map is
  never observed; `Respond` must not be chained after a `Crash`.
- Server.React: a chunk that decodes to a non-empty string gets no reply and no change. The
  source upper-cases its first character, and a single character never equals PING, SET
  or GET; ECHO needs an object.
