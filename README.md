# learn-rust chat protocol and factorials, modelled in Dafny

This project models the pure and framing logic of a small Rust chat client,
plus a factorial benchmark from the same repository:

- **Messages** (`messages.dfy`, from `chat/src/lib.rs`). These are the two closed
  message types. `Client` has the variants `Join(chat_name)` and
  `Post(chat_name, message)`. `Server` has the variants `Message(chat_name, message)`
  and `Error(string)`; `Error` carries one unnamed string, as in the source.
  The `Arc<String>` payloads are immutable shared strings, and a Dafny `string`
  is an immutable value, so each payload is a plain `string`. The derived
  `PartialEq` compares variants and string contents, which is exactly datatype
  equality. Dafny datatypes are closed, so neither type can have another shape.
- **Client input grammar** (`client_input.dfy`, from `get_value` and
  `parse_input` in `chat/src/bin/client.rs`). `IsWs` is Rust's
  `char::is_whitespace`, the Unicode White_Space set. `TrimStart` is
  `str::trim_start`, and `FindWs` is `str::find(char::is_whitespace)`; both use
  `IsWs`. `GetValue` splits off the first whitespace-delimited token.
  `ParseInput` accepts `join CHAT` and `post CHAT MESSAGE...`. Each accepted
  command is characterised in both directions by the shape of the line.
- **Line framing** (`framing.dfy`, from `send_json` and `receive` in
  `chat/src/utils.rs`). A `Codec` is a pair of function values standing for
  serde_json's `to_string` and `from_str` at one message type. The ghost
  predicate `Lawful` states the two facts about serde_json that the framing
  needs:
  - a serialised message is one line;
  - it decodes back to the message.

  The framing lemmas take `Lawful` as a precondition. `SendJson` is a method
  that appends to a `Sink` (the write half of a connection). `Lines` models
  `lines()`, and `Receive` maps the per-line decoder over a stream of line reads.
- **Factorials** (`rayon.dfy`, from `concurrency/src/rayon.rs`). `BigUint` is
  `nat` and the argument is a `u32`. `Factorial` is the sequential
  `reduce(...).unwrap()` over `1..=num`. `MultiThreadedFactorial` is rayon's
  `reduce(|| 1, ...)`. Rayon's split points are a `Plan` parameter; each
  piece is folded from the identity `1`, and the pieces' results are multiplied.

`wrappers.dfy` holds the `Option` and `Result` types. They are
failure-compatible, so `:-` plays the part of Rust's `?`.

`Server::Error` is a tuple variant holding one unnamed `String`. The message
types do not require `chat_name` to be non-empty. Only `parse_input` produces
non-empty, whitespace-free names, and `ParseInput` states that.

## Model

| member | source | states |
|---|---|---|
| `ClientInput.TrimStart` | chat/src/bin/client.rs:64 | the result is a suffix of the input; everything dropped is whitespace; the result is empty or starts with non-whitespace |
| `ClientInput.FindWs` | chat/src/bin/client.rs:69 | None exactly when the input has no whitespace; otherwise the index of a whitespace character with none before it |
| `ClientInput.GetValue` | chat/src/bin/client.rs:63-73 | None exactly when the input is empty or all whitespace; otherwise a non-empty whitespace-free token and a remainder that is empty or starts with whitespace, and together they are the input with its leading whitespace removed |
| `ClientInput.TrimStartOf` | chat/src/bin/client.rs:64 | trimming whitespace followed by a non-whitespace start gives exactly what follows the whitespace |
| `ClientInput.FindWsAfterToken` | chat/src/bin/client.rs:69-71 | in a token followed by whitespace or nothing, the first whitespace is at the token's end, or there is none |
| `ClientInput.GetValueOf` | chat/src/bin/client.rs:63-73 | whitespace, a token, then a remainder that is empty or starts with whitespace: `get_value` returns exactly that token and remainder |
| `ClientInput.GetValueIff` | chat/src/bin/client.rs:63-73 | both directions: `get_value(s) == Some((tok, rest))` exactly when `s` is leading whitespace, the token `tok`, and `rest` empty or starting with whitespace |
| `ClientInput.ParseInput` | chat/src/bin/client.rs:76-91 | every accepted line gives a non-empty, whitespace-free chat name; a post's message is empty or starts with non-whitespace |
| `ClientInput.JoinComplete` | chat/src/bin/client.rs:77-83 | a line of the form `ws* join ws+ CHAT ws*` gives `Join(CHAT)` |
| `ClientInput.JoinSound` | chat/src/bin/client.rs:77-83 | every line that gives `Join(CHAT)` has the form `ws* join ws+ CHAT ws*` |
| `ClientInput.ParseInputJoin` | chat/src/bin/client.rs:77-83 | both directions: the result is `Join(CHAT)` exactly when the line has the join form |
| `ClientInput.JoinRejectsTrailing` | chat/src/bin/client.rs:79-82 | `join CHAT` followed by anything but whitespace is rejected |
| `ClientInput.PostComplete` | chat/src/bin/client.rs:84-87 | a line `ws* post ws+ CHAT ws* MSG`, where MSG is empty or follows whitespace and starts with non-whitespace, gives `Post(CHAT, MSG)` with MSG verbatim |
| `ClientInput.PostSound` | chat/src/bin/client.rs:84-87 | every line that gives `Post(CHAT, MSG)` has that form |
| `ClientInput.ParseInputPost` | chat/src/bin/client.rs:84-87 | both directions: the result is `Post(CHAT, MSG)` exactly when the line has the post form |
| `ClientInput.ParseInputOther` | chat/src/bin/client.rs:77-90 | a blank line, or a first token other than exactly `join` or `post`, gives None |
| `ClientInput.ExampleJoin` | chat/src/bin/client.rs:78-83 | `"join room1"` gives `Join("room1")` |
| `ClientInput.ExampleJoinPadded` | chat/src/bin/client.rs:64-83 | leading whitespace and trailing whitespace around a join are ignored |
| `ClientInput.ExamplePost` | chat/src/bin/client.rs:84-87 | `"post room1 hello world"` gives `Post("room1", "hello world")` |
| `ClientInput.ExamplePostSpacing` | chat/src/bin/client.rs:86 | inner and trailing spacing of a message is kept verbatim |
| `ClientInput.ExamplePostEmpty` | chat/src/bin/client.rs:71-87 | `"post room1 "` gives an empty message |
| `ClientInput.ExamplePostBare` | chat/src/bin/client.rs:71-87 | `"post room1"` gives an empty message |
| `ClientInput.ExampleJoinExtra` | chat/src/bin/client.rs:80-82 | `"join room1 extra"` is rejected |
| `ClientInput.ExampleJoinMissingChat` | chat/src/bin/client.rs:79 | `"join "` with no chat token is rejected |
| `ClientInput.ExamplePostMissingChat` | chat/src/bin/client.rs:85 | `"post"` with no chat token is rejected |
| `ClientInput.ExampleCaseSensitive` | chat/src/bin/client.rs:78-90 | `"Join room1"` is rejected: keywords are case-sensitive |
| `ClientInput.ExampleUnknown` | chat/src/bin/client.rs:89-90 | `"bogus"` is rejected |
| `Framing.Sink.WriteAll` | chat/src/utils.rs:36 | the whole buffer is appended to what was written, or the connection's failure is returned and nothing is written |
| `Framing.SendJson` | chat/src/utils.rs:24-38 | on success exactly the serialised message and one newline are appended; if serialisation fails nothing is written and its error is returned; a write failure is returned |
| `Framing.Lines` | chat/src/utils.rs:53 | no line contains a newline, and there are no more lines than bytes |
| `Framing.Receive` | chat/src/utils.rs:53-57 | one item per line read, in order; each item is that line decoded on its own: a read error or decode error is an `Err` item |
| `Framing.ReadLines` | chat/src/utils.rs:53 | definition of the line stream of a connection with no read failure; its meaning is carried by `Framing.ReadLinesOfFrame`, `Framing.ReceiveTranscript` and `Framing.ReceiveMalformedMiddle` |
| `Framing.ReadLinesOfFrame` | chat/src/utils.rs:32-33 | a read without failure of a one-line text and its newline yields `Ok` of that line, ahead of the reads of what follows |
| `Framing.Frame` | chat/src/utils.rs:32-33 | definition: the serialised text followed by one newline, or the serialisation error; `Framing.SendJson` writes exactly it and `Framing.LinesOfFrame` reads it back |
| `Framing.StripCr` | chat/src/utils.rs:53 | definition: the carriage return removed from a line that ends with one before its newline; `Framing.LinesOfFrame` relies on `OneLine` texts passing through it unchanged |
| `Framing.DecodeLine` | chat/src/utils.rs:53-57 | definition of the per-line closure: a read error becomes `Io`, a decode error `Json`; `Framing.ReceiveTranscript` and `Framing.ReceiveMalformedMiddle` state its results |
| `Framing.LinesOfFrame` | chat/src/utils.rs:32-33 | a one-line text followed by a newline is read back as that line, ahead of the lines after it |
| `Framing.LinesOfOne` | chat/src/utils.rs:32-33 | one framed text reads back as one line |
| `Framing.LinesOfTranscript` | chat/src/utils.rs:32-33 | the bytes of successive `send_json` calls split exactly into the serialised texts, in order |
| `Framing.ReceiveTranscript` | chat/src/utils.rs:32-56 | round trip: receiving the bytes of successive `send_json` calls yields `Ok` of each message sent, in order |
| `Framing.ReceiveTwo` | chat/src/utils.rs:32-56 | two frames are received as exactly `[Ok(m1), Ok(m2)]` |
| `Framing.LinesOfThree` | chat/src/utils.rs:53 | three framed texts read back as exactly those three lines |
| `Framing.ReceiveMalformedMiddle` | chat/src/utils.rs:53-57 | a malformed middle line gives `[Ok(m1), Err, Ok(m3)]`: the bad line does not end the stream |
| `Framing.ReceiveAppend` | chat/src/utils.rs:53-57 | receiving two line streams one after the other yields the items of each, concatenated |
| `Rayon.Upto` | concurrency/src/rayon.rs:19 | the range `1..=n` has `n` elements, the i-th being `i + 1` |
| `Rayon.Fold` | concurrency/src/rayon.rs:19 | definition of the multiplying fold; `Rayon.FoldIsProduct` states its result |
| `Rayon.Factorial` | concurrency/src/rayon.rs:15-21 | definition, with the `unwrap` of the reduce proved never to fail; `Rayon.FactorialIsFact`, `Rayon.FactorialRecurrence` and `Rayon.FactorialPositive` state its properties |
| `Rayon.ParallelReduce` | concurrency/src/rayon.rs:28 | definition of rayon's reduce with identity under a split plan; `Rayon.ParallelReduceIsProduct` states its result |
| `Rayon.MultiThreadedFactorial` | concurrency/src/rayon.rs:23-29 | definition; `Rayon.MultiThreadedIsSequential` proves it equal to `Rayon.Factorial` |
| `Rayon.Reduce` | concurrency/src/rayon.rs:19 | the reduce without identity is None exactly on an empty sequence, so the `unwrap` on the non-empty `1..=num` does not fail |
| `Rayon.FoldIsProduct` | concurrency/src/rayon.rs:19 | folding with multiplication from `acc` gives `acc` times the product |
| `Rayon.ReduceIsProduct` | concurrency/src/rayon.rs:19 | the reduce of a non-empty sequence is its product |
| `Rayon.ProductUpto` | concurrency/src/rayon.rs:19 | the product of `1..=n` is `n!` |
| `Rayon.FactorialIsFact` | concurrency/src/rayon.rs:15-21 | `factorial(num)` is `num!` and the product of `1..=num` for every `num`, 0 and 1 included |
| `Rayon.FactorialRecurrence` | concurrency/src/rayon.rs:16-19 | `factorial(0) == factorial(1) == 1`, and `factorial(n) == n * factorial(n - 1)` for `n >= 1` |
| `Rayon.FactorialPositive` | concurrency/src/rayon.rs:15-21 | `factorial(num) >= 1` for every `num` |
| `Rayon.ParallelReduceIsProduct` | concurrency/src/rayon.rs:28 | however the sequence is split into pieces, folding each piece from 1 and multiplying the results gives the product |
| `Rayon.MultiThreadedIsSequential` | concurrency/src/rayon.rs:23-29 | `multi_threaded_factorial(num) == factorial(num)` whatever splitting the scheduler chooses |

## Left out

- `send`, `messages` and `main` (chat/src/bin/client.rs) are stdin and TCP loops, console output and task scheduling, and they are not modelled. In `main`, the `send` future is created and never awaited, so the input half never runs. That is a matter of task scheduling, which this model does not cover.
- The `println!` diagnostic for unrecognised input (chat/src/bin/client.rs:89) is console output and is not modelled. Only its `None` result is.
- serde_json is not modelled. `Codec` takes its two functions as values, and `Lawful` states the two facts used. The first fact says not only "no newline" but also "no final carriage return", because `lines()` drops a `'\r'` before a newline. JSON escapes both control characters.
- `Framing.Sink.WriteAll`: a write that fails writes nothing here, while `write_all` may have written part of the buffer before failing. A sink's failure is fixed when it is created.
- `Framing.Lines`: the stream is text (`seq<char>`), so the invalid-UTF-8 error of `lines()` is not produced. Read errors still enter `Receive` through its stream of `Result` line reads.
- Rust slices the input at byte offsets; the model uses character positions. The split falls between the same characters, so the tokens and remainders are the same strings.
- Async plumbing (`Unpin`, `BufRead`, the `Stream` type, and boxing of `dyn Error`) is not modelled. `ChatError` keeps only which kind of failure happened and its text.
- Rayon's threads and the `Instant` timing in `main` (concurrency/src/rayon.rs) are not modelled. The parallel reduce keeps its result and its freedom of splitting; rayon may also fold a piece from a fresh identity, which `Plan` covers with empty pieces.
- cli/src/logic.rs, hello/src/main.rs and concurrency/src/main.rs are argument parsing, file I/O, a regex wrapper and a thread counter. They are not part of this model.
- The server, rooms and broadcast have no code in the repository and are not modelled.
