/** The client's local-input grammar (chat/src/bin/client.rs, get_value and
    parse_input): a whitespace tokenizer and the two commands
    `join CHAT` and `post CHAT MESSAGE...`. */
module ClientInput {
  import opened Wrappers
  import opened Messages

  /** Rust's `char::is_whitespace`: the Unicode White_Space property. */
  predicate IsWs(c: char) {
    || ('\U{9}' <= c <= '\U{D}')
    || c == ' '
    || c == '\U{85}'
    || c == '\U{A0}'
    || c == '\U{1680}'
    || ('\U{2000}' <= c <= '\U{200A}')
    || c == '\U{2028}'
    || c == '\U{2029}'
    || c == '\U{202F}'
    || c == '\U{205F}'
    || c == '\U{3000}'
  }

  /** Every character of `s` is whitespace (in particular, `s` may be empty). */
  predicate AllWs(s: string) {
    forall i :: 0 <= i < |s| ==> IsWs(s[i])
  }

  /** A token: a non-empty run of non-whitespace characters. */
  predicate IsToken(s: string) {
    |s| > 0 && forall i :: 0 <= i < |s| ==> !IsWs(s[i])
  }

  /** `s` is `tok + rest` preceded by whitespace only. */
  predicate SplitsAs(s: string, tok: string, rest: string) {
    var k := |s| - |tok| - |rest|;
    0 <= k && AllWs(s[..k]) && s[k..] == tok + rest
  }

  /** The index of the first non-whitespace character of `s` at or after `i`, or `|s|`. */
  function SkipWs(s: string, i: nat): (k: nat)
    requires i <= |s|
    ensures i <= k <= |s|
    ensures forall j :: i <= j < k ==> IsWs(s[j])
    ensures k == |s| || !IsWs(s[k])
    decreases |s| - i
  {
    if i < |s| && IsWs(s[i]) then SkipWs(s, i + 1) else i
  }

  /** The index of the first whitespace character of `s` at or after `i`, or `|s|`. */
  function SkipToken(s: string, i: nat): (k: nat)
    requires i <= |s|
    ensures i <= k <= |s|
    ensures forall j :: i <= j < k ==> !IsWs(s[j])
    ensures k == |s| || IsWs(s[k])
    decreases |s| - i
  {
    if i < |s| && !IsWs(s[i]) then SkipToken(s, i + 1) else i
  }

  /** `str::trim_start`: the longest suffix of `s` not starting with whitespace. */
  function TrimStart(s: string): (r: string)
    ensures |r| <= |s| && r == s[|s| - |r|..]
    ensures AllWs(s[..|s| - |r|])
    ensures r == [] || !IsWs(r[0])
  {
    var k := SkipWs(s, 0);
    assert forall j :: 0 <= j < k ==> s[..k][j] == s[j];
    s[k..]
  }

  /** `str::find(char::is_whitespace)`: the index of the first whitespace character. */
  function FindWs(s: string): (r: Option<nat>)
    ensures r.None? ==> forall i :: 0 <= i < |s| ==> !IsWs(s[i])
    ensures r.Some? ==> r.value < |s| && IsWs(s[r.value])
    ensures r.Some? ==> forall i :: 0 <= i < r.value ==> !IsWs(s[i])
  {
    var k := SkipToken(s, 0);
    if k == |s| then None else Some(k)
  }

  /** `get_value`: the first whitespace-delimited token of `input` and what follows it. */
  function GetValue(input: string): (r: Option<(string, string)>)
    ensures r.None? <==> AllWs(input)
    ensures r.Some? ==> IsToken(r.value.0)
    ensures r.Some? ==> r.value.1 == [] || IsWs(r.value.1[0])
    ensures r.Some? ==> SplitsAs(input, r.value.0, r.value.1)
  {
    var input' := TrimStart(input);
    assert input[..|input|] == input;
    assert input' != [] ==> input[|input| - |input'|] == input'[0];
    if input' == [] then None
    else match FindWs(input')
      case Some(w) =>
        assert input'[..w] + input'[w..] == input';
        Some((input'[..w], input'[w..]))
      case None =>
        assert input' + [] == input';
        Some((input', []))
  }

  /** `parse_input`: a line of local input as a client request, or None if it is not one. */
  function ParseInput(line: string): (r: Option<Client>)
    ensures r.Some? ==> IsToken(r.value.chat_name)
    ensures r.Some? && r.value.Post? ==> r.value.message == [] || !IsWs(r.value.message[0])
  {
    var first :- GetValue(line);
    if first.0 == "join" then
      var chat :- GetValue(first.1);
      if TrimStart(chat.1) != [] then None
      else Some(Join(chat.0))
    else if first.0 == "post" then
      var chat :- GetValue(first.1);
      Some(Post(chat.0, TrimStart(chat.1)))
    else
      None
  }

  // ---------------------------------------------------------------------------
  // The tokenizer is determined by the shape of its input

  lemma TrimStartOf(a: string, x: string)
    requires AllWs(a)
    requires x == [] || !IsWs(x[0])
    ensures TrimStart(a + x) == x
  {
    var s := a + x;
    var k := SkipWs(s, 0);
    assert forall j :: 0 <= j < |a| ==> s[j] == a[j];
    assert x != [] ==> s[|a|] == x[0];
    assert s[|a|..] == x;
  }

  lemma FindWsAfterToken(t: string, rest: string)
    requires IsToken(t)
    requires rest == [] || IsWs(rest[0])
    ensures FindWs(t + rest) == if rest == [] then None else Some(|t|)
  {
    var s := t + rest;
    var k := SkipToken(s, 0);
    assert forall j :: 0 <= j < |t| ==> s[j] == t[j];
    assert rest != [] ==> s[|t|] == rest[0];
  }

  /** Whitespace, then a token, then nothing or something starting with whitespace:
      `get_value` returns exactly that token and that remainder. */
  lemma GetValueOf(a: string, t: string, rest: string)
    requires AllWs(a) && IsToken(t)
    requires rest == [] || IsWs(rest[0])
    ensures GetValue(a + t + rest) == Some((t, rest))
  {
    assert a + t + rest == a + (t + rest);
    TrimStartOf(a, t + rest);
    FindWsAfterToken(t, rest);
    if rest != [] {
      assert (t + rest)[..|t|] == t && (t + rest)[|t|..] == rest;
    } else {
      assert t + rest == t;
    }
  }

  /** Both directions: `get_value(s) == Some((tok, rest))` exactly when `s` is
      leading whitespace, the token `tok`, and a remainder `rest` that is empty or
      starts with whitespace. */
  lemma GetValueIff(s: string, tok: string, rest: string)
    ensures GetValue(s) == Some((tok, rest))
        <==> SplitsAs(s, tok, rest) && IsToken(tok) && (rest == [] || IsWs(rest[0]))
  {
    if SplitsAs(s, tok, rest) && IsToken(tok) && (rest == [] || IsWs(rest[0])) {
      var k := |s| - |tok| - |rest|;
      assert s == s[..k] + tok + rest;
      GetValueOf(s[..k], tok, rest);
    }
  }

  // ---------------------------------------------------------------------------
  // The command grammar

  /** The shape of an accepted join line: `ws* "join" ws+ CHAT ws*`. */
  predicate JoinLine(line: string, a: string, b: string, chat: string, d: string) {
    && line == a + "join" + b + chat + d
    && AllWs(a) && b != [] && AllWs(b) && IsToken(chat) && AllWs(d)
  }

  /** The shape of an accepted post line: `ws* "post" ws+ CHAT ws* MESSAGE`, the
      message being empty or starting, after at least one whitespace, with a
      non-whitespace character; everything after that is kept verbatim. */
  predicate PostLine(line: string, a: string, b: string, chat: string, e: string, msg: string) {
    && line == a + "post" + b + chat + e + msg
    && AllWs(a) && b != [] && AllWs(b) && IsToken(chat) && AllWs(e)
    && (msg == [] || (e != [] && !IsWs(msg[0])))
  }

  lemma KeywordIsToken()
    ensures IsToken("join") && IsToken("post")
  {
  }

  /** `parse_input` once its two `get_value` calls are known. */
  lemma ParseInputOf(line: string, kw: string, rest: string, chat: string, rest': string)
    requires GetValue(line) == Some((kw, rest)) && GetValue(rest) == Some((chat, rest'))
    ensures ParseInput(line) ==
      if kw == "join" then (if TrimStart(rest') == [] then Some(Join(chat)) else None)
      else if kw == "post" then Some(Post(chat, TrimStart(rest')))
      else None
  {
  }

  lemma JoinComplete(line: string, a: string, b: string, chat: string, d: string)
    requires JoinLine(line, a, b, chat, d)
    ensures ParseInput(line) == Some(Join(chat))
  {
    var rest := b + chat + d;
    KeywordIsToken();
    assert line == a + "join" + rest;
    GetValueOf(a, "join", rest);
    GetValueOf(b, chat, d);
    TrimStartOf(d, []);
    assert d + [] == d;
    ParseInputOf(line, "join", rest, chat, d);
  }

  /** What an accepted line is made of: its keyword token, and the chat token that
      follows it with the remainder after that. */
  lemma ParseInputParts(line: string)
    requires ParseInput(line).Some?
    ensures GetValue(line).Some? && GetValue(GetValue(line).value.1).Some?
    ensures var first := GetValue(line).value;
            var second := GetValue(first.1).value;
            && ParseInput(line).value.chat_name == second.0
            && (ParseInput(line).value.Join? ==> first.0 == "join" && TrimStart(second.1) == [])
            && (ParseInput(line).value.Post? ==> first.0 == "post" && ParseInput(line).value.message == TrimStart(second.1))
  {
  }

  /** `SplitsAs` spelled out: the leading whitespace is an explicit part. */
  lemma SplitsAsParts(s: string, tok: string, rest: string) returns (a: string)
    requires SplitsAs(s, tok, rest)
    ensures s == a + tok + rest && AllWs(a)
  {
    var k := |s| - |tok| - |rest|;
    a := s[..k];
    assert s == a + s[k..];
  }

  /** A keyword token followed by a chat token: the line is `a + kw + b + chat + rest`
      with `a` whitespace and `b` non-empty whitespace. */
  lemma TwoTokens(line: string, kw: string, rest: string, chat: string, rest': string) returns (a: string, b: string)
    requires SplitsAs(line, kw, rest) && SplitsAs(rest, chat, rest')
    requires IsToken(chat) && rest != [] && IsWs(rest[0])
    ensures line == a + kw + b + chat + rest'
    ensures AllWs(a) && b != [] && AllWs(b)
  {
    a := SplitsAsParts(line, kw, rest);
    b := SplitsAsParts(rest, chat, rest');
    assert rest != [] && IsWs(rest[0]);
    assert line == a + kw + (b + chat + rest');
  }

  lemma JoinSound(line: string, chat: string) returns (a: string, b: string, d: string)
    requires ParseInput(line) == Some(Join(chat))
    ensures JoinLine(line, a, b, chat, d)
  {
    ParseInputParts(line);
    var first := GetValue(line).value;
    var second := GetValue(first.1).value;
    assert first.0 == "join" && second.0 == chat;
    a, b := TwoTokens(line, first.0, first.1, second.0, second.1);
    d := second.1;
    assert d[..|d|] == d;
  }

  /** `join CHAT` is accepted, giving `Join(CHAT)`, exactly when the line has the join shape. */
  lemma ParseInputJoin(line: string, chat: string)
    ensures ParseInput(line) == Some(Join(chat))
        <==> exists a, b, d :: JoinLine(line, a, b, chat, d)
  {
    if ParseInput(line) == Some(Join(chat)) {
      var a, b, d := JoinSound(line, chat);
    }
    if exists a, b, d :: JoinLine(line, a, b, chat, d) {
      var a, b, d :| JoinLine(line, a, b, chat, d);
      JoinComplete(line, a, b, chat, d);
    }
  }

  lemma PostComplete(line: string, a: string, b: string, chat: string, e: string, msg: string)
    requires PostLine(line, a, b, chat, e, msg)
    ensures ParseInput(line) == Some(Post(chat, msg))
  {
    var rest := b + chat + (e + msg);
    KeywordIsToken();
    assert line == a + "post" + rest;
    GetValueOf(a, "post", rest);
    GetValueOf(b, chat, e + msg);
    TrimStartOf(e, msg);
    ParseInputOf(line, "post", rest, chat, e + msg);
  }

  /** The remainder after the chat token of a post line: whitespace, then the message. */
  lemma PostTail(d: string) returns (e: string)
    requires d == [] || IsWs(d[0])
    ensures d == e + TrimStart(d) && AllWs(e)
    ensures TrimStart(d) == [] || (e != [] && !IsWs(TrimStart(d)[0]))
  {
    var msg := TrimStart(d);
    e := d[..|d| - |msg|];
    assert d == e + msg;
  }

  lemma PostShape(line: string, rest: string, chat: string, d: string) returns (a: string, b: string, e: string)
    requires SplitsAs(line, "post", rest) && SplitsAs(rest, chat, d)
    requires IsToken(chat) && rest != [] && IsWs(rest[0]) && (d == [] || IsWs(d[0]))
    ensures PostLine(line, a, b, chat, e, TrimStart(d))
  {
    a, b := TwoTokens(line, "post", rest, chat, d);
    e := PostTail(d);
    var head := a + "post" + b + chat;
    assert line == head + (e + TrimStart(d));
    assert head + (e + TrimStart(d)) == head + e + TrimStart(d);
  }

  lemma PostSound(line: string, chat: string, msg: string) returns (a: string, b: string, e: string)
    requires ParseInput(line) == Some(Post(chat, msg))
    ensures PostLine(line, a, b, chat, e, msg)
  {
    ParseInputParts(line);
    var first := GetValue(line).value;
    var second := GetValue(first.1).value;
    assert first.0 == "post" && second.0 == chat && msg == TrimStart(second.1);
    a, b, e := PostShape(line, first.1, chat, second.1);
  }

  /** `post CHAT MESSAGE` is accepted, giving `Post(CHAT, MESSAGE)`, exactly when the
      line has the post shape. */
  lemma ParseInputPost(line: string, chat: string, msg: string)
    ensures ParseInput(line) == Some(Post(chat, msg))
        <==> exists a, b, e :: PostLine(line, a, b, chat, e, msg)
  {
    if ParseInput(line) == Some(Post(chat, msg)) {
      var a, b, e := PostSound(line, chat, msg);
    }
    if exists a, b, e :: PostLine(line, a, b, chat, e, msg) {
      var a, b, e :| PostLine(line, a, b, chat, e, msg);
      PostComplete(line, a, b, chat, e, msg);
    }
  }

  /** `join CHAT` followed by anything but whitespace is rejected. */
  lemma JoinRejectsTrailing(line: string, a: string, b: string, chat: string, d: string)
    requires line == a + "join" + b + chat + d
    requires AllWs(a) && b != [] && AllWs(b) && IsToken(chat)
    requires d != [] && IsWs(d[0]) && !AllWs(d)
    ensures ParseInput(line) == None
  {
    var rest := b + chat + d;
    KeywordIsToken();
    assert line == a + "join" + rest;
    GetValueOf(a, "join", rest);
    GetValueOf(b, chat, d);
    ParseInputOf(line, "join", rest, chat, d);
  }

  /** A line whose first token is neither `join` nor `post`, or that has no token at
      all, is rejected; the keywords are case-sensitive. */
  lemma ParseInputOther(line: string)
    requires AllWs(line) || (GetValue(line).Some? && GetValue(line).value.0 != "join" && GetValue(line).value.0 != "post")
    ensures ParseInput(line) == None
  {
  }

  // The examples of the protocol's grammar, each stated for a line equal to a literal

  lemma ExampleJoin(line: string)
    requires line == "join room1"
    ensures ParseInput(line) == Some(Join("room1"))
  {
    JoinComplete(line, "", " ", "room1", "");
  }

  lemma ExampleJoinPadded(line: string)
    requires line == "  join room1 \t"
    ensures ParseInput(line) == Some(Join("room1"))
  {
    JoinComplete(line, "  ", " ", "room1", " \t");
  }

  lemma ExamplePost(line: string)
    requires line == "post room1 hello world"
    ensures ParseInput(line) == Some(Post("room1", "hello world"))
  {
    PostComplete(line, "", " ", "room1", " ", "hello world");
  }

  lemma ExamplePostSpacing(line: string)
    requires line == "post room1  two  spaces "
    ensures ParseInput(line) == Some(Post("room1", "two  spaces "))
  {
    PostComplete(line, "", " ", "room1", "  ", "two  spaces ");
  }

  lemma ExamplePostEmpty(line: string)
    requires line == "post room1 "
    ensures ParseInput(line) == Some(Post("room1", ""))
  {
    PostComplete(line, "", " ", "room1", " ", "");
  }

  lemma ExamplePostBare(line: string)
    requires line == "post room1"
    ensures ParseInput(line) == Some(Post("room1", ""))
  {
    PostComplete(line, "", " ", "room1", "", "");
  }

  lemma ExampleJoinExtra(line: string)
    requires line == "join room1 extra"
    ensures ParseInput(line) == None
  {
    var d := " extra";
    assert !IsWs(d[1]);
    JoinRejectsTrailing(line, "", " ", "room1", d);
  }

  lemma ExampleJoinMissingChat(line: string)
    requires line == "join "
    ensures ParseInput(line) == None
  {
  }

  lemma ExamplePostMissingChat(line: string)
    requires line == "post"
    ensures ParseInput(line) == None
  {
  }

  lemma ExampleCaseSensitive(line: string)
    requires line == "Join room1"
    ensures ParseInput(line) == None
  {
  }

  lemma ExampleUnknown(line: string)
    requires line == "bogus"
    ensures ParseInput(line) == None
  {
  }
}
