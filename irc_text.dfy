/** The string logic of the Twitch chat client (TwitchWebSocket.java):
    credential normalisation, the per-channel message separator, Java's
    `startsWith` / `indexOf` / `substring`, and the classification of the
    lines the server sends. Everything here is pure. */
module IrcText {

  datatype Option<+T> = None | Some(value: T)

  // Wire literals of the client.
  const OAUTH_PREFIX: string := "oauth:"
  const PASS_PREFIX: string := "PASS "
  const NICK_PREFIX: string := "NICK "
  const JOIN_PREFIX: string := "JOIN #"
  const PING_PREFIX: string := "PING"
  const PRIVMSG_CHANNEL_INDICATOR: string := "PRIVMSG #"
  const PONG_RESPONSE: string := "PONG :tmi.twitch.tv"

  /** Java's `s.startsWith(prefix)`. */
  predicate StartsWith(s: string, prefix: string)
    ensures StartsWith(s, prefix) <==> |prefix| <= |s| && s[..|prefix|] == prefix
  {
    prefix <= s
  }

  // ---------------------------------------------------------------------
  // Lowercasing (String.toLowerCase, restricted to ASCII letters)
  // ---------------------------------------------------------------------

  predicate IsUpperAscii(c: char) {
    'A' <= c <= 'Z'
  }

  /** No ASCII upper-case letter occurs in `s`. */
  predicate IsLowerAscii(s: string) {
    forall i :: 0 <= i < |s| ==> !IsUpperAscii(s[i])
  }

  function LowerChar(c: char): char {
    if IsUpperAscii(c) then (c as int - 'A' as int + 'a' as int) as char else c
  }

  /** Lowercase every ASCII letter of `s` and keep every other character. */
  function Lower(s: string): (r: string)
    ensures |r| == |s|
    ensures forall i :: 0 <= i < |s| ==> r[i] == LowerChar(s[i])
    ensures IsLowerAscii(r)
  {
    if s == [] then [] else [LowerChar(s[0])] + Lower(s[1..])
  }

  /** Lowercasing twice is lowercasing once. */
  lemma LowerIdempotent(s: string)
    ensures Lower(Lower(s)) == Lower(s)
  {
    var once := Lower(s);
    forall i | 0 <= i < |once|
      ensures Lower(once)[i] == once[i]
    {
      assert !IsUpperAscii(once[i]);
    }
  }

  /** A name that is already lower case (as the constructor's documentation
      asks callers to pass) is stored as given. */
  lemma LowerKeepsLowercase(s: string)
    requires IsLowerAscii(s)
    ensures Lower(s) == s
  {
    forall i | 0 <= i < |s|
      ensures Lower(s)[i] == s[i]
    {
      assert !IsUpperAscii(s[i]);
    }
  }

  // ---------------------------------------------------------------------
  // Token normalisation
  // ---------------------------------------------------------------------

  /** The stored OAuth token: the argument when it already carries the
      `oauth:` prefix, otherwise the argument with that prefix put in front. */
  function NormalizeToken(token: string): (r: string)
    ensures StartsWith(r, OAUTH_PREFIX)
    ensures r == token || r == OAUTH_PREFIX + token
    ensures r == token <==> StartsWith(token, OAUTH_PREFIX)
  {
    if StartsWith(token, OAUTH_PREFIX) then token else OAUTH_PREFIX + token
  }

  /** Normalising a normalised token changes nothing. */
  lemma NormalizeTokenIdempotent(token: string)
    ensures NormalizeToken(NormalizeToken(token)) == NormalizeToken(token)
  {
  }

  // ---------------------------------------------------------------------
  // Substring search (String.indexOf) and payload extraction
  // ---------------------------------------------------------------------

  /** `pat` occurs in `s` starting at index `i`. */
  predicate OccursAt(s: string, pat: string, i: nat) {
    i + |pat| <= |s| && s[i..i + |pat|] == pat
  }

  predicate Contains(s: string, pat: string) {
    exists i: nat :: i <= |s| && OccursAt(s, pat, i)
  }

  /** `i` is the smallest index at which `pat` occurs in `s`. */
  predicate IsFirstOccurrence(s: string, pat: string, i: nat) {
    OccursAt(s, pat, i) && forall j: nat :: j < i ==> !OccursAt(s, pat, j)
  }

  /** Java's `s.indexOf(pat, from)`, with `None` for -1. */
  function IndexOfFrom(s: string, pat: string, from: nat): (r: Option<nat>)
    requires from <= |s|
    ensures r.Some? ==> from <= r.value && OccursAt(s, pat, r.value)
    ensures forall j: nat :: from <= j && (r.None? || j < r.value) ==> !OccursAt(s, pat, j)
    decreases |s| - from
  {
    if from + |pat| > |s| then None
    else if s[from..from + |pat|] == pat then Some(from)
    else IndexOfFrom(s, pat, from + 1)
  }

  /** Java's `s.indexOf(pat)`: the first occurrence of `pat`, if any. */
  function IndexOf(s: string, pat: string): (r: Option<nat>)
    ensures r.Some? <==> Contains(s, pat)
    ensures r.Some? ==> IsFirstOccurrence(s, pat, r.value)
  {
    IndexOfFrom(s, pat, 0)
  }

  /** Everything after the FIRST occurrence of `sep` in `line`, or `None`
      when `sep` does not occur. */
  function PayloadAfter(line: string, sep: string): (r: Option<string>)
    ensures r.Some? <==> Contains(line, sep)
    ensures r.Some? ==> exists i: nat :: IsFirstOccurrence(line, sep, i) && line == line[..i] + sep + r.value
  {
    match IndexOf(line, sep)
    case None => None
    case Some(i) =>
      assert line == line[..i] + sep + line[i + |sep|..];
      Some(line[i + |sep|..])
  }

  /** A line made of some text in which `sep` does not start, then `sep`,
      then a message, yields exactly that message, even when the message
      itself contains `sep` again. */
  lemma PayloadOfComposedLine(pre: string, sep: string, msg: string)
    requires forall j: nat :: j < |pre| ==> !OccursAt(pre + sep + msg, sep, j)
    ensures PayloadAfter(pre + sep + msg, sep) == Some(msg)
  {
    var line := pre + sep + msg;
    assert line[|pre|..|pre| + |sep|] == sep;
    assert OccursAt(line, sep, |pre|);
    var i := IndexOf(line, sep).value;
    assert i == |pre|;
    assert line[i + |sep|..] == msg;
  }

  /** A separator cannot start inside text that lacks its first character. */
  lemma NoOccurrenceInsideHead(pre: string, sep: string, rest: string)
    requires sep != [] && sep[0] !in pre
    ensures forall j: nat :: j < |pre| ==> !OccursAt(pre + rest, sep, j)
  {
    forall j: nat | j < |pre|
      ensures !OccursAt(pre + rest, sep, j)
    {
      assert pre[j] in pre;
      assert (pre + rest)[j] != sep[0];
    }
  }

  // ---------------------------------------------------------------------
  // Channel separator and line classification
  // ---------------------------------------------------------------------

  /** The marker that precedes the text of a chat message in `channel`:
      the PRIVMSG indicator, the channel name, then " :". */
  function Separator(channel: string): (r: string)
    ensures StartsWith(r, PRIVMSG_CHANNEL_INDICATOR)
    ensures |r| == |PRIVMSG_CHANNEL_INDICATOR| + |channel| + 2
    ensures r[|PRIVMSG_CHANNEL_INDICATOR|..|r| - 2] == channel
    ensures r[|r| - 2..] == " :"
  {
    PRIVMSG_CHANNEL_INDICATOR + channel + " :"
  }

  /** Distinct channels have distinct separators. */
  lemma SeparatorInjective(a: string, b: string)
    requires Separator(a) == Separator(b)
    ensures a == b
  {
    var n := |PRIVMSG_CHANNEL_INDICATOR|;
    assert a == Separator(a)[n..|Separator(a)| - 2];
    assert b == Separator(b)[n..|Separator(b)| - 2];
  }

  /** What the client does with one inbound line. */
  datatype Inbound =
    | KeepAlive        // answer with the fixed PONG line
    | Chat(text: string)  // append `text` to the message buffer
    | Noise            // ignore

  /** Classify `line`; `separator` is the cached channel separator, present
      exactly when the client is in a channel. A PING line is never scanned
      for a payload. */
  function Classify(line: string, separator: Option<string>): (r: Inbound)
    ensures r.KeepAlive? <==> StartsWith(line, PING_PREFIX)
    ensures r.Chat? <==> !StartsWith(line, PING_PREFIX) && separator.Some? && Contains(line, separator.value)
    ensures r.Chat? ==> PayloadAfter(line, separator.value) == Some(r.text)
  {
    if StartsWith(line, PING_PREFIX) then KeepAlive
    else if separator.None? then Noise
    else match PayloadAfter(line, separator.value)
      case Some(text) => Chat(text)
      case None => Noise
  }

  /** A chat line in the joined channel, whose sender part holds no 'P'
      (Twitch's `:nick!nick@nick.tmi.twitch.tv `), is classified as chat
      carrying exactly the message text. */
  lemma ChatLineOfChannel(pre: string, channel: string, msg: string)
    requires 'P' !in pre
    ensures Classify(pre + Separator(channel) + msg, Some(Separator(channel))) == Chat(msg)
  {
    var sep := Separator(channel);
    var line := pre + sep + msg;
    assert sep[0] == 'P';
    NoOccurrenceInsideHead(pre, sep, sep + msg);
    assert pre + (sep + msg) == line;
    PayloadOfComposedLine(pre, sep, msg);
    if pre == [] {
      assert line[1] == 'R';
    } else {
      assert line[0] == pre[0];
      assert pre[0] in pre;
    }
    assert !StartsWith(line, PING_PREFIX);
  }

  /** A Twitch chat line in channel foo,
      ":user!user@user.tmi.twitch.tv PRIVMSG #foo :hello world", yields
      "hello world". */
  lemma ExampleChatLine()
    ensures Classify(":user!user@user.tmi.twitch.tv PRIVMSG #foo :hello world", Some(Separator("foo")))
         == Chat("hello world")
  {
    var pre := ":user!user@user.tmi.twitch.tv ";
    assert pre + Separator("foo") + "hello world" == ":user!user@user.tmi.twitch.tv PRIVMSG #foo :hello world";
    ChatLineOfChannel(pre, "foo", "hello world");
  }
}
