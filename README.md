# Twitch chat client, modelled in Dafny

This project models `TwitchWebSocket`, a small client for Twitch chat. Twitch chat is IRC carried over a WebSocket. The client works as follows:

- Its constructor normalises the credentials: the username is lowercased, and the OAuth token gets an `oauth:` prefix unless it already has one.
- `open()` connects. It then authenticates with a `PASS` line followed by a `NICK` line, and registers a line handler.
- `joinChannel` sends a `JOIN #<channel>` line once. It also caches the marker `PRIVMSG #<channel> :` that starts a chat line in that channel.
- The handler answers each `PING…` line with the fixed line `PONG :tmi.twitch.tv`. While the client is in a channel, the handler takes the text after the first occurrence of the marker and appends it to a FIFO buffer. It ignores every other line.
- `hasMoreMessages` and `getNextMessage` drain that buffer. `getNextMessage` returns null when the buffer is empty.

The project has two modules:

- `IrcText` (`irc_text.dfy`) holds the pure string logic. This covers token normalisation and lowercasing. It also models Java's `startsWith` and `indexOf` as functions with their own specifications: `IndexOf` yields the first occurrence. Java's `substring` is the sequence slice `line[i + |sep|..]`. It builds the channel separator and classifies an inbound line as `KeepAlive`, `Chat(text)` or `Noise`.
- `Twitch` (`twitch_web_socket.dfy`) holds the class `TwitchWebSocket`. Its fields are `open`, `inChannel`, `connectedChannel`, `channelMsgSeparator` and `buffer`. The credentials are `const`, because the source assigns them only in the constructor.
  - The transport becomes the ghost log `sent`, which records every line written to the socket in order. This makes the authentication order, the JOIN line and the PONG replies observable.
  - The ghost flag `listening` records that the line handler has been registered.
  - `Valid()` is the class invariant. The token starts with `oauth:` and the username has no ASCII upper-case letter. `connectedChannel` and `channelMsgSeparator` are present exactly when `inChannel` holds, and then the separator is `PRIVMSG #` + channel + ` :`.

The line format is that of IRC as Twitch uses it (RFC 1459 sections 4.1.1, 4.1.2, 4.2.1, 4.4.1 and 4.6.2). The code does plain prefix and substring matching rather than parsing IRC messages, and so does the model.

`joinChannel` tests `inChannel` before `open`. As a result, a session that joined and was then disconnected reports "already joined". The model follows the code: see `JoinChannel` and `DrainScenario`.

## Model

| member | source | states |
|---|---|---|
| `IrcText.Lower` | processing-twitch/src/main/java/com/alialhasnawi/twitch/TwitchWebSocket.java:57 | the result has the input's length, each character is the input's character lowercased (ASCII letters only), and no upper-case ASCII letter remains |
| `IrcText.LowerIdempotent` | processing-twitch/src/main/java/com/alialhasnawi/twitch/TwitchWebSocket.java:57 | lowercasing a stored username again changes nothing |
| `IrcText.LowerKeepsLowercase` | processing-twitch/src/main/java/com/alialhasnawi/twitch/TwitchWebSocket.java:49-57 | a username already in lower case, as the documentation asks for, is stored unchanged |
| `IrcText.NormalizeToken` | processing-twitch/src/main/java/com/alialhasnawi/twitch/TwitchWebSocket.java:59-64 | the stored token always starts with `oauth:`; it is the input or `oauth:` + input, and it equals the input exactly when the input already starts with `oauth:` |
| `IrcText.NormalizeTokenIdempotent` | processing-twitch/src/main/java/com/alialhasnawi/twitch/TwitchWebSocket.java:59-64 | normalising a normalised token changes nothing |
| `IrcText.IndexOfFrom` | processing-twitch/src/main/java/com/alialhasnawi/twitch/TwitchWebSocket.java:159 | a found index is at or after the start and the pattern occurs there; the pattern occurs at no index from the start up to the result, and nowhere from the start when nothing is found |
| `IrcText.IndexOf` | processing-twitch/src/main/java/com/alialhasnawi/twitch/TwitchWebSocket.java:159 | an index is found exactly when the pattern occurs, and it is the first occurrence |
| `IrcText.PayloadAfter` | processing-twitch/src/main/java/com/alialhasnawi/twitch/TwitchWebSocket.java:159-163 | a payload exists exactly when the separator occurs; the line is then the text before the first occurrence, the separator, and the payload |
| `IrcText.PayloadOfComposedLine` | processing-twitch/src/main/java/com/alialhasnawi/twitch/TwitchWebSocket.java:159-163 | when the separator does not start within the text before it, the payload of text + separator + message is exactly the message, even if the message contains the separator again |
| `IrcText.NoOccurrenceInsideHead` | processing-twitch/src/main/java/com/alialhasnawi/twitch/TwitchWebSocket.java:159 | the separator cannot start at any position of a leading text that lacks the separator's first character |
| `IrcText.StartsWith` | processing-twitch/src/main/java/com/alialhasnawi/twitch/TwitchWebSocket.java:60 | a string starts with a prefix exactly when the prefix is no longer than the string and equals its leading part |
| `IrcText.Separator` | processing-twitch/src/main/java/com/alialhasnawi/twitch/TwitchWebSocket.java:127 | the separator is `PRIVMSG #`, then the channel name, then ` :`, with nothing else |
| `IrcText.SeparatorInjective` | processing-twitch/src/main/java/com/alialhasnawi/twitch/TwitchWebSocket.java:127 | two channels with the same cached separator are the same channel |
| `IrcText.Classify` | processing-twitch/src/main/java/com/alialhasnawi/twitch/TwitchWebSocket.java:155-165 | a line is a keepalive exactly when it starts with `PING`; it is chat exactly when it is not a keepalive, the client is in a channel and the separator occurs in it, and then its text is the payload after the first occurrence; every other line is ignored |
| `IrcText.ChatLineOfChannel` | processing-twitch/src/main/java/com/alialhasnawi/twitch/TwitchWebSocket.java:155-163 | a line made of a sender part without `P`, then the joined channel's separator, then a message, is classified as chat carrying exactly that message |
| `IrcText.ExampleChatLine` | processing-twitch/src/main/java/com/alialhasnawi/twitch/TwitchWebSocket.java:155-163 | `:user!user@user.tmi.twitch.tv PRIVMSG #foo :hello world` in channel `foo` yields `hello world` |
| `Twitch.TwitchWebSocket.constructor` | processing-twitch/src/main/java/com/alialhasnawi/twitch/TwitchWebSocket.java:35-65 | the username is the lowercased argument and the token the normalised argument; the client is neither open nor in a channel, the buffer is empty, nothing has been sent, and the invariant holds |
| `Twitch.TwitchWebSocket.Open` | processing-twitch/src/main/java/com/alialhasnawi/twitch/TwitchWebSocket.java:72-83 | after a successful connect the client is open and listening, and exactly `PASS <token>` then `NICK <username>` have been appended to the sent lines; a failed connect leaves every modelled field and the sent log unchanged and is reported |
| `Twitch.TwitchWebSocket.Authenticate` | processing-twitch/src/main/java/com/alialhasnawi/twitch/TwitchWebSocket.java:89-92 | sends the password line and then the nickname line, nothing else |
| `Twitch.TwitchWebSocket.HasMoreMessages` | processing-twitch/src/main/java/com/alialhasnawi/twitch/TwitchWebSocket.java:99-101 | true exactly when the buffer is non-empty; changes nothing |
| `Twitch.TwitchWebSocket.GetNextMessage` | processing-twitch/src/main/java/com/alialhasnawi/twitch/TwitchWebSocket.java:110-115 | on a non-empty buffer returns its head and leaves its tail; on an empty buffer returns None and leaves it empty; the old buffer is always the returned message followed by the new buffer |
| `Twitch.TwitchWebSocket.JoinChannel` | processing-twitch/src/main/java/com/alialhasnawi/twitch/TwitchWebSocket.java:123-134 | joins exactly when open and not yet in a channel: sends `JOIN #<channel>`, records the channel and caches its separator; otherwise reports already-joined (with the current channel) when in a channel, else not-open, and changes nothing; the invariant is preserved |
| `Twitch.TwitchWebSocket.OnDisconnected` | processing-twitch/src/main/java/com/alialhasnawi/twitch/TwitchWebSocket.java:142-148 | only `open` changes, to false; channel state and buffer stay |
| `Twitch.TwitchWebSocket.OnTextMessage` | processing-twitch/src/main/java/com/alialhasnawi/twitch/TwitchWebSocket.java:154-166 | a keepalive appends exactly the PONG line and leaves the buffer; a chat line appends exactly its payload at the buffer's tail and sends nothing; any other line changes neither; session fields are untouched |
| `Twitch.HandshakeScenario` | processing-twitch/src/main/java/com/alialhasnawi/twitch/TwitchWebSocket.java:55-134 | a new client has no messages and refuses to join before opening; after opening, the sent lines are PASS, NICK; the first join succeeds and two later joins, of another channel and of the same channel, are refused; the sent lines are then PASS, NICK, JOIN |
| `Twitch.ReceiveScenario` | processing-twitch/src/main/java/com/alialhasnawi/twitch/TwitchWebSocket.java:154-166 | two chat lines with a PING between them leave exactly their two messages in the buffer, in arrival order |
| `Twitch.DrainScenario` | processing-twitch/src/main/java/com/alialhasnawi/twitch/TwitchWebSocket.java:110-148 | after a disconnect, a join is still refused as already joined; draining returns the messages in insertion order, then None, and leaves the buffer empty |

## Left out

- The WebSocket library, `SSLSocketFactory`, `createSocket`/`connect`, `BASE_URI` and `TIMEOUT` are foreign I/O. Whether a connect succeeds is the `connects` parameter of `Open`. The lines written are recorded in the ghost log `sent`, not sent anywhere.
- `open()` wraps a connect failure in a `RuntimeException`. The model returns `ConnectionFailed` instead.
- All `System.err` logging is left out. `JoinChannel` returns which refusal the source would have logged. `OnDisconnected` has no `closedByServer` parameter, because that flag only selects the log message.
- `synchronized` and the listener thread are left out. Every call is atomic and sequential.
- `Twitch.TwitchWebSocket.OnDisconnected`, `Twitch.TwitchWebSocket.OnTextMessage`: the model does not follow which socket a callback comes from. Each successful `open()` creates a new socket and registers a new handler on it, and a handler on an older socket could still fire. The model assumes one logical transport.
- `Twitch.TwitchWebSocket.Open`: a failed connect leaves every modelled field unchanged, but in the source `createSocket` may already have replaced the socket before `connect` fails. After a failed re-open of an open client, `open` stays true and a later `joinChannel` writes its JOIN line to that unconnected socket. The `sent` log does not record which socket a line went to.
- `IrcText.Lower`: does not model Java's locale-dependent, full-Unicode `toLowerCase`. Only the ASCII letters A-Z are lowercased.
- Null arguments, which throw a `NullPointerException` in the constructor, are not modelled. Dafny strings cannot be null.
- The manual test harness `Test.java` opens a real connection and prints in an endless loop. It has no assertions, so it is not modelled.
