/** The Twitch chat client (TwitchWebSocket.java): credentials, the session
    state machine, the inbound-line handler and the message buffer.

    The WebSocket transport is not modelled. Each line the client writes to
    it is appended to the ghost log `sent`. Whether a connection attempt
    succeeds is a parameter of `Open`. */
module Twitch {
  import opened IrcText

  /** The result of `Open`. The source throws a RuntimeException on failure. */
  datatype OpenOutcome = Opened | ConnectionFailed

  /** The result of `JoinChannel`. The source only logs the two refusals. */
  datatype JoinOutcome = Joined | AlreadyJoined(channel: string) | NotOpen

  class TwitchWebSocket {
    // Credentials. The source assigns them only in the constructor.
    const username: string
    const oauthToken: string

    // Session state.
    var open: bool
    var inChannel: bool
    var connectedChannel: Option<string>     // null in the source until a join
    var channelMsgSeparator: Option<string>  // null in the source until a join

    /** Received chat payloads, oldest first. */
    var buffer: seq<string>

    /** Every line written to the transport, in order. */
    ghost var sent: seq<string>
    /** The line handler has been registered with a transport. */
    ghost var listening: bool

    ghost predicate Valid()
      reads this
    {
      && StartsWith(oauthToken, OAUTH_PREFIX)
      && IsLowerAscii(username)
      && (inChannel <==> connectedChannel.Some?)
      && (inChannel <==> channelMsgSeparator.Some?)
      && (connectedChannel.Some? ==> channelMsgSeparator == Some(Separator(connectedChannel.value)))
      && (open ==> listening)
      && (inChannel ==> listening)
    }

    /** Normalise the credentials. Nothing is sent. */
    constructor (user: string, token: string)
      ensures Valid()
      ensures username == Lower(user) && oauthToken == NormalizeToken(token)
      ensures !open && !inChannel && connectedChannel.None? && channelMsgSeparator.None?
      ensures buffer == [] && sent == [] && !listening
    {
      username := Lower(user);
      oauthToken := NormalizeToken(token);
      open := false;
      inChannel := false;
      connectedChannel := None;
      channelMsgSeparator := None;
      buffer := [];
      sent := [];
      listening := false;
    }

    /** Connect, then authenticate and register the line handler.
        `connects` says whether the transport's connect succeeds. A failed
        attempt leaves every modelled field and the sent log as they were
        and is reported as ConnectionFailed. */
    method Open(connects: bool) returns (outcome: OpenOutcome)
      requires Valid()
      modifies this`open, this`sent, this`listening
      ensures Valid()
      ensures outcome == Opened <==> connects
      ensures connects ==> open && listening
      ensures connects ==> sent == old(sent) + [PASS_PREFIX + oauthToken, NICK_PREFIX + username]
      ensures !connects ==> open == old(open) && listening == old(listening) && sent == old(sent)
    {
      if !connects {
        return ConnectionFailed;
      }
      open := true;
      Authenticate();
      listening := true;
      outcome := Opened;
    }

    /** Send the password line, then the nickname line. */
    method Authenticate()
      modifies this`sent
      ensures sent == old(sent) + [PASS_PREFIX + oauthToken, NICK_PREFIX + username]
    {
      sent := sent + [PASS_PREFIX + oauthToken];
      sent := sent + [NICK_PREFIX + username];
    }

    /** True exactly when a message is buffered. */
    method HasMoreMessages() returns (more: bool)
      ensures more <==> |buffer| > 0
    {
      more := buffer != [];
    }

    /** Remove and return the oldest buffered message; `None` (the source's
        null) when the buffer is empty. No message is lost or duplicated. */
    method GetNextMessage() returns (message: Option<string>)
      modifies this`buffer
      ensures old(buffer) == [] ==> message.None? && buffer == []
      ensures old(buffer) != [] ==> message == Some(old(buffer)[0]) && buffer == old(buffer)[1..]
      ensures old(buffer) == (if message.Some? then [message.value] else []) + buffer
    {
      if buffer == [] {
        message := None;
      } else {
        message := Some(buffer[0]);
        buffer := buffer[1..];
      }
    }

    /** Join `channelName` when open and not yet in a channel. Otherwise
        nothing changes. A joined session reports AlreadyJoined even after a
        disconnect, because that test comes before the open test. */
    method JoinChannel(channelName: string) returns (outcome: JoinOutcome)
      requires Valid()
      modifies this`inChannel, this`connectedChannel, this`channelMsgSeparator, this`sent
      ensures Valid()
      ensures outcome == Joined <==> old(open && !inChannel)
      ensures outcome == Joined ==>
        && inChannel
        && connectedChannel == Some(channelName)
        && channelMsgSeparator == Some(Separator(channelName))
        && sent == old(sent) + [JOIN_PREFIX + channelName]
      ensures outcome.AlreadyJoined? <==> old(inChannel)
      ensures outcome.AlreadyJoined? ==> outcome.channel == old(connectedChannel).value
      ensures outcome == NotOpen <==> !old(open) && !old(inChannel)
      ensures outcome != Joined ==>
        && inChannel == old(inChannel)
        && connectedChannel == old(connectedChannel)
        && channelMsgSeparator == old(channelMsgSeparator)
        && sent == old(sent)
    {
      if open && !inChannel {
        sent := sent + [JOIN_PREFIX + channelName];
        connectedChannel := Some(channelName);
        channelMsgSeparator := Some(Separator(channelName));
        inChannel := true;
        outcome := Joined;
      } else if inChannel {
        outcome := AlreadyJoined(connectedChannel.value);
      } else {
        outcome := NotOpen;
      }
    }

    /** The transport reports that the connection closed. Only `open`
        changes: the channel and the buffered messages stay. */
    method OnDisconnected()
      requires Valid() && listening
      modifies this`open
      ensures Valid() && !open
    {
      open := false;
    }

    /** The transport delivers one line. A PING line gets the fixed PONG
        reply; in a channel, a line holding the channel's separator has
        the text after its first occurrence buffered; any other line is
        ignored. */
    method OnTextMessage(message: string)
      requires Valid() && listening
      modifies this`buffer, this`sent
      ensures Valid()
      ensures match Classify(message, channelMsgSeparator)
        case KeepAlive => sent == old(sent) + [PONG_RESPONSE] && buffer == old(buffer)
        case Chat(text) => buffer == old(buffer) + [text] && sent == old(sent)
        case Noise => buffer == old(buffer) && sent == old(sent)
    {
      if StartsWith(message, PING_PREFIX) {
        sent := sent + [PONG_RESPONSE];
      } else if inChannel {
        var separator := channelMsgSeparator.value;
        var index := IndexOf(message, separator);
        if index.Some? {
          buffer := buffer + [message[index.value + |separator|..]];
        }
      }
    }
  }

  // A session as a caller drives it, in three steps. The checks in these
  // methods follow from the contracts of the class alone.

  /** A new client holds no message and refuses to join before it is open.
      Opening authenticates with PASS then NICK; the first join succeeds and
      any later join, even of the same channel, is refused. */
  method HandshakeScenario(user: string, token: string, channel: string, other: string)
    returns (client: TwitchWebSocket)
    ensures client.Valid() && client.listening && client.buffer == []
    ensures client.channelMsgSeparator == Some(Separator(channel))
    ensures client.connectedChannel == Some(channel)
  {
    client := new TwitchWebSocket(user, token);
    var more := client.HasMoreMessages();
    assert !more;
    var joined := client.JoinChannel(channel);
    assert joined == NotOpen;

    var connected := client.Open(true);
    assert client.sent == [PASS_PREFIX + NormalizeToken(token), NICK_PREFIX + Lower(user)];
    joined := client.JoinChannel(channel);
    assert joined == Joined;
    joined := client.JoinChannel(other);
    assert joined == AlreadyJoined(channel);
    joined := client.JoinChannel(channel);
    assert joined == AlreadyJoined(channel);
    assert client.sent == [PASS_PREFIX + NormalizeToken(token), NICK_PREFIX + Lower(user), JOIN_PREFIX + channel];
  }

  /** Chat lines of the joined channel are buffered in arrival order; a PING
      in between only produces a PONG. */
  method ReceiveScenario(client: TwitchWebSocket, channel: string, sender: string, ping: string, a: string, b: string)
    requires client.Valid() && client.listening
    requires client.channelMsgSeparator == Some(Separator(channel)) && client.buffer == []
    requires 'P' !in sender && StartsWith(ping, PING_PREFIX)
    modifies client
    ensures client.buffer == [a, b]
  {
    var separator := Separator(channel);
    var lineA, lineB := sender + separator + a, sender + separator + b;
    ChatLineOfChannel(sender, channel, a);
    ChatLineOfChannel(sender, channel, b);
    assert Classify(ping, Some(separator)) == KeepAlive;

    client.OnTextMessage(lineA);
    assert client.buffer == [a];
    ghost var sentBefore := client.sent;
    client.OnTextMessage(ping);
    assert client.sent == sentBefore + [PONG_RESPONSE] && client.buffer == [a];
    client.OnTextMessage(lineB);
  }

  /** After a disconnect the session still counts as joined, and draining
      yields the buffered messages in order, then None. */
  method DrainScenario(client: TwitchWebSocket, channel: string, other: string, a: string, b: string)
    requires client.Valid() && client.listening && client.connectedChannel == Some(channel)
    requires client.buffer == [a, b]
    modifies client
    ensures client.buffer == [] && !client.open && client.connectedChannel == Some(channel)
  {
    client.OnDisconnected();
    var joined := client.JoinChannel(other);
    assert joined == AlreadyJoined(channel);
    var m1 := client.GetNextMessage();
    var m2 := client.GetNextMessage();
    var m3 := client.GetNextMessage();
    assert m1 == Some(a) && m2 == Some(b) && m3 == None;
  }
}
