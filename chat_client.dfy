/**
 * The chat client window (PrincipalCli) as a state machine: the username,
 * the current socket with its writer, the user list, the message transcript
 * (as `Entry` values, each standing for the line `Text` gives) and the
 * dialogs shown. Each method is one button or one step of a reader
 * thread.
 */
module Client {
  import opened Wrappers
  import opened JavaText
  import opened ClientCodec

  /** One socket with its writer: the port, whether the socket is still open,
      and every line written to it. */
  datatype Channel = Channel(port: int, open: bool, sent: seq<string>)

  /** How a read loop ended: `readLine` returned null, or it threw. */
  datatype Ending = EndOfStream | ReadError

  /** The read loop started by `conectar`, or the one `escucharServidor`
      starts after a reconnection. */
  datatype Reader = FirstReader | RestartedReader

  /** What the file chooser and `readAllBytes` yield. */
  datatype Pick = Cancelled | Unreadable(reason: string) | Chosen(name: string, bytes: seq<byte>)

  const NeedName: string := "Debe ingresar un nombre de usuario"
  const NotConnected: string := "No estás conectado a ningún servidor"

  /** A usable name: present and not blank after trimming. */
  predicate HasName(name: Option<string>) {
    name.Some? && !IsBlank(name.value)
  }

  /** The channel after `socket.close()`. */
  function Closed(c: Option<Channel>): Option<Channel> {
    match c
    case None => None
    case Some(ch) => Some(ch.(open := false))
  }

  /** A channel just opened to `port`, whose first line is the handshake. */
  function Opened(port: int, name: string): Channel {
    Channel(port, true, [HelloLine(name)])
  }

  function Appended(c: Option<Channel>, line: string): Option<Channel>
    requires c.Some?
  {
    Some(c.value.(sent := c.value.sent + [line]))
  }

  class ChatClient {
    var username: Option<string>
    var channel: Option<Channel>
    var users: seq<string>
    var transcript: seq<Entry>
    var dialogs: seq<string>

    /** A writer exists only once a usable name has been chosen. */
    ghost predicate Valid()
      reads this
    {
      channel.Some? ==> HasName(username)
    }

    constructor ()
      ensures username == None && channel == None && users == [] && transcript == [] && dialogs == []
      ensures Valid()
    {
      username := None;
      channel := None;
      users := [];
      transcript := [];
      dialogs := [];
    }

    /** `bConectarActionPerformed`: asks for a name while there is no usable
        one (`typed` is the dialog's answer) and refuses to connect, with
        nothing sent, unless the name is usable. */
    method ConnectPressed(port: int, typed: Option<string>, outcome: Attempt)
      requires Valid()
      modifies this`username, this`channel, this`dialogs
      ensures Valid()
      ensures username == if HasName(old(username)) then old(username) else typed
      ensures !HasName(username) ==> channel == old(channel) && dialogs == old(dialogs) + [NeedName]
      ensures HasName(username) && outcome.Accepted? ==>
        channel == Some(Opened(port, username.value)) && dialogs == old(dialogs)
      ensures HasName(username) && outcome.Refused? ==>
        channel == Closed(old(channel)) && dialogs == old(dialogs) + ["Error conectando: " + outcome.reason]
    {
      if username.None? || IsBlank(username.value) {
        username := typed;
        if username.None? || IsBlank(username.value) {
          dialogs := dialogs + [NeedName];
          return;
        }
      }
      Connect(port, outcome);
    }

    /** `conectar`: closes the previous socket, opens one to `port` and sends
        the handshake first; a refused connection leaves the old, closed
        writer in place and shows the error. */
    method Connect(port: int, outcome: Attempt)
      requires HasName(username)
      modifies this`channel, this`dialogs
      ensures Valid()
      ensures outcome.Accepted? ==> channel == Some(Opened(port, username.value)) && dialogs == old(dialogs)
      ensures outcome.Refused? ==> channel == Closed(old(channel)) && dialogs == old(dialogs) + ["Error conectando: " + outcome.reason]
    {
      if channel.Some? && channel.value.open {
        channel := Closed(channel);
      }
      match outcome {
        case Accepted =>
          channel := Some(Opened(port, username.value));
        case Refused(why) =>
          dialogs := dialogs + ["Error conectando: " + why];
      }
    }

    /** `enviarMensaje`: without a writer only the dialog appears; a message
        blank after trimming sends nothing; otherwise one `MSG:` or `MSGTO:`
        line is written and echoed to the transcript. */
    method SendText(typed: string, selected: Option<string>)
      requires Valid()
      modifies this`channel, this`transcript, this`dialogs
      ensures Valid()
      ensures old(channel).None? ==>
        channel == old(channel) && transcript == old(transcript) && dialogs == old(dialogs) + [NotConnected]
      ensures old(channel).Some? && IsBlank(typed) ==>
        channel == old(channel) && transcript == old(transcript) && dialogs == old(dialogs)
      ensures old(channel).Some? && !IsBlank(typed) ==>
        var msg := Trim(typed);
        && channel == Appended(old(channel), ChatLine(msg, selected, username.value))
        && transcript == old(transcript) + [Sent(msg, selected, username.value)]
        && dialogs == old(dialogs)
    {
      if channel.None? {
        dialogs := dialogs + [NotConnected];
        return;
      }
      var msg := Trim(typed);
      if msg != [] {
        var line := ChatLine(msg, selected, username.value);
        channel := Appended(channel, line);
        transcript := transcript + [Sent(msg, selected, username.value)];
      }
    }

    /** `enviarImagen`: the chosen file's bytes go out as one `IMG:` line. */
    method SendImage(pick: Pick)
      requires Valid()
      modifies this`channel, this`transcript, this`dialogs
      ensures Valid()
      ensures old(channel).None? ==>
        channel == old(channel) && transcript == old(transcript) && dialogs == old(dialogs) + [NotConnected]
      ensures old(channel).Some? && pick.Cancelled? ==>
        channel == old(channel) && transcript == old(transcript) && dialogs == old(dialogs)
      ensures old(channel).Some? && pick.Unreadable? ==>
        channel == old(channel) && transcript == old(transcript) && dialogs == old(dialogs) + ["Error leyendo imagen: " + pick.reason]
      ensures old(channel).Some? && pick.Chosen? ==>
        && channel == Appended(old(channel), ImageLine(pick.bytes))
        && transcript == old(transcript) + [ImageSent(username.value, pick.name)]
        && dialogs == old(dialogs)
    {
      if channel.None? {
        dialogs := dialogs + [NotConnected];
        return;
      }
      match pick {
        case Cancelled =>
        case Unreadable(why) =>
          dialogs := dialogs + ["Error leyendo imagen: " + why];
        case Chosen(name, bytes) =>
          channel := Appended(channel, ImageLine(bytes));
          transcript := transcript + [ImageSent(username.value, name)];
      }
    }

    /** One line read by a reader thread of the connection to `port`. */
    method Receive(port: int, line: string)
      modifies this`users, this`transcript
      ensures "USERS:" <= line ==> users == UserList(line) && transcript == old(transcript)
      ensures !("USERS:" <= line) ==> users == old(users) && transcript == old(transcript) + [FromServer(port, line)]
    {
      if "USERS:" <= line {
        users := UserList(line);
      } else {
        transcript := transcript + [FromServer(port, line)];
      }
    }

    /** A read loop consuming `lines` before its stream ends. */
    method Listen(port: int, lines: seq<string>)
      modifies this`users, this`transcript
      ensures users == UsersAfter(old(users), lines)
      ensures transcript == old(transcript) + ShownLines(port, lines)
    {
      ghost var users0, transcript0 := users, transcript;
      var i := 0;
      while i < |lines|
        invariant 0 <= i <= |lines|
        invariant users == UsersAfter(users0, lines[..i])
        invariant transcript == transcript0 + ShownLines(port, lines[..i])
      {
        ghost var before, shown := users, transcript;
        Receive(port, lines[i]);
        ReadStep(port, users0, transcript0, lines, i, before, shown, users, transcript);
        i := i + 1;
      }
      assert lines[..|lines|] == lines;
    }

    /** `reinicio`: at most `max` attempts, `attempt(k)` deciding attempt k; a
        successful one opens a new writer whose first line is the handshake. */
    method Reconnect(port: int, max: int, attempt: nat -> Attempt) returns (ok: bool)
      requires HasName(username)
      modifies this`channel, this`transcript
      ensures Valid()
      ensures ok == RetryFrom(0, max, attempt).reconnected
      ensures transcript == old(transcript) + RetryLog(0, max, attempt, port)
      ensures ok ==> channel == Some(Opened(port, username.value))
      ensures !ok ==> channel == old(channel)
    {
      var intentos: nat := 0;
      while intentos < max
        invariant intentos == 0 || intentos <= max
        invariant RetryFrom(intentos, max, attempt) == RetryFrom(0, max, attempt)
        invariant transcript + RetryLog(intentos, max, attempt, port) == old(transcript) + RetryLog(0, max, attempt, port)
        invariant channel == old(channel)
        decreases max - intentos
      {
        var trying := Trying(intentos, max);
        match attempt(intentos) {
          case Accepted =>
            RetryAccepted(intentos, max, attempt, port, transcript, old(transcript) + RetryLog(0, max, attempt, port));
            transcript := transcript + [trying];
            channel := Some(Opened(port, username.value));
            transcript := transcript + [Reconnected(port)];
            return true;
          case Refused(why) =>
            RetryRefused(intentos, max, attempt, port, transcript, old(transcript) + RetryLog(0, max, attempt, port));
            transcript := transcript + [trying];
            intentos := intentos + 1;
            transcript := transcript + [RetryFailed(why)];
        }
      }
      RetryGaveUp(intentos, max, attempt, port, transcript, old(transcript) + RetryLog(0, max, attempt, port));
      transcript := transcript + [GaveUp(max)];
      return false;
    }

    /** The end of a read loop: a closed stream always reconnects; a read
        error reconnects only in a restarted reader. */
    method ConnectionLost(port: int, ending: Ending, reader: Reader, max: int, attempt: nat -> Attempt)
      requires HasName(username)
      modifies this`channel, this`transcript
      ensures Valid()
      ensures ending.ReadError? && reader.FirstReader? ==>
        transcript == old(transcript) + [ClosedByServer] && channel == old(channel)
      ensures ending.EndOfStream? ==>
        transcript == old(transcript) + [Lost] + RetryLog(0, max, attempt, port)
      ensures ending.ReadError? && reader.RestartedReader? ==>
        transcript == old(transcript) + [ClosedRetrying] + RetryLog(0, max, attempt, port)
      ensures !(ending.ReadError? && reader.FirstReader?) ==>
        channel == if RetryFrom(0, max, attempt).reconnected then Some(Opened(port, username.value)) else old(channel)
    {
      if ending.ReadError? && reader.FirstReader? {
        transcript := transcript + [ClosedByServer];
        return;
      }
      transcript := transcript + [if ending.EndOfStream? then Lost else ClosedRetrying];
      var ok := Reconnect(port, max, attempt);
    }
  }
}
