/**
 * The pure part of the chat client (PrincipalCli.java): the lines it sends,
 * how it reads a `USERS:` line, how it shows other server lines, and the
 * outcome and transcript of the bounded reconnect loop `reinicio`.
 */
module ClientCodec {
  import opened Wrappers
  import opened JavaText
  import Base64

  type byte = Base64.byte

  // ---------------------------------------------------------------------------
  // Outbound lines
  // ---------------------------------------------------------------------------

  /** The first line of every connection and reconnection. */
  function HelloLine(name: string): string {
    "USER:" + name
  }

  /** Whether `enviarMensaje` sends privately: a recipient is selected and it
      is not the client's own name. */
  predicate IsPrivate(selected: Option<string>, me: string) {
    selected.Some? && selected.value != me
  }

  /** The line `enviarMensaje` sends for a non-empty message. */
  function ChatLine(msg: string, selected: Option<string>, me: string): (line: string)
    ensures "MSGTO:" <= line <==> IsPrivate(selected, me)
    ensures "MSG:" <= line <==> !IsPrivate(selected, me)
    ensures IsPrivate(selected, me) ==>
      var n := |selected.value|;
      |line| == 7 + n + |msg| && line[6..6 + n] == selected.value && line[6 + n] == ':' && line[7 + n..] == msg
    ensures !IsPrivate(selected, me) ==> |line| == 4 + |msg| && line[4..] == msg
  {
    if IsPrivate(selected, me) then
      var line := "MSGTO:" + selected.value + ":" + msg;
      assert line[..6] == "MSGTO:" && line[3] != ':';
      line
    else
      var line := "MSG:" + msg;
      assert line[..4] == "MSG:" && line[3] != 'T';
      line
  }

  /** `enviarImagen`: the file bytes in standard, padded Base64. */
  function ImageLine(bytes: seq<byte>): (line: string)
    ensures "IMG:" <= line
    ensures Base64.Decode(line[4..]) == Some(bytes)
  {
    Base64.DecodeEncode(bytes);
    "IMG:" + Base64.Encode(bytes)
  }

  // ---------------------------------------------------------------------------
  // The transcript
  // ---------------------------------------------------------------------------

  /** One line appended to the message area (`mensajesTxt`); `Text` is its
      exact content. */
  datatype Entry =
    | FromServer(port: int, line: string)
    | Sent(msg: string, selected: Option<string>, me: string)
    | ImageSent(me: string, file: string)
    | Lost
    | ClosedByServer
    | ClosedRetrying
    | Trying(attempt: nat, max: int)
    | RetryFailed(reason: string)
    | Reconnected(port: int)
    | GaveUp(max: int)

  function Text(e: Entry): string {
    match e
    case FromServer(port, line) => "Servidor(" + Decimal(port) + "): " + line
    case Sent(msg, selected, me) =>
      if IsPrivate(selected, me) then "[Privado a " + selected.value + "] " + me + ": " + msg
      else me + ": " + msg
    case ImageSent(me, file) => me + " envió una imagen: " + file
    case Lost => "Conexión perdida. Intentando reconectar..."
    case ClosedByServer => "Conexión cerrada por el servidor."
    case ClosedRetrying => "Conexión cerrada por el servidor. Intentando reconectar..."
    case Trying(k, max) => "Intentando reconectar al servidor... (" + Decimal(k + 1) + "/" + Decimal(max) + ")"
    case RetryFailed(reason) => "Error al reconectar: " + reason
    case Reconnected(port) => "Reconexión exitosa al servidor en el puerto " + Decimal(port) + " "
    case GaveUp(max) => "No se pudo reconectar al servidor después de " + Decimal(max) + " intentos ❌"
  }

  // ---------------------------------------------------------------------------
  // Inbound lines
  // ---------------------------------------------------------------------------

  /** The entries added to the user list: those not blank after trimming, in
      order. */
  function KeepNonBlank(xs: seq<string>): (r: seq<string>)
    ensures |r| <= |xs|
    ensures forall i :: 0 <= i < |r| ==> !IsBlank(r[i])
    ensures forall x :: x in r <==> x in xs && !IsBlank(x)
    decreases |xs|
  {
    if xs == [] then []
    else if IsBlank(xs[0]) then KeepNonBlank(xs[1..])
    else [xs[0]] + KeepNonBlank(xs[1..])
  }

  lemma {:induction false} KeepAllNonBlank(xs: seq<string>)
    requires forall i :: 0 <= i < |xs| ==> !IsBlank(xs[i])
    ensures KeepNonBlank(xs) == xs
    decreases |xs|
  {
    if xs != [] {
      KeepAllNonBlank(xs[1..]);
      assert xs == [xs[0]] + xs[1..];
    }
  }

  /** The entries kept from two runs of pieces are those kept from the first
      followed by those kept from the second: order and repeats are kept. */
  lemma {:induction false} KeepNonBlankAppend(a: seq<string>, b: seq<string>)
    ensures KeepNonBlank(a + b) == KeepNonBlank(a) + KeepNonBlank(b)
    decreases |a|
  {
    if a == [] {
      assert a + b == b;
    } else {
      assert (a + b)[0] == a[0] && (a + b)[1..] == a[1..] + b;
      KeepNonBlankAppend(a[1..], b);
      if !IsBlank(a[0]) {
        assert [a[0]] + (KeepNonBlank(a[1..]) + KeepNonBlank(b)) == [a[0]] + KeepNonBlank(a[1..]) + KeepNonBlank(b);
      }
    }
  }

  lemma KeepNonBlankOne(x: string)
    ensures KeepNonBlank([x]) == if IsBlank(x) then [] else [x]
  {
    assert [x][1..] == [];
  }

  /** The user list a `USERS:` line installs: the text after the prefix split
      on `,`, blank entries dropped. */
  function UserList(line: string): (users: seq<string>)
    requires "USERS:" <= line
    ensures forall i :: 0 <= i < |users| ==> !IsBlank(users[i]) && ',' !in users[i]
    ensures forall x :: x in users <==> x in Split(line[6..], ',') && !IsBlank(x)
  {
    KeepNonBlank(Split(line[6..], ','))
  }

  /** The transcript entries a read loop adds for `lines`: every line that
      is not a `USERS:` line, shown as coming from the server. */
  function ShownLines(port: int, lines: seq<string>): seq<Entry>
    decreases |lines|
  {
    if lines == [] then []
    else
      var n := |lines| - 1;
      ShownLines(port, lines[..n]) + (if "USERS:" <= lines[n] then [] else [FromServer(port, lines[n])])
  }

  /** The user list after a read loop has consumed `lines`. */
  function UsersAfter(users: seq<string>, lines: seq<string>): seq<string>
    decreases |lines|
  {
    if lines == [] then users
    else
      var n := |lines| - 1;
      if "USERS:" <= lines[n] then UserList(lines[n]) else UsersAfter(users, lines[..n])
  }

  /** One more line read: if the state before it is the one the read loop
      prescribes for `lines[..i]`, the state after it is the one for
      `lines[..i + 1]`. */
  lemma ReadStep(port: int, users0: seq<string>, shown0: seq<Entry>, lines: seq<string>, i: nat,
                 users: seq<string>, shown: seq<Entry>, users': seq<string>, shown': seq<Entry>)
    requires i < |lines|
    requires users == UsersAfter(users0, lines[..i]) && shown == shown0 + ShownLines(port, lines[..i])
    requires "USERS:" <= lines[i] ==> users' == UserList(lines[i]) && shown' == shown
    requires !("USERS:" <= lines[i]) ==> users' == users && shown' == shown + [FromServer(port, lines[i])]
    ensures users' == UsersAfter(users0, lines[..i + 1]) && shown' == shown0 + ShownLines(port, lines[..i + 1])
  {
    UsersStep(users0, lines, i);
    ShownStep(port, shown0, lines, i);
  }

  lemma UsersStep(users0: seq<string>, lines: seq<string>, i: nat)
    requires i < |lines|
    ensures UsersAfter(users0, lines[..i + 1]) == if "USERS:" <= lines[i] then UserList(lines[i]) else UsersAfter(users0, lines[..i])
  {
    assert lines[..i + 1][..i] == lines[..i];
  }

  lemma ShownStep(port: int, shown0: seq<Entry>, lines: seq<string>, i: nat)
    requires i < |lines|
    ensures shown0 + ShownLines(port, lines[..i + 1])
      == shown0 + ShownLines(port, lines[..i]) + if "USERS:" <= lines[i] then [] else [FromServer(port, lines[i])]
  {
    assert lines[..i + 1][..i] == lines[..i];
  }

  /** The user list is the one carried by the last `USERS:` line; without
      such a line it is left as it was. */
  lemma {:induction false} UsersAfterLast(users: seq<string>, lines: seq<string>, k: nat)
    requires k < |lines| && "USERS:" <= lines[k]
    requires forall j :: k < j < |lines| ==> !("USERS:" <= lines[j])
    ensures UsersAfter(users, lines) == UserList(lines[k])
    decreases |lines|
  {
    var n := |lines| - 1;
    if k < n {
      var front := lines[..n];
      assert !("USERS:" <= lines[n]);
      assert UsersAfter(users, lines) == UsersAfter(users, front);
      assert front[k] == lines[k];
      forall j | k < j < |front| ensures !("USERS:" <= front[j]) {
        assert front[j] == lines[j];
      }
      UsersAfterLast(users, front, k);
    }
  }

  /** Without `USERS:` lines the user list stays and every line is shown,
      in order. */
  lemma {:induction false} UsersAfterNone(port: int, users: seq<string>, lines: seq<string>)
    requires forall j :: 0 <= j < |lines| ==> !("USERS:" <= lines[j])
    ensures UsersAfter(users, lines) == users
    ensures |ShownLines(port, lines)| == |lines|
    ensures forall j :: 0 <= j < |lines| ==> ShownLines(port, lines)[j] == FromServer(port, lines[j])
    decreases |lines|
  {
    if lines != [] {
      var n := |lines| - 1;
      UsersAfterNone(port, users, lines[..n]);
    }
  }

  // ---------------------------------------------------------------------------
  // reinicio
  // ---------------------------------------------------------------------------

  /** The outcome of one reconnect attempt (sleep, socket, streams, handshake):
      accepted, or refused with the exception's message. */
  datatype Attempt = Accepted | Refused(reason: string)

  /** Whether the loop reconnected, and the value of `intentos` when it left. */
  datatype Outcome = Outcome(reconnected: bool, failures: nat)

  /** The reconnect loop from the state `intentos == k`; attempt number j has
      the outcome `attempt(j)`. */
  function RetryFrom(k: nat, max: int, attempt: nat -> Attempt): (o: Outcome)
    ensures o.failures >= k
    ensures forall j :: k <= j < o.failures ==> attempt(j).Refused?
    ensures o.reconnected ==> o.failures < max && attempt(o.failures).Accepted?
    ensures !o.reconnected ==> o.failures == if k < max then max else k
    decreases max - k
  {
    if k >= max then Outcome(false, k)
    else if attempt(k).Accepted? then Outcome(true, k)
    else RetryFrom(k + 1, max, attempt)
  }

  /** The number of attempts the loop makes. */
  function AttemptsMade(o: Outcome): nat {
    if o.reconnected then o.failures + 1 else o.failures
  }

  /** At most `maxReintentos` attempts (none when it is not positive); the
      loop stops at the first accepted attempt and gives up only after
      `maxReintentos` refusals in a row. */
  lemma RetryBounds(max: int, attempt: nat -> Attempt)
    ensures var o := RetryFrom(0, max, attempt);
      && AttemptsMade(o) <= (if max > 0 then max else 0)
      && (max <= 0 ==> AttemptsMade(o) == 0 && !o.reconnected)
      && (o.reconnected <==> exists j :: 0 <= j < max && attempt(j).Accepted?)
      && (o.reconnected ==> forall j :: 0 <= j < o.failures ==> attempt(j).Refused?)
      && (!o.reconnected ==> o.failures == (if max > 0 then max else 0))
  {
    var o := RetryFrom(0, max, attempt);
    if exists j :: 0 <= j < max && attempt(j).Accepted? {
      var j :| 0 <= j < max && attempt(j).Accepted?;
      assert o.failures <= j;
    }
  }

  /** The entries the loop appends to the transcript from `intentos == k` on. */
  function RetryLog(k: nat, max: int, attempt: nat -> Attempt, port: int): seq<Entry>
    decreases max - k
  {
    if k >= max then [GaveUp(max)]
    else
      match attempt(k)
      case Accepted => [Trying(k, max), Reconnected(port)]
      case Refused(why) => [Trying(k, max), RetryFailed(why)] + RetryLog(k + 1, max, attempt, port)
  }

  lemma RetryLogStep(k: nat, max: int, attempt: nat -> Attempt, port: int)
    requires k < max && attempt(k).Refused?
    ensures RetryLog(k, max, attempt, port) == [Trying(k, max), RetryFailed(attempt(k).reason)] + RetryLog(k + 1, max, attempt, port)
  {
  }

  /** One refused attempt: its two lines, then the rest of the loop. */
  lemma RetryRefused(k: nat, max: int, attempt: nat -> Attempt, port: int, log: seq<Entry>, target: seq<Entry>)
    requires k < max && attempt(k).Refused?
    requires log + RetryLog(k, max, attempt, port) == target
    ensures log + [Trying(k, max)] + [RetryFailed(attempt(k).reason)] + RetryLog(k + 1, max, attempt, port) == target
    ensures RetryFrom(k + 1, max, attempt) == RetryFrom(k, max, attempt)
  {
    var rest := RetryLog(k + 1, max, attempt, port);
    RetryLogStep(k, max, attempt, port);
    assert log + [Trying(k, max)] + [RetryFailed(attempt(k).reason)] + rest
      == log + ([Trying(k, max), RetryFailed(attempt(k).reason)] + rest);
  }

  /** An accepted attempt ends the loop with the success line. */
  lemma RetryAccepted(k: nat, max: int, attempt: nat -> Attempt, port: int, log: seq<Entry>, target: seq<Entry>)
    requires k < max && attempt(k).Accepted?
    requires log + RetryLog(k, max, attempt, port) == target
    ensures log + [Trying(k, max)] + [Reconnected(port)] == target
    ensures RetryFrom(k, max, attempt) == Outcome(true, k)
  {
    assert RetryLog(k, max, attempt, port) == [Trying(k, max), Reconnected(port)];
  }

  /** After the last refusal only the give-up line is left. */
  lemma RetryGaveUp(k: nat, max: int, attempt: nat -> Attempt, port: int, log: seq<Entry>, target: seq<Entry>)
    requires k >= max
    requires log + RetryLog(k, max, attempt, port) == target
    ensures log + [GaveUp(max)] == target
    ensures RetryFrom(k, max, attempt) == Outcome(false, k)
  {
  }

  /** Each attempt shows one "trying" line and one result line; the log ends
      with the success line when the loop reconnected and with the give-up
      line otherwise. */
  lemma {:induction false} RetryLogShape(k: nat, max: int, attempt: nat -> Attempt, port: int)
    ensures var o := RetryFrom(k, max, attempt);
      var log := RetryLog(k, max, attempt, port);
      && |log| == 2 * (AttemptsMade(o) - k) + (if o.reconnected then 0 else 1)
      && log[|log| - 1] == (if o.reconnected then Reconnected(port) else GaveUp(max))
    decreases max - k
  {
    if k < max && attempt(k).Refused? {
      RetryLogShape(k + 1, max, attempt, port);
      RetryLogStep(k, max, attempt, port);
    }
  }

  /** Attempt number j (counting from k) is announced at position 2(j - k). */
  lemma {:induction false} RetryLogAnnounces(k: nat, max: int, attempt: nat -> Attempt, port: int, j: nat)
    requires k <= j < AttemptsMade(RetryFrom(k, max, attempt))
    ensures 2 * (j - k) < |RetryLog(k, max, attempt, port)|
    ensures RetryLog(k, max, attempt, port)[2 * (j - k)] == Trying(j, max)
    decreases max - k
  {
    if j > k {
      RetryLogAnnounces(k + 1, max, attempt, port, j);
      RetryLogStep(k, max, attempt, port);
    }
  }
}
