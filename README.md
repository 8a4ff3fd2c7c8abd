# Multi-port TCP chat relay, modelled in Dafny

This project models the core of a multi-port TCP chat relay written in Java
(Swing). The server (`PrincipalSrv`) runs one listener per port
(`ServidorPuerto`). Each listener keeps a registry of connected sessions
(`clientes`) and handles a line protocol:

- `USER:<name>` is the handshake, effective only as the first line;
- `MSG:<text>` is broadcast to every session as `MSG:<user>|<HH:mm:ss>|<text>`;
- `MSGTO:<user>:<text>` is delivered as `[Privado de <sender>]: <text>` to the
  first session carrying that name;
- `IMG:<base64>` is decoded, stored under a generated file name and broadcast
  as `IMG:<user>|<HH:mm:ss>|<base64>`;
- joins and leaves are announced with `SYS:<HH:mm:ss>|<text>` followed by
  `USERS:<comma-separated distinct, sorted names>`.

The client (`PrincipalCli`) asks for a username, connects with a `USER:`
handshake, sends `MSG:`/`MSGTO:`/`IMG:` lines, reads `USERS:` lines into its
user list, shows every other line, and on a lost connection retries a bounded
number of times (`reinicio`).

Modules:

- `Wrappers`: `Option`.
- `JavaText`: the `java.lang.String` behaviour the code relies on. It covers
  `trim`, `String.join`, `split(",")`, `split(":", 3)`, `compareTo`, the
  `distinct().sorted()` stream and `Integer.toString`.
- `Base64`: the basic Base64 alphabet of section 4 of RFC 4648. The encoder
  is `Base64.getEncoder()`, always padded. The decoder is the JDK's basic
  decoder: padding is optional, and a character outside the alphabet is an
  error.
- `ServerCodec`: the pure helpers of the listener. These are username
  sanitising, prefix dispatch, outbound line formats, magic-byte sniffing and
  image file naming.
- `Registry`: the session registry as a sequence of `Session(id, user,
  outbox)` values, and the effect of every listener event on it.
- `Server`: the classes `PortListener` (`ServidorPuerto`) and `PortManager`
  (the `servidores` table of `PrincipalSrv`). Their methods are proved against
  the `Registry` functions.
- `ClientCodec`: the client's line construction, the `USERS:` parsing and the
  outcome and transcript of the reconnect loop.
- `Client`: the class `ChatClient` (`PrincipalCli`) with its username,
  writer, user list, transcript and dialogs. The transcript (`mensajesTxt`)
  is a list of `ClientCodec.Entry` values. An entry says what kind of line
  was appended, and `ClientCodec.Text` gives that line's exact text, for
  example `Servidor(<port>): <line>` for a `FromServer` entry.
- `Protocol`: lemmas that join the two sides. They show what the client
  sends as the server reads it, and what the server sends as the client reads
  it.

The environment comes in as parameters:

- the clock and the file time stamp: `Tick`, and a `tick: nat -> Tick` per
  inbound line;
- whether a file write succeeds: `Tick.writable`;
- the identity hash behind the `Anon_<hex>` alias: a hex string;
- the outcome of each connection attempt: `Attempt`, and
  `attempt: nat -> Attempt`;
- the file chosen for an image: `Pick`;
- the image files on disk for each port when the server window starts: a map from port to directory contents;
- the configured retry count: `max`.

Strings are sequences of code points and bytes are `bv8`.

The model follows the code as written, including where the code differs from
the intended design of the system:

- a `MSG:` broadcast is also written to its sender;
- there is no WEBP signature;
- the JPEG test checks two bytes, not three;
- `limpiarUsuario` keeps `:` and `,` in names;
- the client does not suppress its own echoed messages.

`Protocol.ColonInRecipient` and `Protocol.CommaInName` show what a kept `:` or
`,` does to private messages and to the user list.

## Model

| member | source | states |
|---|---|---|
| JavaText.Trim | src/main/java/org/vinni/servidor/gui/PrincipalSrv.java:285-286 | the trimmed string is no longer than the input, is empty exactly when every character is at most U+0020, and starts and ends with a character above U+0020 |
| JavaText.SplitLimit | src/main/java/org/vinni/servidor/gui/PrincipalSrv.java:190 | `split` with a limit gives between one and `limit` pieces that join back to the line; every piece but the last is separator-free, and the last holds a separator only when the limit is reached |
| JavaText.SplitLimitAfterPiece | src/main/java/org/vinni/servidor/gui/PrincipalSrv.java:190 | a separator-free leading piece is split off as the first piece, and the rest is split with the limit lowered by one |
| JavaText.Split | src/main/java/org/vinni/cliente/gui/PrincipalCli.java:119 | `split(",")`: the pieces hold no separator; a string without the separator is its own only piece; otherwise the pieces are those between separators, in order, with the trailing empty pieces dropped |
| JavaText.SplitAllJoin | src/main/java/org/vinni/servidor/gui/PrincipalSrv.java:219 | splitting the comma-join of comma-free pieces gives the pieces back |
| JavaText.SortedDistinct | src/main/java/org/vinni/servidor/gui/PrincipalSrv.java:292 | `distinct().sorted()` yields a strictly ascending list (in `compareTo` order) with exactly the members of the input |
| JavaText.AscendingUnique | src/main/java/org/vinni/servidor/gui/PrincipalSrv.java:292 | two strictly ascending lists with the same members are equal, so the sorted distinct list is unique |
| JavaText.BeforeTotal | src/main/java/org/vinni/servidor/gui/PrincipalSrv.java:292 | `compareTo` orders any two different strings one way or the other |
| JavaText.BeforeTransitive | src/main/java/org/vinni/servidor/gui/PrincipalSrv.java:292 | `compareTo` order is transitive |
| Base64.Encode | src/main/java/org/vinni/cliente/gui/PrincipalCli.java:233 | the encoding uses only the Base64 alphabet and `=` |
| Base64.Decode | src/main/java/org/vinni/servidor/gui/PrincipalSrv.java:251 | the JDK basic decoder accepts only alphabet characters and `=`, never a lone final character, and `=` only as the last one or two characters of a length divisible by four; an accepted input of n characters yields between 3n/4-2 and 3n/4 bytes |
| Base64.DecodeEncode | src/main/java/org/vinni/servidor/gui/PrincipalSrv.java:251 | the server's decoder gives back exactly the bytes the client's encoder encoded, for every byte sequence |
| ServerCodec.Sanitize | src/main/java/org/vinni/servidor/gui/PrincipalSrv.java:284-289 | a blank name becomes "Usuario"; otherwise the result has the trimmed name's characters, cut to 32, with each of `\r \n \t \|` replaced one-for-one by `_` and every other character kept; it is never blank, and is 1 to 32 characters long with none of those four characters |
| ServerCodec.SanitizeFixedPoint | src/main/java/org/vinni/servidor/gui/PrincipalSrv.java:284-289 | sanitising returns a name unchanged exactly when it is non-empty, trimmed, at most 32 characters and free of `\r \n \t \|` |
| ServerCodec.Handshake | src/main/java/org/vinni/servidor/gui/PrincipalSrv.java:171-175 | a `USER:` first line names the session by the sanitised text after the prefix, a 1 to 32 character non-blank name; any other first line, or none, leaves the alias |
| ServerCodec.Classify | src/main/java/org/vinni/servidor/gui/PrincipalSrv.java:181-204 | a line is a chat exactly when it starts with `MSG:`, an image exactly when it starts with `IMG:`, a whisper only when it starts with `MSGTO:` and splits into three pieces, and is ignored in every other case |
| ServerCodec.HelloIsIgnored | src/main/java/org/vinni/servidor/gui/PrincipalSrv.java:181-204 | a `USER:` line reaching the dispatch matches no branch |
| ServerCodec.WhisperParts | src/main/java/org/vinni/servidor/gui/PrincipalSrv.java:189-195 | for a colon-free recipient, `MSGTO:<to>:<text>` is a whisper to the trimmed recipient with the trimmed text, colons in the text kept |
| ServerCodec.WhisperWithoutText | src/main/java/org/vinni/servidor/gui/PrincipalSrv.java:190-191 | `MSGTO:<to>` without a second colon splits into two pieces and does nothing |
| ServerCodec.BroadcastFields | src/main/java/org/vinni/servidor/gui/PrincipalSrv.java:188 | when sender and time hold no `\|`, splitting a `MSG:` or `IMG:` broadcast at its first two bars recovers sender, time and payload |
| ServerCodec.DetectExtension | src/main/java/org/vinni/servidor/gui/PrincipalSrv.java:265-271 | the extension is one of png, jpg, gif, bmp, bin; each of the first four is chosen exactly when its own signature and length bound hold; the empty array is bin |
| ServerCodec.SafeName | src/main/java/org/vinni/servidor/gui/PrincipalSrv.java:253 | the file-name user part has the user's length, only `[A-Za-z0-9_.-]` characters, keeps every allowed character and replaces each other one by `_` |
| ServerCodec.Overwrite | src/main/java/org/vinni/servidor/gui/PrincipalSrv.java:257 | writing without truncation puts the new bytes at the start of the file and keeps the tail of a longer existing file |
| ServerCodec.StoredImage | src/main/java/org/vinni/servidor/gui/PrincipalSrv.java:249-258 | a decodable payload that can be written lands in `<stamp>_<safe user>.<ext>`, which is the name returned; the file starts with the decoded bytes and is exactly them when new; no other file changes |
| ServerCodec.FailedImage | src/main/java/org/vinni/servidor/gui/PrincipalSrv.java:259-262 | an undecodable payload or a failed write returns "(error)" and stores nothing |
| Registry.Roster | src/main/java/org/vinni/servidor/gui/PrincipalSrv.java:291-293 | the user list is strictly ascending and holds exactly the names of the registered sessions |
| Registry.RosterDistinct | src/main/java/org/vinni/servidor/gui/PrincipalSrv.java:292 | no name appears twice in the user list |
| Registry.RosterOrderIndependent | src/main/java/org/vinni/servidor/gui/PrincipalSrv.java:291-293 | registries with the same names give the same user list, whatever order the map is traversed in |
| Registry.Post | src/main/java/org/vinni/servidor/gui/PrincipalSrv.java:236-242 | a broadcast appends the line to every session's output and changes nothing else |
| Registry.FirstNamed | src/main/java/org/vinni/servidor/gui/PrincipalSrv.java:227-234 | the search finds the first session carrying the name, or reports that none does |
| Registry.DeliverReachesOne | src/main/java/org/vinni/servidor/gui/PrincipalSrv.java:227-234 | a private send writes exactly one line when some session carries the name, and none otherwise; the receiver is the first such session; no other output and no name changes |
| Registry.Rename | src/main/java/org/vinni/servidor/gui/PrincipalSrv.java:174 | the session with the given id gets the new name and every other session stays as it was |
| Registry.Without | src/main/java/org/vinni/servidor/gui/PrincipalSrv.java:208 | removing a session keeps exactly the sessions with other ids, and keeps ids distinct |
| Registry.WithoutNames | src/main/java/org/vinni/servidor/gui/PrincipalSrv.java:208 | after a removal the names present are exactly those of the other sessions |
| Registry.BroadcastReachesAll | src/main/java/org/vinni/servidor/gui/PrincipalSrv.java:183-203 | a `MSG:` line reaches every session, the sender included, as `MSG:<user>\|<time>\|<trimmed text>`; an `IMG:` line reaches every session with the payload as received; each writes one line per session |
| Registry.IgnoredWritesNothing | src/main/java/org/vinni/servidor/gui/PrincipalSrv.java:181-204 | a line with no recognised prefix changes neither the outputs nor the image directory |
| Registry.EffectExtends | src/main/java/org/vinni/servidor/gui/PrincipalSrv.java:181-204 | no inbound line changes a session's name or id, or takes back output |
| Registry.ReplayExtends | src/main/java/org/vinni/servidor/gui/PrincipalSrv.java:181-205 | the whole read loop keeps every name and id fixed after the handshake and only appends output |
| Registry.NamedByHandshake | src/main/java/org/vinni/servidor/gui/PrincipalSrv.java:171-175 | after the handshake the session carries the sanitised name of a `USER:` first line, or keeps its alias; no other session and no output changes |
| Registry.AnnounceLines | src/main/java/org/vinni/servidor/gui/PrincipalSrv.java:178-179 | every registered session receives the `SYS:` line and then the `USERS:` line of the names registered at that moment |
| Registry.LeaveRemoves | src/main/java/org/vinni/servidor/gui/PrincipalSrv.java:207-213 | after a leave the session is gone, ids stay distinct, and the last line each remaining session receives is the user list of exactly the other sessions' names |
| Server.PortListener.constructor | src/main/java/org/vinni/servidor/gui/PrincipalSrv.java:121-135 | a new listener is active with an empty registry, keeping the port's existing image files |
| Server.PortListener.Accept | src/main/java/org/vinni/servidor/gui/PrincipalSrv.java:144-150 | while active, a new session with a fresh id and the alias `Anon_<hex>` is appended to the registry; otherwise nothing happens |
| Server.PortListener.Broadcast | src/main/java/org/vinni/servidor/gui/PrincipalSrv.java:236-242 | the loop over the registry leaves it equal to `Post` of the line |
| Server.PortListener.SendPrivate | src/main/java/org/vinni/servidor/gui/PrincipalSrv.java:227-234 | the loop stops at the first session carrying the name, leaving the registry equal to `Deliver` |
| Server.PortListener.BroadcastSystem | src/main/java/org/vinni/servidor/gui/PrincipalSrv.java:244-247 | every session receives `SYS:<time>\|<text>` |
| Server.PortListener.BroadcastRoster | src/main/java/org/vinni/servidor/gui/PrincipalSrv.java:218-225 | every session receives `USERS:` followed by the comma-join of the current user list |
| Server.PortListener.SaveImage | src/main/java/org/vinni/servidor/gui/PrincipalSrv.java:249-263 | the returned name and the new image directory are those of `SavedName` and `StoreImage` |
| Server.PortListener.HandleLine | src/main/java/org/vinni/servidor/gui/PrincipalSrv.java:181-204 | the prefix dispatch leaves registry and image directory as `Effect` and `ImageEffect` prescribe |
| Server.PortListener.Join | src/main/java/org/vinni/servidor/gui/PrincipalSrv.java:166-180 | the session is named by the handshake, then the join is announced; the returned name is the one used for the rest of the session |
| Server.PortListener.Leave | src/main/java/org/vinni/servidor/gui/PrincipalSrv.java:207-214 | the session is removed before the leave and the new user list are announced |
| Server.PortListener.ReadLoop | src/main/java/org/vinni/servidor/gui/PrincipalSrv.java:181-205 | the read loop sends every line, the first one included, through the dispatch in order, leaving registry and image directory as `Replay` and `ReplayImages` prescribe |
| Server.PortListener.Serve | src/main/java/org/vinni/servidor/gui/PrincipalSrv.java:166-215 | a session's whole life is handshake, join, every line (the first included) through the dispatch, then leave, as `Joined`, `Replay` and `Left` prescribe |
| Server.PortListener.CloseAll | src/main/java/org/vinni/servidor/gui/PrincipalSrv.java:303-310 | the registry is empty afterwards |
| Server.PortListener.Stop | src/main/java/org/vinni/servidor/gui/PrincipalSrv.java:295-301 | the listener is inactive with an empty registry, so stopping twice has the same effect as once |
| Server.PortManager.constructor | src/main/java/org/vinni/servidor/gui/PrincipalSrv.java:23 | the port table starts empty with no restart scheduled, over the image directories already on disk |
| Server.PortManager.Start | src/main/java/org/vinni/servidor/gui/PrincipalSrv.java:59-66 | starting a port that has a listener changes nothing; otherwise a new active, empty listener for that port is added, over the files its image directory holds, and no other entry changes |
| Server.PortManager.Stop | src/main/java/org/vinni/servidor/gui/PrincipalSrv.java:68-89 | the entry is removed; only when there was one is its listener stopped, its image files kept on disk for the port, and a restart scheduled, so a second stop does nothing |
| Server.PortManager.FireRestart | src/main/java/org/vinni/servidor/gui/PrincipalSrv.java:75-87 | the earliest scheduled restart is removed and starts its port over that port's image directory, which is a no-op when the port already has a listener |
| ClientCodec.ChatLine | src/main/java/org/vinni/cliente/gui/PrincipalCli.java:203-214 | the line is `MSGTO:` exactly when a recipient other than the own name is selected, and then holds recipient, colon and text; otherwise it is `MSG:` followed by the text |
| ClientCodec.ImageLine | src/main/java/org/vinni/cliente/gui/PrincipalCli.java:232-234 | the image line starts with `IMG:` and its payload decodes to the file's bytes |
| ClientCodec.KeepNonBlank | src/main/java/org/vinni/cliente/gui/PrincipalCli.java:122-126 | the entries kept are exactly the non-blank ones |
| ClientCodec.KeepNonBlankAppend | src/main/java/org/vinni/cliente/gui/PrincipalCli.java:122-126 | entries are kept in array order with their repeats: what is kept from two runs of pieces is what is kept from the first followed by what is kept from the second |
| ClientCodec.KeepNonBlankOne | src/main/java/org/vinni/cliente/gui/PrincipalCli.java:123-124 | a single piece is kept exactly when it is not blank |
| ClientCodec.UserList | src/main/java/org/vinni/cliente/gui/PrincipalCli.java:117-126 | the user list a `USERS:` line installs holds exactly the non-blank pieces of the text after the prefix split on `,`; no entry is blank or holds a comma |
| ClientCodec.UsersAfterLast | src/main/java/org/vinni/cliente/gui/PrincipalCli.java:116-127 | after a read loop the user list is the one carried by the last `USERS:` line |
| ClientCodec.UsersAfterNone | src/main/java/org/vinni/cliente/gui/PrincipalCli.java:116-129 | without `USERS:` lines the user list stays and every line is shown, in order, as a server entry (text `Servidor(<port>): <line>`) |
| ClientCodec.RetryFrom | src/main/java/org/vinni/cliente/gui/PrincipalCli.java:161-194 | the loop counts only refusals, stops at the first accepted attempt, and otherwise leaves with `intentos` equal to the bound (or 0 when the bound is not positive) |
| ClientCodec.RetryBounds | src/main/java/org/vinni/cliente/gui/PrincipalCli.java:161-193 | at most `maxReintentos` attempts, none when it is not positive; reconnected exactly when some attempt within the bound is accepted, with all earlier ones refused |
| ClientCodec.RetryLogShape | src/main/java/org/vinni/cliente/gui/PrincipalCli.java:165-193 | the transcript gets two entries per attempt and ends with the success entry or with the give-up entry |
| ClientCodec.RetryLogAnnounces | src/main/java/org/vinni/cliente/gui/PrincipalCli.java:167 | attempt j is announced as `(j+1/max)` at its place in the transcript |
| Client.ChatClient.constructor | src/main/java/org/vinni/cliente/gui/PrincipalCli.java:46-50 | a new window has no name, no writer, no users and an empty transcript |
| Client.ChatClient.ConnectPressed | src/main/java/org/vinni/cliente/gui/PrincipalCli.java:78-91 | the dialog's answer replaces a missing or blank name; without a usable name the connection is refused with a message and nothing sent; otherwise `conectar` runs |
| Client.ChatClient.Connect | src/main/java/org/vinni/cliente/gui/PrincipalCli.java:97-152 | the old socket is closed; an accepted connection gets a new writer whose first line is `USER:<name>`; a refused one shows the error and keeps the old, closed writer |
| Client.ChatClient.SendText | src/main/java/org/vinni/cliente/gui/PrincipalCli.java:200-220 | without a writer only a dialog appears; a blank message sends nothing; otherwise the one `ChatLine` is written and echoed to the transcript |
| Client.ChatClient.SendImage | src/main/java/org/vinni/cliente/gui/PrincipalCli.java:225-243 | without a writer only a dialog appears; a cancelled choice does nothing; an unreadable file shows the error; otherwise the `IMG:` line is written and noted in the transcript |
| Client.ChatClient.Receive | src/main/java/org/vinni/cliente/gui/PrincipalCli.java:117-129 | a `USERS:` line replaces the user list; any other line is appended to the transcript as a server entry (text `Servidor(<port>): <line>`) |
| Client.ChatClient.Listen | src/main/java/org/vinni/cliente/gui/PrincipalCli.java:116-132 | the read loop leaves the user list and transcript as `UsersAfter` and `ShownLines` prescribe |
| Client.ChatClient.Reconnect | src/main/java/org/vinni/cliente/gui/PrincipalCli.java:161-194 | the loop's result and transcript are `RetryFrom` and `RetryLog`; a success opens a writer whose first line is `USER:<name>`, and a failure keeps the old writer |
| Client.ChatClient.ConnectionLost | src/main/java/org/vinni/cliente/gui/PrincipalCli.java:134-142 | end of stream reports the loss and reconnects; a read error in the first reader only reports the closure; a read error in a restarted reader reports it and reconnects |
| Protocol.HelloNamesSession | src/main/java/org/vinni/cliente/gui/PrincipalCli.java:109 | the handshake names the session after the client's name, trimmed and sanitised, and a clean name arrives unchanged |
| Protocol.PublicMessageArrives | src/main/java/org/vinni/cliente/gui/PrincipalCli.java:212 | a public message is read as a chat with the trimmed typed text and reaches every session of the port |
| Protocol.PrivateMessageArrives | src/main/java/org/vinni/cliente/gui/PrincipalCli.java:208 | a private message to a colon-free name is read as a whisper to that name with the typed text, and reaches at most the first session carrying it |
| Protocol.ColonInRecipient | src/main/java/org/vinni/servidor/gui/PrincipalSrv.java:288 | sanitising keeps `:`, so a message to "a:b" is a whisper to "a" with text "b:hi" |
| Protocol.ImageArrives | src/main/java/org/vinni/cliente/gui/PrincipalCli.java:232-234 | an image line is read as an image whose payload decodes to the file's bytes; the stored file is named after stamp, sender and detected extension, and starts with those bytes |
| Protocol.UsersRoundTrip | src/main/java/org/vinni/cliente/gui/PrincipalCli.java:119-126 | a `USERS:` line of non-blank, comma-free names is read back as exactly those names, in order |
| Protocol.RosterReachesClients | src/main/java/org/vinni/servidor/gui/PrincipalSrv.java:219-222 | when no name has a comma, each client's user list equals the server's sorted distinct user list |
| Protocol.CommaInName | src/main/java/org/vinni/servidor/gui/PrincipalSrv.java:288 | sanitising keeps `,`, and a name "a,b" reaches the clients as two entries "a" and "b" |

## Left out

- Logging is not modelled. This covers `logYArchivo`, `PrincipalSrv.log`, the daily log files and the GUI text areas: they are file I/O and widget updates.
- Threads are not modelled. Each handler, accept loop and reader thread is a method call, and two sessions' interleaving is any order of those calls. `PortListener.Serve` runs one session's whole life as a single call.
- `ConcurrentHashMap` iteration order is not modelled. The registry is a sequence in acceptance order, and "first match" in `enviarPrivado` is relative to that order.
- Sockets and writers are not modelled as such. A session's `outbox` and a client channel's `sent` record the lines written. A `PrintWriter` on a closed socket swallows errors, so those writes are recorded too.
- The rebind-and-retry loop of `run` (PrincipalSrv.java:152-161) is not modelled. Neither are bind failures, nor a `ClienteInfo` constructor that throws. These are socket errors and a 3-second sleep.
- `Server.PortListener.Serve` models a reader that ends normally. When the first `readLine` throws, the Java code skips the join announcement and runs only the `finally` block. That case is not covered.
- `Server.PortListener.CloseAll` empties the registry. Closing each socket is I/O. It wakes that session's handler, which then runs `Leave`, and the model expresses that as a separate later call.
- `Server.PortManager.FireRestart` fires scheduled restarts oldest first. In the Java code each restart is a separate thread sleeping 3 seconds, so they may fire in any order.
- `Files.createDirectories` and its failure message are not modelled. A file write either succeeds completely or stores nothing (`Tick.writable`).
- Strings are code-point sequences. Java's `trim`, `substring(0, 32)` and `compareTo` work on UTF-16 units, so they differ from the model for characters outside the Basic Multilingual Plane.
- `Base64.Encode`: the output length of 4·⌈n/3⌉ is not stated.
- `Client.ChatClient.Receive`: the Java code updates the user list later on the Swing thread, and the model updates it at once.
- Time is not modelled. The 3-second reconnect delay is part of an `Attempt` outcome. The clock, time stamps and identity hashes are parameters.
- The Swing UI is not modelled: widgets, button labels, combo boxes, `invokeLater` and the three client windows started by `main`.
- The Gson configuration, loaded from a fixed path, is not modelled. The retry bound is a parameter.
- MonitorServidor.java, ServidorPuerto.java and Servidor_interfaz.java are not part of this model. The first calls members that `PrincipalSrv` does not provide, the second is separate echo plumbing, and the third is layout only.
