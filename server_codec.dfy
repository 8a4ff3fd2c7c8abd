/**
 * The pure part of a port listener (the inner class ServidorPuerto of
 * PrincipalSrv.java): username sanitising, the classification of inbound
 * lines, the outbound line formats, magic-byte sniffing and the naming of
 * stored images.
 */
module ServerCodec {
  import opened Wrappers
  import opened JavaText
  import Base64

  type byte = Base64.byte

  // ---------------------------------------------------------------------------
  // Usernames
  // ---------------------------------------------------------------------------

  const MaxNameLength: nat := 32
  const DefaultName: string := "Usuario"

  /** The characters replaced by `_` in a username: \r, \n, \t and `|`. */
  predicate IsForbidden(c: char) {
    c == '\r' || c == '\n' || c == '\t' || c == '|'
  }

  /** The alias a session carries until its first line names it. */
  function Alias(hashHex: string): string {
    "Anon_" + hashHex
  }

  /** `limpiarUsuario`: a blank name becomes "Usuario"; otherwise the name is
      trimmed, cut to 32 characters and each forbidden character replaced
      one-for-one by `_`. */
  function Sanitize(u: string): (r: string)
    ensures 0 < |r| <= MaxNameLength
    ensures forall i :: 0 <= i < |r| ==> !IsForbidden(r[i])
    ensures '|' !in r
    ensures !IsBlank(r)
    ensures IsBlank(u) ==> r == DefaultName
    ensures !IsBlank(u) ==> |r| == if |Trim(u)| > MaxNameLength then MaxNameLength else |Trim(u)|
    ensures !IsBlank(u) ==> forall i :: 0 <= i < |r| ==> (r[i] == Trim(u)[i] <==> !IsForbidden(Trim(u)[i]))
    ensures !IsBlank(u) ==> forall i :: 0 <= i < |r| ==> r[i] == if IsForbidden(Trim(u)[i]) then '_' else Trim(u)[i]
  {
    if IsBlank(u) then
      assert !IsSpace(DefaultName[0]);
      DefaultName
    else
      var v := Trim(u);
      var cut := if |v| > MaxNameLength then v[..MaxNameLength] else v;
      var r := seq(|cut|, i requires 0 <= i < |cut| => if IsForbidden(cut[i]) then '_' else cut[i]);
      assert !IsSpace(r[0]);
      r
  }

  /** A name that passes through sanitising unchanged. */
  predicate IsCleanName(u: string) {
    u != [] && IsTrimmed(u) && |u| <= MaxNameLength && forall i :: 0 <= i < |u| ==> !IsForbidden(u[i])
  }

  /** Sanitising leaves a name as it is exactly when the name is clean. */
  lemma SanitizeFixedPoint(u: string)
    ensures Sanitize(u) == u <==> IsCleanName(u)
  {
    if IsCleanName(u) {
      TrimOfTrimmed(u);
      assert !IsBlank(u);
    }
    if Sanitize(u) == u {
      var k := TrimStart(u);
      var t := Trim(u);
      assert t == u[k..TrimEnd(u, k)];
      assert |t| == |u|;
      assert t == u;
    }
  }

  /** The name the handler uses for a session: the first line, when it is a
      `USER:` line, replaces the alias; nothing later does. */
  function Handshake(alias: string, first: Option<string>): (name: string)
    ensures first.Some? && "USER:" <= first.value ==> name == Sanitize(first.value[5..])
    ensures first.Some? && "USER:" <= first.value ==> 0 < |name| <= MaxNameLength && !IsBlank(name)
    ensures !(first.Some? && "USER:" <= first.value) ==> name == alias
  {
    if first.Some? && "USER:" <= first.value then
      TrimIdempotent(first.value[5..]);
      assert IsBlank(Trim(first.value[5..])) == IsBlank(first.value[5..]);
      Sanitize(Trim(first.value[5..]))
    else alias
  }

  // ---------------------------------------------------------------------------
  // Inbound lines
  // ---------------------------------------------------------------------------

  /** What `manejarCliente` makes of one inbound line. */
  datatype Command =
    | Chat(text: string)
    | Whisper(to: string, text: string)
    | Picture(payload: string)
    | Ignored

  /** The prefix dispatch of `manejarCliente`, tested in the source's order. */
  function Classify(line: string): (cmd: Command)
    ensures cmd.Chat? <==> "MSG:" <= line
    ensures cmd.Picture? <==> "IMG:" <= line
    ensures cmd.Whisper? ==> "MSGTO:" <= line && |SplitLimit(line, ':', 3)| == 3
    ensures cmd.Ignored? <==> !("MSG:" <= line) && !("IMG:" <= line) && !("MSGTO:" <= line && |SplitLimit(line, ':', 3)| == 3)
  {
    if "MSG:" <= line then
      assert line[0] != 'I';
      Chat(Trim(line[4..]))
    else if "MSGTO:" <= line then
      assert line[0] != 'I';
      var parts := SplitLimit(line, ':', 3);
      if |parts| == 3 then Whisper(Trim(parts[1]), Trim(parts[2])) else Ignored
    else if "IMG:" <= line then Picture(Trim(line[4..]))
    else Ignored
  }

  /** A `USER:` line after the first matches no branch of the dispatch. */
  lemma HelloIsIgnored(line: string)
    requires "USER:" <= line
    ensures Classify(line) == Ignored
  {
    assert line[0] == 'U';
  }

  /** `MSGTO:` splits into three pieces with limit 3: the recipient is the
      trimmed second piece, the text the trimmed remainder, colons included. */
  lemma WhisperParts(to: string, text: string)
    requires ':' !in to
    ensures Classify("MSGTO:" + to + ":" + text) == Whisper(Trim(to), Trim(text))
  {
    var line := "MSGTO:" + to + ":" + text;
    assert line == "MSGTO" + [':'] + (to + [':'] + text);
    SplitLimitAfterPiece("MSGTO", to + [':'] + text, ':', 3);
    SplitLimitAfterPiece(to, text, ':', 2);
    assert !("MSG:" <= line) by { assert line[3] == 'T'; }
  }

  /** A `MSGTO:` line with fewer than two colons does nothing. */
  lemma WhisperWithoutText(to: string)
    requires ':' !in to
    ensures Classify("MSGTO:" + to) == Ignored
  {
    var line := "MSGTO:" + to;
    assert line == "MSGTO" + [':'] + to;
    SplitLimitAfterPiece("MSGTO", to, ':', 3);
    assert !("MSG:" <= line) by { assert line[3] == 'T'; }
  }

  // ---------------------------------------------------------------------------
  // Outbound lines
  // ---------------------------------------------------------------------------

  function ChatBroadcast(user: string, time: string, text: string): string {
    "MSG:" + user + "|" + time + "|" + text
  }

  function ImageBroadcast(user: string, time: string, payload: string): string {
    "IMG:" + user + "|" + time + "|" + payload
  }

  /** `broadcastSistema` */
  function SystemLine(time: string, text: string): string {
    "SYS:" + time + "|" + text
  }

  function PrivateDelivery(sender: string, text: string): string {
    "[Privado de " + sender + "]: " + text
  }

  /** `broadcastUsuarios` */
  function UsersLine(names: seq<string>): string {
    "USERS:" + Join(names, ',')
  }

  function JoinedText(user: string): string {
    user + " se ha conectado."
  }

  function LeftText(user: string): string {
    user + " se ha desconectado."
  }

  lemma SplitThreeFields(a: string, b: string, c: string)
    requires '|' !in a && '|' !in b
    ensures SplitLimit(a + "|" + b + "|" + c, '|', 3) == [a, b, c]
  {
    assert a + "|" + b + "|" + c == a + ['|'] + (b + ['|'] + c);
    SplitLimitAfterPiece(a, b + ['|'] + c, '|', 3);
    SplitLimitAfterPiece(b, c, '|', 2);
  }

  /** Because sanitised names hold no `|`, a receiver splitting a `MSG:` or
      `IMG:` line at its first two bars recovers sender, time and payload. */
  lemma BroadcastFields(user: string, time: string, text: string)
    requires '|' !in user && '|' !in time
    ensures SplitLimit(ChatBroadcast(user, time, text)[4..], '|', 3) == [user, time, text]
    ensures SplitLimit(ImageBroadcast(user, time, text)[4..], '|', 3) == [user, time, text]
  {
    assert ChatBroadcast(user, time, text)[4..] == user + "|" + time + "|" + text;
    assert ImageBroadcast(user, time, text)[4..] == user + "|" + time + "|" + text;
    SplitThreeFields(user, time, text);
  }

  // ---------------------------------------------------------------------------
  // Images
  // ---------------------------------------------------------------------------

  predicate IsPng(b: seq<byte>) {
    |b| >= 8 && b[0] == 0x89 && b[1] == 0x50 && b[2] == 0x4E && b[3] == 0x47
  }

  /** Only the first two bytes of the JPEG marker are tested. */
  predicate IsJpeg(b: seq<byte>) {
    |b| >= 3 && b[0] == 0xFF && b[1] == 0xD8
  }

  /** "GIF" */
  predicate IsGif(b: seq<byte>) {
    |b| >= 4 && b[0] == 0x47 && b[1] == 0x49 && b[2] == 0x46
  }

  /** "BM" */
  predicate IsBmp(b: seq<byte>) {
    |b| >= 2 && b[0] == 0x42 && b[1] == 0x4D
  }

  /** `detectarExtension`. The four signatures start with different bytes, so
      each extension is chosen exactly when its own signature matches. */
  function DetectExtension(b: seq<byte>): (ext: string)
    ensures ext in {"png", "jpg", "gif", "bmp", "bin"}
    ensures ext == "png" <==> IsPng(b)
    ensures ext == "jpg" <==> IsJpeg(b)
    ensures ext == "gif" <==> IsGif(b)
    ensures ext == "bmp" <==> IsBmp(b)
    ensures b == [] ==> ext == "bin"
  {
    if IsPng(b) then "png"
    else if IsJpeg(b) then "jpg"
    else if IsGif(b) then "gif"
    else if IsBmp(b) then "bmp"
    else "bin"
  }

  /** The characters `[a-zA-Z0-9_.-]` kept in a file name. */
  predicate IsFileNameChar(c: char) {
    ('a' <= c <= 'z') || ('A' <= c <= 'Z') || ('0' <= c <= '9') || c == '_' || c == '-' || c == '.'
  }

  /** The user part of an image file name: every other character becomes `_`. */
  function SafeName(u: string): (r: string)
    ensures |r| == |u|
    ensures forall i :: 0 <= i < |r| ==> IsFileNameChar(r[i])
    ensures forall i :: 0 <= i < |u| ==> (r[i] == u[i] <==> IsFileNameChar(u[i]))
    ensures forall i :: 0 <= i < |u| ==> r[i] == if IsFileNameChar(u[i]) then u[i] else '_'
  {
    seq(|u|, i requires 0 <= i < |u| => if IsFileNameChar(u[i]) then u[i] else '_')
  }

  /** The environment of one inbound line: the clock as `HH:mm:ss`, the file
      time stamp `yyyyMMdd_HHmmss_SSS`, and whether writing a file succeeds. */
  datatype Tick = Tick(time: string, stamp: string, writable: bool)

  /** The file `guardarImagen` writes, as (name, bytes); None when the payload
      does not decode or the write fails. */
  function ImageFile(user: string, payload: string, tick: Tick): Option<(string, seq<byte>)> {
    match Base64.Decode(payload)
    case None => None
    case Some(bytes) =>
      if tick.writable then Some((tick.stamp + "_" + SafeName(user) + "." + DetectExtension(bytes), bytes))
      else None
  }

  /** What `guardarImagen` returns: the file name, or "(error)". */
  function SavedName(user: string, payload: string, tick: Tick): string {
    match ImageFile(user, payload, tick)
    case Some(file) => file.0
    case None => "(error)"
  }

  /** Files.write with CREATE and WRITE but without TRUNCATE_EXISTING: the new
      bytes overwrite the start of an existing file and its tail survives. */
  function Overwrite(previous: Option<seq<byte>>, bytes: seq<byte>): (r: seq<byte>)
    ensures bytes <= r
    ensures previous.None? ==> r == bytes
    ensures previous.Some? ==> |r| == if |previous.value| > |bytes| then |previous.value| else |bytes|
    ensures previous.Some? ==> r[|bytes|..] == if |previous.value| > |bytes| then previous.value[|bytes|..] else []
  {
    if previous.Some? && |previous.value| > |bytes| then bytes + previous.value[|bytes|..] else bytes
  }

  /** The image directory after `guardarImagen`. */
  function StoreImage(images: map<string, seq<byte>>, user: string, payload: string, tick: Tick): map<string, seq<byte>> {
    match ImageFile(user, payload, tick)
    case None => images
    case Some(file) =>
      images[file.0 := Overwrite(if file.0 in images then Some(images[file.0]) else None, file.1)]
  }

  /** A decodable payload that can be written lands in a file named
      `<stamp>_<safe user>.<detected extension>` whose content starts with the
      decoded bytes; guardarImagen returns that name. */
  lemma StoredImage(images: map<string, seq<byte>>, user: string, payload: string, tick: Tick)
    requires Base64.Decode(payload).Some? && tick.writable
    ensures var bytes := Base64.Decode(payload).value;
      var name := tick.stamp + "_" + SafeName(user) + "." + DetectExtension(bytes);
      && SavedName(user, payload, tick) == name
      && name in StoreImage(images, user, payload, tick)
      && bytes <= StoreImage(images, user, payload, tick)[name]
      && (name !in images ==> StoreImage(images, user, payload, tick)[name] == bytes)
      && forall other :: other in images && other != name ==> other in StoreImage(images, user, payload, tick) && StoreImage(images, user, payload, tick)[other] == images[other]
  {
  }

  /** A payload that does not decode, or a write that fails, stores nothing and
      yields "(error)". */
  lemma FailedImage(images: map<string, seq<byte>>, user: string, payload: string, tick: Tick)
    requires Base64.Decode(payload).None? || !tick.writable
    ensures SavedName(user, payload, tick) == "(error)"
    ensures StoreImage(images, user, payload, tick) == images
  {
  }
}
