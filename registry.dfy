/**
 * The session registry of one port listener (`clientes` in ServidorPuerto)
 * and the effect on it of every event the listener handles, as functions on
 * values. The registry is a sequence in acceptance order; "first match" is
 * relative to that order. Each session records every line written to its
 * output so far.
 */
module Registry {
  import opened Wrappers
  import opened JavaText
  import opened ServerCodec

  /** One `ClienteInfo`: the socket identity, the current username and every
      line written to its output. */
  datatype Session = Session(id: nat, user: string, outbox: seq<string>)

  /** Sessions are keyed by their socket: no id occurs twice. */
  predicate DistinctIds(cs: seq<Session>) {
    forall i, j :: 0 <= i < j < |cs| ==> cs[i].id != cs[j].id
  }

  predicate IdsBelow(cs: seq<Session>, bound: nat) {
    forall i :: 0 <= i < |cs| ==> cs[i].id < bound
  }

  predicate HasId(cs: seq<Session>, id: nat) {
    exists i :: 0 <= i < |cs| && cs[i].id == id
  }

  function Names(cs: seq<Session>): (r: seq<string>)
    ensures |r| == |cs|
    ensures forall i :: 0 <= i < |cs| ==> r[i] == cs[i].user
  {
    seq(|cs|, i requires 0 <= i < |cs| => cs[i].user)
  }

  /** The total number of lines written to all sessions. */
  function Written(cs: seq<Session>): nat {
    if cs == [] then 0 else |cs[0].outbox| + Written(cs[1..])
  }

  // ---------------------------------------------------------------------------
  // usuariosConectados
  // ---------------------------------------------------------------------------

  /** `usuariosConectados`: the distinct usernames in ascending order. */
  function Roster(cs: seq<Session>): (r: seq<string>)
    ensures Ascending(r)
    ensures forall n :: n in r <==> n in Names(cs)
  {
    SortedDistinct(Names(cs))
  }

  /** The roster holds every name once. */
  lemma RosterDistinct(cs: seq<Session>)
    ensures forall i, j :: 0 <= i < j < |Roster(cs)| ==> Roster(cs)[i] != Roster(cs)[j]
  {
    var r := Roster(cs);
    forall i, j | 0 <= i < j < |r| ensures r[i] != r[j] {
      BeforeIrreflexive(r[i]);
    }
  }

  /** The roster is the only ascending list of the registered names, so it
      does not depend on the order in which the registry is traversed. */
  lemma RosterOrderIndependent(cs: seq<Session>, ds: seq<Session>)
    requires forall n :: n in Names(cs) <==> n in Names(ds)
    ensures Roster(cs) == Roster(ds)
  {
    AscendingUnique(Roster(cs), Roster(ds));
  }

  // ---------------------------------------------------------------------------
  // Writing to sessions
  // ---------------------------------------------------------------------------

  /** `broadcast`: one line appended to every session's output. */
  function Post(cs: seq<Session>, line: string): (r: seq<Session>)
    ensures |r| == |cs|
    ensures forall i :: 0 <= i < |cs| ==> r[i] == cs[i].(outbox := cs[i].outbox + [line])
  {
    seq(|cs|, i requires 0 <= i < |cs| => cs[i].(outbox := cs[i].outbox + [line]))
  }

  /** The position of the first session carrying `name`. */
  function FirstNamed(cs: seq<Session>, name: string): (k: Option<nat>)
    ensures k.Some? ==> k.value < |cs| && cs[k.value].user == name
    ensures k.Some? ==> forall j :: 0 <= j < k.value ==> cs[j].user != name
    ensures k.None? ==> forall j :: 0 <= j < |cs| ==> cs[j].user != name
    decreases |cs|
  {
    if cs == [] then None
    else if cs[0].user == name then Some(0)
    else match FirstNamed(cs[1..], name)
      case None => None
      case Some(k) => Some(k + 1)
  }

  /** `enviarPrivado`: the line goes to the first session named `name`, if any. */
  function Deliver(cs: seq<Session>, name: string, line: string): seq<Session> {
    match FirstNamed(cs, name)
    case None => cs
    case Some(k) => cs[k := cs[k].(outbox := cs[k].outbox + [line])]
  }

  lemma {:induction false} WrittenAfterUpdate(cs: seq<Session>, k: nat, s: Session)
    requires k < |cs|
    ensures Written(cs[k := s]) == Written(cs) - |cs[k].outbox| + |s.outbox|
    decreases |cs|
  {
    if k > 0 {
      WrittenAfterUpdate(cs[1..], k - 1, s);
      assert cs[k := s][1..] == cs[1..][k - 1 := s];
    }
  }

  /** A private message writes exactly one line, to the first session carrying
      the recipient's name, when there is one, and none otherwise; no other
      output changes. */
  lemma DeliverReachesOne(cs: seq<Session>, name: string, line: string)
    ensures var r := Deliver(cs, name, line);
      && |r| == |cs| && Names(r) == Names(cs)
      && Written(r) == Written(cs) + (if name in Names(cs) then 1 else 0)
      && forall i :: 0 <= i < |cs| ==>
           r[i].id == cs[i].id &&
           (r[i].outbox == cs[i].outbox + [line] || r[i].outbox == cs[i].outbox) &&
           (r[i].outbox != cs[i].outbox <==> cs[i].user == name && forall j :: 0 <= j < i ==> cs[j].user != name)
  {
    match FirstNamed(cs, name)
    case None =>
    case Some(k) =>
      WrittenAfterUpdate(cs, k, cs[k].(outbox := cs[k].outbox + [line]));
  }

  /** Changes the name of the session with the given id (`info.usuario = …`). */
  function Rename(cs: seq<Session>, id: nat, name: string): (r: seq<Session>)
    ensures |r| == |cs|
    ensures forall i :: 0 <= i < |cs| ==> r[i] == if cs[i].id == id then cs[i].(user := name) else cs[i]
  {
    seq(|cs|, i requires 0 <= i < |cs| => if cs[i].id == id then cs[i].(user := name) else cs[i])
  }

  /** `clientes.remove(socket)`: drops the session with the given id and keeps
      the others in order. */
  function Without(cs: seq<Session>, id: nat): (r: seq<Session>)
    ensures forall s :: s in r <==> s in cs && s.id != id
    ensures forall i :: 0 <= i < |r| ==> r[i].id != id
    ensures |r| <= |cs|
    ensures DistinctIds(cs) ==> DistinctIds(r)
    decreases |cs|
  {
    if cs == [] then []
    else
      var rest := Without(cs[1..], id);
      if cs[0].id == id then rest
      else
        var r := [cs[0]] + rest;
        assert DistinctIds(cs) ==> DistinctIds(r) by {
          if DistinctIds(cs) {
            forall j | 0 <= j < |rest| ensures rest[j].id != cs[0].id {
              assert rest[j] in cs[1..];
            }
          }
        }
        r
  }

  // ---------------------------------------------------------------------------
  // Events of one session's life
  // ---------------------------------------------------------------------------

  /** The accept loop registers a new session under its alias. */
  function Admit(cs: seq<Session>, id: nat, hashHex: string): seq<Session> {
    cs + [Session(id, Alias(hashHex), [])]
  }

  /** The first line renames the session only when it is a `USER:` line. */
  function Named(cs: seq<Session>, id: nat, alias: string, first: Option<string>): seq<Session> {
    if first.Some? && "USER:" <= first.value then Rename(cs, id, Handshake(alias, first)) else cs
  }

  /** The join announcement: a `SYS:` line, then the `USERS:` line computed
      from the registry at that point. */
  function Announce(cs: seq<Session>, time: string, text: string): seq<Session> {
    var a := Post(cs, SystemLine(time, text));
    Post(a, UsersLine(Roster(a)))
  }

  function Joined(cs: seq<Session>, id: nat, alias: string, first: Option<string>, time: string): seq<Session> {
    Announce(Named(cs, id, alias, first), time, JoinedText(Handshake(alias, first)))
  }

  /** The effect of one inbound line of `user` on the registry. */
  function Effect(cs: seq<Session>, user: string, line: string, time: string): seq<Session> {
    match Classify(line)
    case Chat(text) => Post(cs, ChatBroadcast(user, time, text))
    case Whisper(to, text) => Deliver(cs, to, PrivateDelivery(user, text))
    case Picture(payload) => Post(cs, ImageBroadcast(user, time, payload))
    case Ignored => cs
  }

  /** The effect of one inbound line on the image directory. */
  function ImageEffect(images: map<string, seq<byte>>, user: string, line: string, tick: Tick): map<string, seq<byte>> {
    match Classify(line)
    case Picture(payload) => StoreImage(images, user, payload, tick)
    case _ => images
  }

  /** The read loop over a session's lines; line k is handled at `tick(k)`. */
  function Replay(cs: seq<Session>, user: string, lines: seq<string>, tick: nat -> Tick): seq<Session>
    decreases |lines|
  {
    if lines == [] then cs
    else
      var n := |lines| - 1;
      Effect(Replay(cs, user, lines[..n], tick), user, lines[n], tick(n).time)
  }

  function ReplayImages(images: map<string, seq<byte>>, user: string, lines: seq<string>, tick: nat -> Tick): map<string, seq<byte>>
    decreases |lines|
  {
    if lines == [] then images
    else
      var n := |lines| - 1;
      ImageEffect(ReplayImages(images, user, lines[..n], tick), user, lines[n], tick(n))
  }

  /** One more line through the read loop. */
  lemma ReplayStep(cs: seq<Session>, images: map<string, seq<byte>>, user: string, lines: seq<string>, tick: nat -> Tick, i: nat)
    requires i < |lines|
    ensures Replay(cs, user, lines[..i + 1], tick) == Effect(Replay(cs, user, lines[..i], tick), user, lines[i], tick(i).time)
    ensures ReplayImages(images, user, lines[..i + 1], tick) == ImageEffect(ReplayImages(images, user, lines[..i], tick), user, lines[i], tick(i))
  {
    assert lines[..i + 1][..i] == lines[..i];
  }

  /** The `finally` block: the session is removed, then the leave is announced
      to the sessions that remain. */
  function Left(cs: seq<Session>, id: nat, user: string, time: string): seq<Session> {
    Announce(Without(cs, id), time, LeftText(user))
  }

  // ---------------------------------------------------------------------------
  // Properties
  // ---------------------------------------------------------------------------

  /** Output is only ever appended to: what a session has been sent stays. */
  predicate Extends(cs: seq<Session>, ds: seq<Session>) {
    |ds| == |cs| && forall i :: 0 <= i < |cs| ==> ds[i].id == cs[i].id && ds[i].user == cs[i].user && cs[i].outbox <= ds[i].outbox
  }

  /** A `MSG:` line reaches every session, its sender included, as
      `MSG:<user>|<time>|<trimmed text>`; an `IMG:` line reaches every session
      with the payload as received, whether or not it could be stored. */
  lemma BroadcastReachesAll(cs: seq<Session>, user: string, line: string, time: string)
    requires Classify(line).Chat? || Classify(line).Picture?
    ensures var r := Effect(cs, user, line, time);
      var out := if "MSG:" <= line then ChatBroadcast(user, time, Trim(line[4..])) else ImageBroadcast(user, time, Trim(line[4..]));
      && (Classify(line).Chat? <==> "MSG:" <= line)
      && Written(r) == Written(cs) + |cs|
      && forall i :: 0 <= i < |cs| ==> r[i].outbox == cs[i].outbox + [out] && r[i].user == cs[i].user && r[i].id == cs[i].id
  {
    WrittenPost(cs, if "MSG:" <= line then ChatBroadcast(user, time, Trim(line[4..])) else ImageBroadcast(user, time, Trim(line[4..])));
  }

  lemma {:induction false} WrittenPost(cs: seq<Session>, line: string)
    ensures Written(Post(cs, line)) == Written(cs) + |cs|
    decreases |cs|
  {
    if cs != [] {
      WrittenPost(cs[1..], line);
      assert Post(cs, line)[1..] == Post(cs[1..], line);
    }
  }

  /** A line with no recognised prefix (a repeated `USER:` line among them)
      writes nothing. */
  lemma IgnoredWritesNothing(cs: seq<Session>, user: string, line: string, tick: Tick, images: map<string, seq<byte>>)
    requires !("MSG:" <= line) && !("MSGTO:" <= line) && !("IMG:" <= line)
    ensures Effect(cs, user, line, tick.time) == cs
    ensures ImageEffect(images, user, line, tick) == images
  {
  }

  /** No inbound line changes a name or an id, or takes back output. */
  lemma EffectExtends(cs: seq<Session>, user: string, line: string, time: string)
    ensures Extends(cs, Effect(cs, user, line, time))
  {
    if Classify(line).Whisper? {
      DeliverReachesOne(cs, Classify(line).to, PrivateDelivery(user, Classify(line).text));
    }
  }

  lemma ExtendsTransitive(a: seq<Session>, b: seq<Session>, c: seq<Session>)
    requires Extends(a, b) && Extends(b, c)
    ensures Extends(a, c)
  {
  }

  /** Only the first line can name a session: the read loop keeps every name
      (and id) as it was after the handshake and only appends output. */
  lemma {:induction false} ReplayExtends(cs: seq<Session>, user: string, lines: seq<string>, tick: nat -> Tick)
    ensures Extends(cs, Replay(cs, user, lines, tick))
    decreases |lines|
  {
    if lines != [] {
      var n := |lines| - 1;
      ReplayExtends(cs, user, lines[..n], tick);
      EffectExtends(Replay(cs, user, lines[..n], tick), user, lines[n], tick(n).time);
      ExtendsTransitive(cs, Replay(cs, user, lines[..n], tick), Replay(cs, user, lines, tick));
    }
  }

  /** After the handshake the session with `id` carries `Handshake(alias,
      first)`: the sanitised name of a `USER:` first line, the alias otherwise. */
  lemma NamedByHandshake(cs: seq<Session>, id: nat, alias: string, first: Option<string>)
    requires forall i :: 0 <= i < |cs| && cs[i].id == id ==> cs[i].user == alias
    ensures var r := Named(cs, id, alias, first);
      && |r| == |cs|
      && forall i :: 0 <= i < |cs| ==>
           r[i].outbox == cs[i].outbox && r[i].id == cs[i].id &&
           r[i].user == (if cs[i].id == id then Handshake(alias, first) else cs[i].user)
  {
  }

  /** Every session registered when a join or leave is announced receives
      `SYS:<time>|<text>` followed by the `USERS:` line of the distinct,
      sorted names registered at that moment. */
  lemma AnnounceLines(cs: seq<Session>, time: string, text: string)
    ensures var r := Announce(cs, time, text);
      && |r| == |cs|
      && Written(r) == Written(cs) + 2 * |cs|
      && forall i :: 0 <= i < |cs| ==>
           r[i].id == cs[i].id && r[i].user == cs[i].user &&
           r[i].outbox == cs[i].outbox + [SystemLine(time, text), UsersLine(Roster(cs))]
  {
    var a := Post(cs, SystemLine(time, text));
    assert Names(a) == Names(cs);
    WrittenPost(cs, SystemLine(time, text));
    WrittenPost(a, UsersLine(Roster(a)));
  }

  /** The names left after removing a session are those of the other sessions. */
  lemma WithoutNames(cs: seq<Session>, id: nat)
    ensures forall n :: n in Names(Without(cs, id)) <==> exists i :: 0 <= i < |cs| && cs[i].id != id && cs[i].user == n
  {
    var w := Without(cs, id);
    forall n ensures n in Names(w) <==> exists i :: 0 <= i < |cs| && cs[i].id != id && cs[i].user == n {
      if n in Names(w) {
        var k :| 0 <= k < |w| && Names(w)[k] == n;
        assert w[k] in cs;
      }
      if exists i :: 0 <= i < |cs| && cs[i].id != id && cs[i].user == n {
        var i :| 0 <= i < |cs| && cs[i].id != id && cs[i].user == n;
        assert cs[i] in w;
        var k :| 0 <= k < |w| && w[k] == cs[i];
        assert Names(w)[k] == n;
      }
    }
  }

  /** After a leave the session is gone and the roster sent to the others
      lists exactly the names of the sessions that remain. */
  lemma LeaveRemoves(cs: seq<Session>, id: nat, user: string, time: string)
    requires DistinctIds(cs)
    ensures var r := Left(cs, id, user, time);
      && DistinctIds(r)
      && !HasId(r, id)
      && (forall i :: 0 <= i < |r| ==> r[i].outbox[|r[i].outbox| - 1] == UsersLine(Roster(Without(cs, id))))
      && forall n :: n in Roster(Without(cs, id)) <==> exists i :: 0 <= i < |cs| && cs[i].id != id && cs[i].user == n
  {
    var w := Without(cs, id);
    AnnounceLines(w, time, LeftText(user));
    WithoutNames(cs, id);
  }
}
