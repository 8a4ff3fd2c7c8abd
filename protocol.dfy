/**
 * What the client sends, read the way the server reads it, and what the
 * server sends, read the way the client reads it.
 */
module Protocol {
  import opened Wrappers
  import opened JavaText
  import Base64
  import opened ServerCodec
  import opened Registry
  import opened ClientCodec

  /** The handshake names the session after the client's name, trimmed and
      sanitised; a clean name arrives unchanged. */
  lemma HelloNamesSession(alias: string, name: string)
    ensures Handshake(alias, Some(HelloLine(name))) == Sanitize(Trim(name))
    ensures IsCleanName(name) ==> Handshake(alias, Some(HelloLine(name))) == name
  {
    assert HelloLine(name)[..5] == "USER:" && HelloLine(name)[5..] == name;
    if IsCleanName(name) {
      TrimOfTrimmed(name);
      SanitizeFixedPoint(name);
    }
  }

  /** A public message is read back as a chat line with the text the client
      typed, trimmed, and reaches every session of the port. */
  lemma PublicMessageArrives(cs: seq<Session>, user: string, typed: string, selected: Option<string>, me: string, time: string)
    requires !IsPrivate(selected, me)
    ensures Classify(ChatLine(Trim(typed), selected, me)) == Chat(Trim(typed))
    ensures Effect(cs, user, ChatLine(Trim(typed), selected, me), time) == Post(cs, ChatBroadcast(user, time, Trim(typed)))
  {
    var line := ChatLine(Trim(typed), selected, me);
    assert line[4..] == Trim(typed);
    TrimIdempotent(typed);
  }

  /** A private message to a recipient whose name has no `:` is read back as
      a whisper to that name with the typed text, and at most the first
      session carrying the name receives it. */
  lemma PrivateMessageArrives(cs: seq<Session>, user: string, typed: string, dest: string, me: string, time: string)
    requires IsPrivate(Some(dest), me) && ':' !in dest
    ensures Classify(ChatLine(Trim(typed), Some(dest), me)) == Whisper(Trim(dest), Trim(typed))
    ensures Effect(cs, user, ChatLine(Trim(typed), Some(dest), me), time) == Deliver(cs, Trim(dest), PrivateDelivery(user, Trim(typed)))
  {
    var line := ChatLine(Trim(typed), Some(dest), me);
    assert line == "MSGTO:" + dest + ":" + Trim(typed);
    WhisperParts(dest, Trim(typed));
    TrimIdempotent(typed);
  }

  /** Names may contain `:` (sanitising keeps it), and the recipient piece
      stops at the first colon: a message to "a:b" is a whisper to "a" whose
      text starts with "b:". */
  lemma ColonInRecipient()
    ensures Sanitize("a:b") == "a:b"
    ensures Classify(ChatLine("hi", Some("a:b"), "me")) == Whisper("a", "b:hi")
  {
    assert IsCleanName("a:b");
    SanitizeFixedPoint("a:b");
    assert ChatLine("hi", Some("a:b"), "me") == "MSGTO:" + "a" + ":" + "b:hi";
    WhisperParts("a", "b:hi");
    TrimOfTrimmed("a");
    TrimOfTrimmed("b:hi");
  }

  lemma EncodedIsTrimmed(bytes: seq<byte>)
    ensures IsTrimmed(Base64.Encode(bytes))
  {
    var s := Base64.Encode(bytes);
    if s != [] {
      assert Base64.IsAlphabet(s[0]) || s[0] == '=';
      assert Base64.IsAlphabet(s[|s| - 1]) || s[|s| - 1] == '=';
    }
  }

  /** An image line is read back as an image with the encoded payload; it
      decodes to the file's bytes, the stored file is named after the stamp,
      the sender and the detected extension, and its content starts with
      those bytes. */
  lemma ImageArrives(images: map<string, seq<byte>>, user: string, bytes: seq<byte>, tick: Tick)
    requires tick.writable
    ensures Classify(ImageLine(bytes)) == Picture(Base64.Encode(bytes))
    ensures var name := tick.stamp + "_" + SafeName(user) + "." + DetectExtension(bytes);
      && SavedName(user, Base64.Encode(bytes), tick) == name
      && name in StoreImage(images, user, Base64.Encode(bytes), tick)
      && bytes <= StoreImage(images, user, Base64.Encode(bytes), tick)[name]
  {
    var line := ImageLine(bytes);
    assert line == "IMG:" + Base64.Encode(bytes);
    assert line[4..] == Base64.Encode(bytes);
    assert !("MSG:" <= line) && !("MSGTO:" <= line) by { assert line[0] == 'I'; }
    EncodedIsTrimmed(bytes);
    TrimOfTrimmed(Base64.Encode(bytes));
    Base64.DecodeEncode(bytes);
    StoredImage(images, user, Base64.Encode(bytes), tick);
  }

  lemma JoinHasSeparator(xs: seq<string>, sep: char)
    requires |xs| >= 2
    ensures sep in Join(xs, sep)
  {
    assert Join(xs, sep)[|xs[0]|] == sep;
  }

  lemma DropNothing(xs: seq<string>)
    requires xs != [] && xs[|xs| - 1] != ""
    ensures DropTrailingEmpty(xs) == xs
  {
  }

  /** A `USERS:` line of non-blank names without commas is read back as
      exactly those names, in order. */
  lemma UsersRoundTrip(names: seq<string>)
    requires forall i :: 0 <= i < |names| ==> !IsBlank(names[i]) && ',' !in names[i]
    ensures "USERS:" <= UsersLine(names)
    ensures UserList(UsersLine(names)) == names
  {
    var line := UsersLine(names);
    assert line[..6] == "USERS:" && line[6..] == Join(names, ',');
    if |names| == 0 {
      assert IsBlank("");
    } else if |names| == 1 {
      KeepAllNonBlank(names);
    } else {
      JoinHasSeparator(names, ',');
      SplitAllJoin(names, ',');
      assert names[|names| - 1] != "" by {
        if names[|names| - 1] == "" { assert IsBlank(names[|names| - 1]); }
      }
      DropNothing(names);
      KeepAllNonBlank(names);
    }
  }

  /** Every client receives the server's roster as its user list, provided
      no connected name contains a comma. */
  lemma RosterReachesClients(cs: seq<Session>)
    requires forall i :: 0 <= i < |cs| ==> !IsBlank(cs[i].user) && ',' !in cs[i].user
    ensures UserList(UsersLine(Roster(cs))) == Roster(cs)
  {
    var r := Roster(cs);
    forall i | 0 <= i < |r| ensures !IsBlank(r[i]) && ',' !in r[i] {
      assert r[i] in Names(cs);
    }
    UsersRoundTrip(r);
  }

  lemma SplitTwoNames()
    ensures Split("a,b", ',') == ["a", "b"]
  {
    assert "a,b" == "a" + [','] + "b";
    assert ',' in "a,b" by { assert "a,b"[1] == ','; }
    SplitAllAfterPiece("a", "b", ',');
    SplitAllNoSeparator("b", ',');
  }

  /** Sanitising keeps commas, and a name with a comma reaches the other
      clients as two entries. */
  lemma CommaInName()
    ensures Sanitize("a,b") == "a,b"
    ensures UserList(UsersLine(["a,b"])) == ["a", "b"]
  {
    assert IsCleanName("a,b");
    SanitizeFixedPoint("a,b");
    assert UsersLine(["a,b"])[6..] == "a,b";
    SplitTwoNames();
    TrimOfTrimmed("a");
    TrimOfTrimmed("b");
    KeepAllNonBlank(["a", "b"]);
  }
}
