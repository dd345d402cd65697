/** The exchange of settings that opens a session, over the wire: the client's settings, the
    server's answer, and what each side then knows. */
module Handshake {
  import opened Bytes
  import opened Frames
  import opened Padding
  import opened Receiver
  import StringMap
  import Writer

  lemma LiteralIsClean(s: string)
    requires forall i :: 0 <= i < |s| ==> s[i] as int < 256 && s[i] as int != 10 && s[i] as int != 61
    ensures |StringMap.Ascii(s)| == |s|
    ensures StringMap.NEWLINE !in StringMap.Ascii(s) && StringMap.EQUALS !in StringMap.Ascii(s)
  {}

  lemma SettingsAreClean(md5: bytes)
    requires StringMap.NEWLINE !in md5
    ensures StringMap.Clean(Writer.ClientSettings(md5))
    ensures Lookup(Writer.ClientSettings(md5), "padding-md5") == md5
    ensures Lookup(Writer.ClientSettings(md5), "v") == StringMap.Ascii("2")
  {
    LiteralIsClean("v");
    LiteralIsClean("client");
    LiteralIsClean("padding-md5");
    LiteralIsClean("2");
    LiteralIsClean("anytls/0.0.13");
    hide StringMap.Ascii;
    assert |StringMap.Ascii("v")| == 1 && |StringMap.Ascii("client")| == 6 && |StringMap.Ascii("padding-md5")| == 11;
  }

  lemma VersionTwo()
    ensures StringMap.Atoi(StringMap.Ascii("2")) == Some(2)
  {
    assert StringMap.Ascii("2") == [50];
    assert StringMap.Digits([50]) == Some(2);
  }

  lemma VersionLine()
    ensures StringMap.Ascii("v") + [StringMap.EQUALS] + StringMap.Ascii("2") == StringMap.Ascii("v=2")
  {}

  lemma OneLine(k: bytes, v: bytes)
    ensures StringMap.Visits([k], (map[k := v]).Keys)
    ensures StringMap.Printed(map[k := v], [k]) == k + [StringMap.EQUALS] + v
  {
    var m := map[k := v];
    assert StringMap.Lines(m, [k]) == [StringMap.Line(m, k)];
  }

  lemma ServerSettingsText()
    ensures Lookup(StringMap.Parsed(StringMap.Ascii("v=2")), "v") == StringMap.Ascii("2")
  {
    LiteralIsClean("v");
    LiteralIsClean("2");
    VersionLine();
    hide StringMap.Ascii, StringMap.Parsed, StringMap.Printed;
    var v, two := StringMap.Ascii("v"), StringMap.Ascii("2");
    OneLine(v, two);
    StringMap.RoundTripIffClean(map[v := two], [v]);
  }

  /** The server's answer, when its two writes succeed. */
  function Answer(server: Factory, clientMd5: bytes): seq<Frame> {
    (if clientMd5 != server.md5 then [Frame(CMD_UPDATE_PADDING, 0, server.rawScheme)] else [])
    + [Frame(CMD_SERVER_SETTINGS, 0, StringMap.Ascii("v=2"))]
  }

  lemma ServerAnswers(server: RecvState, clientMd5: bytes, order: seq<bytes>, env: Env)
    requires !server.isClient && !server.ended && env.writes >= 2 && StringMap.NEWLINE !in clientMd5
    requires StringMap.Visits(order, Writer.ClientSettings(clientMd5).Keys)
    ensures var f := Frame(CMD_SETTINGS, 0, StringMap.Printed(Writer.ClientSettings(clientMd5), order));
            HandleSettings(server, f, env)
              == server.(gotSettings := true, peerVersion := 2, out := server.out + Answer(server.scheme, clientMd5))
  {
    var m := Writer.ClientSettings(clientMd5);
    var f := Frame(CMD_SETTINGS, 0, StringMap.Printed(m, order));
    SettingsAreClean(clientMd5);
    StringMap.RoundTripIffClean(m, order);
    VersionTwo();
    assert f.data != [] by {
      if f.data == [] {
        assert StringMap.Parsed([]) == m;
        EmptyTextIsEmptyMap();
      }
    }
    hide StringMap.Parsed, StringMap.Printed, StringMap.Atoi, Lookup, Writer.ClientSettings;
    var differs := [Frame(CMD_UPDATE_PADDING, 0, server.scheme.rawScheme)];
    var own := [Frame(CMD_SERVER_SETTINGS, 0, StringMap.Ascii("v=2"))];
    Regroup(server.out, differs, own);
    assert [] + own == own;
  }

  lemma EmptyTextIsEmptyMap()
    ensures StringMap.Parsed([]) == map[]
  {
    var lines: seq<bytes> := [[]];
    assert StringMap.Split([], StringMap.NEWLINE) == lines;
    assert lines[..0] == [];
    assert StringMap.FromLines(lines) == StringMap.FromLines([]);
  }

  /** A factory's own text is never empty. */
  lemma BuiltTextIsNotEmpty(f: Factory, md5: Digest)
    requires Built(f, md5)
    ensures f.rawScheme != []
  {
    EmptyTextIsEmptyMap();
  }

  /** The whole exchange over the wire: both sides learn that the other speaks version 2, and the
      client ends up with exactly the server's scheme precisely when the digests differed or the
      texts were the same. A digest without collisions makes that always. */
  lemma ClientAdoptsServerScheme(client: RecvState, server: RecvState, order: seq<bytes>, env: Env, envs: seq<Env>, md5: Digest)
    requires client.isClient && !client.ended && !server.isClient && !server.ended
    requires server.out == [] && env.writes >= 2
    requires Built(client.scheme, md5) && Built(server.scheme, md5)
    requires StringMap.NEWLINE !in client.scheme.md5 && |server.scheme.rawScheme| <= 0xffff
    requires StringMap.Visits(order, Writer.ClientSettings(client.scheme.md5).Keys)
    requires |envs| == |Answer(server.scheme, client.scheme.md5)|
    ensures var settings := Frame(CMD_SETTINGS, 0, StringMap.Printed(Writer.ClientSettings(client.scheme.md5), order));
            var server' := Handle(server, settings, env, md5);
            && ParseAll(EncodeAll(server'.out)) == Answer(server.scheme, client.scheme.md5)
            && (var client' := HandleAll(client, ParseAll(EncodeAll(server'.out)), envs, md5);
                && server'.peerVersion == 2 && client'.peerVersion == 2
                && server'.scheme == server.scheme
                && (client'.scheme == server.scheme <==>
                      client.scheme.md5 != server.scheme.md5 || client.scheme.rawScheme == server.scheme.rawScheme))
  {
    hide StringMap.Parsed, StringMap.Printed, StringMap.Atoi, Lookup, NewFactory, Writer.ClientSettings,
         HandleAll, HandleSettings, ParseAll, EncodeAll, Answer, Built;
    var answer := Answer(server.scheme, client.scheme.md5);
    ServerAnswers(server, client.scheme.md5, order, env);
    assert [] + answer == answer;
    AnswerIsWellFramed(server.scheme, client.scheme.md5);
    ParseAllPrefix(answer, EncodeAll(answer));
    ClientReads(client, server.scheme, envs, md5);
  }

  lemma AnswerIsWellFramed(server: Factory, clientMd5: bytes)
    requires |server.rawScheme| <= 0xffff
    ensures AllWellFramed(Answer(server, clientMd5))
  {}

  lemma ClientReads(client: RecvState, server: Factory, envs: seq<Env>, md5: Digest)
    requires client.isClient && Built(client.scheme, md5) && Built(server, md5)
    requires |envs| == |Answer(server, client.scheme.md5)|
    ensures var client' := HandleAll(client, Answer(server, client.scheme.md5), envs, md5);
            && client'.peerVersion == 2
            && (client'.scheme == server <==> client.scheme.md5 != server.md5 || client.scheme.rawScheme == server.rawScheme)
  {
    hide StringMap.Parsed, StringMap.Atoi, Lookup, NewFactory;
    ServerSettingsText();
    VersionTwo();
    BuiltTextIsNotEmpty(server, md5);
    var answer := Answer(server, client.scheme.md5);
    var own := Frame(CMD_SERVER_SETTINGS, 0, StringMap.Ascii("v=2"));
    var n := |answer| - 1;
    assert own.data != [] by { assert |own.data| == 3; }
    assert answer[n] == own;
    var before := HandleAll(client, answer[..n], envs[..n], md5);
    if client.scheme.md5 != server.md5 {
      var update := Frame(CMD_UPDATE_PADDING, 0, server.rawScheme);
      assert answer[..n] == [update];
      assert HandleAll(client, [update][..0], envs[..n][..0], md5) == client;
      assert before == Handle(client, update, envs[..n][0], md5);
      assert before.scheme == server;
    } else {
      assert answer[..n] == [];
      assert before == client;
    }
  }
}
