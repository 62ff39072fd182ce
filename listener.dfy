/**
 * The proxy's `MessageListener`: it reads the frames backends send on the plugin channel
 * and applies them to the `BungeePlayerController`, and it asks backends to resend their
 * players. What a frame does to the two tables is the function `Receive`; the class
 * applies it in place.
 */
module Listener {
  import opened Wrappers
  import opened DataIO
  import Uuids
  import opened Wire
  import opened Json
  import opened Store

  /** The controller's two tables, as one value. */
  datatype Tables = Tables(data: Table<string>, times: Table<int>)

  /** The server a message came from: its name when the sender is a server connection. */
  function SenderName(sender: Option<string>): (r: string)
    ensures sender.Some? ==> r == sender.value
    ensures sender.None? ==> r == "unknown"
  {
    match sender
    case Some(name) => name
    case None => "unknown"
  }

  /**
   * The uuid the correction step reads from a snapshot: the scalar `uuid` member, when it
   * is a well-formed uuid. Anything else throws inside the silent handler.
   */
  function Correction(parsed: Option<JsonObject>): (r: Option<Uuids.Uuid>)
    ensures r.Some? ==> parsed.Some? && parsed.value.uuid.Scalar?
    ensures r.Some? ==> Uuids.FromString(parsed.value.uuid.text) == r
  {
    match parsed
    case None => None
    case Some(obj) =>
      match obj.uuid
      case Scalar(text) => Uuids.FromString(text)
      case _ => None
  }

  /**
   * What a decoded message does, coming from `server`: a snapshot is stored (see
   * `Updates`) and, when it names its player, that player is evicted from every other
   * server; a departure removes the player from `server`. The envelope's uuid of a
   * snapshot is not used. Server information and unknown tags change nothing.
   */
  function Apply(st: Tables, server: string, m: Message, parse: Parser, now: int): Tables {
    match m
    case PlayerData(_, json) =>
      var ups := Updates(json, parse(json));
      var data := PutAll(st.data, server, ups);
      var times := PutAll(st.times, server, Stamp(ups, now));
      (match Correction(parse(json))
       case Some(u) => Tables(Evict(data, u, server), Evict(times, u, server))
       case None => Tables(data, times))
    case PlayerRemove(uuidText) =>
      (match Uuids.FromString(uuidText)
       case Some(u) => Tables(Delete(st.data, server, u), Delete(st.times, server, u))
       case None => st)
    case _ => st
  }

  /** `onPluginMessage`: frames on other channels and frames that fail to read are ignored. */
  function Receive(st: Tables, channel: string, tag: string, sender: Option<string>,
                   bytes: seq<byte>, g: Gzip, parse: Parser, now: int): Tables
  {
    if tag != channel then st
    else
      match Decode(bytes, g)
      case Err(_) => st
      case Ok(m) => Apply(st, SenderName(sender), m, parse, now)
  }

  /** Server `n` of `servers` has at least one player connected. */
  predicate Targeted(servers: seq<ServerEntry>, n: string) {
    exists k :: 0 <= k < |servers| && servers[k].name == n && servers[k].connected > 0
  }

  /** The servers `requestDataRefresh` writes to: those with at least one player, in order. */
  function RefreshTargets(servers: seq<ServerEntry>): (r: seq<string>)
    ensures |r| <= |servers|
    ensures forall n :: n in r <==> Targeted(servers, n)
    decreases |servers|
  {
    if |servers| == 0 then []
    else
      var rest := RefreshTargets(servers[1..]);
      assert forall n :: Targeted(servers[1..], n) ==> Targeted(servers, n) by {
        forall n | Targeted(servers[1..], n) ensures Targeted(servers, n) {
          var k :| 0 <= k < |servers[1..]| && servers[1..][k].name == n && servers[1..][k].connected > 0;
          assert servers[k + 1] == servers[1..][k];
        }
      }
      assert forall n :: Targeted(servers, n) ==> Targeted(servers[1..], n) || (servers[0].name == n && servers[0].connected > 0) by {
        forall n | Targeted(servers, n) && !(servers[0].name == n && servers[0].connected > 0)
          ensures Targeted(servers[1..], n)
        {
          var k :| 0 <= k < |servers| && servers[k].name == n && servers[k].connected > 0;
          assert servers[1..][k - 1] == servers[k];
        }
      }
      if servers[0].connected > 0 then [servers[0].name] + rest else rest
  }

  /** Each target paired with the refresh frame. */
  function Addressed(names: seq<string>): (r: seq<(string, seq<byte>)>)
    ensures |r| == |names|
    ensures forall k :: 0 <= k < |r| ==> r[k] == (names[k], EncodeRefresh())
  {
    seq(|names|, k requires 0 <= k < |names| => (names[k], EncodeRefresh()))
  }

  /** The targets of a list with one more server at the end. */
  lemma {:induction false} RefreshTargetsSnoc(servers: seq<ServerEntry>, e: ServerEntry)
    ensures RefreshTargets(servers + [e]) == RefreshTargets(servers) + (if e.connected > 0 then [e.name] else [])
    decreases |servers|
  {
    if |servers| == 0 {
      assert [] + [e] == [e];
      assert [e][1..] == [];
    } else {
      assert (servers + [e])[1..] == servers[1..] + [e];
      RefreshTargetsSnoc(servers[1..], e);
    }
  }

  // ---------------------------------------------------------------- properties

  /** Receiving keeps the two tables aligned: every snapshot has a time and every time a snapshot. */
  lemma ReceiveAligned(st: Tables, channel: string, tag: string, sender: Option<string>,
                       bytes: seq<byte>, g: Gzip, parse: Parser, now: int)
    requires Aligned(st.data, st.times)
    ensures var r := Receive(st, channel, tag, sender, bytes, g, parse, now); Aligned(r.data, r.times)
  {
    if tag == channel && Decode(bytes, g).Ok? {
      ApplyAligned(st, SenderName(sender), Decode(bytes, g).value, parse, now);
    }
  }

  /** Applying one message keeps the two tables aligned. */
  lemma ApplyAligned(st: Tables, server: string, m: Message, parse: Parser, now: int)
    requires Aligned(st.data, st.times)
    ensures var r := Apply(st, server, m, parse, now); Aligned(r.data, r.times)
  {
    match m
    case PlayerData(_, json) =>
      var ups := Updates(json, parse(json));
      PutAllAligned(st.data, st.times, server, ups, now);
      var data := PutAll(st.data, server, ups);
      var times := PutAll(st.times, server, Stamp(ups, now));
      var c := Correction(parse(json));
      if c.Some? {
        EvictAligned(data, times, c.value, server);
      }
    case PlayerRemove(uuidText) =>
      var u := Uuids.FromString(uuidText);
      if u.Some? {
        DeleteAligned(st.data, st.times, server, u.value);
      }
    case _ =>
  }

  /** A snapshot that names a player is stored whole under that player, and nothing else is. */
  lemma NamedSnapshotUpdates(json: string, parse: Parser)
    requires Correction(parse(json)).Some?
    ensures Updates(json, parse(json)) == [(Correction(parse(json)).value, json)]
  {
  }

  /** A snapshot frame for player `u`, received from `s`, stores it under `s` then evicts `u` elsewhere. */
  lemma SnapshotFrameApplies(st: Tables, channel: string, s: string, u: Uuids.Uuid, json: string,
                             g: Gzip, parse: Parser, now: int)
    requires Lawful(g)
    requires EncodePlayerData(Uuids.ToString(u), json, g).Ok?
    requires parse(json).Some? && parse(json).value.uuid == Scalar(Uuids.ToString(u))
    ensures Receive(st, channel, channel, Some(s), EncodePlayerData(Uuids.ToString(u), json, g).value, g, parse, now) ==
      Tables(Evict(Put(st.data, s, u, json), u, s), Evict(Put(st.times, s, u, now), u, s))
  {
    var text := Uuids.ToString(u);
    PlayerDataRoundTrip(text, json, g);
    CorrectionOfText(parse(json), u);
    SnapshotApplies(st, s, text, json, u, parse, now);
  }

  /** A snapshot carrying the text of `u` as its uuid member is corrected to `u`. */
  lemma CorrectionOfText(parsed: Option<JsonObject>, u: Uuids.Uuid)
    requires parsed.Some? && parsed.value.uuid == Scalar(Uuids.ToString(u))
    ensures Correction(parsed) == Some(u)
  {
    Uuids.FromToString(u);
  }

  /** A snapshot whose own uuid reads as `u` is stored under the sender, then `u` is evicted elsewhere. */
  lemma SnapshotApplies(st: Tables, server: string, envelope: string, json: string, u: Uuids.Uuid,
                        parse: Parser, now: int)
    requires Correction(parse(json)) == Some(u)
    ensures Apply(st, server, PlayerData(envelope, json), parse, now) ==
      Tables(Evict(Put(st.data, server, u, json), u, server), Evict(Put(st.times, server, u, now), u, server))
  {
    NamedSnapshotUpdates(json, parse);
    PutAllCons(st.data, server, (u, json), []);
    PutAllCons(st.times, server, (u, now), []);
    assert [(u, json)] + [] == [(u, json)];
    assert Stamp([(u, json)], now) == [(u, now)] + [];
  }

  /**
   * End to end: a snapshot a backend frames for player `u` (see `Wire.EncodePlayerData`),
   * received from server `s`, leaves `u` stored under `s` alone with that snapshot and the
   * time `now`, and every other player as it was.
   */
  lemma SnapshotDelivered(st: Tables, channel: string, s: string, u: Uuids.Uuid, json: string,
                          g: Gzip, parse: Parser, now: int)
    requires Lawful(g)
    requires EncodePlayerData(Uuids.ToString(u), json, g).Ok?
    requires parse(json).Some? && parse(json).value.uuid == Scalar(Uuids.ToString(u))
    ensures var r := Receive(st, channel, channel, Some(s), EncodePlayerData(Uuids.ToString(u), json, g).value, g, parse, now);
      && Get(r.data, s, u) == Some(json)
      && Get(r.times, s, u) == Some(now)
      && (forall s' :: s' != s ==> Get(r.data, s', u) == None && Get(r.times, s', u) == None)
      && (forall s', v :: v != u ==> Get(r.data, s', v) == Get(st.data, s', v) && Get(r.times, s', v) == Get(st.times, s', v))
  {
    SnapshotFrameApplies(st, channel, s, u, json, g, parse, now);
    var data := Put(st.data, s, u, json);
    var times := Put(st.times, s, u, now);
    PutGet(st.data, s, u, json);
    PutGet(st.times, s, u, now);
    EvictGet(data, u, s);
    EvictGet(times, u, s);
  }

  /** A departure framed for `u` and received from `s` deletes `u` from both tables of `s`. */
  lemma DepartureApplies(st: Tables, channel: string, s: string, u: Uuids.Uuid, g: Gzip, parse: Parser, now: int)
    ensures EncodePlayerRemove(Uuids.ToString(u)).Ok?
    ensures Receive(st, channel, channel, Some(s), EncodePlayerRemove(Uuids.ToString(u)).value, g, parse, now)
      == Tables(Delete(st.data, s, u), Delete(st.times, s, u))
  {
    var text := Uuids.ToString(u);
    ShortWritable(PlayerRemoveTag);
    ShortWritable(text);
    PlayerRemoveRoundTrip(text, g);
    Uuids.FromToString(u);
    RemoveApplies(st, s, text, u, parse, now);
  }

  /** A departure naming a well-formed uuid deletes that player from the sending server. */
  lemma RemoveApplies(st: Tables, server: string, text: string, u: Uuids.Uuid, parse: Parser, now: int)
    requires Uuids.FromString(text) == Some(u)
    ensures Apply(st, server, PlayerRemove(text), parse, now) == Tables(Delete(st.data, server, u), Delete(st.times, server, u))
  {
  }

  /**
   * End to end: a departure a backend frames for player `u`, received from server `s`,
   * removes `u` from `s` and changes nothing else.
   */
  lemma DepartureDelivered(st: Tables, channel: string, s: string, u: Uuids.Uuid, g: Gzip, parse: Parser, now: int)
    ensures EncodePlayerRemove(Uuids.ToString(u)).Ok?
    ensures var r := Receive(st, channel, channel, Some(s), EncodePlayerRemove(Uuids.ToString(u)).value, g, parse, now);
      && Get(r.data, s, u) == None && Get(r.times, s, u) == None
      && (forall s', v :: (s' != s || v != u) ==> Get(r.data, s', v) == Get(st.data, s', v) && Get(r.times, s', v) == Get(st.times, s', v))
  {
    var text := Uuids.ToString(u);
    ShortWritable(PlayerRemoveTag);
    ShortWritable(text);
    DepartureApplies(st, channel, s, u, g, parse, now);
    DeleteGet(st.data, s, u);
    DeleteGet(st.times, s, u);
  }

  /**
   * A snapshot frame cut short anywhere is caught as an `IOException` before any store
   * call: both tables stay as they were.
   */
  lemma TruncatedSnapshotIgnored(st: Tables, channel: string, sender: Option<string>, uuidText: string, json: string,
                                 g: Gzip, parse: Parser, now: int, k: nat)
    requires EncodePlayerData(uuidText, json, g).Ok? && k < |EncodePlayerData(uuidText, json, g).value|
    ensures Receive(st, channel, channel, sender, EncodePlayerData(uuidText, json, g).value[..k], g, parse, now) == st
  {
    TruncatedPlayerDataFails(uuidText, json, g, k);
  }

  /** A departure frame cut short anywhere changes neither table either. */
  lemma TruncatedDepartureIgnored(st: Tables, channel: string, sender: Option<string>, uuidText: string,
                                  g: Gzip, parse: Parser, now: int, k: nat)
    requires EncodePlayerRemove(uuidText).Ok? && k < |EncodePlayerRemove(uuidText).value|
    ensures Receive(st, channel, channel, sender, EncodePlayerRemove(uuidText).value[..k], g, parse, now) == st
  {
    TruncatedPlayerRemoveFails(uuidText, g, k);
  }

  /** The refresh request reads back as a message of an unhandled type, "Refresh". */
  lemma RefreshReadsBack(g: Gzip)
    ensures Decode(EncodeRefresh(), g) == Ok(Other(RefreshTag))
  {
    ShortWritable(RefreshTag);
    ReadWriteUTF(RefreshTag, []);
    assert WriteUTF(RefreshTag).value + [] == EncodeRefresh();
    assert RefreshTag[0] != PlayerDataTag[0] && RefreshTag[0] != PlayerRemoveTag[0] && RefreshTag[0] != ServerInfoTag[0];
  }

  /** A frame on another channel changes nothing, whatever its bytes. */
  lemma OtherChannelIgnored(st: Tables, channel: string, tag: string, sender: Option<string>,
                            bytes: seq<byte>, g: Gzip, parse: Parser, now: int)
    requires tag != channel
    ensures Receive(st, channel, tag, sender, bytes, g, parse, now) == st
  {
  }

  // ---------------------------------------------------------------- the listener

  class MessageListener {
    /** The channel name from the configuration. */
    const channel: string
    /** The controller the listener feeds. */
    const controller: BungeePlayerController
    /** Whether the proxy has the channel registered. */
    var registered: bool
    /** Every frame sent to a backend so far, with the server it went to, oldest first. */
    var sent: seq<(string, seq<byte>)>

    /** The constructor registers the channel with the proxy. */
    constructor (channel: string, controller: BungeePlayerController)
      ensures this.channel == channel && this.controller == controller
      ensures registered && sent == []
    {
      this.channel := channel;
      this.controller := controller;
      registered := true;
      sent := [];
    }

    /**
     * `onPluginMessage`: `tag` is the event's channel, `sender` the name of the sending
     * server when the sender is a server connection, `bytes` the frame.
     */
    method OnPluginMessage(tag: string, sender: Option<string>, bytes: seq<byte>, g: Gzip, parse: Parser, now: int)
      requires controller.Valid()
      modifies controller
      ensures controller.Valid()
      ensures Tables(controller.playerData, controller.lastUpdate) ==
        Receive(old(Tables(controller.playerData, controller.lastUpdate)), channel, tag, sender, bytes, g, parse, now)
    {
      if tag != channel {
        return;
      }
      var server := SenderName(sender);
      var read := Decode(bytes, g);
      if read.Err? {
        return;
      }
      match read.value {
        case PlayerData(_, json) =>
          controller.UpdatePlayersData(server, json, parse, now);
          var id := Correction(parse(json));
          if id.Some? {
            controller.CorrectPlayerServerData(id.value, server);
          }
        case PlayerRemove(uuidText) =>
          var id := Uuids.FromString(uuidText);
          if id.Some? {
            controller.RemovePlayerData(server, id.value);
          }
        case ServerInfo(_, _) =>
        case Other(_) =>
      }
    }

    /**
     * `requestDataRefresh`: a "Refresh" frame to every server of the proxy, in its map
     * order, that has at least one player connected.
     */
    method RequestDataRefresh(servers: seq<ServerEntry>)
      modifies this
      ensures registered == old(registered)
      ensures sent == old(sent) + Addressed(RefreshTargets(servers))
    {
      var i := 0;
      while i < |servers|
        invariant 0 <= i <= |servers|
        invariant sent == old(sent) + Addressed(RefreshTargets(servers[..i]))
        invariant registered == old(registered)
      {
        RefreshTargetsSnoc(servers[..i], servers[i]);
        assert servers[..i + 1] == servers[..i] + [servers[i]];
        if servers[i].connected > 0 {
          sent := sent + [(servers[i].name, EncodeRefresh())];
        }
        i := i + 1;
      }
      assert servers[..|servers|] == servers;
    }

    /** `unregister`: the channel is released. */
    method Unregister()
      modifies this
      ensures !registered && sent == old(sent)
    {
      registered := false;
    }
  }
}
