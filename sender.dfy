/**
 * The backend's `MessageSender`: it owns the outgoing plugin channel and turns a player's
 * snapshot, a player's departure and the server's population into frames on that channel.
 * Frames are built field by field into a growing byte buffer, as `DataOutputStream` over a
 * `ByteArrayOutputStream` does; the specification of each frame is the matching encoder of
 * module `Wire`.
 */
module Sender {
  import opened Wrappers
  import opened DataIO
  import Uuids
  import opened Wire

  /** A plugin message handed to the server: the player it travels through and its bytes. */
  datatype Outgoing = Outgoing(via: Uuids.Uuid, frame: seq<byte>)

  /** What a send produces: one message when the frame could be built, none otherwise. */
  function Emitted<E>(via: Uuids.Uuid, r: Result<seq<byte>, E>): (out: seq<Outgoing>)
    ensures |out| <= 1
    ensures |out| == 1 <==> r.Ok?
    ensures r.Ok? ==> out[0] == Outgoing(via, r.value)
  {
    if r.Ok? then [Outgoing(via, r.value)] else []
  }

  /**
   * The frame of `sendPlayerData`, written field by field: `sent` is false when the
   * compressed payload is over the ceiling, and then nothing is written.
   */
  method BuildPlayerData(uuidText: string, json: string, g: Gzip) returns (sent: bool, frame: seq<byte>)
    requires |uuidText| == 36
    ensures sent <==> EncodePlayerData(uuidText, json, g).Ok?
    ensures sent ==> frame == EncodePlayerData(uuidText, json, g).value
  {
    ShortWritable(PlayerDataTag);
    ShortWritable(uuidText);
    EncodeOutcome(uuidText, json, g);
    var raw := Utf8(json);
    if |raw| > CompressThreshold {
      var packed := g.compress(raw);
      if |packed| > MaxCompressedSize {
        return false, [];
      }
      LargePayloadLayout(uuidText, json, g);
      frame := WriteUTF(PlayerDataTag).value;
      frame := frame + WriteUTF(uuidText).value;
      frame := frame + WriteBoolean(true);
      frame := frame + WriteInt(|packed|);
      frame := frame + packed;
    } else {
      SmallPayloadLayout(uuidText, json, g);
      frame := WriteUTF(PlayerDataTag).value;
      frame := frame + WriteUTF(uuidText).value;
      frame := frame + WriteBoolean(false);
      frame := frame + WriteUTF(json).value;
    }
    sent := true;
  }

  /** The frame of `sendPlayerRemove`, written field by field. */
  method BuildPlayerRemove(uuidText: string) returns (frame: seq<byte>)
    requires |uuidText| == 36
    ensures EncodePlayerRemove(uuidText) == Ok(frame)
  {
    ShortWritable(PlayerRemoveTag);
    ShortWritable(uuidText);
    frame := WriteUTF(PlayerRemoveTag).value;
    frame := frame + WriteUTF(uuidText).value;
  }

  /**
   * The frame of `sendServerInfo`, written field by field; `sent` is false when the
   * version string is too long for `writeUTF`.
   */
  method BuildServerInfo(version: string, onlinePlayers: int) returns (sent: bool, frame: seq<byte>)
    requires IsInt32(onlinePlayers)
    ensures sent <==> EncodeServerInfo(version, onlinePlayers).Ok?
    ensures sent ==> frame == EncodeServerInfo(version, onlinePlayers).value
  {
    ShortWritable(ServerInfoTag);
    frame := WriteUTF(ServerInfoTag).value;
    var v := WriteUTF(version);
    if v.Err? {
      return false, [];
    }
    frame := frame + v.value;
    frame := frame + WriteInt(onlinePlayers);
    sent := true;
  }

  class MessageSender {
    /** The channel name from the configuration. */
    const channelName: string
    /** Whether this sender has registered its outgoing channel. */
    var registered: bool
    /** The server messenger's outgoing channels. */
    var outgoingChannels: set<string>
    /** Every plugin message sent so far, oldest first. */
    var outbox: seq<Outgoing>

    /** The flag and the messenger agree. */
    ghost predicate Valid()
      reads this
    {
      registered <==> channelName in outgoingChannels
    }

    constructor (channelName: string)
      ensures this.channelName == channelName
      ensures !registered && outgoingChannels == {} && outbox == []
      ensures Valid()
    {
      this.channelName := channelName;
      registered := false;
      outgoingChannels := {};
      outbox := [];
    }

    /** Registers the channel once; a second call changes nothing. */
    method Register()
      requires Valid()
      modifies this
      ensures Valid() && registered
      ensures outgoingChannels == old(outgoingChannels) + {channelName}
      ensures outbox == old(outbox)
    {
      if !registered {
        outgoingChannels := outgoingChannels + {channelName};
        registered := true;
      }
    }

    /** Unregisters the channel once; a second call changes nothing. */
    method Unregister()
      requires Valid()
      modifies this
      ensures Valid() && !registered
      ensures outgoingChannels == old(outgoingChannels) - {channelName}
      ensures outbox == old(outbox)
    {
      if registered {
        outgoingChannels := outgoingChannels - {channelName};
        registered := false;
      }
    }

    /**
     * `sendPlayerData`: `json` is the player's snapshot as `ItemStackSerializer` and Gson
     * render it, `enabled` the `bungeecord.enabled` setting. The frame goes through the
     * player it describes; a payload too large even when compressed is dropped.
     */
    method SendPlayerData(enabled: bool, player: Uuids.Uuid, json: string, g: Gzip)
      requires Valid()
      modifies this
      ensures Valid()
      ensures !enabled ==> registered == old(registered) && outgoingChannels == old(outgoingChannels)
      ensures enabled ==> registered && outgoingChannels == old(outgoingChannels) + {channelName}
      ensures !enabled ==> outbox == old(outbox)
      ensures enabled ==> outbox == old(outbox) + Emitted(player, EncodePlayerData(Uuids.ToString(player), json, g))
    {
      if !enabled {
        return;
      }
      if !registered {
        Register();
      }
      var sent, frame := BuildPlayerData(Uuids.ToString(player), json, g);
      if sent {
        outbox := outbox + [Outgoing(player, frame)];
      }
    }

    /** `sendPlayerRemove`: the player's departure, sent through that player. */
    method SendPlayerRemove(enabled: bool, player: Uuids.Uuid)
      requires Valid()
      modifies this
      ensures Valid()
      ensures !enabled ==> registered == old(registered) && outgoingChannels == old(outgoingChannels)
      ensures enabled ==> registered && outgoingChannels == old(outgoingChannels) + {channelName}
      ensures !enabled ==> outbox == old(outbox)
      ensures enabled ==> outbox == old(outbox) + Emitted(player, EncodePlayerRemove(Uuids.ToString(player)))
    {
      if !enabled {
        return;
      }
      if !registered {
        Register();
      }
      var frame := BuildPlayerRemove(Uuids.ToString(player));
      outbox := outbox + [Outgoing(player, frame)];
    }

    /**
     * `sendServerInfo`: the server version and the number of online players, sent through
     * the first online player; with nobody online there is no one to send through. The
     * channel is registered before that test.
     */
    method SendServerInfo(enabled: bool, version: string, online: seq<Uuids.Uuid>)
      requires Valid()
      requires |online| < TwoTo31
      modifies this
      ensures Valid()
      ensures !enabled ==> registered == old(registered) && outgoingChannels == old(outgoingChannels)
      ensures enabled ==> registered && outgoingChannels == old(outgoingChannels) + {channelName}
      ensures !enabled || |online| == 0 ==> outbox == old(outbox)
      ensures enabled && |online| > 0 ==> outbox == old(outbox) + Emitted(online[0], EncodeServerInfo(version, |online|))
    {
      if !enabled {
        return;
      }
      if !registered {
        Register();
      }
      if |online| == 0 {
        return;
      }
      var sent, frame := BuildServerInfo(version, |online|);
      if sent {
        outbox := outbox + [Outgoing(online[0], frame)];
      }
    }
  }
}
