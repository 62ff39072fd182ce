/**
 * The backend-to-proxy envelope: how a backend frames "PlayerData", "PlayerRemove" and
 * "ServerInfo" messages with `DataOutputStream`, how the proxy frames "Refresh", and how
 * the proxy's `DataInputStream` reads any of them back.
 *
 *   PlayerData   := writeUTF("PlayerData") writeUTF(uuid) writeBoolean(compressed)
 *                   [compressed]  writeInt(n) n bytes of GZIP data
 *                   [!compressed] writeUTF(json)
 *   PlayerRemove := writeUTF("PlayerRemove") writeUTF(uuid)
 *   ServerInfo   := writeUTF("ServerInfo") writeUTF(version) writeInt(onlinePlayers)
 *   Refresh      := writeUTF("Refresh")
 */
module Wire {
  import opened Wrappers
  import opened DataIO
  import Uuids

  /**
   * The message types, written first in every frame. Each is spelled as a concatenation
   * so that the verifier treats it as a value rather than a literal to evaluate eagerly.
   */
  const PlayerDataTag: string := "Player" + "Data"
  const PlayerRemoveTag: string := "Player" + "Remove"
  const ServerInfoTag: string := "Server" + "Info"
  const RefreshTag: string := "Re" + "fresh"

  /** Above this many UTF-8 bytes the JSON is compressed. */
  const CompressThreshold: nat := 30000
  /** A compressed block larger than this is not sent. */
  const MaxCompressedSize: nat := 32000

  /**
   * GZIP (RFC 1952) at maximum compression, as a pair of functions supplied by the
   * environment; `Lawful` is what the model relies on about them.
   */
  datatype Gzip = Gzip(compress: seq<byte> -> seq<byte>, decompress: seq<byte> -> seq<byte>)

  /**
   * Decompressing what was compressed gives the input back; both map the empty array to
   * the empty array, as the wrapper in the backend does before calling the library.
   */
  ghost predicate Lawful(g: Gzip) {
    && (forall x :: |x| > 0 ==> g.decompress(g.compress(x)) == x)
    && g.compress([]) == []
    && g.decompress([]) == []
  }

  /** A message as the proxy reads it. */
  datatype Message =
    | PlayerData(uuidText: string, json: string)
    | PlayerRemove(uuidText: string)
    | ServerInfo(version: string, onlinePlayers: int)
    | Other(tag: string)

  /** Why a backend does not send a PlayerData frame. */
  datatype SendError = PayloadTooLarge | WriteFailed(cause: IoError)

  function Lift<T>(r: Result<T, IoError>): Result<T, SendError> {
    match r
    case Ok(v) => Ok(v)
    case Err(e) => Err(WriteFailed(e))
  }

  /** The tags, and the uuid of any player (36 characters), always fit `writeUTF`. */
  lemma TagsWritable(uuid: Uuids.Uuid)
    ensures WriteUTF(PlayerDataTag).Ok? && WriteUTF(PlayerRemoveTag).Ok?
    ensures WriteUTF(ServerInfoTag).Ok? && WriteUTF(RefreshTag).Ok?
    ensures WriteUTF(Uuids.ToString(uuid)).Ok?
  {
    ShortWritable(PlayerDataTag);
    ShortWritable(PlayerRemoveTag);
    ShortWritable(ServerInfoTag);
    ShortWritable(RefreshTag);
    ShortWritable(Uuids.ToString(uuid));
  }

  /**
   * The frame `sendPlayerData` builds for `json`, with `uuidText` the player's uuid as
   * `UUID.toString` renders it: uncompressed when the UTF-8 form of the JSON is at most
   * 30000 bytes; otherwise the compressed bytes with their length, unless there are more
   * than 32000 of them.
   */
  function EncodePlayerData(uuidText: string, json: string, g: Gzip): Result<seq<byte>, SendError>
  {
    var raw := Utf8(json);
    var tag :- Lift(WriteUTF(PlayerDataTag));
    var id :- Lift(WriteUTF(uuidText));
    if |raw| > CompressThreshold then
      var packed := g.compress(raw);
      if |packed| > MaxCompressedSize then Err(PayloadTooLarge)
      else Ok(tag + id + WriteBoolean(true) + WriteInt(|packed|) + packed)
    else
      var body :- Lift(WriteUTF(json));
      Ok(tag + id + WriteBoolean(false) + body)
  }

  /** The frame `sendPlayerRemove` builds. */
  function EncodePlayerRemove(uuidText: string): Result<seq<byte>, IoError> {
    var tag :- WriteUTF(PlayerRemoveTag);
    var id :- WriteUTF(uuidText);
    Ok(tag + id)
  }

  /** The frame `sendServerInfo` builds. */
  function EncodeServerInfo(version: string, onlinePlayers: int): Result<seq<byte>, IoError>
    requires IsInt32(onlinePlayers)
  {
    var tag :- WriteUTF(ServerInfoTag);
    var v :- WriteUTF(version);
    Ok(tag + v + WriteInt(onlinePlayers))
  }

  /** The one-field frame the proxy sends to ask a backend to resend its players. */
  function EncodeRefresh(): seq<byte> {
    ShortWritable(RefreshTag);
    WriteUTF(RefreshTag).value
  }

  /**
   * The reading half of `onPluginMessage`: the tag, then the fields the tag calls for.
   * A short frame or bad modified UTF-8 ends in an `IoError`; so does a negative block
   * length, which makes `new byte[n]` throw. Bytes after the last field are ignored.
   */
  function Decode(frame: seq<byte>, g: Gzip): Result<Message, IoError> {
    var (tag, c) :- ReadUTF(Cursor(frame, 0));
    if tag == PlayerDataTag then DecodePlayerData(c, g)
    else if tag == PlayerRemoveTag then DecodePlayerRemove(c)
    else if tag == ServerInfoTag then DecodeServerInfo(c)
    else Ok(Other(tag))
  }

  /** The fields of a "PlayerData" frame after its tag. */
  function DecodePlayerData(c: Cursor, g: Gzip): Result<Message, IoError>
    requires c.Valid()
  {
    var (uuidText, c2) :- ReadUTF(c);
    DecodePayload(uuidText, c2, g)
  }

  /** The compression flag and the payload it announces. */
  function DecodePayload(uuidText: string, c: Cursor, g: Gzip): Result<Message, IoError>
    requires c.Valid()
  {
    var (compressed, c2) :- ReadBoolean(c);
    if compressed then DecodeCompressed(uuidText, c2, g)
    else
      var (json, _) :- ReadUTF(c2);
      Ok(PlayerData(uuidText, json))
  }

  /** A compressed payload: its length, then that many bytes of GZIP data holding UTF-8 text. */
  function DecodeCompressed(uuidText: string, c: Cursor, g: Gzip): Result<Message, IoError>
    requires c.Valid()
  {
    var (n, c2) :- ReadInt(c);
    if n < 0 then Err(NegativeLength)
    else
      var (packed, _) :- ReadFully(c2, n);
      Ok(PlayerData(uuidText, DecodeUtf8(g.decompress(packed))))
  }

  /** The field of a "PlayerRemove" frame after its tag. */
  function DecodePlayerRemove(c: Cursor): Result<Message, IoError>
    requires c.Valid()
  {
    var (uuidText, _) :- ReadUTF(c);
    Ok(PlayerRemove(uuidText))
  }

  /** The fields of a "ServerInfo" frame after its tag. */
  function DecodeServerInfo(c: Cursor): Result<Message, IoError>
    requires c.Valid()
  {
    var (version, c2) :- ReadUTF(c);
    var (n, _) :- ReadInt(c2);
    Ok(ServerInfo(version, n))
  }

  // ---------------------------------------------------------------- properties of the encoder

  /**
   * Sending a player's data has exactly two outcomes: a frame, or `PayloadTooLarge` when
   * the payload is over the threshold and its compressed form over the ceiling. Writing
   * never fails for a player's uuid.
   */
  lemma EncodePlayerDataOutcome(uuid: Uuids.Uuid, json: string, g: Gzip)
    ensures EncodePlayerData(Uuids.ToString(uuid), json, g).Err? <==>
      |Utf8(json)| > CompressThreshold && |g.compress(Utf8(json))| > MaxCompressedSize
    ensures EncodePlayerData(Uuids.ToString(uuid), json, g).Err? ==>
      EncodePlayerData(Uuids.ToString(uuid), json, g).error == PayloadTooLarge
  {
    TagsWritable(uuid);
    EncodeOutcome(Uuids.ToString(uuid), json, g);
  }

  lemma EncodeOutcome(uuidText: string, json: string, g: Gzip)
    requires WriteUTF(PlayerDataTag).Ok? && WriteUTF(uuidText).Ok?
    ensures EncodePlayerData(uuidText, json, g).Err? <==>
      |Utf8(json)| > CompressThreshold && |g.compress(Utf8(json))| > MaxCompressedSize
    ensures EncodePlayerData(uuidText, json, g).Err? ==> EncodePlayerData(uuidText, json, g).error == PayloadTooLarge
  {
    if |Utf8(json)| <= CompressThreshold {
      SmallJsonWritable(json);
    }
  }

  /** A payload of at most 30000 UTF-8 bytes is sent uncompressed: flag 0, then `writeUTF(json)`. */
  lemma SmallPayloadLayout(uuidText: string, json: string, g: Gzip)
    requires WriteUTF(uuidText).Ok?
    requires |Utf8(json)| <= CompressThreshold
    ensures WriteUTF(PlayerDataTag).Ok? && WriteUTF(json).Ok?
    ensures EncodePlayerData(uuidText, json, g) ==
      Ok(WriteUTF(PlayerDataTag).value + WriteUTF(uuidText).value + [0] + WriteUTF(json).value)
  {
    ShortWritable(PlayerDataTag);
    SmallJsonWritable(json);
  }

  /** JSON of at most 30000 UTF-8 bytes has at most 60000 bytes of modified UTF-8. */
  lemma SmallJsonWritable(json: string)
    requires |Utf8(json)| <= CompressThreshold
    ensures WriteUTF(json).Ok?
  {
    Mutf8AtMostTwiceUtf8(json);
  }

  /**
   * A payload over 30000 UTF-8 bytes that is sent carries flag 1, then the compressed
   * length as a big-endian int, then exactly the compressed bytes, of which there are at
   * most 32000.
   */
  lemma LargePayloadLayout(uuidText: string, json: string, g: Gzip)
    requires |Utf8(json)| > CompressThreshold
    requires EncodePlayerData(uuidText, json, g).Ok?
    ensures WriteUTF(PlayerDataTag).Ok? && WriteUTF(uuidText).Ok?
    ensures var packed := g.compress(Utf8(json));
      && |packed| <= MaxCompressedSize
      && EncodePlayerData(uuidText, json, g).value ==
           WriteUTF(PlayerDataTag).value + WriteUTF(uuidText).value + [1] + WriteInt(|packed|) + packed
  {
  }

  lemma Regroup3(a: seq<byte>, b: seq<byte>, c: seq<byte>, d: seq<byte>)
    ensures a + b + c + d == a + (b + (c + d))
  {
  }

  lemma Regroup4(a: seq<byte>, b: seq<byte>, c: seq<byte>, d: seq<byte>, e: seq<byte>)
    ensures a + b + c + d + e == a + (b + (c + (d + e)))
  {
  }

  /**
   * The compression flag, right after the tag and the uuid, is 1 exactly when the
   * payload was over the threshold.
   */
  lemma FlagByte(uuidText: string, json: string, g: Gzip)
    requires EncodePlayerData(uuidText, json, g).Ok?
    ensures WriteUTF(PlayerDataTag).Ok? && WriteUTF(uuidText).Ok?
    ensures var p := |WriteUTF(PlayerDataTag).value| + |WriteUTF(uuidText).value|;
      && p < |EncodePlayerData(uuidText, json, g).value|
      && EncodePlayerData(uuidText, json, g).value[p] == if |Utf8(json)| > CompressThreshold then 1 else 0
  {
    ShortWritable(PlayerDataTag);
    if |Utf8(json)| > CompressThreshold {
      LargePayloadLayout(uuidText, json, g);
    } else {
      SmallPayloadLayout(uuidText, json, g);
    }
  }

  // ---------------------------------------------------------------- round trips

  lemma TagsDiffer()
    ensures PlayerDataTag != PlayerRemoveTag && PlayerDataTag != ServerInfoTag && PlayerRemoveTag != ServerInfoTag
  {
    assert |PlayerDataTag| == 10 && |PlayerRemoveTag| == 12;
    assert PlayerDataTag[0] != ServerInfoTag[0] && PlayerRemoveTag[0] != ServerInfoTag[0];
  }

  /** A frame that starts with a tag is decoded by the reader for that tag. */
  lemma DispatchPlayerData(rest: seq<byte>, g: Gzip)
    requires WriteUTF(PlayerDataTag).Ok?
    ensures var tag := WriteUTF(PlayerDataTag).value;
      Decode(tag + rest, g) == DecodePlayerData(Cursor(tag + rest, |tag|), g)
  {
    ReadWriteUTF(PlayerDataTag, rest);
  }

  lemma DispatchPlayerRemove(rest: seq<byte>, g: Gzip)
    requires WriteUTF(PlayerRemoveTag).Ok?
    ensures var tag := WriteUTF(PlayerRemoveTag).value;
      Decode(tag + rest, g) == DecodePlayerRemove(Cursor(tag + rest, |tag|))
  {
    ReadWriteUTF(PlayerRemoveTag, rest);
    TagsDiffer();
  }

  lemma DispatchServerInfo(rest: seq<byte>, g: Gzip)
    requires WriteUTF(ServerInfoTag).Ok?
    ensures var tag := WriteUTF(ServerInfoTag).value;
      Decode(tag + rest, g) == DecodeServerInfo(Cursor(tag + rest, |tag|))
  {
    ReadWriteUTF(ServerInfoTag, rest);
    TagsDiffer();
  }

  /** The fields after the tag start right after it. */
  lemma AfterTag(tag: seq<byte>, rest: seq<byte>)
    ensures (tag + rest)[|tag|..|tag| + |rest|] == rest
  {
  }

  /** The readers of the fields after a tag, each at the position where its fields were written. */
  lemma DecodeServerInfoAt(version: string, onlinePlayers: int, frame: seq<byte>, p: nat)
    requires IsInt32(onlinePlayers) && WriteUTF(version).Ok?
    requires p + |WriteUTF(version).value| + 4 <= |frame|
    requires frame[p..p + |WriteUTF(version).value| + 4] == WriteUTF(version).value + WriteInt(onlinePlayers)
    ensures DecodeServerInfo(Cursor(frame, p)) == Ok(ServerInfo(version, onlinePlayers))
  {
    var v := WriteUTF(version).value;
    SliceSplit(frame, p, v, WriteInt(onlinePlayers));
    ReadUTFAt(version, frame, p);
    ReadWriteInt(onlinePlayers, frame, p + |v|);
  }

  lemma DecodePlayerRemoveAt(uuidText: string, frame: seq<byte>, p: nat)
    requires WriteUTF(uuidText).Ok?
    requires p + |WriteUTF(uuidText).value| <= |frame|
    requires frame[p..p + |WriteUTF(uuidText).value|] == WriteUTF(uuidText).value
    ensures DecodePlayerRemove(Cursor(frame, p)) == Ok(PlayerRemove(uuidText))
  {
    ReadUTFAt(uuidText, frame, p);
  }

  /** Once the uuid field is read, what remains is the payload. */
  lemma PlayerDataStep(c: Cursor, g: Gzip, uuidText: string, next: Cursor)
    requires c.Valid() && next.Valid() && ReadUTF(c) == Ok((uuidText, next))
    ensures DecodePlayerData(c, g) == DecodePayload(uuidText, next, g)
  {
  }

  lemma DecodeSmallAt(uuidText: string, json: string, frame: seq<byte>, p: nat, g: Gzip)
    requires WriteUTF(uuidText).Ok? && WriteUTF(json).Ok?
    requires var fields := WriteUTF(uuidText).value + ([0] + WriteUTF(json).value);
      p + |fields| <= |frame| && frame[p..p + |fields|] == fields
    ensures DecodePlayerData(Cursor(frame, p), g) == Ok(PlayerData(uuidText, json))
  {
    var id := WriteUTF(uuidText).value;
    SliceSplit(frame, p, id, [0] + WriteUTF(json).value);
    ReadUTFAt(uuidText, frame, p);
    PlayerDataStep(Cursor(frame, p), g, uuidText, Cursor(frame, p + |id|));
    PlainPayloadAt(uuidText, json, frame, p + |id|, g);
  }

  lemma PlainPayloadAt(uuidText: string, json: string, frame: seq<byte>, p: nat, g: Gzip)
    requires WriteUTF(json).Ok?
    requires var fields := [0] + WriteUTF(json).value;
      p + |fields| <= |frame| && frame[p..p + |fields|] == fields
    ensures DecodePayload(uuidText, Cursor(frame, p), g) == Ok(PlayerData(uuidText, json))
  {
    SliceSplit(frame, p, [0], WriteUTF(json).value);
    ReadWriteBoolean(false, frame, p);
    ReadUTFAt(json, frame, p + 1);
  }

  lemma DecodeLargeAt(uuidText: string, packed: seq<byte>, frame: seq<byte>, p: nat, g: Gzip)
    requires WriteUTF(uuidText).Ok? && IsInt32(|packed|)
    requires var fields := WriteUTF(uuidText).value + ([1] + (WriteInt(|packed|) + packed));
      p + |fields| <= |frame| && frame[p..p + |fields|] == fields
    ensures DecodePlayerData(Cursor(frame, p), g) == Ok(PlayerData(uuidText, DecodeUtf8(g.decompress(packed))))
  {
    var id := WriteUTF(uuidText).value;
    SliceSplit(frame, p, id, [1] + (WriteInt(|packed|) + packed));
    ReadUTFAt(uuidText, frame, p);
    PlayerDataStep(Cursor(frame, p), g, uuidText, Cursor(frame, p + |id|));
    CompressedPayloadAt(uuidText, packed, frame, p + |id|, g);
  }

  lemma CompressedPayloadAt(uuidText: string, packed: seq<byte>, frame: seq<byte>, p: nat, g: Gzip)
    requires IsInt32(|packed|)
    requires var fields := [1] + (WriteInt(|packed|) + packed);
      p + |fields| <= |frame| && frame[p..p + |fields|] == fields
    ensures DecodePayload(uuidText, Cursor(frame, p), g) == Ok(PlayerData(uuidText, DecodeUtf8(g.decompress(packed))))
  {
    SliceSplit(frame, p, [1], WriteInt(|packed|) + packed);
    ReadWriteBoolean(true, frame, p);
    CompressedStep(uuidText, Cursor(frame, p), Cursor(frame, p + 1), g);
    DecodeCompressedAt(uuidText, packed, frame, p + 1, g);
  }

  /** A set compression flag hands over to the compressed reader. */
  lemma CompressedStep(uuidText: string, c: Cursor, next: Cursor, g: Gzip)
    requires c.Valid() && next.Valid() && ReadBoolean(c) == Ok((true, next))
    ensures DecodePayload(uuidText, c, g) == DecodeCompressed(uuidText, next, g)
  {
  }

  lemma DecodeCompressedAt(uuidText: string, packed: seq<byte>, frame: seq<byte>, p: nat, g: Gzip)
    requires IsInt32(|packed|)
    requires p + 4 + |packed| <= |frame| && frame[p..p + 4 + |packed|] == WriteInt(|packed|) + packed
    ensures DecodeCompressed(uuidText, Cursor(frame, p), g) == Ok(PlayerData(uuidText, DecodeUtf8(g.decompress(packed))))
  {
    SliceSplit(frame, p, WriteInt(|packed|), packed);
    ReadWriteInt(|packed|, frame, p);
  }

  /** The readers of the fields after a tag, on a frame whose fields follow any prefix. */
  lemma ServerInfoAfter(prefix: seq<byte>, version: string, onlinePlayers: int)
    requires IsInt32(onlinePlayers) && WriteUTF(version).Ok?
    ensures var frame := prefix + (WriteUTF(version).value + WriteInt(onlinePlayers));
      DecodeServerInfo(Cursor(frame, |prefix|)) == Ok(ServerInfo(version, onlinePlayers))
  {
    var rest := WriteUTF(version).value + WriteInt(onlinePlayers);
    AfterTag(prefix, rest);
    DecodeServerInfoAt(version, onlinePlayers, prefix + rest, |prefix|);
  }

  lemma PlayerRemoveAfter(prefix: seq<byte>, uuidText: string)
    requires WriteUTF(uuidText).Ok?
    ensures DecodePlayerRemove(Cursor(prefix + WriteUTF(uuidText).value, |prefix|)) == Ok(PlayerRemove(uuidText))
  {
    AfterTag(prefix, WriteUTF(uuidText).value);
    DecodePlayerRemoveAt(uuidText, prefix + WriteUTF(uuidText).value, |prefix|);
  }

  lemma SmallAfter(prefix: seq<byte>, uuidText: string, json: string, g: Gzip)
    requires WriteUTF(uuidText).Ok? && WriteUTF(json).Ok?
    ensures var frame := prefix + (WriteUTF(uuidText).value + ([0] + WriteUTF(json).value));
      DecodePlayerData(Cursor(frame, |prefix|), g) == Ok(PlayerData(uuidText, json))
  {
    var rest := WriteUTF(uuidText).value + ([0] + WriteUTF(json).value);
    AfterTag(prefix, rest);
    DecodeSmallAt(uuidText, json, prefix + rest, |prefix|, g);
  }

  lemma LargeAfter(prefix: seq<byte>, uuidText: string, packed: seq<byte>, g: Gzip)
    requires WriteUTF(uuidText).Ok? && IsInt32(|packed|)
    ensures var frame := prefix + (WriteUTF(uuidText).value + ([1] + (WriteInt(|packed|) + packed)));
      DecodePlayerData(Cursor(frame, |prefix|), g) == Ok(PlayerData(uuidText, DecodeUtf8(g.decompress(packed))))
  {
    var rest := WriteUTF(uuidText).value + ([1] + (WriteInt(|packed|) + packed));
    AfterTag(prefix, rest);
    DecodeLargeAt(uuidText, packed, prefix + rest, |prefix|, g);
  }

  /** The proxy reads back the uuid text and the JSON the backend framed, on both branches. */
  lemma PlayerDataRoundTrip(uuidText: string, json: string, g: Gzip)
    requires Lawful(g)
    requires EncodePlayerData(uuidText, json, g).Ok?
    ensures Decode(EncodePlayerData(uuidText, json, g).value, g) == Ok(PlayerData(uuidText, json))
  {
    var raw := Utf8(json);
    if |raw| > CompressThreshold {
      LargePayloadLayout(uuidText, json, g);
      var tag := WriteUTF(PlayerDataTag).value;
      var id := WriteUTF(uuidText).value;
      var packed := g.compress(raw);
      Regroup4(tag, id, [1], WriteInt(|packed|), packed);
      var rest := id + ([1] + (WriteInt(|packed|) + packed));
      DispatchPlayerData(rest, g);
      LargeAfter(tag, uuidText, packed, g);
      Utf8RoundTrip(json);
    } else {
      SmallPayloadLayout(uuidText, json, g);
      var tag := WriteUTF(PlayerDataTag).value;
      var id := WriteUTF(uuidText).value;
      var body := WriteUTF(json).value;
      Regroup3(tag, id, [0], body);
      DispatchPlayerData(id + ([0] + body), g);
      SmallAfter(tag, uuidText, json, g);
    }
  }

  lemma PlayerRemoveRoundTrip(uuidText: string, g: Gzip)
    requires EncodePlayerRemove(uuidText).Ok?
    ensures WriteUTF(PlayerRemoveTag).Ok? && WriteUTF(uuidText).Ok?
    ensures EncodePlayerRemove(uuidText).value == WriteUTF(PlayerRemoveTag).value + WriteUTF(uuidText).value
    ensures Decode(EncodePlayerRemove(uuidText).value, g) == Ok(PlayerRemove(uuidText))
  {
    var tag := WriteUTF(PlayerRemoveTag).value;
    var id := WriteUTF(uuidText).value;
    DispatchPlayerRemove(id, g);
    PlayerRemoveAfter(tag, uuidText);
  }

  lemma ServerInfoLayout(version: string, onlinePlayers: int)
    requires IsInt32(onlinePlayers)
    requires EncodeServerInfo(version, onlinePlayers).Ok?
    ensures WriteUTF(ServerInfoTag).Ok? && WriteUTF(version).Ok?
    ensures EncodeServerInfo(version, onlinePlayers).value ==
      WriteUTF(ServerInfoTag).value + WriteUTF(version).value + WriteInt(onlinePlayers)
  {
  }

  lemma Regroup2(a: seq<byte>, b: seq<byte>, c: seq<byte>)
    ensures a + b + c == a + (b + c)
  {
  }

  lemma ServerInfoRoundTrip(version: string, onlinePlayers: int, g: Gzip)
    requires IsInt32(onlinePlayers)
    requires EncodeServerInfo(version, onlinePlayers).Ok?
    ensures Decode(EncodeServerInfo(version, onlinePlayers).value, g) == Ok(ServerInfo(version, onlinePlayers))
  {
    ServerInfoLayout(version, onlinePlayers);
    var tag := WriteUTF(ServerInfoTag).value;
    var v := WriteUTF(version).value;
    Regroup2(tag, v, WriteInt(onlinePlayers));
    DispatchServerInfo(v + WriteInt(onlinePlayers), g);
    ServerInfoAfter(tag, version, onlinePlayers);
  }

  /** A "PlayerRemove" frame cut short anywhere before its last byte no longer decodes. */
  lemma TruncatedPlayerRemoveFails(uuidText: string, g: Gzip, k: nat)
    requires EncodePlayerRemove(uuidText).Ok? && k < |EncodePlayerRemove(uuidText).value|
    ensures Decode(EncodePlayerRemove(uuidText).value[..k], g).Err?
  {
    PlayerRemoveRoundTrip(uuidText, g);
    var tag := WriteUTF(PlayerRemoveTag).value;
    var id := WriteUTF(uuidText).value;
    PrefixOfConcat(tag, id, k);
    if k < |tag| {
      TruncatedTagFails(PlayerRemoveTag, k, g);
    } else {
      TruncatedUuidFails(uuidText, k - |tag|, g);
    }
  }

  lemma PrefixOfConcat(a: seq<byte>, b: seq<byte>, k: nat)
    requires k <= |a| + |b|
    ensures k < |a| ==> (a + b)[..k] == a[..k]
    ensures k >= |a| ==> (a + b)[..k] == a + b[..k - |a|]
  {
  }

  /** A frame cut inside its tag, whichever tag it is, no longer decodes. */
  lemma TruncatedTagFails(tag: string, k: nat, g: Gzip)
    requires WriteUTF(tag).Ok? && k < |WriteUTF(tag).value|
    ensures Decode(WriteUTF(tag).value[..k], g).Err?
  {
    var part := WriteUTF(tag).value[..k];
    TruncatedReadUTFFails([], tag, k);
    assert [] + part == part;
    DecodeFailsOnTag(part, g);
  }

  lemma TruncatedUuidFails(uuidText: string, j: nat, g: Gzip)
    requires WriteUTF(PlayerRemoveTag).Ok? && WriteUTF(uuidText).Ok? && j < |WriteUTF(uuidText).value|
    ensures Decode(WriteUTF(PlayerRemoveTag).value + WriteUTF(uuidText).value[..j], g).Err?
  {
    var tag := WriteUTF(PlayerRemoveTag).value;
    var part := WriteUTF(uuidText).value[..j];
    DispatchPlayerRemove(part, g);
    TruncatedReadUTFFails(tag, uuidText, j);
    RemoveFailsOnUuid(Cursor(tag + part, |tag|));
  }

  lemma DecodeFailsOnTag(frame: seq<byte>, g: Gzip)
    requires ReadUTF(Cursor(frame, 0)).Err?
    ensures Decode(frame, g).Err?
  {
  }

  lemma RemoveFailsOnUuid(c: Cursor)
    requires c.Valid() && ReadUTF(c).Err?
    ensures DecodePlayerRemove(c).Err?
  {
  }

  /**
   * A "PlayerData" frame cut short anywhere before its last byte no longer decodes, on
   * both layouts: inside the tag or the uuid, before the flag, inside `writeUTF(json)`,
   * or inside the block length or the compressed block.
   */
  lemma TruncatedPlayerDataFails(uuidText: string, json: string, g: Gzip, k: nat)
    requires EncodePlayerData(uuidText, json, g).Ok? && k < |EncodePlayerData(uuidText, json, g).value|
    ensures Decode(EncodePlayerData(uuidText, json, g).value[..k], g).Err?
  {
    FlagByte(uuidText, json, g);
    var frame := EncodePlayerData(uuidText, json, g).value;
    var tag := WriteUTF(PlayerDataTag).value;
    var id := WriteUTF(uuidText).value;
    var raw := Utf8(json);
    var fields: seq<byte>;
    if |raw| > CompressThreshold {
      LargePayloadLayout(uuidText, json, g);
      var packed := g.compress(raw);
      fields := [1] + (WriteInt(|packed|) + packed);
      Regroup4(tag, id, [1], WriteInt(|packed|), packed);
    } else {
      SmallPayloadLayout(uuidText, json, g);
      fields := [0] + WriteUTF(json).value;
      Regroup3(tag, id, [0], WriteUTF(json).value);
    }
    assert frame == tag + (id + fields);
    PrefixOfConcat(tag, id + fields, k);
    if k < |tag| {
      TruncatedTagFails(PlayerDataTag, k, g);
    } else {
      var j := k - |tag|;
      var part := (id + fields)[..j];
      DispatchPlayerData(part, g);
      if j >= |id| {
        if |raw| > CompressThreshold {
          var packed := g.compress(raw);
          CompressedPayloadCutFails(uuidText, tag + id, packed, j - |id|, g);
        } else {
          PlainPayloadCutFails(uuidText, tag + id, json, j - |id|, g);
        }
      }
      PlayerDataCutFails(tag, uuidText, fields, j, g);
    }
  }

  /**
   * After the tag, a cut inside the uuid field fails; a cut after it fails when the cut
   * payload does.
   */
  lemma PlayerDataCutFails(tag: seq<byte>, uuidText: string, fields: seq<byte>, j: nat, g: Gzip)
    requires WriteUTF(uuidText).Ok? && j < |WriteUTF(uuidText).value| + |fields|
    requires var id := WriteUTF(uuidText).value;
      j >= |id| ==> DecodePayload(uuidText, Cursor(tag + id + fields[..j - |id|], |tag + id|), g).Err?
    ensures var part := (WriteUTF(uuidText).value + fields)[..j];
      DecodePlayerData(Cursor(tag + part, |tag|), g).Err?
  {
    var id := WriteUTF(uuidText).value;
    var part := (id + fields)[..j];
    PrefixOfConcat(id, fields, j);
    if j < |id| {
      TruncatedReadUTFFails(tag, uuidText, j);
    } else {
      var data := tag + part;
      assert data == tag + id + fields[..j - |id|];
      assert data[|tag|..|tag| + |id|] == id;
      ReadUTFAt(uuidText, data, |tag|);
      PlayerDataStep(Cursor(data, |tag|), g, uuidText, Cursor(data, |tag| + |id|));
    }
  }

  /** The uncompressed payload cut short: the flag or `writeUTF(json)` is incomplete. */
  lemma PlainPayloadCutFails(uuidText: string, prefix: seq<byte>, json: string, j: nat, g: Gzip)
    requires WriteUTF(json).Ok? && j < 1 + |WriteUTF(json).value|
    ensures DecodePayload(uuidText, Cursor(prefix + ([0] + WriteUTF(json).value)[..j], |prefix|), g).Err?
  {
    var body := WriteUTF(json).value;
    var data := prefix + ([0] + body)[..j];
    PrefixOfConcat([0], body, j);
    if j > 0 {
      assert data == (prefix + [0]) + body[..j - 1];
      ReadWriteBoolean(false, data, |prefix|);
      TruncatedReadUTFFails(prefix + [0], json, j - 1);
    }
  }

  /** The compressed payload cut short: the flag, the block length or the block is incomplete. */
  lemma CompressedPayloadCutFails(uuidText: string, prefix: seq<byte>, packed: seq<byte>, j: nat, g: Gzip)
    requires IsInt32(|packed|) && j < 5 + |packed|
    ensures DecodePayload(uuidText, Cursor(prefix + ([1] + (WriteInt(|packed|) + packed))[..j], |prefix|), g).Err?
  {
    var rest := WriteInt(|packed|) + packed;
    var data := prefix + ([1] + rest)[..j];
    PrefixOfConcat([1], rest, j);
    if j > 0 {
      assert data == (prefix + [1]) + rest[..j - 1];
      ReadWriteBoolean(true, data, |prefix|);
      CompressedStep(uuidText, Cursor(data, |prefix|), Cursor(data, |prefix| + 1), g);
      if j >= 5 {
        PrefixOfConcat(WriteInt(|packed|), packed, j - 1);
        assert data[|prefix| + 1..|prefix| + 5] == WriteInt(|packed|);
        ReadWriteInt(|packed|, data, |prefix| + 1);
      }
    }
  }
}
